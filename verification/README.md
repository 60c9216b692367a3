# hufu command layer: a verified model

Hufu is a command line for teams of agents. Its `cmd/hufu` package holds, between the commands
and the engine, a number of small algorithms and state machines. This project models the ones
with the most branching and state, and proves what they promise and where they stop promising it.
Imperative code is modelled by methods with loops and by classes with the same fields. Each method
is proved against a specification, and the specification's own properties are proved as lemmas.

| part of the system | files |
|---|---|
| bounded preview wrapper | `preview_wrapper.dfy`, `preview_wrapper_laws.dfy` |
| latest-wins snapshot mailbox | `snapshot_mailbox.dfy` |
| memory lifecycle, supersession graph, consolidation cascade, import, history | `memory_store.dfy`, `memory_commands.dfy`, `memory_laws.dfy`, `memory_graph.dfy`, `memory_approvals.dfy`, `memory_rests.dfy`, `memory_identity.dfy`, `memory_runs.dfy`, `memory_history.dfy`, `memory_effects.dfy`, `memory_proposals.dfy` |
| duplicate-key JSON scanner and context overlay | `json_scanner.dfy`, `context_overlay.dfy` |
| backend namespace unification and its preflight | `backend_names.dfy`, `backends.dfy`, `backend_laws.dfy`, `backend_fields.dfy` |
| execution targets and their preflight | `execution_targets.dfy`, `target_preflight.dfy` |
| capped rollout search | `rollout_search.dfy` |
| clustering of memories | `consolidation_clusters.dfy`, `ordering.dfy`, `nul_text.dfy` |
| review revisions | `review_revision.dfy`, `nul_text.dfy` |
| causality of a cancelled run | `explain_causality.dfy` |
| nested configuration maps | `config_tree.dfy` |
| per-task text buffers, and events handled at the same time | `text_buffers.dfy`, `text_shown.dfy`, `text_races.dfy` |
| chat turns, resets and team changes | `chat_turns.dfy` |
| string helpers on ASCII text, optional values, sequences | `texts.dfy`, `options.dfy`, `sequences.dfy` |

`dafny verify dfyconfig.toml` checks everything.

## What the proofs brought out

- A preview may have one line more than `maxLines`: a blank line can take the last slot without ending
  the run. A text that needs exactly `maxLines` lines is shown with an ellipsis although nothing is lost.
  The exact result is `PreviewWrapper.Bounded`.
- When snapshot requests overlap, an older one can displace the newest, which is then never answered.
  The newest request of a quiet mailbox is answered exactly when it was not displaced.
- `context supersede a --with a` is accepted, and `context history a` then never ends. Supersede keeps the
  graph free of cycles exactly when the replacement is not among the replaced items.
- Confirming candidates keeps the graph free of cycles exactly when none of them names the item its own chain
  ends in by the time it is confirmed. An import can leave a superseded candidate that does, and the
  confirmation is accepted. A candidate is refused when an item it names rests on one it names earlier.
- An accepted supersede leaves its replacement confirmed exactly when the replacement rests on none of the items
  it replaces, as a consolidation of them or of consolidations of them. A run of commands reaches a store in which
  an item's replacement is no longer confirmed.
- Not every superseded item is Confirmed. In every store reached without imports it is exactly when it is ordinary
  or its proposal is still approved; a run of commands reaches one that is not. Imports also link candidates.
- What an operator has rejected stays rejected over every run of commands, and so does the candidate of a refused
  proposal. `context reject a a` fails, and leaves the evidence of a rejection bound to a candidate.
- A second application of the backend configuration fails as soon as any backend is configured or a global
  provider key is not canonical. After a failed application the provider and agent maps are unchanged, but
  the default backend may already have been rewritten.
- A valid target is read back from its text as itself unless it uses the historical alias `local`. A backend
  configured under a name that is not a plain one is accepted, but a qualified selector can never reach it.
- When reasoning events of one task are handled at the same time, text can be dropped without being shown, or
  shown twice. All is shown once exactly when no handler finds the buffer changed between the read that sent it
  over the limit and its flush.
- A cancellation request after the end of a run is reported as its verified cause once the run end has
  been cut off the timeline. With the run end kept, a cut that drops a request changes the verdict.
- Two proposals whose fields hold no NUL never share a review text. Every proposal with a NUL in a field shares its
  text with another; no field the repository writes holds one.

## Model

| member | source | states |
|---|---|---|
| PreviewWrapper.WrapPreviewLines | cmd/hufu/display.go:965-1056 | the wrapper with all its early exits returns the unlimited layout under the exact rule for the line limit, and nothing for empty text or a limit that is not positive |
| PreviewWrapper.WrapWord | cmd/hufu/display.go:992-1041 | the loop over one word ends, and either leaves the run open with the word placed, or has stopped with the preview of everything still to come |
| PreviewWrapper.CutChunk | cmd/hufu/display.go:1009-1024 | a chunk of an overlong word is as much of it as fits, or a question mark for a wide grapheme on a one-cell line, and the offset advances past exactly the graphemes shown |
| PreviewWrapper.TruncatePreviewLines | cmd/hufu/display.go:1058-1070 | the end of the last line gives way to as much of an ellipsis as its width admits |
| PreviewWrapper.CutAtBoundary | cmd/hufu/display.go:1009-1009 | cutting a word between two cell columns that start at a grapheme is truncating the rest of the word |
| PreviewWrapperLaws.PreviewFits | cmd/hufu/display.go:965-1070 | every line of every preview, also the ellipsised one, fits the width of its index |
| PreviewWrapperLaws.PreviewLength | cmd/hufu/display.go:1043-1052 | at most one line more than the limit, and exactly then when the line at the limit is blank and the next is not; fewer lines than the limit exactly when the layout has fewer |
| PreviewWrapperLaws.ExtraLine | cmd/hufu/display.go:1043-1052 | for any widths, a text of two words around a blank line whose preview of at most two lines has three |
| PreviewWrapperLaws.LayoutKeepsText | cmd/hufu/display.go:992-1041 | the graphemes of all words appear in order, none lost or added, up to the question mark on one-cell lines |
| PreviewWrapperLaws.LayoutHasNoDots | cmd/hufu/display.go:1067-1068 | an unlimited layout never ends in a mark of an ellipsis |
| PreviewWrapperLaws.WholePreview | cmd/hufu/display.go:982-1055 | a preview is the whole layout exactly when the layout leaves the run open, and otherwise ends in an ellipsis |
| PreviewWrapperLaws.TrimmedPreview | cmd/hufu/display.go:966-1055 | for trimmed text whose last line shows something the preview is whole exactly when the layout has fewer lines than the limit, so text of exactly that many lines gets an ellipsis |
| PreviewWrapperLaws.CutPreview | cmd/hufu/display.go:1058-1070 | a cut preview has the lines of the layout up to its last one, which is the longest beginning of its own line that leaves room for as many of three dots as the width admits, and then those dots |
| PreviewWrapperLaws.WordAfterWords | cmd/hufu/display.go:1030-1039 | a further word goes on the line with a space before it exactly when there is room for both, and otherwise the line ends and it goes on from the next |
| PreviewWrapperLaws.WordIsCutUp | cmd/hufu/display.go:1001-1028 | a word too wide for its line is cut into lines of which none could take one grapheme more, and what is left begins the next line |
| PreviewWrapperLaws.GreedyMonotone | cmd/hufu/display.go:992-1041 | greedy filling stays ahead: with fewer words left it needs no more lines, under widths that depend on the line index |
| PreviewWrapperLaws.EmitGreedy | cmd/hufu/display.go:992-1052 | the loop emits the greedy split of a source line whose words fit |
| PreviewWrapperLaws.GreedyIsOptimal | cmd/hufu/display.go:971-1041 | no other split of the words into consecutive lines that fit uses fewer lines than the wrapper |
| SnapshotMailbox.InvKept | cmd/hufu/display.go:1303-1354 | every step of callers, worker and stop keeps the invariant: mutual exclusion, at most one generation in the box, every generation in exactly one place |
| SnapshotMailbox.RunKeepsInv | cmd/hufu/display.go:1303-1354 | the invariant holds at the end of every interleaving |
| SnapshotMailbox.SendNeverBlocks | cmd/hufu/display.go:1339-1347 | a caller that has drained the box can always put its generation in, also after stop, and while a call is in progress some caller can move |
| SnapshotMailbox.MessagesAreFresh | cmd/hufu/display.go:1318-1334 | delivered generations strictly increase, details only follow their own snapshot, and each message's generation was the newest when the worker compared it |
| SnapshotMailbox.NewestAnsweredUnlessDisplaced | cmd/hufu/display.go:1309-1348 | in a quiet mailbox that was not stopped the newest request has been answered exactly when no other call displaced it |
| SnapshotMailbox.DisplacedByOlderCall | cmd/hufu/display.go:1339-1348 | only a call with an older generation can displace the newest one |
| SnapshotMailbox.NewestAnswered | cmd/hufu/display.go:1339-1348 | when calls do not overlap, the worker of a quiet mailbox took the newest generation last and reported it |
| SnapshotMailbox.OutcomeIsTheQuery | cmd/hufu/display.go:1315-1325 | the outcome recorded for a generation is that of its own query, and the worker holds a snapshot exactly when the query returned one |
| SnapshotMailbox.MessagesSayTheOutcome | cmd/hufu/display.go:1317-1334 | in every interleaving a snapshot and its details are sent only for a generation whose query returned one, and unavailability only for one whose query did not |
| SnapshotMailbox.NewestAnswerSaysTheOutcome | cmd/hufu/display.go:1317-1334 | in a quiet mailbox the last messages for a newest request that was not displaced are its snapshot and its details exactly when its query returned one, and that none is available exactly when it did not |
| SnapshotMailbox.StopSilences | cmd/hufu/display.go:1311-1333 | after the stop no unavailability is decided on, and the worker exits only then |
| SnapshotMailbox.OverlapCanLoseTheNewest | cmd/hufu/display.go:1340-1347 | a concrete interleaving of two calls in which the newest request is never answered |
| MemoryStore.DemotedIsClosed | internal/context/consolidation_cascade.go:17-22 | the demoted items include the consolidations of demoted items |
| MemoryStore.DemotedIsLeast | internal/context/consolidation_cascade.go:17-22 | nothing is demoted that need not be |
| MemoryStore.DemoteDerived | internal/context/consolidation_cascade.go:23-77 | the work list ends with exactly the least closed set demoted and exactly the open proposals that rest on it or on the root stale |
| MemoryCommands.Repository.MarkSuperseded | internal/context/sqlite_repository.go:1046-1071 | sets the links of all old items to the replacement, with the cascade after each |
| MemoryCommands.Repository.ConfirmCandidates | internal/context/sqlite_repository.go:1182-1213 | confirms all candidates with their recorded supersession links, or none |
| MemoryCommands.Repository.ConfirmCandidateTx | internal/context/item_tx.go:37-96 | confirms one candidate and supersedes the items it names, provided each is current and no other candidate of the transaction names it |
| MemoryCommands.Repository.RejectCandidates | internal/context/sqlite_repository.go:1079-1113 | rejects all ordinary candidates given, or none |
| MemoryCommands.Repository.LoadExactMutationItems | cmd/hufu/contextcmd.go:386-397 | succeeds exactly when all items exist in the requested scope |
| MemoryCommands.Repository.CheckReviewable | cmd/hufu/contextcmd.go:423-434 | the checks before confirm and reject succeed exactly on existing ordinary candidates of the scope |
| MemoryCommands.Repository.RunContextConfirm | cmd/hufu/contextcmd.go:414-443 | succeeds and changes the store as the command's specification says, or leaves it unchanged |
| MemoryCommands.Repository.BindCandidates | internal/context/sqlite_repository.go:1119-1174 | binds evidence to all ordinary candidates given, or to none |
| MemoryCommands.Repository.RunContextReject | cmd/hufu/contextcmd.go:445-477 | binds evidence of the rejection and then rejects, in two transactions, as the command's specification says |
| MemoryCommands.Repository.RunContextSupersede | cmd/hufu/contextcmd.go:479-516 | the same for supersede, which demands current items of one identity and does not compare replacement and replaced |
| MemoryCommands.Repository.MigrateSupersessions | cmd/hufu/contextcmd.go:319-345 | applies the links of the live legacy records in order, unknown ids dropped |
| MemoryCommands.Repository.RunContextMigrateMemory | cmd/hufu/contextcmd.go:278-354 | adds the new rows and applies the links, or is refused and changes nothing |
| MemoryLaws.RelinkKeepsEnds | cmd/hufu/contextcmd.go:868-876 | turning the links of unlinked items to a replacement keeps every chain ending exactly when the replacement's chain does not end in one of them |
| MemoryLaws.SupersedeKeepsEnds | cmd/hufu/contextcmd.go:479-516 | an accepted supersede keeps the graph free of cycles exactly when the replacement is not among the old ids |
| MemoryLaws.ConfirmKeepsEnds | internal/context/item_tx.go:70-94 | an accepted confirmation of one candidate keeps the graph free of cycles exactly when the candidate does not name the end of its own chain |
| MemoryLaws.SupersedeAllEvolves | internal/context/sqlite_repository.go:1055-1069 | superseding changes the links of the named items only, and lifecycles only by demoting confirmed consolidated items |
| MemoryLaws.LinkOlderEvolves | internal/context/item_tx.go:70-94 | confirming links exactly the items the candidate names, each of them current before |
| MemoryLaws.DemotedHasCause | internal/context/consolidation_cascade.go:44-69 | an item is demoted only through an approved proposal that owns it and rests on something invalid |
| MemoryGraph.ConfirmAllKeepsEnds | internal/context/sqlite_repository.go:1195-1211 | an accepted confirmation of several candidates leaves no cycle exactly when, one after the other, none names the end of its chain, which is a matter of the links before the command alone |
| MemoryGraph.ImportLinksExactly | cmd/hufu/contextcmd.go:326-345 | after an import each item is linked to what the last live record that names it gives it, and else as before |
| MemoryGraph.ImportKeepsEnds | cmd/hufu/contextcmd.go:326-345 | an import leaves no cycle exactly when the legacy relation, put over the links there are, has none |
| MemoryGraph.CommandKeepsEnds | cmd/hufu/contextcmd.go:278-516 | from any store without cycles, a command leaves none exactly when it is harmless there; for every command the condition is on the store before it |
| MemoryGraph.CyclesStay | internal/context/item_tx.go:79-82 | a cycle, once there, stays whatever command other than an import follows |
| MemoryGraph.RunKeepsEnds | cmd/hufu/contextcmd.go:278-516 | from any store without cycles, a run never has one exactly when each command, imports included, is harmless in the store it finds |
| MemoryGraph.EndOfRunTells | cmd/hufu/contextcmd.go:414-516 | without imports, the store at the end of a run is free of cycles exactly when each command was harmless |
| MemoryRests.DemotedIsResting | internal/context/consolidation_cascade.go:17-22 | the cascade of an item demotes exactly what rests on it through a chain of approved consolidations |
| MemoryRests.ConfirmedAfterSupersede | internal/context/sqlite_repository.go:1055-1069 | after any items were superseded, an item that was Confirmed still is exactly when it rested on none of them before |
| MemoryRests.ReplacementStaysConfirmed | cmd/hufu/contextcmd.go:496-507 | after an accepted supersede the replacement is still Confirmed exactly when it rests on none of the items it replaces |
| MemoryRests.CascadeExactly | internal/context/consolidation_cascade.go:40-94 | after the cascade of an item a proposal is stale exactly when it was, or when it was proposed or approved and an existing item of its project among its sources is that item or was demoted; items change by that demotion only |
| MemoryRests.ProposalsAfterSupersede | internal/context/sqlite_repository.go:1055-1069 | the same for any items superseded, one after the other |
| MemoryEffects.SupersedeExactly | cmd/hufu/contextcmd.go:479-516 | supersede is accepted exactly when all items are of the scope, confirmed, not superseded and of the identity of the replacement; then the old items are linked to it, what was confirmed and rests on one of them is a candidate, proposals go stale as above and nothing else changes; a refused one changes nothing |
| MemoryEffects.LinkOlderAccepts | internal/context/item_tx.go:70-94 | the items a candidate names are accepted exactly when each is current and free and none is named twice or rests on one named before it |
| MemoryEffects.ConfirmTxExactly | internal/context/item_tx.go:37-96 | one candidate is confirmed exactly when it is one and the items it names are accepted, and that amounts to superseding them by it |
| MemoryEffects.ConfirmAllDoes | internal/context/sqlite_repository.go:1195-1211 | an accepted confirmation confirms every candidate given, links every item that one of them names to one that names it, and leaves all other links |
| MemoryEffects.ReviewableExactly | cmd/hufu/contextcmd.go:386-434 | the checks before confirm and reject, on the fields of the items |
| MemoryEffects.RejectDoes | cmd/hufu/contextcmd.go:445-477 | a rejection that passes its checks marks exactly the candidates given as rejected by the operator, rejects exactly those unless one is given twice, and changes nothing else |
| MemoryEffects.RejectionIsFinal | internal/context/reserved_source.go:43-55 | over every run of commands, imports and refreshes included, an item that an operator rejected stays rejected and keeps the evidence |
| MemoryEffects.ApproveDoes | internal/context/consolidation_tx.go:208-259 | an approval turns a proposed proposal approved and its candidate confirmed, and nothing it supersedes on the way withdraws either |
| MemoryEffects.KnownExactly | cmd/hufu/contextcmd.go:334-339 | the items superseded for a legacy record are those its names stand for, unknown names passed over |
| MemoryEffects.CanonicalIDsExactly | cmd/hufu/contextcmd.go:319-325 | a legacy id stands for the item of the last record that carries it |
| MemoryApprovals.CascadeRestoresGround | internal/context/consolidation_cascade.go:23-77 | after the cascade every approved consolidation again rests on current knowledge only |
| MemoryApprovals.DemoteKeepsOwned | internal/context/consolidation_cascade.go:44-69 | after the cascade a consolidated item is again Confirmed exactly while its proposal is approved |
| MemoryApprovals.SupersedeAllKeepsGround | internal/context/sqlite_repository.go:1046-1071 | whatever is superseded, no approved consolidation is left on a stale source |
| MemoryApprovals.CommandKeepsApprovals | internal/context/consolidation_tx.go:70-319 | every command, imports included, keeps approved consolidations grounded and in step with the items they own, from any store in which they are |
| MemoryIdentity.ImportKeepsIdentity | cmd/hufu/contextcmd.go:326-345 | an import keeps linked items of one identity exactly when each of its links leads to an existing item of the identity of the one it replaces |
| MemoryIdentity.CommandKeepsIdentity | cmd/hufu/contextcmd.go:496-507 | every command keeps linked and named items of one identity, given that a new id is not already named by an item of another and that what is imported fits |
| MemoryIdentity.ConfirmAllIdentityExactly | internal/context/item_tx.go:70-94 | an accepted confirmation leaves one identity along links exactly when there was and every item named shares the identity of its candidate |
| MemoryIdentity.CommandIdentityExactly | cmd/hufu/contextcmd.go:278-516 | from any store with one identity along links, a command keeps it so exactly when it meets its condition on the store before it |
| MemoryIdentity.RunIdentityExactly | cmd/hufu/contextcmd.go:278-516 | over any run, imports included, links always keep one identity exactly when each command meets its condition where it comes |
| MemoryRuns.CommandKeepsSettled | cmd/hufu/contextcmd.go:414-516 | every command but an import keeps superseded ordinary items Confirmed and named items known |
| MemoryRuns.RunFromEmpty | cmd/hufu/contextcmd.go:414-516 | all invariants hold after every run of commands from the empty store without imports in which no item is replaced by itself |
| MemoryRuns.AnyRunFromEmpty | cmd/hufu/contextcmd.go:278-516 | over any run, imports included, approvals are sound, cycles are absent exactly when each command was harmless, and links always keep one identity exactly when each command met its condition for that |
| MemoryRuns.RunKeepsApprovals | internal/context/consolidation_cascade.go:17-22 | over every run from any store with sound approvals, imports included, approvals are sound |
| MemoryRuns.RunKeepsIdentity | cmd/hufu/contextcmd.go:496-507 | over every run from any store with one identity along links and names, in which what is added fits, it stays so |
| MemoryRuns.SupersededInRuns | cmd/hufu/contextcmd.go:499-502 | in every store reached without imports a superseded item is Confirmed exactly when it is ordinary or its proposal is approved |
| MemoryRuns.SupersededCandidateIsReached | cmd/hufu/contextcmd.go:499-507 | for any ids, a run of seven commands after which an item is superseded and a candidate |
| MemoryRuns.SupersededBecomesCandidate | internal/context/consolidation_cascade.go:59-69 | superseding a source makes a superseded consolidation a candidate that stays superseded |
| MemoryRuns.SelfReplacementIsAccepted | cmd/hufu/contextcmd.go:496-507 | replacing any current item by itself passes every check and makes a chain endless |
| MemoryRuns.ConfirmCanCloseACycle | cmd/hufu/contextcmd.go:430-437 | confirming a superseded candidate that names the end of its chain passes every check and closes a cycle |
| MemoryRuns.ImportCanPrepareACycle | cmd/hufu/contextcmd.go:326-345 | for any ids, an import of two records into the empty store that leaves no cycle and a candidate whose confirmation is accepted and closes one |
| MemoryRuns.UnconfirmedReplacementIsReached | cmd/hufu/contextcmd.go:496-507 | for any ids, a run of six commands after which an item's replacement is a candidate: the consolidation made from it |
| MemoryRuns.RejectExactly | cmd/hufu/contextcmd.go:461-471 | a rejection that passes its checks fails exactly when an id is given twice, and then leaves the evidence of a rejection bound to candidates |
| MemoryProposals.RunForward | internal/context/consolidation_tx.go:208-357 | over every run, imports included, a proposal stays with its candidate and sources, and its status moves only from proposed to approved, from either to stale and from any to refused; items keep their identity |
| MemoryProposals.RefusalIsFinal | internal/context/consolidation_tx.go:261-319 | after a refusal, over every further run, the proposal stays refused and its candidate rejected with the evidence |
| MemoryProposals.RunKeepsConsolidating | internal/context/consolidation_tx.go:70-205 | in every store reached from one where it is so, each proposal is about two or more existing items of its project and of one identity |
| MemoryHistory.RunContextHistory | cmd/hufu/contextcmd.go:841-878 | succeeds exactly for a visible item of the scope, and lists the walk from it through the items its query returned |
| MemoryHistory.QueriedExactly | cmd/hufu/contextcmd.go:860-867 | the walk goes through the stored items of the project that are of the team asked for or of none |
| MemoryHistory.WalkEndsExactly | cmd/hufu/contextcmd.go:868-876 | the walk ends exactly when it does within as many entries as the query returned, which is when the item's own chain ends or leaves them |
| MemoryHistory.HistoryAfterSelfReplacement | cmd/hufu/contextcmd.go:869-876 | after an item was replaced by itself the walk from it does not end |
| MemoryHistory.HistoryIsWhole | cmd/hufu/contextcmd.go:854-876 | where linked items share their identity, the history of an item whose chain ends has no more entries than there are items, follows each link to the chain's end, every entry is visible to the caller that was checked once, and every entry's chain ends in the same head |
| MemoryHistory.ChainIsComplete | cmd/hufu/contextcmd.go:868-876 | each entry is linked to the next, and all share the identity of the first |
| MemoryHistory.NoRepeats | cmd/hufu/contextcmd.go:869-876 | no item appears twice in a history |
| JsonScanner.ScanDecisionRTJSONValue | cmd/hufu/decisionrt_input.go:162-209 | the recursive scan over the decoder succeeds and moves the cursor exactly as its specification on token positions says |
| JsonScanner.RejectDecisionRTDuplicateJSONKeys | cmd/hufu/decisionrt_input.go:153-217 | accepts exactly the token sequences of one JSON value in which no object at any depth repeats a name |
| JsonScanner.ScanComplete | cmd/hufu/decisionrt_input.go:162-209 | on the tokens of a value, whatever follows them, the scan stops right behind it, and fails exactly when a name repeats |
| JsonScanner.ScanSound | cmd/hufu/decisionrt_input.go:162-209 | whatever the scan accepts is the tokens of a value without repeated names |
| JsonScanner.AcceptedExactly | cmd/hufu/decisionrt_input.go:153-217 | both directions together, for every token sequence and every value it may stand for |
| JsonScanner.UniqueNamesExactly | cmd/hufu/decisionrt_input.go:162-209 | names are unique exactly when no object that stands anywhere inside the value has two members of one name |
| ContextOverlay.MergeDecisionRTContext | cmd/hufu/decisionrt_input.go:231-235 | the source layer wins over the target, in whatever order its keys come |
| ContextOverlay.BuildDecisionRTContext | cmd/hufu/decisionrt_input.go:59-105 | succeeds exactly when both layers are objects and the assignments are well-formed, scalar and of different keys; every key has the value of its assignment, else of the JSON text, else of the file |
| ContextOverlay.AssignmentExactly | cmd/hufu/decisionrt_input.go:89-93 | the first equals sign ends the key and everything after it is the text; an assignment without one, or with an empty key, names nothing |
| BackendNames.CanonicalTwice | internal/execution/target.go:73-79 | canonical names are stable, and never the historical alias |
| BackendNames.CanonicalExactly | internal/execution/target.go:62-79 | a name is taken without the blanks around it and with its letters in lower case, and `local` as `ollama` |
| Texts.TrimExactly | internal/execution/target.go:66-67 | trimming takes exactly the blanks off both ends |
| Texts.TrimsToNothing | internal/context/sqlite_repository.go:1197-1199 | the ids passed over are exactly those of blanks alone |
| Backends.CanonicalLegacyProviders | cmd/hufu/backend_config.go:134-151 | succeeds exactly when the canonical names are non-empty and different and every provider is valid; carries every entry over under its canonical name |
| Backends.CanonicalLegacyAgentBackends | cmd/hufu/backend_config.go:153-169 | the same for agent backends |
| Backends.CanonicalBackends | cmd/hufu/backend_config.go:59-69 | the same for configured backends, without validity |
| Backends.MergeBuiltInCodexBackendConfig | cmd/hufu/backend_config.go:175-214 | succeeds exactly on a valid overlay; a field is overridden exactly when it occurs in the configuration |
| Backends.PlaceBackends | cmd/hufu/backend_config.go:70-128 | succeeds exactly when every backend is valid and its name free, in whatever order they come |
| Backends.Session.ApplyConfiguredBackends | cmd/hufu/backend_config.go:17-132 | succeeds exactly when the configuration is unifiable, then has every legacy entry and backend under its canonical name and nothing else; on failure providers and agents are unchanged, and the default backend changed only if the legacy checks passed |
| BackendFields.LLMBackendInstalled | cmd/hufu/backend_config.go:81-98 | after a successful application every language-model backend has its own address, key, protocol, type and maximum under its canonical name |
| BackendFields.AgentBackendInstalled | cmd/hufu/backend_config.go:99-124 | the same for every agent backend other than codex, field by field |
| BackendFields.CodexInstalled | cmd/hufu/backend_config.go:117-214 | the codex backend has each field as configured when it occurs there, and the built-in value otherwise |
| BackendFields.LegacyProviderInstalled | cmd/hufu/backend_config.go:134-151 | every legacy provider stays as it is, with its protocol in lower case and trimmed |
| BackendFields.LegacyAgentInstalled | cmd/hufu/backend_config.go:153-169 | every legacy agent backend stays as it is |
| BackendFields.NothingElseInstalled | cmd/hufu/backend_config.go:70-130 | no other name is installed |
| BackendFields.UnifiableExactly | cmd/hufu/backend_config.go:26-128 | the application succeeds exactly when no two entries of all three kinds share a canonical name, none is empty, and each entry has the kind, type, protocol and fields its kind admits |
| BackendFields.GoodLegacyExactly | cmd/hufu/backend_config.go:26-46 | the legacy checks alone succeed exactly when that is so of the legacy entries |
| BackendFields.DefaultExactly | cmd/hufu/backend_config.go:48-57 | the default is the canonical name of the session's own, else of the global one unless the session is restored |
| BackendFields.OccursExactly | internal/config/config.go:98-130 | a field occurs when the file has it, and in a configuration made by the program when it is not empty |
| BackendLaws.OrderDoesNotMatter | cmd/hufu/backend_config.go:42-128 | there is one result: two applications that go through the maps in different orders agree |
| BackendLaws.SecondApplication | cmd/hufu/backend_config.go:17-132 | a second application on the same session succeeds exactly when no backend is configured and the global provider keys are canonical |
| BackendLaws.SecondChangesNothing | cmd/hufu/backend_config.go:17-132 | a second application that succeeds changes no map |
| BackendLaws.PreflightNamespaces | cmd/hufu/execution_target_preflight.go:39-70 | the namespace loops succeed exactly when names are neither reserved nor shared, and yield disjoint namespaces with every agent backend from its entry |
| BackendLaws.AddAgentBackends | cmd/hufu/execution_target_preflight.go:51-70 | each agent backend is the built-in one or comes from an entry of that name, codex with its default command when it has none |
| BackendLaws.PreflightAfterUnification | cmd/hufu/execution_target_preflight.go:44-70 | after a successful unification the namespace loops fail exactly when a provider is named codex |
| ExecutionTargets.TargetReadsBack | internal/execution/target.go:116-149 | the text of a valid target parses to the target, up to the historical alias, and to the target itself exactly without the alias |
| ExecutionTargets.SelectionIsStable | internal/execution/target.go:38-61 | what a qualified selector selects is a valid target free of the alias, whose text selects it again |
| ExecutionTargets.ParseQualified | internal/execution/target.go:46-60 | the first slash ends the backend: the selector parses to its canonical name and all of the rest as the model, and fails exactly when a part is empty or holds a blank or the canonical name is not a plain one |
| ExecutionTargets.PlainNameExactly | internal/execution/target.go:10-10 | a plain name is of lower-case letters, digits, dots, underscores and hyphens, and begins with none of the last three |
| ExecutionTargets.ParseBare | internal/execution/target.go:38-49 | a selector without a slash is a model, unless it is empty or holds a blank |
| TargetPreflight.PreflightExecutionTargets | cmd/hufu/execution_target_preflight.go:28-173 | succeeds only where the namespaces are sound, the default is a language-model backend and every candidate that is set selects a backend that serves its role, and fails only where that is not so, with the settings some order of the agent entries yields |
| TargetPreflight.PassesOrFails | cmd/hufu/execution_target_preflight.go:51-70 | unless two agent entries share a canonical name, success and failure exclude each other, whatever the order |
| TargetPreflight.CheckCandidate | cmd/hufu/execution_target_preflight.go:129-171 | one round of the loop accepts exactly the usable candidates: a bare model inherits its legacy provider or the default, an agent backend needs a worker role and an executable that is found |
| TargetPreflight.CheckRestored | cmd/hufu/execution_target_preflight.go:216-249 | checking each distinct target once decides what checking every target would |
| TargetPreflight.RestoredPassExactly | cmd/hufu/execution_target_preflight.go:228-239 | in a session whose own targets pass, a valid restored target passes exactly when its backend can serve a worker, whatever the session's defaults |
| TargetPreflight.BareModelSelects | cmd/hufu/execution_target_preflight.go:138-154 | a bare model selects the default when it inherits no provider, or `hufu-local`, else the provider, and nothing when that has no plain name |
| TargetPreflight.ProviderWithSlashSelects | cmd/hufu/execution_target_preflight.go:141-150 | a provider with a slash in its name lends what stands before the first one, and the rest becomes part of the model |
| TargetPreflight.DefaultGoesBy | cmd/hufu/execution_target_preflight.go:72-82 | the default is that of the session, else the global one, else the built-in one, and has to be the built-in one or a configured provider |
| TargetPreflight.BareModelIsServed | cmd/hufu/execution_target_preflight.go:151-157 | past the check of the default, a bare model that inherits no provider is accepted for every role |
| TargetPreflight.ServesExactly | cmd/hufu/execution_target_preflight.go:155-170 | what serves a role: a language-model backend, and for a worker also an agent backend with an executable that is found |
| TargetPreflight.OfferExactly | cmd/hufu/execution_target_preflight.go:40-70 | the agent backends are the built-in one unless an entry has its name, and every entry as it is, with the built-in command for one of its name and type that has none |
| TargetPreflight.ReachedByPlainName | cmd/hufu/execution_target_preflight.go:134-155 | every qualified selection names its backend by a plain canonical name |
| TargetPreflight.UnplainNameIsAccepted | cmd/hufu/backend_config.go:59-69 | a valid backend under any other name passes the unification, and no qualified selection reaches it |
| TargetPreflight.UnplainNameExists | cmd/hufu/backend_config.go:70-98 | there is such a backend: a language-model backend named `a/b` |
| TargetPreflight.UnifiedProviderServes | cmd/hufu/execution_target_preflight.go:155-157 | after unification a provider with a plain name can be selected by it for every role |
| TargetPreflight.UnifiedAgentServes | cmd/hufu/execution_target_preflight.go:158-170 | after unification an agent backend with a plain name can be selected by it exactly for workers, and exactly when its executable is found |
| RolloutSearch.DiscoverRollouts | codex-session-export.py:98-130 | finds only reachable rollouts, as many as there are up to the cap and nearest first, and below the cap exactly the reachable ones and exactly the unresolved mentions, in whatever order mentions are scanned |
| RolloutSearch.FoundIsNoFarther | codex-session-export.py:107-121 | at the cap, what was found has a chain of mentions no longer than any to what was left out |
| RolloutSearch.ScanRollout | codex-session-export.py:113-123 | one rollout's mentions are all found or unresolved unless the cap ends the loop, and the frontier stays exact |
| RolloutSearch.ClosedHoldsReachable | codex-session-export.py:110-123 | a set that holds the parent and is closed under mentions holds everything reachable by a path |
| RolloutSearch.AllScanned | codex-session-export.py:110-123 | a search that scanned all it found has found the reachable set |
| ConsolidationClusters.KeyIsExact | cmd/hufu/context_consolidation_cmd.go:158-158 | two items have one group key exactly when project, team, agent, kind and signature agree |
| ConsolidationClusters.ClusterBuilder.Add | cmd/hufu/context_consolidation_cmd.go:154-162 | keeps the groups those of the eligible items taken so far, whatever order they came in |
| ConsolidationClusters.ClusterBuilder.Clusters | cmd/hufu/context_consolidation_cmd.go:164-174 | returns the ascending list of all equivalence classes of two and more, each ascending, in whatever order the groups come; the groups keep their members |
| ConsolidationClusters.ClusterListIsUnique | cmd/hufu/context_consolidation_cmd.go:164-174 | there is one such list for a set of items |
| Ordering.SortByKeeps | cmd/hufu/context_consolidation_cmd.go:168-172 | sorting by different keys is ascending and keeps exactly the elements |
| Ordering.AscendingIsUnique | cmd/hufu/context_consolidation_cmd.go:168-172 | an ascending list is determined by its elements |
| Ordering.LessExactly | cmd/hufu/context_consolidation_cmd.go:168-172 | one text comes before another when it has the smaller character at their first difference or is a proper beginning of it |
| NulText.SplitJoin | cmd/hufu/context_promotion_review.go:319-322 | splitting at NUL characters undoes joining NUL-free fields |
| NulText.JoinIsInjective | cmd/hufu/context_consolidation_cmd.go:172-172 | texts joined of NUL-free fields determine the fields |
| ReviewRevision.PromotionRecord | cmd/hufu/context_promotion_review.go:317-322 | the builder's text is the proposal's fields, and three fields for each source, joined by NUL |
| ReviewRevision.FieldsExactly | cmd/hufu/context_promotion_review.go:319-321 | which fields those are, in order: six of the proposal and three of each source |
| ReviewRevision.RecordParses | cmd/hufu/context_promotion_review.go:317-322 | a parser reads the proposal back from the text, sources and signed numbers included |
| ReviewRevision.RecordIsInjective | cmd/hufu/context_promotion_review.go:317-322 | equal texts mean equal proposals when no field holds a NUL |
| ReviewRevision.NulFieldsCollide | cmd/hufu/context_promotion_review.go:317-322 | every proposal with a NUL in any field shares its text with another |
| ReviewRevision.OwnRecordExactly | cmd/hufu/context_promotion_review.go:317-322 | no other proposal at all has the text of a given one exactly when that has no NUL in a field and no sources |
| ReviewRevision.MutateReviewedPromotion | cmd/hufu/context_promotion_review.go:164-189 | the change is made exactly when the proposal passes the checks again, is the one that was reviewed and can be changed, provided the hash does not collide on the two; it stays made when finishing fails |
| ExplainCausality.CompactTimeline | cmd/hufu/explaincmd_ai.go:252-269 | keeps the last entries of the causal events of the event store |
| ExplainCausality.CausalOfOneMore | cmd/hufu/explaincmd_ai.go:254-264 | an entry of the trace is kept exactly when the event store recorded it and its kind is one of those that count |
| ExplainCausality.RetainTail | cmd/hufu/explaincmd_ai.go:402-408 | keeps a suffix, and what is kept and what is counted as omitted add up |
| ExplainCausality.CausalityFrom | cmd/hufu/explaincmd_ai.go:282-315 | for a cancelled run names the earliest cancellation request before the last run end, or with none the last wrap-up before it, and is verified exactly when such a request exists |
| ExplainCausality.VerdictsAgree | cmd/hufu/explaincmd_ai.go:265-314 | while the run end survives the cut, the verdict on the tail is that on the full timeline exactly when no cancellation request was dropped, and no wrap-up where the tail shows none |
| ExplainCausality.LostEndAgrees | cmd/hufu/explaincmd_ai.go:265-314 | with the run end cut off, the verdict on the tail is that on the full timeline exactly when it reports nothing and no request and no wrap-up came before a run end |
| ExplainCausality.CutCanMislead | cmd/hufu/explaincmd_ai.go:265-297 | when the full timeline verifies nothing, the tail verifies a cause exactly when the run end was cut off and a request is left |
| ExplainCausality.MisleadingTimeline | cmd/hufu/explaincmd_ai.go:265-297 | a concrete timeline of one entry more than the limit on which that happens |
| ConfigTree.GetAfterSet | cmd/hufu/configcmd.go:103-131 | a key that was set reads the value set |
| ConfigTree.SetAfterSet | cmd/hufu/configcmd.go:117-131 | the second of two sets wins and leaves no trace of the first |
| ConfigTree.SetToSame | cmd/hufu/configcmd.go:103-131 | setting a key to what it has changes nothing |
| ConfigTree.GetElsewhere | cmd/hufu/configcmd.go:103-131 | a key that neither contains nor is contained in the one set reads the same, also where scalars on the way became maps |
| ConfigTree.GetInside | cmd/hufu/configcmd.go:103-131 | below the key that was set, reads go into the value |
| ConfigTree.SetInSets | cmd/hufu/configcmd.go:117-131 | the walk that changes nested maps in place sets the tree they stand for, keeps maps unshared, and changes no map outside it |
| ConfigTree.ConfigMaps.MapValue | cmd/hufu/configcmd.go:103-116 | reads what the tree has at the key, or reports that it has nothing |
| ConfigTree.ConfigMaps.SetMapValue | cmd/hufu/configcmd.go:117-131 | afterwards the maps stand for the tree with the key set |
| ConfigTree.ConfigMaps.WalkAndSet | cmd/hufu/configcmd.go:119-130 | the loop with its moving map does the walk |
| TextBuffers.TextBufs.Append | cmd/hufu/display.go:1587-1591 | adds to one task's text and leaves the others alone |
| TextBuffers.TextBufs.Flush | cmd/hufu/display.go:1599-1607 | returns the trimmed text and the model of the task and forgets both |
| TextBuffers.TextBufs.SplitLine | cmd/hufu/display.go:1618-1634 | the text is the line, its newline and what is left; without a newline nothing changes |
| TextBuffers.TextBufs.SendLines | cmd/hufu/display.go:1894-1902 | sends all complete lines that are not blank, in order, and leaves the unfinished one |
| TextBuffers.TextBufs.OnReasoning | cmd/hufu/display.go:1877-1902 | sends the whole text beyond the limit, and the complete lines otherwise; what stays buffered has no newline and at most 10000 characters |
| TextBuffers.TextBufs.Report | cmd/hufu/display.go:1817-1902 | every event that touches the buffers changes them and sends as its specification says |
| TextShown.DoneShows | cmd/hufu/display.go:1823-1838 | over every run, a finished task adds one message with its pending text under the model it was started with, with nothing to show in that one with its output, and otherwise none |
| TextShown.FailedShows | cmd/hufu/display.go:1845-1852 | a failed task adds a message with its pending text, if that shows something |
| TextShown.ReasoningShows | cmd/hufu/display.go:1877-1902 | reasoning adds one message with all that is pending beyond the limit, and otherwise its complete lines |
| TextShown.ThoughtOfLine | cmd/hufu/display.go:1899-1901 | each line that shows something is one message, trimmed |
| TextShown.LinesAreLines | cmd/hufu/display.go:1618-1634 | the complete lines hold no newline, and what follows the last newline is left |
| TextShown.OthersShowNothing | cmd/hufu/display.go:1817-1826 | starting a task and answer text add no message, and neither does an event of no task |
| TextShown.AnswerIsShown | cmd/hufu/display.go:1817-1838 | a task that streams its answer and finishes has all of it shown in one message, and its output exactly when it streamed nothing to show |
| TextBuffers.LinesAndRest | cmd/hufu/display.go:1618-1634 | the lines split off, with their newlines, and what is left are all of the text |
| TextBuffers.NothingIsLost | cmd/hufu/display.go:1817-1902 | over every run of events of all tasks, the text that came in for a task is the text shown and the text still buffered, in order, up to blanks |
| TextBuffers.ReasoningStaysShort | cmd/hufu/display.go:1877-1902 | throughout every run in which the task has no answer text, no newline and at most 10000 characters are buffered |
| TextBuffers.PiecesDoNotShow | cmd/hufu/display.go:1877-1902 | in whatever pieces a text streams in, its lines are sent and its unfinished line is kept, while no piece makes that line too long |
| TextRaces.EveryInterleaving | cmd/hufu/display.go:1587-1634 | however handlers of one task interleave, the text that came in is what was taken off the buffer and what is left, and once all are done the buffer has no newline and at most 10000 characters |
| TextRaces.SentExactlyWhenUndisturbed | cmd/hufu/display.go:1883-1890 | in every interleaving, what was sent and what is buffered is what came in, at every moment, exactly when no handler flushes a buffer other than the one it read |
| TextRaces.AllIsSent | cmd/hufu/display.go:1877-1902 | handlers that do not overlap are never disturbed, so they send exactly what came in |
| TextRaces.LateTextIsLost | cmd/hufu/display.go:1883-1890 | for any text beyond the limit and any late text, an interleaving in which the late text is never sent |
| TextRaces.TextIsSentTwice | cmd/hufu/display.go:1883-1890 | for any such texts, an interleaving in which the long text is sent twice |
| TextRaces.HandledAsSpecified | cmd/hufu/display.go:1877-1902 | a handler that nobody disturbs does to the buffer what the event is specified to do |
| ChatTurns.RunChatTurn | cmd/hufu/chat_turn.go:87-117 | a turn calls Run first and Continue later, counts unless it failed for a reason other than cancellation, keeps its line exactly when it succeeded, and hands out a published result only when it is a new one |
| ChatTurns.RuntimeAdapter.RunTurn | cmd/hufu/chat_runtime_adapter.go:40-54 | a turn goes to the current team and counts for it |
| ChatTurns.RuntimeAdapter.ResetContext | cmd/hufu/chat_runtime_adapter.go:63-73 | starts over exactly when the hook exists and succeeds |
| ChatTurns.RuntimeAdapter.SwitchTeam | cmd/hufu/chat_runtime_adapter.go:75-89 | changes team and name and starts over exactly when the hook exists and succeeds |
| ChatTurns.TurnsMeanCarried | cmd/hufu/chat_turn.go:62-72 | there is something to continue exactly when an earlier turn counted and nothing cleared it since |
| ChatTurns.ContinueExactlyWhenCarried | cmd/hufu/chat_turn.go:94-100 | over every run, a turn continues exactly when an earlier turn on the same coordinator succeeded or was cancelled and no reset or change of team came between |

## Left out

- Text to words: trimming, splitting into lines and fields and grapheme segmentation happen before the
  wrapper's model. A word is its graphemes of one or two cells; escape sequences and graphemes of other widths
  are not modelled.
- Texts.Trim: blanks, and case where names are folded, are those of ASCII; characters stand for runes.
- JsonScanner.Decoder: a token sequence with a cursor stands for `json.Decoder`. Lexing, punctuation, decoding
  into requests and the input size limit are not modelled. The scan's `More` at the end of input is false.
- MemoryHistory.RunContextHistory: is called where its walk ends, because the loop does not end anywhere else;
  `MemoryHistory.WalkEndsExactly` says where that is. Items outside their validity window or beyond the query limit
  are the parameter `hidden`, empty in the lemmas about whole histories.
- Memory records: metadata other than `supersedes_ids` and visibility, evidence other than of an operator's
  rejection, edges, events, projections, expiry and busy retries. The parts of a proposal's freshness that lie
  outside the store are one flag. An append that finds its content stored already also rewrites that item's source
  type; here it changes nothing.
- MemoryCommands.Repository.RunContextMigrateMemory: the rows that are not deduplicated are a parameter.
- MemoryCommands.Outcome: recording an item, and refreshing or reopening a candidate
  (`internal/context/sqlite_repository.go:391-455`), demand what the runtime checks of the items named
  (`internal/team/shared_memory.go:328-342`, `internal/team/worker_memory.go:839-853`); whether the sources of a
  refresh agree is a flag. A proposal on sources that have one awaiting review is refused by the code and not here, so
  there are more runs here.
- TargetPreflight.PreflightExecutionTargets: the candidates are a parameter; gathering them from roles, agents, routes
  and extra models is not modelled.
- TargetPreflight.CheckRestored: takes one task's targets; choosing the tasks to resume and rebuilding their targets
  from the event log is not modelled.
- SnapshotMailbox: query timeouts, the contents of snapshots, and a display program that stops receiving.
- RolloutSearch.DiscoverRollouts: the order of the returned list by modification time, and the scan of files for ids,
  which is a parameter.
- ConsolidationClusters.ClusterBuilder.Add: items have distinct ids, and ids and scope fields without NUL; the
  builder's `scopes` map, which nothing reads, is left out.
- ConfigTree: maps held by reference are modelled by an explicit heap field, which shows sharing and change in
  place; parsing a value from text is a parameter.
- ReviewRevision.MutateReviewedPromotion: the hash is a parameter that does not collide on the two records at hand.
- ExplainCausality.CausalityFrom: ordinals are positive and increasing, as the event store assigns them.
- TextBuffers.TextBufs.Report: events are handled one at a time; `TextRaces` covers reasoning events that overlap.
  The status lines sent besides the text, and the model shown beside a task's output, are not modelled.
- ChatTurns.RunChatTurn: what coordinators and deliveries reply is a parameter, and run identities are left out.
- Error messages: a failed operation is modelled as failed, without its text.
