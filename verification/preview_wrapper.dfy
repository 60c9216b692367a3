/**
  The bounded preview wrapper of cmd/hufu/display.go: a greedy word wrapper over
  display cells whose first line may have another width than the rest, which cuts
  overlong words, and which stops early once it has emitted enough lines.

  `Unbounded` is the layout under no line limit.  `WrapPreviewLines` is the loop with
  its early exits, and is proved to return exactly `Bounded` of that layout.
*/
module PreviewWrapper {

  /** One displayed unit: a grapheme of the text, or a mark the wrapper itself writes. */
  datatype Mark = Narrow(text: string) | Wide(text: string) | Space | Question | Dot {
    function Cells(): nat {
      if Wide? then 2 else 1
    }
  }

  /**
    A whitespace-separated field of a source line, as its narrow and wide graphemes;
    empty when nothing in it is visible.
  */
  type Word = seq<Mark>
  type SourceLine = seq<Word>
  type Line = seq<Mark>

  datatype Widths = Widths(first: nat, continuation: nat) {
    function At(index: nat): nat {
      if index == 0 then first else continuation
    }
  }

  type Limits = w: Widths | w.first > 0 && w.continuation > 0 witness Widths(1, 1)

  // ---------------------------------------------------------------- display cells

  function Width(s: seq<Mark>): nat {
    if s == [] then 0 else s[0].Cells() + Width(s[1..])
  }

  /** How many leading marks fit into `width` cells. */
  function Fit(s: seq<Mark>, width: nat): (n: nat)
    ensures n <= |s|
  {
    if s == [] || s[0].Cells() > width then 0 else 1 + Fit(s[1..], width - s[0].Cells())
  }

  function Truncate(s: seq<Mark>, width: nat): seq<Mark> {
    s[..Fit(s, width)]
  }

  function TruncateLeft(s: seq<Mark>, skip: nat): seq<Mark> {
    if s == [] || s[0].Cells() > skip then s else TruncateLeft(s[1..], skip - s[0].Cells())
  }

  /** The marks between two cell columns, as the terminal library cuts them. */
  function Cut(s: seq<Mark>, left: nat, right: nat): seq<Mark> {
    if right <= left then [] else TruncateLeft(Truncate(s, right), left)
  }

  /** `Fit` is the largest count that fits: it fits, and one more mark would not. */
  lemma {:induction false} FitIsLargest(s: seq<Mark>, width: nat)
    ensures Width(s[..Fit(s, width)]) <= width
    ensures forall n | Fit(s, width) < n <= |s| :: Width(s[..n]) > width
  {
    if s != [] {
      forall n | 0 < n <= |s|
        ensures Width(s[..n]) == s[0].Cells() + Width(s[1..][..n - 1])
      {
        assert s[..n][1..] == s[1..][..n - 1];
      }
      if s[0].Cells() <= width {
        FitIsLargest(s[1..], width - s[0].Cells());
      }
    }
  }

  lemma {:induction false} WidthAppend(a: seq<Mark>, b: seq<Mark>)
    ensures Width(a + b) == Width(a) + Width(b)
  {
    if a == [] {
      assert a + b == b;
    } else {
      WidthAppend(a[1..], b);
      assert (a + b)[1..] == a[1..] + b;
    }
  }

  lemma {:induction false} WidthPositive(w: Word)
    ensures Width(w) >= |w|
  {
    if w != [] {
      WidthPositive(w[1..]);
    }
  }

  /** Cutting at a column that is a grapheme boundary is truncating what is left of the word. */
  lemma {:induction false} CutAtBoundary(w: Word, k: nat, len: nat)
    requires k <= |w|
    ensures Cut(w, Width(w[..k]), Width(w[..k]) + len) == Truncate(w[k..], len)
  {
    if len == 0 {
      if k < |w| { assert w[k..][0] == w[k]; }
    } else {
      SkipPrefix(w, k, len);
    }
  }

  lemma {:induction false} SkipPrefix(w: Word, k: nat, len: nat)
    requires k <= |w|
    ensures TruncateLeft(Truncate(w, Width(w[..k]) + len), Width(w[..k])) == Truncate(w[k..], len)
  {
    if k == 0 {
      assert w[0..] == w;
      var t := Truncate(w, len);
      assert t == [] || t[0].Cells() > 0;
    } else {
      SkipPrefix(w[1..], k - 1, len);
      assert w[1..][k - 1..] == w[k..];
      assert w[..k][1..] == w[1..][..k - 1];
      var t := Truncate(w, Width(w[..k]) + len);
      assert t[1..] == Truncate(w[1..], Width(w[1..][..k - 1]) + len);
    }
  }

  // ---------------------------------------------------------------- unlimited layout

  /** The lines emitted so far and the line being filled. */
  datatype Page = Page(lines: seq<Line>, cur: Line) {
    function Flush(): Page {
      if cur == [] then this else Page(lines + [cur], [])
    }
  }

  /** What goes onto a fresh line from a word too long for it, and how many graphemes that is. */
  function Piece(rest: Word, width: nat): Line {
    if Fit(rest, width) == 0 then [Question] else Truncate(rest, width)
  }

  function Taken(rest: Word, width: nat): (n: nat)
    requires rest != []
    ensures 1 <= n <= |rest|
  {
    if Fit(rest, width) == 0 then 1 else Fit(rest, width)
  }

  function PlaceWord(ws: Limits, rest: Word, p: Page): Page
    decreases |rest|, |p.cur|
  {
    var width := ws.At(|p.lines|);
    if rest == [] then
      p
    else if p.cur != [] then
      if Width(p.cur) + 1 + Width(rest) <= width then
        p.(cur := p.cur + [Space] + rest)
      else
        PlaceWord(ws, rest, p.Flush())
    else if Width(rest) <= width then
      p.(cur := rest)
    else
      var piece := Piece(rest, width);
      var taken := Taken(rest, width);
      if taken == |rest| then p.(cur := piece) else PlaceWord(ws, rest[taken..], Page(p.lines + [piece], []))
  }

  function PlaceWords(ws: Limits, words: SourceLine, p: Page): Page {
    if words == [] then p else PlaceWords(ws, words[1..], PlaceWord(ws, words[0], p))
  }

  function PlaceSource(ws: Limits, src: SourceLine, lines: seq<Line>): seq<Line> {
    if src == [] then lines + [[]] else PlaceWords(ws, src, Page(lines, [])).Flush().lines
  }

  function PlaceAll(ws: Limits, doc: seq<SourceLine>, lines: seq<Line>): seq<Line> {
    if doc == [] then lines else PlaceAll(ws, doc[1..], PlaceSource(ws, doc[0], lines))
  }

  function Unbounded(ws: Limits, doc: seq<SourceLine>): seq<Line> {
    PlaceAll(ws, doc, [])
  }

  // ---------------------------------------------------------------- the line limit

  const ELLIPSIS: Line := [Dot, Dot, Dot]

  /** Overwrites the end of the last line with as much of an ellipsis as its width admits. */
  function Ellipsise(ws: Limits, lines: seq<Line>): seq<Line> {
    if lines == [] then
      []
    else
      var last := |lines| - 1;
      var tail := Truncate(ELLIPSIS, ws.At(last));
      FitIsLargest(ELLIPSIS, ws.At(last));
      var kept := ws.At(last) - Width(tail);
      lines[..last] + [Truncate(lines[last], kept) + tail]
  }

  /**
    The layout `u` under the limit.  A blank line may take the last slot without
    ending the run, which lets one more line follow it.
  */
  function Bounded(ws: Limits, u: seq<Line>, maxLines: nat): seq<Line>
    requires maxLines > 0
  {
    if |u| < maxLines then u
    else if u[maxLines - 1] != [] then Ellipsise(ws, u[..maxLines])
    else if |u| == maxLines then u
    else if u[maxLines] == [] then Ellipsise(ws, u[..maxLines])
    else Ellipsise(ws, u[..maxLines + 1])
  }

  /** The lines emitted so far leave the run going. */
  predicate Open(lines: seq<Line>, maxLines: nat) {
    |lines| < maxLines || (|lines| == maxLines > 0 && lines[maxLines - 1] == [])
  }

  lemma {:induction false} PlaceWordExtends(ws: Limits, rest: Word, p: Page)
    ensures p.lines <= PlaceWord(ws, rest, p).lines
    decreases |rest|, |p.cur|
  {
    var width := ws.At(|p.lines|);
    if rest != [] && p.cur != [] && Width(p.cur) + 1 + Width(rest) > width {
      PlaceWordExtends(ws, rest, p.Flush());
    } else if rest != [] && p.cur == [] && Width(rest) > width {
      if Taken(rest, width) < |rest| {
        PlaceWordExtends(ws, rest[Taken(rest, width)..], Page(p.lines + [Piece(rest, width)], []));
      }
    }
  }

  lemma {:induction false} PlaceWordsExtends(ws: Limits, words: SourceLine, p: Page)
    ensures p.lines <= PlaceWords(ws, words, p).lines
  {
    if words != [] {
      PlaceWordExtends(ws, words[0], p);
      PlaceWordsExtends(ws, words[1..], PlaceWord(ws, words[0], p));
    }
  }

  lemma {:induction false} PlaceAllExtends(ws: Limits, doc: seq<SourceLine>, lines: seq<Line>)
    ensures lines <= PlaceAll(ws, doc, lines)
  {
    if doc != [] {
      PlaceWordsExtends(ws, doc[0], Page(lines, []));
      PlaceAllExtends(ws, doc[1..], PlaceSource(ws, doc[0], lines));
    }
  }

  /** Everything still to be laid out after the word being placed. */
  function Finish(ws: Limits, doc: seq<SourceLine>, words: SourceLine, p: Page): seq<Line> {
    PlaceAll(ws, doc, PlaceWords(ws, words, p).Flush().lines)
  }

  /** Stopping at the first non-blank line that reaches the limit loses nothing `Bounded` keeps. */
  lemma StopAtLine(ws: Limits, goal: seq<Line>, lines: seq<Line>, cur: Line, maxLines: nat)
    requires Open(lines, maxLines) && cur != [] && |lines| + 1 >= maxLines > 0
    requires lines + [cur] <= goal
    ensures Bounded(ws, goal, maxLines) == Ellipsise(ws, lines + [cur])
  {
    var done := lines + [cur];
    assert done[|lines|] == cur == goal[|lines|];
    assert goal[..|done|] == done;
    if |lines| == maxLines {
      assert goal[maxLines - 1] == done[maxLines - 1] == lines[maxLines - 1];
    }
  }

  lemma StopAtBlank(ws: Limits, goal: seq<Line>, lines: seq<Line>, maxLines: nat)
    requires Open(lines, maxLines) && |lines| >= maxLines
    requires lines + [[]] <= goal
    ensures Bounded(ws, goal, maxLines) == Ellipsise(ws, lines)
  {
    var done := lines + [[]];
    assert done[|lines|] == goal[|lines|];
    assert goal[maxLines - 1] == done[maxLines - 1] == lines[maxLines - 1];
    assert goal[..maxLines] == done[..maxLines] == lines;
  }

  lemma FinishAfterWord(ws: Limits, doc: seq<SourceLine>, words: SourceLine, rest: Word, p: Page)
    ensures p.lines <= Finish(ws, doc, words, PlaceWord(ws, rest, p))
  {
    PlaceWordExtends(ws, rest, p);
    PlaceWordsExtends(ws, words, PlaceWord(ws, rest, p));
    PlaceAllExtends(ws, doc, PlaceWords(ws, words, PlaceWord(ws, rest, p)).Flush().lines);
  }

  /** A cell offset at a grapheme boundary is at the word's width only when nothing is left. */
  lemma WordRemainder(word: Word, k: nat)
    requires k <= |word|
    ensures Width(word) == Width(word[..k]) + Width(word[k..])
    ensures k < |word| ==> Width(word[k..]) > 0
  {
    assert word[..k] + word[k..] == word;
    WidthAppend(word[..k], word[k..]);
    WidthPositive(word[k..]);
  }

  lemma CutRest(word: Word, k: nat)
    requires k < |word|
    ensures Cut(word, Width(word[..k]), Width(word)) == word[k..]
  {
    var rest, left, right := word[k..], Width(word[..k]), Width(word);
    assert right == left + Width(rest) by { WordRemainder(word, k); }
    assert Cut(word, left, right) == Truncate(rest, Width(rest)) by { CutAtBoundary(word, k, Width(rest)); }
    assert Truncate(rest, Width(rest)) == rest by { FitAll(rest, Width(rest)); }
  }

  lemma {:induction false} FitAll(s: seq<Mark>, width: nat)
    requires Width(s) <= width
    ensures Fit(s, width) == |s|
  {
    if s != [] {
      FitAll(s[1..], width - s[0].Cells());
    }
  }

  /** An empty chunk means a two-cell grapheme facing a one-cell line. */
  lemma WideGlyph(rest: Word, width: nat)
    requires width > 0 && rest != [] && Truncate(rest, width) == []
    ensures width == 1 && rest[0].Wide?
    ensures Width(Truncate(rest, 2)) == Width(rest[..1]) == 2
  {
    assert Fit(rest, width) == 0;
    assert Fit(rest, 2) == 1 + Fit(rest[1..], 0);
    assert Fit(rest[1..], 0) == 0;
    assert rest[..1][1..] == [];
  }

  lemma SpacedWidth(cur: Line, rest: Word)
    ensures Width(cur + [Space] + rest) == Width(cur) + 1 + Width(rest)
  {
    WidthAppend(cur, [Space]);
    WidthAppend(cur + [Space], rest);
  }

  lemma Advance(word: Word, k: nat, taken: nat)
    requires k + taken <= |word|
    ensures Width(word[..k + taken]) == Width(word[..k]) + Width(word[k..][..taken])
  {
    assert word[..k + taken] == word[..k] + word[k..][..taken];
    WidthAppend(word[..k], word[k..][..taken]);
  }

  method TruncatePreviewLines(ws: Limits, lines: seq<Line>) returns (result: seq<Line>)
    ensures result == Ellipsise(ws, lines)
  {
    if |lines| == 0 {
      return [];
    }
    var lastIndex := |lines| - 1;
    var width := ws.At(lastIndex);
    var tail := Truncate(ELLIPSIS, width);
    FitIsLargest(ELLIPSIS, width);
    result := lines[lastIndex := Truncate(lines[lastIndex], width - Width(tail)) + tail];
  }

  /** Cuts the next chunk of a word that overflows a fresh line. */
  method CutChunk(word: Word, wordOffset: nat, width: nat, ghost k: nat)
    returns (chunk: Line, chunkWidth: nat, advance: nat)
    requires k < |word| && wordOffset == Width(word[..k]) && width > 0
    ensures chunk == Piece(word[k..], width) && chunkWidth == Width(chunk)
    ensures k + Taken(word[k..], width) <= |word|
    ensures wordOffset + advance == Width(word[..k + Taken(word[k..], width)])
  {
    ghost var taken := Taken(word[k..], width);
    Advance(word, k, taken);
    CutAtBoundary(word, k, width);
    chunk := Cut(word, wordOffset, wordOffset + width);
    chunkWidth := Width(chunk);
    advance := chunkWidth;
    if chunk == [] {
      CutAtBoundary(word, k, 2);
      WideGlyph(word[k..], width);
      advance := Width(Cut(word, wordOffset, wordOffset + 2));
      chunk, chunkWidth := [Question], 1;
    }
  }

  /**
    The loop over one word: `full` reports that a flush reached the limit, in which
    case `lines` is already cut.
  */
  method WrapWord(ws: Limits, word: Word, lines0: seq<Line>, cur0: Line, maxLines: nat,
                  ghost later: seq<SourceLine>, ghost words: SourceLine)
    returns (lines: seq<Line>, cur: Line, full: bool)
    requires maxLines > 0 && Open(lines0, maxLines)
    ensures
      var goal := Finish(ws, later, words, PlaceWord(ws, word, Page(lines0, cur0)));
      if full then
        lines == Bounded(ws, goal, maxLines)
      else
        Open(lines, maxLines) && PlaceWord(ws, word, Page(lines0, cur0)) == Page(lines, cur)
  {
    lines, cur, full := lines0, cur0, false;
    ghost var placed := PlaceWord(ws, word, Page(lines0, cur0));
    ghost var goal := Finish(ws, later, words, placed);
    var curWidth := Width(cur);
    var wordWidth := Width(word);
    var wordOffset := 0;
    ghost var k := 0;
    assert word[0..] == word;
    while wordOffset < wordWidth
      invariant k <= |word| && wordOffset == Width(word[..k])
      invariant curWidth == Width(cur)
      invariant placed == PlaceWord(ws, word[k..], Page(lines, cur))
      invariant Open(lines, maxLines)
      decreases |word| - k, |cur|
    {
      var width := ws.At(|lines|);
      WordRemainder(word, k);
      var remainingWidth := wordWidth - wordOffset;
      if cur == [] {
        if remainingWidth <= width {
          CutRest(word, k);
          cur := Cut(word, wordOffset, wordWidth);
          return;
        }
        var chunk, chunkWidth, advance := CutChunk(word, wordOffset, width, k);
        ghost var taken := Taken(word[k..], width);
        assert word[k..][taken..] == word[k + taken..];
        k, wordOffset := k + taken, wordOffset + advance;
        cur, curWidth := chunk, chunkWidth;
        WordRemainder(word, k);
        if wordOffset >= wordWidth {
          continue;
        }
      } else if curWidth + 1 + remainingWidth <= width {
        CutRest(word, k);
        cur := cur + [Space] + Cut(word, wordOffset, wordWidth);
        return;
      }
      assert placed == PlaceWord(ws, word[k..], Page(lines + [cur], []));
      if |lines| + 1 >= maxLines {
        FinishAfterWord(ws, later, words, word[k..], Page(lines + [cur], []));
        StopAtLine(ws, goal, lines, cur, maxLines);
        lines := TruncatePreviewLines(ws, lines + [cur]);
        full := true;
        return;
      }
      lines := lines + [cur];
      cur := [];
      curWidth := 0;
    }
    WordRemainder(word, k);
    assert word[k..] == [];
  }

  /** The wrapper itself, on the trimmed text already split into lines and fields. */
  method WrapPreviewLines(doc: seq<SourceLine>, firstWidth: int, continuationWidth: int, maxLines: int)
    returns (lines: seq<Line>)
    ensures doc == [] || firstWidth <= 0 || continuationWidth <= 0 || maxLines <= 0 ==> lines == []
    ensures doc != [] && firstWidth > 0 && continuationWidth > 0 && maxLines > 0 ==>
      var ws := Widths(firstWidth, continuationWidth);
      lines == Bounded(ws, Unbounded(ws, doc), maxLines)
  {
    lines := [];
    if doc == [] || firstWidth <= 0 || continuationWidth <= 0 || maxLines <= 0 {
      return;
    }
    var ws: Limits := Widths(firstWidth, continuationWidth);
    ghost var goal := Unbounded(ws, doc);
    for i := 0 to |doc|
      invariant goal == PlaceAll(ws, doc[i..], lines)
      invariant Open(lines, maxLines)
    {
      var src := doc[i];
      ghost var later := doc[i + 1..];
      assert doc[i..][0] == src && doc[i..][1..] == later;
      if src == [] {
        PlaceAllExtends(ws, later, lines + [[]]);
        if |lines| >= maxLines {
          StopAtBlank(ws, goal, lines, maxLines);
          lines := TruncatePreviewLines(ws, lines);
          return;
        }
        lines := lines + [[]];
        continue;
      }
      var cur: Line := [];
      for j := 0 to |src|
        invariant goal == Finish(ws, later, src[j..], Page(lines, cur))
        invariant Open(lines, maxLines)
      {
        assert src[j..][0] == src[j] && src[j..][1..] == src[j + 1..];
        var full;
        lines, cur, full := WrapWord(ws, src[j], lines, cur, maxLines, later, src[j + 1..]);
        if full {
          return;
        }
      }
      assert src[|src|..] == [];
      if cur != [] {
        PlaceAllExtends(ws, later, lines + [cur]);
        if |lines| + 1 >= maxLines {
          StopAtLine(ws, goal, lines, cur, maxLines);
          lines := TruncatePreviewLines(ws, lines + [cur]);
          return;
        }
        lines := lines + [cur];
      }
    }
    assert doc[|doc|..] == [];
  }
}
