/**
  What the preview wrapper guarantees: width and line bounds, when a preview is cut,
  that no text is lost, and that greedy wrapping uses the fewest lines possible.
*/
module PreviewWrapperLaws {
  import opened Sequences
  import opened PreviewWrapper

  // ---------------------------------------------------------------- bounds

  ghost predicate FitsAt(ws: Limits, lines: seq<Line>) {
    forall i | 0 <= i < |lines| :: Width(lines[i]) <= if i == 0 then ws.first else ws.continuation
  }

  ghost predicate WellPlaced(ws: Limits, p: Page) {
    FitsAt(ws, p.lines) && Width(p.cur) <= ws.At(|p.lines|)
  }

  lemma {:induction false} PlaceWordFits(ws: Limits, rest: Word, p: Page)
    requires WellPlaced(ws, p)
    ensures WellPlaced(ws, PlaceWord(ws, rest, p))
    decreases |rest|, |p.cur|
  {
    var width := ws.At(|p.lines|);
    if rest == [] {
    } else if p.cur != [] {
      if Width(p.cur) + 1 + Width(rest) <= width {
        SpacedWidth(p.cur, rest);
      } else {
        PlaceWordFits(ws, rest, p.Flush());
      }
    } else if Width(rest) > width {
      FitIsLargest(rest, width);
      assert Width(Piece(rest, width)) <= width;
      if Taken(rest, width) < |rest| {
        PlaceWordFits(ws, rest[Taken(rest, width)..], Page(p.lines + [Piece(rest, width)], []));
      }
    }
  }

  lemma {:induction false} PlaceWordsFit(ws: Limits, words: SourceLine, p: Page)
    requires WellPlaced(ws, p)
    ensures WellPlaced(ws, PlaceWords(ws, words, p))
  {
    if words != [] {
      PlaceWordFits(ws, words[0], p);
      PlaceWordsFit(ws, words[1..], PlaceWord(ws, words[0], p));
    }
  }

  lemma {:induction false} PlaceAllFits(ws: Limits, doc: seq<SourceLine>, lines: seq<Line>)
    requires FitsAt(ws, lines)
    ensures FitsAt(ws, PlaceAll(ws, doc, lines))
  {
    if doc != [] {
      PlaceWordsFit(ws, doc[0], Page(lines, []));
      PlaceAllFits(ws, doc[1..], PlaceSource(ws, doc[0], lines));
    }
  }

  lemma EllipsiseFits(ws: Limits, lines: seq<Line>)
    requires FitsAt(ws, lines)
    ensures FitsAt(ws, Ellipsise(ws, lines)) && |Ellipsise(ws, lines)| == |lines|
  {
    if lines != [] {
      var last := |lines| - 1;
      var tail := Truncate(ELLIPSIS, ws.At(last));
      FitIsLargest(ELLIPSIS, ws.At(last));
      FitIsLargest(lines[last], ws.At(last) - Width(tail));
      WidthAppend(Truncate(lines[last], ws.At(last) - Width(tail)), tail);
    }
  }

  /** Every line of a preview fits its own width, for any text and any limits. */
  lemma PreviewFits(ws: Limits, doc: seq<SourceLine>, maxLines: nat)
    requires maxLines > 0
    ensures FitsAt(ws, Bounded(ws, Unbounded(ws, doc), maxLines))
  {
    var u := Unbounded(ws, doc);
    PlaceAllFits(ws, doc, []);
    if |u| >= maxLines {
      assert FitsAt(ws, u[..maxLines]);
      EllipsiseFits(ws, u[..maxLines]);
      if |u| > maxLines {
        assert FitsAt(ws, u[..maxLines + 1]);
        EllipsiseFits(ws, u[..maxLines + 1]);
      }
    }
  }

  /**
    A preview has at most one line more than asked for, and has that line exactly when
    a blank line took the last slot and text followed it.
  */
  lemma PreviewLength(ws: Limits, doc: seq<SourceLine>, maxLines: nat)
    requires maxLines > 0
    ensures
      var u := Unbounded(ws, doc);
      var n := |Bounded(ws, u, maxLines)|;
      && n <= maxLines + 1
      && (n == maxLines + 1 <==> |u| > maxLines && u[maxLines - 1] == [] && u[maxLines] != [])
      && (n < maxLines <==> |u| < maxLines)
  {
  }

  lemma OneLine(ws: Limits, text: string, lines: seq<Line>)
    ensures PlaceSource(ws, [[Narrow(text)]], lines) == lines + [[Narrow(text)]]
  {
    var word: Word := [Narrow(text)];
    var src: SourceLine := [word];
    var empty: Line := [];
    var p := Page(lines, empty);
    assert Width(word) == 1 + Width(word[1..]) == 1;
    assert PlaceWord(ws, word, p) == p.(cur := word);
    assert PlaceWords(ws, src, p) == PlaceWords(ws, src[1..], PlaceWord(ws, src[0], p)) == p.(cur := word);
  }

  lemma OneMoreSource(ws: Limits, src: SourceLine, doc: seq<SourceLine>, lines: seq<Line>)
    ensures PlaceAll(ws, [src] + doc, lines) == PlaceAll(ws, doc, PlaceSource(ws, src, lines))
  {
    assert ([src] + doc)[1..] == doc;
  }

  /** Two words around a blank line take three lines of a preview of at most two, whatever the widths. */
  lemma ExtraLine(ws: Limits, a: string, b: string)
    ensures
      var preview := Bounded(ws, Unbounded(ws, [[[Narrow(a)]], [], [[Narrow(b)]]]), 2);
      |preview| == 3 && preview[0] == [Narrow(a)] && preview[1] == []
  {
    var first: SourceLine, second: SourceLine, blank: SourceLine := [[Narrow(a)]], [[Narrow(b)]], [];
    var above: seq<Line> := [[Narrow(a)], []];
    var none: seq<Line> := [];
    OneLine(ws, a, none);
    OneLine(ws, b, above);
    OneMoreSource(ws, first, [blank, second], none);
    OneMoreSource(ws, blank, [second], [[Narrow(a)]]);
    OneMoreSource(ws, second, [], above);
    assert PlaceSource(ws, blank, [[Narrow(a)]]) == above;
    assert none + [[Narrow(a)]] == [[Narrow(a)]];
    assert [first] + [blank, second] == [first, blank, second];
    assert [blank] + [second] == [blank, second] && [second] + [] == [second];
    assert Unbounded(ws, [first, blank, second]) == above + [[Narrow(b)]];
  }

  // ---------------------------------------------------------------- what a cut preview keeps

  lemma DotsFit(width: nat)
    ensures Truncate(ELLIPSIS, width) == ELLIPSIS[..if width < 3 then width else 3]
    ensures Width(Truncate(ELLIPSIS, width)) == if width < 3 then width else 3
  {
    OneCellEach(ELLIPSIS, width);
    OneCellEach(Truncate(ELLIPSIS, width), width);
  }

  lemma {:induction false} OneCellEach(s: seq<Mark>, width: nat)
    requires forall i | 0 <= i < |s| :: s[i].Cells() == 1
    ensures Width(s) == |s| && Fit(s, width) == if width < |s| then width else |s|
  {
    if s != [] {
      OneCellEach(s[1..], if width > 0 then width - 1 else 0);
    }
  }

  lemma CutLine(ws: Limits, lines: seq<Line>) returns (kept: Line)
    requires lines != []
    ensures
      var last := |lines| - 1;
      var width := if last == 0 then ws.first else ws.continuation;
      var dots := if width < 3 then width else 3;
      && kept <= lines[last] && Ellipsise(ws, lines) == lines[..last] + [kept + [Dot, Dot, Dot][..dots]]
      && Width(kept) + dots <= width
      && forall n | |kept| < n <= |lines[last]| :: Width(lines[last][..n]) + dots > width
  {
    var last := |lines| - 1;
    var width := ws.At(last);
    var dots := if width < 3 then width else 3;
    DotsFit(width);
    kept := Truncate(lines[last], width - dots);
    FitIsLargest(lines[last], width - dots);
  }

  /**
    A cut preview is the layout up to its last line.  That line keeps a beginning of its text,
    the longest that leaves room for as much of an ellipsis as the width admits.
  */
  lemma CutPreview(ws: Limits, doc: seq<SourceLine>, maxLines: nat) returns (kept: Line)
    requires maxLines > 0 && !Open(Unbounded(ws, doc), maxLines)
    ensures
      var u := Unbounded(ws, doc);
      var b := Bounded(ws, u, maxLines);
      && 0 < |b| <= |u| && b[..|b| - 1] == u[..|b| - 1]
      && var last := |b| - 1;
         var width := if last == 0 then ws.first else ws.continuation;
         var dots := if width < 3 then width else 3;
         && kept <= u[last] && b[last] == kept + [Dot, Dot, Dot][..dots]
         && Width(kept) + dots <= width
         && forall n | |kept| < n <= |u[last]| :: Width(u[last][..n]) + dots > width
  {
    var u := Unbounded(ws, doc);
    var m := if u[maxLines - 1] == [] && |u| > maxLines && u[maxLines] != [] then maxLines + 1 else maxLines;
    kept := CutLine(ws, u[..m]);
    assert Bounded(ws, u, maxLines) == Ellipsise(ws, u[..m]);
    assert u[..m][..m - 1] == u[..m - 1];
  }

  // ---------------------------------------------------------------- where a word goes

  /** A word that fits behind the words of the line goes there after a space; any other goes on the next line. */
  lemma WordAfterWords(ws: Limits, rest: Word, p: Page)
    requires rest != [] && p.cur != []
    ensures
      var width := if p.lines == [] then ws.first else ws.continuation;
      PlaceWord(ws, rest, p)
        == if Width(p.cur) + 1 + Width(rest) <= width then Page(p.lines, p.cur + [Space] + rest)
           else PlaceWord(ws, rest, Page(p.lines + [p.cur], []))
  {
  }

  /**
    `parts` is the word cut into lines from the one at `base` on: each holds as much as fits, or a
    question mark for a wide grapheme where there is one cell, and the last one the rest.
  */
  ghost predicate CutUp(ws: Limits, base: nat, rest: Word, parts: seq<Line>)
    requires rest != []
    decreases |rest|, 1
  {
    var width := if base == 0 then ws.first else ws.continuation;
    && parts != []
    && if Width(rest) <= width then parts == [rest] else exists n: nat :: CutAt(ws, base, rest, parts, n)
  }

  /** The first part holds the first `n` graphemes, and the other parts the rest. */
  ghost predicate CutAt(ws: Limits, base: nat, rest: Word, parts: seq<Line>, n: nat)
    requires rest != [] && parts != []
    decreases |rest|, 0
  {
    var width := if base == 0 then ws.first else ws.continuation;
    && 1 <= n <= |rest|
    && (if rest[0].Cells() > width then n == 1 && parts[0] == [Question]
        else parts[0] == rest[..n] && n < |rest| && Width(rest[..n]) <= width < Width(rest[..n + 1]))
    && if n == |rest| then |parts| == 1 else CutUp(ws, base + 1, rest[n..], parts[1..])
  }

  lemma PieceIsFull(rest: Word, width: nat)
    requires rest != [] && Width(rest) > width
    ensures
      if rest[0].Cells() > width then
        Piece(rest, width) == [Question] && Taken(rest, width) == 1
      else
        var n := Taken(rest, width);
        n < |rest| && Piece(rest, width) == rest[..n] && Width(rest[..n]) <= width < Width(rest[..n + 1])
  {
    FitIsLargest(rest, width);
    if rest[0].Cells() <= width {
      assert Fit(rest, width) >= 1;
      assert rest[..|rest|] == rest;
    }
  }

  /** A word on a fresh line is cut into lines that are each as full as can be. */
  lemma {:induction false} WordIsCutUp(ws: Limits, rest: Word, lines: seq<Line>) returns (parts: seq<Line>)
    requires rest != []
    ensures CutUp(ws, |lines|, rest, parts)
    ensures
      var p := PlaceWord(ws, rest, Page(lines, []));
      p.lines + [p.cur] == lines + parts
    decreases |rest|
  {
    var width := ws.At(|lines|);
    if Width(rest) <= width {
      parts := [rest];
    } else {
      PieceIsFull(rest, width);
      var n, piece := Taken(rest, width), Piece(rest, width);
      if n == |rest| {
        parts := [piece];
      } else {
        var more := WordIsCutUp(ws, rest[n..], lines + [piece]);
        parts := [piece] + more;
        assert parts[1..] == more;
      }
      assert CutAt(ws, |lines|, rest, parts, n);
    }
  }

  // ---------------------------------------------------------------- conservation

  /** The marks of a line other than the spaces the wrapper puts between words. */
  function Ink(s: seq<Mark>): seq<Mark> {
    if s == [] then [] else (if s[0] == Space then [] else [s[0]]) + Ink(s[1..])
  }

  function LinesInk(lines: seq<Line>): seq<Mark> {
    if lines == [] then [] else LinesInk(lines[..|lines| - 1]) + Ink(lines[|lines| - 1])
  }

  function PageInk(p: Page): seq<Mark> {
    LinesInk(p.lines) + Ink(p.cur)
  }

  /** Every mark stands for a grapheme of the text. */
  ghost predicate IsText(s: seq<Mark>) {
    forall i | 0 <= i < |s| :: s[i].Narrow? || s[i].Wide?
  }

  function WordsInk(words: SourceLine): seq<Mark> {
    if words == [] then [] else words[0] + WordsInk(words[1..])
  }

  function DocInk(doc: seq<SourceLine>): seq<Mark> {
    if doc == [] then [] else WordsInk(doc[0]) + DocInk(doc[1..])
  }

  /** `shown` is `original`, except that a one-cell line may show a wide grapheme as a question mark. */
  ghost predicate Faithful(ws: Limits, shown: seq<Mark>, original: seq<Mark>) {
    && |shown| == |original|
    && forall i | 0 <= i < |shown| ::
         shown[i] == original[i]
         || (shown[i] == Question && original[i].Wide? && (ws.first == 1 || ws.continuation == 1))
  }

  lemma FaithfulAppend(ws: Limits, s1: seq<Mark>, o1: seq<Mark>, s2: seq<Mark>, o2: seq<Mark>)
    requires Faithful(ws, s1, o1) && Faithful(ws, s2, o2)
    ensures Faithful(ws, s1 + s2, o1 + o2)
  {
  }

  lemma {:induction false} InkAppend(a: seq<Mark>, b: seq<Mark>)
    ensures Ink(a + b) == Ink(a) + Ink(b)
  {
    if a == [] {
      assert a + b == b;
    } else {
      assert (a + b)[1..] == a[1..] + b;
      InkAppend(a[1..], b);
    }
  }

  lemma {:induction false} InkOfWord(w: Word)
    requires IsText(w)
    ensures Ink(w) == w
  {
    if w != [] {
      InkOfWord(w[1..]);
    }
  }

  lemma TextParts(a: seq<Mark>, b: seq<Mark>)
    requires IsText(a + b)
    ensures IsText(a) && IsText(b)
  {
    forall i | 0 <= i < |a| ensures a[i].Narrow? || a[i].Wide? { assert (a + b)[i] == a[i]; }
    forall i | 0 <= i < |b| ensures b[i].Narrow? || b[i].Wide? { assert (a + b)[|a| + i] == b[i]; }
  }

  lemma FlushInk(lines: seq<Line>, cur: Line)
    ensures LinesInk(lines + [cur]) == LinesInk(lines) + Ink(cur)
  {
    assert (lines + [cur])[..|lines|] == lines;
  }

  lemma PieceFaithful(ws: Limits, rest: Word, width: nat)
    requires IsText(rest) && rest != [] && (width == ws.first || width == ws.continuation)
    ensures Faithful(ws, Ink(Piece(rest, width)), rest[..Taken(rest, width)])
  {
    if Fit(rest, width) == 0 {
      assert Ink([Question]) == [Question] + Ink([]);
    } else {
      InkOfWord(rest[..Taken(rest, width)]);
    }
  }

  lemma FlushPageInk(p: Page)
    ensures PageInk(p.Flush()) == PageInk(p)
  {
    FlushInk(p.lines, p.cur);
  }

  lemma AppendInk(p: Page, rest: Word)
    requires IsText(rest)
    ensures PageInk(p.(cur := p.cur + [Space] + rest)) == PageInk(p) + rest
  {
    InkAppend(p.cur, [Space]);
    InkAppend(p.cur + [Space], rest);
    InkOfWord(rest);
    assert Ink([Space]) == [];
  }

  /** Placing a word adds exactly its graphemes, in order, after everything already placed. */
  lemma {:induction false} PlaceWordInk(ws: Limits, rest: Word, p: Page, o: seq<Mark>)
    requires IsText(rest)
    requires Faithful(ws, PageInk(p), o)
    ensures Faithful(ws, PageInk(PlaceWord(ws, rest, p)), o + rest)
    decreases |rest|, |p.cur|
  {
    var width := ws.At(|p.lines|);
    if rest == [] {
      assert o + rest == o;
    } else if p.cur != [] {
      if Width(p.cur) + 1 + Width(rest) <= width {
        PlaceWholeInk(ws, rest, p, o);
      } else {
        FlushPageInk(p);
        PlaceWordInk(ws, rest, p.Flush(), o);
        assert PlaceWord(ws, rest, p) == PlaceWord(ws, rest, p.Flush());
      }
    } else if Width(rest) <= width {
      PlaceWholeInk(ws, rest, p, o);
    } else {
      PlaceChunkInk(ws, rest, p, o);
      var taken := Taken(rest, width);
      var next := Page(p.lines + [Piece(rest, width)], []);
      Rejoin(o, rest, taken);
      if taken < |rest| {
        PlaceWordInk(ws, rest[taken..], next, o + rest[..taken]);
        assert PlaceWord(ws, rest, p) == PlaceWord(ws, rest[taken..], next);
      }
    }
  }

  lemma Rejoin(o: seq<Mark>, rest: Word, k: nat)
    requires k <= |rest|
    ensures o + rest[..k] + rest[k..] == o + rest
    ensures k == |rest| ==> o + rest[..k] == o + rest
  {
  }

  lemma PlaceWholeInk(ws: Limits, rest: Word, p: Page, o: seq<Mark>)
    requires IsText(rest) && rest != []
    requires Faithful(ws, PageInk(p), o)
    requires (if p.cur == [] then Width(rest) else Width(p.cur) + 1 + Width(rest)) <= ws.At(|p.lines|)
    ensures Faithful(ws, PageInk(PlaceWord(ws, rest, p)), o + rest)
  {
    var cur := if p.cur == [] then rest else p.cur + [Space] + rest;
    assert PlaceWord(ws, rest, p) == p.(cur := cur);
    assert PageInk(p.(cur := cur)) == PageInk(p) + rest by {
      if p.cur == [] { InkOfWord(rest); } else { AppendInk(p, rest); }
    }
    FaithfulAppend(ws, PageInk(p), o, rest, rest);
  }

  lemma PlaceChunkInk(ws: Limits, rest: Word, p: Page, o: seq<Mark>)
    requires IsText(rest)
    requires Faithful(ws, PageInk(p), o) && rest != [] && p.cur == []
    ensures
      var width := ws.At(|p.lines|);
      && Faithful(ws, PageInk(p.(cur := Piece(rest, width))), o + rest[..Taken(rest, width)])
      && Faithful(ws, PageInk(Page(p.lines + [Piece(rest, width)], [])), o + rest[..Taken(rest, width)])
  {
    var width := ws.At(|p.lines|);
    var piece := Piece(rest, width);
    PieceFaithful(ws, rest, width);
    FlushInk(p.lines, piece);
    FaithfulAppend(ws, PageInk(p), o, Ink(piece), rest[..Taken(rest, width)]);
    assert PageInk(p) + Ink(piece) == PageInk(p.(cur := piece)) == PageInk(Page(p.lines + [piece], []));
  }

  lemma {:induction false} PlaceWordsInk(ws: Limits, words: SourceLine, p: Page, o: seq<Mark>)
    requires IsText(WordsInk(words))
    requires Faithful(ws, PageInk(p), o)
    ensures Faithful(ws, PageInk(PlaceWords(ws, words, p)), o + WordsInk(words))
  {
    if words == [] {
      assert o + WordsInk(words) == o;
    } else {
      var tail := WordsInk(words[1..]);
      TextParts(words[0], tail);
      PlaceWordInk(ws, words[0], p, o);
      PlaceWordsInk(ws, words[1..], PlaceWord(ws, words[0], p), o + words[0]);
      assert o + words[0] + WordsInk(words[1..]) == o + WordsInk(words);
    }
  }

  lemma PlaceSourceInk(ws: Limits, src: SourceLine, lines: seq<Line>, o: seq<Mark>)
    requires IsText(WordsInk(src))
    requires Faithful(ws, LinesInk(lines), o)
    ensures Faithful(ws, LinesInk(PlaceSource(ws, src, lines)), o + WordsInk(src))
  {
    assert PageInk(Page(lines, [])) == LinesInk(lines);
    if src == [] {
      FlushInk(lines, []);
      assert o + WordsInk(src) == o;
    } else {
      var p := PlaceWords(ws, src, Page(lines, []));
      PlaceWordsInk(ws, src, Page(lines, []), o);
      FlushInk(p.lines, p.cur);
      assert PageInk(p) == LinesInk(p.Flush().lines);
    }
  }

  lemma {:induction false} PlaceAllInk(ws: Limits, doc: seq<SourceLine>, lines: seq<Line>, o: seq<Mark>)
    requires IsText(DocInk(doc))
    requires Faithful(ws, LinesInk(lines), o)
    ensures Faithful(ws, LinesInk(PlaceAll(ws, doc, lines)), o + DocInk(doc))
  {
    if doc == [] {
      assert o + DocInk(doc) == o;
    } else {
      TextParts(WordsInk(doc[0]), DocInk(doc[1..]));
      PlaceSourceInk(ws, doc[0], lines, o);
      PlaceAllInk(ws, doc[1..], PlaceSource(ws, doc[0], lines), o + WordsInk(doc[0]));
      Assoc(o, WordsInk(doc[0]), DocInk(doc[1..]));
    }
  }

  /**
    The layout shows every grapheme of the text, in order and once; with two cells
    everywhere it shows them unchanged.
  */
  lemma LayoutKeepsText(ws: Limits, doc: seq<SourceLine>)
    requires IsText(DocInk(doc))
    ensures Faithful(ws, LinesInk(Unbounded(ws, doc)), DocInk(doc))
    ensures ws.first > 1 && ws.continuation > 1 ==> LinesInk(Unbounded(ws, doc)) == DocInk(doc)
  {
    assert Faithful(ws, LinesInk([]), []);
    PlaceAllInk(ws, doc, [], []);
    assert [] + DocInk(doc) == DocInk(doc);
  }

  // ---------------------------------------------------------------- when a preview is cut

  ghost predicate Dotted(lines: seq<Line>) {
    lines != [] && lines[|lines| - 1] != [] && lines[|lines| - 1][|lines[|lines| - 1]| - 1] == Dot
  }

  lemma EllipsiseDots(ws: Limits, lines: seq<Line>)
    requires lines != []
    ensures Dotted(Ellipsise(ws, lines))
  {
    assert Fit(ELLIPSIS, ws.At(|lines| - 1)) >= 1;
  }

  lemma {:induction false} InkMember(s: seq<Mark>, m: Mark)
    requires m in s && m != Space
    ensures m in Ink(s)
  {
    if s[0] != m {
      InkMember(s[1..], m);
    }
  }

  lemma LastLineInk(lines: seq<Line>, m: Mark)
    requires lines != [] && m in lines[|lines| - 1] && m != Space
    ensures m in LinesInk(lines)
  {
    InkMember(lines[|lines| - 1], m);
  }

  /** The wrapper never writes a dot of its own into the layout, so the ellipsis marks a cut. */
  lemma LayoutHasNoDots(ws: Limits, doc: seq<SourceLine>)
    requires IsText(DocInk(doc))
    ensures !Dotted(Unbounded(ws, doc))
  {
    var u := Unbounded(ws, doc);
    LayoutKeepsText(ws, doc);
    if Dotted(u) {
      LastLineInk(u, Dot);
      assert false;
    }
  }

  /** A preview is the whole layout exactly when the layout leaves the run open. */
  lemma WholePreview(ws: Limits, doc: seq<SourceLine>, maxLines: nat)
    requires maxLines > 0 && IsText(DocInk(doc))
    ensures
      var u := Unbounded(ws, doc);
      && (Bounded(ws, u, maxLines) == u <==> Open(u, maxLines))
      && (!Open(u, maxLines) <==> Dotted(Bounded(ws, u, maxLines)))
  {
    var u := Unbounded(ws, doc);
    LayoutHasNoDots(ws, doc);
    if !Open(u, maxLines) {
      EllipsiseDots(ws, u[..maxLines]);
      if |u| > maxLines {
        EllipsiseDots(ws, u[..maxLines + 1]);
      }
    }
  }

  lemma PlaceAllLast(ws: Limits, doc: seq<SourceLine>, lines: seq<Line>)
    requires doc != [] && WordsInk(doc[|doc| - 1]) != []
    ensures
      var u := PlaceAll(ws, doc, lines);
      u != [] && u[|u| - 1] != []
  {
    if |doc| == 1 {
      SourceEndsInText(ws, doc[0], lines);
      assert doc[1..] == [];
    } else {
      PlaceAllLast(ws, doc[1..], PlaceSource(ws, doc[0], lines));
    }
  }

  lemma SourceEndsInText(ws: Limits, src: SourceLine, lines: seq<Line>)
    requires WordsInk(src) != []
    ensures
      var u := PlaceSource(ws, src, lines);
      u != [] && u[|u| - 1] != []
  {
    PlaceWordsCur(ws, src, Page(lines, []));
  }

  lemma {:induction false} PlaceWordCur(ws: Limits, rest: Word, p: Page)
    requires rest != [] || p.cur != []
    ensures PlaceWord(ws, rest, p).cur != []
    decreases |rest|, |p.cur|
  {
    var width := ws.At(|p.lines|);
    if rest != [] && p.cur != [] && Width(p.cur) + 1 + Width(rest) > width {
      PlaceWordCur(ws, rest, p.Flush());
    } else if rest != [] && p.cur == [] && Width(rest) > width && Taken(rest, width) < |rest| {
      PlaceWordCur(ws, rest[Taken(rest, width)..], Page(p.lines + [Piece(rest, width)], []));
    }
  }

  lemma {:induction false} PlaceWordsCur(ws: Limits, words: SourceLine, p: Page)
    requires WordsInk(words) != [] || p.cur != []
    ensures PlaceWords(ws, words, p).cur != []
  {
    if words != [] {
      if words[0] != [] || p.cur != [] {
        PlaceWordCur(ws, words[0], p);
      }
      PlaceWordsCur(ws, words[1..], PlaceWord(ws, words[0], p));
    }
  }

  /**
    For trimmed text, whose last line shows something, the preview is complete exactly
    when the layout is shorter than the limit: a text that needs exactly the limit
    already gets the ellipsis.
  */
  lemma TrimmedPreview(ws: Limits, doc: seq<SourceLine>, maxLines: nat)
    requires maxLines > 0 && IsText(DocInk(doc)) && doc != [] && WordsInk(doc[|doc| - 1]) != []
    ensures
      var u := Unbounded(ws, doc);
      && (Bounded(ws, u, maxLines) == u <==> |u| < maxLines)
      && (Dotted(Bounded(ws, u, maxLines)) <==> |u| >= maxLines)
  {
    PlaceAllLast(ws, doc, []);
    WholePreview(ws, doc, maxLines);
  }

  // ---------------------------------------------------------------- fewest lines

  /** Every word fits whole on any line. */
  ghost predicate AllFit(ws: Limits, words: SourceLine) {
    forall i | 0 <= i < |words| ::
      words[i] != [] && Width(words[i]) <= ws.first && Width(words[i]) <= ws.continuation
  }

  /** Words `i` up to `j` on one line, separated by single spaces. */
  function Join(words: SourceLine, i: nat, j: nat): Line
    requires i < j <= |words|
    decreases j
  {
    if j == i + 1 then words[i] else Join(words, i, j - 1) + [Space] + words[j - 1]
  }

  /**
    A way to put the words from `i` on onto consecutive lines, the first of them at
    index `base`: `ends` gives, line by line, the word the next line starts with.
  */
  ghost predicate Splits(ws: Limits, base: nat, words: SourceLine, i: nat, ends: seq<nat>)
    requires i <= |words|
    decreases |ends|
  {
    if ends == [] then
      i == |words|
    else
      && i < ends[0] <= |words|
      && Width(Join(words, i, ends[0])) <= ws.At(base)
      && Splits(ws, base + 1, words, ends[0], ends[1..])
  }

  /** The lines a split stands for. */
  function Lines(words: SourceLine, i: nat, ends: seq<nat>): seq<Line>
    requires i <= |words|
    decreases |ends|
  {
    if ends != [] && i < ends[0] <= |words| then
      [Join(words, i, ends[0])] + Lines(words, ends[0], ends[1..])
    else
      []
  }

  /** The end of the longest run from `i` that still fits when `room` cells are left after word `i - 1`. */
  function Reach(room: nat, words: SourceLine, i: nat): (j: nat)
    requires i <= |words|
    ensures i <= j <= |words|
    decreases |words| - i
  {
    if i == |words| || room < 1 + Width(words[i]) then i else Reach(room - 1 - Width(words[i]), words, i + 1)
  }

  /** Where the line at index `base` ends when it starts with word `i`, which it takes in any case. */
  function LineEnd(ws: Limits, base: nat, words: SourceLine, i: nat): (j: nat)
    requires i < |words|
    ensures i < j <= |words|
  {
    Reach(if Width(words[i]) <= ws.At(base) then ws.At(base) - Width(words[i]) else 0, words, i + 1)
  }

  /** The split that fills every line as far as it goes. */
  function Greedy(ws: Limits, base: nat, words: SourceLine, i: nat): seq<nat>
    requires i <= |words|
    decreases |words| - i
  {
    if i == |words| then
      []
    else
      var j := LineEnd(ws, base, words, i);
      [j] + Greedy(ws, base + 1, words, j)
  }

  lemma JoinOne(words: SourceLine, i: nat, j: nat)
    requires i < j < |words|
    ensures Width(Join(words, i, j + 1)) == Width(Join(words, i, j)) + 1 + Width(words[j])
  {
    SpacedWidth(Join(words, i, j), words[j]);
  }

  /** `Reach` stops at the last end that fits. */
  lemma {:induction false} ReachIsLast(width: nat, words: SourceLine, i: nat, j: nat)
    requires i < j <= |words| && Width(Join(words, i, j)) <= width
    ensures
      var end := Reach(width - Width(Join(words, i, j)), words, j);
      && Width(Join(words, i, end)) <= width
      && (end < |words| ==> Width(Join(words, i, end)) + 1 + Width(words[end]) > width)
    decreases |words| - j
  {
    if j < |words| {
      var joined := Width(Join(words, i, j));
      assert Width(Join(words, i, j + 1)) == joined + 1 + Width(words[j]) by {
        JoinOne(words, i, j);
      }
      if joined + 1 + Width(words[j]) <= width {
        ReachIsLast(width, words, i, j + 1);
      }
    }
  }

  lemma {:induction false} JoinGrows(words: SourceLine, i: nat, j: nat, k: nat)
    requires i < j <= k <= |words|
    ensures Width(Join(words, i, j)) <= Width(Join(words, i, k))
    decreases k
  {
    if j < k {
      JoinOne(words, i, k - 1);
      JoinGrows(words, i, j, k - 1);
    }
  }

  lemma {:induction false} JoinShrinks(words: SourceLine, i: nat, k: nat, j: nat)
    requires i <= k < j <= |words|
    ensures Width(Join(words, k, j)) <= Width(Join(words, i, j))
    decreases j
  {
    if k + 1 < j {
      JoinOne(words, i, j - 1);
      JoinOne(words, k, j - 1);
      JoinShrinks(words, i, k, j - 1);
    } else if i < k {
      JoinOne(words, i, k);
    }
  }

  /** Anything that fits on the line ends no later than the greedy line does. */
  lemma FitsWithinLine(ws: Limits, base: nat, words: SourceLine, i: nat, j: nat)
    requires i < j <= |words| && Width(Join(words, i, j)) <= ws.At(base)
    ensures j <= LineEnd(ws, base, words, i)
    ensures Width(Join(words, i, LineEnd(ws, base, words, i))) <= ws.At(base)
  {
    JoinGrows(words, i, i + 1, j);
    ReachIsLast(ws.At(base), words, i, i + 1);
    var end := LineEnd(ws, base, words, i);
    if end < j {
      JoinOne(words, i, end);
      JoinGrows(words, i, end + 1, j);
    }
  }

  /** Starting a line later in the text never makes it end earlier. */
  lemma LineEndMonotone(ws: Limits, base: nat, words: SourceLine, i: nat, k: nat)
    requires AllFit(ws, words) && i <= k < |words|
    ensures LineEnd(ws, base, words, i) <= LineEnd(ws, base, words, k)
  {
    var end := LineEnd(ws, base, words, i);
    FitsWithinLine(ws, base, words, i, i + 1);
    if k < end {
      JoinShrinks(words, i, k, end);
      FitsWithinLine(ws, base, words, k, end);
    }
  }

  /** Greedy stays ahead: with fewer words left it needs no more lines. */
  lemma {:induction false} GreedyMonotone(ws: Limits, base: nat, words: SourceLine, i: nat, k: nat)
    requires AllFit(ws, words) && i <= k <= |words|
    ensures |Greedy(ws, base, words, k)| <= |Greedy(ws, base, words, i)|
    decreases |words| - i
  {
    if k < |words| {
      LineEndMonotone(ws, base, words, i, k);
      GreedyMonotone(ws, base + 1, words, LineEnd(ws, base, words, i), LineEnd(ws, base, words, k));
    }
  }

  lemma {:induction false} GreedyIsFewest(ws: Limits, base: nat, words: SourceLine, i: nat, ends: seq<nat>)
    requires AllFit(ws, words) && i <= |words| && Splits(ws, base, words, i, ends)
    ensures |Greedy(ws, base, words, i)| <= |ends|
    decreases |ends|
  {
    if ends != [] {
      FitsWithinLine(ws, base, words, i, ends[0]);
      GreedyIsFewest(ws, base + 1, words, ends[0], ends[1..]);
      GreedyMonotone(ws, base + 1, words, ends[0], LineEnd(ws, base, words, i));
    }
  }

  lemma {:induction false} GreedySplits(ws: Limits, base: nat, words: SourceLine, i: nat)
    requires AllFit(ws, words) && i <= |words|
    ensures Splits(ws, base, words, i, Greedy(ws, base, words, i))
    decreases |words| - i
  {
    if i < |words| {
      var j := LineEnd(ws, base, words, i);
      FitsWithinLine(ws, base, words, i, i + 1);
      GreedySplits(ws, base + 1, words, j);
      assert ([j] + Greedy(ws, base + 1, words, j))[1..] == Greedy(ws, base + 1, words, j);
    }
  }

  /** A line that holds words `i` to `j` takes as many further words as fit, then is flushed. */
  lemma {:induction false} FillLine(ws: Limits, words: SourceLine, lines: seq<Line>, i: nat, j: nat)
    requires AllFit(ws, words) && i < j <= |words| && Width(Join(words, i, j)) <= ws.At(|lines|)
    ensures
      var end := Reach(ws.At(|lines|) - Width(Join(words, i, j)), words, j);
      PlaceWords(ws, words[j..], Page(lines, Join(words, i, j)))
        == if end == |words| then Page(lines, Join(words, i, end))
           else PlaceWords(ws, words[end..], Page(lines + [Join(words, i, end)], []))
    decreases |words| - j
  {
    if j < |words| {
      assert words[j..][0] == words[j] && words[j..][1..] == words[j + 1..];
      JoinOne(words, i, j);
      JoinNonEmpty(words, i, j);
      if Width(Join(words, i, j)) + 1 + Width(words[j]) <= ws.At(|lines|) {
        FillLine(ws, words, lines, i, j + 1);
      }
    }
  }

  lemma JoinNonEmpty(words: SourceLine, i: nat, j: nat)
    requires i < j <= |words| && words[i] != []
    ensures Join(words, i, j) != []
  {
  }

  lemma EmitLine(ws: Limits, words: SourceLine, lines: seq<Line>, i: nat)
    requires AllFit(ws, words) && i < |words|
    ensures
      var j := LineEnd(ws, |lines|, words, i);
      PlaceWords(ws, words[i..], Page(lines, []))
        == if j == |words| then Page(lines, Join(words, i, j))
           else PlaceWords(ws, words[j..], Page(lines + [Join(words, i, j)], []))
  {
    assert words[i..][0] == words[i] && words[i..][1..] == words[i + 1..];
    FillLine(ws, words, lines, i, i + 1);
  }

  lemma {:induction false} EmitGreedy(ws: Limits, words: SourceLine, lines: seq<Line>, i: nat)
    requires AllFit(ws, words) && i < |words|
    ensures PlaceWords(ws, words[i..], Page(lines, [])).Flush().lines
         == lines + Lines(words, i, Greedy(ws, |lines|, words, i))
    decreases |words| - i
  {
    var j := LineEnd(ws, |lines|, words, i);
    var first := Join(words, i, j);
    var later := Greedy(ws, |lines| + 1, words, j);
    EmitLine(ws, words, lines, i);
    assert Lines(words, i, [j] + later) == [first] + Lines(words, j, later) by {
      assert ([j] + later)[1..] == later;
    }
    if j < |words| {
      EmitGreedy(ws, words, lines + [first], j);
      assert lines + [first] + Lines(words, j, later) == lines + ([first] + Lines(words, j, later));
    } else {
      JoinNonEmpty(words, i, j);
    }
  }

  /**
    For a source line whose words all fit, the lines the wrapper emits are one split of
    its words, and no split whatever uses fewer lines.
  */
  lemma GreedyIsOptimal(ws: Limits, src: SourceLine, lines: seq<Line>)
    requires src != [] && AllFit(ws, src)
    ensures
      var ends := Greedy(ws, |lines|, src, 0);
      && Splits(ws, |lines|, src, 0, ends)
      && PlaceSource(ws, src, lines) == lines + Lines(src, 0, ends)
      && forall other | Splits(ws, |lines|, src, 0, other) :: |ends| <= |other|
  {
    GreedySplits(ws, |lines|, src, 0);
    EmitGreedy(ws, src, lines, 0);
    assert src[0..] == src;
    forall other | Splits(ws, |lines|, src, 0, other)
      ensures |Greedy(ws, |lines|, src, 0)| <= |other|
    {
      GreedyIsFewest(ws, |lines|, src, 0, other);
    }
  }
}
