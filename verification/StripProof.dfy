/** Why `strip_spans` keeps the tokens: each row, then the rows that are dropped, then the text. */
module StripProof {
  import opened Text
  import opened Lexer
  import opened Reduction
  import opened Tagged
  import opened Join
  import opened StripLine
  import opened Strip

  ghost predicate NonSolid(x: seq<Cell>) {
    forall k :: 0 <= k < |x| ==> !x[k].IsSolid()
  }

  /** Token cells, if any, are white space inside a literal. */
  ghost predicate SolidSpaces(x: seq<Cell>) {
    forall k :: 0 <= k < |x| && x[k].IsSolid() ==> IsSpace(x[k].ch)
  }

  /** White space of a literal reaches back to a start that is not white space. */
  lemma {:induction false} FreshStart(x: seq<Cell>, k: nat)
    requires WellTagged(x) && SolidSpaces(x) && k < |x| && x[0].tag != Rest
    ensures !x[k].IsSolid()
    decreases k
  {
    assert CellShape(x[k]);
    if k > 0 {
      assert PairShape(x[k - 1], x[k]);
      FreshStart(x, k - 1);
    }
  }

  /** White space of a literal reaches on to an end that is not white space. */
  lemma {:induction false} FreshEnd(x: seq<Cell>, k: nat)
    requires WellTagged(x) && SolidSpaces(x) && k < |x| && !x[|x| - 1].IsSolid()
    ensures !x[k].IsSolid()
    decreases |x| - k
  {
    if k < |x| - 1 {
      assert PairShape(x[k], x[k + 1]);
      FreshEnd(x, k + 1);
    }
  }

  lemma {:induction false} SolidMember(x: seq<Cell>, k: nat)
    requires k < |x| && x[k].IsSolid()
    ensures x[k] in Solid(x)
    decreases |x|
  {
    if k > 0 {
      assert x[k] == x[1..][k - 1];
      SolidMember(x[1..], k - 1);
    }
  }

  lemma {:induction false} SolidIsMember(x: seq<Cell>, c: Cell)
    requires c in Solid(x)
    ensures c in x
    decreases |x|
  {
    if !(x[0].IsSolid() && c == x[0]) {
      SolidIsMember(x[1..], c);
    }
  }

  // ----- one row -----

  function PlainAll(x: seq<Cell>): (y: seq<Cell>)
    ensures |y| == |x|
    ensures forall k :: 0 <= k < |x| ==> y[k] == Plain(x[k])
  {
    seq(|x|, k requires 0 <= k < |x| => Plain(x[k]))
  }

  lemma {:induction false} BreaksKept(x: seq<Cell>, gap: bool, sep: bool)
    requires forall k :: 0 <= k < |x| ==> LineBreak(x[k].ch)
    ensures Reduces(x, PlainAll(x), gap, sep, false)
    decreases |x|
  {
    hide Reduces, IsSpace;
    var y := PlainAll(x);
    if x == [] {
      assert y == [];
      EmptyReduces(gap, sep);
    } else {
      NewlineIsSpace();
      assert y[1..] == PlainAll(x[1..]);
      assert LineBreak(x[0].ch);
      if x[0].IsComment() {
        BreaksKept(x[1..], true, true);
        Deletes(x, y[1..], gap, true, false);
        Inserts(x, y, gap, sep, false);
      } else {
        BreaksKept(x[1..], false, Sep(x[0].ch));
        Copies(x, y, gap, sep, false);
      }
    }
  }

  /** What a row guarantees about the cells it stands for. */
  ghost predicate RowOk(seg: seq<Cell>, row: Row) {
    && seg != []
    && Reduces(seg, row.Cells(), true, true, false)
    && NoComments(row.Cells()) && row.nl.ch == '\n'
    && (row.dropped ==> NonSolid(seg))
    && (!row.Visible() ==> SolidSpaces(seg))
  }

  lemma {:induction false} LineReduces(line: seq<Cell>, row: seq<Cell>)
    requires WellTagged(line) && row == if Touched(line) then Stripped(line) else line
    ensures Reduces(line, row, true, true, false) && NoComments(row)
  {
    hide Reduces, Stripped, WellTagged;
    if Touched(line) {
      StrippedReduces(line);
    } else {
      SliceComments(line, 0, |line|);
      assert line[0..|line|] == line;
      Keeps(line, true, true, false);
    }
  }

  /** If nothing visible is left of a line, its token cells were white space. */
  lemma {:induction false} InvisibleLine(line: seq<Cell>, row: seq<Cell>)
    requires Reduces(line, row, true, true, false) && AllSpace(TextOf(row))
    ensures SolidSpaces(line)
  {
    hide Reduces, IsSpace;
    ReducesSolid(line, row, true, true, false);
    forall k | 0 <= k < |line| && line[k].IsSolid()
      ensures IsSpace(line[k].ch)
    {
      SolidMember(line, k);
      SolidIsMember(row, line[k]);
      var i :| 0 <= i < |row| && row[i] == line[k];
      assert TextOf(row)[i] == line[k].ch;
    }
  }

  /** A row that holds a comment and shows nothing else holds no token. */
  lemma {:induction false} DroppedRow(seg: seq<Cell>, j: nat)
    requires WellTagged(seg) && SolidSpaces(seg) && j < |seg| && seg[j].IsComment()
    ensures NonSolid(seg)
  {
    hide IsSpace, PairShape, CellShape;
    forall k | 0 <= k < |seg|
      ensures !seg[k].IsSolid()
    {
      if k <= j {
        WellTaggedSlice(seg, 0, j + 1);
        var x := seg[0..j + 1];
        assert forall i :: 0 <= i < |x| ==> x[i] == seg[i];
        FreshEnd(x, k);
      } else {
        WellTaggedSlice(seg, j, |seg|);
        var x := seg[j..|seg|];
        assert forall i :: 0 <= i < |x| ==> x[i] == seg[j + i];
        FreshStart(x, k - j);
      }
    }
  }

  lemma {:induction false} RowIsOk(raw: seq<Cell>, nl: Cell, c: Cell)
    requires WellTagged(raw + [c]) && c.ch == '\n' && Plain(c) == Plain(nl)
    ensures RowOk(raw + [c], RowOf(raw, nl))
  {
    hide Reduces, Stripped, WellTagged, IsSpace, Touched, NoComments, SolidSpaces, NonSolid;
    var seg, row, line := raw + [c], RowOf(raw, nl), LineOf(raw);
    var tail := seg[|line|..];
    assert seg[..|line|] == line && line + tail == seg;
    WellTaggedSlice(seg, 0, |line|);
    assert seg[0..|line|] == line;
    LineReduces(line, row.line);
    assert forall k :: 0 <= k < |tail| ==> LineBreak(tail[k].ch);
    BreaksKept(tail, true, false);
    Compose(line, row.line, tail, PlainAll(tail), true, true, false, false, false);
    assert row.Cells() == row.line + PlainAll(tail) by { RowCells(raw, nl, c); }
    assert NoComments(row.Cells()) by { NoCommentsJoin(row.line, PlainAll(tail)); }
    if AllSpace(TextOf(row.line)) {
      InvisibleLine(line, row.line);
      assert SolidSpaces(seg) by { BreaksAreSpaces(line, tail); }
      if row.dropped {
        TouchedSomewhere(line, seg);
      }
    }
  }

  lemma {:induction false} TouchedSomewhere(line: seq<Cell>, seg: seq<Cell>)
    requires Touched(line) && line <= seg && WellTagged(seg) && SolidSpaces(seg)
    ensures NonSolid(seg)
  {
    var j :| 0 <= j < |line| && line[j].IsComment();
    assert seg[j] == line[j];
    DroppedRow(seg, j);
  }

  lemma {:induction false} BreaksAreSpaces(line: seq<Cell>, tail: seq<Cell>)
    requires SolidSpaces(line) && forall k :: 0 <= k < |tail| ==> LineBreak(tail[k].ch)
    ensures SolidSpaces(line + tail)
  {
    NewlineIsSpace();
    var x := line + tail;
    forall k | 0 <= k < |x| && x[k].IsSolid()
      ensures IsSpace(x[k].ch)
    {
      assert k >= |line| ==> x[k] == tail[k - |line|];
    }
  }

  lemma {:induction false} NoCommentsJoin(x: seq<Cell>, tail: seq<Cell>)
    requires NoComments(x) && forall k :: 0 <= k < |tail| ==> !tail[k].IsComment()
    ensures NoComments(x + tail)
  {
  }

  lemma {:induction false} RowCells(raw: seq<Cell>, nl: Cell, c: Cell)
    requires c.ch == '\n' && Plain(c) == Plain(nl)
    ensures RowOf(raw, nl).Cells() == RowOf(raw, nl).line + PlainAll((raw + [c])[|LineOf(raw)|..])
  {
    hide Touched, Stripped;
    var row, tail := RowOf(raw, nl), (raw + [c])[|LineOf(raw)|..];
    if EndsInReturn(raw) {
      assert tail == [raw[|raw| - 1], c];
      assert PlainAll(tail) == [Plain(raw[|raw| - 1]), Plain(c)] == row.ret + [row.nl];
    } else {
      assert tail == [c];
      assert PlainAll(tail) == [Plain(c)] == row.ret + [row.nl];
    }
    assert row.line + row.ret + [row.nl] == row.line + (row.ret + [row.nl]);
  }

  // ----- the rows that stay -----

  /** The cells of `x` are the kept `lines`, each followed by cells that hold no token. */
  ghost predicate Tracks(x: seq<Cell>, lines: seq<Row>)
    decreases |lines|
  {
    if lines == [] then NonSolid(x)
    else exists c :: 0 <= c <= |x| && TracksAt(x, lines, c)
  }

  ghost predicate TracksAt(x: seq<Cell>, lines: seq<Row>, c: nat)
    requires lines != [] && c <= |x|
    decreases |lines|, 0
  {
    Tracks(x[..c], lines[..|lines| - 1]) && GroupOk(x[c..], lines[|lines| - 1])
  }

  /** A row that stays, with the token-free cells after it. */
  ghost predicate GroupOk(g: seq<Cell>, row: Row) {
    && g != [] && Reduces(g, row.Cells(), true, true, false)
    && NoComments(row.Cells()) && row.nl.ch == '\n'
    && (!row.Visible() ==> SolidSpaces(g))
  }

  lemma {:induction false} GroupExtends(g: seq<Cell>, j: seq<Cell>, row: Row)
    requires GroupOk(g, row) && NonSolid(j)
    ensures GroupOk(g + j, row)
  {
    hide Reduces;
    AllRemoved(j, false);
    Compose(g, row.Cells(), j, [], true, true, false, false, false);
    assert row.Cells() + [] == row.Cells();
  }

  lemma {:induction false} TracksExtends(x: seq<Cell>, j: seq<Cell>, lines: seq<Row>)
    requires Tracks(x, lines) && NonSolid(j)
    ensures Tracks(x + j, lines)
  {
    hide GroupOk;
    if lines != [] {
      var c :| 0 <= c <= |x| && TracksAt(x, lines, c);
      GroupExtends(x[c..], j, lines[|lines| - 1]);
      assert (x + j)[..c] == x[..c] && (x + j)[c..] == x[c..] + j;
      assert TracksAt(x + j, lines, c);
    }
  }

  lemma {:induction false} TracksAppends(x: seq<Cell>, seg: seq<Cell>, lines: seq<Row>, row: Row)
    requires Tracks(x, lines) && RowOk(seg, row)
    ensures Tracks(x + seg, lines + [row])
  {
    hide Reduces;
    var y, all := x + seg, lines + [row];
    assert y[..|x|] == x && y[|x|..] == seg && all[..|all| - 1] == lines;
    assert TracksAt(y, all, |x|);
  }

  /** A blank line before token-free cells holds no token, so it can go. */
  lemma {:induction false} TracksPops(x: seq<Cell>, lines: seq<Row>)
    requires Tracks(x, lines) && WellTagged(x) && x != [] && !x[|x| - 1].IsSolid()
    ensures Tracks(x, PopBlank(lines))
    decreases |lines|
  {
    hide Reduces, WellTagged, SolidSpaces;
    if lines != [] && !lines[|lines| - 1].Visible() {
      var c :| 0 <= c <= |x| && TracksAt(x, lines, c);
      var g, rest := x[c..], lines[..|lines| - 1];
      assert g[|g| - 1] == x[|x| - 1];
      WellTaggedSlice(x, c, |x|);
      assert x[c..|x|] == g;
      forall k | 0 <= k < |g|
        ensures !g[k].IsSolid()
      {
        FreshEnd(g, k);
      }
      TracksExtends(x[..c], g, rest);
      assert x[..c] + g == x;
      TracksPops(x, rest);
    }
  }

  /** The state of the gathering loop after the cells `x`. */
  ghost predicate Gathered(x: seq<Cell>, g: Gather) {
    && Tracks(x, g.lines)
    && (g.gap ==> x != [] && !x[|x| - 1].IsSolid())
  }

  lemma {:induction false} StepTracks(lang: Language, x: seq<Cell>, seg: seq<Cell>, g: Gather, row: Row)
    requires Gathered(x, g) && RowOk(seg, row) && WellTagged(x + seg)
    ensures Gathered(x + seg, Step(lang, g, row))
  {
    hide Tracks, WellTagged, Reduces, SolidSpaces, NonSolid, EndsWithOpener, StartsWithCloser;
    var y := x + seg;
    assert y[|y| - 1] == seg[|seg| - 1];
    if row.dropped {
      TracksExtends(x, seg, g.lines);
      LastNonSolid(seg);
    } else if Step(lang, g, row).gap {
      FreshRow(x, seg);
      LastNonSolid(seg);
      TracksExtends(x, seg, g.lines);
    } else if g.gap && Step(lang, g, row).lines == PopBlank(g.lines) + [row] {
      WellTaggedSlice(y, 0, |x|);
      assert y[0..|x|] == x;
      TracksPops(x, g.lines);
      TracksAppends(x, seg, PopBlank(g.lines), row);
    } else {
      TracksAppends(x, seg, g.lines, row);
    }
  }

  lemma {:induction false} LastNonSolid(seg: seq<Cell>)
    requires NonSolid(seg) && seg != []
    ensures !seg[|seg| - 1].IsSolid()
  {
  }

  /** A blank row after token-free cells holds no token. */
  lemma {:induction false} FreshRow(x: seq<Cell>, seg: seq<Cell>)
    requires WellTagged(x + seg) && x != [] && seg != [] && !x[|x| - 1].IsSolid() && SolidSpaces(seg)
    ensures NonSolid(seg)
  {
    hide SolidSpaces;
    var y := x + seg;
    assert PairShape(y[|x| - 1], y[|x|]);
    WellTaggedSlice(y, |x|, |y|);
    assert y[|x|..|y|] == seg;
    forall k | 0 <= k < |seg|
      ensures !seg[k].IsSolid()
    {
      FreshStart(seg, k);
    }
  }

  /** Gathering over the rest of the text. */
  lemma {:induction false} FoldTracks(lang: Language, done: seq<Cell>, x: seq<Cell>, c: Cell, g: Gather)
    requires Gathered(done, g) && WellTagged(done + (x + [c])) && c.ch == '\n' && Plain(c) == NEWLINE
    ensures Gathered(done + (x + [c]), Fold(lang, g, Rows(x)))
    decreases |x|
  {
    hide Tracks, WellTagged, Reduces, Gathered, RowOf, RowOk, Step;
    var all, k := done + (x + [c]), BreakAt(x);
    var raw := if k == |x| then x else x[..k];
    var nl, mark := if k == |x| then NEWLINE else x[k], if k == |x| then c else x[k];
    var seg, row := raw + [mark], RowOf(raw, nl);
    assert all[|done|..|done| + |seg|] == seg;
    WellTaggedSlice(all, |done|, |done| + |seg|);
    RowIsOk(raw, nl, mark);
    assert all[0..|done| + |seg|] == done + seg;
    WellTaggedSlice(all, 0, |done| + |seg|);
    StepTracks(lang, done, seg, g, row);
    if k == |x| {
      assert done + seg == all;
      assert Rows(x) == [row];
      FoldOne(lang, g, row);
    } else {
      var rest := x[k + 1..];
      assert done + seg + (rest + [c]) == all;
      FoldTracks(lang, done + seg, rest, c, Step(lang, g, row));
      assert Rows(x)[0] == row && Rows(x)[1..] == Rows(rest);
    }
  }

  lemma {:induction false} FoldOne(lang: Language, g: Gather, row: Row)
    ensures Fold(lang, g, [row]) == Step(lang, g, row)
  {
    assert [row][1..] == [];
  }
}
