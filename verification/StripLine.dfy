/** `strip_line`: one line with its comments cut out, without gluing two tokens together. */
module StripLine {
  import opened Text
  import opened Lexer
  import opened Reduction
  import opened Tagged
  import opened Join

  const SPACE := Cell(' ', Void)

  /** How many cells at the start belong to comments. */
  function MaskedRun(line: seq<Cell>): (n: nat)
    ensures n <= |line|
    ensures forall k :: 0 <= k < n ==> line[k].IsComment()
    ensures n < |line| ==> !line[n].IsComment()
  {
    if line == [] || !line[0].IsComment() then 0 else 1 + MaskedRun(line[1..])
  }

  function BlankRun(line: seq<Cell>): (n: nat)
    ensures n <= |line|
    ensures forall k :: 0 <= k < n ==> IsBlank(line[k].ch)
  {
    if line == [] || !IsBlank(line[0].ch) then 0 else 1 + BlankRun(line[1..])
  }

  /** The part of the output still to come, and whether a comment ended the line. */
  datatype Cut = Cut(cells: seq<Cell>, trailing: bool)

  function Onto(done: seq<Cell>, cut: Cut): Cut {
    Cut(done + cut.cells, cut.trailing)
  }

  lemma {:induction false} CutSnoc(done: seq<Cell>, c: Cell, cut: Cut)
    ensures Onto(done, Prepend(c, cut)) == Onto(done + [c], cut)
  {
    assert done + ([c] + cut.cells) == (done + [c]) + cut.cells;
  }

  function Prepend(c: Cell, cut: Cut): Cut {
    Cut([c] + cut.cells, cut.trailing)
  }

  /** `before` holds the last character written, if any. */
  function StripFrom(line: seq<Cell>, before: string): Cut
    decreases |line|
  {
    if line == [] then Cut([], false)
    else if !line[0].IsComment() then Prepend(line[0], StripFrom(line[1..], [line[0].ch]))
    else
      var rest := line[MaskedRun(line)..];
      if rest == [] then Cut([], true)
      else if before == [] || IsBlank(before[0]) then StripFrom(rest[BlankRun(rest)..], before)
      else if !IsBlank(rest[0].ch) && !Unspaced(before[0]) && !Unspaced(rest[0].ch)
      then Prepend(SPACE, StripFrom(rest, " "))
      else StripFrom(rest, before)
  }

  /** `rstrip()` on cells. */
  function TrimEnd(x: seq<Cell>): (y: seq<Cell>)
    ensures y <= x
  {
    if x == [] || !IsSpace(x[|x| - 1].ch) then x else TrimEnd(x[..|x| - 1])
  }

  function Stripped(line: seq<Cell>): seq<Cell> {
    var cut := StripFrom(line, "");
    if cut.trailing then TrimEnd(cut.cells) else cut.cells
  }

  /** `out[-1] if out else ""`. */
  function Last(out: string): string {
    if out == "" then "" else [out[|out| - 1]]
  }

  lemma {:induction false} TextEmpty()
    ensures TextOf([]) == ""
  {
  }

  lemma {:induction false} TextSnoc(x: seq<Cell>, c: Cell)
    ensures TextOf(x + [c]) == TextOf(x) + [c.ch]
  {
  }

  lemma {:induction false} TrimText(x: seq<Cell>)
    ensures RStrip(TextOf(x)) == TextOf(TrimEnd(x))
    decreases |x|
  {
    if x != [] && IsSpace(x[|x| - 1].ch) {
      assert TextOf(x[..|x| - 1]) == TextOf(x)[..|x| - 1];
      TrimText(x[..|x| - 1]);
    }
  }

  lemma {:induction false} EmptyCut(before: string)
    ensures StripFrom([], before) == Cut([], false)
  {
  }

  /** What `StripFrom` does once a run of comment cells is over. */
  function AfterRun(rest: seq<Cell>, before: string): Cut {
    if rest == [] then Cut([], true)
    else if before == [] || IsBlank(before[0]) then StripFrom(rest[BlankRun(rest)..], before)
    else if !IsBlank(rest[0].ch) && !Unspaced(before[0]) && !Unspaced(rest[0].ch)
    then Prepend(SPACE, StripFrom(rest, " "))
    else StripFrom(rest, before)
  }

  lemma {:induction false} StepPlain(cells: seq<Cell>, k: nat, before: string)
    requires k < |cells| && !cells[k].IsComment()
    ensures StripFrom(cells[k..], before) == Prepend(cells[k], StripFrom(cells[k + 1..], [cells[k].ch]))
  {
    assert cells[k..][0] == cells[k] && cells[k..][1..] == cells[k + 1..];
  }

  lemma {:induction false} StepMasked(cells: seq<Cell>, k: nat, e: nat, before: string)
    requires k < |cells| && cells[k].IsComment() && e == k + MaskedRun(cells[k..])
    ensures k < e && StripFrom(cells[k..], before) == AfterRun(cells[e..], before)
  {
    hide BlankRun, IsBlank, Unspaced;
    var line := cells[k..];
    assert line[0] == cells[k];
    assert line[MaskedRun(line)..] == cells[e..];
  }

  method MaskEnd(mask: seq<bool>, k: nat, ghost cells: seq<Cell>) returns (e: nat)
    requires |mask| == |cells| && k <= |cells|
    requires forall i :: 0 <= i < |cells| ==> (mask[i] <==> cells[i].IsComment())
    ensures e == k + MaskedRun(cells[k..])
  {
    e := k;
    while e < |mask| && mask[e]
      invariant k <= e <= |mask|
      invariant e - k + MaskedRun(cells[e..]) == MaskedRun(cells[k..])
    {
      assert cells[e..][0] == cells[e] && cells[e..][1..] == cells[e + 1..];
      e := e + 1;
    }
  }

  method BlankEnd(line: string, f: nat, ghost cells: seq<Cell>) returns (e: nat)
    requires TextOf(cells) == line && f <= |line|
    ensures e == f + BlankRun(cells[f..])
  {
    e := f;
    while e < |line| && IsBlank(line[e])
      invariant f <= e <= |line|
      invariant e - f + BlankRun(cells[e..]) == BlankRun(cells[f..])
    {
      assert cells[e..][0] == cells[e] && cells[e..][1..] == cells[e + 1..];
      e := e + 1;
    }
  }

  /** `strip_line` on the text and the mask, proved against `Stripped`. */
  method StripTextLine(line: string, mask: seq<bool>, ghost cells: seq<Cell>) returns (r: string)
    requires |mask| == |line| && TextOf(cells) == line
    requires forall k :: 0 <= k < |line| ==> (mask[k] <==> cells[k].IsComment())
    ensures r == TextOf(Stripped(cells))
  {
    hide StripFrom, TextOf, IsBlank, Unspaced, Prepend;
    var out, k, trailing := "", 0, false;
    ghost var done: seq<Cell> := [];
    ghost var all := StripFrom(cells, "");
    assert cells[0..] == cells && [] + all.cells == all.cells;
    assert TextOf([]) == "" by { TextEmpty(); }
    while k < |line|
      invariant 0 <= k <= |line|
      invariant TextOf(done) == out
      invariant trailing ==> k == |line| && all == Cut(done, true)
      invariant !trailing ==> all == Onto(done, StripFrom(cells[k..], Last(out)))
    {
      if !mask[k] {
        StepPlain(cells, k, Last(out));
        CutSnoc(done, cells[k], StripFrom(cells[k + 1..], [cells[k].ch]));
        TextSnoc(done, cells[k]);
        out, done := out + [line[k]], done + [cells[k]];
        k := k + 1;
      } else {
        var e := MaskEnd(mask, k, cells);
        StepMasked(cells, k, e, Last(out));
        var before := Last(out);
        if e == |line| {
          trailing := true;
          assert cells[e..] == [] && done + [] == done;
        } else if before == "" || IsBlank(before[0]) {
          var f := BlankEnd(line, e, cells);
          assert cells[e..][f - e..] == cells[f..];
          e := f;
        } else if IsBlank(line[e]) {
          assert cells[e..][0] == cells[e];
        } else if !Unspaced(before[0]) && !Unspaced(line[e]) {
          assert cells[e..][0] == cells[e];
          CutSnoc(done, SPACE, StripFrom(cells[e..], " "));
          TextSnoc(done, SPACE);
          out, done := out + " ", done + [SPACE];
        } else {
          assert cells[e..][0] == cells[e];
        }
        k := e;
      }
    }
    if trailing {
      TrimText(done);
      r := RStrip(out);
    } else {
      assert cells[k..] == [] && done + [] == done;
      EmptyCut(Last(out));
      r := out;
    }
  }

  // ----- what the cut keeps -----

  /** The state of `Reduces` when `before` was the last character written on the line. */
  predicate SepBefore(before: string) {
    before == [] || Sep(before[0])
  }

  lemma {:induction false} StripFromReduces(line: seq<Cell>, before: string, gap: bool)
    requires WellTagged(line)
    requires gap ==> SepBefore(before) || line == [] || (!line[0].IsComment() && Sep(line[0].ch))
    ensures Reduces(line, StripFrom(line, before).cells, gap, SepBefore(before), false)
    ensures NoComments(StripFrom(line, before).cells)
    decreases |line|
  {
    hide Reduces, IsSpace, PairShape, CellShape, Unspaced;
    if line == [] {
      assert Reduces([], [], gap, SepBefore(before), false) by { EmptyReduces(gap, SepBefore(before)); }
    } else if !line[0].IsComment() {
      var w := StripFrom(line[1..], [line[0].ch]).cells;
      TaggedTail(line, 1);
      StripFromReduces(line[1..], [line[0].ch], false);
      assert ([line[0]] + w)[1..] == w;
      Copies(line, [line[0]] + w, gap, SepBefore(before), false);
    } else {
      StripMaskedReduces(line, before, gap);
    }
  }

  lemma {:induction false} EmptyReduces(gap: bool, sep: bool)
    ensures Reduces([], [], gap, sep, false)
  {
  }

  lemma {:induction false} TaggedTail(line: seq<Cell>, n: nat)
    requires WellTagged(line) && n <= |line|
    ensures WellTagged(line[n..])
  {
    WellTaggedSlice(line, n, |line|);
    assert line[n..|line|] == line[n..];
  }

  lemma {:induction false} BlankIsSep(c: char)
    ensures IsBlank(c) ==> IsSpace(c)
    ensures IsSpace(' ')
  {
  }

  lemma {:induction false} StripMaskedReduces(line: seq<Cell>, before: string, gap: bool)
    requires WellTagged(line) && line != [] && line[0].IsComment()
    requires gap ==> SepBefore(before)
    ensures Reduces(line, StripFrom(line, before).cells, gap, SepBefore(before), false)
    ensures NoComments(StripFrom(line, before).cells)
    decreases |line|, 0
  {
    hide Reduces, IsSpace, PairShape, CellShape, Unspaced, WellTagged;
    var n := MaskedRun(line);
    var rest, sep := line[n..], SepBefore(before);
    TaggedTail(line, n);
    if rest == [] {
      assert Reduces([], [], true, sep, false) by { EmptyReduces(true, sep); }
      Removed(line, [], n, gap, sep, false);
    } else {
      assert rest[0] == line[n];
      BlanksAfter(line, n, n + BlankRun(rest));
      BlankIsSep(rest[0].ch);
      if before == [] || IsBlank(before[0]) {
        var m := n + BlankRun(rest);
        assert rest[BlankRun(rest)..] == line[m..];
        TaggedTail(line, m);
        assert before != [] ==> IsSpace(before[0]) by { if before != [] { BlankIsSep(before[0]); } }
        StripFromReduces(line[m..], before, true);
        assert forall k :: n <= k < m ==> !line[k].IsSolid();
        Removed(line, StripFrom(line[m..], before).cells, m, gap, sep, false);
      } else if !IsBlank(rest[0].ch) && !Unspaced(before[0]) && !Unspaced(rest[0].ch) {
        var w := StripFrom(rest, " ").cells;
        StripFromReduces(rest, " ", true);
        assert ([SPACE] + w)[1..] == w;
        NotRest(line, n);
        Inserts(rest, [SPACE] + w, true, sep, false);
        Removed(line, [SPACE] + w, n, gap, sep, false);
      } else {
        StripFromReduces(rest, before, true);
        Removed(line, StripFrom(rest, before).cells, n, gap, sep, false);
      }
    }
  }

  lemma {:induction false} NotRest(line: seq<Cell>, n: nat)
    requires WellTagged(line) && 0 < n < |line| && line[n - 1].IsComment()
    ensures line[n].tag != Rest
  {
    assert PairShape(line[n - 1], line[n]);
  }

  // ----- trimming -----

  /** A white-space cell of a token is followed by more of the token. */
  ghost predicate TokensClosed(w: seq<Cell>) {
    forall k :: 0 <= k < |w| && w[k].IsSolid() && IsSpace(w[k].ch) ==> k + 1 < |w| && w[k + 1].tag == Rest
  }

  lemma {:induction false} StripFromClosed(line: seq<Cell>, before: string)
    requires WellTagged(line) && StripFrom(line, before).trailing
    ensures TokensClosed(StripFrom(line, before).cells)
    decreases |line|
  {
    hide IsSpace;
    if !line[0].IsComment() {
      var w := StripFrom(line[1..], [line[0].ch]).cells;
      TaggedTail(line, 1);
      StripFromClosed(line[1..], [line[0].ch]);
      var y := [line[0]] + w;
      forall k | 0 <= k < |y| && y[k].IsSolid() && IsSpace(y[k].ch)
        ensures k + 1 < |y| && y[k + 1].tag == Rest
      {
        if k == 0 {
          assert |line| > 1;
          assert PairShape(line[0], line[1]);
          assert w[0] == line[1];
        } else {
          assert y[k] == w[k - 1] && k < |w| && w[k].tag == Rest;
        }
      }
    } else {
      var n := MaskedRun(line);
      var rest := line[n..];
      TaggedTail(line, n);
      if rest != [] {
        if before == [] || IsBlank(before[0]) {
          TaggedTail(rest, BlankRun(rest));
          StripFromClosed(rest[BlankRun(rest)..], before);
        } else if !IsBlank(rest[0].ch) && !Unspaced(before[0]) && !Unspaced(rest[0].ch) {
          StripFromClosed(rest, " ");
          SpaceClosed(StripFrom(rest, " ").cells);
        } else {
          StripFromClosed(rest, before);
        }
      }
    }
  }

  lemma {:induction false} SpaceClosed(w: seq<Cell>)
    requires TokensClosed(w)
    ensures TokensClosed([SPACE] + w)
  {
    var y := [SPACE] + w;
    forall k | 0 <= k < |y| && y[k].IsSolid() && IsSpace(y[k].ch)
      ensures k + 1 < |y| && y[k + 1].tag == Rest
    {
      assert y[k] == w[k - 1] && k < |w| && w[k].tag == Rest;
    }
  }

  /** Everything left out can be told from the outside: no token cell. */
  lemma {:induction false} ReducesToNothing(x: seq<Cell>, gap: bool, sep: bool, hold: bool)
    requires Reduces(x, [], gap, sep, hold)
    ensures forall k :: 0 <= k < |x| ==> !x[k].IsSolid()
    decreases |x|
  {
    if x != [] {
      ReducesToNothing(x[1..], true, sep, false);
      assert forall k :: 1 <= k < |x| ==> x[k] == x[1..][k - 1];
    }
  }

  lemma {:induction false} AllRemoved(x: seq<Cell>, sep: bool)
    requires forall k :: 0 <= k < |x| ==> !x[k].IsSolid()
    ensures Reduces(x, [], true, sep, false)
  {
    assert x[|x|..] == [];
    EmptyReduces(true, sep);
    Removed(x, [], |x|, true, sep, false);
  }

  /** The last white-space cell written may as well not be written. */
  lemma {:induction false} DropLast(x: seq<Cell>, y: seq<Cell>, c: Cell, gap: bool, sep: bool)
    requires Reduces(x, y + [c], gap, sep, false) && c.tag == Void && NoComments(y)
    ensures Reduces(x, y, gap, sep, false)
    decreases |x| + |y|
  {
    var y' := y + [c];
    if CanDelete(x, false) && Reduces(x[1..], y', true, sep, false) {
      DropLast(x[1..], y, c, true, sep);
      Deletes(x, y, gap, sep, false);
    } else if y == [] {
      assert y'[1..] == [];
      LastOnly(x, y', gap, sep);
    } else {
      assert y'[0] == y[0] && y'[1..] == y[1..] + [c];
      if CanInsert(x, y'[0], false) && Reduces(x, y'[1..], gap, true, false) {
        DropLast(x, y[1..], c, gap, true);
        Inserts(x, y, gap, sep, false);
      } else {
        DropLast(x[1..], y[1..], c, false, Sep(x[0].ch));
        Copies(x, y, gap, sep, false);
      }
    }
  }

  lemma {:induction false} LastOnly(x: seq<Cell>, y: seq<Cell>, gap: bool, sep: bool)
    requires |y| == 1 && y[0].tag == Void && Reduces(x, y, gap, sep, false)
    requires !(CanDelete(x, false) && Reduces(x[1..], y, true, sep, false))
    ensures Reduces(x, [], gap, sep, false)
  {
    assert y[1..] == [];
    if CanInsert(x, y[0], false) && Reduces(x, y[1..], gap, true, false) {
      ReducesToNothing(x, gap, true, false);
    } else {
      ReducesToNothing(x[1..], false, Sep(x[0].ch), HoldAfter(x[0], false));
      assert forall k :: 1 <= k < |x| ==> x[k] == x[1..][k - 1];
    }
    assert forall k :: 1 <= k < |x| ==> x[1..][k - 1] == x[k];
    AllRemoved(x[1..], sep);
    Deletes(x, [], gap, sep, false);
  }

  lemma {:induction false} TrimReduces(x: seq<Cell>, w: seq<Cell>)
    requires Reduces(x, w, true, true, false) && NoComments(w) && TokensClosed(w)
    ensures Reduces(x, TrimEnd(w), true, true, false) && NoComments(TrimEnd(w))
    decreases |w|
  {
    hide Reduces, IsSpace;
    if w != [] && IsSpace(w[|w| - 1].ch) {
      var v, c := w[..|w| - 1], w[|w| - 1];
      assert w == v + [c];
      DropLast(x, v, c, true, true);
      assert forall k :: 0 <= k < |v| ==> v[k] == w[k];
      TrimReduces(x, v);
    }
  }

  /** A stripped line keeps its tokens and has no comment left. */
  lemma {:induction false} StrippedReduces(line: seq<Cell>)
    requires WellTagged(line)
    ensures Reduces(line, Stripped(line), true, true, false) && NoComments(Stripped(line))
  {
    hide Reduces, StripFrom, NoComments, TokensClosed;
    StripFromReduces(line, "", true);
    if StripFrom(line, "").trailing {
      StripFromClosed(line, "");
      TrimReduces(line, StripFrom(line, "").cells);
    }
  }
}
