/** Where the cells of a rewritten text come from: an order-preserving placement that glues nothing together. */
module Placement {
  import opened Text
  import opened Lexer
  import opened Reduction

  /** Every cell of `y` is a cell of `x`, or white space that was written in. */
  ghost predicate Sourced(x: seq<Cell>, y: seq<Cell>, at: seq<int>) {
    && |at| == |y|
    && forall j :: 0 <= j < |y| ==>
         if at[j] < 0 then y[j].tag == Void && IsSpace(y[j].ch) else at[j] < |x| && x[at[j]] == y[j]
  }

  ghost predicate Rising(at: seq<int>) {
    forall i, j :: 0 <= i < j < |at| && at[i] >= 0 && at[j] >= 0 ==> at[i] < at[j]
  }

  ghost predicate KeepsSolid(x: seq<Cell>, at: seq<int>) {
    forall k :: 0 <= k < |x| && x[k].IsSolid() ==> k in at
  }

  /** Neighbours of `y` of which neither is a separator were neighbours before. */
  ghost predicate Together(y: seq<Cell>, at: seq<int>) {
    |at| == |y| && forall j :: 0 < j < |y| && !Sep(y[j - 1].ch) && !Sep(y[j].ch) ==> at[j - 1] >= 0 && at[j] == at[j - 1] + 1
  }

  ghost predicate Places(x: seq<Cell>, y: seq<Cell>, at: seq<int>) {
    Sourced(x, y, at) && Rising(at) && KeepsSolid(x, at) && Together(y, at)
  }

  function Moved(at: seq<int>, n: nat): (r: seq<int>)
    ensures |r| == |at| && forall j :: 0 <= j < |at| ==> r[j] == if at[j] < 0 then -1 else at[j] + n
  {
    seq(|at|, j requires 0 <= j < |at| => if at[j] < 0 then -1 else at[j] + n)
  }

  lemma {:induction false} PlacesInserted(x: seq<Cell>, y: seq<Cell>, at: seq<int>)
    requires y != [] && y[0].tag == Void && IsSpace(y[0].ch) && Places(x, y[1..], at)
    ensures Places(x, y, [-1] + at)
  {
    hide IsSpace, Unspaced;
    var all := [-1] + at;
    assert forall j :: 0 < j < |y| ==> y[j] == y[1..][j - 1] && all[j] == at[j - 1];
    assert forall k :: k in at ==> k in all;
  }

  lemma {:induction false} PlacesMoved(x: seq<Cell>, y: seq<Cell>, at: seq<int>)
    requires x != [] && Places(x[1..], y, at)
    ensures Sourced(x, y, Moved(at, 1)) && Rising(Moved(at, 1)) && Together(y, Moved(at, 1))
    ensures forall k :: 0 < k < |x| && x[k].IsSolid() ==> k in Moved(at, 1)
  {
    hide IsSpace, Sep;
    var all := Moved(at, 1);
    forall k | 0 < k < |x| && x[k].IsSolid()
      ensures k in all
    {
      assert x[1..][k - 1] == x[k];
      var j :| 0 <= j < |at| && at[j] == k - 1;
      assert all[j] == k;
    }
  }

  lemma {:induction false} PlacesDeleted(x: seq<Cell>, y: seq<Cell>, at: seq<int>)
    requires x != [] && !x[0].IsSolid() && Places(x[1..], y, at)
    ensures Places(x, y, Moved(at, 1))
  {
    hide Sourced, Rising, Together;
    PlacesMoved(x, y, at);
  }

  lemma {:induction false} CopiedSourced(x: seq<Cell>, y: seq<Cell>, rest: seq<int>)
    requires x != [] && y != [] && x[0] == y[0] && Sourced(x, y[1..], rest)
    ensures Sourced(x, y, [0] + rest)
  {
    hide IsSpace;
    var all := [0] + rest;
    forall j | 0 <= j < |y|
      ensures if all[j] < 0 then y[j].tag == Void && IsSpace(y[j].ch) else all[j] < |x| && x[all[j]] == y[j]
    {
      assert j > 0 ==> y[j] == y[1..][j - 1] && all[j] == rest[j - 1];
    }
  }

  lemma {:induction false} CopiedTogether(y: seq<Cell>, rest: seq<int>)
    requires y != [] && Together(y[1..], rest)
    requires |y| > 1 && !Sep(y[0].ch) && !Sep(y[1].ch) ==> rest[0] == 1
    ensures Together(y, [0] + rest)
  {
    hide Sep;
    var all := [0] + rest;
    forall j | 0 < j < |y| && !Sep(y[j - 1].ch) && !Sep(y[j].ch)
      ensures all[j - 1] >= 0 && all[j] == all[j - 1] + 1
    {
      assert all[j] == rest[j - 1];
      assert j > 1 ==> y[1..][j - 1] == y[j] && y[1..][j - 2] == y[j - 1] && all[j - 1] == rest[j - 2];
    }
  }

  lemma {:induction false} PlacesCopied(x: seq<Cell>, y: seq<Cell>, at: seq<int>)
    requires x != [] && y != [] && x[0] == y[0] && Places(x[1..], y[1..], at)
    requires |y| > 1 && !Sep(y[0].ch) && !Sep(y[1].ch) ==> at[0] == 0
    ensures Places(x, y, [0] + Moved(at, 1))
  {
    hide IsSpace, Sep, Sourced, Together;
    var rest, all := Moved(at, 1), [0] + Moved(at, 1);
    PlacesMoved(x, y[1..], at);
    CopiedSourced(x, y, rest);
    CopiedTogether(y, rest) by { assert |at| == |y[1..]| by { PlacedLength(x[1..], y[1..], at); } }
    assert Rising(all) by { assert forall j :: 0 < j < |all| ==> all[j] == rest[j - 1]; }
    assert forall k :: k in rest ==> k in all;
    assert all[0] == 0;
  }

  lemma PlacedLength(x: seq<Cell>, y: seq<Cell>, at: seq<int>)
    requires Sourced(x, y, at)
    ensures |at| == |y|
  {
    hide IsSpace;
  }

  /** Such a rewriting places its cells. */
  lemma {:induction false} ReducesPlaces(x: seq<Cell>, y: seq<Cell>, gap: bool, sep: bool, hold: bool) returns (at: seq<int>)
    requires Reduces(x, y, gap, sep, hold)
    ensures Places(x, y, at)
    ensures y != [] && !sep && !Sep(y[0].ch) ==> !gap && at[0] == 0
    decreases |x| + |y|
  {
    hide IsSpace, Unspaced, Places, LineBreak;
    if x == [] && y == [] {
      at := [];
      PlacesNothing();
    } else if y != [] && CanInsert(x, y[0], hold) && Reduces(x, y[1..], gap, true, false) {
      at := ReducesPlaces(x, y[1..], gap, true, false);
      PlacesInserted(x, y, at);
      at := [-1] + at;
    } else if CanDelete(x, hold) && Reduces(x[1..], y, true, sep, false) {
      at := ReducesPlaces(x[1..], y, true, sep, false);
      PlacesDeleted(x, y, at);
      at := Moved(at, 1);
    } else {
      at := ReducesPlaces(x[1..], y[1..], false, Sep(x[0].ch), HoldAfter(x[0], hold));
      assert |y| > 1 ==> y[1..][0] == y[1];
      PlacesCopied(x, y, at);
      at := [0] + Moved(at, 1);
    }
  }

  lemma PlacesNothing()
    ensures Places([], [], [])
  {
  }

  lemma {:induction false} PlacesSame(x: seq<Cell>) returns (at: seq<int>)
    ensures Places(x, x, at)
  {
    hide IsSpace, Sep;
    at := seq(|x|, j => j);
    forall k | 0 <= k < |x|
      ensures k in at
    {
      assert at[k] == k;
    }
  }

  // ----- one rewriting after another -----

  function Through(first: seq<int>, second: seq<int>): (r: seq<int>)
    ensures |r| == |second|
    ensures forall j :: 0 <= j < |r| ==> r[j] == if 0 <= second[j] < |first| then first[second[j]] else -1
  {
    seq(|second|, j requires 0 <= j < |second| => if 0 <= second[j] < |first| then first[second[j]] else -1)
  }

  lemma {:induction false} PlacesThrough(x: seq<Cell>, y: seq<Cell>, z: seq<Cell>, first: seq<int>, second: seq<int>)
    requires Places(x, y, first) && Places(y, z, second)
    ensures Places(x, z, Through(first, second))
  {
    hide IsSpace, Sep;
    var at := Through(first, second);
    assert Sourced(x, z, at);
    assert Rising(at);
    forall k | 0 <= k < |x| && x[k].IsSolid()
      ensures k in at
    {
      var i :| 0 <= i < |first| && first[i] == k;
      assert y[i] == x[k];
      var j :| 0 <= j < |second| && second[j] == i;
      assert at[j] == k;
    }
    forall j | 0 < j < |z| && !Sep(z[j - 1].ch) && !Sep(z[j].ch)
      ensures at[j - 1] >= 0 && at[j] == at[j - 1] + 1
    {
      var i := second[j];
      assert second[j - 1] == i - 1 >= 0 && y[i - 1] == z[j - 1] && y[i] == z[j];
    }
  }

  /** The same cell added behind both. */
  lemma {:induction false} PlacesSnoc(x: seq<Cell>, y: seq<Cell>, at: seq<int>, c: Cell)
    requires Places(x, y, at) && Sep(c.ch)
    ensures Places(x + [c], y + [c], at + [|x|])
  {
    hide IsSpace, Unspaced;
    var all := at + [|x|];
    assert forall k :: k in at ==> k in all;
    assert all[|y|] == |x|;
  }
}
