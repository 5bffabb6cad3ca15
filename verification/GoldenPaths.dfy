/** Paths into shape templates: the leaves a path names, and `set_leaf` and `flag_empty` that edit them. */
module GoldenPaths {
  import opened Text
  import opened Json
  import opened Golden

  const NULL_MARKER := Str("<VOLATILE:null>")

  /** The field of a template that a step goes through. */
  function NameOf(s: Step): string {
    match s
    case Each => ARRAY_KEY
    case Key(n) => n
  }

  function StepOf(key: string): Step {
    if key == ARRAY_KEY then Each else Key(key)
  }

  /** Paths as the tables declare them: keys in between, no `[]` at either end or twice in a row. */
  ghost predicate Walkable(p: Path) {
    && p != [] && p[0].Key? && p[|p| - 1].Key?
    && (forall i :: 0 <= i < |p| && p[i].Each? ==> 0 < i < |p| - 1 && p[i - 1].Key? && p[i + 1].Key?)
    && Named(p)
  }

  /** No key of the path is a reserved name. */
  predicate Named(p: Path) {
    forall i :: 0 <= i < |p| && p[i].Key? ==> p[i].name != ARRAY_KEY && p[i].name != OR_NULL_KEY
  }

  lemma {:induction false} WalkableSuffix(p: Path, k: nat)
    requires Walkable(p) && k < |p| && p[k].Key?
    ensures Walkable(p[k..])
  {
    var q := p[k..];
    assert forall i :: 0 <= i < |q| ==> q[i] == p[k + i];
    forall i | 0 <= i < |q| && q[i].Each?
      ensures 0 < i < |q| - 1 && q[i - 1].Key? && q[i + 1].Key?
    {
      assert p[k + i].Each?;
    }
  }

  lemma {:induction false} AfterEach(p: Path)
    requires Walkable(p) && |p| > 1 && p[1].Each?
    ensures Walkable(p[2..])
  {
    WalkableSuffix(p, 2);
  }

  /** The subtemplate a path leads to. */
  function LeafAt(t: Json, p: Path): Option<Json>
    decreases |p|
  {
    if p == [] then Some(t)
    else if t.Obj? && NameOf(p[0]) in t.fields && p[0] == StepOf(NameOf(p[0]))
    then LeafAt(t.fields[NameOf(p[0])], p[1..])
    else None
  }

  /** `null_leaves`. */
  function NullLeaves(t: Json): set<Path>
    decreases t
  {
    if t == NULL_MARKER then {[]}
    else if t.Obj? then set k, p | k in t.fields && p in NullLeaves(t.fields[k]) :: [StepOf(k)] + p
    else {}
  }

  /** `empty_arrays`. */
  function EmptyArrays(t: Json): set<Path>
    decreases t
  {
    if !t.Obj? then {}
    else if ARRAY_KEY in t.fields then
      if t.fields[ARRAY_KEY] == Null then {[]}
      else set p | p in EmptyArrays(t.fields[ARRAY_KEY]) :: [Each] + p
    else set k, p | k in t.fields && p in EmptyArrays(t.fields[k]) :: [Key(k)] + p
  }

  /** `set_leaf`; `None` is an exception. */
  function SetLeaf(node: Json, p: Path, value: Json): Option<Json>
    decreases |p|
  {
    if p == [] || p[0].Each? || !node.Obj? then None
    else
      var head := p[0].name;
      if |p| > 1 && p[1].Each? then
        if head !in node.fields || !node.fields[head].Obj? || ARRAY_KEY !in node.fields[head].fields then None
        else
          var rows := node.fields[head].fields;
          match SetLeaf(rows[ARRAY_KEY], p[2..], value)
          case None => None
          case Some(r) => Some(Obj(node.fields[head := Obj(rows[ARRAY_KEY := r])]))
      else if |p| > 1 then
        if head !in node.fields then None
        else
          match SetLeaf(node.fields[head], p[1..], value)
          case None => None
          case Some(r) => Some(Obj(node.fields[head := r]))
      else Some(Obj(node.fields[head := value]))
  }

  /** `flag_empty`; `None` is an exception. */
  function FlagEmpty(node: Json, p: Path): Option<Json>
    decreases |p|
  {
    if p == [] || p[0].Each? || !node.Obj? || p[0].name !in node.fields then None
    else
      var head := p[0].name;
      var child := node.fields[head];
      if |p| > 1 && p[1].Each? then
        if !child.Obj? || ARRAY_KEY !in child.fields then None
        else
          match FlagEmpty(child.fields[ARRAY_KEY], p[2..])
          case None => None
          case Some(r) => Some(Obj(node.fields[head := Obj(child.fields[ARRAY_KEY := r])]))
      else if |p| > 1 then
        match FlagEmpty(child, p[1..])
        case None => None
        case Some(r) => Some(Obj(node.fields[head := r]))
      else if child.Obj? then Some(Obj(node.fields[head := Flagged(child)]))
      else None
  }

  function Flagged(rows: Json): Json
    requires rows.Obj?
  {
    Obj(rows.fields[EMPTY_KEY := Bool(true)])
  }

  // ----- both edits replace what a path leads to -----

  /** The template with `m` where the path leads. */
  function Put(t: Json, p: Path, m: Json): Json
    requires LeafAt(t, p).Some?
    decreases |p|
  {
    if p == [] then m
    else Obj(t.fields[NameOf(p[0]) := Put(t.fields[NameOf(p[0])], p[1..], m)])
  }

  lemma {:induction false} PutTwoSteps(t: Json, p: Path, m: Json)
    requires |p| > 1 && p[0].Key? && p[1].Each? && LeafAt(t, p).Some?
    ensures
      var head := p[0].name;
      && t.Obj? && head in t.fields && t.fields[head].Obj? && ARRAY_KEY in t.fields[head].fields
      && var rows := t.fields[head].fields;
      && LeafAt(rows[ARRAY_KEY], p[2..]) == LeafAt(t, p)
      && Put(t, p, m) == Obj(t.fields[head := Obj(rows[ARRAY_KEY := Put(rows[ARRAY_KEY], p[2..], m)])])
  {
    assert p[1..][0] == Each && p[1..][1..] == p[2..];
    assert LeafAt(t, p) == LeafAt(t.fields[p[0].name], p[1..]);
  }

  lemma {:induction false} SetLeafPuts(t: Json, p: Path, m: Json)
    requires Walkable(p) && LeafAt(t, p).Some?
    ensures SetLeaf(t, p, m) == Some(Put(t, p, m))
    decreases |p|
  {
    if |p| > 1 {
      if p[1].Each? {
        PutTwoSteps(t, p, m);
        AfterEach(p);
        SetLeafPuts(t.fields[p[0].name].fields[ARRAY_KEY], p[2..], m);
      } else {
        WalkableSuffix(p, 1);
        SetLeafPuts(t.fields[p[0].name], p[1..], m);
      }
    } else {
      assert p[1..] == [];
    }
  }

  lemma {:induction false} FlagEmptyPuts(t: Json, p: Path)
    requires Walkable(p) && LeafAt(t, p).Some? && LeafAt(t, p).value.Obj?
    ensures FlagEmpty(t, p) == Some(Put(t, p, Flagged(LeafAt(t, p).value)))
    decreases |p|
  {
    if |p| > 1 {
      if p[1].Each? {
        PutTwoSteps(t, p, Flagged(LeafAt(t, p).value));
        AfterEach(p);
        FlagEmptyPuts(t.fields[p[0].name].fields[ARRAY_KEY], p[2..]);
      } else {
        WalkableSuffix(p, 1);
        FlagEmptyPuts(t.fields[p[0].name], p[1..]);
      }
    } else {
      assert p[1..] == [];
    }
  }

  // ----- which paths the two listings name -----

  lemma {:induction false} NullLeafAt(t: Json, p: Path)
    ensures p in NullLeaves(t) <==> LeafAt(t, p) == Some(NULL_MARKER)
    decreases |p|
  {
    if t.Obj? && p != [] {
      var k := NameOf(p[0]);
      if k in t.fields {
        NullLeafAt(t.fields[k], p[1..]);
        assert p == [p[0]] + p[1..];
      }
      forall k', q | k' in t.fields && q in NullLeaves(t.fields[k']) && p == [StepOf(k')] + q
        ensures k' == k && q == p[1..]
      {
      }
    }
  }

  predicate IsEmptyArray(t: Json) {
    t.Obj? && ARRAY_KEY in t.fields && t.fields[ARRAY_KEY] == Null
  }

  /** A listed path leads to an empty array. */
  lemma {:induction false} EmptyArrayAt(t: Json, p: Path)
    requires p in EmptyArrays(t)
    ensures LeafAt(t, p).Some? && IsEmptyArray(LeafAt(t, p).value)
    decreases |p|
  {
    if ARRAY_KEY in t.fields {
      if t.fields[ARRAY_KEY] != Null {
        var q :| q in EmptyArrays(t.fields[ARRAY_KEY]) && p == [Each] + q;
        assert p[1..] == q;
        EmptyArrayAt(t.fields[ARRAY_KEY], q);
      }
    } else {
      var k, q :| k in t.fields && q in EmptyArrays(t.fields[k]) && p == [Key(k)] + q;
      assert p[1..] == q;
      EmptyArrayAt(t.fields[k], q);
    }
  }

  // ----- templates whose reserved names stand where the recorder puts them -----

  predicate Tidy(t: Json)
    decreases t
  {
    t.Obj? ==>
      && (OR_NULL_KEY in t.fields ==> t.fields.Keys == {OR_NULL_KEY})
      && (ARRAY_KEY in t.fields ==> t.fields.Keys <= {ARRAY_KEY, EMPTY_KEY})
      && (ARRAY_KEY in t.fields && EMPTY_KEY in t.fields ==> t.fields[EMPTY_KEY] == Bool(true))
      && forall k :: k in t.fields ==> Tidy(t.fields[k])
  }

  /** In a tidy template every empty array is listed. */
  lemma {:induction false} EmptyArrayListed(t: Json, p: Path)
    requires Tidy(t) && LeafAt(t, p).Some? && IsEmptyArray(LeafAt(t, p).value)
    ensures p in EmptyArrays(t)
    decreases |p|
  {
    if p != [] {
      var k := NameOf(p[0]);
      EmptyArrayListed(t.fields[k], p[1..]);
      assert p == [p[0]] + p[1..];
      if ARRAY_KEY in t.fields {
        NotNull(t.fields[ARRAY_KEY], p[1..]);
      }
    }
  }

  lemma NotNull(t: Json, p: Path)
    requires LeafAt(t, p).Some? && LeafAt(t, p).value != Null
    ensures t != Null
  {
  }

  lemma {:induction false} PutTidy(t: Json, p: Path, m: Json)
    requires Tidy(t) && Tidy(m) && LeafAt(t, p).Some? && !LeafAt(t, p).value.Bool?
    ensures Tidy(Put(t, p, m))
    decreases |p|
  {
    if p != [] {
      var k := NameOf(p[0]);
      PutTidy(t.fields[k], p[1..], m);
      assert t.fields[k := Put(t.fields[k], p[1..], m)].Keys == t.fields.Keys;
    }
  }

  // ----- an edit leaves other paths alone -----

  /** The paths part at some key. */
  ghost predicate Diverge(p: Path, q: Path) {
    exists i :: 0 <= i < |p| && i < |q| && p[i] != q[i] && p[..i] == q[..i]
  }

  lemma {:induction false} DivergeTail(p: Path, q: Path)
    requires Diverge(p, q) && p[0] == q[0]
    ensures Diverge(p[1..], q[1..])
  {
    var i :| 0 <= i < |p| && i < |q| && p[i] != q[i] && p[..i] == q[..i];
    assert p[1..][i - 1] != q[1..][i - 1];
    assert p[1..][..i - 1] == p[..i][1..] == q[..i][1..] == q[1..][..i - 1];
  }

  lemma {:induction false} DivergeCons(p: Path, q: Path)
    requires p != [] && q != [] && p[0] == q[0] && Diverge(p[1..], q[1..])
    ensures Diverge(p, q)
  {
    var i :| 0 <= i < |p[1..]| && i < |q[1..]| && p[1..][i] != q[1..][i] && p[1..][..i] == q[1..][..i];
    assert p[i + 1] != q[i + 1];
    assert p[..i + 1] == [p[0]] + p[1..][..i] && q[..i + 1] == [q[0]] + q[1..][..i];
  }

  lemma {:induction false} DivergeBack(p: Path, q: Path)
    requires Diverge(p, q)
    ensures Diverge(q, p)
  {
    var i :| 0 <= i < |p| && i < |q| && p[i] != q[i] && p[..i] == q[..i];
    assert q[i] != p[i] && q[..i] == p[..i];
  }

  lemma {:induction false} PutElsewhere(t: Json, p: Path, m: Json, q: Path)
    requires LeafAt(t, p).Some? && Diverge(p, q)
    ensures LeafAt(Put(t, p, m), q) == LeafAt(t, q)
    decreases |p|
  {
    if p[0] == q[0] {
      DivergeTail(p, q);
      PutElsewhere(t.fields[NameOf(p[0])], p[1..], m, q[1..]);
    }
  }

  // ----- set_leaf, also where the last key is new -----

  /** The path leads to an object, up to its last key. */
  predicate ParentAt(t: Json, p: Path)
    requires p != []
  {
    var parent := LeafAt(t, p[..|p| - 1]);
    parent.Some? && parent.value.Obj?
  }

  lemma {:induction false} ParentStep(t: Json, p: Path)
    requires |p| > 1
    ensures ParentAt(t, p) <==>
      && t.Obj? && NameOf(p[0]) in t.fields && p[0] == StepOf(NameOf(p[0]))
      && ParentAt(t.fields[NameOf(p[0])], p[1..])
  {
    assert p[..|p| - 1][0] == p[0] && p[..|p| - 1][1..] == p[1..][..|p[1..]| - 1];
  }

  /** `set_leaf` raises nothing exactly when there is such an object; then the path leads to the value. */
  lemma {:induction false} SetLeafIff(t: Json, p: Path, m: Json)
    requires Walkable(p)
    ensures SetLeaf(t, p, m).Some? <==> ParentAt(t, p)
    ensures SetLeaf(t, p, m).Some? ==> LeafAt(SetLeaf(t, p, m).value, p) == Some(m)
    decreases |p|
  {
    hide ParentAt, Walkable;
    WalkableHead(p);
    if |p| == 1 {
      assert ParentAt(t, p) <==> t.Obj? by { ParentOne(t, p); }
    } else {
      ParentStep(t, p);
      if t.Obj? && p[0].name in t.fields {
        var child := t.fields[p[0].name];
        if p[1].Each? {
          AfterEach(p);
          assert p[1..][0] == Each && p[1..][1..] == p[2..];
          ParentStep(child, p[1..]);
          if child.Obj? && ARRAY_KEY in child.fields {
            SetLeafIff(child.fields[ARRAY_KEY], p[2..], m);
          }
        } else {
          WalkableSuffix(p, 1);
          SetLeafIff(child, p[1..], m);
        }
      }
    }
  }

  lemma WalkableHead(p: Path)
    requires Walkable(p)
    ensures p != [] && p[0].Key? && p[0] == StepOf(p[0].name)
  {
  }

  lemma ParentOne(t: Json, p: Path)
    requires |p| == 1
    ensures ParentAt(t, p) <==> t.Obj?
  {
    assert p[..0] == [];
  }

  /** And every path that parts from it leads where it led. */
  lemma {:induction false} SetLeafElsewhere(t: Json, p: Path, m: Json, q: Path)
    requires Walkable(p) && SetLeaf(t, p, m).Some? && Diverge(p, q)
    ensures LeafAt(SetLeaf(t, p, m).value, q) == LeafAt(t, q)
    decreases |p|
  {
    hide Diverge, Walkable;
    WalkableHead(p);
    PartsSomewhere(p, q);
    if p[0] == q[0] {
      DivergeTail(p, q);
      PartsSomewhere(p[1..], q[1..]);
      var child := t.fields[p[0].name];
      if p[1].Each? {
        AfterEach(p);
        assert p[1..][1..] == p[2..] && q[1..][1..] == q[2..];
        if q[1].Each? {
          DivergeTail(p[1..], q[1..]);
          SetLeafElsewhere(child.fields[ARRAY_KEY], p[2..], m, q[2..]);
        }
      } else {
        WalkableSuffix(p, 1);
        SetLeafElsewhere(child, p[1..], m, q[1..]);
      }
    }
  }

  lemma PartsSomewhere(p: Path, q: Path)
    requires Diverge(p, q)
    ensures p != [] && q != []
  {
  }

  /** Leaves and empty arrays have nothing below them that is one. */
  predicate Ending(t: Json) {
    t.Str? || IsEmptyArray(t)
  }

  lemma {:induction false} EndingsDiverge(t: Json, p: Path, q: Path)
    requires Tidy(t) && p != q
    requires LeafAt(t, p).Some? && Ending(LeafAt(t, p).value)
    requires LeafAt(t, q).Some? && Ending(LeafAt(t, q).value)
    ensures Diverge(p, q)
    decreases |p|
  {
    hide Diverge, Ending;
    if p == [] {
      NoneBelow(t, q);
    } else if q == [] {
      NoneBelow(t, p);
    } else if p[0] == q[0] {
      assert p == [p[0]] + p[1..] && q == [q[0]] + q[1..];
      EndingsDiverge(t.fields[NameOf(p[0])], p[1..], q[1..]);
      DivergeCons(p, q);
    } else {
      DivergeNow(p, q);
    }
  }

  lemma DivergeNow(p: Path, q: Path)
    requires p != [] && q != [] && p[0] != q[0]
    ensures Diverge(p, q)
  {
    assert p[..0] == q[..0];
  }

  lemma {:induction false} NoneBelow(t: Json, q: Path)
    requires Tidy(t) && Ending(t) && q != []
    ensures LeafAt(t, q).None? || !Ending(LeafAt(t, q).value)
  {
    if LeafAt(t, q).Some? {
      assert LeafAt(t.fields[NameOf(q[0])], q[1..]).Some?;
    }
  }
}
