/** What the recorder's three editing loops write, path by path, and exactly what a plain mark accepts. */
module GoldenEdits {
  import opened Text
  import opened Json
  import opened Splitting
  import opened Golden
  import opened GoldenKinds
  import opened GoldenTemplate
  import opened GoldenFits
  import opened GoldenPaths
  import opened GoldenShape
  import opened GoldenMark
  import opened GoldenVolatile

  lemma {:induction false} PutThere(t: Json, p: Path, m: Json)
    requires LeafAt(t, p).Some?
    ensures LeafAt(Put(t, p, m), p) == Some(m)
    decreases |p|
  {
    if p != [] {
      PutThere(t.fields[NameOf(p[0])], p[1..], m);
    }
  }

  // ----- null templates and enums -----

  /** The path parts from every declared leaf below the key. */
  ghost predicate ClearOf(q: Path, key: Path, leaves: seq<Declared>) {
    forall i :: 0 <= i < |leaves| && Below(leaves[i].path, key) ==> Diverge(leaves[i].path[|key|..], q)
  }

  lemma {:induction false} EditLeavesElsewhere(t: Json, v: Json, key: Path, leaves: seq<Declared>, q: Path)
    requires Holds(t, v) && Editable(t, v, key, leaves) && ClearOf(q, key, leaves)
    ensures EditLeaves(t, key, leaves).Some? && LeafAt(EditLeaves(t, key, leaves).value, q) == LeafAt(t, q)
    decreases |leaves|
  {
    hide Loose, Tidy, LeafAt, Put, SetLeaf, Filled, LeafOk, LeafMarker, Walkable, Diverge, Apart;
    if leaves != [] {
      var d, rest := leaves[0], leaves[1..];
      assert forall i :: 0 <= i < |rest| ==> rest[i] == leaves[i + 1];
      if !Below(d.path, key) {
        EditableSkip(t, v, key, leaves);
        EditLeavesElsewhere(t, v, key, rest, q);
      } else {
        var p := d.path[|key|..];
        EditOne(t, v, p, d.leaf);
        EditableRest(t, v, key, leaves);
        PutElsewhere(t, p, LeafMarker(d.leaf), q);
        EditLeavesElsewhere(Put(t, p, LeafMarker(d.leaf)), v, key, rest, q);
      }
    }
  }

  /** Every declared leaf below the key leads to its marker. */
  lemma {:induction false} EditLeavesThere(t: Json, v: Json, key: Path, leaves: seq<Declared>, i: nat)
    requires Holds(t, v) && Editable(t, v, key, leaves) && i < |leaves| && Below(leaves[i].path, key)
    ensures EditLeaves(t, key, leaves).Some?
    ensures LeafAt(EditLeaves(t, key, leaves).value, leaves[i].path[|key|..]) == Some(LeafMarker(leaves[i].leaf))
    decreases |leaves|
  {
    hide Loose, Tidy, LeafAt, Put, SetLeaf, Filled, LeafOk, LeafMarker, Walkable, Diverge, Apart;
    var d, rest := leaves[0], leaves[1..];
    assert forall k :: 0 <= k < |rest| ==> rest[k] == leaves[k + 1];
    if !Below(d.path, key) {
      EditableSkip(t, v, key, leaves);
      EditLeavesThere(t, v, key, rest, i - 1);
    } else {
      var p, m := d.path[|key|..], LeafMarker(d.leaf);
      EditOne(t, v, p, d.leaf);
      EditableRest(t, v, key, leaves);
      if i == 0 {
        PutThere(t, p, m);
        RestClear(key, leaves) by { assert Apart(leaves); }
        EditLeavesElsewhere(Put(t, p, m), v, key, rest, p);
      } else {
        EditLeavesThere(Put(t, p, m), v, key, rest, i - 1);
      }
    }
  }

  lemma {:induction false} RestClear(key: Path, leaves: seq<Declared>)
    requires leaves != [] && Apart(leaves) && Below(leaves[0].path, key)
    ensures ClearOf(leaves[0].path[|key|..], key, leaves[1..])
  {
    hide Diverge;
    var rest := leaves[1..];
    forall i | 0 <= i < |rest| && Below(rest[i].path, key)
      ensures Diverge(rest[i].path[|key|..], leaves[0].path[|key|..])
    {
      assert rest[i] == leaves[i + 1];
      DivergeBelow(leaves[0].path, rest[i].path, key);
      DivergeBack(leaves[0].path[|key|..], rest[i].path[|key|..]);
    }
  }

  // ----- null leaves -----

  lemma {:induction false} FillNullsElsewhere(t: Json, v: Json, todo: set<Path>, key: Path, nullable: map<Path, string>, q: Path)
    requires Holds(t, v) && v.Obj? && NullableOk(nullable) && NullsAt(t, todo) && forall p :: p in todo ==> Diverge(p, q)
    ensures FillNulls(t, todo, key, nullable).Some? && LeafAt(FillNulls(t, todo, key, nullable).value, q) == LeafAt(t, q)
    decreases todo
  {
    hide Loose, Tidy, Put, SetLeaf, LeafAt, NullableMarker, Walkable, Diverge;
    if todo != {} {
      var p := Pick(todo);
      assert LeafAt(t, p) == Some(NULL_MARKER);
      if key + p !in nullable {
        FillNullsElsewhere(t, v, todo - {p}, key, nullable, q);
      } else {
        var m := NullableMarker(nullable[key + p]);
        FillOne(t, v, key, p, nullable[key + p]);
        NullsStay(t, v, p, m, todo);
        PutElsewhere(t, p, m, q);
        FillNullsElsewhere(Put(t, p, m), v, todo - {p}, key, nullable, q);
      }
    }
  }

  /** Every null leaf that is declared leads to the marker of its declared type or null; the others stay. */
  lemma {:induction false} FillNullsThere(t: Json, v: Json, todo: set<Path>, key: Path, nullable: map<Path, string>, q: Path)
    requires Holds(t, v) && v.Obj? && NullableOk(nullable) && NullsAt(t, todo) && q in todo
    ensures FillNulls(t, todo, key, nullable).Some?
    ensures LeafAt(FillNulls(t, todo, key, nullable).value, q)
         == Some(if key + q in nullable then NullableMarker(nullable[key + q]) else NULL_MARKER)
    decreases todo
  {
    hide Loose, Tidy, Put, SetLeaf, LeafAt, NullableMarker, Walkable, Diverge;
    var p := Pick(todo);
    assert LeafAt(t, p) == Some(NULL_MARKER) && LeafAt(t, q) == Some(NULL_MARKER);
    assert forall r :: r in todo - {q} ==> Diverge(r, q) by { OthersDiverge(t, todo, q) by { assert Holds(t, v); } }
    if key + p !in nullable {
      if p == q {
        FillNullsElsewhere(t, v, todo - {p}, key, nullable, q);
      } else {
        FillNullsThere(t, v, todo - {p}, key, nullable, q);
      }
    } else {
      var m := NullableMarker(nullable[key + p]);
      FillOne(t, v, key, p, nullable[key + p]);
      NullsStay(t, v, p, m, todo);
      if p == q {
        PutThere(t, p, m);
        FillNullsElsewhere(Put(t, p, m), v, todo - {p}, key, nullable, q);
      } else {
        FillNullsThere(Put(t, p, m), v, todo - {p}, key, nullable, q);
      }
    }
  }

  lemma {:induction false} OthersDiverge(t: Json, todo: set<Path>, q: Path)
    requires Tidy(t) && NullsAt(t, todo) && q in todo
    ensures forall r :: r in todo - {q} ==> Diverge(r, q)
  {
    hide LeafAt, Tidy, Diverge;
    forall r | r in todo - {q}
      ensures Diverge(r, q)
    {
      assert LeafAt(t, r) == Some(NULL_MARKER) && LeafAt(t, q) == Some(NULL_MARKER);
      EndingsDiverge(t, r, q);
    }
  }

  // ----- empty arrays -----

  lemma {:induction false} FlagAllElsewhere(t: Json, v: Json, todo: set<Path>, key: Path, mayBeEmpty: set<Path>, q: Path)
    requires Holds(t, v) && v.Obj? && AllWalkable(mayBeEmpty) && ArraysAt(t, todo) && forall p :: p in todo ==> Diverge(p, q)
    ensures FlagAll(t, todo, key, mayBeEmpty).Some? && LeafAt(FlagAll(t, todo, key, mayBeEmpty).value, q) == LeafAt(t, q)
    decreases todo
  {
    hide Loose, Tidy, Put, FlagEmpty, LeafAt, Flagged, Walkable, IsEmptyArray, Diverge;
    if todo != {} {
      var p := Pick(todo);
      assert LeafAt(t, p).Some? && IsEmptyArray(LeafAt(t, p).value);
      if key + p !in mayBeEmpty {
        FlagAllElsewhere(t, v, todo - {p}, key, mayBeEmpty, q);
      } else {
        var a := LeafAt(t, p).value;
        ArrayIsObj(a);
        FlagOne(t, v, key, p, a);
        ArraysStay(t, p, todo);
        PutElsewhere(t, p, Flagged(a), q);
        FlagAllElsewhere(Put(t, p, Flagged(a)), v, todo - {p}, key, mayBeEmpty, q);
      }
    }
  }

  /** Every empty array that is declared is flagged where it stands; the others stay. */
  lemma {:induction false} FlagAllThere(t: Json, v: Json, todo: set<Path>, key: Path, mayBeEmpty: set<Path>, q: Path)
    requires Holds(t, v) && v.Obj? && AllWalkable(mayBeEmpty) && ArraysAt(t, todo) && q in todo
    ensures LeafAt(t, q).Some? && LeafAt(t, q).value.Obj? && FlagAll(t, todo, key, mayBeEmpty).Some?
    ensures LeafAt(FlagAll(t, todo, key, mayBeEmpty).value, q)
         == Some(if key + q in mayBeEmpty then Flagged(LeafAt(t, q).value) else LeafAt(t, q).value)
    decreases todo
  {
    hide Loose, Tidy, Put, FlagEmpty, LeafAt, Flagged, Walkable, IsEmptyArray, Diverge;
    var p := Pick(todo);
    assert LeafAt(t, p).Some? && IsEmptyArray(LeafAt(t, p).value);
    assert LeafAt(t, q).Some? && IsEmptyArray(LeafAt(t, q).value);
    ArrayIsObj(LeafAt(t, q).value);
    assert forall r :: r in todo - {q} ==> Diverge(r, q) by { ArraysDiverge(t, todo, q) by { assert Holds(t, v); } }
    if key + p !in mayBeEmpty {
      if p == q {
        FlagAllElsewhere(t, v, todo - {p}, key, mayBeEmpty, q);
      } else {
        FlagAllThere(t, v, todo - {p}, key, mayBeEmpty, q);
      }
    } else {
      var a := LeafAt(t, p).value;
      ArrayIsObj(a);
      FlagOne(t, v, key, p, a);
      ArraysStay(t, p, todo);
      if p == q {
        PutThere(t, p, Flagged(a));
        FlagAllElsewhere(Put(t, p, Flagged(a)), v, todo - {p}, key, mayBeEmpty, q);
      } else {
        PutElsewhere(t, p, Flagged(a), q);
        FlagAllThere(Put(t, p, Flagged(a)), v, todo - {p}, key, mayBeEmpty, q);
      }
    }
  }

  lemma {:induction false} ArraysDiverge(t: Json, todo: set<Path>, q: Path)
    requires Tidy(t) && ArraysAt(t, todo) && q in todo
    ensures forall r :: r in todo - {q} ==> Diverge(r, q)
  {
    hide LeafAt, Tidy, Diverge, IsEmptyArray;
    forall r | r in todo - {q}
      ensures Diverge(r, q)
    {
      EndingsDiverge(t, r, q);
    }
  }

  // ----- plain marks -----

  /** What a mark made from `v` is for: the values `differences` must let pass at its key. */
  ghost predicate VolatileFits(v: Json, declared: Option<string>, mayBeEmpty: bool, typed: set<Path>, o: Json) {
    if v.Arr? then
      && o.Arr? && (o.items == [] ==> mayBeEmpty)
      && (v.items == [] || forall i :: 0 <= i < |o.items| ==> ShapedLike(v.items, typed, [], o.items[i]))
    else if declared.Some? && (v == Null || IsKind(v, declared.value)) then IsKind(o, declared.value) || IsKind(o, "null")
    else SameKind(v, o)
  }

  /** Exactly the values a plain mark accepts. */
  lemma {:induction false} VolatileIff(v: Json, declared: Option<string>, mayBeEmpty: bool, typed: set<Path>, o: Json)
    requires Unreserved(v) && (declared.Some? ==> declared.value in TYPE_NAMES)
    ensures Matches(VolatileValue(v, declared, mayBeEmpty, typed), o) <==> VolatileFits(v, declared, mayBeEmpty, typed, o)
  {
    hide Matches, ShapedLike, TemplateOf, NullableMarker, KindMarker, IsKind, SameKind;
    if v.Arr? {
      var inner := if v.items == [] then Null else TemplateOf(v.items, typed, []);
      ListMatches(inner, mayBeEmpty, o);
      if v.items != [] {
        TemplateNotNull(v.items, typed, []);
        assert AllUnreserved(v.items);
        if o.Arr? {
          forall i | 0 <= i < |o.items|
            ensures Matches(inner, o.items[i]) <==> ShapedLike(v.items, typed, [], o.items[i])
          {
            TemplateFits(v.items, typed, [], o.items[i]);
          }
        }
      }
    } else {
      if declared.Some? {
        TypeIsKind(v, declared.value);
        NullableMatches(declared.value, o);
      }
      KindMatches(ValueType(v), o);
      TypeIsKind(o, ValueType(v));
      SameKindIs(v, o);
    }
  }

  /** Exactly what `mark` lets pass at a key that is not shaped. */
  lemma {:induction false} MarkIff(f: Fields, key: Path, v: Json, o: Json)
    requires TableOk(f) && Unreserved(v) && !(key in f.shaped && v.Obj?)
    ensures Matches(Mark(f, key, v).template, o) <==>
      VolatileFits(v, if key in f.nullable then Some(f.nullable[key]) else None, key in f.mayBeEmpty, TypedUnder(f, key), o)
  {
    hide Matches, VolatileFits, VolatileValue, Walkable, Apart, LeafOk;
    VolatileIff(v, if key in f.nullable then Some(f.nullable[key]) else None, key in f.mayBeEmpty, TypedUnder(f, key), o);
  }

  // ----- shaped marks -----

  predicate IsPrefix(p: Path, q: Path) {
    |p| <= |q| && q[..|p|] == p
  }

  lemma {:induction false} DivergeOrPrefix(p: Path, q: Path)
    ensures Diverge(p, q) || IsPrefix(p, q) || IsPrefix(q, p)
    decreases |p|
  {
    if p != [] && q != [] {
      if p[0] == q[0] {
        DivergeOrPrefix(p[1..], q[1..]);
        if Diverge(p[1..], q[1..]) {
          DivergeCons(p, q);
        } else {
          assert p == [p[0]] + p[1..] && q == [q[0]] + q[1..];
          assert IsPrefix(p[1..], q[1..]) ==> q[..|p|] == [q[0]] + q[1..][..|p| - 1];
          assert IsPrefix(q[1..], p[1..]) ==> p[..|q|] == [p[0]] + p[1..][..|q| - 1];
        }
      } else {
        DivergeNow(p, q);
      }
    }
  }

  lemma {:induction false} LeafBelow(t: Json, p: Path, q: Path)
    requires IsPrefix(p, q) && LeafAt(t, p).Some?
    ensures LeafAt(t, q) == LeafAt(LeafAt(t, p).value, q[|p|..])
    decreases |p|
  {
    if p != [] {
      assert q[0] == q[..|p|][0] == p[0];
      assert q[1..][..|p| - 1] == q[..|p|][1..] == p[1..];
      assert q[1..][|p| - 1..] == q[|p|..];
      LeafBelow(t.fields[NameOf(p[0])], p[1..], q[1..]);
    }
  }

  /** Below a declared leaf there is nothing that a table can name. */
  lemma {:induction false} NothingBelow(leaf: Leaf, r: Path)
    requires LeafOk(leaf) && r != [] && LeafAt(LeafMarker(leaf), r).Some?
    ensures r[0] == Key(OR_NULL_KEY)
  {
  }

  lemma LeafMarkerIs(leaf: Leaf)
    requires LeafOk(leaf)
    ensures LeafMarker(leaf) != NULL_MARKER && LeafMarker(leaf) != Null && !LeafMarker(leaf).Bool?
    ensures !IsEmptyArray(LeafMarker(leaf))
  {
    if leaf.Enum? {
      var s := LeafMarker(leaf).s;
      assert s == ENUM_PREFIX + (JoinWith(leaf.values, '|') + ">");
      assert s[10] == ENUM_PREFIX[10] == 'e' && NULL_MARKER.s[10] == 'n';
    } else {
      KeysDiffer();
    }
  }

  /** What the edits find at a path that ends a template. */
  predicate Leafless(a: Json) {
    a == NULL_MARKER || IsEmptyArray(a)
  }

  /** A declared leaf and an ending that a table names part from one another. */
  lemma {:induction false} LeafParts(t: Json, leaf: Leaf, q: Path, p: Path, key: Path)
    requires Tidy(t) && LeafOk(leaf) && LeafAt(t, q) == Some(LeafMarker(leaf)) && Walkable(key + p)
    requires LeafAt(t, p).Some? && Leafless(LeafAt(t, p).value)
    ensures Diverge(p, q)
  {
    hide Diverge, LeafMarker, IsEmptyArray, Tidy, LeafOk, Walkable;
    LeafMarkerIs(leaf);
    DivergeOrPrefix(p, q);
    if IsPrefix(q, p) {
      LeafBelow(t, q, p);
      var r := p[|q|..];
      LeafNotLeafless(leaf);
      assert r != [];
      NothingBelow(leaf, r);
      NamedBelow(key, p, |q|);
    } else if IsPrefix(p, q) {
      LeafBelow(t, p, q);
      TidyAt(t, p);
      EndingLeads(LeafAt(t, p).value, q[|p|..]);
    }
  }

  lemma LeafNotLeafless(leaf: Leaf)
    requires LeafOk(leaf)
    ensures !Leafless(LeafMarker(leaf))
  {
    hide LeafMarker, IsEmptyArray, LeafOk;
    LeafMarkerIs(leaf);
  }

  lemma {:induction false} NamedBelow(key: Path, p: Path, n: nat)
    requires Walkable(key + p) && n < |p|
    ensures p[n] != Key(OR_NULL_KEY)
  {
    var w := key + p;
    assert w[|key| + n] == p[n];
  }

  /** An ending leads on to nothing but null and flags. */
  lemma {:induction false} EndingLeads(a: Json, r: Path)
    requires Tidy(a) && Leafless(a)
    ensures r != [] && LeafAt(a, r).Some? ==> LeafAt(a, r).value == Null || LeafAt(a, r).value.Bool?
  {
    if r != [] && a.Obj? && LeafAt(a, r).Some? {
      var b := a.fields[NameOf(r[0])];
      assert LeafAt(a, r) == LeafAt(b, r[1..]) && (b == Null || b.Bool?);
    }
  }

  /** The null leaves that are filled, and the arrays that are flagged, part from a declared leaf. */
  lemma {:induction false} LeafKept(t: Json, leaf: Leaf, q: Path, todo: set<Path>, key: Path, named: set<Path>)
    requires Tidy(t) && LeafOk(leaf) && LeafAt(t, q) == Some(LeafMarker(leaf)) && AllWalkable(named)
    requires forall p :: p in todo ==> key + p in named && LeafAt(t, p).Some? && Leafless(LeafAt(t, p).value)
    ensures forall p :: p in todo ==> Diverge(p, q)
  {
    hide Diverge, LeafAt, Tidy, LeafOk, LeafMarker, Walkable, Leafless;
    forall p | p in todo
      ensures Diverge(p, q)
    {
      LeafParts(t, leaf, q, p, key);
    }
  }

  /** The stages of a shaped mark that reports nothing: every null leaf and empty array was declared. */
  lemma {:induction false} Stages(f: Fields, key: Path, v: Json) returns (edited: Json, filled: Json)
    requires TableOk(f) && Describable(f, key, v) && key in f.shaped && v.Obj? && Mark(f, key, v).problems == {}
    ensures
      var t := TemplateOf([v], TypedUnder(f, key), []);
      && Holds(t, v) && Editable(t, v, key, f.Leaves()) && EditLeaves(t, key, f.Leaves()) == Some(edited)
    ensures Holds(edited, v) && FillNulls(edited, NullLeaves(edited), key, f.nullable) == Some(filled)
    ensures NullsAt(edited, NullLeaves(edited)) && forall p :: p in NullLeaves(edited) ==> key + p in f.nullable
    ensures Holds(filled, v) && FlagAll(filled, EmptyArrays(filled), key, f.mayBeEmpty) == Some(Mark(f, key, v).template)
    ensures ArraysAt(filled, EmptyArrays(filled)) && forall p :: p in EmptyArrays(filled) ==> key + p in f.mayBeEmpty
  {
    hide TemplateOf, Loose, Tidy, EditLeaves, FillNulls, FlagAll, LeafAt, NullLeaves, EmptyArrays, Describable, Editable,
         Matches, IsEmptyArray, Apart, Walkable, LeafOk;
    ShapeHolds(f, key, v);
    EditLeavesHold(TemplateOf([v], TypedUnder(f, key), []), v, key, f.Leaves());
    edited := EditLeaves(TemplateOf([v], TypedUnder(f, key), []), key, f.Leaves()).value;
    forall p | p in NullLeaves(edited)
      ensures LeafAt(edited, p) == Some(NULL_MARKER)
    {
      NullLeafAt(edited, p);
    }
    FillNullsHold(edited, v, NullLeaves(edited), key, f.nullable);
    filled := FillNulls(edited, NullLeaves(edited), key, f.nullable).value;
    EmptiesKnown(filled);
    FlagAllHold(filled, v, EmptyArrays(filled), key, f.mayBeEmpty);
    var problems := Mark(f, key, v).problems;
    assert forall p :: p in NullLeaves(edited) && key + p !in f.nullable ==> UndeclaredNull(key + p) in problems;
    assert forall p :: p in EmptyArrays(filled) && key + p !in f.mayBeEmpty ==> UndeclaredEmpty(key + p) in problems;
  }

  /** A shaped mark that reports nothing has, at every declared leaf, its marker. */
  lemma {:induction false} ShapedMarkAt(f: Fields, key: Path, v: Json, i: nat)
    requires TableOk(f) && Describable(f, key, v) && key in f.shaped && v.Obj? && Mark(f, key, v).problems == {}
    requires i < |f.Leaves()| && Below(f.Leaves()[i].path, key)
    ensures LeafAt(Mark(f, key, v).template, f.Leaves()[i].path[|key|..]) == Some(LeafMarker(f.Leaves()[i].leaf))
  {
    hide TemplateOf, Loose, Tidy, EditLeaves, FillNulls, FlagAll, LeafAt, NullLeaves, EmptyArrays, Describable, Editable,
         Matches, IsEmptyArray, Apart, Walkable, LeafOk, LeafMarker, Diverge, Mark;
    var edited, filled := Stages(f, key, v);
    var d := f.Leaves()[i];
    var q := d.path[|key|..];
    EditLeavesThere(TemplateOf([v], TypedUnder(f, key), []), v, key, f.Leaves(), i);
    LeafKept(edited, d.leaf, q, NullLeaves(edited), key, f.nullable.Keys);
    FillNullsElsewhere(edited, v, NullLeaves(edited), key, f.nullable, q);
    LeafKept(filled, d.leaf, q, EmptyArrays(filled), key, f.mayBeEmpty);
    FlagAllElsewhere(filled, v, EmptyArrays(filled), key, f.mayBeEmpty, q);
  }

  /** An ending parts from every other ending. */
  lemma {:induction false} EndingClear(t: Json, q: Path, todo: set<Path>)
    requires Tidy(t) && LeafAt(t, q).Some? && Ending(LeafAt(t, q).value) && q !in todo
    requires forall p :: p in todo ==> LeafAt(t, p).Some? && Ending(LeafAt(t, p).value)
    ensures forall p :: p in todo ==> Diverge(p, q)
  {
    hide Diverge, LeafAt, Tidy, Ending;
    forall p | p in todo
      ensures Diverge(p, q)
    {
      EndingsDiverge(t, p, q);
    }
  }

  lemma {:induction false} FilledEnding(edited: Json, v: Json, key: Path, nullable: map<Path, string>, q: Path)
    requires Holds(edited, v) && v.Obj? && NullableOk(nullable) && NullsAt(edited, NullLeaves(edited))
    requires forall p :: p in NullLeaves(edited) ==> key + p in nullable
    requires LeafAt(edited, q).Some? && Ending(LeafAt(edited, q).value)
    ensures LeafAt(edited, q).value == NULL_MARKER ==> key + q in nullable
    ensures FillNulls(edited, NullLeaves(edited), key, nullable).Some?
    ensures LeafAt(FillNulls(edited, NullLeaves(edited), key, nullable).value, q)
         == Some(if LeafAt(edited, q).value == NULL_MARKER then NullableMarker(nullable[key + q]) else LeafAt(edited, q).value)
  {
    hide Diverge, LeafAt, Tidy, Loose, NullLeaves, FillNulls, NullableMarker, Walkable, IsEmptyArray;
    NullLeafAt(edited, q);
    var todo := NullLeaves(edited);
    if q in todo {
      FillNullsThere(edited, v, todo, key, nullable, q);
    } else {
      EndingClear(edited, q, todo) by { assert Holds(edited, v); }
      FillNullsElsewhere(edited, v, todo, key, nullable, q);
    }
  }

  lemma {:induction false} FlaggedEnding(filled: Json, v: Json, key: Path, mayBeEmpty: set<Path>, q: Path)
    requires Holds(filled, v) && v.Obj? && AllWalkable(mayBeEmpty) && ArraysAt(filled, EmptyArrays(filled))
    requires forall p :: p in EmptyArrays(filled) ==> key + p in mayBeEmpty
    requires LeafAt(filled, q).Some? && Ending(LeafAt(filled, q).value)
    ensures FlagAll(filled, EmptyArrays(filled), key, mayBeEmpty).Some?
    ensures LeafAt(FlagAll(filled, EmptyArrays(filled), key, mayBeEmpty).value, q)
         == Some(if LeafAt(filled, q).value.Str? then LeafAt(filled, q).value else Flagged(LeafAt(filled, q).value))
  {
    hide Diverge, LeafAt, Tidy, Loose, EmptyArrays, FlagAll, Flagged, Walkable;
    var todo := EmptyArrays(filled);
    assert LeafAt(filled, q).value.Str? ==> q !in todo;
    if LeafAt(filled, q).value.Str? {
      EndingClear(filled, q, todo) by { assert Holds(filled, v); }
      FlagAllElsewhere(filled, v, todo, key, mayBeEmpty, q);
    } else {
      EmptyArrayListed(filled, q) by { assert Holds(filled, v); }
      FlagAllThere(filled, v, todo, key, mayBeEmpty, q);
    }
  }

  /**
    * And where the template of the value ends, away from the declared leaves: its type, the declared
    * type or null for null, a flag for an empty list.
    */
  lemma {:induction false} ShapedMarkEnds(f: Fields, key: Path, v: Json, q: Path)
    requires TableOk(f) && Describable(f, key, v) && key in f.shaped && v.Obj? && Mark(f, key, v).problems == {}
    requires ClearOf(q, key, f.Leaves())
    ensures
      var at := LeafAt(TemplateOf([v], TypedUnder(f, key), []), q);
      at.Some? && Ending(at.value) ==>
        && (at.value == NULL_MARKER ==> key + q in f.nullable)
        && LeafAt(Mark(f, key, v).template, q) == Some(
             if at.value == NULL_MARKER then NullableMarker(f.nullable[key + q])
             else if at.value.Str? then at.value else Flagged(at.value))
  {
    hide TemplateOf, Loose, Tidy, EditLeaves, FillNulls, FlagAll, LeafAt, NullLeaves, EmptyArrays, Describable, Editable,
         Matches, IsEmptyArray, Apart, Walkable, LeafOk, LeafMarker, Diverge, Mark, Flagged;
    var t := TemplateOf([v], TypedUnder(f, key), []);
    if LeafAt(t, q).Some? && Ending(LeafAt(t, q).value) {
      var edited, filled := Stages(f, key, v);
      EditLeavesElsewhere(t, v, key, f.Leaves(), q);
      FilledEnding(edited, v, key, f.nullable, q);
      FlaggedEnding(filled, v, key, f.mayBeEmpty, q);
    }
  }
}
