/** `volatile_value` and the `mark` closure: what is recorded for a declared value accepts that value. */
module GoldenVolatile {
  import opened Text
  import opened Json
  import opened Golden
  import opened GoldenKinds
  import opened GoldenTemplate
  import opened GoldenPaths
  import opened GoldenShape
  import opened GoldenMark

  ghost predicate NullableOk(nullable: map<Path, string>) {
    forall k :: k in nullable ==> Walkable(k) && nullable[k] in TYPE_NAMES
  }

  ghost predicate AllWalkable(paths: set<Path>) {
    forall k :: k in paths ==> Walkable(k)
  }

  ghost predicate AllWalkableIn(paths: seq<Path>) {
    forall i :: 0 <= i < |paths| ==> Walkable(paths[i])
  }

  // ----- filling the null leaves -----

  lemma {:induction false} NullableAccepts(kind: string, x: Json)
    requires kind in TYPE_NAMES && Loose(NULL_MARKER, x)
    ensures Loose(NullableMarker(kind), x)
  {
    NullMarkerIs();
    KindMatches("null", x);
    NullableMatches(kind, x);
    MatchesIsLoose(NullableMarker(kind), x);
  }

  lemma {:induction false} FillOne(t: Json, v: Json, key: Path, p: Path, kind: string)
    requires Holds(t, v) && v.Obj? && Walkable(key + p) && kind in TYPE_NAMES && LeafAt(t, p) == Some(NULL_MARKER)
    ensures SetLeaf(t, p, NullableMarker(kind)) == Some(Put(t, p, NullableMarker(kind)))
    ensures Holds(Put(t, p, NullableMarker(kind)), v)
  {
    hide Loose, Put, SetLeaf, LeafAt, Matches, NullableMarker;
    var m := NullableMarker(kind);
    RelativeWalkable(t, v, key, p);
    SetLeafPuts(t, p, m);
    LooseReaches(t, v, p, NULL_MARKER);
    forall x | Loose(NULL_MARKER, x)
      ensures Loose(m, x)
    {
      NullableAccepts(kind, x);
    }
    AllAtWeaker(v, p, NULL_MARKER, m);
    MarkerTidy(kind);
    EditHolds(t, v, p, m);
  }

  lemma MarkerTidy(kind: string)
    ensures Tidy(NullableMarker(kind))
  {
  }

  ghost predicate NullsAt(t: Json, todo: set<Path>) {
    forall p :: p in todo ==> LeafAt(t, p) == Some(NULL_MARKER)
  }

  lemma {:induction false} NullsStay(t: Json, v: Json, p: Path, m: Json, todo: set<Path>)
    requires Tidy(t) && NullsAt(t, todo) && p in todo
    ensures LeafAt(t, p).Some? && NullsAt(Put(t, p, m), todo - {p})
  {
    hide LeafAt, Put, Tidy, Diverge;
    assert LeafAt(t, p) == Some(NULL_MARKER);
    forall q | q in todo - {p}
      ensures LeafAt(Put(t, p, m), q) == Some(NULL_MARKER)
    {
      assert LeafAt(t, q) == Some(NULL_MARKER);
      EndingsDiverge(t, p, q);
      PutElsewhere(t, p, m, q);
    }
  }

  lemma {:induction false} FillNullsHold(t: Json, v: Json, todo: set<Path>, key: Path, nullable: map<Path, string>)
    requires Holds(t, v) && v.Obj? && NullableOk(nullable) && NullsAt(t, todo)
    ensures FillNulls(t, todo, key, nullable).Some? && Holds(FillNulls(t, todo, key, nullable).value, v)
    decreases todo
  {
    hide Loose, Tidy, Put, SetLeaf, LeafAt, NullableMarker, Walkable;
    if todo != {} {
      var p := Pick(todo);
      assert LeafAt(t, p) == Some(NULL_MARKER);
      if key + p !in nullable {
        FillNullsHold(t, v, todo - {p}, key, nullable);
      } else {
        var kind := nullable[key + p];
        FillOne(t, v, key, p, kind);
        NullsStay(t, v, p, NullableMarker(kind), todo);
        FillNullsHold(Put(t, p, NullableMarker(kind)), v, todo - {p}, key, nullable);
      }
    }
  }

  // ----- flagging the empty arrays -----

  lemma {:induction false} TidyAt(t: Json, p: Path)
    requires Tidy(t) && LeafAt(t, p).Some?
    ensures Tidy(LeafAt(t, p).value)
    decreases |p|
  {
    if p != [] {
      TidyAt(t.fields[NameOf(p[0])], p[1..]);
    }
  }

  lemma FlaggedTidy(a: Json)
    requires Tidy(a) && IsEmptyArray(a)
    ensures Tidy(Flagged(a)) && !Unflagged(Flagged(a)) && IsEmptyArray(Flagged(a))
  {
  }

  lemma FlaggedAccepts(a: Json, x: Json)
    requires Tidy(a) && IsEmptyArray(a) && Loose(a, x)
    ensures Loose(Flagged(a), x)
  {
  }

  lemma {:induction false} FlagOne(t: Json, v: Json, key: Path, p: Path, a: Json)
    requires Holds(t, v) && v.Obj? && Walkable(key + p) && LeafAt(t, p) == Some(a) && IsEmptyArray(a)
    ensures FlagEmpty(t, p) == Some(Put(t, p, Flagged(a)))
    ensures Holds(Put(t, p, Flagged(a)), v)
  {
    hide Loose, Put, FlagEmpty, LeafAt, Matches, Flagged, Tidy;
    var m := Flagged(a);
    RelativeWalkable(t, v, key, p);
    FlagEmptyPuts(t, p);
    LooseReaches(t, v, p, a);
    TidyAt(t, p);
    forall x | Loose(a, x)
      ensures Loose(m, x)
    {
      FlaggedAccepts(a, x);
    }
    AllAtWeaker(v, p, a, m);
    FlaggedTidy(a);
    EditHolds(t, v, p, m);
  }

  /** Flagging one array makes no other array unflagged. */
  lemma {:induction false} FlagsOnly(t: Json, p: Path, m: Json, q: Path)
    requires Tidy(t) && LeafAt(t, p).Some? && IsEmptyArray(LeafAt(t, p).value)
    requires Tidy(m) && IsEmptyArray(m) && !Unflagged(m)
    requires LeafAt(Put(t, p, m), q).Some? && Unflagged(LeafAt(Put(t, p, m), q).value)
    ensures q != p && LeafAt(t, q).Some? && Unflagged(LeafAt(t, q).value)
    decreases |p|
  {
    if p == [] {
      if q != [] {
        NoneBelow(m, q);
      }
    } else if q != [] && p[0] == q[0] {
      FlagsOnly(t.fields[NameOf(p[0])], p[1..], m, q[1..]);
    }
  }

  ghost predicate ArraysAt(t: Json, todo: set<Path>) {
    forall p :: p in todo ==> LeafAt(t, p).Some? && IsEmptyArray(LeafAt(t, p).value)
  }

  /** Only the arrays still to be flagged are not. */
  ghost predicate FlaggedBut(t: Json, todo: set<Path>) {
    forall q :: LeafAt(t, q).Some? && Unflagged(LeafAt(t, q).value) ==> q in todo
  }

  lemma {:induction false} ArraysStay(t: Json, p: Path, todo: set<Path>)
    requires Tidy(t) && ArraysAt(t, todo) && p in todo
    ensures LeafAt(t, p).Some? && IsEmptyArray(LeafAt(t, p).value)
    ensures ArraysAt(Put(t, p, Flagged(LeafAt(t, p).value)), todo - {p})
    ensures FlaggedBut(t, todo) ==> FlaggedBut(Put(t, p, Flagged(LeafAt(t, p).value)), todo - {p})
  {
    hide LeafAt, Put, Tidy, Diverge, IsEmptyArray, Unflagged, Flagged;
    assert LeafAt(t, p).Some? && IsEmptyArray(LeafAt(t, p).value);
    assert LeafAt(t, p).value.Obj? by { ArrayIsObj(LeafAt(t, p).value); }
    var m := Flagged(LeafAt(t, p).value);
    forall q | q in todo - {p}
      ensures LeafAt(Put(t, p, m), q) == LeafAt(t, q)
    {
      EndingsDiverge(t, p, q);
      PutElsewhere(t, p, m, q);
    }
    if FlaggedBut(t, todo) {
      TidyAt(t, p);
      FlaggedTidy(LeafAt(t, p).value);
      forall q | LeafAt(Put(t, p, m), q).Some? && Unflagged(LeafAt(Put(t, p, m), q).value)
        ensures q in todo - {p}
      {
        FlagsOnly(t, p, m, q);
      }
    }
  }

  lemma ArrayIsObj(a: Json)
    requires IsEmptyArray(a)
    ensures a.Obj?
  {
  }

  lemma {:induction false} FlagAllHold(t: Json, v: Json, todo: set<Path>, key: Path, mayBeEmpty: set<Path>)
    requires Holds(t, v) && v.Obj? && AllWalkable(mayBeEmpty) && ArraysAt(t, todo)
    ensures FlagAll(t, todo, key, mayBeEmpty).Some? && Holds(FlagAll(t, todo, key, mayBeEmpty).value, v)
    ensures FlaggedBut(t, todo) && (forall p :: p in todo ==> key + p in mayBeEmpty) ==>
      AllFlagged(FlagAll(t, todo, key, mayBeEmpty).value)
    decreases todo
  {
    hide Loose, Tidy, Put, FlagEmpty, LeafAt, Flagged, Walkable, IsEmptyArray, Unflagged, FlaggedBut, AllFlagged;
    if todo == {} {
      if FlaggedBut(t, todo) {
        NothingLeft(t);
      }
    } else {
      var p := Pick(todo);
      assert LeafAt(t, p).Some? && IsEmptyArray(LeafAt(t, p).value);
      if key + p !in mayBeEmpty {
        FlagAllHold(t, v, todo - {p}, key, mayBeEmpty);
      } else {
        var a := LeafAt(t, p).value;
        ArrayIsObj(a);
        FlagOne(t, v, key, p, a);
        ArraysStay(t, p, todo);
        FlagAllHold(Put(t, p, Flagged(a)), v, todo - {p}, key, mayBeEmpty);
      }
    }
  }

  lemma NothingLeft(t: Json)
    requires FlaggedBut(t, {})
    ensures AllFlagged(t)
  {
  }

  // ----- the mark -----

  /** What the recorder reports; `Raised` stands for an exception. */
  datatype Problem = EmptyVolatile(key: Path) | UndeclaredNull(path: Path) | UndeclaredEmpty(path: Path) | Raised

  datatype Marking = Marking(template: Json, problems: set<Problem>)

  /** The typed paths below the rows of `key`, relative to a row. */
  function TypedUnder(f: Fields, key: Path): set<Path> {
    set p | p in f.typed && Below(p, key + [Each]) :: p[|key| + 1..]
  }

  /** `volatile_value`. */
  function VolatileValue(v: Json, declared: Option<string>, mayBeEmpty: bool, typed: set<Path>): Json {
    if v.Arr? then
      var template := if v.items == [] then Null else TemplateOf(v.items, typed, []);
      Obj(if mayBeEmpty then map[ARRAY_KEY := template, EMPTY_KEY := Bool(true)] else map[ARRAY_KEY := template])
    else if declared.Some? && (v == Null || ValueType(v) == declared.value) then NullableMarker(declared.value)
    else KindMarker(ValueType(v))
  }

  /** The branch of `mark` for a shaped object. */
  ghost function MarkShaped(f: Fields, key: Path, v: Json): Marking {
    match EditLeaves(TemplateOf([v], TypedUnder(f, key), []), key, f.Leaves())
    case None => Marking(v, {Raised})
    case Some(edited) =>
      var nulls := set p | p in NullLeaves(edited) && key + p !in f.nullable :: UndeclaredNull(key + p);
      match FillNulls(edited, NullLeaves(edited), key, f.nullable)
      case None => Marking(v, nulls + {Raised})
      case Some(filled) =>
        var empties := set p | p in EmptyArrays(filled) && key + p !in f.mayBeEmpty :: UndeclaredEmpty(key + p);
        match FlagAll(filled, EmptyArrays(filled), key, f.mayBeEmpty)
        case None => Marking(v, nulls + empties + {Raised})
        case Some(flagged) => Marking(flagged, nulls + empties)
  }

  /** `mark(value)` for a key of the route. */
  ghost function Mark(f: Fields, key: Path, v: Json): Marking {
    if key in f.shaped && v.Obj? then MarkShaped(f, key, v)
    else
      Marking(
        VolatileValue(v, if key in f.nullable then Some(f.nullable[key]) else None, key in f.mayBeEmpty, TypedUnder(f, key)),
        if v == Arr([]) && key !in f.mayBeEmpty then {EmptyVolatile(key)} else {})
  }

  /** Declarations whose texts the markers and paths can carry. */
  ghost predicate TableOk(f: Fields) {
    && NullableOk(f.nullable) && AllWalkable(f.mayBeEmpty)
    && AllWalkableIn(f.keys) && AllWalkableIn(f.placeholders) && AllWalkableIn(f.generated)
    && (forall i :: 0 <= i < |f.Leaves()| ==> Walkable(f.Leaves()[i].path) && LeafOk(f.Leaves()[i].leaf))
    && Apart(f.Leaves())
  }

  /** The value is one the declarations of its key can describe. */
  ghost predicate Describable(f: Fields, key: Path, v: Json) {
    && Unreserved(v)
    && (if key in f.shaped && v.Obj? then
          && SoundShape(v, TypedUnder(f, key), [])
          && forall i :: 0 <= i < |f.Leaves()| && Below(f.Leaves()[i].path, key) ==>
               var p := f.Leaves()[i].path[|key|..];
               Filled(v, p, f.Leaves()[i].leaf) && Uncut(TypedUnder(f, key), [], p)
        else v.Arr? && v.items != [] ==> Uniform(v.items, TypedUnder(f, key), []))
  }

  lemma {:induction false} VolatileAccepts(f: Fields, key: Path, v: Json)
    requires TableOk(f) && Describable(f, key, v) && !(key in f.shaped && v.Obj?)
    requires Mark(f, key, v).problems == {}
    ensures Matches(Mark(f, key, v).template, v)
  {
    hide Uniform, TemplateOf, NullableMarker, KindMarker, IsMarkerText, IsKind;
    var t := Mark(f, key, v).template;
    if v.Arr? {
      if v.items != [] {
        TemplateAccepts(v.items, TypedUnder(f, key), []);
        TemplateNotNull(v.items, TypedUnder(f, key), []);
      }
    } else {
      if key in f.nullable {
        NullableMatches(f.nullable[key], v);
        TypeIsKind(v, f.nullable[key]);
        assert v == Null ==> IsKind(v, "null") by { NullIsNull(); }
      }
      KindMatches(ValueType(v), v);
      TypeIsKind(v, ValueType(v));
    }
  }

  lemma NullIsNull()
    ensures IsKind(Null, "null")
  {
  }

  /** The template of a shaped value before any edit. */
  lemma {:induction false} ShapeHolds(f: Fields, key: Path, v: Json)
    requires TableOk(f) && Describable(f, key, v) && key in f.shaped && v.Obj?
    ensures
      var t := TemplateOf([v], TypedUnder(f, key), []);
      Holds(t, v) && Editable(t, v, key, f.Leaves())
  {
    hide TemplateOf, Loose, Tidy, SoundShape, Filled, LeafAt, Uncut, Apart, LeafOk;
    var typed, leaves := TypedUnder(f, key), f.Leaves();
    var t := TemplateOf([v], typed, []);
    SingleLoose(v, typed, []);
    TemplateTidy([v], typed, []);
    forall i | 0 <= i < |leaves| && Below(leaves[i].path, key)
      ensures Walkable(leaves[i].path[|key|..]) && Solid(LeafAt(t, leaves[i].path[|key|..]))
    {
      var p := leaves[i].path[|key|..];
      WalkableSuffix(leaves[i].path, |key|);
      assert AllFilled([v], p, leaves[i].leaf);
      TemplateReaches([v], typed, [], p, leaves[i].leaf);
    }
  }

  /** The editing of a shaped value never raises, and without a report its template accepts the value. */
  lemma {:induction false} ShapedAccepts(f: Fields, key: Path, v: Json)
    requires TableOk(f) && Describable(f, key, v) && key in f.shaped && v.Obj?
    ensures Raised !in MarkShaped(f, key, v).problems
    ensures MarkShaped(f, key, v).problems == {} ==> Matches(MarkShaped(f, key, v).template, v)
  {
    hide TemplateOf, Loose, Tidy, EditLeaves, FillNulls, FlagAll, LeafAt, NullLeaves, EmptyArrays, Describable, Editable,
         Matches, AllFlagged, IsEmptyArray, Unflagged, Apart;
    ShapeHolds(f, key, v);
    EditLeavesHold(TemplateOf([v], TypedUnder(f, key), []), v, key, f.Leaves());
    var edited := EditLeaves(TemplateOf([v], TypedUnder(f, key), []), key, f.Leaves()).value;
    var nulls := NullLeaves(edited);
    forall p | p in nulls
      ensures LeafAt(edited, p) == Some(NULL_MARKER)
    {
      NullLeafAt(edited, p);
    }
    FillNullsHold(edited, v, nulls, key, f.nullable);
    var filled := FillNulls(edited, nulls, key, f.nullable).value;
    EmptiesKnown(filled);
    FlagAllHold(filled, v, EmptyArrays(filled), key, f.mayBeEmpty);
    var marking := MarkShaped(f, key, v);
    if marking.problems == {} {
      forall p | p in EmptyArrays(filled)
        ensures key + p in f.mayBeEmpty
      {
        assert key + p !in f.mayBeEmpty ==> UndeclaredEmpty(key + p) in marking.problems;
      }
      FlaggedIsStrict(marking.template, v);
    }
  }

  lemma {:induction false} EmptiesKnown(t: Json)
    requires Tidy(t)
    ensures ArraysAt(t, EmptyArrays(t)) && FlaggedBut(t, EmptyArrays(t))
  {
    hide Tidy, LeafAt, EmptyArrays;
    forall p | p in EmptyArrays(t)
      ensures LeafAt(t, p).Some? && IsEmptyArray(LeafAt(t, p).value)
    {
      EmptyArrayAt(t, p);
    }
    forall q | LeafAt(t, q).Some? && Unflagged(LeafAt(t, q).value)
      ensures q in EmptyArrays(t)
    {
      EmptyArrayListed(t, q);
    }
  }

  /** Whatever is marked without a report accepts the value it was made from. */
  lemma {:induction false} MarkAccepts(f: Fields, key: Path, v: Json)
    requires TableOk(f) && Describable(f, key, v)
    ensures Raised !in Mark(f, key, v).problems
    ensures Mark(f, key, v).problems == {} ==> Matches(Mark(f, key, v).template, v)
  {
    hide Matches, MarkShaped, Describable, TableOk, VolatileValue;
    if key in f.shaped && v.Obj? {
      ShapedAccepts(f, key, v);
    } else if Mark(f, key, v).problems == {} {
      VolatileAccepts(f, key, v);
    }
  }
}
