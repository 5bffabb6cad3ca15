/** Exactly which values the template of a list of values accepts, and exactly which a mark accepts. */
module GoldenFits {
  import opened Json
  import opened Golden
  import opened GoldenKinds
  import opened GoldenTemplate

  /** Some value of the list is of the type of `v`. */
  ghost predicate KindAmong(values: seq<Json>, v: Json) {
    exists i :: 0 <= i < |values| && SameKind(values[i], v)
  }

  /**
    * The value has the shape of the listed ones: of a type among theirs at typed paths and where they
    * are no objects or lists alike, the fields of the first object, and rows with the shape of all rows.
    */
  ghost predicate ShapedLike(values: seq<Json>, typed: set<Path>, path: Path, v: Json)
    decreases ListHeight(values)
  {
    if path in typed || values == [] || (!AllObj(values) && !AllArr(values)) then KindAmong(values, v)
    else if AllObj(values) then
      && v.Obj? && v.fields.Keys == values[0].fields.Keys
      && forall k :: k in v.fields ==>
           (ColumnLower(values, k); ShapedLike(Column(values, k), typed, path + [Key(k)], v.fields[k]))
    else
      && v.Arr? && v.items != []
      && (Flat(values) == [] ||
          forall i :: 0 <= i < |v.items| ==> (FlatLower(values); ShapedLike(Flat(values), typed, path + [Each], v.items[i])))
  }

  lemma {:induction false} UnionAccepts(values: seq<Json>, v: Json)
    ensures Matches(UnionMarker(TypesOf(values)), v) <==> KindAmong(values, v)
  {
    hide Matches, UnionMarker, SameKind;
    UnionTypes(TypesOf(values), v);
    forall i | 0 <= i < |values|
      ensures SameKind(values[i], v) <==> ValueType(values[i]) == ValueType(v)
    {
      SameKindIs(values[i], v);
    }
  }

  lemma {:induction false} TemplateFits(values: seq<Json>, typed: set<Path>, path: Path, v: Json)
    requires AllUnreserved(values)
    ensures Matches(TemplateOf(values, typed, path), v) <==> ShapedLike(values, typed, path, v)
    decreases ListHeight(values), 1
  {
    hide Matches, UnionMarker, KindAmong, AllUnreserved;
    if path in typed || values == [] || (!AllObj(values) && !AllArr(values)) {
      UnionAccepts(values, v);
    } else if AllObj(values) {
      ObjFits(values, typed, path, v);
    } else {
      ArrFits(values, typed, path, v);
    }
  }

  lemma {:induction false} ObjFits(values: seq<Json>, typed: set<Path>, path: Path, v: Json)
    requires AllUnreserved(values) && values != [] && AllObj(values) && path !in typed
    ensures Matches(TemplateOf(values, typed, path), v) <==> ShapedLike(values, typed, path, v)
    decreases ListHeight(values), 0
  {
    hide Matches, UnionMarker, Unreserved, Column;
    var first, t := values[0].fields, TemplateOf(values, typed, path);
    ReservedAbsent(values[0]);
    assert t.Obj? && t.fields.Keys == first.Keys;
    FieldsMatch(t, v);
    if v.Obj? && v.fields.Keys == first.Keys {
      forall k | k in first
        ensures Matches(t.fields[k], v.fields[k]) <==> ShapedLike(Column(values, k), typed, path + [Key(k)], v.fields[k])
      {
        ColumnLower(values, k);
        ColumnUnreserved(values, k);
        TemplateFits(Column(values, k), typed, path + [Key(k)], v.fields[k]);
      }
    }
  }

  lemma FieldsMatch(t: Json, v: Json)
    requires t.Obj? && ARRAY_KEY !in t.fields && OR_NULL_KEY !in t.fields
    ensures Matches(t, v) <==>
      v.Obj? && t.fields.Keys == v.fields.Keys && forall k :: k in t.fields && k in v.fields ==> Matches(t.fields[k], v.fields[k])
  {
  }

  lemma {:induction false} ArrFits(values: seq<Json>, typed: set<Path>, path: Path, v: Json)
    requires AllUnreserved(values) && values != [] && AllArr(values) && !AllObj(values) && path !in typed
    ensures Matches(TemplateOf(values, typed, path), v) <==> ShapedLike(values, typed, path, v)
    decreases ListHeight(values), 0
  {
    hide Matches, UnionMarker, Unreserved, TemplateOf;
    var flat := Flat(values);
    ArrUnfold(values, typed, path);
    FlatUnreserved(values);
    var inner := if flat == [] then Null else TemplateOf(flat, typed, path + [Each]);
    if flat != [] {
      TemplateNotNull(flat, typed, path + [Each]);
      if v.Arr? {
        forall i | 0 <= i < |v.items|
          ensures Matches(inner, v.items[i]) <==> ShapedLike(flat, typed, path + [Each], v.items[i])
        {
          TemplateFits(flat, typed, path + [Each], v.items[i]);
        }
      }
    }
    ListMatches(inner, false, v);
  }

  /** What a list template accepts. */
  lemma ListMatches(inner: Json, mayBeEmpty: bool, v: Json)
    ensures
      var t := Obj(if mayBeEmpty then map[ARRAY_KEY := inner, EMPTY_KEY := Bool(true)] else map[ARRAY_KEY := inner]);
      Matches(t, v) <==>
        && v.Arr? && (v.items == [] ==> mayBeEmpty)
        && (inner == Null || forall i :: 0 <= i < |v.items| ==> Matches(inner, v.items[i]))
  {
    assert OR_NULL_KEY != ARRAY_KEY && EMPTY_KEY != ARRAY_KEY && EMPTY_KEY != OR_NULL_KEY by { KeysDiffer(); }
  }

  lemma KeysDiffer()
    ensures OR_NULL_KEY != ARRAY_KEY && EMPTY_KEY != ARRAY_KEY && EMPTY_KEY != OR_NULL_KEY
  {
    assert OR_NULL_KEY[10] == 'o' && ARRAY_KEY[10] == 'a' && EMPTY_KEY[10] == 'm';
  }
}
