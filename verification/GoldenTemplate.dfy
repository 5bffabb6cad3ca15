/** What a shape template accepts, and when comparing means equality. */
module GoldenTemplate {
  import opened Text
  import opened Json
  import opened Splitting
  import opened Golden
  import opened GoldenKinds

  // ----- union markers -----

  lemma {:induction false} ChosenHolds(names: seq<string>, types: set<string>, x: string)
    ensures x in Chosen(names, types) <==> x in names && x in types && x != "null"
    decreases |names|
  {
    if names != [] {
      ChosenHolds(names[1..], types, x);
    }
  }

  lemma {:induction false} UnionHolds(types: set<string>, x: string)
    requires x in TYPE_NAMES
    ensures x in UnionNames(types) <==> x in types
  {
    ChosenHolds(TYPE_NAMES, types, x);
  }

  /** Names that a marker can list: no bar, and not the start of an enum marker. */
  predicate MarkerName(name: string) {
    name != "" && name[0] != 'e' && '|' !in name
  }

  lemma TypeIsMarkerName(x: string)
    requires x in TYPE_NAMES
    ensures MarkerName(x)
  {
  }

  lemma {:induction false} UnionNamesShape(types: set<string>, i: nat)
    requires i < |UnionNames(types)|
    ensures MarkerName(UnionNames(types)[i])
  {
    var x := UnionNames(types)[i];
    if i < |Chosen(TYPE_NAMES, types)| {
      assert x in Chosen(TYPE_NAMES, types);
      ChosenHolds(TYPE_NAMES, types, x);
      TypeIsMarkerName(x);
    }
  }

  /** A marker is read back as the names it was written with. */
  lemma {:induction false} MarkerReads(names: seq<string>)
    requires names != [] && forall i :: 0 <= i < |names| ==> MarkerName(names[i])
    ensures IsMarkerText(MarkerText(names)) && !StartsWith(MarkerText(names), ENUM_PREFIX)
    ensures MarkerTypes(MarkerText(names)) == names
  {
    var s, joined := MarkerText(names), JoinWith(names, '|');
    SplitJoined(names, '|');
    assert s == VOLATILE + (joined + ">");
    assert s[|VOLATILE|..|s| - 1] == joined;
    assert s[|s| - 1..] == ">";
    assert joined != "" && joined[0] == names[0][0];
    assert s[|VOLATILE|] == joined[0];
    assert ENUM_PREFIX[|VOLATILE|] == 'e';
  }

  lemma {:induction false} NothingMatches(v: Json)
    ensures !Matches(Str(MarkerText([])), v)
  {
    var s := MarkerText([]);
    assert s == "<VOLATILE:>" && |s| < |ENUM_PREFIX| && s[|VOLATILE|..|s| - 1] == "";
    assert MarkerTypes(s) == SplitOn("", '|') == [""];
    TypeIsMarkerName(ValueType(v));
  }

  /** A union marker accepts exactly the values of its types. */
  lemma {:induction false} UnionMatches(types: set<string>, v: Json)
    ensures Matches(UnionMarker(types), v) <==> exists name :: name in types && IsKind(v, name)
  {
    hide Matches, IsKind;
    UnionTypes(types, v);
    TypeIsKind(v, ValueType(v));
    if name :| name in types && IsKind(v, name) {
      TypeIsKind(v, name);
    }
  }

  lemma {:induction false} UnionTypes(types: set<string>, v: Json)
    ensures Matches(UnionMarker(types), v) <==> ValueType(v) in types
  {
    var names := UnionNames(types);
    UnionHolds(types, ValueType(v));
    if names == [] {
      NothingMatches(v);
    } else {
      forall i | 0 <= i < |names|
        ensures MarkerName(names[i])
      {
        UnionNamesShape(types, i);
      }
      MarkerReads(names);
    }
  }

  // ----- reserved names -----

  /** No object anywhere in the value uses one of the two names the comparer interprets. */
  predicate Unreserved(v: Json)
    decreases v
  {
    match v
    case Arr(items) => forall i :: 0 <= i < |items| ==> Unreserved(items[i])
    case Obj(fields) =>
      && ARRAY_KEY !in fields && OR_NULL_KEY !in fields
      && forall k :: k in fields ==> Unreserved(fields[k])
    case _ => true
  }

  /** Nothing in the value is read as a marker. */
  predicate MarkerFree(v: Json)
    decreases v
  {
    match v
    case Str(s) => !IsMarkerText(s)
    case Arr(items) => forall i :: 0 <= i < |items| ==> MarkerFree(items[i])
    case Obj(fields) =>
      && ARRAY_KEY !in fields && OR_NULL_KEY !in fields
      && forall k :: k in fields ==> MarkerFree(fields[k])
    case _ => true
  }

  /** Without markers, `differences` is empty exactly for equal values. */
  lemma {:induction false} MatchesIsEquality(expected: Json, actual: Json)
    requires MarkerFree(expected)
    ensures Matches(expected, actual) <==> expected == actual
    decreases expected
  {
    match expected
    case Arr(items) =>
      if actual.Arr? && |items| == |actual.items| {
        forall i | 0 <= i < |items|
          ensures Matches(items[i], actual.items[i]) <==> items[i] == actual.items[i]
        {
          MatchesIsEquality(items[i], actual.items[i]);
        }
        assert (forall i :: 0 <= i < |items| ==> items[i] == actual.items[i]) <==> items == actual.items;
      }
    case Obj(fields) =>
      if actual.Obj? && fields.Keys == actual.fields.Keys {
        forall k | k in fields
          ensures Matches(fields[k], actual.fields[k]) <==> fields[k] == actual.fields[k]
        {
          MatchesIsEquality(fields[k], actual.fields[k]);
        }
        assert (forall k :: k in fields ==> fields[k] == actual.fields[k]) <==> fields == actual.fields;
      }
    case _ =>
  }

  // ----- the template of a list of values -----

  /** Rows share their keys and no array is empty, down to the typed paths. */
  ghost predicate Uniform(values: seq<Json>, typed: set<Path>, path: Path)
    decreases ListHeight(values)
  {
    if path in typed || values == [] then true
    else if AllObj(values) then
      && (forall i :: 0 <= i < |values| ==> values[i].fields.Keys == values[0].fields.Keys)
      && (forall key :: key in values[0].fields ==>
            (ColumnLower(values, key); Uniform(Column(values, key), typed, path + [Key(key)])))
    else if AllArr(values) then
      && (forall i :: 0 <= i < |values| ==> values[i].items != [])
      && (FlatLower(values); Uniform(Flat(values), typed, path + [Each]))
    else true
  }

  ghost predicate AllMatch(template: Json, values: seq<Json>) {
    forall i :: 0 <= i < |values| ==> Matches(template, values[i])
  }

  predicate AllUnreserved(values: seq<Json>) {
    forall i :: 0 <= i < |values| ==> Unreserved(values[i])
  }

  lemma {:induction false} MarkerMatchesAll(values: seq<Json>)
    ensures AllMatch(UnionMarker(TypesOf(values)), values)
  {
    forall i | 0 <= i < |values|
      ensures Matches(UnionMarker(TypesOf(values)), values[i])
    {
      UnionTypes(TypesOf(values), values[i]);
    }
  }

  /** The column of rows that all have the key. */
  lemma {:induction false} ColumnFull(values: seq<Json>, key: string)
    requires AllObj(values) && forall i :: 0 <= i < |values| ==> key in values[i].fields
    ensures |Column(values, key)| == |values|
    ensures forall i :: 0 <= i < |values| ==> Column(values, key)[i] == values[i].fields[key]
    decreases |values|
  {
    if values != [] {
      ColumnFull(values[1..], key);
    }
  }

  lemma {:induction false} ColumnUnreserved(values: seq<Json>, key: string)
    requires AllObj(values) && AllUnreserved(values)
    ensures AllUnreserved(Column(values, key))
    decreases |values|
  {
    if values != [] {
      assert AllUnreserved(values[1..]);
      ColumnUnreserved(values[1..], key);
    }
  }

  lemma {:induction false} FlatUnreserved(values: seq<Json>)
    requires AllArr(values) && AllUnreserved(values)
    ensures AllUnreserved(Flat(values))
    decreases |values|
  {
    if values != [] {
      assert AllUnreserved(values[1..]);
      FlatUnreserved(values[1..]);
    }
  }

  /** What holds of every flattened item holds of every item of every row, and the other way round. */
  lemma {:induction false} FlatMatches(template: Json, values: seq<Json>)
    requires AllArr(values)
    ensures AllMatch(template, Flat(values)) <==>
      forall i :: 0 <= i < |values| ==> AllMatch(template, values[i].items)
    decreases |values|
  {
    hide Matches;
    if values != [] {
      var rest := values[1..];
      FlatMatches(template, rest);
      var flat, head := Flat(values), values[0].items;
      assert AllMatch(template, flat) <==> AllMatch(template, head) && AllMatch(template, Flat(rest)) by {
        assert forall i :: 0 <= i < |head| ==> flat[i] == head[i];
        assert forall i :: 0 <= i < |Flat(rest)| ==> flat[|head| + i] == Flat(rest)[i];
      }
      assert forall i :: 0 <= i < |rest| ==> rest[i] == values[i + 1];
      assert forall i :: 0 < i < |values| ==> values[i] == rest[i - 1];
    }
  }

  /**
    * The template of a list of values accepts every one of them exactly when rows share their
    * keys and no array is empty.
    */
  lemma {:induction false} TemplateAccepts(values: seq<Json>, typed: set<Path>, path: Path)
    requires AllUnreserved(values)
    ensures AllMatch(TemplateOf(values, typed, path), values) <==> Uniform(values, typed, path)
    decreases ListHeight(values)
  {
    hide Matches, UnionMarker;
    if path in typed || values == [] || (!AllObj(values) && !AllArr(values)) {
      MarkerMatchesAll(values);
    } else if AllObj(values) {
      ObjAccepts(values, typed, path);
    } else {
      ArrAccepts(values, typed, path);
    }
  }

  lemma {:induction false} ObjAccepts(values: seq<Json>, typed: set<Path>, path: Path)
    requires AllUnreserved(values) && values != [] && AllObj(values) && path !in typed
    ensures AllMatch(TemplateOf(values, typed, path), values) <==> Uniform(values, typed, path)
    decreases ListHeight(values), 0
  {
    hide Unreserved, UnionMarker, Matches, Column;
    var first := values[0].fields;
    var t := TemplateOf(values, typed, path);
    assert ARRAY_KEY !in first && OR_NULL_KEY !in first by { ReservedAbsent(values[0]); }
    if forall i :: 0 <= i < |values| ==> values[i].fields.Keys == first.Keys {
      forall key | key in first
        ensures AllMatch(t.fields[key], Column(values, key)) <==> ColumnUniform(values, typed, path, key)
      {
        ColumnLower(values, key);
        ColumnUnreserved(values, key);
        TemplateAccepts(Column(values, key), typed, path + [Key(key)]);
      }
      ColumnsMatch(values, t);
      assert Uniform(values, typed, path) <==> forall key :: key in first ==> ColumnUniform(values, typed, path, key);
    } else {
      var i :| 0 <= i < |values| && values[i].fields.Keys != first.Keys;
      OtherKeys(t, values[i]);
    }
  }

  lemma OtherKeys(t: Json, v: Json)
    requires t.Obj? && v.Obj? && ARRAY_KEY !in t.fields && OR_NULL_KEY !in t.fields && t.fields.Keys != v.fields.Keys
    ensures !Matches(t, v)
  {
  }

  ghost predicate ColumnUniform(values: seq<Json>, typed: set<Path>, path: Path, key: string)
    requires values != [] && AllObj(values)
  {
    ColumnLower(values, key);
    Uniform(Column(values, key), typed, path + [Key(key)])
  }

  lemma ReservedAbsent(v: Json)
    requires v.Obj? && Unreserved(v)
    ensures ARRAY_KEY !in v.fields && OR_NULL_KEY !in v.fields
  {
  }

  /** A plain object template accepts rows of its keys column by column. */
  lemma {:induction false} ColumnsMatch(values: seq<Json>, t: Json)
    requires AllObj(values) && t.Obj? && ARRAY_KEY !in t.fields && OR_NULL_KEY !in t.fields
    requires forall i :: 0 <= i < |values| ==> values[i].fields.Keys == t.fields.Keys
    ensures AllMatch(t, values) <==> forall key :: key in t.fields ==> AllMatch(t.fields[key], Column(values, key))
  {
    forall key | key in t.fields
      ensures AllMatch(t.fields[key], Column(values, key)) <==>
        forall i :: 0 <= i < |values| ==> Matches(t.fields[key], values[i].fields[key])
    {
      ColumnFull(values, key);
    }
    forall i | 0 <= i < |values|
      ensures Matches(t, values[i]) <==> forall key :: key in t.fields ==> Matches(t.fields[key], values[i].fields[key])
    {
    }
  }

  lemma {:induction false} ArrAccepts(values: seq<Json>, typed: set<Path>, path: Path)
    requires AllUnreserved(values) && values != [] && AllArr(values) && !AllObj(values) && path !in typed
    ensures AllMatch(TemplateOf(values, typed, path), values) <==> Uniform(values, typed, path)
    decreases ListHeight(values), 0
  {
    hide Unreserved, UnionMarker, Matches, Uniform, TemplateOf;
    var t, flat := TemplateOf(values, typed, path), Flat(values);
    if forall i :: 0 <= i < |values| ==> values[i].items != [] {
      assert flat != [] by { assert flat[0] == values[0].items[0]; }
      FlatLower(values);
      FlatUnreserved(values);
      TemplateAccepts(flat, typed, path + [Each]);
      var inner := TemplateOf(flat, typed, path + [Each]);
      TemplateNotNull(flat, typed, path + [Each]);
      FlatMatches(inner, values);
      ArrUnfold(values, typed, path);
      forall i | 0 <= i < |values|
        ensures Matches(t, values[i]) <==> AllMatch(inner, values[i].items)
      {
        RowsMatch(inner, values[i]);
      }
    } else {
      var i :| 0 <= i < |values| && values[i].items == [];
      ArrUnfold(values, typed, path);
      NoEmptyRow(t, values[i]);
    }
  }

  lemma {:induction false} ArrUnfold(values: seq<Json>, typed: set<Path>, path: Path)
    requires values != [] && AllArr(values) && !AllObj(values) && path !in typed
    ensures ListHeight(Flat(values)) < ListHeight(values)
    ensures TemplateOf(values, typed, path) == Obj(map[ARRAY_KEY :=
      if Flat(values) == [] then Null else TemplateOf(Flat(values), typed, path + [Each])])
    ensures Uniform(values, typed, path) <==>
      (forall i :: 0 <= i < |values| ==> values[i].items != []) && Uniform(Flat(values), typed, path + [Each])
  {
    FlatLower(values);
  }

  lemma {:induction false} RowsMatch(inner: Json, v: Json)
    requires inner != Null && v.Arr? && v.items != []
    ensures Matches(Obj(map[ARRAY_KEY := inner]), v) <==> AllMatch(inner, v.items)
  {
  }

  lemma {:induction false} NoEmptyRow(t: Json, v: Json)
    requires t.Obj? && t.fields.Keys == {ARRAY_KEY} && v == Arr([])
    ensures !Matches(t, v)
  {
  }

  lemma TemplateNotNull(values: seq<Json>, typed: set<Path>, path: Path)
    ensures TemplateOf(values, typed, path) != Null
  {
  }
}
