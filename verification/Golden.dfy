/** The shape templates of golden-http.py: how they are built and what they accept. */
module Golden {
  import opened Text
  import opened Json
  import opened Splitting

  const ARRAY_KEY := "<VOLATILE:array>"
  const EMPTY_KEY := "<VOLATILE:mayBeEmpty>"
  const OR_NULL_KEY := "<VOLATILE:or-null>"
  const VOLATILE := "<VOLATILE:"
  const ENUM_PREFIX := "<VOLATILE:enum:"
  const MASKED_PREFIX := "<masked:"

  /** `TYPE_NAMES`, which is in ascending order. */
  const TYPE_NAMES := ["array", "boolean", "null", "number", "object", "string"]

  function JsonType(v: Json): string {
    match v
    case Null => "null"
    case Bool(_) => "boolean"
    case Num(_) => "number"
    case Str(_) => "string"
    case Arr(_) => "array"
    case Obj(_) => "object"
  }

  predicate IsMarkerText(s: string) {
    StartsWith(s, VOLATILE) && EndsWith(s, ">")
  }

  predicate IsMarker(v: Json) {
    v.Str? && IsMarkerText(v.s)
  }

  /** `marker[len("<VOLATILE:"):-1].split("|")`. */
  function MarkerTypes(s: string): seq<string>
    requires |s| > |VOLATILE|
  {
    SplitOn(s[|VOLATILE|..|s| - 1], '|')
  }

  /** The type a value stands for: a masked value stands for the type it names. */
  function ValueType(v: Json): (t: string)
    ensures t in TYPE_NAMES
  {
    if v.Str? && StartsWith(v.s, MASKED_PREFIX) && EndsWith(v.s, ">") && |v.s| > |MASKED_PREFIX|
       && v.s[|MASKED_PREFIX|..|v.s| - 1] in TYPE_NAMES
    then v.s[|MASKED_PREFIX|..|v.s| - 1]
    else TypeListed(v); JsonType(v)
  }

  lemma TypeListed(v: Json)
    ensures JsonType(v) in TYPE_NAMES
  {
    assert TYPE_NAMES[0] == "array" && TYPE_NAMES[1] == "boolean" && TYPE_NAMES[2] == "null";
    assert TYPE_NAMES[3] == "number" && TYPE_NAMES[4] == "object" && TYPE_NAMES[5] == "string";
  }

  function TypesOf(values: seq<Json>): set<string> {
    set i | 0 <= i < |values| :: ValueType(values[i])
  }

  /** The names of `types` from `names`, in their order. */
  function Chosen(names: seq<string>, types: set<string>): seq<string> {
    if names == [] then []
    else (if names[0] in types && names[0] != "null" then [names[0]] else []) + Chosen(names[1..], types)
  }

  function MarkerText(names: seq<string>): string {
    VOLATILE + JoinWith(names, '|') + ">"
  }

  /** `union_marker`: the type names in order, `null` last. */
  function UnionNames(types: set<string>): seq<string> {
    Chosen(TYPE_NAMES, types) + (if "null" in types then ["null"] else [])
  }

  function UnionMarker(types: set<string>): Json {
    Str(MarkerText(UnionNames(types)))
  }

  /**
    * A declared path as the list its text splits into: `rows[].eventId` is
    * `[Key("rows"), Each, Key("eventId")]`.
    */
  datatype Step = Key(name: string) | Each

  type Path = seq<Step>

  // ----- template_of -----

  predicate AllObj(values: seq<Json>) {
    forall i :: 0 <= i < |values| ==> values[i].Obj?
  }

  predicate AllArr(values: seq<Json>) {
    forall i :: 0 <= i < |values| ==> values[i].Arr?
  }

  /** `[value[key] for value in dicts if key in value]`. */
  function Column(values: seq<Json>, key: string): seq<Json>
    requires AllObj(values)
  {
    if values == [] then []
    else (if key in values[0].fields then [values[0].fields[key]] else []) + Column(values[1..], key)
  }

  /** `[item for value in lists for item in value]`. */
  function Flat(values: seq<Json>): seq<Json>
    requires AllArr(values)
  {
    if values == [] then [] else values[0].items + Flat(values[1..])
  }

  lemma {:induction false} ColumnHeight(values: seq<Json>, key: string, n: nat)
    requires AllObj(values) && n > 0 && forall i :: 0 <= i < |values| ==> Height(values[i]) <= n
    ensures forall i :: 0 <= i < |Column(values, key)| ==> Height(Column(values, key)[i]) <= n - 1
    decreases |values|
  {
    if values != [] {
      var v := values[0];
      ColumnHeight(values[1..], key, n);
      if key in v.fields {
        FieldHeight(v, v.fields.Keys, key);
      }
    }
  }

  lemma {:induction false} FlatHeight(values: seq<Json>, n: nat)
    requires AllArr(values) && n > 0 && forall i :: 0 <= i < |values| ==> Height(values[i]) <= n
    ensures forall i :: 0 <= i < |Flat(values)| ==> Height(Flat(values)[i]) <= n - 1
    decreases |values|
  {
    if values != [] {
      var v := values[0];
      FlatHeight(values[1..], n);
      forall i | 0 <= i < |v.items|
        ensures Height(v.items[i]) <= n - 1
      {
        ItemHeight(v, |v.items|, i);
      }
    }
  }

  lemma ColumnLower(values: seq<Json>, key: string)
    requires values != [] && AllObj(values)
    ensures ListHeight(Column(values, key)) < ListHeight(values)
  {
    var n := ListHeight(values);
    forall i | 0 <= i < |values|
      ensures Height(values[i]) <= n
    {
      MemberHeight(values, i);
    }
    assert Height(values[0]) > 0;
    ColumnHeight(values, key, n);
    ListHeightBound(Column(values, key), n - 1);
  }

  lemma FlatLower(values: seq<Json>)
    requires values != [] && AllArr(values)
    ensures ListHeight(Flat(values)) < ListHeight(values)
  {
    var n := ListHeight(values);
    forall i | 0 <= i < |values|
      ensures Height(values[i]) <= n
    {
      MemberHeight(values, i);
    }
    assert Height(values[0]) > 0;
    FlatHeight(values, n);
    ListHeightBound(Flat(values), n - 1);
  }

  /** `template_of(values, typed, path)`. */
  function TemplateOf(values: seq<Json>, typed: set<Path>, path: Path): Json
    decreases ListHeight(values)
  {
    if path in typed || values == [] then UnionMarker(TypesOf(values))
    else if AllObj(values) then
      var first := values[0].fields;
      Obj(map key | key in first ::
        (ColumnLower(values, key); TemplateOf(Column(values, key), typed, path + [Key(key)])))
    else if AllArr(values) then
      FlatLower(values);
      var flat := Flat(values);
      Obj(map[ARRAY_KEY := if flat == [] then Null else TemplateOf(flat, typed, path + [Each])])
    else UnionMarker(TypesOf(values))
  }

  // ----- differences -----

  /** Python's `bool(value)`. */
  predicate Truthy(v: Json) {
    match v
    case Null => false
    case Bool(b) => b
    case Num(n) => n != 0.0
    case Str(s) => s != ""
    case Arr(items) => items != []
    case Obj(fields) => fields != map[]
  }

  /** `expected.get(EMPTY_KEY)`, as a truth value. */
  predicate MayBeEmpty(fields: map<string, Json>) {
    EMPTY_KEY in fields && Truthy(fields[EMPTY_KEY])
  }

  /** `differences(expected, actual) == []`. */
  predicate Matches(expected: Json, actual: Json)
    decreases expected
  {
    if IsMarker(expected) then
      if StartsWith(expected.s, ENUM_PREFIX)
      then actual.Str? && |ENUM_PREFIX| < |expected.s| && actual.s in SplitOn(expected.s[|ENUM_PREFIX|..|expected.s| - 1], '|')
      else |expected.s| > |VOLATILE| && ValueType(actual) in MarkerTypes(expected.s)
    else if expected.Obj? && OR_NULL_KEY in expected.fields then
      actual == Null || Matches(expected.fields[OR_NULL_KEY], actual)
    else if expected.Obj? && ARRAY_KEY in expected.fields then
      && actual.Arr?
      && (if actual.items == [] then MayBeEmpty(expected.fields)
          else if expected.fields[ARRAY_KEY] == Null then true
          else forall i :: 0 <= i < |actual.items| ==> Matches(expected.fields[ARRAY_KEY], actual.items[i]))
    else if expected.Obj? && actual.Obj? then
      && expected.fields.Keys == actual.fields.Keys
      && forall k :: k in expected.fields && k in actual.fields ==> Matches(expected.fields[k], actual.fields[k])
    else if expected.Arr? && actual.Arr? then
      && |expected.items| == |actual.items|
      && forall i :: 0 <= i < |expected.items| && i < |actual.items| ==> Matches(expected.items[i], actual.items[i])
    else expected == actual
  }
}
