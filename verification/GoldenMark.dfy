/** `mark` of `without_volatile`: the template recorded for one declared value accepts that value. */
module GoldenMark {
  import opened Text
  import opened Json
  import opened Splitting
  import opened Golden
  import opened GoldenKinds
  import opened GoldenTemplate
  import opened GoldenPaths
  import opened GoldenShape

  // ----- the declarations of a route -----

  /** A leaf declared under `nullTemplates` or `enums`. */
  datatype Leaf = OrNull(kinds: map<string, string>) | Enum(values: seq<string>)

  datatype Declared = Declared(path: Path, leaf: Leaf)

  /** The entry of `VOLATILE_FIELDS` for a route. */
  datatype Fields = Fields(
    keys: seq<Path>, nullable: map<Path, string>, mayBeEmpty: set<Path>, typed: set<Path>, shaped: set<Path>,
    nullTemplates: seq<Declared>, enums: seq<Declared>, placeholders: seq<Path>, generated: seq<Path>) {
    /** In the order in which they are applied. */
    function Leaves(): seq<Declared> { nullTemplates + enums }
  }

  function KindMarker(kind: string): Json {
    Str(MarkerText([kind]))
  }

  function NullableMarker(kind: string): Json {
    Str(MarkerText([kind, "null"]))
  }

  /** `or_null_marker` and `enum_marker`. */
  function LeafMarker(leaf: Leaf): Json {
    match leaf
    case OrNull(kinds) => Obj(map[OR_NULL_KEY := Obj(map n | n in kinds :: KindMarker(kinds[n]))])
    case Enum(values) => Str(ENUM_PREFIX + JoinWith(values, '|') + ">")
  }

  /** The value is one the declaration foresees. */
  predicate LeafFits(leaf: Leaf, v: Json) {
    match leaf
    case OrNull(kinds) =>
      v == Null || (v.Obj? && v.fields.Keys == kinds.Keys && forall n :: n in kinds ==> IsKind(v.fields[n], kinds[n]))
    case Enum(values) => v.Str? && v.s in values
  }

  /** Declarations that the two marker formats can express. */
  predicate LeafOk(leaf: Leaf) {
    match leaf
    case OrNull(kinds) =>
      forall n :: n in kinds ==> kinds[n] in TYPE_NAMES && n != ARRAY_KEY && n != OR_NULL_KEY
    case Enum(values) => values != [] && forall i :: 0 <= i < |values| ==> '|' !in values[i]
  }

  lemma {:induction false} KindMatches(kind: string, v: Json)
    requires kind in TYPE_NAMES
    ensures Matches(KindMarker(kind), v) <==> IsKind(v, kind)
  {
    hide IsKind;
    TypeIsMarkerName(kind);
    MarkerReads([kind]);
    TypeIsKind(v, kind);
  }

  /** The six markers, by the constructors of the values they accept. */
  lemma {:induction false} MarkersAccept(v: Json)
    ensures Matches(Str("<VOLATILE:array>"), v) <==> v.Arr? || v == Str("<masked:array>")
    ensures Matches(Str("<VOLATILE:boolean>"), v) <==> v.Bool? || v == Str("<masked:boolean>")
    ensures Matches(Str("<VOLATILE:null>"), v) <==> v.Null? || v == Str("<masked:null>")
    ensures Matches(Str("<VOLATILE:number>"), v) <==> v.Num? || v == Str("<masked:number>")
    ensures Matches(Str("<VOLATILE:object>"), v) <==> v.Obj? || v == Str("<masked:object>")
    ensures Matches(Str("<VOLATILE:string>"), v) <==> v.Str? && (!Masks(v) || v == Str("<masked:string>"))
  {
    hide Matches;
    MarkerIs("array", v);
    MarkerIs("boolean", v);
    MarkerIs("null", v);
    MarkerIs("number", v);
    MarkerIs("object", v);
    MarkerIs("string", v);
    MarkerTexts();
  }

  lemma {:induction false} MarkerIs(name: string, v: Json)
    requires IsTypeName(name)
    ensures Matches(Str("<VOLATILE:" + name + ">"), v) <==> IsKind(v, name)
  {
    hide Matches, IsKind;
    TypeNamesAre(name);
    KindMatches(name, v);
    assert JoinWith([name], '|') == name;
  }

  lemma MarkerTexts()
    ensures "<VOLATILE:" + "array" + ">" == "<VOLATILE:array>" && "<VOLATILE:" + "boolean" + ">" == "<VOLATILE:boolean>"
    ensures "<VOLATILE:" + "null" + ">" == "<VOLATILE:null>" && "<VOLATILE:" + "number" + ">" == "<VOLATILE:number>"
    ensures "<VOLATILE:" + "object" + ">" == "<VOLATILE:object>" && "<VOLATILE:" + "string" + ">" == "<VOLATILE:string>"
    ensures "<masked:" + "array" + ">" == "<masked:array>" && "<masked:" + "boolean" + ">" == "<masked:boolean>"
    ensures "<masked:" + "null" + ">" == "<masked:null>" && "<masked:" + "number" + ">" == "<masked:number>"
    ensures "<masked:" + "object" + ">" == "<masked:object>" && "<masked:" + "string" + ">" == "<masked:string>"
  {
  }

  lemma {:induction false} NullableMatches(kind: string, v: Json)
    requires kind in TYPE_NAMES
    ensures Matches(NullableMarker(kind), v) <==> IsKind(v, kind) || IsKind(v, "null")
  {
    hide IsKind;
    TypeIsMarkerName(kind);
    MarkerReads([kind, "null"]);
    TypeIsKind(v, kind);
    TypeIsKind(v, "null");
  }

  lemma {:induction false} EnumReads(values: seq<string>)
    requires values != [] && forall i :: 0 <= i < |values| ==> '|' !in values[i]
    ensures
      var s := ENUM_PREFIX + JoinWith(values, '|') + ">";
      && IsMarkerText(s) && StartsWith(s, ENUM_PREFIX) && |s| > |ENUM_PREFIX|
      && SplitOn(s[|ENUM_PREFIX|..|s| - 1], '|') == values
  {
    SplitJoined(values, '|');
    var s, joined := ENUM_PREFIX + JoinWith(values, '|') + ">", JoinWith(values, '|');
    assert s == ENUM_PREFIX + (joined + ">");
    assert s[|ENUM_PREFIX|..|s| - 1] == joined;
    assert s[|s| - 1..] == ">";
    assert s[..|VOLATILE|] == ENUM_PREFIX[..|VOLATILE|] == VOLATILE;
  }

  /** A declared leaf accepts exactly the values it foresees. */
  lemma {:induction false} LeafMatches(leaf: Leaf, v: Json)
    requires LeafOk(leaf)
    ensures Matches(LeafMarker(leaf), v) <==> LeafFits(leaf, v)
  {
    match leaf
    case Enum(values) => EnumReads(values);
    case OrNull(kinds) =>
      var inner := LeafMarker(leaf).fields[OR_NULL_KEY];
      assert inner.fields.Keys == kinds.Keys;
      if v.Obj? && v.fields.Keys == kinds.Keys {
        forall n | n in kinds
          ensures Matches(inner.fields[n], v.fields[n]) <==> IsKind(v.fields[n], kinds[n])
        {
          KindMatches(kinds[n], v.fields[n]);
        }
      }
      assert Matches(inner, v) <==> v != Null && LeafFits(leaf, v);
  }

  lemma {:induction false} LeafTidy(leaf: Leaf)
    requires LeafOk(leaf)
    ensures Tidy(LeafMarker(leaf))
  {
  }

  // ----- what the body must hold at a declared leaf -----

  /** The path exists in every row, through arrays that are not empty, and ends in fitting values. */
  predicate Filled(v: Json, p: Path, leaf: Leaf)
    decreases |p|
  {
    if p == [] then LeafFits(leaf, v)
    else match p[0]
      case Key(n) => v.Obj? && n in v.fields && Filled(v.fields[n], p[1..], leaf)
      case Each => v.Arr? && v.items != [] && forall i :: 0 <= i < |v.items| ==> Filled(v.items[i], p[1..], leaf)
  }

  lemma {:induction false} FilledAllAt(v: Json, p: Path, leaf: Leaf)
    requires LeafOk(leaf) && Filled(v, p, leaf)
    ensures AllAt(v, p, LeafMarker(leaf))
    decreases |p|
  {
    hide Loose, LeafOk, LeafFits, LeafMarker;
    if p == [] {
      LeafMatches(leaf, v);
      MatchesIsLoose(LeafMarker(leaf), v);
    } else if p[0].Key? {
      FilledAllAt(v.fields[p[0].name], p[1..], leaf);
    } else {
      forall i | 0 <= i < |v.items|
        ensures AllAt(v.items[i], p[1..], LeafMarker(leaf))
      {
        FilledAllAt(v.items[i], p[1..], leaf);
      }
    }
  }

  /** No typed path ends strictly above the leaf. */
  ghost predicate Uncut(typed: set<Path>, path: Path, p: Path) {
    forall k :: 0 <= k < |p| ==> path + p[..k] !in typed
  }

  ghost predicate AllFilled(values: seq<Json>, p: Path, leaf: Leaf) {
    forall i :: 0 <= i < |values| ==> Filled(values[i], p, leaf)
  }

  predicate Solid(t: Option<Json>) {
    t.Some? && t.value != Null && !t.value.Bool?
  }

  /** The template has a node wherever all the values have the path. */
  lemma {:induction false} TemplateReaches(values: seq<Json>, typed: set<Path>, path: Path, p: Path, leaf: Leaf)
    requires values != [] && AllFilled(values, p, leaf) && Uncut(typed, path, p) && Named(p)
    ensures Solid(LeafAt(TemplateOf(values, typed, path), p))
    decreases |p|
  {
    hide LeafFits;
    if p != [] {
      assert path + p[..0] == path;
      var rest, next := p[1..], path + [p[0]];
      forall k | 0 <= k < |rest|
        ensures next + rest[..k] !in typed
      {
        assert next + rest[..k] == path + p[..k + 1];
      }
      assert Named(rest) by { assert forall i :: 0 <= i < |rest| ==> rest[i] == p[i + 1]; }
      assert Filled(values[0], p, leaf);
      if p[0].Key? {
        var n := p[0].name;
        assert AllObj(values);
        ColumnFull(values, n);
        ColumnLower(values, n);
        TemplateReaches(Column(values, n), typed, next, rest, leaf);
      } else {
        assert AllArr(values);
        FlatLower(values);
        FlatFilled(values, rest, leaf);
        TemplateReaches(Flat(values), typed, next, rest, leaf);
      }
    }
  }

  lemma {:induction false} FlatFilled(values: seq<Json>, p: Path, leaf: Leaf)
    requires AllArr(values)
    requires forall i :: 0 <= i < |values| ==> values[i].items != [] && AllFilled(values[i].items, p, leaf)
    ensures AllFilled(Flat(values), p, leaf) && (values != [] ==> Flat(values) != [])
    decreases |values|
  {
    hide Filled;
    if values != [] {
      var rest := values[1..];
      assert forall i :: 0 <= i < |rest| ==> rest[i] == values[i + 1];
      FlatFilled(rest, p, leaf);
    }
  }

  // ----- the template of one value -----

  /** Rows of an array share their keys and hold no empty array; arrays outside arrays may be empty. */
  ghost predicate SoundShape(v: Json, typed: set<Path>, path: Path)
    decreases v
  {
    if path in typed then true
    else match v
      case Obj(fields) => forall k :: k in fields ==> SoundShape(fields[k], typed, path + [Key(k)])
      case Arr(items) => items == [] || Uniform(items, typed, path + [Each])
      case _ => true
  }

  lemma {:induction false} SingleLoose(v: Json, typed: set<Path>, path: Path)
    requires Unreserved(v) && SoundShape(v, typed, path)
    ensures Loose(TemplateOf([v], typed, path), v)
    decreases v
  {
    hide Matches, UnionMarker;
    var t := TemplateOf([v], typed, path);
    if path in typed || (!v.Obj? && !v.Arr?) {
      assert t == UnionMarker(TypesOf([v]));
      MarkerMatchesAll([v]);
      assert Matches(t, [v][0]);
      MatchesIsLoose(t, v);
    } else if v.Obj? {
      assert AllObj([v]) && [v][0] == v;
      forall k | k in v.fields
        ensures Loose(t.fields[k], v.fields[k])
      {
        ColumnOne(v, k);
        ColumnLower([v], k);
        SingleLoose(v.fields[k], typed, path + [Key(k)]);
      }
      assert t.fields.Keys == v.fields.Keys;
    } else {
      ArrayLoose(v, typed, path);
    }
  }

  lemma ColumnOne(v: Json, k: string)
    requires v.Obj? && k in v.fields
    ensures AllObj([v]) && Column([v], k) == [v.fields[k]]
  {
    assert [v][1..] == [];
    assert Column([], k) == [];
  }

  lemma FlatOne(v: Json)
    requires v.Arr?
    ensures AllArr([v]) && Flat([v]) == v.items
  {
    assert [v][1..] == [];
    assert Flat([]) == [];
  }

  lemma {:induction false} ArrayLoose(v: Json, typed: set<Path>, path: Path)
    requires Unreserved(v) && SoundShape(v, typed, path) && v.Arr? && path !in typed
    ensures Loose(TemplateOf([v], typed, path), v)
  {
    hide Matches, UnionMarker, Uniform;
    FlatOne(v);
    ArrUnfold([v], typed, path);
    if v.items != [] {
      TemplateAccepts(v.items, typed, path + [Each]);
      var inner := TemplateOf(v.items, typed, path + [Each]);
      TemplateNotNull(v.items, typed, path + [Each]);
      forall i | 0 <= i < |v.items|
        ensures Loose(inner, v.items[i])
      {
        MatchesIsLoose(inner, v.items[i]);
      }
    }
  }

  lemma {:induction false} TemplateTidy(values: seq<Json>, typed: set<Path>, path: Path)
    requires AllUnreserved(values)
    ensures Tidy(TemplateOf(values, typed, path))
    decreases ListHeight(values)
  {
    if path in typed || values == [] || (!AllObj(values) && !AllArr(values)) {
    } else if AllObj(values) {
      var t := TemplateOf(values, typed, path);
      ReservedAbsent(values[0]);
      forall k | k in t.fields
        ensures Tidy(t.fields[k])
      {
        ColumnLower(values, k);
        ColumnUnreserved(values, k);
        TemplateTidy(Column(values, k), typed, path + [Key(k)]);
      }
    } else {
      FlatLower(values);
      FlatUnreserved(values);
      TemplateTidy(Flat(values), typed, path + [Each]);
    }
  }

  // ----- editing the template of a shaped value -----

  /** `path.startswith(f"{key}.")`. */
  predicate Below(p: Path, key: Path) {
    |key| < |p| && p[..|key|] == key && p[|key|].Key?
  }

  /** The two loops over `nullTemplates` and `enums`. */
  function EditLeaves(t: Json, key: Path, leaves: seq<Declared>): Option<Json>
    decreases |leaves|
  {
    if leaves == [] then Some(t)
    else if !Below(leaves[0].path, key) then EditLeaves(t, key, leaves[1..])
    else
      match SetLeaf(t, leaves[0].path[|key|..], LeafMarker(leaves[0].leaf))
      case None => None
      case Some(r) => EditLeaves(r, key, leaves[1..])
  }

  /** The loop over `null_leaves(template)`, in whatever order the leaves come. */
  ghost function FillNulls(t: Json, todo: set<Path>, key: Path, nullable: map<Path, string>): Option<Json>
    decreases todo
  {
    if todo == {} then Some(t)
    else
      var p := Pick(todo);
      if key + p !in nullable then FillNulls(t, todo - {p}, key, nullable)
      else
        match SetLeaf(t, p, NullableMarker(nullable[key + p]))
        case None => None
        case Some(r) => FillNulls(r, todo - {p}, key, nullable)
  }

  /** The loop over `empty_arrays(template)`. */
  ghost function FlagAll(t: Json, todo: set<Path>, key: Path, mayBeEmpty: set<Path>): Option<Json>
    decreases todo
  {
    if todo == {} then Some(t)
    else
      var p := Pick(todo);
      if key + p !in mayBeEmpty then FlagAll(t, todo - {p}, key, mayBeEmpty)
      else
        match FlagEmpty(t, p)
        case None => None
        case Some(r) => FlagAll(r, todo - {p}, key, mayBeEmpty)
  }

  /** The template accepts the value so far. */
  ghost predicate Holds(t: Json, v: Json) {
    Tidy(t) && Loose(t, v)
  }

  /** One edit at a path whose values the new leaf accepts. */
  lemma {:induction false} EditHolds(t: Json, v: Json, p: Path, m: Json)
    requires Holds(t, v) && Tidy(m) && Named(p) && AllAt(v, p, m) && Solid(LeafAt(t, p))
    ensures Holds(Put(t, p, m), v)
  {
    PutTidy(t, p, m);
    PutLoose(t, v, p, m);
  }

  /** What the declared leaves below `key` still need of the template. */
  ghost predicate Editable(t: Json, v: Json, key: Path, leaves: seq<Declared>) {
    && (forall i :: 0 <= i < |leaves| && Below(leaves[i].path, key) ==>
          && LeafOk(leaves[i].leaf) && Walkable(leaves[i].path[|key|..])
          && Solid(LeafAt(t, leaves[i].path[|key|..])) && Filled(v, leaves[i].path[|key|..], leaves[i].leaf))
    && Apart(leaves)
  }

  ghost predicate Apart(leaves: seq<Declared>) {
    forall i, j :: 0 <= i < j < |leaves| ==> Diverge(leaves[i].path, leaves[j].path)
  }

  lemma {:induction false} DivergeBelow(p: Path, q: Path, key: Path)
    requires Below(p, key) && Below(q, key) && Diverge(p, q)
    ensures Diverge(p[|key|..], q[|key|..])
  {
    var n := |key|;
    var i :| 0 <= i < |p| && i < |q| && p[i] != q[i] && p[..i] == q[..i];
    assert forall k :: 0 <= k < n ==> p[k] == p[..n][k] && q[k] == q[..n][k];
    var p', q' := p[n..], q[n..];
    assert p'[i - n] != q'[i - n];
    assert p'[..i - n] == p[..i][n..] == q[..i][n..] == q'[..i - n];
  }

  /** The edit of one declared leaf leaves the others to be edited. */
  lemma {:induction false} EditableRest(t: Json, v: Json, key: Path, leaves: seq<Declared>)
    requires leaves != [] && Editable(t, v, key, leaves) && Below(leaves[0].path, key)
    ensures
      var p := leaves[0].path[|key|..];
      Solid(LeafAt(t, p)) && Editable(Put(t, p, LeafMarker(leaves[0].leaf)), v, key, leaves[1..])
  {
    hide Loose, Tidy, LeafAt, Put, Diverge, Filled, LeafOk, LeafMarker, Walkable;
    var d, rest := leaves[0], leaves[1..];
    var p, m := d.path[|key|..], LeafMarker(d.leaf);
    assert forall i :: 0 <= i < |rest| ==> rest[i] == leaves[i + 1];
    forall i | 0 <= i < |rest| && Below(rest[i].path, key)
      ensures LeafAt(Put(t, p, m), rest[i].path[|key|..]) == LeafAt(t, rest[i].path[|key|..])
    {
      assert Diverge(leaves[0].path, leaves[i + 1].path);
      DivergeBelow(d.path, rest[i].path, key);
      PutElsewhere(t, p, m, rest[i].path[|key|..]);
    }
  }

  lemma {:induction false} EditableSkip(t: Json, v: Json, key: Path, leaves: seq<Declared>)
    requires leaves != [] && Editable(t, v, key, leaves)
    ensures Editable(t, v, key, leaves[1..])
  {
    hide Loose, Tidy, LeafAt, Diverge, Filled, LeafOk, Walkable;
    assert forall i :: 0 <= i < |leaves[1..]| ==> leaves[1..][i] == leaves[i + 1];
  }

  lemma {:induction false} EditOne(t: Json, v: Json, p: Path, leaf: Leaf)
    requires Holds(t, v) && LeafOk(leaf) && Walkable(p) && Solid(LeafAt(t, p)) && Filled(v, p, leaf)
    ensures SetLeaf(t, p, LeafMarker(leaf)) == Some(Put(t, p, LeafMarker(leaf)))
    ensures Holds(Put(t, p, LeafMarker(leaf)), v)
  {
    hide Holds, Loose, Tidy, LeafAt, Put, SetLeaf, Filled, LeafOk, LeafMarker;
    SetLeafPuts(t, p, LeafMarker(leaf));
    FilledAllAt(v, p, leaf);
    LeafTidy(leaf);
    EditHolds(t, v, p, LeafMarker(leaf));
  }

  lemma {:induction false} EditLeavesHold(t: Json, v: Json, key: Path, leaves: seq<Declared>)
    requires Holds(t, v) && Editable(t, v, key, leaves)
    ensures EditLeaves(t, key, leaves).Some? && Holds(EditLeaves(t, key, leaves).value, v)
    decreases |leaves|
  {
    hide Holds, LeafAt, Put, SetLeaf, Filled, LeafOk, LeafMarker, Walkable, Apart;
    if leaves != [] {
      if !Below(leaves[0].path, key) {
        EditableSkip(t, v, key, leaves);
        EditLeavesHold(t, v, key, leaves[1..]);
      } else {
        var p, leaf := leaves[0].path[|key|..], leaves[0].leaf;
        EditOne(t, v, p, leaf);
        EditableRest(t, v, key, leaves);
        EditLeavesHold(Put(t, p, LeafMarker(leaf)), v, key, leaves[1..]);
      }
    }
  }

  lemma NullMarkerIs()
    ensures KindMarker("null") == NULL_MARKER && IsMarker(NULL_MARKER)
  {
    assert JoinWith(["null"], '|') == "null";
    assert NULL_MARKER.s[..10] == VOLATILE;
  }

  /** A path below the root of an object is walked from a key. */
  lemma {:induction false} RelativeWalkable(t: Json, v: Json, key: Path, p: Path)
    requires Holds(t, v) && v.Obj? && Walkable(key + p) && LeafAt(t, p).Some?
    requires LeafAt(t, p).value == NULL_MARKER || IsEmptyArray(LeafAt(t, p).value)
    ensures Walkable(p)
  {
    assert (key + p)[|key|..] == p;
    if p == [] {
      NullMarkerIs();
      KindMatches("null", v);
      assert false;
    } else {
      assert (key + p)[|key|] == p[0];
      WalkableSuffix(key + p, |key|);
    }
  }
}
