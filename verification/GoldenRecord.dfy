/** `without_volatile` and `fixed_placeholders`: exactly which answers a recording accepts. */
module GoldenRecord {
  import opened Text
  import opened Collections
  import opened Json
  import opened Golden
  import opened GoldenPaths
  import opened GoldenMark
  import opened GoldenVolatile
  import opened GoldenOff
  import opened GoldenReplace

  const PLACEHOLDER := "<BYTES>"
  const GENERATED := "<GENERATED>"

  // ----- marking the keys one after the other -----

  /** The problems reported while one key is replaced. */
  ghost function KeyProblems(f: Fields, node: Json, key: Path): set<Problem> {
    (set x, q | x in Targets(node, key) && q in Mark(f, key, x).problems :: q)
    + (if Raises(node, key) then {Raised} else {})
  }

  /** The loop over `fields["keys"]`. */
  ghost function MarkKeys(f: Fields, node: Json, keys: seq<Path>): Marking
    decreases |keys|
  {
    if keys == [] then Marking(node, {})
    else
      var rest := MarkKeys(f, Replace(node, keys[0], Marked(f, keys[0])), keys[1..]);
      Marking(rest.template, KeyProblems(f, node, keys[0]) + rest.problems)
  }

  lemma {:induction false} ElementsSplit(these: seq<Path>, paths: set<Path>)
    requires these != []
    ensures paths + Elements(these) == paths + Elements(these[1..]) + {these[0]}
    ensures forall i :: 0 <= i < |these[1..]| ==> these[1..][i] == these[i + 1]
  {
    assert these == [these[0]] + these[1..];
  }

  ghost predicate AllPlain(e: Json, these: seq<Path>, paths: set<Path>) {
    forall i :: 0 <= i < |these| ==> PlainAlong(e, these[i], paths)
  }

  /** At every key, what is recorded accepts what the other value has there. */
  ghost predicate AllAccept(f: Fields, e: Json, o: Json, keys: seq<Path>) {
    forall i :: 0 <= i < |keys| ==> AcceptAt(e, o, keys[i], Marked(f, keys[i]))
  }

  ghost predicate KeysApart(keys: seq<Path>, others: seq<Path>) {
    && (forall i, j :: 0 <= i < j < |keys| ==> Diverge(keys[i], keys[j]))
    && (forall i, j :: 0 <= i < |keys| && 0 <= j < |others| ==> Diverge(keys[i], others[j]))
  }

  /** The first key parts from the others, which part from one another. */
  lemma {:induction false} ApartFirst(keys: seq<Path>, others: seq<Path>)
    requires keys != [] && KeysApart(keys, others)
    ensures KeysApart(keys[1..], others)
    ensures forall i :: 0 <= i < |keys[1..]| ==> Diverge(keys[0], keys[1..][i])
    ensures forall i :: 0 <= i < |others| ==> Diverge(keys[0], others[i])
    ensures forall q :: q in Elements(others) + Elements(keys[1..]) ==> Diverge(q, keys[0])
  {
    hide Diverge;
    var rest := keys[1..];
    assert forall i :: 0 <= i < |rest| ==> rest[i] == keys[i + 1];
    forall q | q in Elements(others) + Elements(rest)
      ensures Diverge(q, keys[0])
    {
      DivergeBack(keys[0], q);
    }
  }

  lemma {:induction false} PlainAll(e: Json, q: Path, c: Change, these: seq<Path>, paths: set<Path>)
    requires AllPlain(e, these, paths + {q})
    requires (c.Fixed? && !IsMarkerText(c.text)) || forall i :: 0 <= i < |these| ==> Diverge(q, these[i])
    ensures AllPlain(ReplaceAt(e, q, c), these, paths)
  {
    hide PlainAlong, ReplaceAt, Diverge, IsMarkerText;
    forall i | 0 <= i < |these|
      ensures PlainAlong(ReplaceAt(e, q, c), these[i], paths)
    {
      PlainKept(e, q, c, these[i], paths);
    }
  }

  lemma {:induction false} AcceptAll(f: Fields, e: Json, o: Json, q: Path, c: Change, keys: seq<Path>)
    requires forall i :: 0 <= i < |keys| ==> Diverge(q, keys[i])
    ensures AllAccept(f, ReplaceAt(e, q, c), o, keys) <==> AllAccept(f, e, o, keys)
  {
    hide AcceptAt, ReplaceAt, Diverge;
    forall i | 0 <= i < |keys|
      ensures AcceptAt(ReplaceAt(e, q, c), o, keys[i], Marked(f, keys[i])) <==> AcceptAt(e, o, keys[i], Marked(f, keys[i]))
    {
      AcceptKept(e, o, q, c, keys[i], Marked(f, keys[i]));
    }
  }

  lemma {:induction false} AcceptFirst(f: Fields, e: Json, o: Json, keys: seq<Path>)
    requires keys != []
    ensures AllAccept(f, e, o, keys) <==> AcceptAt(e, o, keys[0], Marked(f, keys[0])) && AllAccept(f, e, o, keys[1..])
  {
    hide AcceptAt;
    var rest := keys[1..];
    assert forall i :: 0 < i < |keys| ==> keys[i] == rest[i - 1];
  }

  /** Marking the keys, one after the other. */
  lemma {:induction false} KeysIff(f: Fields, e: Json, o: Json, keys: seq<Path>, others: seq<Path>)
    requires AllWalkableIn(keys) && KeysApart(keys, others)
    requires AllPlain(e, keys, Elements(others) + Elements(keys)) && AllPlain(e, others, Elements(others) + Elements(keys))
    ensures MatchOff(MarkKeys(f, e, keys).template, o, Elements(others)) <==>
      MatchOff(e, o, Elements(others) + Elements(keys)) && AllAccept(f, e, o, keys)
    ensures AllPlain(MarkKeys(f, e, keys).template, others, Elements(others))
    decreases |keys|
  {
    hide MatchOff, AcceptAt, PlainAlong, Replace, ReplaceAt, KeyProblems, Walkable, KeysApart, Elements, Diverge, AllAccept;
    if keys == [] {
      assert Elements(keys) == {} by { ElementsNone<Path>(); }
      assert Elements(others) + {} == Elements(others);
      assert AllAccept(f, e, o, []) by { NoKeys(f, e, o); }
    } else {
      var key, rest, c := keys[0], keys[1..], Marked(f, keys[0]);
      var paths, e' := Elements(others) + Elements(rest), ReplaceAt(e, key, c);
      assert Walkable(key);
      ReplaceSteps(e, key, c);
      ElementsSplit(keys, Elements(others));
      ApartFirst(keys, others);
      assert CanStep(key, c, false, paths);
      ReplaceIff(e, o, key, c, false, paths);
      assert AllPlain(e, rest, paths + {key});
      PlainAll(e, key, c, rest, paths);
      PlainAll(e, key, c, others, paths);
      KeysIff(f, e', o, rest, others);
      AcceptAll(f, e, o, key, c, rest);
      AcceptFirst(f, e, o, keys);
    }
  }

  lemma NoKeys(f: Fields, e: Json, o: Json)
    ensures AllAccept(f, e, o, [])
  {
  }

  // ----- what recording reports -----

  /** Every value marked under a key is one its declarations can describe. */
  ghost predicate KeysDescribable(f: Fields, x: Json, keys: seq<Path>) {
    forall i, y :: 0 <= i < |keys| && y in TargetsAt(x, keys[i]) ==> Describable(f, keys[i], y)
  }

  /** Nothing was reported; an exception is not a report. */
  ghost predicate Unreported(problems: set<Problem>) {
    forall q :: q in problems ==> q == Raised
  }

  lemma {:induction false} KeyQuiet(f: Fields, e: Json, key: Path)
    requires TableOk(f) && Walkable(key) && Unreported(KeyProblems(f, e, key))
    requires forall y :: y in TargetsAt(e, key) ==> Describable(f, key, y)
    ensures KeyProblems(f, e, key) == {}
    ensures forall y :: y in TargetsAt(e, key) ==> Matches(Apply(Marked(f, key), y), y)
  {
    hide Matches, Mark, Describable, TableOk, Targets, TargetsAt, Walkable, Raises;
    ReplaceSteps(e, key, Marked(f, key));
    WalkableEnds(key);
    WalkableSafe(e, key);
    forall y | y in TargetsAt(e, key)
      ensures Mark(f, key, y).problems == {} && Matches(Mark(f, key, y).template, y)
    {
      MarkAccepts(f, key, y);
      assert forall q :: q in Mark(f, key, y).problems ==> q in KeyProblems(f, e, key);
    }
  }

  /** Recording without a report raises nothing, and every mark accepts the value it was made from. */
  lemma {:induction false} KeysQuiet(f: Fields, e: Json, keys: seq<Path>)
    requires TableOk(f) && AllWalkableIn(keys) && KeysApart(keys, []) && KeysDescribable(f, e, keys)
    requires Unreported(MarkKeys(f, e, keys).problems)
    ensures MarkKeys(f, e, keys).problems == {} && AllAccept(f, e, e, keys)
    decreases |keys|
  {
    hide Matches, Mark, Describable, TableOk, Replace, ReplaceAt, TargetsAt, Walkable, KeyProblems, Diverge, Apply, AcceptAt,
         KeysApart;
    if keys != [] {
      var key, rest, c := keys[0], keys[1..], Marked(f, keys[0]);
      var e' := ReplaceAt(e, key, c);
      assert Walkable(key);
      ReplaceSteps(e, key, c);
      assert forall y :: y in TargetsAt(e, key) ==> Describable(f, key, y);
      KeyQuiet(f, e, key);
      AcceptsSelf(e, key, c);
      ApartFirst(keys, []);
      assert forall i :: 0 <= i < |rest| ==> rest[i] == keys[i + 1];
      forall i | 0 <= i < |rest|
        ensures TargetsAt(e', rest[i]) == TargetsAt(e, rest[i])
        ensures AcceptAt(e', e', rest[i], Marked(f, rest[i])) ==> AcceptAt(e, e, rest[i], Marked(f, rest[i]))
      {
        AcceptKept(e, e', key, c, rest[i], Marked(f, rest[i]));
        AcceptMirror(e, e, key, c, rest[i], Marked(f, rest[i]));
      }
      KeysQuiet(f, e', rest);
      AcceptFirst(f, e, e, keys);
    }
  }

  /** A change on the other side, elsewhere. */
  lemma {:induction false} AcceptMirror(e: Json, o: Json, q: Path, d: Change, p: Path, c: Change)
    requires Diverge(q, p)
    ensures AcceptAt(e, ReplaceAt(o, q, d), p, c) <==> AcceptAt(e, o, p, c)
    decreases |p|
  {
    hide Matches, Apply, Diverge;
    DivergeNonEmpty(q, p);
    var o' := ReplaceAt(o, q, d);
    if p[0] == q[0] {
      DivergeTail(q, p);
      if p[0].Key? && e.Obj? && o.Obj? && p[0].name in e.fields && p[0].name in o.fields {
        AcceptMirror(e.fields[p[0].name], o.fields[p[0].name], q[1..], d, p[1..], c);
      } else if p[0].Each? && e.Arr? && o.Arr? && |e.items| == |o.items| {
        forall i | 0 <= i < |e.items|
          ensures AcceptAt(e.items[i], o'.items[i], p[1..], c) <==> AcceptAt(e.items[i], o.items[i], p[1..], c)
        {
          AcceptMirror(e.items[i], o.items[i], q[1..], d, p[1..], c);
        }
      }
    }
  }

  // ----- fixing the same texts on both sides -----

  /** The two loops of `fixed_placeholders`. */
  ghost function FixPaths(node: Json, paths: seq<Path>, text: string): Json
    decreases |paths|
  {
    if paths == [] then node else FixPaths(Replace(node, paths[0], Fixed(text)), paths[1..], text)
  }

  /** One of the loops is given a path that ends in `[]`, and reaches a row. */
  ghost predicate FixRaises(node: Json, paths: seq<Path>, text: string)
    decreases |paths|
  {
    paths != [] && (Raises(node, paths[0]) || FixRaises(Replace(node, paths[0], Fixed(text)), paths[1..], text))
  }

  lemma {:induction false} FixSafe(node: Json, paths: seq<Path>, text: string)
    requires AllWalkableIn(paths)
    ensures !FixRaises(node, paths, text)
    decreases |paths|
  {
    hide Walkable, Replace, Raises;
    if paths != [] {
      assert Walkable(paths[0]);
      WalkableEnds(paths[0]);
      WalkableSafe(node, paths[0]);
      assert forall i :: 0 <= i < |paths[1..]| ==> paths[1..][i] == paths[i + 1];
      FixSafe(Replace(node, paths[0], Fixed(text)), paths[1..], text);
    }
  }

  lemma {:induction false} FixIff(e: Json, o: Json, these: seq<Path>, text: string, others: seq<Path>, paths: set<Path>)
    requires AllWalkableIn(these) && !IsMarkerText(text)
    requires AllPlain(e, these, paths + Elements(these)) && AllPlain(e, others, paths + Elements(these))
    ensures MatchOff(FixPaths(e, these, text), FixPaths(o, these, text), paths) <==> MatchOff(e, o, paths + Elements(these))
    ensures AllPlain(FixPaths(e, these, text), others, paths)
    decreases |these|
  {
    hide MatchOff, PlainAlong, Replace, ReplaceAt, Walkable, Elements, Diverge, IsMarkerText, AcceptAt;
    if these == [] {
      assert Elements(these) == {} by { ElementsNone<Path>(); }
      assert paths + {} == paths;
    } else {
      var p, rest, c := these[0], these[1..], Fixed(text);
      var more := paths + Elements(rest);
      assert Walkable(p);
      ReplaceSteps(e, p, c);
      ReplaceSteps(o, p, c);
      ElementsSplit(these, paths);
      ReplaceIff(e, o, p, c, true, more);
      assert AllPlain(e, rest, more + {p});
      PlainAll(e, p, c, rest, more);
      PlainAll(e, p, c, others, more);
      FixIff(ReplaceAt(e, p, c), ReplaceAt(o, p, c), rest, text, others, paths);
    }
  }

  ghost function FixNode(f: Fields, node: Json): Json {
    FixPaths(FixPaths(node, f.placeholders, PLACEHOLDER), f.generated, GENERATED)
  }

  ghost predicate FixNodeRaises(f: Fields, node: Json) {
    FixRaises(node, f.placeholders, PLACEHOLDER) || FixRaises(FixPaths(node, f.placeholders, PLACEHOLDER), f.generated, GENERATED)
  }

  // ----- the whole answer -----

  /** The object the declarations speak of: `info` when the answer has one. */
  function NodeOf(body: Json): Option<Json> {
    if !body.Obj? then None
    else if "info" !in body.fields then Some(body)
    else if body.fields["info"].Obj? then Some(body.fields["info"])
    else None
  }

  function WithNode(body: Json, node: Json): Json
    requires body.Obj?
  {
    if "info" in body.fields then Obj(body.fields["info" := node]) else node
  }

  /** `fixed_placeholders`. */
  ghost function FixedPlaceholders(entry: Option<Fields>, body: Json): Json {
    if entry.None? || NodeOf(body).None? then body
    else WithNode(body, FixNode(entry.value, NodeOf(body).value))
  }

  ghost predicate FixedRaises(entry: Option<Fields>, body: Json) {
    entry.Some? && NodeOf(body).Some? && FixNodeRaises(entry.value, NodeOf(body).value)
  }

  /** `without_volatile`. */
  ghost function WithoutVolatile(entry: Option<Fields>, body: Json): Marking {
    if entry.None? || NodeOf(body).None? then Marking(body, {})
    else
      var m := MarkKeys(entry.value, NodeOf(body).value, entry.value.keys);
      Marking(WithNode(body, FixNode(entry.value, m.template)),
              m.problems + (if FixNodeRaises(entry.value, m.template) then {Raised} else {}))
  }

  /** All the paths a table declares. */
  function DeclaredPaths(f: Fields): set<Path> {
    Elements(f.keys + f.placeholders + f.generated)
  }

  /** Paths below the object the declarations speak of, as paths below the whole answer. */
  function InBody(body: Json, paths: set<Path>): set<Path> {
    if body.Obj? && "info" in body.fields then set p | p in paths :: [Key("info")] + p else paths
  }

  /** The declared paths of an answer. */
  function DeclaredIn(entry: Option<Fields>, body: Json): set<Path> {
    if entry.None? || NodeOf(body).None? then {} else InBody(body, DeclaredPaths(entry.value))
  }

  /** The texts of the table can be carried by markers and paths, and its keys part from its other paths. */
  ghost predicate Sound(f: Fields) {
    TableOk(f) && KeysApart(f.keys, f.placeholders + f.generated)
  }

  lemma {:induction false} ListsDeclared(f: Fields)
    ensures forall i :: 0 <= i < |f.keys| ==> f.keys[i] in DeclaredPaths(f)
    ensures forall i :: 0 <= i < |f.placeholders| ==> f.placeholders[i] in DeclaredPaths(f)
    ensures forall i :: 0 <= i < |f.generated| ==> f.generated[i] in DeclaredPaths(f)
    ensures DeclaredPaths(f) == Elements(f.placeholders + f.generated) + Elements(f.keys)
    ensures Elements(f.placeholders + f.generated) == Elements(f.generated) + Elements(f.placeholders)
  {
  }

  lemma PlainTexts()
    ensures !IsMarkerText(PLACEHOLDER) && !IsMarkerText(GENERATED)
  {
    assert PLACEHOLDER[1] == 'B' && GENERATED[1] == 'G' && VOLATILE[1] == 'V';
  }

  lemma {:induction false} FreeAllPlain(x: Json, these: seq<Path>, paths: set<Path>)
    requires MarkerFreeOff(x, paths)
    ensures AllPlain(x, these, paths)
  {
    hide PlainAlong, MarkerFreeOff;
    forall i | 0 <= i < |these|
      ensures PlainAlong(x, these[i], paths)
    {
      FreePlain(x, these[i], paths);
    }
  }

  /** Fixing both sides leaves a comparison off the fixed paths. */
  lemma {:induction false} NodeFixIff(f: Fields, e: Json, o: Json)
    requires AllWalkableIn(f.placeholders) && AllWalkableIn(f.generated)
    requires AllPlain(e, f.placeholders + f.generated, Elements(f.placeholders + f.generated))
    ensures Matches(FixNode(f, e), FixNode(f, o)) <==> MatchOff(e, o, Elements(f.placeholders + f.generated))
  {
    hide Matches, MatchOff, FixPaths, Walkable, PlainAlong, Elements;
    var others, paths := f.placeholders + f.generated, Elements(f.generated);
    ListsDeclared(f);
    PlainTexts();
    assert AllPlain(e, f.placeholders, Elements(others)) by {
      assert forall i :: 0 <= i < |f.placeholders| ==> f.placeholders[i] == others[i];
    }
    assert AllPlain(e, f.generated, Elements(others)) by {
      assert forall i :: 0 <= i < |f.generated| ==> f.generated[i] == others[|f.placeholders| + i];
    }
    FixIff(e, o, f.placeholders, PLACEHOLDER, f.generated, paths);
    var e', o' := FixPaths(e, f.placeholders, PLACEHOLDER), FixPaths(o, f.placeholders, PLACEHOLDER);
    assert {} + paths == paths;
    FixIff(e', o', f.generated, GENERATED, [], {});
    OffRoot(FixNode(f, e), FixNode(f, o), {});
  }

  /** Exactly the objects that a recorded object accepts. */
  lemma {:induction false} NodeIff(f: Fields, x: Json, o: Json)
    requires MarkerFreeOff(x, DeclaredPaths(f)) && Sound(f)
    ensures Matches(FixNode(f, MarkKeys(f, x, f.keys).template), FixNode(f, o)) <==>
      AgreeOff(x, o, DeclaredPaths(f)) && AllAccept(f, x, o, f.keys)
  {
    hide Matches, MatchOff, MarkKeys, KeysApart, MarkerFreeOff, FixNode, Walkable, Elements, AgreeOff, AllAccept, AllPlain,
         Apart, LeafOk, NullableOk, DeclaredPaths;
    var others := f.placeholders + f.generated;
    ListsDeclared(f);
    FreeAllPlain(x, f.keys, DeclaredPaths(f));
    FreeAllPlain(x, others, DeclaredPaths(f));
    KeysIff(f, x, o, f.keys, others);
    NodeFixIff(f, MarkKeys(f, x, f.keys).template, o);
    MatchIsAgreement(x, o, DeclaredPaths(f));
  }

  // ----- the object inside the answer -----

  lemma {:induction false} InfoParts(body: Json, paths: set<Path>)
    requires body.Obj? && "info" in body.fields
    ensures Under(InBody(body, paths), Key("info")) == paths && [] !in InBody(body, paths)
    ensures forall k :: k != "info" ==> Under(InBody(body, paths), Key(k)) == {}
  {
    var all := InBody(body, paths);
    forall q
      ensures q in Under(all, Key("info")) <==> q in paths
    {
      UnderIs(all, Key("info"), q);
      if [Key("info")] + q in all {
        var p :| p in paths && [Key("info")] + p == [Key("info")] + q;
        assert ([Key("info")] + p)[1..] == ([Key("info")] + q)[1..];
      }
    }
  }

  lemma NoInfo(body: Json, paths: set<Path>)
    requires body.Obj? && "info" !in body.fields
    ensures InBody(body, paths) == paths
  {
  }

  /** Fixing an object leaves an object with the same fields. */
  lemma {:induction false} FixKeepsFields(x: Json, these: seq<Path>, text: string)
    requires x.Obj?
    ensures FixPaths(x, these, text).Obj? && FixPaths(x, these, text).fields.Keys == x.fields.Keys
    decreases |these|
  {
    if these != [] {
      FixKeepsFields(Replace(x, these[0], Fixed(text)), these[1..], text);
    }
  }

  lemma {:induction false} FixNodeFields(f: Fields, x: Json)
    requires x.Obj?
    ensures FixNode(f, x).Obj? && FixNode(f, x).fields.Keys == x.fields.Keys
  {
    hide FixPaths;
    FixKeepsFields(x, f.placeholders, PLACEHOLDER);
    FixKeepsFields(FixPaths(x, f.placeholders, PLACEHOLDER), f.generated, GENERATED);
  }
}
