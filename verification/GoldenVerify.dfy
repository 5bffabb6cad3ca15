/** What verifying an answer against a recording establishes. */
module GoldenVerify {
  import opened Text
  import opened Json
  import opened Golden
  import opened GoldenTemplate
  import opened GoldenPaths
  import opened GoldenMark
  import opened GoldenVolatile
  import opened GoldenOff
  import opened GoldenReplace
  import opened GoldenRecord

  // ----- exactly which answers a recording accepts -----

  /** At every key that both answers have, what was recorded accepts what the other answer has. */
  ghost predicate KeysAccepted(entry: Option<Fields>, body: Json, other: Json) {
    entry.Some? && NodeOf(body).Some? && NodeOf(other).Some? ==>
      AllAccept(entry.value, NodeOf(body).value, NodeOf(other).value, entry.value.keys)
  }

  lemma {:induction false} MarkKeepsFields(f: Fields, x: Json, keys: seq<Path>)
    requires x.Obj? && AllWalkableIn(keys)
    ensures MarkKeys(f, x, keys).template.Obj? && MarkKeys(f, x, keys).template.fields.Keys == x.fields.Keys
    decreases |keys|
  {
    hide KeyProblems, Walkable, Apply;
    if keys != [] {
      assert Walkable(keys[0]);
      WalkableEnds(keys[0]);
      assert forall i :: 0 <= i < |keys[1..]| ==> keys[1..][i] == keys[i + 1];
      MarkKeepsFields(f, Replace(x, keys[0], Marked(f, keys[0])), keys[1..]);
    }
  }

  /** A recorded object is an ordinary object with the same fields. */
  lemma {:induction false} RecordedPlain(f: Fields, x: Json)
    requires x.Obj? && Sound(f) && MarkerFreeOff(x, DeclaredPaths(f))
    ensures [] !in DeclaredPaths(f) && PlainObj(x)
    ensures
      var t := FixNode(f, MarkKeys(f, x, f.keys).template);
      PlainObj(t) && t.fields.Keys == x.fields.Keys
  {
    hide MarkKeys, FixNode, KeysApart, Apart, LeafOk, NullableOk;
    MarkKeepsFields(f, x, f.keys);
    FixNodeFields(f, MarkKeys(f, x, f.keys).template);
    assert [] !in DeclaredPaths(f) by {
      hide MarkerFreeOff;
      assert forall p :: p in DeclaredPaths(f) ==> p in f.keys || p in f.placeholders || p in f.generated;
    }
  }

  lemma PlainMatches(t: Json, o: Json)
    requires PlainObj(t)
    ensures Matches(t, o) <==>
      && o.Obj? && t.fields.Keys == o.fields.Keys
      && forall k :: k in t.fields && k in o.fields ==> Matches(t.fields[k], o.fields[k])
  {
  }

  lemma AgreeParts(x: Json, o: Json, paths: set<Path>)
    requires x.Obj? && [] !in paths
    ensures AgreeOff(x, o, paths) <==>
      && o.Obj? && x.fields.Keys == o.fields.Keys
      && forall k :: k in x.fields && k in o.fields ==> AgreeOff(x.fields[k], o.fields[k], Under(paths, Key(k)))
  {
  }

  /** Both the recording and the declarations speak of the whole answer. */
  lemma {:induction false} WholeIff(f: Fields, body: Json, other: Json)
    requires Sound(f) && body.Obj? && "info" !in body.fields && MarkerFreeOff(body, DeclaredPaths(f))
    ensures Matches(WithoutVolatile(Some(f), body).template, FixedPlaceholders(Some(f), other)) <==>
      AgreeOff(body, other, DeclaredPaths(f)) && KeysAccepted(Some(f), body, other)
  {
    hide Matches, AgreeOff, MarkerFreeOff, MarkKeys, FixNode, AllAccept, Sound, FixNodeRaises, DeclaredPaths, PlainObj;
    RecordedPlain(f, body);
    var t, o := WithoutVolatile(Some(f), body).template, FixedPlaceholders(Some(f), other);
    if other.Obj? && "info" !in other.fields {
      NodeIff(f, body, other);
    } else {
      PlainMatches(t, o);
      AgreeParts(body, other, DeclaredPaths(f));
    }
  }

  /** A field beside `info` is compared as it is. */
  lemma {:induction false} BesideIff(body: Json, other: Json, k: string, paths: set<Path>)
    requires body.Obj? && "info" in body.fields && MarkerFreeOff(body, InBody(body, paths))
    requires other.Obj? && k in body.fields && k in other.fields && k != "info"
    ensures Matches(body.fields[k], other.fields[k]) <==> AgreeOff(body.fields[k], other.fields[k], Under(InBody(body, paths), Key(k)))
  {
    hide Matches, AgreeOff, InBody, Under;
    InfoParts(body, paths);
    assert MarkerFreeOff(body.fields[k], {});
    FreeOffNothing(body.fields[k]);
    MatchesIsEquality(body.fields[k], other.fields[k]);
    AgreeEverywhere(body.fields[k], other.fields[k]);
  }

  lemma {:induction false} InfoFree(body: Json, paths: set<Path>)
    requires body.Obj? && "info" in body.fields && MarkerFreeOff(body, InBody(body, paths))
    ensures MarkerFreeOff(body.fields["info"], paths) && PlainObj(body)
  {
    hide InBody, Under;
    InfoParts(body, paths);
  }

  /** The object inside the answer. */
  lemma {:induction false} InsideIff(f: Fields, x: Json, b: Json)
    requires Sound(f) && x.Obj? && MarkerFreeOff(x, DeclaredPaths(f))
    ensures
      var t, b' := FixNode(f, MarkKeys(f, x, f.keys).template), if b.Obj? then FixNode(f, b) else b;
      Matches(t, b') <==> AgreeOff(x, b, DeclaredPaths(f)) && (b.Obj? ==> AllAccept(f, x, b, f.keys))
  {
    hide Matches, AgreeOff, MarkerFreeOff, MarkKeys, FixNode, AllAccept, Sound, DeclaredPaths, PlainObj;
    if b.Obj? {
      NodeIff(f, x, b);
    } else {
      RecordedPlain(f, x);
      PlainMatches(FixNode(f, MarkKeys(f, x, f.keys).template), b);
      AgreeParts(x, b, DeclaredPaths(f));
    }
  }

  lemma {:induction false} InfoIff(f: Fields, body: Json, other: Json)
    requires Sound(f) && body.Obj? && "info" in body.fields && body.fields["info"].Obj?
    requires MarkerFreeOff(body, InBody(body, DeclaredPaths(f)))
    ensures Matches(WithoutVolatile(Some(f), body).template, FixedPlaceholders(Some(f), other)) <==>
      AgreeOff(body, other, InBody(body, DeclaredPaths(f))) && KeysAccepted(Some(f), body, other)
  {
    hide Matches, AgreeOff, MarkerFreeOff, MarkKeys, FixNode, AllAccept, Sound, FixNodeRaises, DeclaredPaths, InBody, Under;
    var paths := InBody(body, DeclaredPaths(f));
    var t, o := WithoutVolatile(Some(f), body).template, FixedPlaceholders(Some(f), other);
    InfoParts(body, DeclaredPaths(f));
    InfoFree(body, DeclaredPaths(f));
    assert t.fields.Keys == body.fields.Keys;
    assert o.Obj? <==> other.Obj? by { FixedKeeps(f, other); }
    PlainMatches(t, o);
    AgreeParts(body, other, paths);
    if other.Obj? {
      assert o.fields.Keys == other.fields.Keys by { FixedKeeps(f, other); }
      if body.fields.Keys == other.fields.Keys {
        InsideIff(f, body.fields["info"], other.fields["info"]);
        forall k | k in body.fields && k != "info"
          ensures Matches(t.fields[k], o.fields[k]) <==> AgreeOff(body.fields[k], other.fields[k], Under(paths, Key(k)))
        {
          BesideIff(body, other, k, DeclaredPaths(f));
        }
        Assemble(t, o, body, other, paths);
      }
    }
  }

  /** Field by field. */
  lemma {:induction false} Assemble(t: Json, o: Json, body: Json, other: Json, paths: set<Path>)
    requires t.Obj? && o.Obj? && body.Obj? && other.Obj? && "info" in body.fields
    requires t.fields.Keys == o.fields.Keys == body.fields.Keys == other.fields.Keys
    requires forall k :: k in body.fields && k != "info" ==>
      (Matches(t.fields[k], o.fields[k]) <==> AgreeOff(body.fields[k], other.fields[k], Under(paths, Key(k))))
    ensures (forall k :: k in t.fields && k in o.fields ==> Matches(t.fields[k], o.fields[k])) <==>
      && Matches(t.fields["info"], o.fields["info"])
      && forall k :: k in body.fields && k != "info" ==> AgreeOff(body.fields[k], other.fields[k], Under(paths, Key(k)))
  {
    hide Matches, AgreeOff, Under;
  }

  lemma {:induction false} FixedKeeps(f: Fields, other: Json)
    ensures
      var o := FixedPlaceholders(Some(f), other);
      && (o.Obj? <==> other.Obj?) && (other.Obj? ==> o.fields.Keys == other.fields.Keys)
      && (NodeOf(o).Some? <==> NodeOf(other).Some?)
  {
    hide FixNode;
    if NodeOf(other).Some? {
      FixNodeFields(f, NodeOf(other).value);
    }
  }

  /**
    * Exactly which answers a recording accepts: those that agree with the recorded answer everywhere
    * off the declared paths, and whose values at the keys are accepted by the marks made there.
    */
  lemma {:induction false} VerifyIff(entry: Option<Fields>, body: Json, other: Json)
    requires entry.Some? && NodeOf(body).Some? ==> Sound(entry.value)
    requires MarkerFreeOff(body, DeclaredIn(entry, body))
    ensures Matches(WithoutVolatile(entry, body).template, FixedPlaceholders(entry, other)) <==>
      AgreeOff(body, other, DeclaredIn(entry, body)) && KeysAccepted(entry, body, other)
  {
    hide Matches, AgreeOff, MarkerFreeOff, MarkKeys, FixNode, AllAccept, Sound, FixNodeRaises, DeclaredPaths, InBody;
    if entry.None? || NodeOf(body).None? {
      FreeOffNothing(body);
      MatchesIsEquality(body, FixedPlaceholders(entry, other));
      AgreeEverywhere(body, other);
      if entry.Some? {
        FixedKeeps(entry.value, other);
      }
    } else if "info" in body.fields {
      InfoIff(entry.value, body, other);
    } else {
      NoInfo(body, DeclaredPaths(entry.value));
      WholeIff(entry.value, body, other);
    }
  }

  // ----- record, then verify -----

  lemma {:induction false} NoFixRaises(f: Fields, x: Json)
    requires TableOk(f)
    ensures !FixNodeRaises(f, x)
  {
    hide FixRaises, FixPaths, Walkable, Apart, LeafOk, NullableOk;
    FixSafe(x, f.placeholders, PLACEHOLDER);
    FixSafe(FixPaths(x, f.placeholders, PLACEHOLDER), f.generated, GENERATED);
  }

  lemma {:induction false} ApartAlone(keys: seq<Path>, others: seq<Path>)
    requires KeysApart(keys, others)
    ensures KeysApart(keys, [])
  {
    hide Diverge;
  }

  /** The declarations are sound for the answer, and what they mark can be described. */
  ghost predicate Recordable(entry: Option<Fields>, body: Json) {
    entry.Some? && NodeOf(body).Some? ==>
      Sound(entry.value) && KeysDescribable(entry.value, NodeOf(body).value, entry.value.keys)
  }

  /**
    * Record, then verify: when nothing off the declared paths reads as a marker, the keys part from
    * the other declared paths and what they mark can be described, recording without a report raises
    * no exception, nor does verifying, and the answer shows no difference from its recording.
    */
  lemma {:induction false} RecordThenVerify(entry: Option<Fields>, body: Json)
    requires MarkerFreeOff(body, DeclaredIn(entry, body)) && Recordable(entry, body)
    requires Unreported(WithoutVolatile(entry, body).problems)
    ensures WithoutVolatile(entry, body).problems == {} && !FixedRaises(entry, body)
    ensures Matches(WithoutVolatile(entry, body).template, FixedPlaceholders(entry, body))
  {
    hide Matches, AgreeOff, MarkerFreeOff, MarkKeys, FixNode, AllAccept, FixNodeRaises, DeclaredIn, TableOk, KeysApart,
         KeysDescribable, FixedPlaceholders;
    if entry.Some? && NodeOf(body).Some? {
      var f, x := entry.value, NodeOf(body).value;
      ApartAlone(f.keys, f.placeholders + f.generated);
      assert AllWalkableIn(f.keys) by { KeysWalkable(f); }
      KeysQuiet(f, x, f.keys);
      NoFixRaises(f, x);
      NoFixRaises(f, MarkKeys(f, x, f.keys).template);
    }
    AgreeSelf(body, DeclaredIn(entry, body));
    VerifyIff(entry, body, body);
  }

  lemma KeysWalkable(f: Fields)
    requires TableOk(f)
    ensures AllWalkableIn(f.keys)
  {
    hide Walkable, Apart, LeafOk, NullableOk;
  }

  // ----- what verifying establishes whatever the table declares -----

  /** `replace_path` changes nothing but what its path leads to. */
  lemma {:induction false} ReplaceAgrees(x: Json, p: Path, c: Change, paths: set<Path>)
    requires p in paths
    ensures AgreeOff(x, Replace(x, p, c), paths)
    decreases |p|
  {
    hide Under, Apply, AgreeOff;
    if p == [] || p[0].Each? || !x.Obj? || p[0].name !in x.fields {
      AgreeSelf(x, paths);
    } else {
      var k, y := p[0].name, Replace(x, p, c);
      var below := Under(paths, p[0]);
      UnderHas(paths, p);
      assert AgreeOff(x.fields[k], y.fields[k], below) by {
        var child := x.fields[k];
        if |p| == 1 {
          AgreeRoot(child, y.fields[k], below);
        } else if p[1].Key? {
          ReplaceAgrees(child, p[1..], c, below);
        } else if child.Arr? {
          RowsAgree(child, p, c, below);
        } else {
          AgreeSelf(child, below);
        }
      }
      FieldAgrees(x, k, y.fields[k], paths);
    }
  }

  lemma {:induction false} RowsAgree(a: Json, p: Path, c: Change, paths: set<Path>)
    requires a.Arr? && |p| > 1 && p[1].Each? && p[1..] in paths
    ensures AgreeOff(a, Arr(ReplaceRows(a.items, p, c)), paths)
    decreases |p| - 1
  {
    hide Under, Replace;
    UnderHas(paths, p[1..]);
    assert p[1..][1..] == p[2..];
    forall i | 0 <= i < |a.items|
      ensures AgreeOff(a.items[i], Replace(a.items[i], p[2..], c), Under(paths, Each))
    {
      ReplaceAgrees(a.items[i], p[2..], c, Under(paths, Each));
    }
  }

  lemma AgreeRoot(x: Json, y: Json, paths: set<Path>)
    ensures [] in paths ==> AgreeOff(x, y, paths)
  {
  }

  lemma {:induction false} FieldAgrees(x: Json, k: string, a: Json, paths: set<Path>)
    requires x.Obj? && k in x.fields && AgreeOff(x.fields[k], a, Under(paths, Key(k)))
    ensures AgreeOff(x, Obj(x.fields[k := a]), paths)
  {
    hide Under;
    var y := Obj(x.fields[k := a]);
    assert y.fields.Keys == x.fields.Keys;
    forall j | j in x.fields && j != k
      ensures AgreeOff(x.fields[j], y.fields[j], Under(paths, Key(j)))
    {
      AgreeSelf(x.fields[j], Under(paths, Key(j)));
    }
  }

  lemma {:induction false} FixAgrees(x: Json, these: seq<Path>, text: string, paths: set<Path>)
    requires forall i :: 0 <= i < |these| ==> these[i] in paths
    ensures AgreeOff(x, FixPaths(x, these, text), paths)
    decreases |these|
  {
    hide AgreeOff, Replace;
    if these == [] {
      AgreeSelf(x, paths);
    } else {
      var y := Replace(x, these[0], Fixed(text));
      ReplaceAgrees(x, these[0], Fixed(text), paths);
      assert forall i :: 0 <= i < |these[1..]| ==> these[1..][i] == these[i + 1];
      FixAgrees(y, these[1..], text, paths);
      AgreeThen(x, y, FixPaths(y, these[1..], text), paths);
    }
  }

  lemma {:induction false} MarkAgrees(f: Fields, x: Json, keys: seq<Path>, paths: set<Path>)
    requires forall i :: 0 <= i < |keys| ==> keys[i] in paths
    ensures AgreeOff(x, MarkKeys(f, x, keys).template, paths)
    decreases |keys|
  {
    hide AgreeOff, Replace, KeyProblems;
    if keys == [] {
      AgreeSelf(x, paths);
    } else {
      var y := Replace(x, keys[0], Marked(f, keys[0]));
      ReplaceAgrees(x, keys[0], Marked(f, keys[0]), paths);
      assert forall i :: 0 <= i < |keys[1..]| ==> keys[1..][i] == keys[i + 1];
      MarkAgrees(f, y, keys[1..], paths);
      AgreeThen(x, y, MarkKeys(f, y, keys[1..]).template, paths);
    }
  }

  /** Both the recording of an object and its fixed form agree with it off the declared paths. */
  lemma {:induction false} NodeAgrees(f: Fields, x: Json)
    ensures AgreeOff(x, FixNode(f, x), DeclaredPaths(f))
    ensures AgreeOff(x, FixNode(f, MarkKeys(f, x, f.keys).template), DeclaredPaths(f))
  {
    hide AgreeOff, MarkKeys, FixPaths, DeclaredPaths;
    var paths, e := DeclaredPaths(f), MarkKeys(f, x, f.keys).template;
    ListsDeclared(f);
    MarkAgrees(f, x, f.keys, paths);
    FixNodeAgrees(f, x);
    FixNodeAgrees(f, e);
    AgreeThen(x, e, FixNode(f, e), paths);
  }

  lemma {:induction false} FixNodeAgrees(f: Fields, x: Json)
    ensures AgreeOff(x, FixNode(f, x), DeclaredPaths(f))
  {
    hide AgreeOff, FixPaths, DeclaredPaths;
    var paths, y := DeclaredPaths(f), FixPaths(x, f.placeholders, PLACEHOLDER);
    ListsDeclared(f);
    FixAgrees(x, f.placeholders, PLACEHOLDER, paths);
    FixAgrees(y, f.generated, GENERATED, paths);
    AgreeThen(x, y, FixPaths(y, f.generated, GENERATED), paths);
  }

  lemma {:induction false} BodyAgrees(body: Json, node: Json, paths: set<Path>)
    requires NodeOf(body).Some? && AgreeOff(NodeOf(body).value, node, paths)
    ensures AgreeOff(body, WithNode(body, node), InBody(body, paths))
  {
    hide AgreeOff, InBody;
    if "info" in body.fields {
      InfoParts(body, paths);
      FieldAgrees(body, "info", node, InBody(body, paths));
    } else {
      NoInfo(body, paths);
    }
  }

  lemma {:induction false} RecordedAgrees(entry: Option<Fields>, body: Json)
    ensures AgreeOff(body, WithoutVolatile(entry, body).template, DeclaredIn(entry, body))
    ensures AgreeOff(body, FixedPlaceholders(entry, body), DeclaredIn(entry, body))
  {
    hide AgreeOff, MarkKeys, FixNode, InBody, DeclaredPaths, FixNodeRaises;
    if entry.None? || NodeOf(body).None? {
      AgreeSelf(body, {});
    } else {
      var f, x := entry.value, NodeOf(body).value;
      NodeAgrees(f, x);
      BodyAgrees(body, FixNode(f, x), DeclaredPaths(f));
      BodyAgrees(body, FixNode(f, MarkKeys(f, x, f.keys).template), DeclaredPaths(f));
    }
  }

  lemma SameInfo(x: Json, y: Json, paths: set<Path>)
    requires x.Obj? && y.Obj? && x.fields.Keys == y.fields.Keys
    ensures InBody(x, paths) == InBody(y, paths)
  {
  }

  /** Two objects that agree off the declared paths have the same fields. */
  lemma {:induction false} AgreeFields(x: Json, o: Json, paths: set<Path>)
    requires x.Obj? && o.Obj? && [] !in InBody(x, paths) && AgreeOff(x, o, InBody(x, paths))
    ensures x.fields.Keys == o.fields.Keys
  {
  }

  /** An answer whose fixed form agrees with a body off the declared paths agrees with it itself. */
  lemma {:induction false} FixedSame(f: Fields, body: Json, other: Json)
    requires NodeOf(body).Some? && NodeOf(other).Some?
    requires AgreeOff(body, FixedPlaceholders(Some(f), other), DeclaredIn(Some(f), body))
    ensures AgreeOff(body, other, DeclaredIn(Some(f), body))
  {
    hide AgreeOff, FixedPlaceholders, InBody, DeclaredPaths;
    var paths, o := InBody(body, DeclaredPaths(f)), FixedPlaceholders(Some(f), other);
    RecordedAgrees(Some(f), other);
    FixedKeeps(f, other);
    if [] in paths {
      AgreeRoot(body, other, paths);
    } else {
      AgreeFields(body, o, DeclaredPaths(f));
      SameInfo(body, other, DeclaredPaths(f));
      AgreeJoins(body, o, other, paths);
    }
  }

  /** An answer that passes agrees with the recorded one off the declared paths, for any table. */
  lemma {:induction false} VerifyDiscriminates(entry: Option<Fields>, body: Json, other: Json)
    requires MarkerFreeOff(body, DeclaredIn(entry, body))
    requires Matches(WithoutVolatile(entry, body).template, FixedPlaceholders(entry, other))
    ensures AgreeOff(body, other, DeclaredIn(entry, body))
  {
    hide AgreeOff, WithoutVolatile, MarkerFreeOff, Matches, FixNode, InBody, DeclaredPaths;
    var paths := DeclaredIn(entry, body);
    var t, o := WithoutVolatile(entry, body).template, FixedPlaceholders(entry, other);
    RecordedAgrees(entry, body);
    FreeAlong(body, t, paths);
    MatchesAgrees(t, o, paths);
    AgreeThen(body, t, o, paths);
    if entry.Some? && NodeOf(other).Some? {
      FixedKeeps(entry.value, other);
      if NodeOf(body).Some? {
        FixedSame(entry.value, body, other);
      } else {
        AgreeEverywhere(body, o);
      }
    }
  }
}
