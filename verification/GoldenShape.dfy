/** A template accepts a value while it is being edited leaf by leaf. */
module GoldenShape {
  import opened Text
  import opened Json
  import opened Golden
  import opened GoldenPaths

  // ----- matching while the empty arrays are not flagged yet -----

  /** `Matches`, except that an empty array with no template is always allowed. */
  ghost predicate Loose(t: Json, v: Json)
    decreases t
  {
    if IsMarker(t) then Matches(t, v)
    else if t.Obj? && OR_NULL_KEY in t.fields then
      v == Null || Loose(t.fields[OR_NULL_KEY], v)
    else if t.Obj? && ARRAY_KEY in t.fields then
      && v.Arr?
      && (if v.items == [] then MayBeEmpty(t.fields) || t.fields[ARRAY_KEY] == Null
          else if t.fields[ARRAY_KEY] == Null then true
          else forall i :: 0 <= i < |v.items| ==> Loose(t.fields[ARRAY_KEY], v.items[i]))
    else if t.Obj? && v.Obj? then
      && t.fields.Keys == v.fields.Keys
      && forall k :: k in t.fields && k in v.fields ==> Loose(t.fields[k], v.fields[k])
    else Matches(t, v)
  }

  lemma {:induction false} MatchesIsLoose(t: Json, v: Json)
    requires Matches(t, v)
    ensures Loose(t, v)
    decreases t
  {
    if IsMarker(t) || !t.Obj? {
    } else if OR_NULL_KEY in t.fields {
      if v != Null {
        MatchesIsLoose(t.fields[OR_NULL_KEY], v);
      }
    } else if ARRAY_KEY in t.fields {
      if t.fields[ARRAY_KEY] != Null {
        forall i | 0 <= i < |v.items|
          ensures Loose(t.fields[ARRAY_KEY], v.items[i])
        {
          MatchesIsLoose(t.fields[ARRAY_KEY], v.items[i]);
        }
      }
    } else if v.Obj? {
      forall k | k in t.fields && k in v.fields
        ensures Loose(t.fields[k], v.fields[k])
      {
        MatchesIsLoose(t.fields[k], v.fields[k]);
      }
    }
  }

  /** An empty array that the template does not allow. */
  predicate Unflagged(t: Json) {
    IsEmptyArray(t) && !MayBeEmpty(t.fields)
  }

  ghost predicate AllFlagged(t: Json) {
    forall p :: LeafAt(t, p).Some? ==> !Unflagged(LeafAt(t, p).value)
  }

  lemma {:induction false} ChildFlagged(t: Json, k: string)
    requires AllFlagged(t) && t.Obj? && k in t.fields
    ensures AllFlagged(t.fields[k])
  {
    forall p | LeafAt(t.fields[k], p).Some?
      ensures !Unflagged(LeafAt(t.fields[k], p).value)
    {
      assert ([StepOf(k)] + p)[1..] == p;
      assert LeafAt(t, [StepOf(k)] + p) == LeafAt(t.fields[k], p);
    }
  }

  /** Once every empty array is flagged, the two notions agree. */
  lemma {:induction false} FlaggedIsStrict(t: Json, v: Json)
    requires Loose(t, v) && AllFlagged(t)
    ensures Matches(t, v)
    decreases t
  {
    assert LeafAt(t, []) == Some(t);
    if IsMarker(t) || !t.Obj? {
    } else if OR_NULL_KEY in t.fields {
      if v != Null {
        ChildFlagged(t, OR_NULL_KEY);
        FlaggedIsStrict(t.fields[OR_NULL_KEY], v);
      }
    } else if ARRAY_KEY in t.fields {
      if t.fields[ARRAY_KEY] != Null {
        ChildFlagged(t, ARRAY_KEY);
        forall i | 0 <= i < |v.items|
          ensures Matches(t.fields[ARRAY_KEY], v.items[i])
        {
          FlaggedIsStrict(t.fields[ARRAY_KEY], v.items[i]);
        }
      }
    } else if v.Obj? {
      forall k | k in t.fields && k in v.fields
        ensures Matches(t.fields[k], v.fields[k])
      {
        ChildFlagged(t, k);
        FlaggedIsStrict(t.fields[k], v.fields[k]);
      }
    }
  }

  // ----- the values at a path -----

  /** The path exists throughout `v`, and every value there is accepted by `m`. */
  ghost predicate AllAt(v: Json, p: Path, m: Json)
    decreases |p|
  {
    if p == [] then Loose(m, v)
    else match p[0]
      case Key(n) => v.Obj? && n in v.fields && AllAt(v.fields[n], p[1..], m)
      case Each => v.Arr? && forall i :: 0 <= i < |v.items| ==> AllAt(v.items[i], p[1..], m)
  }

  lemma {:induction false} AllAtWeaker(v: Json, p: Path, l: Json, m: Json)
    requires AllAt(v, p, l) && forall x :: Loose(l, x) ==> Loose(m, x)
    ensures AllAt(v, p, m)
    decreases |p|
  {
    hide Loose;
    if p != [] {
      if p[0].Key? {
        AllAtWeaker(v.fields[p[0].name], p[1..], l, m);
      } else {
        forall i | 0 <= i < |v.items|
          ensures AllAt(v.items[i], p[1..], m)
        {
          AllAtWeaker(v.items[i], p[1..], l, m);
        }
      }
    }
  }

  /** What a template accepts reaches everything the template does. */
  lemma {:induction false} LooseReaches(t: Json, v: Json, p: Path, l: Json)
    requires Tidy(t) && Named(p) && Loose(t, v) && LeafAt(t, p) == Some(l) && l != Null && !l.Bool?
    ensures AllAt(v, p, l)
    decreases |p|
  {
    if p != [] {
      assert Named(p[1..]) by { assert forall i :: 0 <= i < |p[1..]| ==> p[1..][i] == p[i + 1]; }
      var c := t.fields[NameOf(p[0])];
      NotNull(c, p[1..]);
      if p[0].Each? {
        forall i | 0 <= i < |v.items|
          ensures AllAt(v.items[i], p[1..], l)
        {
          LooseReaches(c, v.items[i], p[1..], l);
        }
      } else {
        PlainStep(t, p);
        LooseReaches(c, v.fields[p[0].name], p[1..], l);
      }
    }
  }

  /** Where a tidy template has an ordinary key, its node is an ordinary object. */
  lemma {:induction false} PlainStep(t: Json, p: Path)
    requires Tidy(t) && Named(p) && p != [] && p[0].Key? && LeafAt(t, p).Some?
    requires LeafAt(t, p).value != Null && !LeafAt(t, p).value.Bool?
    ensures t.Obj? && OR_NULL_KEY !in t.fields && ARRAY_KEY !in t.fields
  {
  }

  /** Replacing what a path leads to by a template for the values there. */
  lemma {:induction false} PutLoose(t: Json, v: Json, p: Path, m: Json)
    requires Tidy(t) && Named(p) && Loose(t, v) && AllAt(v, p, m)
    requires LeafAt(t, p).Some? && LeafAt(t, p).value != Null && !LeafAt(t, p).value.Bool?
    ensures Loose(Put(t, p, m), v)
    decreases |p|
  {
    if p != [] {
      assert Named(p[1..]) by { assert forall i :: 0 <= i < |p[1..]| ==> p[1..][i] == p[i + 1]; }
      var k := NameOf(p[0]);
      var c := t.fields[k];
      var c' := Put(c, p[1..], m);
      NotNull(c, p[1..]);
      if p[0].Each? {
        forall i | 0 <= i < |v.items|
          ensures Loose(c', v.items[i])
        {
          PutLoose(c, v.items[i], p[1..], m);
        }
        EachLoose(t, v, c');
      } else {
        PlainStep(t, p);
        PutLoose(c, v.fields[k], p[1..], m);
        KeyLoose(t, v, k, c');
      }
    }
  }

  lemma {:induction false} EachLoose(t: Json, v: Json, c: Json)
    requires Tidy(t) && t.Obj? && ARRAY_KEY in t.fields && t.fields[ARRAY_KEY] != Null && Loose(t, v)
    requires v.Arr? && forall i :: 0 <= i < |v.items| ==> Loose(c, v.items[i])
    ensures Loose(Obj(t.fields[ARRAY_KEY := c]), v)
  {
    assert OR_NULL_KEY !in t.fields;
  }

  lemma {:induction false} KeyLoose(t: Json, v: Json, k: string, c: Json)
    requires t.Obj? && OR_NULL_KEY !in t.fields && ARRAY_KEY !in t.fields && k in t.fields
    requires Loose(t, v) && v.Obj? && k in v.fields && Loose(c, v.fields[k])
    ensures Loose(Obj(t.fields[k := c]), v)
  {
    var t' := Obj(t.fields[k := c]);
    assert t'.fields.Keys == t.fields.Keys;
  }
}
