/** Two values compared everywhere except at declared paths. */
module GoldenOff {
  import opened Json
  import opened Golden
  import opened GoldenTemplate

  /** What the paths name below one step. */
  function Under(paths: set<Path>, s: Step): set<Path> {
    set p | p in paths && p != [] && p[0] == s :: p[1..]
  }

  lemma {:induction false} UnderHas(paths: set<Path>, p: Path)
    requires p in paths && p != []
    ensures p[1..] in Under(paths, p[0])
  {
  }

  lemma {:induction false} UnderIs(paths: set<Path>, s: Step, q: Path)
    ensures q in Under(paths, s) <==> [s] + q in paths
  {
    var p := [s] + q;
    assert p[0] == s && p[1..] == q;
    if q in Under(paths, s) {
      var r :| r in paths && r != [] && r[0] == s && r[1..] == q;
      assert r == p;
    }
  }

  lemma UnderNothing(s: Step)
    ensures Under({}, s) == {}
  {
  }

  /** The values are equal, except for whatever stands at the paths. */
  ghost predicate AgreeOff(x: Json, y: Json, paths: set<Path>)
    decreases x
  {
    if [] in paths then true
    else if x.Obj? && y.Obj? then
      && x.fields.Keys == y.fields.Keys
      && forall k :: k in x.fields && k in y.fields ==> AgreeOff(x.fields[k], y.fields[k], Under(paths, Key(k)))
    else if x.Arr? && y.Arr? then
      && |x.items| == |y.items|
      && forall i :: 0 <= i < |x.items| && i < |y.items| ==> AgreeOff(x.items[i], y.items[i], Under(paths, Each))
    else x == y
  }

  /** Nothing is read as a marker, except for whatever stands at the paths. */
  ghost predicate MarkerFreeOff(x: Json, paths: set<Path>)
    decreases x
  {
    if [] in paths then true
    else match x
      case Str(s) => !IsMarkerText(s)
      case Arr(items) => forall i :: 0 <= i < |items| ==> MarkerFreeOff(items[i], Under(paths, Each))
      case Obj(fields) =>
        && ARRAY_KEY !in fields && OR_NULL_KEY !in fields
        && forall k :: k in fields ==> MarkerFreeOff(fields[k], Under(paths, Key(k)))
      case _ => true
  }

  /** Without paths it is equality. */
  lemma {:induction false} AgreeEverywhere(x: Json, y: Json)
    ensures AgreeOff(x, y, {}) <==> x == y
    decreases x
  {
    hide Under;
    if x.Obj? && y.Obj? && x.fields.Keys == y.fields.Keys {
      forall k | k in x.fields
        ensures AgreeOff(x.fields[k], y.fields[k], Under({}, Key(k))) <==> x.fields[k] == y.fields[k]
      {
        UnderNothing(Key(k));
        AgreeEverywhere(x.fields[k], y.fields[k]);
      }
      assert (forall k :: k in x.fields ==> x.fields[k] == y.fields[k]) <==> x.fields == y.fields;
    } else if x.Arr? && y.Arr? && |x.items| == |y.items| {
      UnderNothing(Each);
      forall i | 0 <= i < |x.items|
        ensures AgreeOff(x.items[i], y.items[i], Under({}, Each)) <==> x.items[i] == y.items[i]
      {
        AgreeEverywhere(x.items[i], y.items[i]);
      }
      assert (forall i :: 0 <= i < |x.items| ==> x.items[i] == y.items[i]) <==> x.items == y.items;
    }
  }

  lemma {:induction false} AgreeSelf(x: Json, paths: set<Path>)
    ensures AgreeOff(x, x, paths)
    decreases x
  {
    hide Under;
    if x.Obj? {
      forall k | k in x.fields
        ensures AgreeOff(x.fields[k], x.fields[k], Under(paths, Key(k)))
      {
        AgreeSelf(x.fields[k], Under(paths, Key(k)));
      }
    } else if x.Arr? {
      forall i | 0 <= i < |x.items|
        ensures AgreeOff(x.items[i], x.items[i], Under(paths, Each))
      {
        AgreeSelf(x.items[i], Under(paths, Each));
      }
    }
  }

  /** Two values that agree with a third agree with each other. */
  lemma {:induction false} AgreeJoins(x: Json, y: Json, z: Json, paths: set<Path>)
    requires AgreeOff(x, y, paths) && AgreeOff(z, y, paths)
    ensures AgreeOff(x, z, paths)
    decreases x
  {
    hide Under;
    if [] !in paths {
      if x.Obj? && y.Obj? {
        forall k | k in x.fields && k in z.fields
          ensures AgreeOff(x.fields[k], z.fields[k], Under(paths, Key(k)))
        {
          AgreeJoins(x.fields[k], y.fields[k], z.fields[k], Under(paths, Key(k)));
        }
      } else if x.Arr? && y.Arr? {
        forall i | 0 <= i < |x.items| && i < |z.items|
          ensures AgreeOff(x.items[i], z.items[i], Under(paths, Each))
        {
          AgreeJoins(x.items[i], y.items[i], z.items[i], Under(paths, Each));
        }
      }
    }
  }

  lemma {:induction false} AgreeBack(x: Json, y: Json, paths: set<Path>)
    requires AgreeOff(x, y, paths)
    ensures AgreeOff(y, x, paths)
  {
    AgreeSelf(y, paths);
    AgreeJoins(y, y, x, paths);
  }

  lemma {:induction false} AgreeThen(x: Json, y: Json, z: Json, paths: set<Path>)
    requires AgreeOff(x, y, paths) && AgreeOff(y, z, paths)
    ensures AgreeOff(x, z, paths)
  {
    AgreeBack(y, z, paths);
    AgreeJoins(x, y, z, paths);
  }

  lemma {:induction false} FreeAlong(x: Json, y: Json, paths: set<Path>)
    requires AgreeOff(x, y, paths) && MarkerFreeOff(x, paths)
    ensures MarkerFreeOff(y, paths)
    decreases x
  {
    hide Under, IsMarkerText;
    if [] !in paths {
      if x.Obj? && y.Obj? {
        forall k | k in y.fields
          ensures MarkerFreeOff(y.fields[k], Under(paths, Key(k)))
        {
          FreeAlong(x.fields[k], y.fields[k], Under(paths, Key(k)));
        }
      } else if x.Arr? && y.Arr? {
        forall i | 0 <= i < |y.items|
          ensures MarkerFreeOff(y.items[i], Under(paths, Each))
        {
          FreeAlong(x.items[i], y.items[i], Under(paths, Each));
        }
      }
    }
  }

  /** Outside the paths, what the comparer lets pass is the same value. */
  lemma {:induction false} MatchesAgrees(e: Json, x: Json, paths: set<Path>)
    requires MarkerFreeOff(e, paths) && Matches(e, x)
    ensures AgreeOff(e, x, paths)
    decreases e
  {
    hide Under, IsMarkerText;
    if [] !in paths {
      if e.Obj? && x.Obj? {
        forall k | k in e.fields && k in x.fields
          ensures AgreeOff(e.fields[k], x.fields[k], Under(paths, Key(k)))
        {
          MatchesAgrees(e.fields[k], x.fields[k], Under(paths, Key(k)));
        }
      } else if e.Arr? && x.Arr? {
        forall i | 0 <= i < |e.items| && i < |x.items|
          ensures AgreeOff(e.items[i], x.items[i], Under(paths, Each))
        {
          MatchesAgrees(e.items[i], x.items[i], Under(paths, Each));
        }
      }
    }
  }

  lemma {:induction false} FreeOffNothing(x: Json)
    requires MarkerFreeOff(x, {})
    ensures MarkerFree(x)
    decreases x
  {
    hide Under, IsMarkerText;
    UnderNothing(Each);
    if x.Obj? {
      forall k | k in x.fields
        ensures MarkerFree(x.fields[k])
      {
        UnderNothing(Key(k));
        FreeOffNothing(x.fields[k]);
      }
    } else if x.Arr? {
      forall i | 0 <= i < |x.items|
        ensures MarkerFree(x.items[i])
      {
        FreeOffNothing(x.items[i]);
      }
    }
  }

  // ----- comparing everywhere except at some paths -----

  predicate PlainObj(e: Json) {
    e.Obj? && ARRAY_KEY !in e.fields && OR_NULL_KEY !in e.fields
  }

  /** `Matches`, except for whatever stands at the paths; no marker stands above them. */
  ghost predicate MatchOff(e: Json, x: Json, paths: set<Path>)
    decreases e
  {
    if [] in paths then true
    else if paths == {} then Matches(e, x)
    else if e.Obj? && x.Obj? then
      && PlainObj(e) && e.fields.Keys == x.fields.Keys
      && forall k :: k in e.fields && k in x.fields ==> MatchOff(e.fields[k], x.fields[k], Under(paths, Key(k)))
    else if e.Arr? && x.Arr? then
      && |e.items| == |x.items|
      && forall i :: 0 <= i < |e.items| && i < |x.items| ==> MatchOff(e.items[i], x.items[i], Under(paths, Each))
    else Matches(e, x)
  }

  lemma {:induction false} OffFields(e: Json, x: Json, paths: set<Path>)
    requires PlainObj(e) && x.Obj? && [] !in paths
    ensures MatchOff(e, x, paths) <==>
      && e.fields.Keys == x.fields.Keys
      && forall k :: k in e.fields && k in x.fields ==> MatchOff(e.fields[k], x.fields[k], Under(paths, Key(k)))
  {
    hide Under;
    if paths == {} {
      forall k
        ensures Under(paths, Key(k)) == {}
      {
        UnderNothing(Key(k));
      }
    }
  }

  lemma {:induction false} OffItems(e: Json, x: Json, paths: set<Path>)
    requires e.Arr? && x.Arr? && [] !in paths
    ensures MatchOff(e, x, paths) <==>
      && |e.items| == |x.items|
      && forall i :: 0 <= i < |e.items| && i < |x.items| ==> MatchOff(e.items[i], x.items[i], Under(paths, Each))
  {
    hide Under;
    UnderNothing(Each);
  }

  /** Where nothing reads as a marker, the comparison is agreement. */
  lemma {:induction false} MatchIsAgreement(x: Json, o: Json, paths: set<Path>)
    requires MarkerFreeOff(x, paths)
    ensures MatchOff(x, o, paths) <==> AgreeOff(x, o, paths)
    decreases x
  {
    hide Under, IsMarkerText, Matches, MatchOff;
    if [] !in paths && x.Obj? && o.Obj? {
      OffFields(x, o, paths);
      forall k | k in x.fields && k in o.fields
        ensures MatchOff(x.fields[k], o.fields[k], Under(paths, Key(k))) <==> AgreeOff(x.fields[k], o.fields[k], Under(paths, Key(k)))
      {
        MatchIsAgreement(x.fields[k], o.fields[k], Under(paths, Key(k)));
      }
    } else if [] !in paths && x.Arr? && o.Arr? {
      OffItems(x, o, paths);
      forall i | 0 <= i < |x.items| && i < |o.items|
        ensures MatchOff(x.items[i], o.items[i], Under(paths, Each)) <==> AgreeOff(x.items[i], o.items[i], Under(paths, Each))
      {
        MatchIsAgreement(x.items[i], o.items[i], Under(paths, Each));
      }
    } else {
      OffRoot(x, o, paths);
      ScalarMatches(x, o, paths);
    }
  }

  lemma {:induction false} ScalarMatches(x: Json, o: Json, paths: set<Path>)
    requires MarkerFreeOff(x, paths)
    ensures [] !in paths && !(x.Obj? && o.Obj?) && !(x.Arr? && o.Arr?) ==> (Matches(x, o) <==> x == o)
  {
    hide IsMarkerText;
  }

  lemma OffRoot(e: Json, x: Json, paths: set<Path>)
    ensures [] in paths ==> MatchOff(e, x, paths)
    ensures [] !in paths && !(e.Obj? && x.Obj?) && !(e.Arr? && x.Arr?) ==> (MatchOff(e, x, paths) <==> Matches(e, x))
    ensures paths == {} ==> (MatchOff(e, x, paths) <==> Matches(e, x))
  {
    hide Matches, Under;
  }
}
