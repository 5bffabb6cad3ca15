/** `replace_path`, and what a comparison makes of a value in which it replaced something. */
module GoldenReplace {
  import opened Json
  import opened Golden
  import opened GoldenTemplate
  import opened GoldenPaths
  import opened GoldenMark
  import opened GoldenVolatile
  import opened GoldenOff

  // ----- replace_path -----

  /** The callback of `replace_path`: a mark of the route, or a fixed text. */
  datatype Change = Marked(f: Fields, key: Path) | Fixed(text: string)

  ghost function Apply(c: Change, v: Json): Json {
    match c
    case Marked(f, key) => Mark(f, key, v).template
    case Fixed(text) => Str(text)
  }

  /** `replace_path(node, parts, mark)`. */
  ghost function Replace(node: Json, p: Path, c: Change): Json
    decreases |p|
  {
    if p == [] || p[0].Each? || !node.Obj? || p[0].name !in node.fields then node
    else
      var head := p[0].name;
      var child := node.fields[head];
      Obj(node.fields[head :=
        if |p| == 1 then Apply(c, child)
        else if p[1].Key? then Replace(child, p[1..], c)
        else if child.Arr? then Arr(ReplaceRows(child.items, p, c))
        else child])
  }

  ghost function ReplaceRows(items: seq<Json>, p: Path, c: Change): (r: seq<Json>)
    requires |p| > 1
    ensures |r| == |items| && forall i :: 0 <= i < |items| ==> r[i] == Replace(items[i], p[2..], c)
    decreases |p| - 1
  {
    seq(|items|, i requires 0 <= i < |items| => Replace(items[i], p[2..], c))
  }

  /** `replace_path` is called with an empty list of parts, which is an IndexError. */
  ghost predicate Raises(node: Json, p: Path)
    decreases |p|
  {
    if p == [] then true
    else if p[0].Each? || !node.Obj? || p[0].name !in node.fields || |p| == 1 then false
    else
      var child := node.fields[p[0].name];
      if p[1].Key? then Raises(child, p[1..])
      else child.Arr? && RowRaises(child.items, p)
  }

  ghost predicate RowRaises(items: seq<Json>, p: Path)
    requires |p| > 1
    decreases |p| - 1
  {
    exists i :: 0 <= i < |items| && Raises(items[i], p[2..])
  }

  /** Only a path that ends in `[]` can do that. */
  lemma {:induction false} WalkableSafe(node: Json, p: Path)
    requires p != [] && p[|p| - 1].Key?
    ensures !Raises(node, p)
    decreases |p|
  {
    if |p| > 1 && p[0].Key? && node.Obj? && p[0].name in node.fields {
      var child := node.fields[p[0].name];
      if p[1].Key? {
        WalkableSafe(child, p[1..]);
      } else if child.Arr? {
        forall i | 0 <= i < |child.items|
          ensures !Raises(child.items[i], p[2..])
        {
          WalkableSafe(child.items[i], p[2..]);
        }
      }
    }
  }

  /** The values the callback is called with. */
  function Targets(node: Json, p: Path): set<Json>
    decreases |p|
  {
    if p == [] || p[0].Each? || !node.Obj? || p[0].name !in node.fields then {}
    else
      var child := node.fields[p[0].name];
      if |p| == 1 then {child}
      else if p[1].Key? then Targets(child, p[1..])
      else if child.Arr? then RowTargets(child.items, p)
      else {}
  }

  function RowTargets(items: seq<Json>, p: Path): set<Json>
    requires |p| > 1
    decreases |p| - 1
  {
    set i, x | 0 <= i < |items| && x in Targets(items[i], p[2..]) :: x
  }

  // ----- the same, one step at a time -----

  ghost function ReplaceAt(node: Json, p: Path, c: Change): Json
    decreases |p|
  {
    if p == [] then Apply(c, node)
    else match p[0]
      case Key(k) =>
        if node.Obj? && k in node.fields then Obj(node.fields[k := ReplaceAt(node.fields[k], p[1..], c)]) else node
      case Each =>
        if node.Arr? then Arr(seq(|node.items|, i requires 0 <= i < |node.items| => ReplaceAt(node.items[i], p[1..], c))) else node
  }

  ghost function TargetsAt(node: Json, p: Path): set<Json>
    decreases |p|
  {
    if p == [] then {node}
    else match p[0]
      case Key(k) => if node.Obj? && k in node.fields then TargetsAt(node.fields[k], p[1..]) else {}
      case Each => if node.Arr? then set i, x | 0 <= i < |node.items| && x in TargetsAt(node.items[i], p[1..]) :: x else {}
  }

  lemma {:induction false} TwoSteps(p: Path)
    requires |p| > 1
    ensures p[1..][0] == p[1] && p[1..][1..] == p[2..]
  {
  }

  lemma {:induction false} ReplaceSteps(node: Json, p: Path, c: Change)
    requires Walkable(p)
    ensures Replace(node, p, c) == ReplaceAt(node, p, c) && Targets(node, p) == TargetsAt(node, p)
    decreases |p|
  {
    hide Apply, Walkable;
    WalkableEnds(p);
    if node.Obj? && p[0].name in node.fields && |p| > 1 {
      var child := node.fields[p[0].name];
      TwoSteps(p);
      if p[1].Key? {
        WalkableSuffix(p, 1);
        ReplaceSteps(child, p[1..], c);
      } else if child.Arr? {
        AfterEach(p);
        forall i | 0 <= i < |child.items|
          ensures Replace(child.items[i], p[2..], c) == ReplaceAt(child.items[i], p[2..], c)
          ensures Targets(child.items[i], p[2..]) == TargetsAt(child.items[i], p[2..])
        {
          ReplaceSteps(child.items[i], p[2..], c);
        }
        assert ReplaceRows(child.items, p, c) == ReplaceAt(child, p[1..], c).items;
      }
    }
  }

  /** A path whose text names it: it starts with a key, and every `[]` stands behind one. */
  predicate Declarable(p: Path) {
    p != [] && p[0].Key? && forall i :: 0 < i < |p| && p[i].Each? ==> p[i - 1].Key?
  }

  /** `replace_path` raises exactly on a path that ends in `[]` and reaches a row. */
  lemma {:induction false} RaisesIff(node: Json, p: Path)
    requires Declarable(p)
    ensures Raises(node, p) <==> p[|p| - 1].Each? && TargetsAt(node, p) != {}
    decreases |p|
  {
    if |p| > 1 && node.Obj? && p[0].name in node.fields {
      var child := node.fields[p[0].name];
      TwoSteps(p);
      if p[1].Key? {
        RaisesIff(child, p[1..]);
      } else if child.Arr? {
        forall i | 0 <= i < |child.items|
          ensures Raises(child.items[i], p[2..]) <==> p[|p| - 1].Each? && TargetsAt(child.items[i], p[2..]) != {}
        {
          if |p| > 2 {
            DeclarableRow(p);
            RaisesIff(child.items[i], p[2..]);
          }
        }
        RowsReached(child.items, p[2..]);
        assert TargetsAt(node, p) == TargetsAt(child, p[1..]);
      }
    }
  }

  lemma {:induction false} DeclarableRow(p: Path)
    requires Declarable(p) && |p| > 2 && p[1].Each?
    ensures Declarable(p[2..]) && p[2..][|p| - 3] == p[|p| - 1]
  {
    var q := p[2..];
    assert forall i :: 0 <= i < |q| ==> q[i] == p[i + 2];
  }

  lemma {:induction false} RowsReached(items: seq<Json>, p: Path)
    ensures TargetsAt(Arr(items), [Each] + p) != {} <==> exists i :: 0 <= i < |items| && TargetsAt(items[i], p) != {}
  {
    var q, all := [Each] + p, TargetsAt(Arr(items), [Each] + p);
    assert q[0] == Each && q[1..] == p;
    assert forall i, x :: 0 <= i < |items| && x in TargetsAt(items[i], q[1..]) ==> x in all;
    if i :| 0 <= i < |items| && TargetsAt(items[i], p) != {} {
      var x :| x in TargetsAt(items[i], p);
      assert x in all;
    }
  }

  /** In particular `rows[]` raises on the first row, whatever it is. */
  lemma {:induction false} RowsPathRaises(node: Json, rows: string)
    ensures Raises(node, [Key(rows), Each]) <==>
      node.Obj? && rows in node.fields && node.fields[rows].Arr? && node.fields[rows].items != []
  {
    hide Raises;
    var p := [Key(rows), Each];
    RaisesIff(node, p);
    assert p[1..] == [Each] + [];
    if node.Obj? && rows in node.fields && node.fields[rows].Arr? {
      var items := node.fields[rows].items;
      RowsReached(items, []);
      assert items != [] ==> TargetsAt(items[0], []) != {};
    }
  }

  lemma WalkableEnds(p: Path)
    requires Walkable(p)
    ensures p != [] && p[0].Key? && p[|p| - 1].Key?
  {
  }

  lemma {:induction false} UnderPlus(paths: set<Path>, p: Path, s: Step)
    requires p != []
    ensures Under(paths + {p}, s) == if s == p[0] then Under(paths, s) + {p[1..]} else Under(paths, s)
  {
  }

  // ----- templates without markers above the paths -----

  predicate RootPlain(e: Json) {
    !IsMarker(e) && (e.Obj? ==> PlainObj(e))
  }

  /** Down to the end of `p`, or to one of the paths, no marker stands in the way. */
  ghost predicate PlainAlong(e: Json, p: Path, paths: set<Path>)
    decreases |p|
  {
    if p == [] || [] in paths then true
    else
      && RootPlain(e)
      && match p[0]
         case Key(k) => e.Obj? && k in e.fields ==> PlainAlong(e.fields[k], p[1..], Under(paths, p[0]))
         case Each => e.Arr? ==> forall i :: 0 <= i < |e.items| ==> PlainAlong(e.items[i], p[1..], Under(paths, p[0]))
  }

  lemma {:induction false} FreePlain(x: Json, p: Path, paths: set<Path>)
    requires MarkerFreeOff(x, paths)
    ensures PlainAlong(x, p, paths)
    decreases |p|
  {
    hide Under, IsMarkerText;
    if p != [] && [] !in paths {
      if p[0].Key? {
        if x.Obj? && p[0].name in x.fields {
          FreePlain(x.fields[p[0].name], p[1..], Under(paths, p[0]));
        }
      } else if x.Arr? {
        forall i | 0 <= i < |x.items|
          ensures PlainAlong(x.items[i], p[1..], Under(paths, p[0]))
        {
          FreePlain(x.items[i], p[1..], Under(paths, p[0]));
        }
      }
    }
  }

  /** Replacing at `q` gives `q` up and leaves the way along another path as plain as it was. */
  lemma {:induction false} PlainKept(e: Json, q: Path, c: Change, p: Path, paths: set<Path>)
    requires PlainAlong(e, p, paths + {q}) && (Diverge(q, p) || (c.Fixed? && !IsMarkerText(c.text)))
    ensures PlainAlong(ReplaceAt(e, q, c), p, paths)
    decreases |p|
  {
    hide Under, IsMarkerText, Apply, Diverge;
    if p != [] && [] !in paths {
      if q == [] {
        assert c.Fixed? && !IsMarkerText(c.text) by { if Diverge(q, p) { DivergeNonEmpty(q, p); } }
        ApplyFixed(c);
      } else {
        UnderPlus(paths, q, p[0]);
        var e' := ReplaceAt(e, q, c);
        if p[0] == q[0] {
          if Diverge(q, p) {
            DivergeTail(q, p);
          }
          if p[0].Key? && e.Obj? && p[0].name in e.fields {
            PlainKept(e.fields[p[0].name], q[1..], c, p[1..], Under(paths, p[0]));
          } else if p[0].Each? && e.Arr? {
            forall i | 0 <= i < |e.items|
              ensures PlainAlong(e'.items[i], p[1..], Under(paths, p[0]))
            {
              PlainKept(e.items[i], q[1..], c, p[1..], Under(paths, p[0]));
            }
          }
        }
      }
    }
  }

  lemma DivergeNonEmpty(p: Path, q: Path)
    requires Diverge(p, q)
    ensures p != [] && q != []
  {
  }

  lemma ApplyFixed(c: Change)
    requires c.Fixed?
    ensures forall y :: Apply(c, y) == Str(c.text)
  {
  }

  // ----- what the comparison makes of it -----

  /** Wherever both values have the path, what is written on the one side accepts the other. */
  ghost predicate AcceptAt(e: Json, o: Json, p: Path, c: Change)
    decreases |p|
  {
    if p == [] then Matches(Apply(c, e), o)
    else match p[0]
      case Key(k) => e.Obj? && o.Obj? && k in e.fields && k in o.fields ==> AcceptAt(e.fields[k], o.fields[k], p[1..], c)
      case Each =>
        e.Arr? && o.Arr? && |e.items| == |o.items| ==>
          forall i :: 0 <= i < |e.items| ==> AcceptAt(e.items[i], o.items[i], p[1..], c)
  }

  /** A mark that accepts every value it is made from. */
  lemma {:induction false} AcceptsSelf(x: Json, p: Path, c: Change)
    requires forall y :: y in TargetsAt(x, p) ==> Matches(Apply(c, y), y)
    ensures AcceptAt(x, x, p, c)
    decreases |p|
  {
    hide Matches, Apply;
    if p != [] {
      if p[0].Key? {
        if x.Obj? && p[0].name in x.fields {
          AcceptsSelf(x.fields[p[0].name], p[1..], c);
        }
      } else if x.Arr? {
        forall i | 0 <= i < |x.items|
          ensures AcceptAt(x.items[i], x.items[i], p[1..], c)
        {
          assert forall y :: y in TargetsAt(x.items[i], p[1..]) ==> y in TargetsAt(x, p);
          AcceptsSelf(x.items[i], p[1..], c);
        }
      }
    }
  }

  /** A change elsewhere. */
  lemma {:induction false} AcceptKept(e: Json, o: Json, q: Path, d: Change, p: Path, c: Change)
    requires Diverge(q, p)
    ensures AcceptAt(ReplaceAt(e, q, d), o, p, c) <==> AcceptAt(e, o, p, c)
    ensures TargetsAt(ReplaceAt(e, q, d), p) == TargetsAt(e, p)
    decreases |p|
  {
    hide Matches, Apply, Diverge;
    DivergeNonEmpty(q, p);
    var e' := ReplaceAt(e, q, d);
    if p[0] == q[0] {
      DivergeTail(q, p);
      if p[0].Key? && e.Obj? && p[0].name in e.fields {
        AcceptKept(e.fields[p[0].name], if o.Obj? && p[0].name in o.fields then o.fields[p[0].name] else o, q[1..], d, p[1..], c);
      } else if p[0].Each? && e.Arr? {
        forall i | 0 <= i < |e.items|
          ensures TargetsAt(e'.items[i], p[1..]) == TargetsAt(e.items[i], p[1..])
          ensures o.Arr? && i < |o.items| ==>
            (AcceptAt(e'.items[i], o.items[i], p[1..], c) <==> AcceptAt(e.items[i], o.items[i], p[1..], c))
        {
          AcceptKept(e.items[i], if o.Arr? && i < |o.items| then o.items[i] else o, q[1..], d, p[1..], c);
        }
      }
    }
  }

  /** Values of different kinds do not match. */
  lemma {:induction false} Unlike(e: Json, o: Json, paths: set<Path>)
    requires RootPlain(e) && [] !in paths && (e.Obj? != o.Obj? || e.Arr? != o.Arr?)
    ensures !MatchOff(e, o, paths)
  {
    hide IsMarkerText, Under;
  }

  /** Where a path does not lead on, it plays no part. */
  lemma {:induction false} PathElsewhere(e: Json, o: Json, p: Path, paths: set<Path>)
    requires RootPlain(e) && [] !in paths && p != []
    requires if p[0].Key? then !e.Obj? || !o.Obj? else !e.Arr? || !o.Arr?
    ensures MatchOff(e, o, paths) <==> MatchOff(e, o, paths + {p})
  {
    hide Under, Matches, MatchOff, IsMarkerText;
    var more := paths + {p};
    if e.Obj? && o.Obj? {
      forall k
        ensures Under(more, Key(k)) == Under(paths, Key(k))
      {
        UnderPlus(paths, p, Key(k));
      }
      OffFields(e, o, paths);
      OffFields(e, o, more);
    } else if e.Arr? && o.Arr? {
      UnderPlus(paths, p, Each);
      OffItems(e, o, paths);
      OffItems(e, o, more);
    } else {
      OffRoot(e, o, paths);
      OffRoot(e, o, more);
    }
  }

  ghost function Other(o: Json, p: Path, c: Change, both: bool): Json {
    if both then ReplaceAt(o, p, c) else o
  }

  /** Either the same text is written on both sides, or the path parts from all those still exempt. */
  ghost predicate CanStep(p: Path, c: Change, both: bool, paths: set<Path>) {
    if both then c.Fixed? && !IsMarkerText(c.text) else forall q :: q in paths ==> Diverge(q, p)
  }

  /**
    * What a replacement does to a comparison: the values compare off `paths` after it exactly when
    * they compared off `paths` and `p` before, and, if only one side was changed, what was written
    * accepts what the other side has there.
    */
  lemma {:induction false} ReplaceIff(e: Json, o: Json, p: Path, c: Change, both: bool, paths: set<Path>)
    requires PlainAlong(e, p, paths + {p}) && CanStep(p, c, both, paths)
    ensures MatchOff(ReplaceAt(e, p, c), Other(o, p, c, both), paths) <==>
      MatchOff(e, o, paths + {p}) && (both || AcceptAt(e, o, p, c))
    decreases |p|, 1
  {
    hide Under, Matches, MatchOff, IsMarkerText, Apply, Diverge;
    if [] in paths {
      assert both by { if !both { DivergeNonEmpty([], p); } }
      OffRoot(ReplaceAt(e, p, c), Other(o, p, c, both), paths);
      OffRoot(e, o, paths + {p});
    } else if p == [] {
      OffRoot(e, o, paths + {p});
      if both {
        ApplyFixed(c);
        MatchesIsEquality(Str(c.text), Str(c.text));
      } else {
        assert paths == {} by { NothingParts(paths); }
      }
      OffRoot(Apply(c, e), if both then Apply(c, o) else o, paths);
    } else if p[0].Key? {
      KeyIff(e, o, p, c, both, paths);
    } else {
      EachIff(e, o, p, c, both, paths);
    }
  }

  lemma NothingParts(paths: set<Path>)
    requires forall q :: q in paths ==> Diverge(q, [])
    ensures paths == {}
  {
    forall q | q in paths
      ensures false
    {
      DivergeNonEmpty(q, []);
    }
  }

  lemma {:induction false} StepDown(p: Path, c: Change, both: bool, paths: set<Path>)
    requires p != [] && CanStep(p, c, both, paths)
    ensures CanStep(p[1..], c, both, Under(paths, p[0]))
  {
    hide Diverge;
    if !both {
      forall q | q in Under(paths, p[0])
        ensures Diverge(q, p[1..])
      {
        UnderIs(paths, p[0], q);
        var r := [p[0]] + q;
        assert r[1..] == q;
        DivergeTail(r, p);
      }
    }
  }

  lemma {:induction false} KeyIff(e: Json, o: Json, p: Path, c: Change, both: bool, paths: set<Path>)
    requires p != [] && p[0].Key? && [] !in paths && PlainAlong(e, p, paths + {p}) && CanStep(p, c, both, paths)
    ensures MatchOff(ReplaceAt(e, p, c), Other(o, p, c, both), paths) <==>
      MatchOff(e, o, paths + {p}) && (both || AcceptAt(e, o, p, c))
    decreases |p|, 0
  {
    hide Under, Matches, MatchOff, IsMarkerText, Apply, CanStep;
    var e', o', k, more := ReplaceAt(e, p, c), Other(o, p, c, both), p[0].name, paths + {p};
    if e.Obj? && o.Obj? {
      assert e'.fields.Keys == e.fields.Keys && o'.fields.Keys == o.fields.Keys;
      OffFields(e, o, more);
      OffFields(e', o', paths);
      forall j | j in e.fields && j in o.fields
        ensures MatchOff(e'.fields[j], o'.fields[j], Under(paths, Key(j))) <==>
          MatchOff(e.fields[j], o.fields[j], Under(more, Key(j)))
          && (j == k ==> both || AcceptAt(e.fields[j], o.fields[j], p[1..], c))
      {
        UnderPlus(paths, p, Key(j));
        if j == k {
          StepDown(p, c, both, paths);
          ReplaceIff(e.fields[j], o.fields[j], p[1..], c, both, Under(paths, Key(j)));
        }
      }
    } else if e.Obj? || o.Obj? {
      Unlike(e, o, more);
      Unlike(e', o', paths);
    } else {
      PathElsewhere(e, o, p, paths);
    }
  }

  lemma {:induction false} EachIff(e: Json, o: Json, p: Path, c: Change, both: bool, paths: set<Path>)
    requires p != [] && p[0].Each? && [] !in paths && PlainAlong(e, p, paths + {p}) && CanStep(p, c, both, paths)
    ensures MatchOff(ReplaceAt(e, p, c), Other(o, p, c, both), paths) <==>
      MatchOff(e, o, paths + {p}) && (both || AcceptAt(e, o, p, c))
    decreases |p|, 0
  {
    hide Under, Matches, MatchOff, IsMarkerText, Apply, CanStep;
    var e', o', more := ReplaceAt(e, p, c), Other(o, p, c, both), paths + {p};
    if e.Arr? && o.Arr? {
      OffItems(e, o, more);
      OffItems(e', o', paths);
      UnderPlus(paths, p, Each);
      StepDown(p, c, both, paths);
      forall i | 0 <= i < |e.items| && i < |o.items|
        ensures MatchOff(e'.items[i], o'.items[i], Under(paths, Each)) <==>
          MatchOff(e.items[i], o.items[i], Under(more, Each)) && (both || AcceptAt(e.items[i], o.items[i], p[1..], c))
      {
        ReplaceIff(e.items[i], o.items[i], p[1..], c, both, Under(paths, Each));
      }
    } else if e.Arr? || o.Arr? {
      Unlike(e, o, more);
      Unlike(e', o', paths);
    } else {
      PathElsewhere(e, o, p, paths);
    }
  }
}
