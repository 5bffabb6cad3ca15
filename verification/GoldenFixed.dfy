/**
  * What the recorder writes at the paths of its table: the fixed texts of placeholders and generated
  * values, and which paths below a key are typed.
  */
module GoldenFixed {
  import opened Json
  import opened Golden
  import opened GoldenPaths
  import opened GoldenMark
  import opened GoldenVolatile
  import opened GoldenReplace
  import opened GoldenRecord

  /** All that a path leads to is the text. */
  ghost predicate AllText(node: Json, p: Path, text: string) {
    forall v :: v in TargetsAt(node, p) ==> v == Str(text)
  }

  /** The path leads somewhere in both values or in neither. */
  ghost predicate LeadsAlike(a: Json, b: Json, p: Path) {
    TargetsAt(a, p) == {} <==> TargetsAt(b, p) == {}
  }

  lemma {:induction false} FixedThere(node: Json, p: Path, text: string)
    ensures AllText(ReplaceAt(node, p, Fixed(text)), p, text)
    ensures LeadsAlike(ReplaceAt(node, p, Fixed(text)), node, p)
    decreases |p|, 0
  {
    if p != [] {
      var rest := p[1..];
      match p[0] {
        case Key(k) =>
          if node.Obj? && k in node.fields {
            FixedThere(node.fields[k], rest, text);
          }
        case Each =>
          if node.Arr? {
            RowsFixed(node.items, p, text);
          }
      }
    }
  }

  lemma {:induction false} RowsFixed(items: seq<Json>, p: Path, text: string)
    requires p != [] && p[0].Each?
    ensures
      var out := ReplaceAt(Arr(items), p, Fixed(text));
      AllText(out, p, text) && LeadsAlike(out, Arr(items), p)
    decreases |p| - 1, 1
  {
    hide ReplaceAt;
    var c, rest := Fixed(text), p[1..];
    var out := ReplaceAt(Arr(items), p, c);
    EachRow(items, p, c);
    forall i | 0 <= i < |items|
      ensures AllText(out.items[i], rest, text) && LeadsAlike(out.items[i], items[i], rest)
    {
      FixedThere(items[i], rest, text);
    }
    RowsLead(items, out.items, p);
  }

  lemma EachRow(items: seq<Json>, p: Path, c: Change)
    requires p != [] && p[0].Each?
    ensures
      var out := ReplaceAt(Arr(items), p, c);
      out.Arr? && |out.items| == |items| && forall i :: 0 <= i < |items| ==> out.items[i] == ReplaceAt(items[i], p[1..], c)
  {
  }

  lemma {:induction false} RowsLead(items: seq<Json>, others: seq<Json>, p: Path)
    requires p != [] && p[0].Each? && |items| == |others|
    requires forall i :: 0 <= i < |items| ==> LeadsAlike(others[i], items[i], p[1..])
    ensures LeadsAlike(Arr(others), Arr(items), p)
  {
    RowTargetsAt(items, p);
    RowTargetsAt(others, p);
    forall i | 0 <= i < |items|
      ensures TargetsAt(others[i], p[1..]) == {} <==> TargetsAt(items[i], p[1..]) == {}
    {
      assert LeadsAlike(others[i], items[i], p[1..]);
    }
  }

  /** The path leads nowhere if it does so in every row. */
  lemma RowTargetsAt(items: seq<Json>, p: Path)
    requires p != [] && p[0].Each?
    ensures TargetsAt(Arr(items), p) == {} <==> forall i :: 0 <= i < |items| ==> TargetsAt(items[i], p[1..]) == {}
  {
    if i, x :| 0 <= i < |items| && x in TargetsAt(items[i], p[1..]) {
      assert x in TargetsAt(Arr(items), p);
    }
  }

  lemma {:induction false} RowsSame(items: seq<Json>, others: seq<Json>, q: Path)
    requires q != [] && q[0].Each? && |items| == |others|
    requires forall i :: 0 <= i < |items| ==> TargetsAt(items[i], q[1..]) == TargetsAt(others[i], q[1..])
    ensures TargetsAt(Arr(items), q) == TargetsAt(Arr(others), q)
  {
    hide TargetsAt;
    RowsPart(items, others, q);
    RowsPart(others, items, q);
  }

  lemma {:induction false} RowsPart(items: seq<Json>, others: seq<Json>, q: Path)
    requires q != [] && q[0].Each? && |items| == |others|
    requires forall i :: 0 <= i < |items| ==> TargetsAt(items[i], q[1..]) <= TargetsAt(others[i], q[1..])
    ensures TargetsAt(Arr(items), q) <= TargetsAt(Arr(others), q)
  {
    forall x | x in TargetsAt(Arr(items), q)
      ensures x in TargetsAt(Arr(others), q)
    {
      var i :| 0 <= i < |items| && x in TargetsAt(items[i], q[1..]);
      assert x in TargetsAt(others[i], q[1..]);
    }
  }

  /** Elsewhere nothing changes. */
  lemma {:induction false} FixedElsewhere(node: Json, p: Path, c: Change, q: Path)
    requires Diverge(p, q)
    ensures TargetsAt(ReplaceAt(node, p, c), q) == TargetsAt(node, q)
    decreases |p|
  {
    hide Apply;
    if p[0] == q[0] {
      DivergeTail(p, q);
      match p[0] {
        case Key(k) =>
          if node.Obj? && k in node.fields {
            FixedElsewhere(node.fields[k], p[1..], c, q[1..]);
          }
        case Each =>
          if node.Arr? {
            var out := ReplaceAt(node, p, c);
            EachRow(node.items, p, c);
            forall i | 0 <= i < |node.items|
              ensures TargetsAt(out.items[i], q[1..]) == TargetsAt(node.items[i], q[1..])
            {
              FixedElsewhere(node.items[i], p[1..], c, q[1..]);
            }
            RowsSame(out.items, node.items, q);
          }
      }
    }
  }

  /** The loop leaves a path alone that parts from all of its own. */
  lemma {:induction false} LoopElsewhere(node: Json, these: seq<Path>, text: string, q: Path)
    requires AllWalkableIn(these) && forall i :: 0 <= i < |these| ==> Diverge(these[i], q)
    ensures TargetsAt(FixPaths(node, these, text), q) == TargetsAt(node, q)
    decreases |these|
  {
    hide ReplaceAt, Replace, Walkable, Diverge, TargetsAt;
    if these != [] {
      var p, c, rest := these[0], Fixed(text), these[1..];
      assert Walkable(p) && forall i :: 0 <= i < |rest| ==> rest[i] == these[i + 1];
      ReplaceSteps(node, p, c);
      FixedElsewhere(node, p, c, q);
      LoopElsewhere(Replace(node, p, c), rest, text, q);
    }
  }

  ghost predicate PartFrom(these: seq<Path>) {
    forall i, j :: 0 <= i < j < |these| ==> Diverge(these[i], these[j])
  }

  lemma {:induction false} LoopThere(node: Json, these: seq<Path>, text: string, i: nat)
    requires AllWalkableIn(these) && PartFrom(these) && i < |these|
    ensures AllText(FixPaths(node, these, text), these[i], text)
    ensures LeadsAlike(FixPaths(node, these, text), node, these[i])
    decreases |these|
  {
    hide ReplaceAt, Replace, Walkable, Diverge, TargetsAt;
    var p, c, rest := these[0], Fixed(text), these[1..];
    assert Walkable(p) && forall k :: 0 <= k < |rest| ==> rest[k] == these[k + 1];
    ReplaceSteps(node, p, c);
    if i == 0 {
      FixedThere(node, p, text);
      forall k | 0 <= k < |rest|
        ensures Diverge(rest[k], p)
      {
        assert Diverge(these[0], these[k + 1]);
        DivergeBack(p, rest[k]);
      }
      LoopElsewhere(Replace(node, p, c), rest, text, p);
    } else {
      assert Diverge(these[0], these[i]);
      FixedElsewhere(node, p, c, these[i]);
      LoopThere(Replace(node, p, c), rest, text, i - 1);
    }
  }

  /**
    * In a fixed answer every declared placeholder that is there reads `<BYTES>`, and every generated
    * value `<GENERATED>`.
    */
  lemma {:induction false} FixedTexts(f: Fields, node: Json, i: nat)
    requires AllWalkableIn(f.placeholders) && AllWalkableIn(f.generated) && PartFrom(f.placeholders + f.generated)
    requires i < |f.placeholders + f.generated|
    ensures
      var p, fixed := (f.placeholders + f.generated)[i], FixNode(f, node);
      && AllText(fixed, p, if i < |f.placeholders| then "<BYTES>" else "<GENERATED>")
      && LeadsAlike(fixed, node, p)
  {
    hide FixPaths, Walkable, Diverge, TargetsAt;
    var all, n := f.placeholders + f.generated, |f.placeholders|;
    var between := FixPaths(node, f.placeholders, PLACEHOLDER);
    assert forall k :: 0 <= k < n ==> all[k] == f.placeholders[k];
    assert forall k :: n <= k < |all| ==> all[k] == f.generated[k - n];
    if i < n {
      LoopThere(node, f.placeholders, PLACEHOLDER, i);
      forall k | 0 <= k < |f.generated|
        ensures Diverge(f.generated[k], all[i])
      {
        assert Diverge(all[i], all[n + k]);
        DivergeBack(all[i], f.generated[k]);
      }
      LoopElsewhere(between, f.generated, GENERATED, all[i]);
    } else {
      forall k, m | 0 <= k < m < |f.generated|
        ensures Diverge(f.generated[k], f.generated[m])
      {
        assert Diverge(all[n + k], all[n + m]);
      }
      assert forall k :: 0 <= k < n ==> Diverge(all[k], all[i]);
      LoopElsewhere(node, f.placeholders, PLACEHOLDER, all[i]);
      LoopThere(between, f.generated, GENERATED, i - n);
    }
  }

  // ----- typed paths and empty lists -----

  /** The typed paths of a marked list are those that the table declares below its rows. */
  lemma {:induction false} TypedBelow(f: Fields, key: Path, q: Path)
    ensures q in TypedUnder(f, key) <==> q != [] && q[0].Key? && key + [Each] + q in f.typed
  {
    var front := key + [Each];
    var p := front + q;
    assert p[..|front|] == front && p[|front|..] == q;
    if r :| r in f.typed && Below(r, front) && r[|key| + 1..] == q {
      assert r == front + q;
    }
  }

  /** An empty list is accepted where the flag beside the template holds: by Python, unless it is empty, zero or false. */
  lemma {:induction false} EmptyAllowed(template: Json, flag: Json)
    ensures
      Matches(Obj(map[ARRAY_KEY := template, EMPTY_KEY := flag]), Arr([])) <==>
        flag !in {Null, Bool(false), Num(0.0), Str(""), Arr([]), Obj(map[])}
  {
  }
}
