/** `find_cycles` of check-deps.py: a three-colour depth-first search over the unit graph. */
module Cycles {
  import opened Collections

  type Unit = string

  /** `defaultdict(set)`: a unit that is not a key has no peers. */
  type Graph = map<Unit, set<Unit>>

  function Peers(g: Graph, u: Unit): set<Unit> {
    if u in g then g[u] else {}
  }

  // ----- sorted() -----

  predicate Le(a: Unit, b: Unit) {
    a == [] || (b != [] && (a[0] < b[0] || (a[0] == b[0] && Le(a[1..], b[1..]))))
  }

  lemma {:induction false} LeTotal(a: Unit, b: Unit)
    ensures Le(a, b) || Le(b, a)
    ensures Le(a, b) && Le(b, a) ==> a == b
    decreases |a|
  {
    if a != [] && b != [] {
      LeTotal(a[1..], b[1..]);
      assert a == [a[0]] + a[1..] && b == [b[0]] + b[1..];
    }
  }

  lemma {:induction false} LeTransitive(a: Unit, b: Unit, c: Unit)
    requires Le(a, b) && Le(b, c)
    ensures Le(a, c)
    decreases |a|
  {
    if a != [] && a[0] == b[0] == c[0] {
      LeTransitive(a[1..], b[1..], c[1..]);
    }
  }

  lemma LeOrders()
    ensures IsOrder(Le)
  {
    forall a, b
      ensures Le(a, b) || Le(b, a)
    {
      LeTotal(a, b);
    }
    forall a, b, c | Le(a, b) && Le(b, c)
      ensures Le(a, c)
    {
      LeTransitive(a, b, c);
    }
  }

  /** The elements of a set in ascending order. */
  method Sorted(s: set<Unit>) returns (r: seq<Unit>)
    ensures forall u :: u in r <==> u in s
    ensures forall i, j :: 0 <= i < j < |r| ==> r[i] != r[j] && Le(r[i], r[j])
  {
    r := [];
    var left := s;
    while left != {}
      invariant left <= s
      invariant forall u :: u in r <==> u in s && u !in left
      invariant forall i, j :: 0 <= i < j < |r| ==> r[i] != r[j] && Le(r[i], r[j])
      invariant forall i, u :: 0 <= i < |r| && u in left ==> Le(r[i], u)
      decreases left
    {
      LeOrders();
      HasLeast(left, Le);
      var m :| IsLeast(m, left, Le);
      r := r + [m];
      left := left - {m};
    }
  }

  // ----- walks -----

  ghost predicate IsWalk(g: Graph, w: seq<Unit>) {
    forall i :: 0 <= i < |w| - 1 ==> w[i + 1] in Peers(g, w[i])
  }

  /** A closed walk: it takes at least one edge and ends where it starts. */
  ghost predicate IsClosed(g: Graph, w: seq<Unit>) {
    |w| >= 2 && w[0] == w[|w| - 1] && IsWalk(g, w)
  }

  /** What the finder reports: a closed walk that meets no other unit twice. */
  ghost predicate IsCycle(g: Graph, w: seq<Unit>) {
    IsClosed(g, w) && Distinct(w[..|w| - 1])
  }

  ghost predicate Acyclic(g: Graph) {
    forall w :: !IsClosed(g, w)
  }

  /** The edge from `u` to `v` is the one that closes the cycle. */
  predicate Closes(w: seq<Unit>, u: Unit, v: Unit) {
    |w| >= 2 && w[|w| - 2] == u && w[|w| - 1] == v
  }

  predicate Closing(cycles: seq<seq<Unit>>, u: Unit, v: Unit) {
    exists k :: 0 <= k < |cycles| && Closes(cycles[k], u, v)
  }

  /** The graph without the closing edges of some cycles. */
  function Without(g: Graph, cycles: seq<seq<Unit>>): Graph {
    map u | u in g :: set v | v in g[u] && !Closing(cycles, u, v)
  }

  /** Every unit of the list only points to units before it, but for closing edges. */
  ghost predicate Settled(g: Graph, order: seq<Unit>, cycles: seq<seq<Unit>>) {
    forall i, v :: 0 <= i < |order| && v in Peers(g, order[i]) ==> v in order[..i] || Closing(cycles, order[i], v)
  }

  lemma SettledSnoc(g: Graph, order: seq<Unit>, cycles: seq<seq<Unit>>, u: Unit)
    requires Settled(g, order, cycles) && forall v :: v in Peers(g, u) ==> v in order || Closing(cycles, u, v)
    ensures Settled(g, order + [u], cycles)
  {
    hide Closing;
    var longer := order + [u];
    forall i, v | 0 <= i < |longer| && v in Peers(g, longer[i])
      ensures v in longer[..i] || Closing(cycles, longer[i], v)
    {
      if i < |order| {
        assert longer[..i] == order[..i];
      } else {
        assert longer[..i] == order;
      }
    }
  }

  /** One more cycle. */
  lemma {:induction false} ClosingSnoc(cycles: seq<seq<Unit>>, w: seq<Unit>, u: Unit, v: Unit)
    ensures Closing(cycles + [w], u, v) <==> Closing(cycles, u, v) || Closes(w, u, v)
  {
    hide Closes;
    var more := cycles + [w];
    assert more[|cycles|] == w;
    if k :| 0 <= k < |cycles| && Closes(cycles[k], u, v) {
      assert Closes(more[k], u, v);
    }
  }

  lemma {:induction false} WalkGoesDown(g: Graph, order: seq<Unit>, w: seq<Unit>, k: nat, i: nat) returns (j: nat)
    requires Settled(g, order, []) && IsWalk(g, w) && k < |w| && i < |order| && order[i] == w[0]
    ensures j <= i && order[j] == w[k] && (k > 0 ==> j < i)
    decreases k
  {
    if k == 0 {
      j := i;
    } else {
      var m := WalkGoesDown(g, order, w, k - 1, i);
      assert w[k - 1 + 1] in Peers(g, w[k - 1]);
      assert w[k] in order[..m];
      j :| 0 <= j < m && order[j] == w[k];
    }
  }

  /** A graph whose units can be listed that way has no closed walk without the closing edges. */
  lemma SettledIsAcyclic(g: Graph, order: seq<Unit>, cycles: seq<seq<Unit>>)
    requires Settled(g, order, cycles) && Distinct(order) && forall u :: u in g ==> u in order
    ensures Acyclic(Without(g, cycles))
  {
    var h := Without(g, cycles);
    assert Settled(h, order, []);
    forall w
      ensures !IsClosed(h, w)
    {
      if IsClosed(h, w) {
        assert w[0 + 1] in Peers(h, w[0]);
        var i :| 0 <= i < |order| && order[i] == w[0];
        var j := WalkGoesDown(h, order, w, |w| - 1, i);
      }
    }
  }

  lemma WithoutNothing(g: Graph)
    ensures Without(g, []) == g
  {
    assert forall u :: u in g ==> Without(g, [])[u] == g[u];
  }

  /** No edge closes two of the cycles. */
  ghost predicate ClosedOnce(cycles: seq<seq<Unit>>) {
    forall i, j, u, v :: 0 <= i < j < |cycles| && Closes(cycles[i], u, v) ==> !Closes(cycles[j], u, v)
  }

  datatype Colour = Grey | Black

  /** The recursive closure `visit` with the three variables it updates; an absent colour is white. */
  class Finder {
    const graph: Graph
    ghost const nodes: set<Unit>
    var colour: map<Unit, Colour>
    var stack: seq<Unit>
    var cycles: seq<seq<Unit>>
    ghost var order: seq<Unit>

    ghost predicate Closed() {
      forall u, v :: u in nodes && v in Peers(graph, u) ==> v in nodes
    }

    ghost predicate Valid()
      reads this
    {
      && Closed() && colour.Keys <= nodes
      && Distinct(stack) && IsWalk(graph, stack)
      && (forall u :: u in stack <==> u in colour && colour[u] == Grey)
      && Distinct(order)
      && (forall u :: u in order <==> u in colour && colour[u] == Black)
      && (forall k :: 0 <= k < |cycles| ==> IsCycle(graph, cycles[k]))
      && Settled(graph, order, cycles) && ClosedOnce(cycles)
      && (forall u, v :: Closing(cycles, u, v) ==> u in colour)
    }

    constructor (g: Graph)
      ensures Valid() && graph == g && stack == [] && cycles == [] && order == [] && g.Keys <= nodes
    {
      graph := g;
      nodes := g.Keys + set u, v | u in g && v in g[u] :: v;
      colour, stack, cycles, order := map[], [], [], [];
    }

    /** The tuple reported for a back edge to `peer`. */
    method Report(peer: Unit, ghost unit: Unit)
      requires Valid() && stack != [] && stack[|stack| - 1] == unit && peer in Peers(graph, unit) && peer in stack
      requires !Closing(cycles, unit, peer)
      modifies this`cycles
      ensures Valid() && old(cycles) <= cycles
      ensures forall u, v :: Closing(cycles, u, v) <==> Closing(old(cycles), u, v) || (u == unit && v == peer)
    {
      var k := 0;
      while stack[k] != peer
        invariant 0 <= k < |stack| && peer in stack[k..]
        decreases |stack| - k
      {
        assert peer in stack[k + 1..];
        k := k + 1;
      }
      var w := stack[k..] + [peer];
      assert IsCycle(graph, w) by { StackCycle(k, peer); }
      assert w[|w| - 2] == unit && w[|w| - 1] == peer;
      assert unit in stack;
      forall u, v
        ensures Closing(cycles + [w], u, v) <==> Closing(cycles, u, v) || (u == unit && v == peer)
      {
        ClosingSnoc(cycles, w, u, v);
      }
      OnceSnoc(cycles, w, unit, peer);
      cycles := cycles + [w];
    }

    /** A part of the stack and an edge back to its start. */
    lemma StackCycle(k: nat, peer: Unit)
      requires k < |stack| && stack[k] == peer && Distinct(stack) && IsWalk(graph, stack)
      requires peer in Peers(graph, stack[|stack| - 1])
      ensures IsCycle(graph, stack[k..] + [peer])
    {
      var w := stack[k..] + [peer];
      assert w[..|w| - 1] == stack[k..];
      forall i | 0 <= i < |w| - 1
        ensures w[i + 1] in Peers(graph, w[i])
      {
        if i + 1 < |w| - 1 {
          assert stack[k + i + 1] in Peers(graph, stack[k + i]);
        }
      }
    }

    /** `colour[unit] = GREY; stack.append(unit)`. */
    method Enter(unit: Unit)
      requires Valid() && unit in nodes && unit !in colour
      requires stack != [] ==> unit in Peers(graph, stack[|stack| - 1])
      modifies this`colour, this`stack
      ensures Valid() && stack == old(stack) + [unit] && forall v :: !Closing(cycles, unit, v)
      ensures colour.Keys == old(colour).Keys + {unit}
    {
      assert unit !in stack;
      colour := colour[unit := Grey];
      stack := stack + [unit];
    }

    /** `stack.pop(); colour[unit] = BLACK`. */
    method Leave(unit: Unit)
      requires Valid() && stack != [] && stack[|stack| - 1] == unit
      requires forall v :: v in Peers(graph, unit) ==> v in order || Closing(cycles, unit, v)
      modifies this`colour, this`stack, this`order
      ensures Valid() && stack == old(stack)[..|old(stack)| - 1] && colour.Keys == old(colour).Keys
      ensures order == old(order) + [unit]
    {
      assert unit in stack && unit !in order;
      SettledSnoc(graph, order, cycles, unit);
      stack := stack[..|stack| - 1];
      colour := colour[unit := Black];
      order := order + [unit];
    }

    /** The outcome for one peer of the unit on top of the stack. */
    method Meet(peer: Unit, ghost unit: Unit, ghost bound: set<Unit>)
      requires Valid() && stack != [] && stack[|stack| - 1] == unit && peer in Peers(graph, unit)
      requires nodes - colour.Keys < bound && !Closing(cycles, unit, peer)
      modifies this`colour, this`stack, this`cycles, this`order
      ensures Valid() && stack == old(stack) && (peer in order || Closing(cycles, unit, peer))
      ensures forall u, v :: u in old(colour) && Closing(cycles, u, v) ==> Closing(old(cycles), u, v) || (u == unit && v == peer)
      ensures old(colour).Keys <= colour.Keys && old(order) <= order && old(cycles) <= cycles
      decreases bound, 0
    {
      assert unit in stack;
      if peer in colour && colour[peer] == Grey {
        Report(peer, unit);
      } else if peer !in colour {
        Visit(peer);
      }
    }

    method Visit(unit: Unit)
      requires Valid() && unit in nodes && unit !in colour
      requires stack != [] ==> unit in Peers(graph, stack[|stack| - 1])
      modifies this`colour, this`stack, this`cycles, this`order
      ensures Valid() && stack == old(stack) && unit in order
      ensures forall u, v :: u in old(colour) && Closing(cycles, u, v) ==> Closing(old(cycles), u, v)
      ensures old(colour).Keys <= colour.Keys && old(order) <= order && old(cycles) <= cycles
      decreases nodes - colour.Keys, 1
    {
      hide Valid;
      ghost var bound := nodes - colour.Keys;
      Enter(unit);
      var peers := Sorted(Peers(graph, unit));
      ghost var path, before := stack, colour.Keys;
      assert unit in bound && unit !in nodes - before;
      for i := 0 to |peers|
        invariant Valid() && stack == path && before <= colour.Keys
        invariant old(order) <= order && old(cycles) <= cycles
        invariant forall j :: 0 <= j < i ==> peers[j] in order || Closing(cycles, unit, peers[j])
        invariant forall v :: Closing(cycles, unit, v) ==> v in peers[..i]
        invariant forall u, v :: u in old(colour) && Closing(cycles, u, v) ==> Closing(old(cycles), u, v)
      {
        Meet(peers[i], unit, bound);
      }
      Leave(unit);
    }
  }

  lemma {:induction false} OnceSnoc(cycles: seq<seq<Unit>>, w: seq<Unit>, u: Unit, v: Unit)
    requires ClosedOnce(cycles) && Closes(w, u, v) && !Closing(cycles, u, v)
    ensures ClosedOnce(cycles + [w])
  {
  }

  /**
    * `find_cycles`: every tuple reported is a genuine cycle, no edge closes two of them, and without the
    * edges that close them the graph has no closed walk; so nothing is reported exactly when it has none.
    */
  method FindCycles(g: Graph) returns (cycles: seq<seq<Unit>>)
    ensures forall k :: 0 <= k < |cycles| ==> IsCycle(g, cycles[k])
    ensures Acyclic(Without(g, cycles)) && ClosedOnce(cycles)
    ensures cycles == [] <==> Acyclic(g)
  {
    var f := new Finder(g);
    var units := Sorted(g.Keys);
    for i := 0 to |units|
      invariant f.Valid() && f.graph == g && g.Keys <= f.nodes && f.stack == []
      invariant forall j :: 0 <= j < i ==> units[j] in f.order
      invariant fresh(f)
    {
      var unit := units[i];
      if unit !in f.colour {
        f.Visit(unit);
      } else {
        assert unit !in f.stack;
      }
    }
    cycles := f.cycles;
    SettledIsAcyclic(g, f.order, cycles);
    if cycles == [] {
      WithoutNothing(g);
    } else {
      assert IsClosed(g, cycles[0]);
    }
  }
}
