/** The tier table of check-deps.py and what it leaves for the cycle finder to report. */
module Tiers {
  import opened Text
  import opened Cycles

  /** `tier_of_package`. */
  function TierOf(pkg: string): Option<nat> {
    if pkg == "packages/lib/http" then Some(2)
    else if pkg == "packages/lib/auth" then Some(4)
    else if StartsWith(pkg, "packages/lib/") then Some(1)
    else if StartsWith(pkg, "packages/contracts") then Some(2)
    else if StartsWith(pkg, "packages/clients") then Some(3)
    else if StartsWith(pkg, "services/") then Some(5)
    else None
  }

  /** `"/".join(pkg.split("/")[:2])`: everything before the second slash. */
  function BeforeSlash(s: string, i: nat): (k: nat)
    requires i <= |s|
    ensures i <= k <= |s|
    decreases |s| - i
  {
    if i == |s| || s[i] == '/' then i else BeforeSlash(s, i + 1)
  }

  /** `unit_of`: a service is one unit, whatever its packages. */
  function UnitOf(pkg: string): Unit {
    if StartsWith(pkg, "services/") then pkg[..BeforeSlash(pkg, 9)] else pkg
  }

  /** `ALLOWED`. */
  function Allowed(tier: nat): set<nat> {
    if tier == 1 then {1}
    else if tier == 2 || tier == 3 then {1, 2}
    else if tier == 4 then {1, 2, 3}
    else if tier == 5 then {1, 2, 3, 4}
    else {}
  }

  /** Which tier each group of packages is in. */
  lemma {:induction false} PackageTiers(rest: string)
    ensures TierOf("packages/lib/" + rest) == Some(if rest == "http" then 2 else if rest == "auth" then 4 else 1)
    ensures TierOf("packages/contracts" + rest) == Some(2)
    ensures TierOf("packages/clients" + rest) == Some(3)
    ensures TierOf("services/" + rest) == Some(5)
  {
    var lib, contracts, clients, services :=
      "packages/lib/" + rest, "packages/contracts" + rest, "packages/clients" + rest, "services/" + rest;
    assert lib[13..] == rest && "packages/lib/http"[13..] == "http" && "packages/lib/auth"[13..] == "auth";
    assert rest == "http" ==> lib == "packages/lib/http";
    assert rest == "auth" ==> lib == "packages/lib/auth";
    assert contracts[9] == 'c' && contracts[10] == 'o' && clients[9] == 'c' && clients[10] == 'l';
    NotPrefix(contracts, "packages/lib/", 9);
    NotPrefix(clients, "packages/lib/", 9);
    NotPrefix(clients, "packages/contracts", 10);
    assert services[..9] == "services/" && services[0] == 's';
    OnlyServices(services);
  }

  /** A link may go down the tiers, and stay in tier 1 or in tier 2. */
  lemma AllowedPairs(from: nat, to: nat)
    ensures to in Allowed(from) <==> 1 <= to <= from <= 5 && (to == from ==> from <= 2)
  {
  }

  /** `services/name` and all below it are one unit. */
  lemma {:induction false} ServiceUnit(name: string, rest: string)
    requires '/' !in name && (rest != "" ==> rest[0] == '/')
    ensures UnitOf("services/" + name + rest) == "services/" + name
  {
    hide BeforeSlash;
    var pkg := "services/" + name + rest;
    assert pkg[..9] == "services/";
    assert forall k :: 9 <= k < 9 + |name| ==> pkg[k] == name[k - 9];
    assert rest != "" ==> pkg[9 + |name|] == rest[0];
    FirstSlash(pkg, 9, 9 + |name|);
    assert pkg[..9 + |name|] == "services/" + name;
  }

  lemma {:induction false} FirstSlash(s: string, i: nat, k: nat)
    requires i <= k <= |s| && (k < |s| ==> s[k] == '/') && forall j :: i <= j < k ==> s[j] != '/'
    ensures BeforeSlash(s, i) == k
    decreases k - i
  {
    if i < k {
      FirstSlash(s, i + 1, k);
    }
  }

  /** A link from one package to another; its recorded tier is that of the dependency. */
  datatype Edge = Edge(package: string, dependency: string)

  predicate Deferred(e: Edge) {
    TierOf(e.package).None? || TierOf(e.dependency).None?
  }

  predicate Forbidden(e: Edge) {
    && !Deferred(e) && UnitOf(e.package) != UnitOf(e.dependency)
    && TierOf(e.dependency).value !in Allowed(TierOf(e.package).value)
  }

  /** A link between two units is forbidden when it goes up, or stays in a tier above 2. */
  lemma ForbiddenIff(e: Edge)
    ensures
      Forbidden(e) <==>
        && TierOf(e.package).Some? && TierOf(e.dependency).Some? && UnitOf(e.package) != UnitOf(e.dependency)
        && (|| TierOf(e.dependency).value > TierOf(e.package).value
            || TierOf(e.dependency).value == TierOf(e.package).value > 2)
  {
    hide UnitOf, StartsWith;
  }

  /** The unit graph has an edge exactly where some link crosses from one unit to another. */
  ghost predicate IsUnitGraph(g: Graph, edges: seq<Edge>) {
    && (forall u, v :: v in Peers(g, u) ==> exists e :: Crosses(edges, e, u, v))
    && (forall k :: 0 <= k < |edges| ==>
          (|| UnitOf(edges[k].package) == UnitOf(edges[k].dependency)
           || UnitOf(edges[k].dependency) in Peers(g, UnitOf(edges[k].package))))
  }

  ghost predicate Crosses(edges: seq<Edge>, e: Edge, u: Unit, v: Unit) {
    e in edges && UnitOf(e.package) == u && UnitOf(e.dependency) == v && u != v
  }

  /** The two loops of `main` over the edges. */
  method Classify(edges: seq<Edge>) returns (forbidden: seq<Edge>, deferred: seq<Edge>, g: Graph)
    ensures forall e :: e in forbidden <==> e in edges && Forbidden(e)
    ensures forall e :: e in deferred <==> e in edges && Deferred(e)
    ensures IsUnitGraph(g, edges)
  {
    hide TierOf, UnitOf, Allowed;
    forbidden, deferred := [], [];
    for i := 0 to |edges|
      invariant forall e :: e in forbidden <==> e in edges[..i] && Forbidden(e)
      invariant forall e :: e in deferred <==> e in edges[..i] && Deferred(e)
    {
      var e := edges[i];
      assert edges[..i + 1] == edges[..i] + [e];
      var linker, dependency := TierOf(e.package), TierOf(e.dependency);
      if linker.None? || dependency.None? {
        deferred := deferred + [e];
      } else if UnitOf(e.package) != UnitOf(e.dependency) && dependency.value !in Allowed(linker.value) {
        forbidden := forbidden + [e];
      }
    }
    assert edges[..|edges|] == edges;
    g := UnitGraph(edges);
  }

  method UnitGraph(edges: seq<Edge>) returns (g: Graph)
    ensures IsUnitGraph(g, edges)
  {
    hide UnitOf;
    g := map[];
    for i := 0 to |edges|
      invariant IsUnitGraph(g, edges[..i])
    {
      var e := edges[i];
      var one, other := UnitOf(e.package), UnitOf(e.dependency);
      ghost var before, g0 := edges[..i], g;
      assert edges[..i + 1] == before + [e];
      if one != other {
        g := g[one := Peers(g, one) + {other}];
      }
      Grows(g0, before, e, g);
    }
    assert edges[..|edges|] == edges;
  }

  lemma Grows(g0: Graph, before: seq<Edge>, e: Edge, g: Graph)
    requires IsUnitGraph(g0, before)
    requires
      var one, other := UnitOf(e.package), UnitOf(e.dependency);
      g == if one != other then g0[one := Peers(g0, one) + {other}] else g0
    ensures IsUnitGraph(g, before + [e])
  {
    hide UnitOf;
    var edges, one, other := before + [e], UnitOf(e.package), UnitOf(e.dependency);
    forall u, v | v in Peers(g, u)
      ensures exists f :: Crosses(edges, f, u, v)
    {
      if v in Peers(g0, u) {
        var f :| Crosses(before, f, u, v);
        assert Crosses(edges, f, u, v);
      } else {
        assert Crosses(edges, e, u, v);
      }
    }
    forall k | 0 <= k < |edges|
      ensures UnitOf(edges[k].package) == UnitOf(edges[k].dependency)
           || UnitOf(edges[k].dependency) in Peers(g, UnitOf(edges[k].package))
    {
      if k < |before| {
        assert edges[k] == before[k];
      }
    }
  }

  // ----- tiers along the unit graph -----

  /** A package and its unit are in the same tier. */
  lemma UnitTier(pkg: string)
    ensures TierOf(UnitOf(pkg)) == TierOf(pkg)
  {
    if StartsWith(pkg, "services/") {
      var u := UnitOf(pkg);
      assert u[..9] == pkg[..9] == "services/";
      assert pkg[0] == pkg[..9][0] == 's' && u[0] == 's';
      OnlyServices(pkg);
      OnlyServices(u);
    }
  }

  lemma OnlyServices(pkg: string)
    requires StartsWith(pkg, "services/") && pkg[0] == 's'
    ensures TierOf(pkg) == Some(5)
  {
    NotPrefix(pkg, "packages/lib/", 0);
    NotPrefix(pkg, "packages/contracts", 0);
    NotPrefix(pkg, "packages/clients", 0);
  }

  /** Every unit edge goes down the tiers, or stays in tier 1 or in tier 2. */
  ghost predicate GoesDown(u: Unit, v: Unit) {
    && TierOf(u).Some? && TierOf(v).Some? && TierOf(v).value <= TierOf(u).value
    && (TierOf(v) == TierOf(u) ==> TierOf(u).value == 1 || TierOf(u).value == 2)
  }

  lemma AllowedGoesDown(edges: seq<Edge>, g: Graph, u: Unit, v: Unit)
    requires IsUnitGraph(g, edges) && v in Peers(g, u)
    requires forall e :: e in edges ==> !Deferred(e) && !Forbidden(e)
    ensures GoesDown(u, v)
  {
    hide TierOf, UnitOf;
    var e :| Crosses(edges, e, u, v);
    UnitTier(e.package);
    UnitTier(e.dependency);
  }

  lemma {:induction false} WalkTiers(g: Graph, w: seq<Unit>, i: nat, j: nat)
    requires IsWalk(g, w) && i <= j < |w|
    requires forall u, v :: v in Peers(g, u) ==> GoesDown(u, v)
    requires TierOf(w[i]).Some?
    ensures TierOf(w[j]).Some? && TierOf(w[j]).value <= TierOf(w[i]).value
    decreases j - i
  {
    hide TierOf;
    if i < j {
      assert w[i + 1] in Peers(g, w[i]);
      assert GoesDown(w[i], w[i + 1]);
      WalkTiers(g, w, i + 1, j);
    }
  }

  /** All the units of `w` are in one tier, and that tier is 1 or 2. */
  ghost predicate InOneLowTier(w: seq<Unit>) {
    exists t :: (t == 1 || t == 2) && forall i :: 0 <= i < |w| ==> TierOf(w[i]) == Some(t)
  }

  /** Once no edge is forbidden or deferred, a closed walk stays in tier 1 or stays in tier 2. */
  lemma ClosedWalkTier(edges: seq<Edge>, g: Graph, w: seq<Unit>)
    requires IsUnitGraph(g, edges) && IsClosed(g, w)
    requires forall e :: e in edges ==> !Deferred(e) && !Forbidden(e)
    ensures InOneLowTier(w)
  {
    hide TierOf, UnitOf, Forbidden, Deferred, IsUnitGraph;
    forall u, v | v in Peers(g, u)
      ensures GoesDown(u, v)
    {
      AllowedGoesDown(edges, g, u, v);
    }
    assert w[0 + 1] in Peers(g, w[0]);
    assert GoesDown(w[0], w[1]);
    var n, t := |w| - 1, TierOf(w[0]).value;
    forall i | 0 <= i <= n
      ensures TierOf(w[i]) == Some(t)
    {
      WalkTiers(g, w, 0, i);
      WalkTiers(g, w, i, n);
    }
    assert TierOf(w[1]) == TierOf(w[0]);
  }

  /** `main` up to its verdict. */
  method CheckDeps(edges: seq<Edge>) returns (forbidden: seq<Edge>, deferred: seq<Edge>, cycles: seq<seq<Unit>>, ghost g: Graph)
    ensures IsUnitGraph(g, edges)
    ensures forall e :: e in forbidden <==> e in edges && Forbidden(e)
    ensures forall e :: e in deferred <==> e in edges && Deferred(e)
    ensures (cycles == [] <==> Acyclic(g)) && Acyclic(Without(g, cycles)) && ClosedOnce(cycles)
    ensures forall k :: 0 <= k < |cycles| ==> IsCycle(g, cycles[k])
    ensures forbidden == [] && deferred == [] ==> forall k :: 0 <= k < |cycles| ==> InOneLowTier(cycles[k])
  {
    hide Forbidden, Deferred, IsUnitGraph, InOneLowTier;
    var graph;
    forbidden, deferred, graph := Classify(edges);
    g := graph;
    cycles := FindCycles(graph);
    if forbidden == [] && deferred == [] {
      forall k | 0 <= k < |cycles|
        ensures InOneLowTier(cycles[k])
      {
        ClosedWalkTier(edges, g, cycles[k]);
      }
    }
  }
}
