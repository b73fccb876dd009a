/** What the waves promise a launcher, for every graph. */
module WaveTheorems {
  import opened Prelude
  import opened CycleWitness
  import opened Launchability
  import opened Waves

  lemma {:induction false} PlacedWhere(waves: seq<seq<Issue>>, x: Issue)
    ensures x in Placed(waves) <==> exists j :: 0 <= j < |waves| && x in waves[j]
  {
    if x in Placed(waves) {
      var w :| w in waves && x in w;
      var j :| 0 <= j < |waves| && waves[j] == w;
    }
  }

  lemma EarlierIsPlaced(waves: seq<seq<Issue>>, i: nat, j: nat, x: Issue)
    requires i < j <= |waves| && x in waves[i]
    ensures x in Placed(waves[..j])
  {
    assert waves[..j][i] == waves[i];
  }

  lemma WaveIsFresh(launchable: set<Issue>, e: Edges, waves: seq<seq<Issue>>, k: nat, x: Issue)
    requires KahnWaves(launchable, e, waves) && k < |waves| && x in waves[k]
    ensures x !in Placed(waves[..k]) && x in launchable && Distinct(waves[k])
  {
    assert x in Elems(waves[k]);
  }

  /** No issue appears twice, in one wave or in two. */
  lemma AtMostOnce(launchable: set<Issue>, e: Edges, waves: seq<seq<Issue>>, i: nat, j: nat, x: Issue)
    requires KahnWaves(launchable, e, waves) && i < |waves| && j < |waves| && x in waves[i] && x in waves[j]
    ensures i == j && Distinct(waves[i]) && x in launchable
  {
    hide KahnWaves, Placed;
    var (low, high) := if i < j then (i, j) else (j, i);
    if low < high {
      EarlierIsPlaced(waves, low, high, x);
    }
    WaveIsFresh(launchable, e, waves, high, x);
  }

  /** Every unfinished prerequisite of an issue in wave k lies in a strictly earlier wave. */
  lemma PrerequisitesEarlier(launchable: set<Issue>, e: Edges, waves: seq<seq<Issue>>, k: nat, u: Issue, v: Issue)
    returns (j: nat)
    requires KahnWaves(launchable, e, waves) && k < |waves| && v in waves[k] && (u, v) in e
    ensures j < k && u in waves[j]
  {
    assert v in Elems(waves[k]);
    assert u in Placed(waves[..k]);
    PlacedWhere(waves[..k], u);
    j :| 0 <= j < k && u in waves[..k][j];
  }

  /** And an issue in wave k > 0 could not have come sooner: something in wave k - 1 held it back. */
  lemma AsEarlyAsPossible(launchable: set<Issue>, e: Edges, waves: seq<seq<Issue>>, k: nat, v: Issue)
    returns (u: Issue)
    requires KahnWaves(launchable, e, waves) && 0 < k < |waves| && v in waves[k]
    ensures (u, v) in e && u in waves[k - 1]
  {
    var before := waves[..k - 1];
    assert waves[..k] == before + [waves[k - 1]];
    PlacedAppend(before, waves[k - 1]);
    assert v in Elems(waves[k]) && v !in Elems(waves[k - 1]);
    assert v !in Ready(launchable, e, Placed(before));
    var p :| p in e && p.1 == v && p.0 !in Placed(before);
    u := p.0;
    assert p == (u, v) && u in Placed(waves[..k]);
  }

  /** A launchable issue in no wave waits on another launchable issue in no wave. */
  lemma LeftOutWaitsOnLeftOut(ids: set<Issue>, e: Edges, nonLaunchable: set<Issue>, waves: seq<seq<Issue>>, v: Issue)
    returns (u: Issue)
    requires KahnWaves(ids - nonLaunchable, e, waves) && v in ids - nonLaunchable && v !in Placed(waves)
    requires forall p <- e :: p.0 in ids && (p.0 in nonLaunchable ==> p.1 in nonLaunchable)
    ensures (u, v) in e && u in ids - nonLaunchable && u !in Placed(waves)
  {
    assert v !in Ready(ids - nonLaunchable, e, Placed(waves));
    var p :| p in e && p.1 == v && p.0 !in Placed(waves);
    u := p.0;
    assert p == (u, v);
  }

  ghost predicate HasPredecessor(g: Graph, s: set<Issue>, v: Issue) {
    exists u <- s :: Edge(g, u, v)
  }

  ghost predicate EachHasPredecessor(g: Graph, s: set<Issue>) {
    forall v {:trigger HasPredecessor(g, s, v)} :: v in s ==> HasPredecessor(g, s, v)
  }

  lemma PrependWalk(g: Graph, u: Issue, p: seq<Issue>)
    requires p != [] && Walk(g, p) && Edge(g, u, p[0])
    ensures Walk(g, [u] + p)
    ensures forall k :: 0 <= k < |p| && p[k] == u ==> ClosedWalk(g, ([u] + p)[..k + 2])
  {
    forall i | 0 <= i < |p| ensures Edge(g, ([u] + p)[i], ([u] + p)[i + 1]) {
      assert i > 0 ==> Edge(g, p[i - 1], p[i]);
    }
  }

  lemma PrependDistinct(u: Issue, p: seq<Issue>, s: set<Issue>)
    requires Distinct(p) && Elems(p) <= s && u in s && u !in p
    ensures Distinct([u] + p) && Elems([u] + p) <= s && |p| + 1 <= |s|
  {
    assert Elems([u] + p) == Elems(p) + {u};
    DistinctSize([u] + p);
    SubsetSize(Elems([u] + p), s);
  }

  lemma Predecessor(g: Graph, s: set<Issue>, p: seq<Issue>) returns (u: Issue)
    requires EachHasPredecessor(g, s) && p != [] && Elems(p) <= s
    ensures u in s && Edge(g, u, p[0])
  {
    assert p[0] in Elems(p) && HasPredecessor(g, s, p[0]);
    u :| u in s && Edge(g, u, p[0]);
  }

  /** Following predecessors inside a finite set must close a walk. */
  lemma {:induction false} PredecessorsClose(g: Graph, s: set<Issue>, p: seq<Issue>) returns (c: seq<Issue>)
    requires EachHasPredecessor(g, s) && p != [] && Walk(g, p) && Distinct(p) && Elems(p) <= s
    ensures ClosedWalk(g, c)
    decreases |s| - |p|
  {
    hide EachHasPredecessor, Walk, ClosedWalk, Edge, Distinct, Elems;
    var u := Predecessor(g, s, p);
    PrependWalk(g, u, p);
    if u in p {
      var k :| 0 <= k < |p| && p[k] == u;
      c := ([u] + p)[..k + 2];
    } else {
      PrependDistinct(u, p, s);
      c := PredecessorsClose(g, s, [u] + p);
    }
  }

  /** With no prerequisite cycle the waves are a partition of the launchable issues. */
  lemma WavesPartition(ids: set<Issue>, g: Graph, e: Edges, nonLaunchable: set<Issue>, waves: seq<seq<Issue>>)
    requires KahnWaves(ids - nonLaunchable, e, waves)
    requires forall p <- e :: p.0 in ids && (p.0 in nonLaunchable ==> p.1 in nonLaunchable)
    requires forall p <- e :: p.0 !in nonLaunchable && p.1 in ids - nonLaunchable ==> Edge(g, p.0, p.1)
    requires forall p :: !ClosedWalk(g, p)
    ensures Placed(waves) == ids - nonLaunchable
  {
    hide KahnWaves, ClosedWalk, Edge, Placed;
    var left := ids - nonLaunchable - Placed(waves);
    forall v | v in left
      ensures HasPredecessor(g, left, v)
    {
      var u := LeftOutWaitsOnLeftOut(ids, e, nonLaunchable, waves, v);
      assert (u, v).0 == u;
    }
    AcyclicHasSource(g, left);
    forall x | x in ids - nonLaunchable ensures x in Placed(waves) { assert x !in left; }
    forall x | x in Placed(waves) ensures x in ids - nonLaunchable { PlacedIsLaunchable(ids - nonLaunchable, e,
      waves, x); }
  }

  lemma AcyclicHasSource(g: Graph, s: set<Issue>)
    requires EachHasPredecessor(g, s) && forall p :: !ClosedWalk(g, p)
    ensures s == {}
  {
    hide EachHasPredecessor, ClosedWalk, Edge;
    if s != {} {
      var v :| v in s;
      assert Walk(g, [v]) && Distinct([v]) && Elems([v]) <= s;
      var c := PredecessorsClose(g, s, [v]);
      assert false;
    }
  }

  /** Along a walk over unfinished edges the wave number only grows. */
  lemma {:induction false} WavesGrow(launchable: set<Issue>, e: Edges, waves: seq<seq<Issue>>, g: Graph,
                                     p: seq<Issue>, m: nat)
    returns (k: nat)
    requires KahnWaves(launchable, e, waves) && Walk(g, p) && |p| >= 2
    requires forall u, v :: Edge(g, u, v) ==> (u, v) in e
    requires m < |waves| && p[|p| - 1] in waves[m]
    ensures k < m && p[0] in waves[k]
    decreases |p|
  {
    hide KahnWaves;
    var n := |p| - 1;
    assert Edge(g, p[n - 1], p[n]);
    k := PrerequisitesEarlier(launchable, e, waves, m, p[n - 1], p[n]);
    if n > 1 {
      var shorter := p[..n];
      forall i | 0 <= i < |shorter| - 1 ensures Edge(g, shorter[i], shorter[i + 1]) { assert Edge(g, p[i], p[i + 1]); }
      k := WavesGrow(launchable, e, waves, g, shorter, k);
    }
  }

  /** The waves partition the launchable issues exactly when the unfinished prerequisites among them
      form no cycle: `g` holds just those edges. */
  lemma PartitionExactly(ids: set<Issue>, g: Graph, e: Edges, nonLaunchable: set<Issue>, waves: seq<seq<Issue>>)
    requires KahnWaves(ids - nonLaunchable, e, waves)
    requires forall p <- e :: p.0 in ids && (p.0 in nonLaunchable ==> p.1 in nonLaunchable)
    requires forall u, v :: Edge(g, u, v) <==> (u, v) in e && u in ids - nonLaunchable && v in ids - nonLaunchable
    ensures Placed(waves) == ids - nonLaunchable <==> forall p :: !ClosedWalk(g, p)
  {
    hide KahnWaves, Placed, Edge;
    if forall p :: !ClosedWalk(g, p) {
      forall p | p in e && p.0 !in nonLaunchable && p.1 in ids - nonLaunchable ensures Edge(g, p.0, p.1) {
        assert p == (p.0, p.1);
      }
      WavesPartition(ids, g, e, nonLaunchable, waves);
    } else if Placed(waves) == ids - nonLaunchable {
      var p :| ClosedWalk(g, p);
      assert Edge(g, p[0], p[1]);
      assert p[|p| - 1] in Placed(waves);
      PlacedWhere(waves, p[|p| - 1]);
      var m :| 0 <= m < |waves| && p[|p| - 1] in waves[m];
      var k := WavesGrow(ids - nonLaunchable, e, waves, g, p, m);
      AtMostOnce(ids - nonLaunchable, e, waves, k, m, p[0]);
      assert false;
    }
  }

  lemma PlacedIsLaunchable(launchable: set<Issue>, e: Edges, waves: seq<seq<Issue>>, x: Issue)
    requires KahnWaves(launchable, e, waves) && x in Placed(waves)
    ensures x in launchable
  {
    PlacedWhere(waves, x);
    var j :| 0 <= j < |waves| && x in waves[j];
    assert x in Elems(waves[j]);
  }

  /** The two relation checks of preflight: no fatal drift, no unsatisfied prerequisite. */
  predicate RelationsAllow(edges: Edges, satisfied: set<Issue>, nonLaunchable: set<Issue>, x: Issue) {
    x !in nonLaunchable && !exists p <- edges :: p.1 == x && p.0 !in satisfied
  }

  /** Wave 0 is exactly what preflight lets through on its relations. */
  lemma FirstWaveIsPreflight(ids: set<Issue>, edges: Edges, satisfied: set<Issue>, nonLaunchable: set<Issue>,
                             waves: seq<seq<Issue>>)
    requires KahnWaves(ids - nonLaunchable, Unfinished(edges, satisfied), waves)
    ensures (set x | x in ids && RelationsAllow(edges, satisfied, nonLaunchable, x)) ==
      if waves == [] then {} else Elems(waves[0])
  {
    var e := Unfinished(edges, satisfied);
    forall x | x in ids
      ensures RelationsAllow(edges, satisfied, nonLaunchable, x) <==> x in Ready(ids - nonLaunchable, e, {})
    {
      if x !in nonLaunchable && !RelationsAllow(edges, satisfied, nonLaunchable, x) {
        var p :| p in edges && p.1 == x && p.0 !in satisfied;
        assert p == (p.0, p.1) && p in e;
      }
      if p :| p in e && p.1 == x {
        assert p == (p.0, p.1) && p in edges;
      }
    }
    assert Placed([]) == {};
    if waves != [] {
      assert waves[..0] == [];
    }
  }

  method PrerequisiteEdges(ids: set<Issue>, relations: seq<Relation>) returns (edges: Edges)
    requires Declared(ids, relations)
    ensures forall u, v :: (u, v) in edges <==>
      Relation(Prerequisite, u, v) in relations && u != v && u in ids && v in ids
    ensures forall i :: 0 <= i < |edges| ==> edges[i].0 in ids && edges[i].1 in ids
  {
    edges := [];
    for i := 0 to |relations|
      invariant forall u, v :: (u, v) in edges <==>
        Relation(Prerequisite, u, v) in relations[..i] && !Rejected(ids, Relation(Prerequisite, u, v))
      invariant forall i :: 0 <= i < |edges| ==> edges[i].0 in ids && edges[i].1 in ids
    {
      var r := relations[i];
      assert r in relations && relations[..i + 1] == relations[..i] + [r];
      if r.kind.Prerequisite? && !Rejected(ids, r) {
        edges := edges + [(r.source, r.target)];
      }
    }
    assert relations[..|relations|] == relations;
  }

  /** From parsed relations to waves: when no prerequisite cycle is reported, every launchable issue
      has its place. */
  method Plan(ids: seq<Issue>, relations: seq<Relation>, textFatal: seq<Issue>, satisfied: set<Issue>)
    returns (d: Derived, waves: seq<seq<Issue>>)
    requires Declared(Elems(ids), relations)
    ensures d.prerequisiteCycle.None? ==> Placed(waves) == Elems(ids) - d.nonLaunchable
    ensures forall v :: v in d.nonLaunchable <==>
      exists u :: Fatal(Elems(ids), relations, textFatal, d, u) && Reaches(d.prerequisites, u, v)
    ensures forall i, j, u, v |
      0 <= i < |waves| && 0 <= j < |waves| && u in waves[i] && v in waves[j]
      && Edge(d.prerequisites, u, v) && u !in satisfied :: i < j
  {
    d := DeriveGraph(ids, relations, textFatal);
    var issues := set x | x in ids;
    var edges := PrerequisiteEdges(issues, relations);
    waves := TopologicalWaves(issues, edges, satisfied, d.nonLaunchable);
    ghost var e := Unfinished(edges, satisfied);
    hide KahnWaves, Placed, Reaches, Fatal, Unfinished;
    forall p | p in e
      ensures p.0 in issues && Edge(d.prerequisites, p.0, p.1)
      ensures p.0 in d.nonLaunchable ==> p.1 in d.nonLaunchable
    {
      assert p == (p.0, p.1) && p in edges;
      assert Edge(d.prerequisites, p.0, p.1);
      if p.0 in d.nonLaunchable {
        var s :| Fatal(issues, relations, textFatal, d, s) && Reaches(d.prerequisites, s, p.0);
        ReachesStep(d.prerequisites, s, p.0, p.1);
      }
    }
    if d.prerequisiteCycle.None? {
      WavesPartition(issues, d.prerequisites, e, d.nonLaunchable, waves);
    }
    forall i, j, u, v | 0 <= i < |waves| && 0 <= j < |waves| && u in waves[i] && v in waves[j]
      && Edge(d.prerequisites, u, v) && u !in satisfied
      ensures i < j
    {
      assert (u, v) in edges && (u, v) in e;
      var k := PrerequisitesEarlier(issues - d.nonLaunchable, e, waves, j, u, v);
      AtMostOnce(issues - d.nonLaunchable, e, waves, k, i, u);
    }
  }
}
