/** Which issues may be launched: the edges that survive validation, the fatal issues among their
    owners, and everything that waits on one of them. */
module Launchability {
  import opened Prelude
  import opened CycleWitness

  datatype Kind = Containment | Prerequisite

  /** A parsed relation: child -> parent for containment, prerequisite -> blocked for prerequisites. */
  datatype Relation = Relation(kind: Kind, source: Issue, target: Issue)

  /** The issue that declared the relation, and the one it names. */
  function Owner(r: Relation): Issue {
    if r.kind.Containment? then r.source else r.target
  }

  function Named(r: Relation): Issue {
    if r.kind.Containment? then r.target else r.source
  }

  predicate Rejected(issues: set<Issue>, r: Relation) {
    r.source == r.target || Named(r) !in issues
  }

  ghost predicate Declared(issues: set<Issue>, relations: seq<Relation>) {
    forall r <- relations :: Owner(r) in issues
  }

  /** `v` waits, directly or not, on `u`. */
  ghost predicate Reaches(g: Graph, u: Issue, v: Issue) {
    exists p :: Walk(g, p) && p[0] == u && p[|p| - 1] == v
  }

  // ---- The worklist closure ----

  lemma ReachesSelf(g: Graph, u: Issue)
    ensures Reaches(g, u, u)
  {
    assert Walk(g, [u]) && [u][0] == u;
  }

  lemma ReachesStep(g: Graph, u: Issue, v: Issue, w: Issue)
    requires Reaches(g, u, v) && Edge(g, v, w)
    ensures Reaches(g, u, w)
  {
    var p :| Walk(g, p) && p[0] == u && p[|p| - 1] == v;
    ExtendWalk(g, p, w);
    assert (p + [w])[0] == u;
  }

  lemma {:induction false} ClosedUnderWalk(g: Graph, s: set<Issue>, p: seq<Issue>)
    requires Walk(g, p) && p[0] in s && forall u, v :: u in s && Edge(g, u, v) ==> v in s
    ensures p[|p| - 1] in s
    decreases |p|
  {
    if |p| > 1 {
      assert Edge(g, p[0], p[1]);
      forall i | 0 <= i < |p[1..]| - 1 ensures Edge(g, p[1..][i], p[1..][i + 1]) { assert Edge(g, p[i + 1], p[i + 2]); }
      ClosedUnderWalk(g, s, p[1..]);
    }
  }

  /** Marks the unmarked issues of `next` and queues them. */
  method MarkAll(next: seq<Issue>, fatal: set<Issue>, queue: seq<Issue>) returns (marked: set<Issue>, todo: seq<Issue>)
    ensures marked == fatal + Elems(next)
    ensures forall x :: x in todo <==> x in queue || (x in next && x !in fatal)
    ensures marked == fatal ==> todo == queue
  {
    marked, todo := fatal, queue;
    assert queue + [] == queue;
    for i := 0 to |next|
      invariant forall x :: x in marked <==> x in fatal || x in next[..i]
      invariant forall x :: x in todo <==> x in queue || (x in next[..i] && x !in fatal)
      invariant fatal <= marked && (marked == fatal ==> todo == queue)
    {
      assert next[..i + 1] == next[..i] + [next[i]];
      if next[i] !in marked {
        assert next[i] !in fatal;
        marked := marked + {next[i]};
        assert next[i] in marked;
        todo := todo + [next[i]];
      }
    }
    assert next[..|next|] == next;
  }

  ghost predicate AllReached(g: Graph, seeds: seq<Issue>, s: set<Issue>) {
    forall v <- s :: exists u <- seeds :: Reaches(g, u, v)
  }

  lemma MarkingReaches(g: Graph, seeds: seq<Issue>, fatal: set<Issue>, node: Issue, next: seq<Issue>)
    requires AllReached(g, seeds, fatal) && node in fatal && forall v <- next :: Edge(g, node, v)
    ensures AllReached(g, seeds, fatal + Elems(next))
  {
    forall v | v in fatal + Elems(next)
      ensures exists u <- seeds :: Reaches(g, u, v)
    {
      if v !in fatal {
        var u :| u in seeds && Reaches(g, u, node);
        ReachesStep(g, u, node, v);
      }
    }
  }

  /** Everything an already visited issue leads to is marked. */
  ghost predicate Explored(g: Graph, fatal: set<Issue>, queue: seq<Issue>) {
    forall u, v :: u in fatal && u !in queue && Edge(g, u, v) ==> v in fatal
  }

  lemma ExploredStep(g: Graph, fatal: set<Issue>, rest: seq<Issue>, node: Issue, next: seq<Issue>,
                     marked: set<Issue>, todo: seq<Issue>)
    requires Explored(g, fatal, rest + [node]) && node in fatal
    requires forall v :: v in next <==> Edge(g, node, v)
    requires marked == fatal + Elems(next)
    requires forall x :: x in todo <==> x in rest || (x in next && x !in fatal)
    ensures Explored(g, marked, todo)
  {
  }

  /** The closure's loop invariant. */
  ghost predicate Frontier(g: Graph, seeds: seq<Issue>, fatal: set<Issue>, queue: seq<Issue>) {
    && Elems(seeds) <= fatal <= Elems(seeds) + g.Keys && Elems(queue) <= fatal
    && AllReached(g, seeds, fatal) && Explored(g, fatal, queue)
  }

  ghost function Unmarked(g: Graph, seeds: seq<Issue>, fatal: set<Issue>): nat {
    |Elems(seeds) + g.Keys - fatal|
  }

  lemma MarkedInside(g: Graph, seeds: seq<Issue>, fatal: set<Issue>, rest: seq<Issue>, next: seq<Issue>,
                     todo: seq<Issue>)
    requires Elems(seeds) <= fatal <= Elems(seeds) + g.Keys && Elems(rest) <= fatal
    requires forall v <- next :: v in g
    requires forall x :: x in todo <==> x in rest || (x in next && x !in fatal)
    ensures var marked := fatal + Elems(next);
      && Elems(seeds) <= marked <= Elems(seeds) + g.Keys && Elems(todo) <= marked
      && (Unmarked(g, seeds, marked) < Unmarked(g, seeds, fatal) || marked == fatal)
  {
    var marked := fatal + Elems(next);
    forall x | x in todo ensures x in marked { assert x in rest ==> x in Elems(rest); }
    var (a, b) := (Elems(seeds) + g.Keys - fatal, Elems(seeds) + g.Keys - marked);
    SubsetSize(b, a);
    if marked != fatal {
      var x :| x in marked && x !in fatal;
      assert x in a && x !in b;
    }
  }

  lemma FrontierStep(g: Graph, seeds: seq<Issue>, fatal: set<Issue>, rest: seq<Issue>, node: Issue, next: seq<Issue>,
                     todo: seq<Issue>)
    requires Closed(g) && Frontier(g, seeds, fatal, rest + [node])
    requires next == if node in g then g[node] else []
    requires forall x :: x in todo <==> x in rest || (x in next && x !in fatal)
    ensures var marked := fatal + Elems(next);
      Frontier(g, seeds, marked, todo) && (Unmarked(g, seeds, marked) < Unmarked(g, seeds, fatal) || marked == fatal)
  {
    hide Reaches, Edge, Explored, AllReached, Unmarked;
    assert node in Elems(rest + [node]) &&
      Elems(rest) <= Elems(rest + [node]) by { assert (rest + [node])[|rest|] == node; }
    assert forall v <- next :: v in g;
    MarkedInside(g, seeds, fatal, rest, next, todo);
    hide Closed, Elems;
    NextIsEdges(g, node, next);
    MarkingReaches(g, seeds, fatal, node, next);
    ExploredStep(g, fatal, rest, node, next, fatal + Elems(next), todo);
  }

  /** Exactly the issues reachable from a seed. */
  method Closure(g: Graph, seeds: seq<Issue>) returns (fatal: set<Issue>)
    requires Closed(g)
    ensures forall v :: v in fatal <==> exists u <- seeds :: Reaches(g, u, v)
  {
    fatal := set x | x in seeds;
    var queue := seeds;
    SeedsReached(g, seeds);
    hide Frontier, Unmarked, Reaches, Closed;
    while queue != []
      invariant Frontier(g, seeds, fatal, queue)
      decreases Unmarked(g, seeds, fatal), |queue|
    {
      var node := queue[|queue| - 1];
      var rest := queue[..|queue| - 1];
      assert queue == rest + [node];
      var next := if node in g then g[node] else [];
      var marked, todo := MarkAll(next, fatal, rest);
      FrontierStep(g, seeds, fatal, rest, node, next, todo);
      fatal, queue := marked, todo;
    }
    FrontierDone(g, seeds, fatal);
  }

  lemma FrontierDone(g: Graph, seeds: seq<Issue>, fatal: set<Issue>)
    requires Frontier(g, seeds, fatal, [])
    ensures forall v :: v in fatal <==> exists u <- seeds :: Reaches(g, u, v)
  {
    hide Reaches;
    ReachedIsMarked(g, seeds, fatal);
  }

  lemma SeedsReached(g: Graph, seeds: seq<Issue>)
    ensures Frontier(g, seeds, Elems(seeds), seeds)
  {
    forall u | u in seeds ensures Reaches(g, u, u) { ReachesSelf(g, u); }
  }

  lemma NextIsEdges(g: Graph, node: Issue, next: seq<Issue>)
    requires next == if node in g then g[node] else []
    ensures forall v :: v in next <==> Edge(g, node, v)
  {
  }

  lemma ReachedIsMarked(g: Graph, seeds: seq<Issue>, fatal: set<Issue>)
    requires Elems(seeds) <= fatal && Explored(g, fatal, []) && AllReached(g, seeds, fatal)
    ensures forall v :: v in fatal <==> exists u <- seeds :: Reaches(g, u, v)
  {
    forall u, v | u in seeds && Reaches(g, u, v)
      ensures v in fatal
    {
      var p :| Walk(g, p) && p[0] == u && p[|p| - 1] == v;
      ClosedUnderWalk(g, fatal, p);
    }
  }

  // ---- Deriving the graph ----

  ghost predicate EdgesOf(issues: set<Issue>, relations: seq<Relation>, kind: Kind, g: Graph) {
    && g.Keys == issues
    && forall u, v :: Edge(g, u, v) <==> Relation(kind, u, v) in relations && u != v && u in issues && v in issues
  }

  method Adjacency(issues: set<Issue>, relations: seq<Relation>, kind: Kind) returns (g: Graph)
    requires Declared(issues, relations)
    ensures EdgesOf(issues, relations, kind, g) && Closed(g)
  {
    g := map u | u in issues :: [];
    for i := 0 to |relations|
      invariant g.Keys == issues
      invariant forall u, v :: Edge(g, u, v) <==>
        Relation(kind, u, v) in relations[..i] && !Rejected(issues, Relation(kind, u, v))
    {
      var r := relations[i];
      assert r in relations;
      assert relations[..i + 1] == relations[..i] + [r];
      if r.kind == kind && !Rejected(issues, r) {
        g := g[r.source := g[r.source] + [r.target]];
      }
    }
    assert relations[..|relations|] == relations;
    forall u, v | u in g && v in g[u] ensures v in g { assert Edge(g, u, v); }
  }

  /** `x` declared the relation, as a child or as a blocked issue, and it names `x` itself or no known issue. */
  predicate BadFor(issues: set<Issue>, r: Relation, x: Issue) {
    match r.kind
    case Containment => x == r.source && (r.target == x || r.target !in issues)
    case Prerequisite => x == r.target && (r.source == x || r.source !in issues)
  }

  ghost predicate RelationFatal(issues: set<Issue>, relations: seq<Relation>, x: Issue) {
    exists r <- relations :: BadFor(issues, r, x)
  }

  lemma FatalAppend(issues: set<Issue>, relations: seq<Relation>, r: Relation, x: Issue)
    ensures RelationFatal(issues, relations + [r], x) <==>
      RelationFatal(issues, relations, x) || (Rejected(issues, r) && Owner(r) == x)
  {
    assert BadFor(issues, r, x) <==> Rejected(issues, r) && Owner(r) == x;
    hide BadFor;
    assert forall q :: q in relations + [r] <==> q in relations || q == r;
  }

  method RejectedOwners(issues: set<Issue>, relations: seq<Relation>) returns (owners: seq<Issue>)
    ensures forall x :: x in owners <==> RelationFatal(issues, relations, x)
  {
    owners := [];
    for i := 0 to |relations|
      invariant forall x :: x in owners <==> RelationFatal(issues, relations[..i], x)
    {
      assert relations[..i + 1] == relations[..i] + [relations[i]];
      forall x { FatalAppend(issues, relations[..i], relations[i], x); }
      if Rejected(issues, relations[i]) {
        owners := owners + [Owner(relations[i])];
      }
    }
    assert relations[..|relations|] == relations;
  }

  datatype Derived = Derived(prerequisites: Graph, containmentCycle: Option<seq<Issue>>,
                             prerequisiteCycle: Option<seq<Issue>>, nonLaunchable: set<Issue>)

  /** An issue whose own drift is fatal. A containment cycle is reported but is not fatal. */
  ghost predicate Fatal(issues: set<Issue>, relations: seq<Relation>, textFatal: seq<Issue>, d: Derived, x: Issue) {
    || x in textFatal
    || RelationFatal(issues, relations, x)
    || (d.prerequisiteCycle.Some? && x in d.prerequisiteCycle.value)
  }

  /** `textFatal` are the owners of malformed or cross-repository relations. Reported cycles are
      shortest; the non-launchable issues are exactly those reachable from a fatal one. */
  method DeriveGraph(ids: seq<Issue>, relations: seq<Relation>, textFatal: seq<Issue>) returns (d: Derived)
    requires Declared(Elems(ids), relations)
    ensures EdgesOf(Elems(ids), relations, Prerequisite, d.prerequisites) && Closed(d.prerequisites)
    ensures d.prerequisiteCycle.None? <==> forall p :: !ClosedWalk(d.prerequisites, p)
    ensures d.prerequisiteCycle.Some? ==> Best(d.prerequisites, d.prerequisiteCycle.value)
    ensures forall g :: EdgesOf(Elems(ids), relations, Containment, g) ==>
      && (d.containmentCycle.None? <==> forall p :: !ClosedWalk(g, p))
      && (d.containmentCycle.Some? ==> Best(g, d.containmentCycle.value))
    ensures forall v :: v in d.nonLaunchable <==>
      exists u :: Fatal(Elems(ids), relations, textFatal, d, u) && Reaches(d.prerequisites, u, v)
  {
    var issues := set x | x in ids;
    var containment := Adjacency(issues, relations, Containment);
    var prerequisites := Adjacency(issues, relations, Prerequisite);
    var owners := RejectedOwners(issues, relations);
    var inside := Witness(containment, ids);
    var waiting := Witness(prerequisites, ids);
    var seeds := textFatal + owners + (if waiting.Some? then waiting.value[..|waiting.value| - 1] else []);
    var fatal := Closure(prerequisites, seeds);
    d := Derived(prerequisites, inside, waiting, fatal);
    if waiting.Some? {
      var c := waiting.value;
      assert forall x :: x in c <==> x in c[..|c| - 1] by {
        assert c[0] == c[..|c| - 1][0] && c == c[..|c| - 1] + [c[0]];
      }
    }
    assert forall u :: u in seeds <==> Fatal(issues, relations, textFatal, d, u);
    SameCycle(issues, relations, Containment, containment, inside);
  }

  /** A witness found on one listing of the edges is the witness on every other. */
  lemma SameCycle(issues: set<Issue>, relations: seq<Relation>, kind: Kind, h: Graph, cycle: Option<seq<Issue>>)
    requires EdgesOf(issues, relations, kind, h)
    requires (cycle.None? <==> forall p :: !ClosedWalk(h, p)) && (cycle.Some? ==> Best(h, cycle.value))
    ensures forall g :: EdgesOf(issues, relations, kind, g) ==>
      && (cycle.None? <==> forall p :: !ClosedWalk(g, p))
      && (cycle.Some? ==> Best(g, cycle.value))
  {
    forall g | EdgesOf(issues, relations, kind, g)
      ensures (cycle.None? <==> forall p :: !ClosedWalk(g, p)) && (cycle.Some? ==> Best(g, cycle.value))
    {
      forall p
        ensures ClosedWalk(g, p) <==> ClosedWalk(h, p)
      {
        SameWalks(g, h, p);
      }
      hide ClosedWalk, EdgesOf, Better;
    }
  }

  lemma SameWalks(g: Graph, h: Graph, p: seq<Issue>)
    requires forall u, v :: Edge(g, u, v) <==> Edge(h, u, v)
    ensures ClosedWalk(g, p) <==> ClosedWalk(h, p)
  {
    hide Edge;
  }

  /** So an issue that waits on a non-launchable one is itself non-launchable. */
  lemma NonLaunchableSpreads(g: Graph, seeds: set<Issue>, nonLaunchable: set<Issue>, u: Issue, v: Issue)
    requires forall x :: x in nonLaunchable <==> exists s <- seeds :: Reaches(g, s, x)
    requires u in nonLaunchable && Edge(g, u, v)
    ensures v in nonLaunchable
  {
    var s :| s in seeds && Reaches(g, s, u);
    ReachesStep(g, s, u, v);
  }
}
