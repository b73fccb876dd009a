/** Walks and cycles of a finite graph, and the exhaustive shortest-cycle search. An issue is known by
    its rank in sort-key order. */
module CycleWitness {
  import opened Prelude

  datatype Issue = Issue(rank: int)

  /** Successor lists; an edge is listed only when both ends are nodes. */
  type Graph = map<Issue, seq<Issue>>

  ghost predicate Closed(g: Graph) {
    forall u <- g, v <- g[u] :: v in g
  }

  predicate Edge(g: Graph, u: Issue, v: Issue) {
    u in g && v in g[u]
  }

  ghost predicate Walk(g: Graph, p: seq<Issue>) {
    |p| > 0 && forall i :: 0 <= i < |p| - 1 ==> Edge(g, p[i], p[i + 1])
  }

  /** A walk that returns to where it started. */
  ghost predicate ClosedWalk(g: Graph, p: seq<Issue>) {
    |p| >= 2 && Walk(g, p) && p[0] == p[|p| - 1]
  }

  ghost predicate SimpleCycle(g: Graph, p: seq<Issue>) {
    ClosedWalk(g, p) && Distinct(p[..|p| - 1])
  }

  // ---- The search ----

  /** Every simple cycle that extends `path`, which starts where the cycle must close. */
  method Visit(g: Graph, path: seq<Issue>, seen: set<Issue>) returns (found: seq<seq<Issue>>)
    requires Closed(g) && Walk(g, path) && Distinct(path) && seen == Elems(path) && path[|path| - 1] in g
    requires seen <= g.Keys
    ensures forall c <- found :: SimpleCycle(g, c)
    ensures forall c :: SimpleCycle(g, c) && path < c ==> c in found
    decreases g.Keys - seen
  {
    found := [];
    var node := path[|path| - 1];
    for i := 0 to |g[node]|
      invariant forall c <- found :: SimpleCycle(g, c)
      invariant forall c :: SimpleCycle(g, c) && path < c && c[|path|] in g[node][..i] ==> c in found
    {
      var next := g[node][i];
      var longer := path + [next];
      assert Edge(g, node, next);
      ExtendWalk(g, path, next);
      if next == path[0] {
        assert longer[..|longer| - 1] == path;
        ClosesAtStart(g, path, next);
        found := found + [longer];
      } else if next !in seen {
        assert Elems(longer) == seen + {next};
        var deeper := Visit(g, longer, seen + {next});
        PrefixStep(g, path, next);
        found := found + deeper;
      } else {
        NoRepeat(g, path, next);
      }
      assert g[node][..i + 1] == g[node][..i] + [next];
    }
    assert g[node][..|g[node]|] == g[node];
    StepsAreEdges(g, path);
  }

  lemma ExtendWalk(g: Graph, p: seq<Issue>, v: Issue)
    requires Walk(g, p) && Edge(g, p[|p| - 1], v)
    ensures Walk(g, p + [v])
  {
  }

  lemma ClosesAtStart(g: Graph, path: seq<Issue>, v: Issue)
    requires Walk(g, path) && v == path[0]
    ensures forall c :: SimpleCycle(g, c) && path < c && c[|path|] == v ==> c == path + [v]
  {
    forall c | SimpleCycle(g, c) && path < c && c[|path|] == v
      ensures c == path + [v]
    {
      var core := c[..|c| - 1];
      assert core[0] == path[0] && forall i :: 0 <= i < |core| ==> core[i] == c[i];
    }
  }

  lemma PrefixStep(g: Graph, path: seq<Issue>, v: Issue)
    requires Walk(g, path) && v != path[0]
    ensures forall c :: SimpleCycle(g, c) && path < c && c[|path|] == v ==> path + [v] < c
  {
    forall c | SimpleCycle(g, c) && path < c && c[|path|] == v
      ensures path + [v] < c
    {
      assert c[..|path| + 1] == path + [v];
      assert c[0] == path[0];
    }
  }

  lemma NoRepeat(g: Graph, path: seq<Issue>, v: Issue)
    requires Walk(g, path) && v in path && v != path[0]
    ensures forall c :: SimpleCycle(g, c) && path < c ==> c[|path|] != v
  {
    forall c | SimpleCycle(g, c) && path < c
      ensures c[|path|] != v
    {
      var core := c[..|c| - 1];
      assert core[0] == path[0] && forall i :: 0 <= i < |core| ==> core[i] == c[i];
    }
  }

  lemma StepsAreEdges(g: Graph, path: seq<Issue>)
    requires Walk(g, path)
    requires path[|path| - 1] in g
    ensures forall c :: SimpleCycle(g, c) && path < c ==> c[|path|] in g[path[|path| - 1]]
  {
    forall c | SimpleCycle(g, c) && path < c
      ensures c[|path|] in g[path[|path| - 1]]
    {
      assert Edge(g, c[|path| - 1], c[|path|]);
    }
  }

  // ---- Choosing the witness ----

  /** Lexicographic order on equally long sequences. */
  predicate LexLeq(a: seq<Issue>, b: seq<Issue>)
    requires |a| == |b|
  {
    a == [] || a[0].rank < b[0].rank || (a[0] == b[0] && LexLeq(a[1..], b[1..]))
  }

  predicate Better(a: seq<Issue>, b: seq<Issue>) {
    |a| < |b| || (|a| == |b| && LexLeq(a, b))
  }

  lemma {:induction false} LexTotal(a: seq<Issue>, b: seq<Issue>)
    requires |a| == |b|
    ensures LexLeq(a, b) || LexLeq(b, a)
    ensures LexLeq(a, b) && LexLeq(b, a) ==> a == b
  {
    if a != [] {
      LexTotal(a[1..], b[1..]);
      assert a == [a[0]] + a[1..] && b == [b[0]] + b[1..];
    }
  }

  lemma {:induction false} LexTransitive(a: seq<Issue>, b: seq<Issue>, c: seq<Issue>)
    requires |a| == |b| == |c| && LexLeq(a, b) && LexLeq(b, c)
    ensures LexLeq(a, c)
  {
    if a != [] && a[0] == b[0] == c[0] {
      LexTransitive(a[1..], b[1..], c[1..]);
    }
  }

  lemma BetterOrder(a: seq<Issue>, b: seq<Issue>, c: seq<Issue>)
    ensures Better(a, b) || Better(b, a)
    ensures Better(a, b) && Better(b, a) ==> a == b
    ensures Better(a, b) && Better(b, c) ==> Better(a, c)
  {
    if |a| == |b| {
      LexTotal(a, b);
    }
    if |a| == |b| == |c| && LexLeq(a, b) && LexLeq(b, c) {
      LexTransitive(a, b, c);
    }
  }

  method Smallest(found: seq<seq<Issue>>) returns (best: seq<Issue>)
    requires found != []
    ensures best in found && forall c <- found :: Better(best, c)
  {
    best := found[0];
    BetterOrder(best, best, best);
    for i := 1 to |found|
      invariant best in found && forall c <- found[..i] :: Better(best, c)
    {
      BetterOrder(best, found[i], found[i]);
      if !Better(best, found[i]) {
        forall c | c in found[..i] ensures Better(found[i], c) { BetterOrder(found[i], best, c); }
        best := found[i];
      }
      BetterOrder(best, best, best);
      assert found[..i + 1] == found[..i] + [found[i]];
    }
    assert found[..|found|] == found;
  }

  /** The simple cycle no other beats: what the search must return, fixed by the edges alone. */
  ghost predicate Best(g: Graph, p: seq<Issue>) {
    SimpleCycle(g, p) && forall c :: SimpleCycle(g, c) ==> Better(p, c)
  }

  lemma BestIsUnique(g: Graph, h: Graph, p: seq<Issue>, q: seq<Issue>)
    requires Best(g, p) && Best(h, q) && forall u, v :: Edge(g, u, v) <==> Edge(h, u, v)
    ensures p == q
  {
    assert Walk(h, p) && Walk(g, q);
    BetterOrder(p, q, p);
  }

  /** The cycle p read from its position `k` on. */
  function Rotated(p: seq<Issue>, k: nat): seq<Issue>
    requires k < |p| - 1
  {
    p[k..|p| - 1] + p[..k] + [p[k]]
  }

  lemma RotatedCycle(g: Graph, p: seq<Issue>, k: nat)
    requires SimpleCycle(g, p) && k < |p| - 1
    ensures SimpleCycle(g, Rotated(p, k)) && |Rotated(p, k)| == |p| && Rotated(p, k)[0] == p[k]
  {
    var (r, n) := (Rotated(p, k), |p| - 1);
    forall i | 0 <= i < n
      ensures r[i] == (if i < n - k then p[k + i] else p[k + i - n])
    {
    }
    forall i | 0 <= i < |r| - 1
      ensures Edge(g, r[i], r[i + 1])
    {
      if i < n - k {
        assert Edge(g, p[k + i], p[k + i + 1]);
      } else {
        assert Edge(g, p[k + i - n], p[k + i - n + 1]);
      }
    }
    assert Distinct(r[..n]) by {
      assert forall i :: 0 <= i < n ==> p[..n][i] == p[i];
    }
  }

  /** The best cycle already starts at its least issue. */
  lemma BestStartsLow(g: Graph, p: seq<Issue>)
    requires Best(g, p)
    ensures forall i :: 0 <= i < |p| - 1 ==> p[0].rank <= p[i].rank
  {
    forall i | 0 <= i < |p| - 1
      ensures p[0].rank <= p[i].rank
    {
      RotatedCycle(g, p, i);
      assert Better(p, Rotated(p, i));
    }
  }

  method LeastIndex(p: seq<Issue>) returns (low: nat)
    requires |p| > 0
    ensures low < |p| && (forall i :: 0 <= i < |p| ==> p[low].rank <= p[i].rank) && forall i :: 0 <= i < low ==>
      p[low].rank < p[i].rank
  {
    low := 0;
    for i := 1 to |p|
      invariant low < i && (forall j :: 0 <= j < i ==> p[low].rank <= p[j].rank) && forall j :: 0 <= j < low ==>
        p[low].rank < p[j].rank
    {
      if p[i].rank < p[low].rank {
        low := i;
      }
    }
  }

  /** The witness: None exactly when no walk closes; otherwise a simple cycle no longer than any closed
      walk, starting at its least issue, and the only one the edges allow. */
  method Witness(g: Graph, nodes: seq<Issue>) returns (cycle: Option<seq<Issue>>)
    requires Closed(g) && forall u :: u in nodes <==> u in g
    ensures cycle.None? <==> forall p :: !ClosedWalk(g, p)
    ensures cycle.Some? ==>
      && Best(g, cycle.value)
      && (forall p :: ClosedWalk(g, p) ==> |cycle.value| <= |p|)
      && (forall i :: 0 <= i < |cycle.value| ==> cycle.value[0].rank <= cycle.value[i].rank)
  {
    var found: seq<seq<Issue>> := [];
    for i := 0 to |nodes|
      invariant forall c <- found :: SimpleCycle(g, c)
      invariant forall c :: SimpleCycle(g, c) && c[0] in nodes[..i] ==> c in found
    {
      var start := nodes[i];
      var more := Visit(g, [start], {start});
      forall c | SimpleCycle(g, c) && c[0] == start
        ensures c in more
      {
        assert [start] < c;
      }
      assert nodes[..i + 1] == nodes[..i] + [start];
      found := found + more;
    }
    forall c | SimpleCycle(g, c)
      ensures c in found
    {
      assert Edge(g, c[0], c[1]);
      assert nodes[..|nodes|] == nodes;
    }
    if found == [] {
      forall p ensures !ClosedWalk(g, p) { if ClosedWalk(g, p) { var c := Shortcut(g, p); } }
      return None;
    }
    var best := Smallest(found);
    forall p | ClosedWalk(g, p)
      ensures |best| <= |p|
    {
      var c := Shortcut(g, p);
      assert Better(best, c);
    }
    BestStartsLow(g, best);
    var core := best[..|best| - 1];
    var low := LeastIndex(core);
    assert low == 0;
    var rotated := core[low..] + core[..low];
    assert rotated + [rotated[0]] == best;
    return Some(rotated + [rotated[0]]);
  }

  /** Every closed walk contains a simple cycle no longer than itself. */
  lemma {:induction false} Shortcut(g: Graph, p: seq<Issue>) returns (c: seq<Issue>)
    requires ClosedWalk(g, p)
    ensures SimpleCycle(g, c) && |c| <= |p|
    decreases |p|
  {
    c := p;
    var core := p[..|p| - 1];
    if !Distinct(core) {
      var i, j :| 0 <= i < j < |core| && core[i] == core[j];
      var loop := p[i..j + 1];
      assert forall k :: 0 <= k < |loop| ==> loop[k] == p[i + k];
      forall k | 0 <= k < |loop| - 1 ensures Edge(g, loop[k], loop[k + 1]) { assert Edge(g, p[i + k], p[i + k + 1]); }
      c := Shortcut(g, loop);
    }
  }
}
