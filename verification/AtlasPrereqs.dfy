/** The Atlas's prerequisite search: a three-colour depth-first search that reports the stack segment
    of every back edge it meets. The search is given as a function over an edge order and as the
    method that colours in place; the theorems are about the function. */
module AtlasPrereqs {
  import opened AtlasNodes
  import opened Prelude

  type Edges = map<Node, seq<Node>>

  datatype Colour = White | Grey | Black

  datatype Search = Search(colour: map<Node, Colour>, cyclic: set<Node>)

  function ColourOf(s: Search, n: Node): Colour {
    if n in s.colour then s.colour[n] else White
  }

  function Successors(g: Edges, n: Node): seq<Node> {
    if n in g then g[n] else []
  }

  predicate Edge(g: Edges, u: Node, v: Node) {
    u in g && v in g[u]
  }

  ghost predicate Closed(g: Edges, nodes: set<Node>) {
    g.Keys <= nodes && forall u, v :: Edge(g, u, v) ==> v in nodes
  }

  /** Nodes not yet visited. */
  ghost function Unvisited(nodes: set<Node>, s: Search): set<Node> {
    set n | n in nodes && ColourOf(s, n) == White
  }

  /** Visits `u` with `stack` above it. */
  function Visit(g: Edges, ghost nodes: set<Node>, u: Node, stack: seq<Node>, s: Search): (r: Search)
    requires Closed(g, nodes) && u in nodes && ColourOf(s, u) == White
    ensures Unvisited(nodes, r) <= Unvisited(nodes, s) - {u}
    ensures s.cyclic <= r.cyclic && ColourOf(r, u) == Black
    ensures forall n :: ColourOf(s, n) == Black ==> ColourOf(r, n) == Black
    decreases |Unvisited(nodes, s)|, 1, 0
  {
    var entered := s.(colour := s.colour[u := Grey]);
    assert Unvisited(nodes, entered) == Unvisited(nodes, s) - {u};
    assert u in Unvisited(nodes, s);
    assert forall v <- Successors(g, u) :: Edge(g, u, v);
    assert forall n :: ColourOf(s, n) == Black ==> ColourOf(entered, n) == Black;
    var left := VisitAll(g, nodes, Successors(g, u), stack + [u], entered);
    var r := left.(colour := left.colour[u := Black]);
    assert Unvisited(nodes, r) <= Unvisited(nodes, left);
    assert forall n :: ColourOf(left, n) == Black ==> ColourOf(r, n) == Black;
    r
  }

  function VisitAll(g: Edges, ghost nodes: set<Node>, succ: seq<Node>, stack: seq<Node>, s: Search): (r: Search)
    requires Closed(g, nodes) && forall v <- succ :: v in nodes
    ensures Unvisited(nodes, r) <= Unvisited(nodes, s)
    ensures s.cyclic <= r.cyclic
    ensures forall n :: ColourOf(s, n) == Black ==> ColourOf(r, n) == Black
    decreases |Unvisited(nodes, s)|, 2, |succ|
  {
    if succ == [] then s
    else
      var v := succ[0];
      var t :=
        if ColourOf(s, v) == Grey then s.(cyclic := s.cyclic + Elems(From(stack, v)))
        else if ColourOf(s, v) == White then Visit(g, nodes, v, stack, s)
        else s;
      SubsetSize(Unvisited(nodes, t), Unvisited(nodes, s));
      VisitAll(g, nodes, succ[1..], stack, t)
  }

  /** The part of the stack from the first `v` on. */
  function From(stack: seq<Node>, v: Node): seq<Node> {
    if stack == [] then [] else if stack[0] == v then stack else From(stack[1..], v)
  }

  /** The outer loop: every key not reached yet starts a search of its own. */
  function SearchAll(g: Edges, ghost nodes: set<Node>, keys: seq<Node>, s: Search): (r: Search)
    requires Closed(g, nodes) && forall n <- keys :: n in nodes
    ensures s.cyclic <= r.cyclic
    ensures forall n :: ColourOf(s, n) == Black ==> ColourOf(r, n) == Black
  {
    if keys == [] then s
    else
      var t := if ColourOf(s, keys[0]) == White then Visit(g, nodes, keys[0], [], s) else s;
      SearchAll(g, nodes, keys[1..], t)
  }

  // ---- Walks and cycles ----

  ghost predicate Walk(g: Edges, p: seq<Node>) {
    |p| > 0 && forall i :: 0 <= i < |p| - 1 ==> Edge(g, p[i], p[i + 1])
  }

  ghost predicate OnCycle(g: Edges, n: Node) {
    exists p :: Walk(g, p) && |p| >= 2 && p[0] == n && p[|p| - 1] == n
  }

  lemma {:induction false} FromIsSuffix(stack: seq<Node>, v: Node)
    requires v in stack
    ensures exists i :: 0 <= i < |stack| && stack[i] == v && From(stack, v) == stack[i..]
  {
    if stack[0] == v {
      assert stack[0..] == stack;
    } else {
      FromIsSuffix(stack[1..], v);
      var i :| 0 <= i < |stack[1..]| && stack[1..][i] == v && From(stack[1..], v) == stack[1..][i..];
      assert stack[i + 1..] == stack[1..][i..];
      assert stack[i + 1] == v;
    }
  }

  lemma WalkJoin(g: Edges, a: seq<Node>, b: seq<Node>)
    requires Walk(g, a) && Walk(g, b) && Edge(g, a[|a| - 1], b[0])
    ensures Walk(g, a + b)
  {
    forall i | 0 <= i < |a + b| - 1
      ensures Edge(g, (a + b)[i], (a + b)[i + 1])
    {
      assert i >= |a| ==> Edge(g, b[i - |a|], b[i - |a| + 1]);
    }
  }

  lemma WalkPart(g: Edges, p: seq<Node>, i: nat, j: nat)
    requires Walk(g, p) && i < j <= |p|
    ensures Walk(g, p[i..j])
  {
    forall k | 0 <= k < |p[i..j]| - 1
      ensures Edge(g, p[i..j][k], p[i..j][k + 1])
    {
      assert Edge(g, p[i + k], p[i + k + 1]);
    }
  }

  /** A back edge closes every stack node from its target on. */
  lemma BackEdge(g: Edges, stack: seq<Node>, v: Node)
    requires Walk(g, stack) && v in stack && Edge(g, stack[|stack| - 1], v)
    ensures forall n <- From(stack, v) :: OnCycle(g, n)
  {
    hide Walk, Edge, OnCycle, From;
    FromIsSuffix(stack, v);
    var i :| 0 <= i < |stack| && stack[i] == v && From(stack, v) == stack[i..];
    SuffixOnCycle(g, stack, i);
  }

  lemma SuffixOnCycle(g: Edges, stack: seq<Node>, i: nat)
    requires Walk(g, stack) && i < |stack| && Edge(g, stack[|stack| - 1], stack[i])
    ensures forall n <- stack[i..] :: OnCycle(g, n)
  {
    hide Walk, Edge;
    forall n | n in stack[i..]
      ensures OnCycle(g, n)
    {
      var k :| 0 <= k < |stack[i..]| && stack[i..][k] == n;
      var p := BackEdgeAt(g, stack, i, i + k);
    }
  }

  lemma BackEdgeAt(g: Edges, stack: seq<Node>, i: nat, j: nat) returns (p: seq<Node>)
    requires Walk(g, stack) && i <= j < |stack| && Edge(g, stack[|stack| - 1], stack[i])
    ensures Walk(g, p) && |p| >= 2 && p[0] == stack[j] && p[|p| - 1] == stack[j] && forall x <- p :: x in stack
  {
    hide Walk;
    WalkPart(g, stack, j, |stack|);
    WalkPart(g, stack, i, j + 1);
    var (down, up) := (stack[j..|stack|], stack[i..j + 1]);
    WalkJoin(g, down, up);
    p := down + up;
    assert forall x <- p :: x in down || x in up;
  }

  // ---- Everything reported is on a cycle ----

  /** The grey nodes are the stack, the stack is a walk, and all that is reported lies on a cycle. */
  ghost predicate Sound(g: Edges, stack: seq<Node>, s: Search) {
    && (stack != [] ==> Walk(g, stack))
    && (forall n :: ColourOf(s, n) == Grey <==> n in stack)
    && (forall n <- s.cyclic :: OnCycle(g, n))
  }

  lemma {:induction false} VisitSound(g: Edges, nodes: set<Node>, u: Node, stack: seq<Node>, s: Search)
    requires Closed(g, nodes) && u in nodes && ColourOf(s, u) == White && Sound(g, stack, s)
    requires stack != [] ==> Edge(g, stack[|stack| - 1], u)
    ensures Sound(g, stack, Visit(g, nodes, u, stack, s))
    decreases |Unvisited(nodes, s)|, 1, 0
  {
    var entered := s.(colour := s.colour[u := Grey]);
    assert Unvisited(nodes, entered) == Unvisited(nodes, s) - {u} && u in Unvisited(nodes, s);
    assert forall v <- Successors(g, u) :: Edge(g, u, v);
    assert forall n :: n in stack + [u] <==> n in stack || n == u;
    VisitAllSound(g, nodes, Successors(g, u), stack + [u], entered);
    var left := VisitAll(g, nodes, Successors(g, u), stack + [u], entered);
    assert u !in stack;
  }

  lemma {:induction false} VisitAllSound(g: Edges, nodes: set<Node>, succ: seq<Node>, stack: seq<Node>, s: Search)
    requires Closed(g, nodes) && (forall v <- succ :: v in nodes) && Sound(g, stack, s)
    requires stack != [] && forall v <- succ :: Edge(g, stack[|stack| - 1], v)
    ensures Sound(g, stack, VisitAll(g, nodes, succ, stack, s))
    decreases |Unvisited(nodes, s)|, 2, |succ|
  {
    if succ != [] {
      var v := succ[0];
      assert v in succ && forall x <- succ[1..] :: x in succ;
      if ColourOf(s, v) == Grey {
        BackEdge(g, stack, v);
      } else if ColourOf(s, v) == White {
        VisitSound(g, nodes, v, stack, s);
      }
      var t :=
        if ColourOf(s, v) == Grey then s.(cyclic := s.cyclic + Elems(From(stack, v)))
        else if ColourOf(s, v) == White then Visit(g, nodes, v, stack, s)
        else s;
      assert Sound(g, stack, t);
      SubsetSize(Unvisited(nodes, t), Unvisited(nodes, s));
      VisitAllSound(g, nodes, succ[1..], stack, t);
    }
  }

  // ---- An empty report means no cycle ----

  /** Finished nodes lead only to finished nodes, and none of them is on a cycle. */
  ghost predicate Clean(g: Edges, s: Search) {
    && (forall u, v :: ColourOf(s, u) == Black && Edge(g, u, v) ==> ColourOf(s, v) == Black)
    && (forall n :: ColourOf(s, n) == Black ==> !OnCycle(g, n))
  }

  lemma {:induction false} BlackWalk(g: Edges, s: Search, p: seq<Node>)
    requires forall u, v :: ColourOf(s, u) == Black && Edge(g, u, v) ==> ColourOf(s, v) == Black
    requires Walk(g, p) && ColourOf(s, p[0]) == Black
    ensures ColourOf(s, p[|p| - 1]) == Black
    decreases |p|
  {
    if |p| > 1 {
      assert Edge(g, p[0], p[1]);
      forall i | 0 <= i < |p[1..]| - 1 ensures Edge(g, p[1..][i], p[1..][i + 1]) { assert Edge(g, p[i + 1], p[i + 2]); }
      BlackWalk(g, s, p[1..]);
    }
  }

  lemma FinishedIsClean(g: Edges, s: Search, u: Node)
    requires Clean(g, s) && ColourOf(s, u) == Grey && forall v :: Edge(g, u, v) ==> ColourOf(s, v) == Black
    ensures Clean(g, s.(colour := s.colour[u := Black]))
  {
    if OnCycle(g, u) {
      var p :| Walk(g, p) && |p| >= 2 && p[0] == u && p[|p| - 1] == u;
      assert Edge(g, p[0], p[1]);
      forall i | 0 <= i < |p[1..]| - 1 ensures Edge(g, p[1..][i], p[1..][i + 1]) { assert Edge(g, p[i + 1], p[i + 2]); }
      BlackWalk(g, s, p[1..]);
      assert false;
    }
  }

  lemma {:induction false} VisitClean(g: Edges, nodes: set<Node>, u: Node, stack: seq<Node>, s: Search)
    requires Closed(g, nodes) && u in nodes && ColourOf(s, u) == White && Sound(g, stack, s) && Clean(g, s)
    requires stack != [] ==> Edge(g, stack[|stack| - 1], u)
    requires Visit(g, nodes, u, stack, s).cyclic == {}
    ensures Clean(g, Visit(g, nodes, u, stack, s))
    decreases |Unvisited(nodes, s)|, 1, 0
  {
    var entered := s.(colour := s.colour[u := Grey]);
    assert Unvisited(nodes, entered) == Unvisited(nodes, s) - {u} && u in Unvisited(nodes, s);
    assert forall v :: v in Successors(g, u) <==> Edge(g, u, v);
    assert forall n :: n in stack + [u] <==> n in stack || n == u;
    assert Sound(g, stack + [u], entered) && Clean(g, entered);
    VisitAllClean(g, nodes, Successors(g, u), stack + [u], entered);
    VisitAllSound(g, nodes, Successors(g, u), stack + [u], entered);
    FinishedIsClean(g, VisitAll(g, nodes, Successors(g, u), stack + [u], entered), u);
  }

  lemma GreyReports(g: Edges, nodes: set<Node>, succ: seq<Node>, stack: seq<Node>, s: Search)
    requires Closed(g, nodes) && (forall v <- succ :: v in nodes) && succ != []
    requires ColourOf(s, succ[0]) == Grey && succ[0] in stack
    ensures VisitAll(g, nodes, succ, stack, s).cyclic != {}
  {
    FromIsSuffix(stack, succ[0]);
    assert From(stack, succ[0])[0] == succ[0];
    assert succ[0] in Elems(From(stack, succ[0]));
  }

  lemma {:induction false} VisitAllClean(g: Edges, nodes: set<Node>, succ: seq<Node>, stack: seq<Node>, s: Search)
    requires Closed(g, nodes) && (forall v <- succ :: v in nodes) && Sound(g, stack, s) && Clean(g, s)
    requires stack != [] && forall v <- succ :: Edge(g, stack[|stack| - 1], v)
    requires VisitAll(g, nodes, succ, stack, s).cyclic == {}
    ensures Clean(g, VisitAll(g, nodes, succ, stack, s))
    ensures forall v <- succ :: ColourOf(VisitAll(g, nodes, succ, stack, s), v) == Black
    decreases |Unvisited(nodes, s)|, 2, |succ|
  {
    if succ != [] {
      var v := succ[0];
      assert v in succ && forall x <- succ[1..] :: x in succ;
      if ColourOf(s, v) == Grey {
        GreyReports(g, nodes, succ, stack, s);
        assert false;
      }
      if ColourOf(s, v) == White {
        VisitSound(g, nodes, v, stack, s);
        VisitClean(g, nodes, v, stack, s);
      }
      var t := if ColourOf(s, v) == White then Visit(g, nodes, v, stack, s) else s;
      SubsetSize(Unvisited(nodes, t), Unvisited(nodes, s));
      VisitAllClean(g, nodes, succ[1..], stack, t);
    }
  }

  // ---- The whole search ----

  lemma {:induction false} SearchAllSound(g: Edges, nodes: set<Node>, keys: seq<Node>, s: Search)
    requires Closed(g, nodes) && (forall n <- keys :: n in nodes) && Sound(g, [], s)
    ensures var r := SearchAll(g, nodes, keys, s);
      && Sound(g, [], r) && (forall n <- keys :: ColourOf(r, n) == Black)
      && (Clean(g, s) && r.cyclic == {} ==> Clean(g, r))
    decreases |keys|
  {
    if keys != [] {
      var n := keys[0];
      var t := if ColourOf(s, n) == White then Visit(g, nodes, n, [], s) else s;
      if ColourOf(s, n) == White {
        VisitSound(g, nodes, n, [], s);
        if Clean(g, s) && SearchAll(g, nodes, keys, s).cyclic == {} {
          VisitClean(g, nodes, n, [], s);
        }
      }
      SearchAllSound(g, nodes, keys[1..], t);
    }
  }

  const FRESH := Search(map[], {})

  /** Every reported issue lies on a prerequisite cycle, and nothing is reported exactly when there is
      no cycle, whatever the order the edges are visited in. */
  lemma SearchExact(g: Edges, nodes: set<Node>, keys: seq<Node>)
    requires Closed(g, nodes) && forall n :: n in keys <==> n in g
    ensures var cyclic := SearchAll(g, nodes, keys, FRESH).cyclic;
      && (forall n <- cyclic :: OnCycle(g, n))
      && (cyclic == {} <==> forall n :: !OnCycle(g, n))
  {
    SearchAllSound(g, nodes, keys, FRESH);
    forall n | OnCycle(g, n)
      ensures n in g
    {
      var p :| Walk(g, p) && |p| >= 2 && p[0] == n && p[|p| - 1] == n;
      assert Edge(g, p[0], p[1]);
    }
  }

  // ---- Not every issue on a cycle is reported ----

  const N1 := Node(1)
  const N2 := Node(2)
  const N3 := Node(3)
  const N4 := Node(4)
  const DIAMOND: Edges := map[N1 := [N2, N3], N2 := [N4], N3 := [N4], N4 := [N1]]
  const DIAMOND_NODES: set<Node> := {N1, N2, N3, N4}

  lemma DiamondClosed()
    ensures Closed(DIAMOND, DIAMOND_NODES)
  {
  }

  /** Visiting a node with one successor that is already coloured. */
  lemma VisitLeaf(g: Edges, nodes: set<Node>, u: Node, v: Node, stack: seq<Node>, s: Search)
    requires Closed(g, nodes) && u in nodes && v in nodes && u != v
    requires ColourOf(s, u) == White && ColourOf(s, v) != White && Successors(g, u) == [v]
    ensures Visit(g, nodes, u, stack, s) ==
      Search(s.colour[u := Grey][u := Black],
             if ColourOf(s, v) == Grey then s.cyclic + Elems(From(stack + [u], v)) else s.cyclic)
  {
    var entered := s.(colour := s.colour[u := Grey]);
    var t := if ColourOf(s, v) == Grey then entered.(cyclic := s.cyclic + Elems(From(stack + [u], v))) else entered;
    assert VisitAll(g, nodes, [], stack + [u], t) == t;
    assert [v][1..] == [];
    assert VisitAll(g, nodes, [v], stack + [u], entered) == VisitAll(g, nodes, [], stack + [u], t);
  }

  /** On 1 -> 2, 3; 2 -> 4; 3 -> 4; 4 -> 1 issue 3 is on a cycle, but 4 is finished by the time the
      search comes to it through 3. */
  lemma MissesAnIssueOnACycle()
    ensures Closed(DIAMOND, DIAMOND_NODES) && OnCycle(DIAMOND, N3)
    ensures N3 !in SearchAll(DIAMOND, DIAMOND_NODES, [N1, N2, N3, N4], FRESH).cyclic
  {
    assert Walk(DIAMOND, [N3, N4, N1, N3]);
    DiamondClosed();
    hide Visit, VisitAll, From, Closed, Walk;
    var s4 := DiamondSearched();
    AllVisited(DIAMOND, DIAMOND_NODES, [N2, N3, N4], s4);
    assert [N1, N2, N3, N4][1..] == [N2, N3, N4];
  }

  lemma DiamondSearched() returns (s4: Search)
    requires Closed(DIAMOND, DIAMOND_NODES)
    ensures s4 == Visit(DIAMOND, DIAMOND_NODES, N1, [], FRESH) && N3 !in s4.cyclic
    ensures ColourOf(s4, N2) == ColourOf(s4, N3) == ColourOf(s4, N4) == Black
  {
    hide VisitAll, From, Closed;
    var s1 := Search(map[N1 := Grey], {});
    var s2 := DiamondLeft(s1);
    var s3 := DiamondRight(s2);
    hide Visit;
    DiamondBoth(s1, s2, s3);
    DiamondTop(s1, s3);
    s4 := s3.(colour := s3.colour[N1 := Black]);
  }

  lemma DiamondRight(s2: Search) returns (s3: Search)
    requires Closed(DIAMOND, DIAMOND_NODES) && N3 !in s2.cyclic
    requires ColourOf(s2, N2) == ColourOf(s2, N4) == Black && ColourOf(s2, N3) == White
    ensures s3 == Visit(DIAMOND, DIAMOND_NODES, N3, [N1], s2) && N3 !in s3.cyclic
    ensures ColourOf(s3, N2) == ColourOf(s3, N3) == ColourOf(s3, N4) == Black
  {
    hide Visit, From, Closed;
    VisitLeaf(DIAMOND, DIAMOND_NODES, N3, N4, [N1], s2);
    s3 := Visit(DIAMOND, DIAMOND_NODES, N3, [N1], s2);
  }

  lemma DiamondBoth(s1: Search, s2: Search, s3: Search)
    requires Closed(DIAMOND, DIAMOND_NODES) && ColourOf(s1, N2) == ColourOf(s2, N3) == White
    requires s2 == Visit(DIAMOND, DIAMOND_NODES, N2, [N1], s1) && s3 == Visit(DIAMOND, DIAMOND_NODES, N3, [N1], s2)
    ensures VisitAll(DIAMOND, DIAMOND_NODES, [N2, N3], [N1], s1) == s3
  {
    hide Visit, From, Closed;
    assert [N2, N3][1..] == [N3] && [N3][1..] == [];
    assert VisitAll(DIAMOND, DIAMOND_NODES, [], [N1], s3) == s3;
    assert VisitAll(DIAMOND, DIAMOND_NODES, [N3], [N1], s2) == s3;
  }

  lemma DiamondLeft(s1: Search) returns (s2: Search)
    requires s1 == Search(map[N1 := Grey], {}) && Closed(DIAMOND, DIAMOND_NODES)
    ensures s2 == Visit(DIAMOND, DIAMOND_NODES, N2, [N1], s1)
    ensures ColourOf(s2, N1) == Grey && ColourOf(s2, N2) == ColourOf(s2, N4) == Black && ColourOf(s2, N3) == White
    ensures N3 !in s2.cyclic
  {
    hide Closed;
    var entered := Search(s1.colour[N2 := Grey], {});
    VisitLeaf(DIAMOND, DIAMOND_NODES, N4, N1, [N1, N2], entered);
    var left := Visit(DIAMOND, DIAMOND_NODES, N4, [N1, N2], entered);
    assert [N1, N2] + [N4] == [N1, N2, N4] && From([N1, N2, N4], N1) == [N1, N2, N4];
    assert [N4][1..] == [] && [N1] + [N2] == [N1, N2];
    assert VisitAll(DIAMOND, DIAMOND_NODES, [], [N1, N2], left) == left;
    assert VisitAll(DIAMOND, DIAMOND_NODES, [N4], [N1, N2], entered) == left;
    s2 := Visit(DIAMOND, DIAMOND_NODES, N2, [N1], s1);
    assert s2 == left.(colour := left.colour[N2 := Black]);
  }

  lemma DiamondTop(s1: Search, s3: Search)
    requires s1 == Search(map[N1 := Grey], {}) && Closed(DIAMOND, DIAMOND_NODES)
    requires VisitAll(DIAMOND, DIAMOND_NODES, [N2, N3], [N1], s1) == s3
    ensures Visit(DIAMOND, DIAMOND_NODES, N1, [], FRESH) == s3.(colour := s3.colour[N1 := Black])
  {
    hide VisitAll, Closed;
    assert [] + [N1] == [N1] && FRESH.colour[N1 := Grey] == s1.colour;
  }

  lemma {:induction false} AllVisited(g: Edges, nodes: set<Node>, keys: seq<Node>, s: Search)
    requires Closed(g, nodes) && forall n <- keys :: n in nodes && ColourOf(s, n) == Black
    ensures SearchAll(g, nodes, keys, s) == s
  {
    if keys != [] {
      AllVisited(g, nodes, keys[1..], s);
    }
  }

  // ---- The search as it runs ----

  lemma VisitUnfolds(g: Edges, nodes: set<Node>, u: Node, stack: seq<Node>, s: Search)
    requires Closed(g, nodes) && u in nodes && ColourOf(s, u) == White
    ensures forall v <- Successors(g, u) :: v in nodes
    ensures var left := VisitAll(g, nodes, Successors(g, u), stack + [u], s.(colour := s.colour[u := Grey]));
      Visit(g, nodes, u, stack, s) == left.(colour := left.colour[u := Black])
  {
    assert forall v <- Successors(g, u) :: Edge(g, u, v);
  }

  lemma Entering(g: Edges, nodes: set<Node>, u: Node, s: Search)
    requires Closed(g, nodes) && u in nodes && ColourOf(s, u) == White
    ensures var entered := s.(colour := s.colour[u := Grey]);
      Unvisited(nodes, entered) == Unvisited(nodes, s) - {u} && u in Unvisited(nodes, s)
    ensures forall v <- Successors(g, u) :: v in nodes
  {
    assert forall v <- Successors(g, u) :: Edge(g, u, v);
  }

  lemma VisitAllEnds(g: Edges, nodes: set<Node>, succ: seq<Node>, stack: seq<Node>, s: Search)
    requires Closed(g, nodes)
    ensures VisitAll(g, nodes, succ[|succ|..], stack, s) == s
  {
  }

  lemma VisitAllUnfolds(g: Edges, nodes: set<Node>, succ: seq<Node>, i: nat, stack: seq<Node>, s: Search)
    requires Closed(g, nodes) && i < |succ| && forall v <- succ[i..] :: v in nodes
    ensures succ[i] in nodes && forall v <- succ[i + 1..] :: v in nodes
    ensures var v := succ[i];
      var t := if ColourOf(s, v) == Grey then s.(cyclic := s.cyclic + Elems(From(stack, v)))
               else if ColourOf(s, v) == White then Visit(g, nodes, v, stack, s) else s;
      && VisitAll(g, nodes, succ[i..], stack, s) == VisitAll(g, nodes, succ[i + 1..], stack, t)
      && Unvisited(nodes, t) <= Unvisited(nodes, s)
  {
    hide Visit, Closed, From;
    assert succ[i..][0] == succ[i] && succ[i..][1..] == succ[i + 1..];
    assert succ[i] in succ[i..] && forall v <- succ[i + 1..] :: v in succ[i..];
  }

  /** Colours, report and stack, updated in place. */
  class PrereqSearch {
    var colour: map<Node, Colour>
    var cyclic: set<Node>
    var stack: seq<Node>

    ghost function View(): Search
      reads this
    {
      Search(colour, cyclic)
    }

    constructor ()
      ensures View() == FRESH && stack == []
    {
      colour, cyclic, stack := map[], {}, [];
    }

    method Dfs(g: Edges, ghost nodes: set<Node>, u: Node)
      requires Closed(g, nodes) && u in nodes && ColourOf(View(), u) == White
      modifies this
      ensures View() == Visit(g, nodes, u, old(stack), old(View())) && stack == old(stack)
      decreases |Unvisited(nodes, View())|
    {
      ghost var entered := View().(colour := colour[u := Grey]);
      hide Visit, VisitAll, Closed, Unvisited, From;
      Entering(g, nodes, u, View());
      colour := colour[u := Grey];
      stack := stack + [u];
      var succ := Successors(g, u);
      for i := 0 to |succ|
        invariant stack == old(stack) + [u] && forall v <- succ[i..] :: v in nodes
        invariant Unvisited(nodes, View()) <= Unvisited(nodes, entered)
        invariant VisitAll(g, nodes, succ[i..], stack, View()) == VisitAll(g, nodes, succ, stack, entered)
      {
        var v := succ[i];
        VisitAllUnfolds(g, nodes, succ, i, stack, View());
        SubsetSize(Unvisited(nodes, View()), Unvisited(nodes, entered));
        if v in colour && colour[v] == Grey {
          cyclic := cyclic + Elems(From(stack, v));
        } else if v !in colour || colour[v] == White {
          Dfs(g, nodes, v);
        }
      }
      VisitAllEnds(g, nodes, succ, stack, View());
      stack := stack[..|stack| - 1];
      colour := colour[u := Black];
      VisitUnfolds(g, nodes, u, old(stack), old(View()));
    }

    method CycleMembers(g: Edges, ghost nodes: set<Node>, keys: seq<Node>)
      requires Closed(g, nodes) && (forall n :: n in keys <==> n in g) && View() == FRESH && stack == []
      modifies this
      ensures forall n <- cyclic :: OnCycle(g, n)
      ensures cyclic == {} <==> forall n :: !OnCycle(g, n)
    {
      for i := 0 to |keys|
        invariant stack == []
        invariant SearchAll(g, nodes, keys[i..], View()) == SearchAll(g, nodes, keys, FRESH)
      {
        assert keys[i] in keys && keys[i..][0] == keys[i] && keys[i..][1..] == keys[i + 1..];
        if keys[i] !in colour || colour[keys[i]] == White {
          Dfs(g, nodes, keys[i]);
        }
      }
      SearchExact(g, nodes, keys);
    }
  }
}
