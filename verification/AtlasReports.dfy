/** Which issues the prerequisite search reports: exactly those on a cycle clear of what was finished before the
    search reached them; so every issue at which a search starts, and every issue on a cycle when each of them
    has one way round. */
module AtlasReports {
  import opened AtlasNodes
  import opened AtlasPrereqs
  import opened Prelude

  // ---- Colours never go back ----

  lemma {:induction false} VisitKeeps(g: Edges, nodes: set<Node>, u: Node, stack: seq<Node>, s: Search, n: Node)
    requires Closed(g, nodes) && u in nodes && ColourOf(s, u) == White && ColourOf(s, n) != White
    ensures ColourOf(Visit(g, nodes, u, stack, s), n) == ColourOf(s, n)
    decreases |Unvisited(nodes, s)|, 1, 0
  {
    Entering(g, nodes, u, s);
    VisitUnfolds(g, nodes, u, stack, s);
    VisitAllKeeps(g, nodes, Successors(g, u), stack + [u], s.(colour := s.colour[u := Grey]), n);
  }

  lemma {:induction false} VisitAllKeeps(g: Edges, nodes: set<Node>, succ: seq<Node>, stack: seq<Node>, s: Search,
                                         n: Node)
    requires Closed(g, nodes) && (forall v <- succ :: v in nodes) && ColourOf(s, n) != White
    ensures ColourOf(VisitAll(g, nodes, succ, stack, s), n) == ColourOf(s, n)
    decreases |Unvisited(nodes, s)|, 2, |succ|
  {
    if succ != [] {
      var t := AfterFirst(g, nodes, succ, stack, s);
      if ColourOf(s, succ[0]) == White { VisitKeeps(g, nodes, succ[0], stack, s, n); }
      SubsetSize(Unvisited(nodes, t), Unvisited(nodes, s));
      VisitAllKeeps(g, nodes, succ[1..], stack, t, n);
    }
  }

  /** The state after the first successor. */
  function AfterFirst(g: Edges, ghost nodes: set<Node>, succ: seq<Node>, stack: seq<Node>, s: Search): (t: Search)
    requires Closed(g, nodes) && (forall v <- succ :: v in nodes) && succ != []
    ensures VisitAll(g, nodes, succ, stack, s) == VisitAll(g, nodes, succ[1..], stack, t)
    ensures Unvisited(nodes, t) <= Unvisited(nodes, s) && s.cyclic <= t.cyclic
    ensures forall v <- succ[1..] :: v in nodes
  {
    assert succ[0] in succ;
    assert forall v <- succ[1..] :: v in succ;
    if ColourOf(s, succ[0]) == Grey then s.(cyclic := s.cyclic + Elems(From(stack, succ[0])))
    else if ColourOf(s, succ[0]) == White then Visit(g, nodes, succ[0], stack, s)
    else s
  }

  // ---- What a visit reports ----

  /** Finished nodes lead to visited ones, and only visited nodes are reported. */
  ghost predicate Orderly(g: Edges, s: Search) {
    && (forall x, v :: ColourOf(s, x) == Black && Edge(g, x, v) ==> ColourOf(s, v) != White)
    && (forall x <- s.cyclic :: ColourOf(s, x) != White)
  }

  ghost function Finished(s: Search): set<Node> {
    set n | n in s.colour && s.colour[n] == Black
  }

  /** A cycle through `n` on which no node of `done` lies. */
  ghost predicate CycleClearOf(g: Edges, done: set<Node>, n: Node) {
    exists p :: Walk(g, p) && |p| >= 2 && p[0] == n && p[|p| - 1] == n && forall x <- p :: x !in done
  }

  /** What holds while `n` is open, entered in state `since` as the top of `stop`: a node finished meanwhile
      leads back to `stop` only if `n` is reported, and `n` is reported only on a cycle clear of what was
      finished before. */
  ghost predicate Closing(g: Edges, since: Search, stop: seq<Node>, s: Search, n: Node) {
    && Orderly(g, s)
    && (forall x :: ColourOf(since, x) != White ==> ColourOf(s, x) != White)
    && (forall x, v :: ColourOf(since, x) == White && ColourOf(s, x) == Black && Edge(g, x, v) && v in stop ==>
          n in s.cyclic)
    && (n in s.cyclic ==> CycleClearOf(g, Finished(since), n))
  }

  /** `stop` is the bottom of the stack, with `n` at its top; the rest was entered later. */
  ghost predicate Open(since: Search, stop: seq<Node>, stack: seq<Node>, n: Node) {
    && stop != [] && stop <= stack && stop[|stop| - 1] == n && ColourOf(since, n) == Grey
    && (forall x <- stack :: ColourOf(since, x) != Black)
    && (forall i :: |stop| <= i < |stack| ==> ColourOf(since, stack[i]) == White)
  }

  /** A back edge into `stop` reports `n`. */
  lemma BackEdgeReports(since: Search, stop: seq<Node>, stack: seq<Node>, n: Node, v: Node)
    requires Open(since, stop, stack, n) && v in stop
    ensures n in From(stack, v)
  {
    var k :| 0 <= k < |stop| && stop[k] == v;
    assert stack[k] == v && stack[|stop| - 1] == n;
    FromHolds(stack, v, k, |stop| - 1);
  }

  /** A back edge that reports a stack node closes a cycle clear of `done`. */
  lemma BackEdgeClear(g: Edges, done: set<Node>, stack: seq<Node>, n: Node, v: Node)
    requires Walk(g, stack) && v in stack && Edge(g, stack[|stack| - 1], v) && n in From(stack, v)
    requires forall x <- stack :: x !in done
    ensures CycleClearOf(g, done, n)
  {
    hide Walk, From, Edge, CycleClearOf;
    FromIsSuffix(stack, v);
    var i :| 0 <= i < |stack| && stack[i] == v && From(stack, v) == stack[i..];
    SuffixClear(g, done, stack, i, n);
  }

  lemma SuffixClear(g: Edges, done: set<Node>, stack: seq<Node>, i: nat, n: Node)
    requires Walk(g, stack) && i < |stack| && Edge(g, stack[|stack| - 1], stack[i]) && n in stack[i..]
    requires forall x <- stack :: x !in done
    ensures CycleClearOf(g, done, n)
  {
    hide Walk, Edge;
    var k :| 0 <= k < |stack[i..]| && stack[i..][k] == n;
    var p := BackEdgeAt(g, stack, i, i + k);
  }

  lemma {:induction false} FromHolds(stack: seq<Node>, v: Node, k: nat, j: nat)
    requires k <= j < |stack| && stack[k] == v
    ensures stack[j] in From(stack, v)
  {
    if stack[0] != v { FromHolds(stack[1..], v, k - 1, j - 1); }
  }

  lemma {:induction false} VisitCloses(g: Edges, nodes: set<Node>, u: Node, stack: seq<Node>, s: Search,
                                       since: Search, stop: seq<Node>, n: Node)
    requires Closed(g, nodes) && u in nodes && ColourOf(s, u) == White && Sound(g, stack, s)
    requires stack != [] && Edge(g, stack[|stack| - 1], u)
    requires Open(since, stop, stack, n) && Closing(g, since, stop, s, n)
    ensures Closing(g, since, stop, Visit(g, nodes, u, stack, s), n)
    decreases |Unvisited(nodes, s)|, 1, 0
  {
    Entering(g, nodes, u, s);
    VisitUnfolds(g, nodes, u, stack, s);
    EntersSound(g, stack, s, u);
    var entered := s.(colour := s.colour[u := Grey]);
    assert forall v :: v in Successors(g, u) <==> Edge(g, u, v);
    hide Visit, VisitAll, Unvisited, Closed, Sound, CycleClearOf, Walk, Edge, Successors;
    EntersOpen(g, since, stop, stack, s, n, u);
    hide Open, Closing;
    VisitAllCloses(g, nodes, Successors(g, u), stack + [u], entered, since, stop, n);
    VisitAllKeeps(g, nodes, Successors(g, u), stack + [u], entered, u);
    LeavesClosing(g, since, stop, VisitAll(g, nodes, Successors(g, u), stack + [u], entered), n, u);
  }

  lemma EntersOpen(g: Edges, since: Search, stop: seq<Node>, stack: seq<Node>, s: Search, n: Node, u: Node)
    requires Open(since, stop, stack, n) && Closing(g, since, stop, s, n) && ColourOf(s, u) == White
    ensures Open(since, stop, stack + [u], n) && Closing(g, since, stop, s.(colour := s.colour[u := Grey]), n)
  {
    hide CycleClearOf;
    assert forall x :: x in stack + [u] <==> x in stack || x == u;
  }

  lemma LeavesClosing(g: Edges, since: Search, stop: seq<Node>, s: Search, n: Node, u: Node)
    requires Closing(g, since, stop, s, n) && ColourOf(s, u) != White
    requires forall v :: Edge(g, u, v) ==> ColourOf(s, v) != White && (v in stop ==> n in s.cyclic)
    ensures Closing(g, since, stop, s.(colour := s.colour[u := Black]), n)
  {
    hide CycleClearOf;
  }

  lemma EntersSound(g: Edges, stack: seq<Node>, s: Search, u: Node)
    requires ColourOf(s, u) == White && Sound(g, stack, s) && (stack != [] ==> Edge(g, stack[|stack| - 1], u))
    ensures Sound(g, stack + [u], s.(colour := s.colour[u := Grey]))
  {
    assert forall x :: x in stack + [u] <==> x in stack || x == u;
  }

  lemma {:induction false} VisitAllCloses(g: Edges, nodes: set<Node>, succ: seq<Node>, stack: seq<Node>, s: Search,
                                          since: Search, stop: seq<Node>, n: Node)
    requires Closed(g, nodes) && (forall v <- succ :: v in nodes) && Sound(g, stack, s)
    requires stack != [] && forall v <- succ :: Edge(g, stack[|stack| - 1], v)
    requires Open(since, stop, stack, n) && Closing(g, since, stop, s, n)
    ensures var r := VisitAll(g, nodes, succ, stack, s);
      && Closing(g, since, stop, r, n)
      && forall v <- succ :: ColourOf(r, v) != White && (v in stop ==> n in r.cyclic)
    decreases |Unvisited(nodes, s)|, 2, |succ|
  {
    if succ != [] {
      var v := succ[0];
      var t := AfterFirst(g, nodes, succ, stack, s);
      assert v in succ && forall x <- succ[1..] :: x in succ;
      FirstSound(g, nodes, succ, stack, s);
      if ColourOf(s, v) == White { VisitCloses(g, nodes, v, stack, s, since, stop, n); }
      FirstCloses(g, nodes, succ, stack, s, since, stop, n);
      SubsetSize(Unvisited(nodes, t), Unvisited(nodes, s));
      hide Visit, VisitAll, Unvisited, Closed, From, Closing, Open, Sound;
      VisitAllCloses(g, nodes, succ[1..], stack, t, since, stop, n);
      VisitAllKeeps(g, nodes, succ[1..], stack, t, v);
    }
  }

  lemma FirstSound(g: Edges, nodes: set<Node>, succ: seq<Node>, stack: seq<Node>, s: Search)
    requires Closed(g, nodes) && (forall v <- succ :: v in nodes) && succ != [] && Sound(g, stack, s)
    requires stack != [] && Edge(g, stack[|stack| - 1], succ[0])
    ensures Sound(g, stack, AfterFirst(g, nodes, succ, stack, s))
  {
    hide Visit, Closed, From;
    assert succ[0] in succ;
    if ColourOf(s, succ[0]) == Grey { BackEdge(g, stack, succ[0]); }
    if ColourOf(s, succ[0]) == White { VisitSound(g, nodes, succ[0], stack, s); }
  }

  lemma FirstCloses(g: Edges, nodes: set<Node>, succ: seq<Node>, stack: seq<Node>, s: Search,
                    since: Search, stop: seq<Node>, n: Node)
    requires Closed(g, nodes) && (forall v <- succ :: v in nodes) && succ != [] && Sound(g, stack, s)
    requires stack != [] && Edge(g, stack[|stack| - 1], succ[0])
    requires Open(since, stop, stack, n) && Closing(g, since, stop, s, n)
    requires ColourOf(s, succ[0]) == White ==>
      succ[0] in nodes && Closing(g, since, stop, Visit(g, nodes, succ[0], stack, s), n)
    ensures var t := AfterFirst(g, nodes, succ, stack, s);
      && Closing(g, since, stop, t, n)
      && ColourOf(t, succ[0]) != White && (succ[0] in stop ==> n in t.cyclic)
  {
    hide Visit, Closed, From, Walk, CycleClearOf;
    var v := succ[0];
    assert v in stop ==> v in stack;
    if ColourOf(s, v) == Grey {
      if v in stop { BackEdgeReports(since, stop, stack, n, v); }
      if n in From(stack, v) { BackEdgeClear(g, Finished(since), stack, n, v); }
      FromWithin(stack, v);
    }
  }

  /** A walk from a node finished while `n` was open, back to `stop` and clear of what was finished before. */
  lemma {:induction false} WalkComesBack(g: Edges, since: Search, stop: seq<Node>, s: Search, n: Node, p: seq<Node>)
    requires Closing(g, since, stop, s, n) && Sound(g, stop, s) && forall x :: ColourOf(since, x) == Grey <==> x in stop
    requires Walk(g, p) && ColourOf(since, p[0]) == White && ColourOf(s, p[0]) == Black && p[|p| - 1] in stop
    requires forall x <- p :: x !in Finished(since)
    ensures n in s.cyclic
    decreases |p|
  {
    if |p| > 1 {
      assert Edge(g, p[0], p[1]) && p[1] in p;
      if p[1] !in stop {
        WalkPart(g, p, 1, |p|);
        WalkComesBack(g, since, stop, s, n, p[1..|p|]);
      }
    }
  }

  /** A node is reported exactly if it lies on a cycle clear of everything that was finished when the search
      reached it. */
  lemma VisitExact(g: Edges, nodes: set<Node>, n: Node, stack: seq<Node>, s: Search)
    requires Closed(g, nodes) && n in nodes && ColourOf(s, n) == White && Sound(g, stack, s)
    requires (stack != [] ==> Edge(g, stack[|stack| - 1], n)) && Orderly(g, s)
    ensures Orderly(g, Visit(g, nodes, n, stack, s))
    ensures n in Visit(g, nodes, n, stack, s).cyclic <==> CycleClearOf(g, Finished(s), n)
  {
    var (stop, since) := (stack + [n], s.(colour := s.colour[n := Grey]));
    Entering(g, nodes, n, s);
    VisitUnfolds(g, nodes, n, stack, s);
    EntersSound(g, stack, s, n);
    Opens(g, stack, s, n);
    hide Visit, VisitAll, Closed, Unvisited, CycleClearOf, Walk, Edge, Successors, Finished, Open;
    VisitAllCloses(g, nodes, Successors(g, n), stop, since, since, stop, n);
    VisitAllSound(g, nodes, Successors(g, n), stop, since);
    var r := VisitAll(g, nodes, Successors(g, n), stop, since);
    if CycleClearOf(g, Finished(s), n) {
      ClearCycleReports(g, since, stop, r, n);
    }
  }

  lemma Opens(g: Edges, stack: seq<Node>, s: Search, n: Node)
    requires ColourOf(s, n) == White && Sound(g, stack, s) && Orderly(g, s)
    ensures var (stop, since) := (stack + [n], s.(colour := s.colour[n := Grey]));
      && Finished(since) == Finished(s) && (forall x :: ColourOf(since, x) == Grey <==> x in stop)
      && Open(since, stop, stop, n) && Closing(g, since, stop, since, n)
    ensures forall v :: v in Successors(g, n) <==> Edge(g, n, v)
  {
    hide CycleClearOf, Walk;
  }

  lemma ClearCycleReports(g: Edges, since: Search, stop: seq<Node>, r: Search, n: Node)
    requires Closing(g, since, stop, r, n) && Sound(g, stop, r) && CycleClearOf(g, Finished(since), n) && n in stop
    requires forall x :: ColourOf(since, x) == Grey <==> x in stop
    requires forall v :: Edge(g, n, v) ==> ColourOf(r, v) != White && (v in stop ==> n in r.cyclic)
    ensures n in r.cyclic
  {
    var p :| Walk(g, p) && |p| >= 2 && p[0] == n && p[|p| - 1] == n && forall x <- p :: x !in Finished(since);
    assert Edge(g, p[0], p[1]) && p[1] in p;
    if p[1] !in stop {
      WalkPart(g, p, 1, |p|);
      WalkComesBack(g, since, stop, r, n, p[1..|p|]);
    }
  }

  // ---- The whole report ----

  /** A finished node is not reported any more. */
  lemma {:induction false} VisitReportsOpen(g: Edges, nodes: set<Node>, u: Node, stack: seq<Node>, s: Search, n: Node)
    requires Closed(g, nodes) && u in nodes && ColourOf(s, u) == White && forall x <- stack :: ColourOf(s, x) == Grey
    requires n !in s.cyclic && ColourOf(s, n) == Black
    ensures n !in Visit(g, nodes, u, stack, s).cyclic
    decreases |Unvisited(nodes, s)|, 1, 0
  {
    Entering(g, nodes, u, s);
    VisitUnfolds(g, nodes, u, stack, s);
    VisitAllReportsOpen(g, nodes, Successors(g, u), stack + [u], s.(colour := s.colour[u := Grey]), n);
  }

  lemma {:induction false} VisitAllReportsOpen(g: Edges, nodes: set<Node>, succ: seq<Node>, stack: seq<Node>,
                                               s: Search, n: Node)
    requires Closed(g, nodes) && (forall v <- succ :: v in nodes) && forall x <- stack :: ColourOf(s, x) == Grey
    requires n !in s.cyclic && ColourOf(s, n) == Black
    ensures n !in VisitAll(g, nodes, succ, stack, s).cyclic
    decreases |Unvisited(nodes, s)|, 2, |succ|
  {
    if succ != [] {
      var t := AfterFirst(g, nodes, succ, stack, s);
      assert succ[0] in succ;
      if ColourOf(s, succ[0]) == White {
        VisitReportsOpen(g, nodes, succ[0], stack, s, n);
        forall x | x in stack
          ensures ColourOf(t, x) == Grey
        {
          VisitKeeps(g, nodes, succ[0], stack, s, x);
        }
      } else if ColourOf(s, succ[0]) == Grey {
        FromWithin(stack, succ[0]);
      }
      SubsetSize(Unvisited(nodes, t), Unvisited(nodes, s));
      VisitAllReportsOpen(g, nodes, succ[1..], stack, t, n);
    }
  }

  lemma {:induction false} FromWithin(stack: seq<Node>, v: Node)
    ensures forall x <- From(stack, v) :: x in stack
  {
    if stack != [] { FromWithin(stack[1..], v); }
  }

  /** What is finished when the search from `u` reaches `n`. */
  ghost function DoneAt(g: Edges, nodes: set<Node>, u: Node, stack: seq<Node>, s: Search, n: Node): set<Node>
    requires Closed(g, nodes) && u in nodes && ColourOf(s, u) == White
    decreases |Unvisited(nodes, s)|, 1, 0
  {
    if u == n then Finished(s)
    else
      Entering(g, nodes, u, s);
      DoneAmong(g, nodes, Successors(g, u), stack + [u], s.(colour := s.colour[u := Grey]), n)
  }

  ghost function DoneAmong(g: Edges, nodes: set<Node>, succ: seq<Node>, stack: seq<Node>, s: Search, n: Node): set<Node>
    requires Closed(g, nodes) && forall v <- succ :: v in nodes
    decreases |Unvisited(nodes, s)|, 2, |succ|
  {
    if succ == [] then {}
    else
      var t := AfterFirst(g, nodes, succ, stack, s);
      SubsetSize(Unvisited(nodes, t), Unvisited(nodes, s));
      if ColourOf(s, succ[0]) == White && ColourOf(t, n) != White then DoneAt(g, nodes, succ[0], stack, s, n)
      else DoneAmong(g, nodes, succ[1..], stack, t, n)
  }

  /** What is finished when the outer loop over `keys` first reaches `n`. */
  ghost function DoneBefore(g: Edges, nodes: set<Node>, keys: seq<Node>, s: Search, n: Node): set<Node>
    requires Closed(g, nodes) && forall x <- keys :: x in nodes
  {
    if keys == [] then {}
    else if ColourOf(s, keys[0]) == White then
      var t := Visit(g, nodes, keys[0], [], s);
      if ColourOf(t, n) != White then DoneAt(g, nodes, keys[0], [], s, n)
      else DoneBefore(g, nodes, keys[1..], t, n)
    else DoneBefore(g, nodes, keys[1..], s, n)
  }

  lemma {:induction false} ReportedAt(g: Edges, nodes: set<Node>, u: Node, stack: seq<Node>, s: Search, n: Node)
    requires Closed(g, nodes) && u in nodes && ColourOf(s, u) == White && Sound(g, stack, s) && Orderly(g, s)
    requires stack != [] ==> Edge(g, stack[|stack| - 1], u)
    requires ColourOf(s, n) == White && ColourOf(Visit(g, nodes, u, stack, s), n) != White
    ensures n in Visit(g, nodes, u, stack, s).cyclic <==> CycleClearOf(g, DoneAt(g, nodes, u, stack, s, n), n)
    decreases |Unvisited(nodes, s)|, 1, 0
  {
    if u == n {
      VisitExact(g, nodes, n, stack, s);
    } else {
      Entering(g, nodes, u, s);
      VisitUnfolds(g, nodes, u, stack, s);
      EntersSound(g, stack, s, u);
      assert forall v <- Successors(g, u) :: Edge(g, u, v);
      ReportedAmong(g, nodes, Successors(g, u), stack + [u], s.(colour := s.colour[u := Grey]), n);
    }
  }

  lemma {:induction false} ReportedAmong(g: Edges, nodes: set<Node>, succ: seq<Node>, stack: seq<Node>, s: Search,
                                         n: Node)
    requires Closed(g, nodes) && (forall v <- succ :: v in nodes) && Sound(g, stack, s) && Orderly(g, s)
    requires stack != [] && forall v <- succ :: Edge(g, stack[|stack| - 1], v)
    requires ColourOf(s, n) == White && ColourOf(VisitAll(g, nodes, succ, stack, s), n) != White
    ensures n in VisitAll(g, nodes, succ, stack, s).cyclic <==>
      CycleClearOf(g, DoneAmong(g, nodes, succ, stack, s, n), n)
    decreases |Unvisited(nodes, s)|, 2, |succ|
  {
    if succ != [] {
      var t := AfterFirst(g, nodes, succ, stack, s);
      assert succ[0] in succ && forall x <- succ[1..] :: x in succ;
      FirstSound(g, nodes, succ, stack, s);
      SubsetSize(Unvisited(nodes, t), Unvisited(nodes, s));
      if ColourOf(s, succ[0]) == White && ColourOf(t, n) != White {
        ReportedAt(g, nodes, succ[0], stack, s, n);
        assert ColourOf(t, n) == Black;
        if n !in t.cyclic { VisitAllReportsOpen(g, nodes, succ[1..], stack, t, n); }
      } else {
        FirstOrderly(g, nodes, succ, stack, s);
        ReportedAmong(g, nodes, succ[1..], stack, t, n);
      }
    }
  }

  lemma FirstOrderly(g: Edges, nodes: set<Node>, succ: seq<Node>, stack: seq<Node>, s: Search)
    requires Closed(g, nodes) && (forall v <- succ :: v in nodes) && succ != [] && Sound(g, stack, s)
    requires Orderly(g, s) && stack != [] && Edge(g, stack[|stack| - 1], succ[0])
    ensures Orderly(g, AfterFirst(g, nodes, succ, stack, s))
  {
    hide Visit, Closed, From;
    assert succ[0] in succ;
    if ColourOf(s, succ[0]) == White { VisitExact(g, nodes, succ[0], stack, s); }
    if ColourOf(s, succ[0]) == Grey { FromWithin(stack, succ[0]); }
  }

  /** In whatever order keys and edges come, an issue is reported exactly if it lies on a cycle of which
      nothing was finished before the search reached the issue. */
  lemma {:induction false} SearchReports(g: Edges, nodes: set<Node>, keys: seq<Node>, s: Search, n: Node)
    requires Closed(g, nodes) && (forall x <- keys :: x in nodes) && Sound(g, [], s) && Orderly(g, s)
    requires ColourOf(s, n) == White && ColourOf(SearchAll(g, nodes, keys, s), n) != White
    ensures n in SearchAll(g, nodes, keys, s).cyclic <==> CycleClearOf(g, DoneBefore(g, nodes, keys, s, n), n)
    decreases |keys|
  {
    if keys != [] {
      assert keys[0] in keys && forall x <- keys[1..] :: x in keys;
      hide Orderly, Closed, CycleClearOf;
      if ColourOf(s, keys[0]) == White {
        var t := Visit(g, nodes, keys[0], [], s);
        VisitExact(g, nodes, keys[0], [], s);
        VisitSound(g, nodes, keys[0], [], s);
        if ColourOf(t, n) == White {
          SearchReports(g, nodes, keys[1..], t, n);
        } else {
          ReportedAt(g, nodes, keys[0], [], s, n);
          if n !in t.cyclic { SearchReportsOpen(g, nodes, keys[1..], t, n); }
        }
      } else {
        SearchReports(g, nodes, keys[1..], s, n);
      }
    }
  }

  lemma {:induction false} SearchReportsOpen(g: Edges, nodes: set<Node>, keys: seq<Node>, s: Search, n: Node)
    requires Closed(g, nodes) && (forall x <- keys :: x in nodes) && n !in s.cyclic && ColourOf(s, n) == Black
    ensures n !in SearchAll(g, nodes, keys, s).cyclic
    decreases |keys|
  {
    if keys != [] {
      assert keys[0] in keys && forall x <- keys[1..] :: x in keys;
      var t := if ColourOf(s, keys[0]) == White then Visit(g, nodes, keys[0], [], s) else s;
      if ColourOf(s, keys[0]) == White { VisitReportsOpen(g, nodes, keys[0], [], s, n); }
      SearchReportsOpen(g, nodes, keys[1..], t, n);
    }
  }

  /** So the report is complete exactly if every issue on a cycle has such a cycle. */
  lemma ReportExactly(g: Edges, nodes: set<Node>, keys: seq<Node>)
    requires Closed(g, nodes) && forall n :: n in keys <==> n in g
    ensures var cyclic := SearchAll(g, nodes, keys, FRESH).cyclic;
      && (forall n <- keys :: n in cyclic <==> CycleClearOf(g, DoneBefore(g, nodes, keys, FRESH, n), n))
      && ((forall n :: OnCycle(g, n) ==> n in cyclic) <==>
          forall n :: OnCycle(g, n) ==> CycleClearOf(g, DoneBefore(g, nodes, keys, FRESH, n), n))
  {
    SearchAllSound(g, nodes, keys, FRESH);
    forall n | n in keys
      ensures n in SearchAll(g, nodes, keys, FRESH).cyclic <==>
        CycleClearOf(g, DoneBefore(g, nodes, keys, FRESH, n), n)
    {
      SearchReports(g, nodes, keys, FRESH, n);
    }
    forall n | OnCycle(g, n)
      ensures n in keys
    {
      CycleIsKey(g, n);
    }
  }

  // ---- Where a search starts ----

  /** A node at which a search starts is reported exactly if it lies on a cycle, whatever was searched before
      and in whatever order successors come. */
  lemma RootExact(g: Edges, nodes: set<Node>, u: Node, s: Search)
    requires Closed(g, nodes) && u in nodes && ColourOf(s, u) == White && Sound(g, [], s) && Orderly(g, s)
    ensures u in Visit(g, nodes, u, [], s).cyclic <==> OnCycle(g, u)
  {
    hide Visit, Closed;
    VisitExact(g, nodes, u, [], s);
    if OnCycle(g, u) {
      var p :| Walk(g, p) && |p| >= 2 && p[0] == u && p[|p| - 1] == u;
      forall i | 0 <= i < |p|
        ensures p[i] !in Finished(s)
      {
        WalkPart(g, p, i, |p|);
        if ColourOf(s, p[i]) == Black { BlackWalk(g, s, p[i..|p|]); }
      }
    }
  }

  lemma {:induction false} SearchSplit(g: Edges, nodes: set<Node>, a: seq<Node>, b: seq<Node>, s: Search)
    requires Closed(g, nodes) && (forall n <- a :: n in nodes) && forall n <- b :: n in nodes
    ensures SearchAll(g, nodes, a + b, s) == SearchAll(g, nodes, b, SearchAll(g, nodes, a, s))
    decreases |a|
  {
    if a == [] {
      assert a + b == b;
    } else {
      assert (a + b)[1..] == a[1..] + b && (a + b)[0] == a[0] && forall n <- a[1..] :: n in a;
      SearchSplit(g, nodes, a[1..], b, if ColourOf(s, a[0]) == White then Visit(g, nodes, a[0], [], s) else s);
    }
  }

  lemma {:induction false} SearchKeepsOrderly(g: Edges, nodes: set<Node>, keys: seq<Node>, s: Search)
    requires Closed(g, nodes) && (forall n <- keys :: n in nodes) && Sound(g, [], s) && Orderly(g, s)
    ensures Orderly(g, SearchAll(g, nodes, keys, s))
    decreases |keys|
  {
    hide Sound, Orderly, Closed;
    if keys != [] {
      assert keys[0] in keys && forall n <- keys[1..] :: n in keys;
      var t := if ColourOf(s, keys[0]) == White then Visit(g, nodes, keys[0], [], s) else s;
      if ColourOf(s, keys[0]) == White {
        VisitExact(g, nodes, keys[0], [], s);
        VisitSound(g, nodes, keys[0], [], s);
      }
      SearchKeepsOrderly(g, nodes, keys[1..], t);
    }
  }

  /** Every issue at which the outer loop starts a search is reported exactly if it lies on a cycle. */
  lemma StartsAreExact(g: Edges, nodes: set<Node>, before: seq<Node>, u: Node, after: seq<Node>)
    requires Closed(g, nodes) && u in nodes && (forall n <- before :: n in nodes) && forall n <- after :: n in nodes
    requires ColourOf(SearchAll(g, nodes, before, FRESH), u) == White
    requires forall n <- before + [u] + after :: n in nodes
    ensures u in SearchAll(g, nodes, before + [u] + after, FRESH).cyclic <==> OnCycle(g, u)
  {
    var s := SearchAll(g, nodes, before, FRESH);
    SearchAllSound(g, nodes, before, FRESH);
    SearchKeepsOrderly(g, nodes, before, FRESH);
    RootExact(g, nodes, u, s);
    assert forall n <- before + [u] :: n in nodes;
    SearchSplit(g, nodes, before + [u], after, FRESH);
    SearchSplit(g, nodes, before, [u], FRESH);
    assert SearchAll(g, nodes, [u], s) == Visit(g, nodes, u, [], s) by { assert [u][1..] == []; }
    SearchAllSound(g, nodes, before + [u] + after, FRESH);
  }

  /** So a caller who lists an issue first learns exactly whether it is on a cycle. */
  lemma FirstKeyExact(g: Edges, nodes: set<Node>, keys: seq<Node>)
    requires Closed(g, nodes) && (forall n <- keys :: n in nodes) && keys != []
    ensures keys[0] in SearchAll(g, nodes, keys, FRESH).cyclic <==> OnCycle(g, keys[0])
  {
    assert keys[0] in keys && forall n <- keys[1..] :: n in keys;
    assert [] + [keys[0]] + keys[1..] == keys;
    StartsAreExact(g, nodes, [], keys[0], keys[1..]);
  }

  // ---- When the whole report is exact ----

  ghost predicate Reach(g: Edges, u: Node, v: Node) {
    exists p :: Walk(g, p) && p[0] == u && p[|p| - 1] == v
  }

  /** From each issue at most one prerequisite edge leads back to it. */
  ghost predicate OneWayRound(g: Edges) {
    forall u, v, w :: Edge(g, u, v) && Edge(g, u, w) && Reach(g, v, u) && Reach(g, w, u) ==> v == w
  }

  lemma ReachSelf(g: Edges, u: Node)
    ensures Reach(g, u, u)
  {
    assert Walk(g, [u]) && [u][0] == u;
  }

  lemma ReachOn(g: Edges, u: Node, v: Node, w: Node)
    requires Reach(g, u, v) && Reach(g, v, w)
    ensures Reach(g, u, w)
  {
    var p :| Walk(g, p) && p[0] == u && p[|p| - 1] == v;
    var q :| Walk(g, q) && q[0] == v && q[|q| - 1] == w;
    if |q| == 1 {
      assert p[|p| - 1] == w;
    } else {
      assert q[1..|q|] == q[1..] && Edge(g, q[0], q[1]);
      WalkPart(g, q, 1, |q|);
      WalkJoin(g, p, q[1..]);
      var r := p + q[1..];
      assert r[0] == u && r[|r| - 1] == w;
    }
  }

  lemma ReachEdge(g: Edges, u: Node, v: Node)
    requires Edge(g, u, v)
    ensures Reach(g, u, v)
  {
    assert Walk(g, [u, v]) && [u, v][0] == u && [u, v][1] == v;
  }

  /** A closed walk that passes no node twice. */
  ghost predicate Loop(g: Edges, q: seq<Node>) {
    |q| >= 2 && Walk(g, q) && q[0] == q[|q| - 1] && Distinct(q[..|q| - 1])
  }

  lemma {:induction false} LoopWithin(g: Edges, p: seq<Node>) returns (q: seq<Node>)
    requires |p| >= 2 && Walk(g, p) && p[0] == p[|p| - 1]
    ensures Loop(g, q) && q[0] == p[0]
    decreases |p|
  {
    var core := p[..|p| - 1];
    if Distinct(core) {
      q := p;
    } else {
      var i, j :| 0 <= i < j < |core| && core[i] == core[j];
      var rest := p[j + 1..|p|];
      WalkPart(g, p, 0, i + 1);
      WalkPart(g, p, j + 1, |p|);
      assert Edge(g, p[j], p[j + 1]) && p[0..i + 1][i] == p[j];
      WalkJoin(g, p[0..i + 1], rest);
      q := LoopWithin(g, p[0..i + 1] + rest);
    }
  }

  lemma SliceReaches(g: Edges, q: seq<Node>, i: nat, j: nat)
    requires Walk(g, q) && i <= j < |q|
    ensures Reach(g, q[i], q[j])
  {
    var p := q[i..j + 1];
    WalkPart(g, q, i, j + 1);
    assert Walk(g, p) && p[0] == q[i] && p[|p| - 1] == q[j];
  }

  lemma LoopReaches(g: Edges, q: seq<Node>, i: nat, j: nat)
    requires Loop(g, q) && i < |q| && j < |q|
    ensures Reach(g, q[i], q[j])
  {
    if i <= j {
      SliceReaches(g, q, i, j);
    } else {
      SliceReaches(g, q, i, |q| - 1);
      SliceReaches(g, q, 0, j);
      ReachOn(g, q[i], q[0], q[j]);
    }
  }

  /** Off the loop no successor of a loop node leads back to the loop. */
  lemma OffTheLoop(g: Edges, q: seq<Node>, k: nat, x: Node, j: nat)
    requires OneWayRound(g) && Loop(g, q) && k < |q| - 1 && Edge(g, q[k], x) && x != q[k + 1] && j < |q|
    ensures !Reach(g, x, q[j])
  {
    LoopReaches(g, q, j, k);
    LoopReaches(g, q, k + 1, k);
    assert Edge(g, q[k], q[k + 1]);
    if Reach(g, x, q[j]) { ReachOn(g, x, q[j], q[k]); }
  }

  ghost predicate Mates(g: Edges, n: Node, c: Node) {
    Reach(g, n, c) && Reach(g, c, n)
  }

  /** The loop holds everything its start reaches and is reached from. */
  lemma {:induction false} MatesOnLoop(g: Edges, q: seq<Node>, k: nat, p: seq<Node>)
    requires OneWayRound(g) && Loop(g, q) && k < |q| && Walk(g, p) && p[0] == q[k] && Reach(g, p[|p| - 1], q[0])
    ensures p[|p| - 1] in q
    decreases |p|
  {
    if |p| > 1 {
      var i := if k == |q| - 1 then 0 else k;
      assert q[i] == q[k] && Edge(g, p[0], p[1]);
      WalkPart(g, p, 1, |p|);
      var rest := p[1..|p|];
      assert rest[0] == p[1] && rest[|rest| - 1] == p[|p| - 1];
      assert Reach(g, p[1], p[|p| - 1]);
      ReachOn(g, p[1], p[|p| - 1], q[0]);
      if p[1] != q[i + 1] { OffTheLoop(g, q, i, p[1], 0); }
      MatesOnLoop(g, q, i + 1, rest);
    }
  }

  // ---- Visits that cannot touch a node ----

  lemma {:induction false} VisitLeaves(g: Edges, nodes: set<Node>, u: Node, stack: seq<Node>, s: Search, c: Node)
    requires Closed(g, nodes) && u in nodes && ColourOf(s, u) == White && !Reach(g, u, c)
    ensures ColourOf(Visit(g, nodes, u, stack, s), c) == ColourOf(s, c)
    decreases |Unvisited(nodes, s)|, 1, 0
  {
    Entering(g, nodes, u, s);
    VisitUnfolds(g, nodes, u, stack, s);
    ReachSelf(g, u);
    forall v | v in Successors(g, u)
      ensures !Reach(g, v, c)
    {
      ReachEdge(g, u, v);
      if Reach(g, v, c) { ReachOn(g, u, v, c); }
    }
    VisitAllLeaves(g, nodes, Successors(g, u), stack + [u], s.(colour := s.colour[u := Grey]), c);
  }

  lemma {:induction false} VisitAllLeaves(g: Edges, nodes: set<Node>, succ: seq<Node>, stack: seq<Node>, s: Search,
                                          c: Node)
    requires Closed(g, nodes) && (forall v <- succ :: v in nodes) && forall v <- succ :: !Reach(g, v, c)
    ensures ColourOf(VisitAll(g, nodes, succ, stack, s), c) == ColourOf(s, c)
    decreases |Unvisited(nodes, s)|, 2, |succ|
  {
    if succ != [] {
      var t := AfterFirst(g, nodes, succ, stack, s);
      assert succ[0] in succ && forall v <- succ[1..] :: v in succ;
      if ColourOf(s, succ[0]) == White { VisitLeaves(g, nodes, succ[0], stack, s, c); }
      SubsetSize(Unvisited(nodes, t), Unvisited(nodes, s));
      VisitAllLeaves(g, nodes, succ[1..], stack, t, c);
    }
  }

  // ---- Going round a loop ----

  lemma {:induction false} FromTail(pre: seq<Node>, tail: seq<Node>)
    requires tail != [] && tail[0] !in pre
    ensures From(pre + tail, tail[0]) == tail
    decreases |pre|
  {
    if pre == [] {
      assert pre + tail == tail;
    } else {
      assert (pre + tail)[0] == pre[0] && (pre + tail)[1..] == pre[1..] + tail && pre[0] in pre;
      assert forall x <- pre[1..] :: x in pre;
      FromTail(pre[1..], tail);
    }
  }

  /** The search stands on the loop: what it has passed is on the stack, what is ahead is white. */
  ghost predicate Ahead(q: seq<Node>, k: nat, pre: seq<Node>, s: Search) {
    && |q| >= 2 && q[0] !in pre && (k > 0 ==> ColourOf(s, q[0]) == Grey)
    && forall j :: k <= j < |q| - 1 ==> ColourOf(s, q[j]) == White
  }

  ghost predicate AllIn(q: seq<Node>, cyclic: set<Node>) {
    forall j :: 0 <= j < |q| ==> q[j] in cyclic
  }

  lemma StepAhead(g: Edges, q: seq<Node>, k: nat, pre: seq<Node>, s: Search)
    requires Loop(g, q) && k < |q| - 1 && Ahead(q, k, pre, s)
    ensures Ahead(q, k + 1, pre, s.(colour := s.colour[q[k] := Grey]))
  {
    assert forall j :: 0 <= j < |q| - 1 ==> q[..|q| - 1][j] == q[j];
  }

  lemma {:induction false} RoundFrom(g: Edges, nodes: set<Node>, q: seq<Node>, k: nat, pre: seq<Node>, s: Search)
    requires Closed(g, nodes) && OneWayRound(g) && Loop(g, q) && k < |q| - 1 && Ahead(q, k, pre, s) && q[k] in nodes
    ensures AllIn(q, Visit(g, nodes, q[k], pre + q[..k], s).cyclic)
    decreases |Unvisited(nodes, s)|, 1, 0
  {
    Entering(g, nodes, q[k], s);
    VisitUnfolds(g, nodes, q[k], pre + q[..k], s);
    assert pre + q[..k] + [q[k]] == pre + q[..k + 1];
    assert Edge(g, q[k], q[k + 1]);
    var entered := s.(colour := s.colour[q[k] := Grey]);
    StepAhead(g, q, k, pre, s);
    hide Visit, VisitAll, Unvisited;
    RoundAll(g, nodes, q, k, Successors(g, q[k]), pre, entered);
  }

  lemma {:induction false} RoundAll(g: Edges, nodes: set<Node>, q: seq<Node>, k: nat, succ: seq<Node>, pre: seq<Node>,
                                    s: Search)
    requires Closed(g, nodes) && OneWayRound(g) && Loop(g, q) && k < |q| - 1 && Ahead(q, k + 1, pre, s)
    requires (forall v <- succ :: v in nodes && Edge(g, q[k], v)) && q[k + 1] in succ
    ensures AllIn(q, VisitAll(g, nodes, succ, pre + q[..k + 1], s).cyclic)
    decreases |Unvisited(nodes, s)|, 2, |succ|
  {
    var (v, m, stack) := (succ[0], |q| - 1, pre + q[..k + 1]);
    var t := AfterFirst(g, nodes, succ, stack, s);
    assert v in succ && forall x <- succ[1..] :: x in succ;
    if v == q[k + 1] {
      if k + 1 == m {
        FromTail(pre, q[..m]);
        assert forall j :: 0 <= j < m ==> q[..m][j] == q[j];
        assert AllIn(q, t.cyclic);
      } else {
        RoundFrom(g, nodes, q, k + 1, pre, s);
      }
    } else {
      forall j | 0 <= j < |q|
        ensures ColourOf(t, q[j]) == ColourOf(s, q[j])
      {
        OffTheLoop(g, q, k, v, j);
        if ColourOf(s, v) == White { VisitLeaves(g, nodes, v, stack, s, q[j]); }
      }
      SubsetSize(Unvisited(nodes, t), Unvisited(nodes, s));
      RoundAll(g, nodes, q, k, succ[1..], pre, t);
    }
  }

  // ---- All or nothing ----

  /** Either nothing on the node's cycles has been touched, or the node is reported. */
  ghost predicate Settled(g: Edges, s: Search, n: Node) {
    n in s.cyclic || forall c :: Mates(g, n, c) ==> ColourOf(s, c) == White
  }

  lemma {:induction false} VisitSettles(g: Edges, nodes: set<Node>, u: Node, stack: seq<Node>, s: Search, n: Node)
    requires Closed(g, nodes) && OneWayRound(g) && OnCycle(g, n) && u in nodes && ColourOf(s, u) == White
    requires Settled(g, s, n) && forall x <- stack :: ColourOf(s, x) != White
    ensures Settled(g, Visit(g, nodes, u, stack, s), n)
    decreases |Unvisited(nodes, s)|, 1, 0
  {
    if n !in s.cyclic {
      if Mates(g, n, u) {
        MateReports(g, nodes, u, stack, s, n);
      } else {
        Entering(g, nodes, u, s);
        VisitUnfolds(g, nodes, u, stack, s);
        var entered := s.(colour := s.colour[u := Grey]);
        VisitAllSettles(g, nodes, Successors(g, u), stack + [u], entered, n);
        hide VisitAll, Visit, Unvisited, Closed;
        var left := VisitAll(g, nodes, Successors(g, u), stack + [u], entered);
        assert n in left.cyclic || forall c :: Mates(g, n, c) ==> c != u;
      }
    }
  }

  lemma {:induction false} VisitAllSettles(g: Edges, nodes: set<Node>, succ: seq<Node>, stack: seq<Node>, s: Search,
                                           n: Node)
    requires Closed(g, nodes) && OneWayRound(g) && OnCycle(g, n) && forall v <- succ :: v in nodes
    requires Settled(g, s, n) && forall x <- stack :: ColourOf(s, x) != White
    ensures Settled(g, VisitAll(g, nodes, succ, stack, s), n)
    decreases |Unvisited(nodes, s)|, 2, |succ|
  {
    if succ != [] {
      var t := AfterFirst(g, nodes, succ, stack, s);
      assert succ[0] in succ;
      if ColourOf(s, succ[0]) == White {
        VisitSettles(g, nodes, succ[0], stack, s, n);
        forall x | x in stack
          ensures ColourOf(t, x) != White
        {
          VisitKeeps(g, nodes, succ[0], stack, s, x);
        }
      }
      SubsetSize(Unvisited(nodes, t), Unvisited(nodes, s));
      VisitAllSettles(g, nodes, succ[1..], stack, t, n);
    }
  }

  /** The first node of `n`'s cycles to be visited takes the search all the way round. */
  lemma MateReports(g: Edges, nodes: set<Node>, u: Node, stack: seq<Node>, s: Search, n: Node)
    requires Closed(g, nodes) && OneWayRound(g) && OnCycle(g, n) && u in nodes && Mates(g, n, u)
    requires (forall c :: Mates(g, n, c) ==> ColourOf(s, c) == White) && forall x <- stack :: ColourOf(s, x) != White
    ensures ColourOf(s, u) == White && n in Visit(g, nodes, u, stack, s).cyclic
  {
    hide Visit, VisitAll, Closed;
    var q := LoopAt(g, n, u);
    forall j | 0 <= j < |q|
      ensures Mates(g, n, q[j])
    {
      LoopReaches(g, q, 0, j);
      LoopReaches(g, q, j, 0);
      ReachOn(g, n, u, q[j]);
      ReachOn(g, q[j], u, n);
    }
    assert Ahead(q, 0, stack, s);
    assert q[..0] == [] && stack + [] == stack;
    RoundFrom(g, nodes, q, 0, stack, s);
    var p :| Walk(g, p) && p[0] == u && p[|p| - 1] == n;
    MatesOnLoop(g, q, 0, p);
  }

  /** A loop through a mate of a node on a cycle. */
  lemma LoopAt(g: Edges, n: Node, u: Node) returns (q: seq<Node>)
    requires OnCycle(g, n) && Mates(g, n, u)
    ensures Loop(g, q) && q[0] == u
  {
    var c :| Walk(g, c) && |c| >= 2 && c[0] == n && c[|c| - 1] == n;
    var a :| Walk(g, a) && a[0] == u && a[|a| - 1] == n;
    var b :| Walk(g, b) && b[0] == n && b[|b| - 1] == u;
    WalkPart(g, c, 1, |c|);
    assert Edge(g, c[0], c[1]);
    var tail := c[1..|c|];
    WalkJoin(g, a, tail);
    if |b| == 1 {
      q := LoopWithin(g, a + tail);
    } else {
      WalkPart(g, b, 1, |b|);
      assert Edge(g, b[0], b[1]);
      WalkJoin(g, a + tail, b[1..|b|]);
      q := LoopWithin(g, a + tail + b[1..|b|]);
    }
  }

  lemma {:induction false} SearchSettles(g: Edges, nodes: set<Node>, keys: seq<Node>, s: Search, n: Node)
    requires Closed(g, nodes) && OneWayRound(g) && OnCycle(g, n) && (forall x <- keys :: x in nodes) && Settled(g, s, n)
    ensures Settled(g, SearchAll(g, nodes, keys, s), n)
    decreases |keys|
  {
    if keys != [] {
      assert keys[0] in keys && forall x <- keys[1..] :: x in keys;
      var t := if ColourOf(s, keys[0]) == White then Visit(g, nodes, keys[0], [], s) else s;
      if ColourOf(s, keys[0]) == White { VisitSettles(g, nodes, keys[0], [], s, n); }
      SearchSettles(g, nodes, keys[1..], t, n);
    }
  }

  /** When each issue has at most one edge that leads back to it, the report is exactly the issues on a cycle,
      whatever the order of keys and edges. */
  lemma OneWayIsExact(g: Edges, nodes: set<Node>, keys: seq<Node>)
    requires Closed(g, nodes) && (forall n :: n in keys <==> n in g) && OneWayRound(g)
    ensures forall n :: n in SearchAll(g, nodes, keys, FRESH).cyclic <==> OnCycle(g, n)
  {
    SearchExact(g, nodes, keys);
    SearchAllSound(g, nodes, keys, FRESH);
    hide SearchAll;
    forall n | OnCycle(g, n)
      ensures n in SearchAll(g, nodes, keys, FRESH).cyclic
    {
      var p :| Walk(g, p) && |p| >= 2 && p[0] == n && p[|p| - 1] == n;
      assert Edge(g, p[0], p[1]);
      SearchSettles(g, nodes, keys, FRESH, n);
      ReachSelf(g, n);
      assert Mates(g, n, n) && n in keys;
    }
  }

  // ---- The condition is not necessary ----

  /** Two loops through issue 1. */
  const FIGURE_EIGHT: Edges := map[N1 := [N2, N3], N2 := [N1], N3 := [N1]]

  lemma FigureEightReported()
    ensures Closed(FIGURE_EIGHT, {N1, N2, N3}) && !OneWayRound(FIGURE_EIGHT)
    ensures forall n :: n in SearchAll(FIGURE_EIGHT, {N1, N2, N3}, [N1, N2, N3], FRESH).cyclic <==>
      OnCycle(FIGURE_EIGHT, n)
  {
    var (g, nodes) := (FIGURE_EIGHT, {N1, N2, N3});
    assert N2 in g[N1] && N3 in g[N1] && N1 in g[N2] && N1 in g[N3];
    ReachEdge(g, N2, N1);
    ReachEdge(g, N3, N1);
    assert Edge(g, N1, N2) && Edge(g, N1, N3);
    var r := EightSearched();
    SearchExact(g, nodes, [N1, N2, N3]);
    hide Visit, VisitAll, OnCycle, Reach, OneWayRound;
    AllVisited(g, nodes, [N2, N3], r);
    assert [N1, N2, N3][1..] == [N2, N3];
    forall n | OnCycle(g, n)
      ensures n in r.cyclic
    {
      CycleIsKey(g, n);
    }
  }

  lemma CycleIsKey(g: Edges, n: Node)
    requires OnCycle(g, n)
    ensures n in g
  {
    var p :| Walk(g, p) && |p| >= 2 && p[0] == n && p[|p| - 1] == n;
    assert Edge(g, p[0], p[1]);
  }

  lemma EightSearched() returns (r: Search)
    requires Closed(FIGURE_EIGHT, {N1, N2, N3})
    ensures r == Visit(FIGURE_EIGHT, {N1, N2, N3}, N1, [], FRESH) && {N1, N2, N3} <= r.cyclic
    ensures ColourOf(r, N2) == ColourOf(r, N3) == Black
  {
    var (g, nodes) := (FIGURE_EIGHT, {N1, N2, N3});
    var s1 := FRESH.(colour := FRESH.colour[N1 := Grey]);
    VisitUnfolds(g, nodes, N1, [], FRESH);
    assert [] + [N1] == [N1] && [N1] + [N2] == [N1, N2] && [N1] + [N3] == [N1, N3];
    VisitLeaf(g, nodes, N2, N1, [N1], s1);
    var s2 := Visit(g, nodes, N2, [N1], s1);
    VisitLeaf(g, nodes, N3, N1, [N1], s2);
    var s3 := Visit(g, nodes, N3, [N1], s2);
    assert From([N1, N2], N1) == [N1, N2] && From([N1, N3], N1) == [N1, N3];
    assert [N1, N2][0] == N1 && [N1, N2][1] == N2 && [N1, N3][1] == N3;
    hide Visit, From, Closed;
    assert [N2, N3][1..] == [N3] && [N3][1..] == [];
    assert VisitAll(g, nodes, [], [N1], s3) == s3;
    assert VisitAll(g, nodes, [N3], [N1], s2) == s3;
    assert VisitAll(g, nodes, [N2, N3], [N1], s1) == s3;
    r := s3.(colour := s3.colour[N1 := Black]);
  }
}
