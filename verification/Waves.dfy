/** Kahn waves over unfinished prerequisites, and what they say about launching. */
module Waves {
  import opened Prelude
  import opened CycleWitness
  import opened Launchability

  type Edges = seq<(Issue, Issue)>

  // ---- Counting the prerequisites that still hold an issue back ----

  function Unfinished(edges: Edges, satisfied: set<Issue>): (e: Edges)
    ensures forall u, v :: (u, v) in e <==> (u, v) in edges && u !in satisfied
  {
    if edges == [] then []
    else
      var rest := Unfinished(edges[..|edges| - 1], satisfied);
      var last := edges[|edges| - 1];
      assert edges == edges[..|edges| - 1] + [last];
      if last.0 in satisfied then rest else rest + [last]
  }

  lemma UnfinishedAppend(edges: Edges, p: (Issue, Issue), satisfied: set<Issue>)
    ensures Unfinished(edges + [p], satisfied) ==
      if p.0 in satisfied then Unfinished(edges, satisfied) else Unfinished(edges, satisfied) + [p]
  {
    assert (edges + [p])[..|edges|] == edges;
  }

  /** Edges into `x` whose source is not in `done`. */
  function Pending(e: Edges, done: set<Issue>, x: Issue): nat {
    if e == [] then 0
    else
      var (last, rest) := (e[|e| - 1], e[..|e| - 1]);
      Pending(rest, done, x) + if last.1 == x && last.0 !in done then 1 else 0
  }

  function Targets(e: Edges, s: Issue): seq<Issue> {
    if e == [] then []
    else
      var (last, rest) := (e[|e| - 1], e[..|e| - 1]);
      Targets(rest, s) + if last.0 == s then [last.1] else []
  }

  function Occurs(list: seq<Issue>, x: Issue): nat {
    if list == [] then 0 else Occurs(list[..|list| - 1], x) + if list[|list| - 1] == x then 1 else 0
  }

  lemma CountsAppend(e: Edges, p: (Issue, Issue), done: set<Issue>, x: Issue)
    ensures Pending(e + [p], done, x) == Pending(e, done, x) + if p.1 == x && p.0 !in done then 1 else 0
    ensures Targets(e + [p], x) == Targets(e, x) + if p.0 == x then [p.1] else []
  {
    assert (e + [p])[..|e|] == e;
  }

  lemma {:induction false} OccursAppend(list: seq<Issue>, y: Issue, x: Issue)
    ensures Occurs(list + [y], x) == Occurs(list, x) + if y == x then 1 else 0
  {
    assert (list + [y])[..|list|] == list;
  }

  /** Placing `s` lowers the count of `x` by one for each edge from s to x. */
  lemma {:induction false} PendingSplit(e: Edges, done: set<Issue>, s: Issue, x: Issue)
    requires s !in done
    ensures Pending(e, done, x) == Pending(e, done + {s}, x) + Occurs(Targets(e, s), x)
  {
    if e != [] {
      var (last, rest) := (e[|e| - 1], e[..|e| - 1]);
      assert e == rest + [last];
      hide Pending, Targets, Occurs;
      PendingSplit(rest, done, s, x);
      CountsAppend(rest, last, done, x);
      CountsAppend(rest, last, done + {s}, x);
      CountsAppend(rest, last, done, s);
      OccursAppend(Targets(rest, s), last.1, x);
      assert Targets(rest, s) + [] == Targets(rest, s);
    }
  }

  lemma {:induction false} PendingZero(e: Edges, done: set<Issue>, x: Issue)
    ensures Pending(e, done, x) == 0 <==> forall p <- e :: p.1 == x ==> p.0 in done
  {
    if e != [] {
      PendingZero(e[..|e| - 1], done, x);
      assert e == e[..|e| - 1] + [e[|e| - 1]];
    }
  }

  // ---- What the waves are ----

  predicate Ascending(s: seq<Issue>) {
    forall i, j :: 0 <= i < j < |s| ==> s[i].rank < s[j].rank
  }

  ghost function Placed(waves: seq<seq<Issue>>): set<Issue> {
    set w, x | w in waves && x in w :: x
  }

  /** Launchable issues not yet placed whose unfinished prerequisites all are. */
  ghost function Ready(launchable: set<Issue>, e: Edges, done: set<Issue>): set<Issue> {
    set x | x in launchable && x !in done && forall p <- e :: p.1 == x ==> p.0 in done
  }

  /** Wave k is exactly what is ready once the earlier waves are done; nothing is ready after the last. */
  ghost predicate KahnWaves(launchable: set<Issue>, e: Edges, waves: seq<seq<Issue>>) {
    && (forall k :: 0 <= k < |waves| ==>
          waves[k] != [] && Ascending(waves[k]) && Elems(waves[k]) == Ready(launchable, e, Placed(waves[..k])))
    && Ready(launchable, e, Placed(waves)) == {}
  }

  lemma PlacedAppend(waves: seq<seq<Issue>>, w: seq<Issue>)
    ensures Placed(waves + [w]) == Placed(waves) + Elems(w)
  {
    forall x ensures x in Placed(waves + [w]) <==> x in Placed(waves) + Elems(w) {
      if x in Elems(w) {
        assert w in waves + [w];
      }
      if x in Placed(waves) {
        var v :| v in waves && x in v;
        assert v in waves + [w];
      }
    }
  }

  method Sorted(s: set<Issue>) returns (list: seq<Issue>)
    ensures Ascending(list) && Elems(list) == s
  {
    list := [];
    var rest := s;
    while rest != {}
      invariant Ascending(list) && forall x :: x in s <==> x in list || x in rest
      invariant forall x, y :: x in list && y in rest ==> x.rank < y.rank
      decreases rest
    {
      var least := Least(rest);
      assert forall i :: 0 <= i < |list| ==> list[i] in list;
      list := list + [least];
      rest := rest - {least};
    }
  }

  method Least(s: set<Issue>) returns (low: Issue)
    requires s != {}
    ensures low in s && forall x <- s :: low.rank <= x.rank
  {
    low :| low in s;
    var rest := s - {low};
    while rest != {}
      invariant low in s && rest <= s && forall x <- s :: x in rest || low.rank <= x.rank
      decreases rest
    {
      var x :| x in rest;
      if x.rank < low.rank {
        low := x;
      }
      rest := rest - {x};
    }
  }

  /** In-degrees and successor lists agree with the edges whose sources are not done. */
  ghost predicate Table(e: Edges, done: set<Issue>, incoming: map<Issue, int>, outgoing: map<Issue, seq<Issue>>) {
    && incoming.Keys == outgoing.Keys
    && (forall p <- e :: p.1 in incoming)
    && forall x <- incoming :: incoming[x] == Pending(e, done, x) && outgoing[x] == Targets(e, x)
  }

  lemma TableAdd(e: Edges, p: (Issue, Issue), incoming: map<Issue, int>, outgoing: map<Issue, seq<Issue>>)
    requires Table(e, {}, incoming, outgoing) && p.0 in incoming && p.1 in incoming
    ensures Table(e + [p], {}, incoming[p.1 := incoming[p.1] + 1], outgoing[p.0 := outgoing[p.0] + [p.1]])
  {
    hide Pending, Targets;
    forall x { CountsAppend(e, p, {}, x); }
  }

  /** The table after reading one more edge, which counts only if its source is unfinished. */
  method ReadEdge(incoming: map<Issue, int>, outgoing: map<Issue, seq<Issue>>, satisfied: set<Issue>, p: (Issue, Issue),
                  ghost before: Edges)
    returns (inc: map<Issue, int>, out: map<Issue, seq<Issue>>)
    requires Table(Unfinished(before, satisfied), {}, incoming, outgoing) && p.0 in incoming && p.1 in incoming
    ensures inc.Keys == incoming.Keys && Table(Unfinished(before + [p], satisfied), {}, inc, out)
  {
    hide Unfinished, Table;
    UnfinishedAppend(before, p, satisfied);
    inc, out := incoming, outgoing;
    if p.0 !in satisfied {
      TableKeys(Unfinished(before, satisfied), incoming, outgoing);
      TableAdd(Unfinished(before, satisfied), p, incoming, outgoing);
      inc := incoming[p.1 := incoming[p.1] + 1];
      out := outgoing[p.0 := outgoing[p.0] + [p.1]];
    }
  }

  /** One pass over the edges, skipping those whose source is satisfied. */
  method Degrees(ids: set<Issue>, edges: Edges, satisfied: set<Issue>)
    returns (incoming: map<Issue, int>, outgoing: map<Issue, seq<Issue>>)
    requires forall i :: 0 <= i < |edges| ==> edges[i].0 in ids && edges[i].1 in ids
    ensures incoming.Keys == ids && Table(Unfinished(edges, satisfied), {}, incoming, outgoing)
  {
    incoming, outgoing := map x | x in ids :: 0, map x | x in ids :: [];
    assert Table(Unfinished(edges[..0], satisfied), {}, incoming, outgoing);
    for i := 0 to |edges|
      invariant incoming.Keys == ids && Table(Unfinished(edges[..i], satisfied), {}, incoming, outgoing)
    {
      hide *;
      incoming, outgoing := ReadEdge(incoming, outgoing, satisfied, edges[i], edges[..i]);
      assert edges[..i + 1] == edges[..i] + [edges[i]];
    }
    assert edges[..|edges|] == edges;
  }

  lemma TableKeys(e: Edges, incoming: map<Issue, int>, outgoing: map<Issue, seq<Issue>>)
    requires Table(e, {}, incoming, outgoing)
    ensures outgoing.Keys == incoming.Keys
  {
  }

  /** Takes one placed issue's edges off the table. */
  method Settle(incoming: map<Issue, int>, targets: seq<Issue>, ghost e: Edges, ghost done: set<Issue>,
                ghost source: Issue)
    returns (left: map<Issue, int>)
    requires source !in done && targets == Targets(e, source) && forall t <- targets :: t in incoming
    requires forall x <- incoming :: incoming[x] == Pending(e, done, x)
    ensures left.Keys == incoming.Keys
    ensures forall x <- left :: left[x] == Pending(e, done + {source}, x)
  {
    left := incoming;
    assert forall x :: Occurs(targets[..0], x) == 0;
    hide Pending, Targets, Occurs;
    for i := 0 to |targets|
      invariant left.Keys == incoming.Keys
      invariant forall x <- left :: left[x] == incoming[x] - Occurs(targets[..i], x)
    {
      var t := targets[i];
      assert t in targets;
      forall x ensures Occurs(targets[..i + 1], x) == Occurs(targets[..i], x) + if t == x then 1 else 0 {
        OccursAppend(targets[..i], t, x);
        assert targets[..i + 1] == targets[..i] + [t];
      }
      left := left[t := left[t] - 1];
    }
    assert targets[..|targets|] == targets;
    forall x | x in left ensures left[x] == Pending(e, done + {source}, x) { PendingSplit(e, done, source, x); }
  }

  lemma {:induction false} TargetsKnown(e: Edges, ids: set<Issue>, s: Issue)
    requires forall p <- e :: p.1 in ids
    ensures forall t <- Targets(e, s) :: t in ids
  {
    if e != [] {
      assert e[|e| - 1] in e;
      assert forall p <- e[..|e| - 1] :: p in e;
      TargetsKnown(e[..|e| - 1], ids, s);
    }
  }

  /** Takes a whole wave's edges off the table. */
  method SettleWave(incoming: map<Issue, int>, outgoing: map<Issue, seq<Issue>>, wave: seq<Issue>,
                    ghost e: Edges, ghost done: set<Issue>)
    returns (left: map<Issue, int>)
    requires Table(e, done, incoming, outgoing) && Ascending(wave)
    requires forall x <- wave :: x in incoming && x !in done
    ensures left.Keys == incoming.Keys && Table(e, done + Elems(wave), left, outgoing)
  {
    hide Pending, Targets;
    left := incoming;
    assert done + Elems(wave[..0]) == done;
    for i := 0 to |wave|
      invariant left.Keys == incoming.Keys && Table(e, done + Elems(wave[..i]), left, outgoing)
    {
      assert wave[i] in wave && wave[i] !in wave[..i];
      TargetsKnown(e, left.Keys, wave[i]);
      assert done + Elems(wave[..i + 1]) == (done + Elems(wave[..i])) + {wave[i]} by {
        assert wave[..i + 1] == wave[..i] + [wave[i]];
      }
      left := Settle(left, outgoing[wave[i]], e, done + Elems(wave[..i]), wave[i]);
    }
    assert wave[..|wave|] == wave;
  }

  /** The issues left with no pending edge are the ready ones. */
  lemma ZeroIsReady(e: Edges, done: set<Issue>, incoming: map<Issue, int>, outgoing: map<Issue, seq<Issue>>,
                    launchable: set<Issue>)
    requires Table(e, done, incoming, outgoing) && launchable <= incoming.Keys
    ensures (set x | x in launchable - done && incoming[x] == 0) == Ready(launchable, e, done)
  {
    forall x | x in launchable - done
      ensures incoming[x] == 0 <==> x in Ready(launchable, e, done)
    {
      PendingZero(e, done, x);
    }
  }

  /** Every wave so far is what was ready when it was formed. */
  ghost predicate WavesSoFar(launchable: set<Issue>, e: Edges, waves: seq<seq<Issue>>) {
    forall k :: 0 <= k < |waves| ==>
      waves[k] != [] && Ascending(waves[k]) && Elems(waves[k]) == Ready(launchable, e, Placed(waves[..k]))
  }

  lemma OneMoreWave(launchable: set<Issue>, e: Edges, waves: seq<seq<Issue>>, wave: seq<Issue>)
    requires WavesSoFar(launchable, e, waves)
    requires wave != [] && Ascending(wave) && Elems(wave) == Ready(launchable, e, Placed(waves))
    ensures WavesSoFar(launchable, e, waves + [wave])
  {
    forall k | 0 <= k < |waves + [wave]| ensures (waves + [wave])[..k] == waves[..k] { }
    assert waves[..|waves|] == waves;
  }

  method TopologicalWaves(ids: set<Issue>, edges: Edges, satisfied: set<Issue>, nonLaunchable: set<Issue>)
    returns (waves: seq<seq<Issue>>)
    requires forall i :: 0 <= i < |edges| ==> edges[i].0 in ids && edges[i].1 in ids
    ensures KahnWaves(ids - nonLaunchable, Unfinished(edges, satisfied), waves)
  {
    hide Placed, Pending, Targets, Ready, WavesSoFar, Table, Ascending;
    ghost var e, launchable := Unfinished(edges, satisfied), ids - nonLaunchable;
    var incoming, outgoing := Degrees(ids, edges, satisfied);
    var remaining := ids - nonLaunchable;
    waves := [];
    NothingPlaced(launchable, e);
    while remaining != {}
      invariant remaining == launchable - Placed(waves) && incoming.Keys == ids
      invariant Table(e, Placed(waves), incoming, outgoing) && WavesSoFar(launchable, e, waves)
      decreases remaining
    {
      var free := set x | x in remaining && incoming[x] == 0;
      ZeroIsReady(e, Placed(waves), incoming, outgoing, launchable);
      assert free == Ready(launchable, e, Placed(waves));
      var wave := Sorted(free);
      if wave == [] {
        break;
      }
      assert wave[0] in Elems(wave);
      remaining := remaining - free;
      assert forall x <- wave :: x in free by { assert forall x :: x in wave <==> x in Elems(wave); }
      incoming := SettleWave(incoming, outgoing, wave, e, Placed(waves));
      OneMoreWave(launchable, e, waves, wave);
      PlacedAppend(waves, wave);
      waves := waves + [wave];
    }
    WavesDone(launchable, e, waves);
  }

  lemma NothingPlaced(launchable: set<Issue>, e: Edges)
    ensures Placed([]) == {} && WavesSoFar(launchable, e, [])
  {
  }

  lemma WavesDone(launchable: set<Issue>, e: Edges, waves: seq<seq<Issue>>)
    requires WavesSoFar(launchable, e, waves)
    requires launchable <= Placed(waves) || Ready(launchable, e, Placed(waves)) == {}
    ensures KahnWaves(launchable, e, waves)
  {
  }
}
