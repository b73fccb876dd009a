/** An issue of the Atlas, by number. */
module AtlasNodes {
  datatype Node = Node(number: nat)
}

/** Containment in the Atlas: each issue has at most one parent. Cycle members are found by walking
    up from every issue, and clearing their parents leaves a forest. */
module AtlasContainment {
  import opened AtlasNodes
  import opened Prelude

  /** Parents of the issues that have one; a parent need not have an entry of its own. */
  type Parents = map<Node, Node>

  /** The k-th ancestor, if the chain reaches that far. */
  function Up(parents: Parents, n: Node, k: nat): Option<Node>
    decreases k
  {
    if k == 0 then Some(n)
    else if n in parents then Up(parents, parents[n], k - 1)
    else None
  }

  ghost predicate OnCycle(parents: Parents, n: Node) {
    exists k :: k > 0 && Up(parents, n, k) == Some(n)
  }

  /** Following parents from `n` stops after at most `steps` of them. */
  ghost predicate StopsWithin(parents: Parents, n: Node, steps: nat) {
    Up(parents, n, steps + 1).None?
  }

  /** path[i] is the i-th ancestor of its first element. */
  ghost predicate Chain(parents: Parents, path: seq<Node>) {
    forall i :: 0 <= i < |path| - 1 ==> path[i] in parents && parents[path[i]] == path[i + 1]
  }

  lemma {:induction false} UpSplit(parents: Parents, n: Node, a: nat, b: nat)
    requires Up(parents, n, a).Some?
    ensures Up(parents, n, a + b) == Up(parents, Up(parents, n, a).value, b)
    decreases a
  {
    if a > 0 {
      UpSplit(parents, parents[n], a - 1, b);
    }
  }

  lemma {:induction false} ChainUp(parents: Parents, path: seq<Node>, i: nat, k: nat)
    requires Chain(parents, path) && i + k < |path|
    ensures Up(parents, path[i], k) == Some(path[i + k])
    decreases k
  {
    if k > 0 {
      ChainUp(parents, path, i + 1, k - 1);
    }
  }

  /** A chain whose last element's parent is path[idx] closes a cycle there. */
  lemma ClosingChain(parents: Parents, path: seq<Node>, idx: nat)
    requires Chain(parents, path) && idx < |path|
    requires path[|path| - 1] in parents && parents[path[|path| - 1]] == path[idx]
    ensures forall i :: idx <= i < |path| ==> OnCycle(parents, path[i])
  {
    var last := |path| - 1;
    forall i | idx <= i < |path|
      ensures OnCycle(parents, path[i])
    {
      ChainUp(parents, path, i, last - i);
      UpSplit(parents, path[i], last - i, 1);
      assert Up(parents, path[last], 1) == Up(parents, path[idx], 0);
      ChainUp(parents, path, idx, i - idx);
      UpSplit(parents, path[i], last - i + 1, i - idx);
    }
  }

  /** From path[idx] on, the ancestors only revisit the closed part. */
  lemma {:induction false} StaysInLoop(parents: Parents, path: seq<Node>, idx: nat, i: nat, k: nat)
    requires Chain(parents, path) && idx <= i < |path|
    requires path[|path| - 1] in parents && parents[path[|path| - 1]] == path[idx]
    ensures exists j :: idx <= j < |path| && Up(parents, path[i], k) == Some(path[j])
    decreases k
  {
    if k > 0 {
      StaysInLoop(parents, path, idx, if i == |path| - 1 then idx else i + 1, k - 1);
    }
  }

  /** A start that lies on a cycle is in the part its own walk closes. */
  lemma CycleStartIsInLoop(parents: Parents, path: seq<Node>, idx: nat)
    requires Chain(parents, path) && Distinct(path) && idx < |path|
    requires path[|path| - 1] in parents && parents[path[|path| - 1]] == path[idx]
    requires OnCycle(parents, path[0])
    ensures idx == 0
  {
    var k :| k > 0 && Up(parents, path[0], k) == Some(path[0]);
    var m := PeriodBeyond(parents, path[0], k, idx);
    ChainUp(parents, path, 0, idx);
    UpSplit(parents, path[0], idx, m - idx);
    StaysInLoop(parents, path, idx, idx, m - idx);
  }

  lemma {:induction false} PeriodBeyond(parents: Parents, n: Node, k: nat, least: nat) returns (m: nat)
    requires k > 0 && Up(parents, n, k) == Some(n)
    ensures m >= least && Up(parents, n, m) == Some(n)
  {
    if least <= k {
      m := k;
    } else {
      var r := PeriodBeyond(parents, n, k, least - k);
      UpSplit(parents, n, k, r);
      m := k + r;
    }
  }

  /** Nothing on a cycle runs out of parents. */
  lemma CycleNeverEnds(parents: Parents, n: Node, k: nat)
    requires OnCycle(parents, n)
    ensures Up(parents, n, k).Some? && Up(parents, n, k).value in parents
  {
    var p :| p > 0 && Up(parents, n, p) == Some(n);
    var m := PeriodBeyond(parents, n, p, k + 1);
    UpShorter(parents, n, k, m - k);
    UpSplit(parents, n, k, m - k);
  }

  lemma {:induction false} UpShorter(parents: Parents, n: Node, k: nat, more: nat)
    requires Up(parents, n, k + more).Some?
    ensures Up(parents, n, k).Some?
    decreases k
  {
    if k > 0 {
      UpShorter(parents, parents[n], k - 1, more);
    }
  }

  method IndexOf(path: seq<Node>, x: Node) returns (idx: nat)
    requires x in path
    ensures idx < |path| && path[idx] == x
  {
    idx := 0;
    while path[idx] != x
      invariant idx < |path| && x !in path[..idx]
      decreases |path| - idx
    {
      idx := idx + 1;
      assert path[..idx] == path[..idx - 1] + [path[idx - 1]];
      assert path == path[..idx] + path[idx..];
    }
  }

  /** The closed part of the walk up from `start`; empty when the walk runs out of parents. */
  method WalkUp(parents: Parents, start: Node) returns (closed: seq<Node>)
    requires start in parents
    ensures forall x <- closed :: OnCycle(parents, x)
    ensures OnCycle(parents, start) ==> start in closed
  {
    var path: seq<Node> := [];
    var cur := start;
    while cur in parents
      invariant Chain(parents, path + [cur]) && (path + [cur])[0] == start
      invariant Distinct(path) && Elems(path) <= parents.Keys
      decreases |parents| - |path|
    {
      if cur in path {
        var idx := IndexOf(path, cur);
        assert (path + [cur])[|path|] == cur;
        forall i | 0 <= i < |path| - 1 ensures path[i] in parents && parents[path[i]] == path[i + 1] {
          assert (path + [cur])[i] == path[i] && (path + [cur])[i + 1] == path[i + 1];
        }
        assert (path + [cur])[|path| - 1] == path[|path| - 1];
        ClosingChain(parents, path, idx);
        if OnCycle(parents, start) {
          CycleStartIsInLoop(parents, path, idx);
        }
        return path[idx..];
      }
      assert Elems(path + [cur]) == Elems(path) + {cur};
      Pigeonhole(path + [cur], parents.Keys);
      path := path + [cur];
      cur := parents[cur];
    }
    if OnCycle(parents, start) {
      ChainUp(parents, path + [cur], 0, |path|);
      CycleNeverEnds(parents, start, |path|);
      assert false;
    }
    return [];
  }

  /** Exactly the issues that lie on a cycle of the parent map. */
  method CycleMembers(parents: Parents, starts: seq<Node>) returns (cyclic: set<Node>)
    requires forall n :: n in starts <==> n in parents
    ensures forall n :: n in cyclic <==> OnCycle(parents, n)
  {
    cyclic := {};
    for i := 0 to |starts|
      invariant forall n <- cyclic :: OnCycle(parents, n)
      invariant forall n <- starts[..i] :: OnCycle(parents, n) ==> n in cyclic
    {
      assert starts[i] in starts && starts[..i + 1] == starts[..i] + [starts[i]];
      var closed := WalkUp(parents, starts[i]);
      cyclic := cyclic + set x | x in closed;
    }
    assert starts[..|starts|] == starts;
    forall n | OnCycle(parents, n) ensures n in parents { CycleNeverEnds(parents, n, 0); }
  }

  /** What the graph keeps after the reported issues lose their parents. */
  function Cleared(parents: Parents, cyclic: set<Node>): Parents {
    map n | n in parents && n !in cyclic :: parents[n]
  }

  /** Clearing exactly the cycle members leaves a forest: from any issue, following parents stops
      within the number of issues that had one. */
  lemma ClearedIsForest(parents: Parents, cyclic: set<Node>, n: Node)
    requires forall x :: x in cyclic <==> OnCycle(parents, x)
    ensures StopsWithin(Cleared(parents, cyclic), n, |parents|)
  {
    var kept := Cleared(parents, cyclic);
    if Up(kept, n, |parents| + 1).Some? {
      var path := LongChain(kept, n, |parents| + 1);
      var heads := path[..|parents| + 1];
      assert Elems(heads) <= kept.Keys;
      SubsetSize(kept.Keys, parents.Keys);
      if Distinct(heads) {
        Pigeonhole(heads, kept.Keys);
      }
      var i, j :| 0 <= i < j < |heads| && heads[i] == heads[j];
      ChainUp(kept, path, i, j - i);
      KeptIsParent(parents, cyclic, path[i], j - i);
      assert false;
    }
  }

  lemma {:induction false} LongChain(parents: Parents, n: Node, k: nat) returns (path: seq<Node>)
    requires Up(parents, n, k).Some?
    ensures |path| == k + 1 && path[0] == n && Chain(parents, path)
    decreases k
  {
    if k == 0 {
      path := [n];
    } else {
      var rest := LongChain(parents, parents[n], k - 1);
      path := [n] + rest;
    }
  }

  lemma {:induction false} KeptIsParent(parents: Parents, cyclic: set<Node>, n: Node, k: nat)
    requires Up(Cleared(parents, cyclic), n, k).Some?
    ensures Up(parents, n, k) == Up(Cleared(parents, cyclic), n, k)
    decreases k
  {
    if k > 0 {
      KeptIsParent(parents, cyclic, parents[n], k - 1);
    }
  }

  /** The containment half of building the graph: the parents that remain, and who lost theirs. */
  method BuildContainment(parents: Parents, starts: seq<Node>) returns (kept: Parents, cyclic: set<Node>)
    requires forall n :: n in starts <==> n in parents
    ensures kept == Cleared(parents, cyclic) && forall n :: n in cyclic <==> OnCycle(parents, n)
    ensures forall n :: n in kept <==> n in parents && !OnCycle(parents, n)
    ensures forall n <- kept :: kept[n] == parents[n]
    ensures forall n :: StopsWithin(kept, n, |parents|)
  {
    cyclic := CycleMembers(parents, starts);
    kept := parents;
    var rest := cyclic;
    while rest != {}
      invariant rest <= cyclic && kept == Cleared(parents, cyclic - rest)
      decreases rest
    {
      var n :| n in rest;
      kept := kept - {n};
      rest := rest - {n};
    }
    assert cyclic - {} == cyclic;
    forall n ensures StopsWithin(kept, n, |parents|) { ClearedIsForest(parents, cyclic, n); }
  }
}
