/** What holds over whole runs of settlement and synchronisation, and what is lost when a sync outlives
    its lease or dies between its comment and its final write. */
module SyncTheorems {
  import opened Prelude
  import opened RunStatus
  import opened GitHubSync

  function Start(labels: map<IssueId, set<Label>>): Sys {
    Sys(map[], [], 0.0, labels, map[], map[], {})
  }

  ghost predicate Legal(s: Sys, max: Option<nat>, es: seq<Event>)
    requires Known(s)
    decreases |es|
  {
    es == [] || (Enabled(s, max, es[0]) && (StepKnown(s, max, es[0]); Legal(Apply(s, max, es[0]), max, es[1..])))
  }

  ghost function Play(s: Sys, max: Option<nat>, es: seq<Event>): Sys
    requires Known(s) && Legal(s, max, es)
    decreases |es|
  {
    if es == [] then s else StepKnown(s, max, es[0]); Play(Apply(s, max, es[0]), max, es[1..])
  }

  /** Every sync finishes within its lease. */
  ghost predicate Prompt(s: Sys, max: Option<nat>, es: seq<Event>)
    requires Known(s) && Legal(s, max, es)
    decreases |es|
  {
    Timely(s) && (es != [] ==> (StepKnown(s, max, es[0]); Prompt(Apply(s, max, es[0]), max, es[1..])))
  }

  /** No sync dies between its comment and its final write. */
  ghost predicate Finishing(s: Sys, max: Option<nat>, es: seq<Event>)
    requires Known(s) && Legal(s, max, es)
    decreases |es|
  {
    es != [] ==> !LosesFinish(s, es[0]) && (StepKnown(s, max, es[0]); Finishing(Apply(s, max, es[0]), max, es[1..]))
  }

  lemma StartInv(labels: map<IssueId, set<Label>>)
    ensures Inv(Start(labels))
  {
  }

  lemma {:induction false} PlayKeepsInv(s: Sys, max: Option<nat>, es: seq<Event>)
    requires Known(s) && Legal(s, max, es) && Prompt(s, max, es) && Finishing(s, max, es) && Inv(s)
    ensures Inv(Play(s, max, es))
    decreases |es|
  {
    hide Inv, Enabled, Apply, Timely, LosesFinish, Known;
    if es != [] {
      StepKeepsInv(s, max, es[0]);
      StepKnown(s, max, es[0]);
      PlayKeepsInv(Apply(s, max, es[0]), max, es[1..]);
    }
  }

  /** Whatever the interleaving of completions, sweeps and resyncs, a run gets at most one result comment,
      and exactly one once it is synced. */
  lemma AtMostOneComment(labels: map<IssueId, set<Label>>, max: Option<nat>, es: seq<Event>, r: RunId)
    requires Legal(Start(labels), max, es) && Prompt(Start(labels), max, es) && Finishing(Start(labels), max, es)
    requires r in Play(Start(labels), max, es).runs
    ensures var t := Play(Start(labels), max, es);
      r in t.comments && t.comments[r] <= 1 && (t.runs[r].synced ==> t.comments[r] == 1)
  {
    hide Legal, Prompt, Finishing, Play, Timely, Apply;
    StartInv(labels);
    PlayKeepsInv(Start(labels), max, es);
    var t := Play(Start(labels), max, es);
    assert RunOk(t, r);
    if Held(t, r) {
      var i :| 0 <= i < |t.syncs| && t.syncs[i].run == r && Holding(t.syncs[i].phase);
      assert SyncOk(t, i);
    }
  }

  lemma {:induction false} PlayKnown(s: Sys, max: Option<nat>, es: seq<Event>)
    requires Known(s) && Legal(s, max, es)
    ensures Known(Play(s, max, es))
    decreases |es|
  {
    hide Known, Apply, Enabled;
    if es != [] {
      StepKnown(s, max, es[0]);
      PlayKnown(Apply(s, max, es[0]), max, es[1..]);
    }
  }

  /** What no step takes back. */
  ghost predicate Grows(s: Sys, t: Sys, r: RunId)
    requires Known(s) && Known(t) && r in s.runs
  {
    && r in t.runs
    && t.runs[r].issue == s.runs[r].issue && t.runs[r].parent == s.runs[r].parent
    && (s.runs[r].status.Done? ==> t.runs[r].status == s.runs[r].status)
    && (s.runs[r].synced ==> t.runs[r].synced)
    && s.comments[r] <= t.comments[r]
  }

  lemma StepGrows(s: Sys, max: Option<nat>, e: Event, r: RunId)
    requires Known(s) && Enabled(s, max, e) && Known(Apply(s, max, e)) && r in s.runs
    ensures Grows(s, Apply(s, max, e), r)
  {
    hide ActiveIssues, Target, SwapLabel;
  }

  /** With no assumption on timing: a terminal status is final, a synced run stays synced, and no comment
      is taken back. */
  lemma {:induction false} SettlementIsFinal(s: Sys, max: Option<nat>, es: seq<Event>, r: RunId)
    requires Known(s) && Legal(s, max, es) && r in s.runs
    ensures Known(Play(s, max, es)) && Grows(s, Play(s, max, es), r)
    decreases |es|
  {
    hide Enabled, Apply, Known;
    if es != [] {
      StepKnown(s, max, es[0]);
      StepGrows(s, max, es[0], r);
      SettlementIsFinal(Apply(s, max, es[0]), max, es[1..], r);
    }
  }

  /** How many times `r` is completed. */
  function Completions(es: seq<Event>, r: RunId): nat {
    if es == [] then 0 else (if es[0].Complete? && es[0].id == r then 1 else 0) + Completions(es[1..], r)
  }

  /** Over a whole history a run makes exactly one terminal transition if it ends terminal, else none. */
  lemma {:induction false} OneTerminalTransition(s: Sys, max: Option<nat>, es: seq<Event>, r: RunId)
    requires Known(s) && Legal(s, max, es) && (r in s.runs ==> s.runs[r].status.Running?)
    ensures var t := Play(s, max, es);
      Completions(es, r) == if r in t.runs && t.runs[r].status.Done? then 1 else 0
    decreases |es|
  {
    hide Apply, Known;
    if es != [] {
      StepKnown(s, max, es[0]);
      StatusStep(s, max, es[0], r);
      var u := Apply(s, max, es[0]);
      if r in u.runs && u.runs[r].status.Done? {
        DoneStaysDone(u, max, es[1..], r);
      } else {
        OneTerminalTransition(u, max, es[1..], r);
      }
    }
  }

  lemma StatusStep(s: Sys, max: Option<nat>, e: Event, r: RunId)
    requires Known(s) && Enabled(s, max, e) && (r in s.runs ==> s.runs[r].status.Running?)
    ensures var t := Apply(s, max, e);
      (r in t.runs && t.runs[r].status.Done?) <==> e.Complete? && e.id == r
  {
    hide ActiveIssues, Target, SwapLabel;
    if e.SyncClaim? || e.SyncFinish? { assert Settling(s, s.syncs[e.i].run); }
  }

  lemma {:induction false} DoneStaysDone(s: Sys, max: Option<nat>, es: seq<Event>, r: RunId)
    requires Known(s) && Legal(s, max, es) && r in s.runs && s.runs[r].status.Done?
    ensures var t := Play(s, max, es); r in t.runs && t.runs[r].status.Done?
    ensures Completions(es, r) == 0
    decreases |es|
  {
    hide Apply, Known;
    if es != [] {
      StepKnown(s, max, es[0]);
      StepGrows(s, max, es[0], r);
      DoneStaysDone(Apply(s, max, es[0]), max, es[1..], r);
    }
  }

  // ---- Children and claims ----

  /** Each child works on its parent's issue. */
  ghost predicate Family(s: Sys) {
    forall r <- s.runs :: s.runs[r].parent.Some? ==>
      s.runs[r].parent.value in s.runs && s.runs[s.runs[r].parent.value].issue == s.runs[r].issue
  }

  lemma StepKeepsFamily(s: Sys, max: Option<nat>, e: Event)
    requires Known(s) && Enabled(s, max, e) && Family(s)
    ensures Family(Apply(s, max, e))
  {
    var t := Apply(s, max, e);
    forall r | r in s.runs
      ensures Known(t) && Grows(s, t, r)
    {
      StepKnown(s, max, e);
      StepGrows(s, max, e, r);
    }
    NewRunOnly(s, max, e);
    hide Apply, Known;
    if e.Claim? || e.SpawnChild? { FirstRun(s, max, e); }
  }

  lemma NewRunOnly(s: Sys, max: Option<nat>, e: Event)
    requires Known(s) && Enabled(s, max, e)
    ensures Apply(s, max, e).runs.Keys == s.runs.Keys + if e.Claim? || e.SpawnChild? then {e.id} else {}
  {
    hide ActiveIssues, Target, SwapLabel, Stale;
    if e.SyncClaim? || e.SyncFinish? || e.SyncLabel? || e.SyncComment? { assert Settling(s, s.syncs[e.i].run); }
  }

  /** What a new run starts as. */
  lemma FirstRun(s: Sys, max: Option<nat>, e: Event)
    requires Known(s) && Enabled(s, max, e) && (e.Claim? || e.SpawnChild?)
    ensures var t := Apply(s, max, e);
      && e.id in t.runs && e.id !in s.runs && t.runs[e.id].status.Running? && !t.runs[e.id].synced
      && (e.Claim? ==> t.runs[e.id].issue == e.issue && t.runs[e.id].parent.None?)
      && (e.SpawnChild? ==>
            e.parent in s.runs && t.runs[e.id].issue == s.runs[e.parent].issue && t.runs[e.id].parent == Some(e.parent))
  {
  }

  lemma {:induction false} ChildrenKeepIssue(s: Sys, max: Option<nat>, es: seq<Event>)
    requires Known(s) && Legal(s, max, es) && Family(s)
    ensures Family(Play(s, max, es))
    decreases |es|
  {
    hide Enabled, Apply, Known, Family;
    if es != [] {
      StepKnown(s, max, es[0]);
      StepKeepsFamily(s, max, es[0]);
      ChildrenKeepIssue(Apply(s, max, es[0]), max, es[1..]);
    }
  }

  /** An issue can be claimed exactly if it is ready, no run of it, child or not, is running, and fewer issues than
      the ceiling have a running run. */
  lemma ClaimExactly(s: Sys, max: Option<nat>, id: RunId, issue: IssueId, busy: set<IssueId>)
    requires id !in s.runs && issue in s.labels
    requires forall x :: x in busy <==> exists r <- s.runs :: s.runs[r].status.Running? && s.runs[r].issue == x
    ensures Enabled(s, max, Claim(id, issue)) <==>
      && Ready in s.labels[issue] && (max.Some? ==> |busy| < max.value)
      && forall r <- s.runs :: s.runs[r].issue == issue ==> s.runs[r].status.Done?
  {
    assert busy == ActiveIssues(s);
  }

  /** Completing a run changes its status alone, and queues a sync exactly if it is a top-level run. */
  lemma CompleteExactly(s: Sys, max: Option<nat>, id: RunId, outcome: Outcome)
    requires Known(s) && Enabled(s, max, Complete(id, outcome))
    ensures var t := Apply(s, max, Complete(id, outcome));
      && t.runs == s.runs[id := s.runs[id].(status := Done(outcome))]
      && (t.labels, t.comments, t.latest, t.settled, t.now) == (s.labels, s.comments, s.latest, s.settled, s.now)
      && s.syncs <= t.syncs && t.syncs[|s.syncs|..] == if s.runs[id].parent.None? then [Sync(id, Want)] else []
  {
  }

  /** The final write marks the run synced and nothing else, and the sync is gone. */
  lemma FinishExactly(s: Sys, max: Option<nat>, i: nat)
    requires Known(s) && Enabled(s, max, SyncFinish(i))
    ensures var (t, id) := (Apply(s, max, SyncFinish(i)), s.syncs[i].run);
      && t.syncs == s.syncs[i := Sync(id, Gone)] && t.runs == s.runs[id := s.runs[id].(synced := true)]
      && (t.labels, t.comments, t.latest, t.settled, t.now) == (s.labels, s.comments, s.latest, s.settled, s.now)
  {
    assert Settling(s, s.syncs[i].run);
  }
}
