/** Labels and limits: when only the dispatcher edits labels, syncs fit their lease and none fails after the label
    step of a cancelled run, an issue's one workflow label always says where its latest run is. */
module IssueLabels {
  import opened Prelude
  import opened RunStatus
  import opened GitHubSync
  import opened SyncTheorems
  import opened SyncHistories

  predicate Workflow(l: Label) {
    !l.OtherLabel?
  }

  /** `l` is the one workflow label of an issue. */
  ghost predicate Only(labels: set<Label>, l: Label) {
    Workflow(l) && l in labels && forall x <- labels :: Workflow(x) ==> x == l
  }

  /** A run is running, or waits for its label step, or has succeeded. */
  predicate Ongoing(s: Sys, r: RunId)
    requires r in s.runs
  {
    s.runs[r].status.Running? || r !in s.settled || s.runs[r].status.outcome.Succeeded?
  }

  function Expected(s: Sys, r: RunId): Label
    requires r in s.runs
  {
    if Ongoing(s, r) then InProgress else Target(s.runs[r].status.outcome).value
  }

  /** `r` is the newest top-level run of `issue`. */
  predicate Newest(s: Sys, issue: IssueId, r: RunId) {
    issue in s.latest && s.latest[issue] == r && r in s.runs && s.runs[r].parent.None? && s.runs[r].issue == issue
  }

  ghost predicate IssueTidy(s: Sys, issue: IssueId)
    requires issue in s.labels
  {
    if issue in s.latest then Newest(s, issue, s.latest[issue]) && Only(s.labels[issue], Expected(s, s.latest[issue]))
    else exists l :: l != InProgress && Only(s.labels[issue], l)
  }

  predicate Withdrawn(s: Sys, r: RunId)
    requires r in s.runs
  {
    s.runs[r].status == Done(Cancelled)
  }

  /** Only a cancelled run that has taken its label step can be followed by a newer one. A run nobody holds has
      taken its label step if it is synced, and a cancelled one only then. */
  ghost predicate RunTidy(s: Sys, r: RunId)
    requires r in s.runs
  {
    && (r in s.settled ==> Settling(s, r))
    && (s.runs[r].parent.None? ==> Newest(s, s.runs[r].issue, r) || (r in s.settled && Withdrawn(s, r)))
    && (!Held(s, r) && s.runs[r].synced ==> r in s.settled)
    && (!Held(s, r) && r in s.settled && Withdrawn(s, r) ==> s.runs[r].synced)
  }

  /** A sync past its label step has taken it; one before it may be repeating it, but not for a cancelled run. */
  predicate PhaseTidy(s: Sys, i: nat)
    requires i < |s.syncs|
  {
    var (id, p) := (s.syncs[i].run, s.syncs[i].phase);
    Holding(p) && id in s.runs ==> if p.Claimed? then id !in s.settled || !Withdrawn(s, id) else id in s.settled
  }

  ghost predicate Tidy(s: Sys) {
    && s.settled <= s.runs.Keys
    && (forall issue <- s.labels :: IssueTidy(s, issue))
    && (forall r <- s.runs :: RunTidy(s, r))
    && (forall i :: 0 <= i < |s.syncs| ==> PhaseTidy(s, i))
  }

  // ---- Steps that leave labels alone ----

  /** Child runs may appear, running runs may end and syncs may be queued; labels stay. */
  ghost predicate Quiet(s: Sys, t: Sys) {
    && t.settled == s.settled && t.latest == s.latest && t.labels == s.labels
    && |s.syncs| <= |t.syncs|
    && (forall j :: 0 <= j < |s.syncs| ==> t.syncs[j] == s.syncs[j])
    && (forall j :: |s.syncs| <= j < |t.syncs| ==> t.syncs[j].phase.Want?)
    && (forall r <- s.runs :: r in t.runs && Ends(s.runs[r], t.runs[r]))
    && (forall r <- t.runs :: r in s.runs || (t.runs[r].parent.Some? && !t.runs[r].synced))
  }

  predicate Ends(before: Run, after: Run) {
    before == after || (before.status.Running? && after.status.Done? && after.(status := Running) == before)
  }

  lemma QuietHeld(s: Sys, t: Sys, r: RunId)
    requires Quiet(s, t)
    ensures Held(t, r) <==> Held(s, r)
  {
    if Held(s, r) {
      var i :| 0 <= i < |s.syncs| && s.syncs[i].run == r && Holding(s.syncs[i].phase);
      assert t.syncs[i] == s.syncs[i];
    }
  }

  lemma QuietRun(s: Sys, t: Sys, r: RunId)
    requires Known(s) && Tidy(s) && Quiet(s, t) && r in t.runs
    ensures RunTidy(t, r)
  {
    hide IssueTidy, PhaseTidy;
    QuietHeld(s, t, r);
    if r in s.runs {
      assert RunTidy(s, r) && Ends(s.runs[r], t.runs[r]);
    } else {
      assert !Held(s, r) by { NewIsFree(s, r); }
    }
  }

  lemma NewIsFree(s: Sys, r: RunId)
    requires Known(s) && r !in s.runs
    ensures !Held(s, r)
  {
    forall i | 0 <= i < |s.syncs|
      ensures s.syncs[i].run != r
    {
      assert Settling(s, s.syncs[i].run);
    }
  }

  lemma QuietIssue(s: Sys, t: Sys, issue: IssueId)
    requires Tidy(s) && Quiet(s, t) && issue in s.labels
    ensures IssueTidy(t, issue)
  {
    hide Only, Held, PhaseTidy;
    assert IssueTidy(s, issue);
    if issue in s.latest {
      var r := s.latest[issue];
      assert RunTidy(s, r) && Ends(s.runs[r], t.runs[r]);
    }
  }

  lemma QuietKeepsTidy(s: Sys, t: Sys)
    requires Known(s) && Tidy(s) && Quiet(s, t)
    ensures Tidy(t)
  {
    hide IssueTidy, RunTidy;
    forall issue <- t.labels
      ensures IssueTidy(t, issue)
    {
      QuietIssue(s, t, issue);
    }
    forall r <- t.runs
      ensures RunTidy(t, r)
    {
      QuietRun(s, t, r);
    }
    forall i | 0 <= i < |t.syncs|
      ensures PhaseTidy(t, i)
    {
      assert i < |s.syncs| ==> PhaseTidy(s, i);
    }
  }

  /** Only a ready issue is claimed, so the runs it had before have all taken their label step. */
  lemma ClaimKeepsTidy(s: Sys, id: RunId, issue: IssueId)
    requires Known(s) && Tidy(s) && id !in s.runs && issue in s.labels && Ready in s.labels[issue]
    ensures Tidy(ClaimIssue(s, id, issue))
  {
    hide IssueTidy, RunTidy;
    var t := ClaimIssue(s, id, issue);
    forall other <- t.labels
      ensures IssueTidy(t, other)
    {
      ClaimIssueTidy(s, id, issue, other);
    }
    forall r <- t.runs
      ensures RunTidy(t, r)
    {
      ClaimRunTidy(s, id, issue, r);
    }
    forall i | 0 <= i < |t.syncs|
      ensures PhaseTidy(t, i)
    {
      assert PhaseTidy(s, i);
    }
  }

  lemma ReadyIsOver(s: Sys, issue: IssueId)
    requires Tidy(s) && issue in s.labels && Ready in s.labels[issue]
    ensures Only(s.labels[issue], Ready)
    ensures issue in s.latest ==>
      Newest(s, issue, s.latest[issue]) && s.latest[issue] in s.settled && Withdrawn(s, s.latest[issue])
  {
    assert IssueTidy(s, issue);
  }

  lemma ClaimIssueTidy(s: Sys, id: RunId, issue: IssueId, other: IssueId)
    requires Tidy(s) && id !in s.runs && issue in s.labels && Ready in s.labels[issue] && other in s.labels
    ensures IssueTidy(ClaimIssue(s, id, issue), other)
  {
    hide Held, PhaseTidy;
    var t := ClaimIssue(s, id, issue);
    ReadyIsOver(s, issue);
    assert IssueTidy(s, other);
    if other == issue {
      assert Newest(t, issue, id) && Expected(t, id) == InProgress;
      assert Only(t.labels[issue], InProgress);
    } else {
      assert t.labels[other] == s.labels[other];
      if other in s.latest {
        assert Newest(t, other, s.latest[other]) && Expected(t, s.latest[other]) == Expected(s, s.latest[other]);
      } else {
        var l :| l != InProgress && Only(s.labels[other], l);
        assert Only(t.labels[other], l);
      }
    }
  }

  lemma ClaimRunTidy(s: Sys, id: RunId, issue: IssueId, r: RunId)
    requires Known(s) && Tidy(s) && id !in s.runs && issue in s.labels && Ready in s.labels[issue]
    requires r in ClaimIssue(s, id, issue).runs
    ensures RunTidy(ClaimIssue(s, id, issue), r)
  {
    hide IssueTidy, PhaseTidy, Only;
    var t := ClaimIssue(s, id, issue);
    ReadyIsOver(s, issue);
    assert Held(t, r) <==> Held(s, r);
    if r == id {
      NewIsFree(s, id);
    } else {
      assert RunTidy(s, r);
    }
  }

  // ---- The steps of a sync ----

  /** How the run of sync `i` must stand after the sync moves to `p`. */
  ghost predicate Stands(s: Sys, t: Sys, i: nat, p: Phase)
    requires i < |s.syncs| && s.syncs[i].run in t.runs
  {
    var id := s.syncs[i].run;
    && t.latest == s.latest && (t.settled == s.settled || t.settled == s.settled + {id})
    && if Holding(p) then (if p.Claimed? then id !in t.settled || !Withdrawn(t, id) else id in t.settled)
       else if HeldElsewhere(s, i, id) then t.settled == s.settled
       else (t.runs[id].synced ==> id in t.settled) && (id in t.settled && Withdrawn(t, id) ==> t.runs[id].synced)
  }

  /** The run a sync moves stands as its new phase requires; other runs are untouched. */
  lemma MoveKeepsRuns(s: Sys, t: Sys, i: nat, p: Phase)
    requires LeaseInv(s) && Tidy(s) && i < |s.syncs| && MovesTo(s, t, i, p) && s.syncs[i].run in s.runs
    requires AgreesLease(s, t, i, p) && Settling(s, s.syncs[i].run) && Stands(s, t, i, p)
    ensures t.settled <= t.runs.Keys
    ensures forall r <- t.runs :: RunTidy(t, r)
    ensures forall j :: 0 <= j < |t.syncs| ==> PhaseTidy(t, j)
  {
    hide IssueTidy, LeaseInv, Target;
    forall r <- t.runs
      ensures RunTidy(t, r)
    {
      MoveKeepsRun(s, t, i, p, r);
    }
    forall j | 0 <= j < |t.syncs|
      ensures PhaseTidy(t, j)
    {
      MoveKeepsPhase(s, t, i, p, j);
    }
  }

  lemma MoveKeepsRun(s: Sys, t: Sys, i: nat, p: Phase, r: RunId)
    requires i < |s.syncs| && s.syncs[i].run in s.runs && r in s.runs && RunTidy(s, r)
    requires MovesTo(s, t, i, p) && AgreesLease(s, t, i, p) && Settling(s, s.syncs[i].run) && Stands(s, t, i, p)
    ensures RunTidy(t, r)
  {
    MoveHeld(s, i, p);
    assert Held(t, r) <==> Held(Move(s, i, p), r);
    hide Held;
  }

  lemma MoveKeepsPhase(s: Sys, t: Sys, i: nat, p: Phase, j: nat)
    requires i < |s.syncs| && s.syncs[i].run in s.runs && j < |s.syncs| && PhaseTidy(s, j)
    requires MovesTo(s, t, i, p) && AgreesLease(s, t, i, p) && Stands(s, t, i, p)
    ensures PhaseTidy(t, j)
  {
    var id := s.syncs[i].run;
    assert t.syncs[j] == if j == i then Sync(id, p) else s.syncs[j];
    if j != i && Holding(t.syncs[j].phase) && t.syncs[j].run == id { assert HeldElsewhere(s, i, id); }
  }

  lemma MoveKeepsIssues(s: Sys, t: Sys, i: nat, p: Phase)
    requires Known(s) && Tidy(s) && i < |s.syncs| && MovesTo(s, t, i, p)
    requires t.labels == s.labels && t.latest == s.latest && t.settled == s.settled
    ensures forall issue <- t.labels :: IssueTidy(t, issue)
  {
    hide Only, RunTidy, PhaseTidy;
    forall issue <- t.labels
      ensures IssueTidy(t, issue)
    {
      assert IssueTidy(s, issue);
      if issue in s.latest {
        var r := s.latest[issue];
        assert Newest(t, issue, r) && Expected(t, r) == Expected(s, r);
      }
    }
  }

  lemma LeaseParts(s: Sys, i: nat)
    requires LeaseInv(s) && i < |s.syncs|
    ensures Known(s) && Apart(s) && Settling(s, s.syncs[i].run) && Leased(s, i)
  {
  }

  lemma TakeLeaseKeepsTidy(s: Sys, i: nat)
    requires LeaseInv(s) && Tidy(s) && Timely(s) && i < |s.syncs| && s.syncs[i].phase.Want? && s.syncs[i].run in s.runs
    ensures Tidy(TakeLease(s, i))
  {
    hide LeaseInv, Timely, IssueTidy, Target;
    LeaseParts(s, i);
    var (id, t) := (s.syncs[i].run, TakeLease(s, i));
    assert RunTidy(s, id);
    MoveHeld(s, i, Gone);
    if Stale(s.runs[id], s.now) { StaleIsFree(s, id); }
    MoveKeepsRuns(s, t, i, t.syncs[i].phase);
    MoveKeepsIssues(s, t, i, t.syncs[i].phase);
  }

  lemma CommentKeepsTidy(s: Sys, i: nat)
    requires LeaseInv(s) && Tidy(s) && i < |s.syncs| && s.syncs[i].phase.Swapped? && s.syncs[i].run in s.comments
    ensures Tidy(PostComment(s, i))
  {
    hide LeaseInv, IssueTidy, RunTidy, Target, Held, Apart;
    LeaseParts(s, i);
    HolderIsAlone(s, i);
    var t := PostComment(s, i);
    assert PhaseTidy(s, i);
    MoveKeepsRuns(s, t, i, t.syncs[i].phase);
    MoveKeepsIssues(s, t, i, t.syncs[i].phase);
  }

  lemma FinishKeepsTidy(s: Sys, i: nat)
    requires LeaseInv(s) && Tidy(s) && i < |s.syncs| && s.syncs[i].phase.Commented? && s.syncs[i].run in s.runs
    ensures Tidy(Finish(s, i))
  {
    hide LeaseInv, IssueTidy, RunTidy, Target, Held, Apart;
    LeaseParts(s, i);
    HolderIsAlone(s, i);
    var t := Finish(s, i);
    assert PhaseTidy(s, i);
    MoveKeepsRuns(s, t, i, Gone);
    MoveKeepsIssues(s, t, i, Gone);
  }

  /** A failure after the label step of a cancelled run: its label step will be repeated. */
  predicate Harmful(s: Sys, e: Event) {
    && e.SyncFail? && e.i < |s.syncs| && Holding(s.syncs[e.i].phase) && !s.syncs[e.i].phase.Claimed?
    && s.syncs[e.i].run in s.runs && Withdrawn(s, s.syncs[e.i].run)
  }

  lemma FailKeepsTidy(s: Sys, i: nat)
    requires LeaseInv(s) && Tidy(s) && i < |s.syncs| && Holding(s.syncs[i].phase) && !Harmful(s, SyncFail(i))
    ensures Tidy(Move(s, i, Gone))
  {
    hide LeaseInv, IssueTidy, RunTidy, Target, Held, Apart;
    LeaseParts(s, i);
    HolderIsAlone(s, i);
    var t := Move(s, i, Gone);
    assert PhaseTidy(s, i);
    MoveKeepsRuns(s, t, i, Gone);
    MoveKeepsIssues(s, t, i, Gone);
  }

  /** The run that takes its label step is its issue's newest. The issue was in progress, or already had the
      label the step gives it. */
  lemma RelabelKeepsIssue(s: Sys, i: nat, issue: IssueId)
    requires Known(s) && Tidy(s) && i < |s.syncs| && s.syncs[i].phase.Claimed? && Settling(s, s.syncs[i].run)
    requires s.runs[s.syncs[i].run].issue in s.labels && issue in s.labels
    ensures IssueTidy(Relabel(s, i), issue)
  {
    hide Held;
    var (id, t) := (s.syncs[i].run, Relabel(s, i));
    assert PhaseTidy(s, i) && RunTidy(s, id) && IssueTidy(s, s.runs[id].issue) && IssueTidy(s, issue);
    assert Newest(s, s.runs[id].issue, id);
    if issue == s.runs[id].issue {
      assert Newest(t, issue, id);
      assert Only(t.labels[issue], Expected(t, id));
    } else {
      assert t.labels[issue] == s.labels[issue];
      assert issue in s.latest ==> Expected(t, s.latest[issue]) == Expected(s, s.latest[issue]);
      if issue !in s.latest {
        var l :| l != InProgress && Only(s.labels[issue], l);
        assert Only(t.labels[issue], l);
      }
    }
  }

  lemma RelabelKeepsTidy(s: Sys, i: nat)
    requires LeaseInv(s) && Tidy(s) && i < |s.syncs| && s.syncs[i].phase.Claimed? && Settling(s, s.syncs[i].run)
    requires s.runs[s.syncs[i].run].issue in s.labels
    ensures Tidy(Relabel(s, i))
  {
    hide LeaseInv, IssueTidy, RunTidy, Target, Held, Apart;
    LeaseParts(s, i);
    HolderIsAlone(s, i);
    var t := Relabel(s, i);
    MoveKeepsRuns(s, t, i, t.syncs[i].phase);
    forall issue <- t.labels
      ensures IssueTidy(t, issue)
    {
      RelabelKeepsIssue(s, i, issue);
    }
  }

  lemma StepKeepsTidy(s: Sys, max: Option<nat>, e: Event)
    requires LeaseInv(s) && Tidy(s) && Timely(s) && Known(s) && Enabled(s, max, e) && !Harmful(s, e)
    ensures Tidy(Apply(s, max, e))
  {
    hide LeaseInv, Tidy, Timely, ActiveIssues, Stale, Target, SwapLabel, Harmful, Quiet;
    hide Relabel, PostComment, Finish, TakeLease, Move;
    match e
    case Claim(id, issue) => ClaimKeepsTidy(s, id, issue);
    case SyncClaim(i) => TakeLeaseKeepsTidy(s, i);
    case SyncLabel(i) => RelabelKeepsTidy(s, i);
    case SyncComment(i) => CommentKeepsTidy(s, i);
    case SyncFinish(i) => FinishKeepsTidy(s, i);
    case SyncFail(i) => FailKeepsTidy(s, i);
    case SpawnChild(_, _) => OtherStepKeepsTidy(s, max, e);
    case Complete(_, _) => OtherStepKeepsTidy(s, max, e);
    case Resync(_) => OtherStepKeepsTidy(s, max, e);
    case Tick(_) => OtherStepKeepsTidy(s, max, e);
  }

  lemma OtherStepKeepsTidy(s: Sys, max: Option<nat>, e: Event)
    requires Tidy(s) && Known(s) && Enabled(s, max, e) && (e.SpawnChild? || e.Complete? || e.Resync? || e.Tick?)
    ensures Tidy(Apply(s, max, e))
  {
    hide Tidy, ActiveIssues, TakeLease, Relabel, PostComment, Finish, Move;
    QuietKeepsTidy(s, Apply(s, max, e));
  }

  // ---- Over whole runs ----

  /** Before any claim every issue has one workflow label, and none is in progress. */
  ghost predicate Untouched(labels: map<IssueId, set<Label>>) {
    forall issue <- labels :: exists l :: l != InProgress && Only(labels[issue], l)
  }

  /** No failure of `es` comes after the label step of a cancelled run. */
  ghost predicate Harmless(s: Sys, max: Option<nat>, es: seq<Event>)
    requires Known(s) && Legal(s, max, es)
    decreases |es|
  {
    es != [] ==> !Harmful(s, es[0]) && (StepKnown(s, max, es[0]); Harmless(Apply(s, max, es[0]), max, es[1..]))
  }

  lemma {:induction false} PlayKeepsTidy(s: Sys, max: Option<nat>, es: seq<Event>)
    requires Known(s) && Legal(s, max, es) && Prompt(s, max, es) && Harmless(s, max, es) && LeaseInv(s) && Tidy(s)
    ensures Known(Play(s, max, es)) && Tidy(Play(s, max, es)) && LeaseInv(Play(s, max, es))
    decreases |es|
  {
    hide LeaseInv, Tidy, Enabled, Apply, Timely, Known, Harmful;
    if es != [] {
      StepKeepsLeases(s, max, es[0]);
      StepKeepsTidy(s, max, es[0]);
      StepKnown(s, max, es[0]);
      PlayKeepsTidy(Apply(s, max, es[0]), max, es[1..]);
    }
  }

  lemma ReachedIsTidy(labels: map<IssueId, set<Label>>, max: Option<nat>, es: seq<Event>)
    requires Untouched(labels) && Legal(Start(labels), max, es)
    requires Prompt(Start(labels), max, es) && Harmless(Start(labels), max, es)
    ensures Known(Play(Start(labels), max, es))
    ensures Tidy(Play(Start(labels), max, es)) && LeaseInv(Play(Start(labels), max, es))
  {
    hide Legal, Prompt, Play, Harmless;
    assert Tidy(Start(labels));
    PlayKeepsTidy(Start(labels), max, es);
  }

  /** Every issue carries exactly one workflow label: in progress exactly while its newest top-level run is
      running, awaits its label step or has succeeded; otherwise ready if that run was cancelled and blocked if it
      failed, timed out, went over budget or was blocked. Calls may fail, except after the label step of a cancelled
      run. */
  lemma LabelsAgree(labels: map<IssueId, set<Label>>, max: Option<nat>, es: seq<Event>, issue: IssueId)
    requires Untouched(labels) && Legal(Start(labels), max, es)
    requires Prompt(Start(labels), max, es) && Harmless(Start(labels), max, es)
    requires issue in Play(Start(labels), max, es).labels
    ensures var t := Play(Start(labels), max, es);
      && (exists l :: Only(t.labels[issue], l))
      && (issue in t.latest ==> Newest(t, issue, t.latest[issue]) && t.latest[issue] in t.runs)
      && (InProgress in t.labels[issue] <==> issue in t.latest && Ongoing(t, t.latest[issue]))
      && (issue in t.latest && !Ongoing(t, t.latest[issue]) ==>
            var outcome := t.runs[t.latest[issue]].status.outcome;
            && outcome != Succeeded
            && (Only(t.labels[issue], Ready) <==> outcome == Cancelled)
            && (Only(t.labels[issue], BlockedLabel) <==> outcome in {Failed, TimedOut, BudgetExceeded, Blocked}))
  {
    hide Legal, Prompt, Play, Harmless, Untouched;
    ReachedIsTidy(labels, max, es);
    var t := Play(Start(labels), max, es);
    assert IssueTidy(t, issue);
    if issue in t.latest { assert Only(t.labels[issue], Expected(t, t.latest[issue])); }
  }

  /** No history, prompt or late, failing or not, puts a label on an issue or takes one off it unless that label is
      ready, in progress or blocked: a terminal status never moves an issue to review. */
  lemma {:induction false} OtherLabelsStay(s: Sys, max: Option<nat>, es: seq<Event>, issue: IssueId, l: Label)
    requires Known(s) && Legal(s, max, es) && issue in s.labels && l !in {Ready, InProgress, BlockedLabel}
    ensures var t := Play(s, max, es); issue in t.labels && (l in t.labels[issue] <==> l in s.labels[issue])
    decreases |es|
  {
    hide Enabled, Apply, Known;
    if es != [] {
      StepKnown(s, max, es[0]);
      OtherLabelsStep(s, max, es[0], issue, l);
      OtherLabelsStay(Apply(s, max, es[0]), max, es[1..], issue, l);
    }
  }

  lemma OtherLabelsStep(s: Sys, max: Option<nat>, e: Event, issue: IssueId, l: Label)
    requires Known(s) && Enabled(s, max, e) && issue in s.labels && l !in {Ready, InProgress, BlockedLabel}
    ensures var t := Apply(s, max, e); issue in t.labels && (l in t.labels[issue] <==> l in s.labels[issue])
  {
    hide ActiveIssues, Stale;
    if e.SyncLabel? { assert Settling(s, s.syncs[e.i].run); }
  }

  function TopRunning(s: Sys): set<RunId> {
    set r | r in s.runs && s.runs[r].parent.None? && s.runs[r].status.Running?
  }

  /** An issue has at most one running top-level run. */
  ghost predicate OnePerIssue(s: Sys) {
    forall a, b :: a in TopRunning(s) && b in TopRunning(s) && s.runs[a].issue == s.runs[b].issue ==> a == b
  }

  function IssuesOf(s: Sys, rs: set<RunId>): set<IssueId>
    requires rs <= s.runs.Keys
  {
    set r | r in rs :: s.runs[r].issue
  }

  lemma {:induction false} DistinctIssues(s: Sys, rs: set<RunId>)
    requires OnePerIssue(s) && rs <= TopRunning(s)
    ensures |IssuesOf(s, rs)| == |rs|
    decreases |rs|
  {
    if rs != {} {
      var r :| r in rs;
      DistinctIssues(s, rs - {r});
      assert IssuesOf(s, rs) == IssuesOf(s, rs - {r}) + {s.runs[r].issue};
    }
  }

  lemma TopMove(s: Sys, t: Sys, i: nat, p: Phase)
    requires i < |s.syncs| && MovesTo(s, t, i, p) && s.syncs[i].run in s.runs
    ensures TopRunning(t) == TopRunning(s)
    ensures forall r <- s.runs :: r in t.runs && t.runs[r].issue == s.runs[r].issue
  {
    assert forall r <- s.runs :: t.runs[r].parent == s.runs[r].parent && t.runs[r].status == s.runs[r].status;
  }

  lemma TopSync(s: Sys, max: Option<nat>, e: Event, i: nat)
    requires Known(s) && Enabled(s, max, e)
    requires e in {SyncClaim(i), SyncLabel(i), SyncComment(i), SyncFinish(i), SyncFail(i)}
    ensures TopRunning(Apply(s, max, e)) == TopRunning(s)
    ensures forall r <- s.runs :: r in Apply(s, max, e).runs && Apply(s, max, e).runs[r].issue == s.runs[r].issue
  {
    hide ActiveIssues, Target, SwapLabel, Stale, TopRunning;
    assert Settling(s, s.syncs[i].run);
    TopMove(s, Apply(s, max, e), i, Apply(s, max, e).syncs[i].phase);
  }

  lemma TopStep(s: Sys, max: Option<nat>, e: Event)
    requires Known(s) && Enabled(s, max, e)
    ensures var t := Apply(s, max, e);
      TopRunning(t) ==
        if e.Claim? then TopRunning(s) + {e.id} else if e.Complete? then TopRunning(s) - {e.id} else TopRunning(s)
    ensures forall r <- s.runs :: r in Apply(s, max, e).runs && Apply(s, max, e).runs[r].issue == s.runs[r].issue
    ensures e.Claim? ==> e.id in Apply(s, max, e).runs && Apply(s, max, e).runs[e.id].issue == e.issue
  {
    hide ActiveIssues, Target, SwapLabel, Stale, TakeLease, Relabel, PostComment, Finish, Move;
    match e
    case SyncClaim(i) => TopSync(s, max, e, i);
    case SyncLabel(i) => TopSync(s, max, e, i);
    case SyncComment(i) => TopSync(s, max, e, i);
    case SyncFinish(i) => TopSync(s, max, e, i);
    case SyncFail(i) => TopSync(s, max, e, i);
    case _ =>
  }

  lemma StepKeepsCeiling(s: Sys, max: Option<nat>, e: Event)
    requires Known(s) && Enabled(s, max, e) && OnePerIssue(s)
    ensures OnePerIssue(Apply(s, max, e))
    ensures max.Some? && |TopRunning(s)| <= max.value ==> |TopRunning(Apply(s, max, e))| <= max.value
  {
    hide Apply, Known;
    TopStep(s, max, e);
    var t := Apply(s, max, e);
    if e.Claim? {
      DistinctIssues(s, TopRunning(s));
      SubsetSize(IssuesOf(s, TopRunning(s)), ActiveIssues(s));
    } else {
      SubsetSize(TopRunning(t), TopRunning(s));
    }
  }

  /** On every history, late or failing syncs included: one running top-level run per issue, and no more
      of them than the ceiling. */
  lemma {:induction false} CeilingHolds(s: Sys, max: Option<nat>, es: seq<Event>)
    requires Known(s) && Legal(s, max, es) && OnePerIssue(s) && (max.Some? ==> |TopRunning(s)| <= max.value)
    ensures OnePerIssue(Play(s, max, es))
    ensures max.Some? ==> |TopRunning(Play(s, max, es))| <= max.value
    decreases |es|
  {
    hide Enabled, Apply, Known, TopRunning, OnePerIssue;
    if es != [] {
      StepKnown(s, max, es[0]);
      StepKeepsCeiling(s, max, es[0]);
      CeilingHolds(Apply(s, max, es[0]), max, es[1..]);
    }
  }

  // ---- What a failed comment does ----

  /** The issue, its first run `r` and whether a second run `q` is running. */
  datatype Scene = Scene(run: Run, second: bool, syncs: seq<Sync>, now: real, labels: set<Label>)

  ghost predicate Plays(s: Sys, r: RunId, q: RunId, c: Scene) {
    && Known(s) && r in s.runs && s.runs[r] == c.run && s.syncs == c.syncs && s.now == c.now
    && s.labels[c.run.issue] == c.labels && (q in s.runs <==> c.second)
    && (c.second ==> s.runs[q] == Run(c.run.issue, None, Running, false, None) && Newest(s, c.run.issue, q))
    && (forall x <- s.runs :: x == r || x == q)
  }

  ghost predicate Reaches(s: Sys, es: seq<Event>, r: RunId, q: RunId, c: Scene)
    requires Known(s)
  {
    Legal(s, None, es) && Plays(Play(s, None, es), r, q, c) && Prompt(s, None, es) && Finishing(s, None, es)
  }

  /** The scene after one step of the run `r`'s sync, or the second claim. */
  function Turn(c: Scene, r: RunId, q: RunId, e: Event): Option<Scene> {
    match e
    case Claim(id, issue) =>
      if id == q && q != r && !c.second && issue == c.run.issue && Ready in c.labels && c.run.status.Done? then
        Some(c.(second := true, labels := SwapLabel(c.labels, Ready, InProgress)))
      else None
    case SyncLabel(i) =>
      if i < |c.syncs| && c.syncs[i].run == r && c.syncs[i].phase.Claimed? && c.run.status == Done(Cancelled) then
        Some(c.(syncs := c.syncs[i := Sync(r, Swapped(c.syncs[i].phase.at, c.now))],
                labels := SwapLabel(c.labels, InProgress, Ready)))
      else None
    case SyncComment(_) => None
    case _ =>
      var w := Look(View(c.run, c.syncs, c.now, 0), r, e);
      if w.Some? then Some(Scene(w.value.run, c.second, w.value.syncs, w.value.now, c.labels)) else None
  }

  lemma TurnPlays(s: Sys, r: RunId, q: RunId, c: Scene, e: Event)
    requires Plays(s, r, q, c) && Turn(c, r, q, e).Some?
    ensures Enabled(s, None, e) && Plays(Apply(s, None, e), r, q, Turn(c, r, q, e).value)
  {
    StepKnown(s, None, e);
  }

  lemma Act(s: Sys, es: seq<Event>, r: RunId, q: RunId, c: Scene, e: Event) returns (fs: seq<Event>, d: Scene)
    requires Known(s) && Reaches(s, es, r, q, c) && Turn(c, r, q, e).Some?
    requires OnTime(Turn(c, r, q, e).value.syncs, Turn(c, r, q, e).value.now)
    requires e.SyncFail? ==> e.i < |c.syncs| && !c.syncs[e.i].phase.Commented?
    ensures Some(d) == Turn(c, r, q, e) && Reaches(s, fs, r, q, d)
  {
    hide Known, Legal, Play, Prompt, Finishing, Turn, Enabled, Apply;
    TurnPlays(Play(s, None, es), r, q, c, e);
    Then(s, None, es, e);
    fs, d := es + [e], Turn(c, r, q, e).value;
  }

  lemma AfterCancel(labels: map<IssueId, set<Label>>, issue: IssueId, r: RunId, q: RunId)
    returns (es: seq<Event>, c: Scene)
    requires issue in labels && labels[issue] == {Ready} && r != q
    ensures c == Scene(Run(issue, None, Done(Cancelled), false, None), false, [Sync(r, Want)], 0.0, {InProgress})
    ensures Reaches(Start(labels), es, r, q, c)
  {
    var (s, e0, e1) := (Start(labels), Claim(r, issue), Complete(r, Cancelled));
    c := Scene(Run(issue, None, Done(Cancelled), false, None), false, [Sync(r, Want)], 0.0, {InProgress});
    hide Legal, Play, Prompt, Finishing;
    EmptyHistory(s);
    Then(s, None, [], e0);
    Then(s, None, [] + [e0], e1);
    es := [] + [e0] + [e1];
  }

  /** One failed comment is enough to break the labels: the cancelled run's issue goes back to ready and is
      claimed again, and the retried sync then takes the in-progress label from the new run. */
  lemma FailedCommentSwapsTwice(labels: map<IssueId, set<Label>>, issue: IssueId, r: RunId, q: RunId)
    returns (es: seq<Event>)
    requires issue in labels && labels[issue] == {Ready} && r != q
    ensures Legal(Start(labels), None, es) && Prompt(Start(labels), None, es) && Finishing(Start(labels), None, es)
    ensures var t := Play(Start(labels), None, es);
      q in TopRunning(t) && Newest(t, issue, q) && issue in t.labels && t.labels[issue] == {Ready}
  {
    hide Reaches;
    var s := Start(labels);
    var c;
    es, c := AfterCancel(labels, issue, r, q);
    es, c := Act(s, es, r, q, c, SyncClaim(0));
    es, c := Act(s, es, r, q, c, SyncLabel(0));
    es, c := Act(s, es, r, q, c, SyncFail(0));
    es, c := Act(s, es, r, q, c, Claim(q, issue));
    es, c := Act(s, es, r, q, c, Tick(31.0));
    es, c := Act(s, es, r, q, c, Resync(r));
    es, c := Act(s, es, r, q, c, SyncClaim(1));
    es, c := Act(s, es, r, q, c, SyncLabel(1));
    Staged(s, es, r, q, c);
  }

  lemma Staged(s: Sys, es: seq<Event>, r: RunId, q: RunId, c: Scene)
    requires Known(s) && Reaches(s, es, r, q, c) && c.second
    ensures Legal(s, None, es) && Prompt(s, None, es) && Finishing(s, None, es)
    ensures var t := Play(s, None, es);
      q in TopRunning(t) && Newest(t, c.run.issue, q) && c.run.issue in t.labels && t.labels[c.run.issue] == c.labels
  {
  }
}
