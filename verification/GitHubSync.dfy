/** Settlement as GitHub sees it: terminal transitions under the lock, then a sync outside it that is
    claimed by a lease, swaps the label, comments and finalises. Any number of syncs of the same run,
    from complete() and from resync, interleave. */
module GitHubSync {
  import opened Prelude
  import opened RunStatus

  datatype RunId = RunId(n: nat)
  datatype IssueId = IssueId(n: nat)

  datatype Label = Ready | InProgress | Review | BlockedLabel | OtherLabel(n: nat)

  const LEASE_SECONDS := 30.0

  /** The timeout of one GitHub call. */
  const CALL_SECONDS := 20.0

  datatype Run = Run(issue: IssueId, parent: Option<RunId>, status: Status, synced: bool, claimedAt: Option<real>)

  /** A sync in flight. `at` is when it claimed the run, `labelled` when its label call returned. */
  datatype Phase =
    | Want | Claimed(at: real) | Swapped(at: real, labelled: real) | Commented(at: real, labelled: real) | Gone

  datatype Sync = Sync(run: RunId, phase: Phase)

  /** `comments`, `latest` and `settled` only observe: result comments posted per run, the newest
      top-level run of each issue, and the runs whose label step has been taken. */
  datatype Sys = Sys(
    runs: map<RunId, Run>, syncs: seq<Sync>, now: real, labels: map<IssueId, set<Label>>,
    comments: map<RunId, nat>, latest: map<IssueId, RunId>, settled: set<RunId>)

  datatype Event =
    | Claim(id: RunId, issue: IssueId)
    | SpawnChild(id: RunId, parent: RunId)
    | Complete(id: RunId, outcome: Outcome)
    | Resync(id: RunId)
    | SyncClaim(i: nat)
    | SyncLabel(i: nat)
    | SyncComment(i: nat)
    | SyncFinish(i: nat)
    | SyncFail(i: nat)
    | Tick(dt: real)

  function ActiveIssues(s: Sys): set<IssueId> {
    set id | id in s.runs && s.runs[id].status.Running? :: s.runs[id].issue
  }

  predicate Stale(r: Run, now: real) {
    r.claimedAt.None? || now - r.claimedAt.value > LEASE_SECONDS
  }

  predicate Holding(p: Phase) {
    p.Claimed? || p.Swapped? || p.Commented?
  }

  /** The label a terminal status moves the issue to; a success moves it nowhere. */
  function Target(o: Outcome): Option<Label> {
    match o
    case Succeeded => None
    case Cancelled => Some(Ready)
    case _ => Some(BlockedLabel)
  }

  function SwapLabel(labels: set<Label>, remove: Label, add: Label): set<Label> {
    labels - {remove} + {add}
  }

  predicate Enabled(s: Sys, max: Option<nat>, e: Event) {
    match e
    case Claim(id, issue) =>
      && id !in s.runs && issue in s.labels && issue !in ActiveIssues(s) && Ready in s.labels[issue]
      && (max.Some? ==> |ActiveIssues(s)| < max.value)
    case SpawnChild(id, parent) => id !in s.runs && parent in s.runs
    case Complete(id, _) => id in s.runs && s.runs[id].status.Running?
    case Resync(id) => id in s.runs && s.runs[id].parent.None? && s.runs[id].status.Done? && !s.runs[id].synced
    case SyncClaim(i) => i < |s.syncs| && s.syncs[i].phase.Want?
    case SyncLabel(i) => i < |s.syncs| && s.syncs[i].phase.Claimed?
    case SyncComment(i) => i < |s.syncs| && s.syncs[i].phase.Swapped?
    case SyncFinish(i) => i < |s.syncs| && s.syncs[i].phase.Commented?
    case SyncFail(i) => i < |s.syncs| && Holding(s.syncs[i].phase)
    case Tick(dt) => dt > 0.0
  }

  /** Every sync belongs to a terminal top-level run, and every run to a known issue. */
  ghost predicate Known(s: Sys) {
    && (forall i :: 0 <= i < |s.syncs| ==> Settling(s, s.syncs[i].run))
    && (forall id <- s.runs :: s.runs[id].issue in s.labels)
    && s.comments.Keys == s.runs.Keys
  }

  predicate Settling(s: Sys, id: RunId) {
    id in s.runs && s.runs[id].parent.None? && s.runs[id].status.Done?
  }

  // ---- The steps ----

  function AddRun(s: Sys, id: RunId, r: Run): Sys {
    s.(runs := s.runs[id := r], comments := s.comments[id := 0])
  }

  function ClaimIssue(s: Sys, id: RunId, issue: IssueId): Sys
    requires issue in s.labels
  {
    AddRun(s, id, Run(issue, None, Running, false, None))
      .(labels := s.labels[issue := SwapLabel(s.labels[issue], Ready, InProgress)], latest := s.latest[issue := id])
  }

  function Settle(s: Sys, id: RunId, outcome: Outcome): Sys
    requires id in s.runs
  {
    s.(runs := s.runs[id := s.runs[id].(status := Done(outcome))],
       syncs := if s.runs[id].parent.None? then s.syncs + [Sync(id, Want)] else s.syncs)
  }

  function Move(s: Sys, i: nat, p: Phase): Sys
    requires i < |s.syncs|
  {
    s.(syncs := s.syncs[i := s.syncs[i].(phase := p)])
  }

  /** A lease is taken only on a run that is not synced and whose last lease is stale. */
  function TakeLease(s: Sys, i: nat): Sys
    requires i < |s.syncs| && s.syncs[i].run in s.runs
  {
    var id := s.syncs[i].run;
    if s.runs[id].synced || !Stale(s.runs[id], s.now) then Move(s, i, Gone)
    else Move(s, i, Claimed(s.now)).(runs := s.runs[id := s.runs[id].(claimedAt := Some(s.now))])
  }

  function Relabel(s: Sys, i: nat): Sys
    requires i < |s.syncs| && Settling(s, s.syncs[i].run) && s.syncs[i].phase.Claimed?
    requires s.runs[s.syncs[i].run].issue in s.labels
  {
    var id := s.syncs[i].run;
    var issue := s.runs[id].issue;
    var target := Target(s.runs[id].status.outcome);
    Move(s, i, Swapped(s.syncs[i].phase.at, s.now))
      .(labels := if target.None? then s.labels
                  else s.labels[issue := SwapLabel(s.labels[issue], InProgress, target.value)],
        settled := s.settled + {id})
  }

  function PostComment(s: Sys, i: nat): Sys
    requires i < |s.syncs| && s.syncs[i].run in s.comments && s.syncs[i].phase.Swapped?
  {
    var id := s.syncs[i].run;
    var p := s.syncs[i].phase;
    Move(s, i, Commented(p.at, p.labelled)).(comments := s.comments[id := s.comments[id] + 1])
  }

  function Finish(s: Sys, i: nat): Sys
    requires i < |s.syncs| && s.syncs[i].run in s.runs
  {
    var id := s.syncs[i].run;
    Move(s, i, Gone).(runs := s.runs[id := s.runs[id].(synced := true)])
  }

  function Apply(s: Sys, max: Option<nat>, e: Event): Sys
    requires Known(s) && Enabled(s, max, e)
  {
    match e
    case Claim(id, issue) => ClaimIssue(s, id, issue)
    case SpawnChild(id, parent) => AddRun(s, id, Run(s.runs[parent].issue, Some(parent), Running, false, None))
    case Complete(id, outcome) => Settle(s, id, outcome)
    case Resync(id) => s.(syncs := s.syncs + [Sync(id, Want)])
    case SyncClaim(i) => TakeLease(s, i)
    case SyncLabel(i) => Relabel(s, i)
    case SyncComment(i) => PostComment(s, i)
    case SyncFinish(i) => Finish(s, i)
    case SyncFail(i) => Move(s, i, Gone)
    case Tick(dt) => s.(now := s.now + dt)
  }

  // ---- At most one comment ----

  /** Some sync of `r` has claimed it and not yet finished or failed. */
  ghost predicate Held(s: Sys, r: RunId) {
    exists i :: 0 <= i < |s.syncs| && s.syncs[i].run == r && Holding(s.syncs[i].phase)
  }

  ghost predicate HeldElsewhere(s: Sys, i: nat, r: RunId) {
    exists j :: 0 <= j < |s.syncs| && j != i && s.syncs[j].run == r && Holding(s.syncs[j].phase)
  }

  ghost predicate Apart(s: Sys) {
    forall i, j :: 0 <= i < j < |s.syncs| && Holding(s.syncs[i].phase) && Holding(s.syncs[j].phase) ==>
      s.syncs[i].run != s.syncs[j].run
  }

  /** A holding sync has its run's lease. */
  predicate Leased(s: Sys, i: nat)
    requires i < |s.syncs| && s.syncs[i].run in s.runs
  {
    var (id, p) := (s.syncs[i].run, s.syncs[i].phase);
    Holding(p) ==> s.runs[id].claimedAt == Some(p.at) && !s.runs[id].synced
  }

  ghost predicate LeaseInv(s: Sys) {
    && Known(s) && Apart(s)
    && forall i :: 0 <= i < |s.syncs| ==> s.syncs[i].run in s.runs && Leased(s, i)
  }

  /** It has also commented exactly if its phase says so. */
  ghost predicate SyncOk(s: Sys, i: nat)
    requires Known(s) && i < |s.syncs|
  {
    var (id, p) := (s.syncs[i].run, s.syncs[i].phase);
    Leased(s, i) && (Holding(p) ==> s.comments[id] == if p.Commented? then 1 else 0)
  }

  /** A run nobody holds has one comment exactly if it is synced. */
  ghost predicate RunOk(s: Sys, r: RunId)
    requires Known(s) && r in s.runs
  {
    !Held(s, r) ==> s.comments[r] == if s.runs[r].synced then 1 else 0
  }

  ghost predicate Inv(s: Sys) {
    && Known(s) && Apart(s)
    && (forall i :: 0 <= i < |s.syncs| ==> SyncOk(s, i))
    && (forall r <- s.runs :: RunOk(s, r))
  }

  /** Each sync that holds a run is still within its lease. */
  ghost predicate Timely(s: Sys) {
    forall i :: 0 <= i < |s.syncs| && Holding(s.syncs[i].phase) ==> s.now - s.syncs[i].phase.at <= LEASE_SECONDS
  }

  lemma MoveHeld(s: Sys, i: nat, p: Phase)
    requires i < |s.syncs|
    ensures var id := s.syncs[i].run;
      && (forall r :: r != id ==> (Held(Move(s, i, p), r) <==> Held(s, r)))
      && (Held(Move(s, i, p), id) <==> Holding(p) || HeldElsewhere(s, i, id))
      && (Held(s, id) <==> Holding(s.syncs[i].phase) || HeldElsewhere(s, i, id))
  {
    var (id, t) := (s.syncs[i].run, Move(s, i, p));
    forall r | r != id
      ensures Held(t, r) <==> Held(s, r)
    {
      if Held(s, r) {
        var j :| 0 <= j < |s.syncs| && s.syncs[j].run == r && Holding(s.syncs[j].phase);
        assert t.syncs[j] == s.syncs[j];
      }
      if Held(t, r) {
        var j :| 0 <= j < |t.syncs| && t.syncs[j].run == r && Holding(t.syncs[j].phase);
        assert t.syncs[j] == s.syncs[j];
      }
    }
    if HeldElsewhere(s, i, id) {
      var j :| 0 <= j < |s.syncs| && j != i && s.syncs[j].run == id && Holding(s.syncs[j].phase);
      assert t.syncs[j] == s.syncs[j];
    }
    assert t.syncs[i] == Sync(id, p);
  }

  /** A timely system never grants a lease on a held run. */
  lemma StaleIsFree(s: Sys, r: RunId)
    requires LeaseInv(s) && Timely(s) && r in s.runs && Stale(s.runs[r], s.now)
    ensures !Held(s, r)
  {
    forall i | 0 <= i < |s.syncs| && Holding(s.syncs[i].phase)
      ensures s.syncs[i].run != r
    {
      assert Leased(s, i);
    }
  }

  lemma InvLeases(s: Sys)
    requires Inv(s)
    ensures LeaseInv(s)
  {
    forall i | 0 <= i < |s.syncs|
      ensures s.syncs[i].run in s.runs && Leased(s, i)
    {
      assert Settling(s, s.syncs[i].run) && SyncOk(s, i);
    }
  }

  lemma AddRunKeepsInv(s: Sys, id: RunId, r: Run)
    requires Inv(s) && id !in s.runs && r.issue in s.labels && !r.synced
    ensures Inv(AddRun(s, id, r))
  {
    hide Stale;
    var t := AddRun(s, id, r);
    assert t.syncs == s.syncs;
    forall i | 0 <= i < |t.syncs|
      ensures SyncOk(t, i)
    {
      assert SyncOk(s, i) && Settling(s, s.syncs[i].run);
    }
    forall x <- t.runs
      ensures RunOk(t, x)
    {
      if x != id { assert RunOk(s, x) && (Held(t, x) <==> Held(s, x)); }
    }
  }

  lemma QueueKnown(s: Sys, id: RunId)
    requires Known(s) && Settling(s, id)
    ensures Known(s.(syncs := s.syncs + [Sync(id, Want)]))
  {
    var t := s.(syncs := s.syncs + [Sync(id, Want)]);
    forall i | 0 <= i < |t.syncs|
      ensures Settling(t, t.syncs[i].run)
    {
      if i < |s.syncs| { assert Settling(s, s.syncs[i].run); }
    }
  }

  lemma QueueHeld(s: Sys, id: RunId, r: RunId)
    ensures Held(s.(syncs := s.syncs + [Sync(id, Want)]), r) <==> Held(s, r)
  {
    var t := s.(syncs := s.syncs + [Sync(id, Want)]);
    if Held(s, r) {
      var i :| 0 <= i < |s.syncs| && s.syncs[i].run == r && Holding(s.syncs[i].phase);
      assert t.syncs[i] == s.syncs[i];
    }
  }

  lemma QueueKeepsInv(s: Sys, id: RunId)
    requires Inv(s) && Settling(s, id)
    ensures Inv(s.(syncs := s.syncs + [Sync(id, Want)]))
  {
    var t := s.(syncs := s.syncs + [Sync(id, Want)]);
    QueueKnown(s, id);
    assert forall i :: 0 <= i < |s.syncs| ==> t.syncs[i] == s.syncs[i];
    hide Stale, Settling, Held, Known;
    forall i | 0 <= i < |t.syncs|
      ensures t.syncs[i].run in t.runs && SyncOk(t, i)
    {
      QueueSyncOk(s, id, i);
    }
    forall r <- t.runs
      ensures RunOk(t, r)
    {
      assert RunOk(s, r);
      QueueHeld(s, id, r);
    }
  }

  lemma QueueSyncOk(s: Sys, id: RunId, i: nat)
    requires Inv(s) && Settling(s, id) && i <= |s.syncs|
    ensures var t := s.(syncs := s.syncs + [Sync(id, Want)]); Known(t) && t.syncs[i].run in t.runs && SyncOk(t, i)
  {
    QueueKnown(s, id);
    if i < |s.syncs| { assert SyncOk(s, i) && Settling(s, s.syncs[i].run); }
  }

  /** A change of status, lease-free, keeps the invariant. */
  lemma StatusKeepsInv(s: Sys, id: RunId, outcome: Outcome)
    requires Inv(s) && id in s.runs && s.runs[id].status.Running?
    ensures Inv(s.(runs := s.runs[id := s.runs[id].(status := Done(outcome))]))
  {
    var t := s.(runs := s.runs[id := s.runs[id].(status := Done(outcome))]);
    assert t.syncs == s.syncs;
    forall i | 0 <= i < |t.syncs|
      ensures SyncOk(t, i) && Settling(t, t.syncs[i].run)
    {
      assert SyncOk(s, i) && Settling(s, s.syncs[i].run);
    }
    forall r <- t.runs
      ensures RunOk(t, r)
    {
      assert RunOk(s, r) && (Held(t, r) <==> Held(s, r));
    }
  }

  /** What a step of sync `i` to phase `p` must leave behind. */
  ghost predicate MovesTo(s: Sys, t: Sys, i: nat, p: Phase)
    requires i < |s.syncs|
  {
    var id := s.syncs[i].run;
    && t.syncs == Move(s, i, p).syncs
    && t.runs.Keys == s.runs.Keys && t.comments.Keys == s.comments.Keys && s.labels.Keys == t.labels.Keys
    && (forall r <- s.runs :: r != id ==> t.runs[r] == s.runs[r])
    && (forall r <- s.comments :: r != id ==> t.comments[r] == s.comments[r])
    && id in t.runs
    && t.runs[id].(synced := s.runs[id].synced, claimedAt := s.runs[id].claimedAt) == s.runs[id]
  }

  lemma MoveKnown(s: Sys, t: Sys, i: nat, p: Phase)
    requires Known(s) && i < |s.syncs| && MovesTo(s, t, i, p)
    ensures Known(t)
  {
    forall j | 0 <= j < |t.syncs|
      ensures Settling(t, t.syncs[j].run)
    {
      assert Settling(s, s.syncs[j].run);
    }
  }

  /** The state a step of sync `i` leaves agrees with the phase it moves to. */
  ghost predicate Agrees(s: Sys, t: Sys, i: nat, p: Phase)
    requires Known(s) && i < |s.syncs| && MovesTo(s, t, i, p)
  {
    var id := s.syncs[i].run;
    if Holding(p) then
      && !HeldElsewhere(s, i, id)
      && t.runs[id].claimedAt == Some(p.at) && !t.runs[id].synced && t.comments[id] == if p.Commented? then 1 else 0
    else if HeldElsewhere(s, i, id) then t.runs[id] == s.runs[id] && t.comments[id] == s.comments[id]
    else t.comments[id] == if t.runs[id].synced then 1 else 0
  }

  lemma MoveKeepsInv(s: Sys, t: Sys, i: nat, p: Phase)
    requires Inv(s) && i < |s.syncs| && MovesTo(s, t, i, p) && Agrees(s, t, i, p)
    ensures Inv(t)
  {
    assert Holding(p) ==> !HeldElsewhere(s, i, s.syncs[i].run);
    hide Agrees, MovesTo, SyncOk, RunOk, Apart;
    MoveKnown(s, t, i, p);
    MoveApart(s, t, i, p);
    forall j | 0 <= j < |t.syncs|
      ensures SyncOk(t, j)
    {
      MoveSyncOk(s, t, i, p, j);
    }
    forall r <- t.runs
      ensures RunOk(t, r)
    {
      MoveRunOk(s, t, i, p, r);
    }
  }

  lemma MoveSyncOk(s: Sys, t: Sys, i: nat, p: Phase, j: nat)
    requires Inv(s) && i < |s.syncs| && MovesTo(s, t, i, p) && Agrees(s, t, i, p) && Known(t) && j < |t.syncs|
    ensures SyncOk(t, j)
  {
    var id := s.syncs[i].run;
    assert SyncOk(s, j) && t.syncs[j] == if j == i then Sync(id, p) else s.syncs[j];
    if j != i && Holding(t.syncs[j].phase) && t.syncs[j].run == id { assert HeldElsewhere(s, i, id); }
  }

  lemma MoveRunOk(s: Sys, t: Sys, i: nat, p: Phase, r: RunId)
    requires Inv(s) && i < |s.syncs| && MovesTo(s, t, i, p) && Agrees(s, t, i, p) && Known(t) && r in t.runs
    ensures RunOk(t, r)
  {
    MoveHeld(s, i, p);
    assert Held(t, r) <==> Held(Move(s, i, p), r);
    assert RunOk(s, r);
  }

  lemma MoveApart(s: Sys, t: Sys, i: nat, p: Phase)
    requires Apart(s) && i < |s.syncs| && MovesTo(s, t, i, p)
    requires Holding(p) ==> !HeldElsewhere(s, i, s.syncs[i].run)
    ensures Apart(t)
  {
    forall j, k | 0 <= j < k < |t.syncs| && Holding(t.syncs[j].phase) && Holding(t.syncs[k].phase)
      ensures t.syncs[j].run != t.syncs[k].run
    {
      assert i !in {j, k} ==> t.syncs[j] == s.syncs[j] && t.syncs[k] == s.syncs[k];
    }
  }

  lemma HolderIsAlone(s: Sys, i: nat)
    requires Apart(s) && i < |s.syncs| && Holding(s.syncs[i].phase)
    ensures !HeldElsewhere(s, i, s.syncs[i].run)
  {
  }

  lemma TakeLeaseKeepsInv(s: Sys, i: nat)
    requires Inv(s) && Timely(s) && i < |s.syncs| && s.syncs[i].phase.Want?
    ensures Inv(TakeLease(s, i))
  {
    hide Inv, LeaseInv, Timely, Apart, Target;
    InvLeases(s);
    InvParts(s, i);
    var (id, t) := (s.syncs[i].run, TakeLease(s, i));
    MoveHeld(s, i, Gone);
    if Stale(s.runs[id], s.now) { StaleIsFree(s, id); }
    MoveKeepsInv(s, t, i, t.syncs[i].phase);
  }

  lemma InvParts(s: Sys, i: nat)
    requires Inv(s) && i < |s.syncs|
    ensures Known(s) && Apart(s) && Settling(s, s.syncs[i].run) && SyncOk(s, i) && RunOk(s, s.syncs[i].run)
  {
  }

  /** The label and comment steps and the final write, each by the sync that holds the run. */
  lemma HolderKeepsInv(s: Sys, t: Sys, i: nat)
    requires Inv(s) && i < |s.syncs| && s.syncs[i].run in s.runs && s.syncs[i].run in s.comments
    requires Settling(s, s.syncs[i].run) && s.runs[s.syncs[i].run].issue in s.labels
    requires
      || (s.syncs[i].phase.Claimed? && t == Relabel(s, i))
      || (s.syncs[i].phase.Swapped? && t == PostComment(s, i))
      || (s.syncs[i].phase.Commented? && t == Finish(s, i))
      || ((s.syncs[i].phase.Claimed? || s.syncs[i].phase.Swapped?) && t == Move(s, i, Gone))
    ensures Inv(t)
  {
    hide Inv, Apart, Target, RunOk, Held;
    InvParts(s, i);
    HolderIsAlone(s, i);
    MoveKeepsInv(s, t, i, t.syncs[i].phase);
  }

  lemma SyncStepKnown(s: Sys, max: Option<nat>, e: Event, i: nat)
    requires Known(s) && Enabled(s, max, e)
    requires e in {SyncClaim(i), SyncLabel(i), SyncComment(i), SyncFinish(i), SyncFail(i)}
    ensures Known(Apply(s, max, e))
  {
    hide ActiveIssues, Stale, Target, SwapLabel;
    assert Settling(s, s.syncs[i].run);
    MoveKnown(s, Apply(s, max, e), i, Apply(s, max, e).syncs[i].phase);
  }

  lemma RunStepKnown(s: Sys, max: Option<nat>, e: Event)
    requires Known(s) && Enabled(s, max, e) && (e.Claim? || e.SpawnChild? || e.Complete? || e.Resync? || e.Tick?)
    ensures Known(Apply(s, max, e))
  {
    hide ActiveIssues, Stale, Target, SwapLabel, TakeLease, Relabel, PostComment, Finish, Move;
    var t := Apply(s, max, e);
    assert forall r :: Settling(s, r) ==> Settling(t, r);
    assert forall i :: 0 <= i < |s.syncs| ==> Settling(s, s.syncs[i].run);
  }

  lemma StepKnown(s: Sys, max: Option<nat>, e: Event)
    requires Known(s) && Enabled(s, max, e)
    ensures Known(Apply(s, max, e))
  {
    hide Known, Apply;
    match e
    case SyncClaim(i) => SyncStepKnown(s, max, e, i);
    case SyncLabel(i) => SyncStepKnown(s, max, e, i);
    case SyncComment(i) => SyncStepKnown(s, max, e, i);
    case SyncFinish(i) => SyncStepKnown(s, max, e, i);
    case SyncFail(i) => SyncStepKnown(s, max, e, i);
    case Claim(_, _) => RunStepKnown(s, max, e);
    case SpawnChild(_, _) => RunStepKnown(s, max, e);
    case Complete(_, _) => RunStepKnown(s, max, e);
    case Resync(_) => RunStepKnown(s, max, e);
    case Tick(_) => RunStepKnown(s, max, e);
  }

  // ---- Leases, whatever fails ----

  /** The lease of a sync that moves to `p`. */
  ghost predicate AgreesLease(s: Sys, t: Sys, i: nat, p: Phase)
    requires i < |s.syncs| && MovesTo(s, t, i, p) && s.syncs[i].run in s.runs
  {
    var id := s.syncs[i].run;
    if Holding(p) then !HeldElsewhere(s, i, id) && t.runs[id].claimedAt == Some(p.at) && !t.runs[id].synced
    else HeldElsewhere(s, i, id) ==> t.runs[id] == s.runs[id]
  }

  lemma MoveKeepsLeases(s: Sys, t: Sys, i: nat, p: Phase)
    requires LeaseInv(s) && i < |s.syncs| && MovesTo(s, t, i, p) && AgreesLease(s, t, i, p)
    ensures LeaseInv(t)
  {
    var id := s.syncs[i].run;
    MoveKnown(s, t, i, p);
    MoveApart(s, t, i, p);
    hide Apart, Known, Settling;
    forall j | 0 <= j < |t.syncs|
      ensures t.syncs[j].run in t.runs && Leased(t, j)
    {
      assert Leased(s, j) && t.syncs[j] == if j == i then Sync(id, p) else s.syncs[j];
      if j != i && Holding(t.syncs[j].phase) && t.syncs[j].run == id { assert HeldElsewhere(s, i, id); }
    }
  }

  lemma TakeLeaseKeepsLeases(s: Sys, i: nat)
    requires LeaseInv(s) && Timely(s) && i < |s.syncs| && s.syncs[i].phase.Want?
    ensures LeaseInv(TakeLease(s, i))
  {
    hide Timely, Apart, Target;
    var (id, t) := (s.syncs[i].run, TakeLease(s, i));
    MoveHeld(s, i, Gone);
    if Stale(s.runs[id], s.now) { StaleIsFree(s, id); }
    MoveKeepsLeases(s, t, i, t.syncs[i].phase);
  }

  /** Any step of a sync that holds its run, a failure at any point included. */
  lemma HolderKeepsLeases(s: Sys, max: Option<nat>, e: Event, i: nat)
    requires LeaseInv(s) && Known(s) && Enabled(s, max, e)
    requires e in {SyncLabel(i), SyncComment(i), SyncFinish(i), SyncFail(i)}
    ensures LeaseInv(Apply(s, max, e))
  {
    hide Target, SwapLabel, Held, ActiveIssues, Stale;
    assert Settling(s, s.syncs[i].run) && Leased(s, i);
    assert Apart(s) && Holding(s.syncs[i].phase);
    hide Apart;
    HolderIsAlone(s, i);
    var t := Apply(s, max, e);
    MoveKeepsLeases(s, t, i, t.syncs[i].phase);
  }

  /** Runs appear or end, syncs are queued, time passes: no lease is touched. */
  lemma OthersKeepLeases(s: Sys, t: Sys)
    requires LeaseInv(s) && Known(t) && |s.syncs| <= |t.syncs|
    requires forall j :: 0 <= j < |s.syncs| ==> t.syncs[j] == s.syncs[j]
    requires forall j :: |s.syncs| <= j < |t.syncs| ==> t.syncs[j].phase.Want?
    requires forall r <- s.runs ::
      r in t.runs && t.runs[r].claimedAt == s.runs[r].claimedAt && t.runs[r].synced == s.runs[r].synced
    ensures LeaseInv(t)
  {
    forall j | 0 <= j < |t.syncs|
      ensures t.syncs[j].run in t.runs && Leased(t, j)
    {
      assert Settling(t, t.syncs[j].run);
      if j < |s.syncs| { assert Leased(s, j); }
    }
  }

  lemma RunStepKeepsLeases(s: Sys, max: Option<nat>, e: Event)
    requires LeaseInv(s) && Known(s) && Enabled(s, max, e)
    requires e.Claim? || e.SpawnChild? || e.Complete? || e.Resync? || e.Tick?
    ensures LeaseInv(Apply(s, max, e))
  {
    StepKnown(s, max, e);
    hide LeaseInv, Known, ActiveIssues, SwapLabel, TakeLease, Relabel, PostComment, Finish, Move;
    OthersKeepLeases(s, Apply(s, max, e));
  }

  lemma StepKeepsLeases(s: Sys, max: Option<nat>, e: Event)
    requires LeaseInv(s) && Timely(s) && Known(s) && Enabled(s, max, e)
    ensures LeaseInv(Apply(s, max, e))
  {
    hide LeaseInv, Timely, Known, TakeLease, Relabel, PostComment, Finish, Move, ClaimIssue, AddRun, Settle;
    match e
    case SyncClaim(i) => TakeLeaseKeepsLeases(s, i);
    case SyncLabel(i) => HolderKeepsLeases(s, max, e, i);
    case SyncComment(i) => HolderKeepsLeases(s, max, e, i);
    case SyncFinish(i) => HolderKeepsLeases(s, max, e, i);
    case SyncFail(i) => HolderKeepsLeases(s, max, e, i);
    case Claim(_, _) => RunStepKeepsLeases(s, max, e);
    case SpawnChild(_, _) => RunStepKeepsLeases(s, max, e);
    case Complete(_, _) => RunStepKeepsLeases(s, max, e);
    case Resync(_) => RunStepKeepsLeases(s, max, e);
    case Tick(_) => RunStepKeepsLeases(s, max, e);
  }

  /** A crash between the comment and the final write. */
  predicate LosesFinish(s: Sys, e: Event) {
    e.SyncFail? && e.i < |s.syncs| && s.syncs[e.i].phase.Commented?
  }

  lemma StepKeepsInv(s: Sys, max: Option<nat>, e: Event)
    requires Inv(s) && Timely(s) && Enabled(s, max, e) && !LosesFinish(s, e)
    ensures Inv(Apply(s, max, e))
  {
    hide Inv, Timely, ActiveIssues, Stale, Target, SwapLabel, Relabel, PostComment, Finish, TakeLease, Move;
    assert Known(s) by { InvKnown(s); }
    match e
    case Claim(id, issue) =>
      var run := Run(issue, None, Running, false, None);
      AddRunKeepsInv(s, id, run);
      SameRunsKeepInv(AddRun(s, id, run), ClaimIssue(s, id, issue));
    case SpawnChild(id, parent) => AddRunKeepsInv(s, id, Run(s.runs[parent].issue, Some(parent), Running, false, None));
    case Complete(id, outcome) =>
      StatusKeepsInv(s, id, outcome);
      var u := s.(runs := s.runs[id := s.runs[id].(status := Done(outcome))]);
      if s.runs[id].parent.None? { QueueKeepsInv(u, id); }
    case Resync(id) => QueueKeepsInv(s, id);
    case SyncClaim(i) => TakeLeaseKeepsInv(s, i);
    case SyncLabel(i) => HolderKeepsInv(s, Relabel(s, i), i);
    case SyncComment(i) => HolderKeepsInv(s, PostComment(s, i), i);
    case SyncFinish(i) => HolderKeepsInv(s, Finish(s, i), i);
    case SyncFail(i) => HolderKeepsInv(s, Move(s, i, Gone), i);
    case Tick(dt) => SameRunsKeepInv(s, s.(now := s.now + dt));
  }

  lemma InvKnown(s: Sys)
    requires Inv(s)
    ensures Known(s)
  {
  }

  /** Neither the clock nor which labels an issue carries matters to the invariant. */
  lemma SameRunsKeepInv(s: Sys, t: Sys)
    requires Inv(s) && t.runs == s.runs && t.syncs == s.syncs && t.comments == s.comments &&
      t.labels.Keys == s.labels.Keys
    ensures Inv(t)
  {
    forall i | 0 <= i < |t.syncs|
      ensures Settling(t, t.syncs[i].run)
    {
      assert Settling(s, s.syncs[i].run);
    }
    assert Known(t);
    forall i | 0 <= i < |t.syncs|
      ensures SyncOk(t, i)
    {
      assert SyncOk(s, i);
    }
    forall r <- t.runs
      ensures RunOk(t, r)
    {
      assert RunOk(s, r) && (Held(t, r) <==> Held(s, r));
    }
  }
}
