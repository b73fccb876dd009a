/** Settling a run: containment is recorded, a timeout may be recovered, and a mutating run's claimed
    success is put to the Evidence Gate, all in one locked step. The launcher's own steps and the
    containment hook interleave with it. */
module Settlement {
  import opened Prelude
  import opened RunStatus
  import opened EvidenceGate

  datatype RunState = RunState(record: RunRecord, top: bool, mutating: bool, status: Status, evidence: Option<Evidence>)

  /** Where the launcher stands with a run. */
  datatype Phase = Claimed | Mandated | Marked | Isolated | Dispatched

  /** `late` only observes: the runs marked mutating when they were already terminal. */
  datatype Sys = Sys(runs: map<Id, RunState>, phase: map<Id, Phase>, snapshots: set<Id>, late: set<Id>)

  /** What the outside answers while a run settles: the scan's code, whether the worktree is there, the
      branch tip, and git (None when reading it raised). `passes` is the read-only arm's answer. */
  datatype Answers = Answers(scan: Containment, present: bool, tip: Option<string>, git: Option<Git>, passes: bool)

  datatype Event =
    | Claim(id: Id, issueId: Id, second: int)
    | Spawn(id: Id, parent: Id, second: int)
    | Mandate(id: Id, requestId: Option<Id>, policy: Option<Policy>)
    | Mark(id: Id, paths: seq<string>)
    | Isolate(id: Id, branch: Option<string>, base: Option<string>, worktree: Option<string>)
    | Dispatch(id: Id, present: bool)
    | Complete(id: Id, outcome: Outcome, env: Envelope, answers: Answers)
    | Record(id: Id, scan: Containment)

  // ---- One settlement ----

  /** The pre-launch snapshot is compared once; a mutating top-level run without one gets the missing-snapshot
      code, but never over an earlier verdict. */
  function Recorded(r: RunState, held: bool, scan: Containment): RunState {
    if held then r.(record := r.record.(containment := Some(scan)))
    else if r.mutating && r.top && r.record.containment.None? then
      r.(record := r.record.(containment := Some(SnapshotMissing)))
    else r
  }

  const NO_REPORT := Envelope(None, None, None, None, None)

  /** A timeout becomes a claimed success when the run's own branch moved past its base. */
  function Recover(r: RunRecord, outcome: Outcome, env: Envelope, a: Answers): (Outcome, Envelope) {
    if outcome != TimedOut || r.worktree.None? || r.branch.None? || !a.present || a.tip.None?
       || (r.baseCommit.Some? && r.baseCommit.value != "" && a.tip == r.baseCommit) then (outcome, env)
    else (Succeeded, Enrich(r, NO_REPORT, a.tip, true))
  }

  /** A claimed success stands only on the gate's word. */
  function Gate(r: RunState, outcome: Outcome, env: Envelope, a: Answers): (Outcome, Option<Evidence>)
    requires a.git.Some? ==> Faithful(a.git.value, r.record)
  {
    if outcome != Succeeded then (outcome, None)
    else if !r.mutating then (if a.passes then Succeeded else Blocked, None)
    else if a.git.None? then (Blocked, None)
    else
      match Correlate(a.git.value, r.record, env)
      case Accepted(e) => (Succeeded, Some(e))
      case Refused(_) => (Blocked, None)
  }

  function Settled(r: RunState, held: bool, outcome: Outcome, env: Envelope, a: Answers): RunState
    requires a.git.Some? ==> Faithful(a.git.value, r.record)
  {
    var r1 := Recorded(r, held, a.scan);
    var (claimed, env1) := Recover(r1.record, outcome, env, a);
    var (final, e) := Gate(r1, claimed, env1, a);
    r1.(status := Done(final), evidence := if e.Some? then e else r1.evidence)
  }

  // ---- The steps ----

  ghost predicate Enabled(s: Sys, e: Event) {
    match e
    case Claim(id, _, _) => id !in s.runs
    case Spawn(id, parent, _) => id !in s.runs && parent in s.runs
    case Mandate(id, _, _) => At(s, id, Claimed)
    case Mark(id, _) => At(s, id, Mandated)
    case Isolate(id, branch, base, worktree) =>
      (At(s, id, Mandated) || At(s, id, Marked)) && (s.runs[id].mutating ==>
        branch.Some? && base.Some? && worktree.Some?)
    case Dispatch(id, _) => At(s, id, Isolated)
    case Complete(id, _, _, a) =>
      && id in s.runs && s.runs[id].status.Running? && a.scan != SnapshotMissing
      && (a.git.Some? ==> Faithful(a.git.value, s.runs[id].record))
    case Record(id, scan) => id in s.runs && scan != SnapshotMissing
  }

  predicate At(s: Sys, id: Id, p: Phase) {
    id in s.runs && s.runs[id].top && id in s.phase && s.phase[id] == p
  }

  function NewRun(id: Id, issueId: Id, top: bool, second: int): RunState {
    RunState(RunRecord(id, issueId, None, None, false, None, second, [], None, None, None), top, false, Running, None)
  }

  /** A launcher step: the run's record changes and the launcher moves on. */
  function Advance(s: Sys, id: Id, r: RunState, p: Phase): Sys {
    s.(runs := s.runs[id := r], phase := s.phase[id := p])
  }

  ghost function Apply(s: Sys, e: Event): Sys
    requires Enabled(s, e)
  {
    match e
    case Claim(id, issueId, second) => Advance(s, id, NewRun(id, issueId, true, second), Claimed)
    case Spawn(id, parent, second) => s.(runs := s.runs[id := NewRun(id, s.runs[parent].record.issueId, false, second)])
    case Mandate(id, requestId, policy) =>
      var r := s.runs[id];
      Advance(s, id, r.(record := r.record.(requestId := requestId, policy := policy)), Mandated)
    case Mark(id, paths) =>
      var r := s.runs[id];
      Advance(s, id, r.(mutating := true, record := r.record.(artifactPaths := paths)), Marked)
        .(late := if r.status.Running? then s.late else s.late + {id})
    case Isolate(id, branch, base, worktree) =>
      var r := s.runs[id];
      Advance(s, id, r.(record := r.record.(isolated := branch.Some?, branch := branch, baseCommit := base,
                                            worktree := worktree)), Isolated)
    case Dispatch(id, present) =>
      Advance(s, id, s.runs[id], Dispatched).(snapshots := if present then s.snapshots + {id} else s.snapshots)
    case Complete(id, outcome, env, a) =>
      s.(runs := s.runs[id := Settled(s.runs[id], id in s.snapshots, outcome, env, a)], snapshots := s.snapshots - {id})
    case Record(id, scan) =>
      s.(runs := s.runs[id := Recorded(s.runs[id], id in s.snapshots, scan)], snapshots := s.snapshots - {id})
  }

  // ---- Success is earned ----

  /** The evidence names the run, its issue and its request, and the scan found nothing outside the worktree. */
  predicate Earned(r: RunState) {
    && r.evidence.Some? && r.record.requestId.Some?
    && r.evidence.value.runId == r.record.runId
    && r.evidence.value.issueId == r.record.issueId
    && r.evidence.value.requestId == r.record.requestId
    && (r.record.containment == Some(Clean) || r.record.containment == Some(WorktreeDirty))
  }

  /** A mutating top-level run settles as succeeded only if it earned it. */
  lemma SettledEarned(r: RunState, held: bool, outcome: Outcome, env: Envelope, a: Answers)
    requires a.git.Some? ==> Faithful(a.git.value, r.record)
    requires r.mutating && r.top && r.evidence.None? && a.scan != SnapshotMissing
    ensures var t := Settled(r, held, outcome, env, a);
      (t.status == Done(Succeeded) <==> t.evidence.Some?) && (t.evidence.Some? ==> Earned(t))
  {
    hide Correlate, Faithful, Recover;
    var r1 := Recorded(r, held, a.scan);
    var (claimed, env1) := Recover(r1.record, outcome, env, a);
    if claimed == Succeeded && a.git.Some? {
      assert Faithful(a.git.value, r1.record) by { SameGit(a.git.value, r.record, r1.record); }
      if Correlate(a.git.value, r1.record, env1).Accepted? {
        EvidenceIsOwn(a.git.value, r1.record, env1);
        ContainedMeans(r1.record);
      }
    }
  }

  lemma ContainedMeans(r: RunRecord)
    requires Contained(r)
    ensures r.containment in {None, Some(Clean), Some(WorktreeDirty)}
  {
    if r.containment.Some? {
      match r.containment.value
      case Clean =>
      case WorktreeDirty =>
      case CheckoutDirty => assert false;
      case SnapshotMissing => assert false;
      case ScanError => assert false;
    }
  }

  lemma RecordedSameGit(r: RunState, held: bool, scan: Containment, g: Git)
    ensures Faithful(g, Recorded(r, held, scan).record) <==> Faithful(g, r.record)
  {
  }

  lemma SameGit(g: Git, a: RunRecord, b: RunRecord)
    requires Faithful(g, a) && a.branch == b.branch && a.baseCommit == b.baseCommit
    ensures Faithful(g, b)
  {
  }
}
