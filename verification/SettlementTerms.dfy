/** Settlement told from a run's own fields and the answers it gets: which verdict is recorded, when a timeout is
    recovered, and which status a run ends with. */
module SettlementTerms {
  import opened Prelude
  import opened RunStatus
  import opened EvidenceGate
  import opened EvidenceTerms
  import opened Settlement
  import opened SettlementTheorems

  // ---- One settlement ----

  /** A held snapshot's scan is recorded whatever it says. Without one only a mutating top-level run that has no
      verdict gets one, and nothing else about the run changes. */
  lemma RecordedExactly(r: RunState, held: bool, scan: Containment)
    ensures var t := Recorded(r, held, scan);
      && (held ==> t.record.containment == Some(scan))
      && (!held && r.record.containment.Some? ==> t.record.containment == r.record.containment)
      && (!held && r.record.containment.None? ==>
            t.record.containment == if r.mutating && r.top then Some(SnapshotMissing) else None)
      && t.record.(containment := r.record.containment) == r.record
      && (t.top, t.mutating, t.status, t.evidence) == (r.top, r.mutating, r.status, r.evidence)
  {
  }

  /** The branch tip was read and is not the recorded base. */
  predicate Moved(r: RunRecord, tip: Option<string>) {
    tip.Some? && (r.baseCommit in {None, Some("")} || tip != r.baseCommit)
  }

  /** A timed-out run with its own branch and worktree still there, whose branch moved past its base. */
  predicate Recoverable(r: RunRecord, a: Answers) {
    r.worktree.Some? && r.branch.Some? && a.present && Moved(r, a.tip)
  }

  /** The run claims success itself, or is recovered from a timeout. */
  predicate Claims(r: RunRecord, outcome: Outcome, a: Answers) {
    outcome == Succeeded || (outcome == TimedOut && Recoverable(r, a))
  }

  /** The report that goes to the gate: the worker's own, or for a recovered run one with the run's identity that
      names the branch tip. */
  predicate Reports(r: RunRecord, outcome: Outcome, env: Envelope, a: Answers, report: Envelope) {
    if outcome == TimedOut then report == Envelope(Some(r.runId), Some(r.issueId), r.requestId, a.tip, None)
    else report == env
  }

  /** The record the gate reads: this run's, with the verdict just recorded. */
  predicate GateReads(r: RunState, held: bool, a: Answers, record: RunRecord) {
    && record.(containment := r.record.containment) == r.record
    && (held ==> record.containment == Some(a.scan))
    && (!held && r.record.containment.Some? ==> record.containment == r.record.containment)
    && (!held && r.record.containment.None? ==>
          record.containment == if r.mutating && r.top then Some(SnapshotMissing) else None)
  }

  /** A run that claims no success keeps its outcome. One that does succeeds exactly on the word of the gate, if it is
      mutating, or of the read-only check, and is blocked otherwise; only the gate gives evidence. */
  lemma SettledExactly(r: RunState, held: bool, outcome: Outcome, env: Envelope, a: Answers)
    returns (record: RunRecord, report: Envelope)
    requires a.git.Some? ==> Faithful(a.git.value, r.record)
    ensures GateReads(r, held, a, record) && (a.git.Some? ==> Faithful(a.git.value, record))
    ensures Claims(r.record, outcome, a) ==> Reports(r.record, outcome, env, a, report)
    ensures var t := Settled(r, held, outcome, env, a);
      && t.record == record && (t.top, t.mutating) == (r.top, r.mutating)
      && (!Claims(r.record, outcome, a) ==> t.status == Done(outcome) && t.evidence == r.evidence)
      && (Claims(r.record, outcome, a) && !r.mutating ==>
            t.status == Done(if a.passes then Succeeded else Blocked) && t.evidence == r.evidence)
      && (Claims(r.record, outcome, a) && r.mutating ==>
            if a.git.Some? && Correlate(a.git.value, record, report).Accepted? then
              t.status == Done(Succeeded) && t.evidence == Some(Correlate(a.git.value, record, report).evidence)
            else t.status == Done(Blocked) && t.evidence == r.evidence)
  {
    hide Correlate, Faithful;
    var r1 := Recorded(r, held, a.scan);
    if a.git.Some? { RecordedSameGit(r, held, a.scan, a.git.value); }
    record, report := r1.record, Recover(r1.record, outcome, env, a).1;
  }

  /** A mutating run whose held snapshot shows a dirty checkout or could not be scanned never settles as succeeded,
      and its verdict is that scan's. */
  lemma BadScanNeverSucceeds(r: RunState, outcome: Outcome, env: Envelope, a: Answers)
    requires a.git.Some? ==> Faithful(a.git.value, r.record)
    requires r.mutating && a.scan in {CheckoutDirty, ScanError}
    ensures var t := Settled(r, true, outcome, env, a);
      t.record.containment == Some(a.scan) && t.status != Done(Succeeded)
  {
    hide Correlate, Faithful, Settled;
    var record, report := SettledExactly(r, true, outcome, env, a);
    if a.git.Some? { AcceptedExactly(a.git.value, record, report); }
  }

  // ---- Over whole runs ----

  /** The scan answer of the last step of `es` on `id` that found its snapshot held. */
  ghost function LastScan(s: Sys, es: seq<Event>, id: Id): Option<Containment>
    requires Legal(s, es)
    decreases |es|
  {
    if es == [] then None
    else
      var later := LastScan(Apply(s, es[0]), es[1..], id);
      if later.Some? then later else ScanOf(s, es[0], id)
  }

  function ScanOf(s: Sys, e: Event, id: Id): Option<Containment> {
    if e.id != id || id !in s.snapshots then None
    else
      match e
      case Complete(_, _, _, a) => Some(a.scan)
      case Record(_, scan) => Some(scan)
      case _ => None
  }

  /** A verdict stays, or a missing one becomes the missing-snapshot code. */
  predicate Unscanned(before: Option<Containment>, after: Option<Containment>) {
    after == before || (before.None? && after == Some(SnapshotMissing))
  }

  lemma VerdictStep(s: Sys, e: Event, id: Id)
    requires Enabled(s, e)
    ensures var (t, scan) := (Apply(s, e), ScanOf(s, e, id));
      && (scan.Some? ==> id in s.runs && id in t.runs && t.runs[id].record.containment == scan)
      && (scan.None? && id in s.runs ==>
            id in t.runs && Unscanned(s.runs[id].record.containment, t.runs[id].record.containment))
      && (id !in s.runs && id in t.runs ==> t.runs[id].record.containment.None?)
  {
    hide Settled, Faithful, Correlate;
    if e.Complete? && e.id == id {
      SettledKeeps(s.runs[id], id in s.snapshots, e.outcome, e.env, e.answers);
    }
  }

  lemma {:induction false} VerdictFollows(s: Sys, es: seq<Event>, id: Id)
    requires Legal(s, es) && id in Play(s, es).runs
    ensures var (t, scan) := (Play(s, es), LastScan(s, es, id));
      && (scan.Some? ==> t.runs[id].record.containment == scan)
      && (scan.None? ==> Unscanned(if id in s.runs then s.runs[id].record.containment else None,
                                   t.runs[id].record.containment))
    decreases |es|
  {
    hide Enabled, Apply, ScanOf;
    if es != [] {
      VerdictStep(s, es[0], id);
      VerdictFollows(Apply(s, es[0]), es[1..], id);
    }
  }

  /** In any history a run's verdict is what the last scan of its held snapshot answered; without a scan it has none,
      or the missing-snapshot code. */
  lemma VerdictIsLastScan(es: seq<Event>, id: Id)
    requires Legal(START, es) && id in Play(START, es).runs
    ensures var (verdict, scan) := (Play(START, es).runs[id].record.containment, LastScan(START, es, id));
      if scan.Some? then verdict == scan else verdict in {None, Some(SnapshotMissing)}
  {
    VerdictFollows(START, es, id);
  }

  /** So in the launcher's order a mutating run reads succeeded only if its last scan was clean, or dirty only inside
      its worktree. */
  lemma SuccessWasScanned(es: seq<Event>, id: Id)
    requires Legal(START, es) && Ordered(START, es) && id in Play(START, es).runs
    requires var r := Play(START, es).runs[id]; r.top && r.mutating && r.status == Done(Succeeded)
    ensures LastScan(START, es, id) in {Some(Clean), Some(WorktreeDirty)}
  {
    hide Legal, Play, Ordered, LastScan;
    MutatingSuccessIsEarned(es, id);
    VerdictIsLastScan(es, id);
  }
}
