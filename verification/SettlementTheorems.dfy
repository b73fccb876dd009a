/** What settlement keeps over every interleaving of launcher steps, completions, sweeps and hooks. */
module SettlementTheorems {
  import opened Prelude
  import opened RunStatus
  import opened EvidenceGate
  import opened Settlement

  predicate Scanned(r: RunState) {
    r.record.containment.Some? && r.record.containment != Some(SnapshotMissing)
  }

  /** What each launcher phase implies about a run, and what a settled run is. */
  ghost predicate RunOk(s: Sys, id: Id)
    requires id in s.runs
  {
    var r := s.runs[id];
    && r.record.runId == id
    && (r.top <==> id in s.phase)
    && (!r.top ==> !r.mutating && id !in s.snapshots && id !in s.late && r.record.worktree.None?)
    && (r.status.Running? || !r.mutating || id in s.late ==> r.evidence.None?)
    && (r.evidence.Some? ==> Earned(r) && id !in s.snapshots)
    && (r.top ==>
          && (r.mutating ==> s.phase[id] !in {Claimed, Mandated})
          && (r.record.worktree.Some? ==> s.phase[id] in {Isolated, Dispatched})
          && (Scanned(r) || id in s.snapshots ==> s.phase[id] == Dispatched)
          && (id in s.late ==> r.mutating && r.status.Done?)
          && (r.mutating && r.status == Done(Succeeded) && id !in s.late ==> Earned(r)))
  }

  ghost predicate Inv(s: Sys) {
    && s.phase.Keys <= s.runs.Keys && s.snapshots <= s.runs.Keys && s.late <= s.runs.Keys
    && forall id <- s.runs :: RunOk(s, id)
  }

  /** A step leaves every run but its own as it was. */
  predicate SameFor(s: Sys, t: Sys, id: Id) {
    && id in s.runs && id in t.runs && t.runs[id] == s.runs[id]
    && (id in t.phase <==> id in s.phase) && (id in s.phase ==> t.phase[id] == s.phase[id])
    && (id in t.snapshots <==> id in s.snapshots) && (id in t.late <==> id in s.late)
  }

  lemma OthersSame(s: Sys, e: Event, id: Id)
    requires Enabled(s, e) && id in s.runs && id != e.id
    ensures SameFor(s, Apply(s, e), id)
  {
    hide Faithful, Settled, Recorded;
  }

  lemma LaunchKeepsRun(s: Sys, e: Event)
    requires Inv(s) && Enabled(s, e) && !e.Complete? && !e.Record?
    ensures RunOk(Apply(s, e), e.id)
  {
    hide Faithful, Settled, Recorded;
    if e.id in s.runs { assert RunOk(s, e.id); }
  }

  lemma RecordKeepsRun(s: Sys, e: Event)
    requires Inv(s) && Enabled(s, e) && e.Record?
    ensures RunOk(Apply(s, e), e.id)
  {
    hide Settled;
    assert RunOk(s, e.id);
  }

  lemma CompleteKeepsRun(s: Sys, e: Event)
    requires Inv(s) && Enabled(s, e) && e.Complete?
    ensures RunOk(Apply(s, e), e.id)
  {
    var (r, held) := (s.runs[e.id], e.id in s.snapshots);
    assert RunOk(s, e.id);
    SettledKeeps(r, held, e.outcome, e.env, e.answers);
    if r.mutating { SettledEarned(r, held, e.outcome, e.env, e.answers); }
    hide Settled, Faithful;
  }

  /** Settlement writes the containment, the status and the evidence, and nothing else. */
  lemma SettledKeeps(r: RunState, held: bool, outcome: Outcome, env: Envelope, a: Answers)
    requires a.git.Some? ==> Faithful(a.git.value, r.record)
    ensures var t := Settled(r, held, outcome, env, a);
      && t.status.Done?
      && t.(status := r.status, evidence := r.evidence) == Recorded(r, held, a.scan)
      && (!r.mutating || outcome !in {Succeeded, TimedOut} ==> t.evidence == r.evidence)
  {
    hide Correlate, Faithful;
  }

  lemma StepKeepsInv(s: Sys, e: Event)
    requires Inv(s) && Enabled(s, e)
    ensures Inv(Apply(s, e))
  {
    hide RunOk, Faithful, Settled, Recorded;
    var t := Apply(s, e);
    forall id <- t.runs
      ensures RunOk(t, id)
    {
      if id != e.id {
        OthersSame(s, e, id);
        SameRunOk(s, t, id);
      } else if e.Complete? {
        CompleteKeepsRun(s, e);
      } else if e.Record? {
        RecordKeepsRun(s, e);
      } else {
        LaunchKeepsRun(s, e);
      }
    }
  }

  lemma SameRunOk(s: Sys, t: Sys, id: Id)
    requires SameFor(s, t, id) && RunOk(s, id)
    ensures RunOk(t, id)
  {
  }

  // ---- Over whole runs ----

  const START := Sys(map[], map[], {}, {})

  ghost predicate Legal(s: Sys, es: seq<Event>)
    decreases |es|
  {
    es == [] || (Enabled(s, es[0]) && Legal(Apply(s, es[0]), es[1..]))
  }

  ghost function Play(s: Sys, es: seq<Event>): Sys
    requires Legal(s, es)
    decreases |es|
  {
    if es == [] then s else Play(Apply(s, es[0]), es[1..])
  }

  lemma {:induction false} PlayKeepsInv(s: Sys, es: seq<Event>)
    requires Inv(s) && Legal(s, es)
    ensures Inv(Play(s, es))
    decreases |es|
  {
    hide Inv, Enabled, Apply;
    if es != [] {
      StepKeepsInv(s, es[0]);
      PlayKeepsInv(Apply(s, es[0]), es[1..]);
    }
  }

  /** In any order of steps, a mutating top-level run that reads succeeded has earned it exactly if it was
      marked mutating before it settled. */
  lemma SuccessIsEarned(es: seq<Event>, id: Id)
    requires Legal(START, es) && id in Play(START, es).runs
    ensures var t := Play(START, es);
      t.runs[id].top && t.runs[id].mutating && t.runs[id].status == Done(Succeeded) ==>
        (Earned(t.runs[id]) <==> id !in t.late)
  {
    hide Legal, Play;
    PlayKeepsInv(START, es);
    assert RunOk(Play(START, es), id);
  }

  /** The launcher's order: a worker reports success only after it was dispatched. */
  ghost predicate Ordered(s: Sys, es: seq<Event>)
    requires Legal(s, es)
    decreases |es|
  {
    es != [] ==> ReportsInOrder(s, es[0]) && Ordered(Apply(s, es[0]), es[1..])
  }

  predicate ReportsInOrder(s: Sys, e: Event) {
    e.Complete? && e.outcome == Succeeded && e.id in s.phase ==> s.phase[e.id] == Dispatched
  }

  predicate NotEarly(s: Sys, id: Id)
    requires id in s.runs
  {
    s.runs[id].status == Done(Succeeded) ==> id !in s.late && (id in s.phase ==> s.phase[id] in {Isolated, Dispatched})
  }

  ghost predicate NoneEarly(s: Sys) {
    forall id <- s.runs :: NotEarly(s, id)
  }

  /** The run a step is about. */
  lemma SubjectNotEarly(s: Sys, e: Event)
    requires Inv(s) && NoneEarly(s) && Enabled(s, e) && ReportsInOrder(s, e)
    ensures e.id in Apply(s, e).runs && NotEarly(Apply(s, e), e.id)
  {
    hide Faithful, Correlate;
    if e.id in s.runs { assert RunOk(s, e.id) && NotEarly(s, e.id); }
  }

  lemma StepNoneEarly(s: Sys, e: Event)
    requires Inv(s) && NoneEarly(s) && Enabled(s, e) && ReportsInOrder(s, e)
    ensures NoneEarly(Apply(s, e))
  {
    SubjectNotEarly(s, e);
    var t := Apply(s, e);
    assert forall id <- t.runs :: id == e.id || id in s.runs;
    hide Faithful, Correlate, Apply, Enabled, RunOk;
    forall id <- t.runs
      ensures NotEarly(t, id)
    {
      if id != e.id {
        assert NotEarly(s, id);
        OthersSame(s, e, id);
      }
    }
  }

  lemma {:induction false} OrderedNoneEarly(s: Sys, es: seq<Event>)
    requires Inv(s) && NoneEarly(s) && Legal(s, es) && Ordered(s, es)
    ensures NoneEarly(Play(s, es))
    decreases |es|
  {
    hide Inv, Enabled, Apply, NoneEarly, ReportsInOrder;
    if es != [] {
      StepKeepsInv(s, es[0]);
      StepNoneEarly(s, es[0]);
      OrderedNoneEarly(Apply(s, es[0]), es[1..]);
    }
  }

  /** So under the launcher, whatever sweeps, recoveries and hooks interleave, a mutating success is always
      earned: its evidence names its own run, issue and request and its scan was clean. */
  lemma MutatingSuccessIsEarned(es: seq<Event>, id: Id)
    requires Legal(START, es) && Ordered(START, es) && id in Play(START, es).runs
    ensures var r := Play(START, es).runs[id];
      r.top && r.mutating && r.status == Done(Succeeded) ==> Earned(r) && r.record.runId == id
  {
    hide Legal, Play, Ordered;
    PlayKeepsInv(START, es);
    OrderedNoneEarly(START, es);
    assert RunOk(Play(START, es), id);
  }

  // ---- The first verdict ----

  /** A settled run with no snapshot left to scan and no launcher step to come. */
  predicate Closed(s: Sys, id: Id) {
    && id in s.runs && s.runs[id].status.Done? && id !in s.snapshots
    && (id in s.phase ==> s.phase[id] == Dispatched)
    && (s.runs[id].mutating && s.runs[id].top ==> s.runs[id].record.containment.Some?)
  }

  lemma StepKeepsClosed(s: Sys, e: Event, id: Id)
    requires Enabled(s, e) && Closed(s, id)
    ensures Closed(Apply(s, e), id) && Apply(s, e).runs[id] == s.runs[id]
  {
    hide Faithful, Settled;
    if e.id != id { OthersSame(s, e, id); }
  }

  /** Neither a repeated hook, a later sweep nor a second completion changes anything about a closed run. */
  lemma {:induction false} ClosedStays(s: Sys, es: seq<Event>, id: Id)
    requires Legal(s, es) && Closed(s, id)
    ensures Closed(Play(s, es), id) && Play(s, es).runs[id] == s.runs[id]
    decreases |es|
  {
    hide Enabled, Apply, Closed;
    if es != [] {
      assert id in s.runs by { ClosedIsKnown(s, id); }
      StepKeepsClosed(s, es[0], id);
      ClosedStays(Apply(s, es[0]), es[1..], id);
    }
  }

  lemma ClosedIsKnown(s: Sys, id: Id)
    requires Closed(s, id)
    ensures id in s.runs
  {
  }

  lemma {:induction false} DoneStays(s: Sys, es: seq<Event>, id: Id)
    requires Legal(s, es) && id in s.runs && s.runs[id].status.Done?
    ensures id in Play(s, es).runs && Play(s, es).runs[id].status == s.runs[id].status
    decreases |es|
  {
    hide Faithful, Settled;
    if es != [] {
      if es[0].id != id { OthersSame(s, es[0], id); }
      DoneStays(Apply(s, es[0]), es[1..], id);
    }
  }

  /** Every legal continuation leaves the run's containment verdict as it is. */
  ghost predicate VerdictKept(s: Sys, id: Id)
    requires id in s.runs
  {
    forall es :: Legal(s, es) ==> id in Play(s, es).runs && Verdict(Play(s, es), id) == Verdict(s, id)
  }

  function Verdict(s: Sys, id: Id): Option<Containment>
    requires id in s.runs
  {
    s.runs[id].record.containment
  }

  /** A scan code other than the present verdict. */
  function Other(verdict: Option<Containment>): (c: Containment)
    ensures Some(c) != verdict && c != SnapshotMissing
  {
    if verdict == Some(Clean) then ScanError else Clean
  }

  /** The launcher's next step with a run, on its way to dispatching it with a worktree. */
  function NextLaunch(id: Id, p: Phase): Event
    requires p != Dispatched
  {
    match p
    case Claimed => Mandate(id, None, None)
    case Mandated => Isolate(id, Some("work"), Some("base"), Some("tree"))
    case Marked => Isolate(id, Some("work"), Some("base"), Some("tree"))
    case Isolated => Dispatch(id, true)
  }

  function StepsLeft(p: Phase): nat {
    match p
    case Claimed => 3
    case Mandated => 2
    case Marked => 2
    case Isolated => 1
    case Dispatched => 0
  }

  lemma LaunchStep(s: Sys, id: Id)
    requires id in s.runs && s.runs[id].top && id in s.phase && s.phase[id] != Dispatched && id !in s.snapshots
    ensures Enabled(s, NextLaunch(id, s.phase[id]))
    ensures var t := Apply(s, NextLaunch(id, s.phase[id]));
      && id in t.runs && t.runs[id].top && id in t.phase && Verdict(t, id) == Verdict(s, id)
      && StepsLeft(t.phase[id]) < StepsLeft(s.phase[id])
      && (id in t.snapshots <==> t.phase[id] == Dispatched)
  {
    hide Faithful, Settled, Recorded;
  }

  /** The launcher's remaining steps and one scan rewrite the verdict of a run not yet dispatched. */
  lemma {:induction false} RewritesVerdict(s: Sys, id: Id) returns (es: seq<Event>)
    requires id in s.runs && s.runs[id].top && id in s.phase && (id in s.snapshots <==> s.phase[id] == Dispatched)
    ensures Legal(s, es) && id in Play(s, es).runs && Verdict(Play(s, es), id) != Verdict(s, id)
    decreases StepsLeft(s.phase[id])
  {
    if s.phase[id] == Dispatched {
      var e := Record(id, Other(Verdict(s, id)));
      var t := Apply(s, e);
      es := [e];
      assert es[1..] == [] && Play(t, []) == t;
    } else {
      var e := NextLaunch(id, s.phase[id]);
      LaunchStep(s, id);
      hide Enabled, Apply, StepsLeft, NextLaunch;
      var rest := RewritesVerdict(Apply(s, e), id);
      es := [e] + rest;
      assert es[1..] == rest;
    }
  }

  /** In any reachable state, the verdict of a settled top-level run is final exactly if the run was dispatched,
      its snapshot is used up, and it has a verdict if it is mutating. */
  lemma VerdictKeptExactly(s: Sys, id: Id)
    requires Inv(s) && id in s.runs && s.runs[id].top && s.runs[id].status.Done?
    ensures VerdictKept(s, id) <==>
      && s.phase[id] == Dispatched && id !in s.snapshots
      && (s.runs[id].mutating ==> Verdict(s, id).Some?)
  {
    assert RunOk(s, id);
    hide Play, Legal, Inv;
    if Closed(s, id) {
      forall es | Legal(s, es)
        ensures id in Play(s, es).runs && Verdict(Play(s, es), id) == Verdict(s, id)
      {
        ClosedStays(s, es, id);
        ClosedIsKnown(Play(s, es), id);
      }
    } else if s.phase[id] == Dispatched && id !in s.snapshots {
      var es := MarksMissing(s, id);
    } else {
      var es := RewritesVerdict(s, id);
    }
  }

  /** A mutating run with neither snapshot nor verdict gets the missing-snapshot code from the next hook. */
  lemma MarksMissing(s: Sys, id: Id) returns (es: seq<Event>)
    requires id in s.runs && s.runs[id].top && s.runs[id].mutating && id !in s.snapshots && Verdict(s, id).None?
    ensures Legal(s, es) && id in Play(s, es).runs && Verdict(Play(s, es), id) != Verdict(s, id)
  {
    var e := Record(id, Clean);
    var t := Apply(s, e);
    es := [e];
    assert es[1..] == [] && Play(t, []) == t;
  }

  /** So the verdict a top-level run settles with is final exactly if the run was dispatched before. */
  lemma SettledVerdictKeptExactly(s: Sys, e: Event)
    requires Inv(s) && Enabled(s, e) && e.Complete? && s.runs[e.id].top
    ensures e.id in Apply(s, e).runs && e.id in s.phase
    ensures VerdictKept(Apply(s, e), e.id) <==> s.phase[e.id] == Dispatched
  {
    assert RunOk(s, e.id);
    var t := Apply(s, e);
    SettledKeeps(s.runs[e.id], e.id in s.snapshots, e.outcome, e.env, e.answers);
    StepKeepsInv(s, e);
    hide Faithful, Settled, Correlate, VerdictKept, Inv;
    VerdictKeptExactly(t, e.id);
  }

  /** A mutating success under the launcher is closed, so its verdict is final. */
  lemma EarnedIsClosed(s: Sys, id: Id)
    requires Inv(s) && id in s.runs && s.runs[id].top && s.runs[id].mutating && s.runs[id].status.Done? &&
      Earned(s.runs[id])
    ensures Closed(s, id)
  {
    assert RunOk(s, id);
  }

  // ---- What the order guards against ----

  /** One more step at the end of a history. */
  lemma {:induction false} Then(s: Sys, es: seq<Event>, e: Event)
    requires Legal(s, es) && Enabled(Play(s, es), e)
    ensures Legal(s, es + [e]) && Play(s, es + [e]) == Apply(Play(s, es), e)
    decreases |es|
  {
    hide Enabled, Apply;
    if es == [] {
      assert ([] + [e])[1..] == [];
    } else {
      assert (es + [e])[1..] == es[1..] + [e];
      Then(Apply(s, es[0]), es[1..], e);
    }
  }

  /** A success reported before the run is marked mutating is never gated, and stays a success. */
  lemma EarlySuccessEscapes(id: Id, a: Answers) returns (es: seq<Event>)
    requires a.git.None? && a.passes && a.scan != SnapshotMissing
    ensures Legal(START, es) && id in Play(START, es).runs
    ensures var r := Play(START, es).runs[id]; r.top && r.mutating && r.status == Done(Succeeded) && !Earned(r)
  {
    hide Legal, Play;
    es := Launched(id);
    Then(START, es, Complete(id, Succeeded, NO_REPORT, a));
    es := es + [Complete(id, Succeeded, NO_REPORT, a)];
    Then(START, es, Mark(id, []));
    es := es + [Mark(id, [])];
  }

  lemma Launched(id: Id) returns (es: seq<Event>)
    ensures Legal(START, es)
    ensures var r := NewRun(id, 0, true, 0);
      Play(START, es) == Sys(map[id := r.(record := r.record.(requestId := Some(1)))], map[id := Mandated], {}, {})
  {
    assert Legal(START, []) && Play(START, []) == START;
    hide Legal, Play;
    Then(START, [], Claim(id, 0, 0));
    Then(START, [] + [Claim(id, 0, 0)], Mandate(id, Some(1), None));
    es := [] + [Claim(id, 0, 0)] + [Mandate(id, Some(1), None)];
  }

  /** A run swept before its worker starts is still dispatched; the hook then overwrites the missing-snapshot
      verdict it settled with. */
  lemma SweptVerdictRewritten(id: Id, a: Answers) returns (es: seq<Event>, more: seq<Event>)
    requires a.git.None? && a.scan != SnapshotMissing
    ensures es <= more && Legal(START, es) && Legal(START, more)
    ensures id in Play(START, es).runs && id in Play(START, more).runs
    ensures Play(START, es).runs[id].status == Done(TimedOut)
    ensures Play(START, es).runs[id].record.containment == Some(SnapshotMissing)
    ensures Play(START, more).runs[id].record.containment == Some(Clean)
  {
    hide Legal, Play;
    es := Launched(id);
    Then(START, es, Mark(id, []));
    es := es + [Mark(id, [])];
    Then(START, es, Complete(id, TimedOut, NO_REPORT, a));
    es := es + [Complete(id, TimedOut, NO_REPORT, a)];
    var isolate := Isolate(id, Some("work"), Some("base"), Some("tree"));
    Then(START, es, isolate);
    Then(START, es + [isolate], Dispatch(id, true));
    Then(START, es + [isolate] + [Dispatch(id, true)], Record(id, Clean));
    more := es + [isolate] + [Dispatch(id, true)] + [Record(id, Clean)];
  }
}
