/** Where a success comes from: the evidence of a mutating run names what was approved for it and what was created for
    it, step by step, whatever else happened in between. */
module LaunchProvenance {
  import opened Prelude
  import opened RunStatus
  import opened EvidenceGate
  import opened EvidenceTerms
  import opened Settlement
  import opened SettlementTheorems
  import opened SettlementTerms

  // ---- Each field has its step ----

  ghost predicate ClaimedBy(past: seq<Event>, id: Id, r: RunRecord) {
    exists e <- past :: e.Claim? && e.id == id && e.issueId == r.issueId && e.second == r.claimedSecond
  }

  ghost predicate MandatedBy(past: seq<Event>, id: Id, r: RunRecord) {
    exists e <- past :: e.Mandate? && e.id == id && e.requestId == r.requestId && e.policy == r.policy
  }

  ghost predicate MarkedBy(past: seq<Event>, id: Id, r: RunRecord) {
    exists e <- past :: e.Mark? && e.id == id && e.paths == r.artifactPaths
  }

  ghost predicate IsolatedBy(past: seq<Event>, id: Id, r: RunRecord) {
    exists e <- past :: e.Isolate? && e.id == id &&
      e.branch == r.branch && e.base == r.baseCommit && e.worktree == r.worktree
  }

  /** Every field a launcher step writes was written by that step of this very run. */
  ghost predicate Traced(s: Sys, past: seq<Event>, id: Id)
    requires id in s.runs
  {
    var r := s.runs[id];
    r.top && id in s.phase ==>
      && ClaimedBy(past, id, r.record)
      && (s.phase[id] != Phase.Claimed ==> MandatedBy(past, id, r.record))
      && (r.mutating ==> MarkedBy(past, id, r.record))
      && (s.phase[id] in {Isolated, Dispatched} ==> IsolatedBy(past, id, r.record))
  }

  lemma TracedLonger(s: Sys, t: Sys, past: seq<Event>, e: Event, id: Id)
    requires id in s.runs && Traced(s, past, id) && SameFor(s, t, id)
    ensures Traced(t, past + [e], id)
  {
    forall x | x in past
      ensures x in past + [e]
    {
    }
  }

  lemma LaunchTraced(s: Sys, past: seq<Event>, e: Event)
    requires Inv(s) && Enabled(s, e) && !e.Complete? && !e.Record? && (e.id in s.runs ==> Traced(s, past, e.id))
    ensures Traced(Apply(s, e), past + [e], e.id)
  {
    hide Faithful, Settled, Recorded;
    assert e in past + [e] && forall x :: x in past ==> x in past + [e];
    if e.id in s.runs { assert RunOk(s, e.id); }
  }

  lemma SettleTraced(s: Sys, past: seq<Event>, e: Event)
    requires Inv(s) && Enabled(s, e) && (e.Complete? || e.Record?) && Traced(s, past, e.id)
    ensures Traced(Apply(s, e), past + [e], e.id)
  {
    hide Faithful, Settled, Recorded, Correlate;
    assert forall x :: x in past ==> x in past + [e];
    var (r, t) := (s.runs[e.id], Apply(s, e));
    if e.Complete? { SettledKeeps(r, e.id in s.snapshots, e.outcome, e.env, e.answers); }
    RecordedExactly(r, e.id in s.snapshots, if e.Complete? then e.answers.scan else e.scan);
    assert t.runs[e.id].record.(containment := r.record.containment) == r.record;
  }

  // ---- Evidence and record agree ----

  /** A run's evidence repeats its record. */
  ghost predicate Backed(r: RunState) {
    r.evidence.Some? ==>
      var (e, record) := (r.evidence.value, r.record);
      && e.runId == record.runId && e.issueId == record.issueId && e.requestId == record.requestId
      && Some(e.branch) == record.branch && e.worktree == record.worktree
      && BaseIs(record, e.base) && Approves(record, e.permitted)
  }

  lemma SettledBacked(r: RunState, held: bool, outcome: Outcome, env: Envelope, a: Answers)
    requires a.git.Some? ==> Faithful(a.git.value, r.record)
    requires r.evidence.None?
    ensures Backed(Settled(r, held, outcome, env, a))
  {
    hide Correlate, Faithful, Settled, BaseIs, Approves;
    var record, report := SettledExactly(r, held, outcome, env, a);
    if a.git.Some? && Correlate(a.git.value, record, report).Accepted? {
      EvidenceIsOwn(a.git.value, record, report);
      AcceptedEvidence(a.git.value, record, report);
    }
  }

  lemma OwnStepBacked(s: Sys, e: Event)
    requires Inv(s) && Enabled(s, e) && (e.id in s.runs ==> Backed(s.runs[e.id]))
    ensures Backed(Apply(s, e).runs[e.id])
  {
    hide Faithful, Settled, Correlate, BaseIs, Approves;
    if e.id in s.runs { assert RunOk(s, e.id); }
    if e.Complete? { SettledBacked(s.runs[e.id], e.id in s.snapshots, e.outcome, e.env, e.answers); }
  }

  ghost predicate AllTraced(s: Sys, past: seq<Event>) {
    Inv(s) && forall id <- s.runs :: Traced(s, past, id) && Backed(s.runs[id])
  }

  lemma StepTraced(s: Sys, past: seq<Event>, e: Event)
    requires AllTraced(s, past) && Enabled(s, e)
    ensures AllTraced(Apply(s, e), past + [e])
  {
    StepKeepsInv(s, e);
    OwnStepBacked(s, e);
    var t := Apply(s, e);
    hide Faithful, Settled, Recorded, Traced, Backed, RunOk, Inv;
    if e.Complete? || e.Record? { SettleTraced(s, past, e); } else { LaunchTraced(s, past, e); }
    forall id | id in t.runs && id != e.id
      ensures id in s.runs && Traced(t, past + [e], id) && Backed(t.runs[id])
    {
      OthersSame(s, e, id);
      TracedLonger(s, t, past, e, id);
    }
  }

  lemma {:induction false} PlayTraced(s: Sys, past: seq<Event>, es: seq<Event>)
    requires AllTraced(s, past) && Legal(s, es)
    ensures AllTraced(Play(s, es), past + es)
    decreases |es|
  {
    hide AllTraced, Enabled, Apply;
    if es == [] {
      assert past + [] == past;
    } else {
      StepTraced(s, past, es[0]);
      PlayTraced(Apply(s, es[0]), past + [es[0]], es[1..]);
      assert past + [es[0]] + es[1..] == past + es;
    }
  }

  /** In the launcher's order, a mutating run that reads succeeded carries evidence that names its own claim, the
      request and scope it was approved for, and the branch, base and worktree that were created for it. */
  lemma SuccessMatchesLaunch(es: seq<Event>, id: Id) returns (claim: Event, mandate: Event, mark: Event, place: Event)
    requires Legal(START, es) && Ordered(START, es) && id in Play(START, es).runs
    requires var r := Play(START, es).runs[id]; r.top && r.mutating && r.status == Done(Succeeded)
    ensures claim in es && claim.Claim? && claim.id == id && mandate in es && mandate.Mandate? && mandate.id == id
    ensures mark in es && mark.Mark? && mark.id == id && place in es && place.Isolate? && place.id == id
    ensures Play(START, es).runs[id].evidence.Some?
    ensures var e := Play(START, es).runs[id].evidence.value;
      && e.runId == id && e.issueId == claim.issueId
      && mandate.requestId.Some? && e.requestId == mandate.requestId
      && Some(e.branch) == place.branch && e.worktree == place.worktree
      && place.base.Some? && Reads(place.base.value, e.base)
      && if mark.paths != [] then e.permitted == mark.paths
         else mandate.policy.Some? && !mandate.policy.value.blank && e.permitted == mandate.policy.value.named
  {
    var t := Play(START, es);
    PlayTraced(START, [], es);
    assert [] + es == es;
    MutatingSuccessIsEarned(es, id);
    assert RunOk(t, id) && Traced(t, es, id);
    hide Legal, Play, Ordered;
    var r := t.runs[id].record;
    claim :| claim in es && claim.Claim? && claim.id == id && claim.issueId == r.issueId &&
      claim.second == r.claimedSecond;
    mandate :| mandate in es && mandate.Mandate? && mandate.id == id && mandate.requestId == r.requestId &&
      mandate.policy == r.policy;
    mark :| mark in es && mark.Mark? && mark.id == id && mark.paths == r.artifactPaths;
    place :| place in es && place.Isolate? && place.id == id && place.branch == r.branch &&
      place.base == r.baseCommit && place.worktree == r.worktree;
  }

  // ---- Children ----

  /** Every child was spawned by a step that named a known parent, and has that parent's issue. */
  ghost predicate Spawned(s: Sys, past: seq<Event>) {
    forall id <- s.runs :: !s.runs[id].top ==> HasParent(s, past, id)
  }

  ghost predicate HasParent(s: Sys, past: seq<Event>, id: Id)
    requires id in s.runs
  {
    exists e <- past :: e.Spawn? && e.id == id && e.parent in s.runs &&
      s.runs[e.parent].record.issueId == s.runs[id].record.issueId && e.second == s.runs[id].record.claimedSecond
  }

  /** No step changes what a run is about. */
  lemma IssueStays(s: Sys, e: Event, id: Id)
    requires Enabled(s, e) && id in s.runs
    ensures var t := Apply(s, e);
      && id in t.runs && t.runs[id].top == s.runs[id].top
      && t.runs[id].record.issueId == s.runs[id].record.issueId
      && t.runs[id].record.claimedSecond == s.runs[id].record.claimedSecond
  {
    hide Faithful, Settled, Recorded, Correlate;
    if id != e.id {
      OthersSame(s, e, id);
    } else if e.Complete? {
      SettledKeeps(s.runs[id], id in s.snapshots, e.outcome, e.env, e.answers);
      RecordedExactly(s.runs[id], id in s.snapshots, e.answers.scan);
    } else if e.Record? {
      RecordedExactly(s.runs[id], id in s.snapshots, e.scan);
    }
  }

  lemma ParentStays(s: Sys, past: seq<Event>, e: Event, id: Id)
    requires Enabled(s, e) && id in s.runs && !s.runs[id].top && HasParent(s, past, id) && id in Apply(s, e).runs
    ensures HasParent(Apply(s, e), past + [e], id)
  {
    hide Enabled, Apply;
    var x :| x in past && x.Spawn? && x.id == id && x.parent in s.runs &&
      s.runs[x.parent].record.issueId == s.runs[id].record.issueId && x.second == s.runs[id].record.claimedSecond;
    IssueStays(s, e, id);
    IssueStays(s, e, x.parent);
    assert x in past + [e];
  }

  /** A new child gets its parent's issue. */
  lemma NewRunSpawned(s: Sys, past: seq<Event>, e: Event, id: Id)
    requires Enabled(s, e) && id in Apply(s, e).runs && id !in s.runs && !Apply(s, e).runs[id].top
    ensures HasParent(Apply(s, e), past + [e], id)
  {
    hide Faithful, Settled, Recorded;
    assert e in past + [e];
  }

  lemma {:induction false} ChildrenShareIssue(s: Sys, past: seq<Event>, es: seq<Event>)
    requires Spawned(s, past) && Legal(s, es)
    ensures Spawned(Play(s, es), past + es)
    decreases |es|
  {
    hide Enabled, Apply, HasParent;
    if es == [] {
      assert past + [] == past;
    } else {
      var t := Apply(s, es[0]);
      forall id | id in t.runs && !t.runs[id].top
        ensures HasParent(t, past + [es[0]], id)
      {
        if id in s.runs {
          IssueStays(s, es[0], id);
          ParentStays(s, past, es[0], id);
        } else {
          NewRunSpawned(s, past, es[0], id);
        }
      }
      ChildrenShareIssue(t, past + [es[0]], es[1..]);
      assert past + [es[0]] + es[1..] == past + es;
    }
  }
}
