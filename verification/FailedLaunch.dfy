/** Cleaning up after a launch: the run is made terminal and its claim is released, each best effort, and
    doing it twice is the same as doing it once. */
module FailedLaunch {
  import opened Prelude
  import opened RunStatus
  import opened ClaimSpec
  import ClaimRuns
  import Evidence = EvidenceGate
  import Runs = Settlement
  import History = SettlementTheorems
  import D = Dispatcher
  import S = SqliteClaimStore

  /** The scan's answer while a failed launch is settled; nothing else is asked for a blocked run. */
  function Quiet(scan: Evidence.Containment): Runs.Answers {
    Runs.Answers(scan, false, None, None, false)
  }

  function Blocked(id: Id, scan: Evidence.Containment): Runs.Event {
    Runs.Complete(id, Outcome.Blocked, Runs.NO_REPORT, Quiet(scan))
  }

  /** complete() refuses an unknown or terminal run, and the refusal is swallowed. */
  ghost function FailRun(s: Runs.Sys, id: Id, scan: Evidence.Containment): Runs.Sys
    requires scan != Evidence.SnapshotMissing
  {
    if id in s.runs && s.runs[id].status.Running? then Runs.Apply(s, Blocked(id, scan)) else s
  }

  /** The release names the claim as the launcher holds it; a refusal is swallowed too. */
  function FreeClaim(s: Store, c: Claim, reason: Id, now: real): Store {
    Release(s, c.claimId, c.runId, c.driverId, c.generation, Some(reason), now).0
  }

  // ---- The run ----

  /** After a failed launch a registered run is terminal, blocked and without evidence if it was still
      running, and every other run is untouched. */
  lemma FailedIsTerminal(s: Runs.Sys, id: Id, scan: Evidence.Containment, other: Id)
    requires scan != Evidence.SnapshotMissing && other in s.runs
    ensures var t := FailRun(s, id, scan);
      && other in t.runs
      && (other != id ==> t.runs[other] == s.runs[other])
      && (other == id ==> t.runs[id].status.Done?)
      && (other == id && s.runs[id].status.Running? ==>
            t.runs[id].status == Done(Outcome.Blocked) && t.runs[id].evidence == s.runs[id].evidence)
      && (s.runs[other].status.Done? ==> t.runs[other] == s.runs[other])
  {
    hide Evidence.Correlate, Evidence.Faithful;
  }

  /** Whatever happens in between, failing the same launch again changes no run. */
  lemma SecondFailIdle(s: Runs.Sys, id: Id, first: Evidence.Containment, es: seq<Runs.Event>,
                       second: Evidence.Containment)
    requires first != Evidence.SnapshotMissing && second != Evidence.SnapshotMissing && id in s.runs
    requires History.Legal(FailRun(s, id, first), es)
    ensures var t := History.Play(FailRun(s, id, first), es); FailRun(t, id, second) == t
  {
    hide FailRun, History.Legal, History.Play;
    FailedIsTerminal(s, id, first, id);
    History.DoneStays(FailRun(s, id, first), es, id);
    StaysFailed(History.Play(FailRun(s, id, first), es), id, second);
  }

  lemma StaysFailed(s: Runs.Sys, id: Id, scan: Evidence.Containment)
    requires scan != Evidence.SnapshotMissing && id in s.runs && s.runs[id].status.Done?
    ensures FailRun(s, id, scan) == s
  {
  }

  // ---- The claim ----

  ghost predicate HoldsSomething(s: Store, id: Id) {
    exists k :: Holds(s, k, id)
  }

  /** The claim's keys are freed exactly if it is still active and still at the generation the launcher has:
      an expired lease, a heartbeat or a binding since then leaves every key held. */
  lemma FreedExactly(s: Store, c: Claim, reason: Id, now: real)
    requires HoldsSomething(s, c.claimId)
    requires s.claims[c.claimId].runId == c.runId && s.claims[c.claimId].driverId == c.driverId
    ensures !HoldsSomething(FreeClaim(s, c, reason, now), c.claimId) <==>
      s.claims[c.claimId].state == Active && s.claims[c.claimId].generation == c.generation
  {
  }

  /** Freed keys are free for anyone. */
  lemma FreedKeysAreOpen(s: Store, c: Claim, reason: Id, now: real, k: Key)
    requires Owns(s, c.claimId, c.runId, c.driverId, c.generation) && s.claims[c.claimId].state == Active
    requires Holds(s, k, c.claimId)
    ensures !KeyTaken(FreeClaim(s, c, reason, now), k)
  {
  }

  /** So after a failed launch whose claim was current, a new claim for the same issue under a fresh run is
      admitted with the store's generation exactly if no other lease has lapsed. */
  lemma RetryAdmittedExactly(s: Store, c: Claim, reason: Id, now: real, d: Claim, keys: seq<Key>)
    requires ClaimRuns.Inv(s) && Owns(s, c.claimId, c.runId, c.driverId, c.generation)
    requires s.claims[c.claimId].state == Active
    requires d.state == Active && keys != [] && Distinct(keys) && d.claimId !in s.claims && !RunTaken(s, d.runId)
    requires d.issueId == s.claims[c.claimId].issueId && forall k <- keys :: KeyTaken(s, k) ==>
      s.resources[k] == c.claimId
    ensures var t := FreeClaim(s, c, reason, now);
      Acquire(t, d, keys, t.generation).1.Ok? <==>
        forall id <- s.claims :: id != c.claimId ==> !LapsedAt(s, id, d.profile.acquiredAt)
  {
    hide Acquire, ClaimRuns.Inv, Release;
    var (t, at) := (FreeClaim(s, c, reason, now), d.profile.acquiredAt);
    FreedKeepsInv(s, c, reason, now);
    forall k | k in keys
      ensures !KeyTaken(t, k)
    {
      if KeyTaken(s, k) { FreedKeysAreOpen(s, c, reason, now, k); } else { FreedTakesNothing(s, c, reason, now, k); }
    }
    FreedIssueIsOpen(s, c, reason, now, d);
    FreedLapses(s, c, reason, now, at);
    hide FreeClaim, KeyTaken, IssueTaken, RunTaken, ClaimRuns.LapsedSet, LapsedAt;
    ClaimRuns.AcquireDecision(t, d, keys, t.generation);
  }

  lemma FreedKeepsInv(s: Store, c: Claim, reason: Id, now: real)
    requires ClaimRuns.Inv(s)
    ensures ClaimRuns.Inv(FreeClaim(s, c, reason, now)) && ClaimRuns.TablesMatch(FreeClaim(s, c, reason, now))
  {
    var release := ClaimRuns.TransitionOp(c.claimId, c.runId, c.driverId, c.generation, Free(now, reason), now);
    assert FreeClaim(s, c, reason, now) == ClaimRuns.Step(s, release);
    ClaimRuns.StepKeepsInv(s, release);
  }

  lemma FreedTakesNothing(s: Store, c: Claim, reason: Id, now: real, k: Key)
    requires !KeyTaken(s, k)
    ensures !KeyTaken(FreeClaim(s, c, reason, now), k)
  {
  }

  lemma FreedLapses(s: Store, c: Claim, reason: Id, now: real, at: real)
    requires Owns(s, c.claimId, c.runId, c.driverId, c.generation) && s.claims[c.claimId].state == Active
    ensures ClaimRuns.LapsedSet(FreeClaim(s, c, reason, now), at) == {} <==>
      forall id <- s.claims :: id != c.claimId ==> !LapsedAt(s, id, at)
    ensures |ClaimRuns.LapsedSet(FreeClaim(s, c, reason, now), at)| == 0 <==>
      ClaimRuns.LapsedSet(FreeClaim(s, c, reason, now), at) == {}
  {
    var t := FreeClaim(s, c, reason, now);
    assert forall id :: LapsedAt(t, id, at) <==> id != c.claimId && LapsedAt(s, id, at);
    hide FreeClaim, LapsedAt;
    assert forall id :: id in ClaimRuns.LapsedSet(t, at) <==> id in t.claims && LapsedAt(t, id, at);
  }

  lemma FreedIssueIsOpen(s: Store, c: Claim, reason: Id, now: real, d: Claim)
    requires ClaimRuns.Inv(s) && Owns(s, c.claimId, c.runId, c.driverId, c.generation)
    requires s.claims[c.claimId].state == Active && d.issueId == s.claims[c.claimId].issueId && !RunTaken(s, d.runId)
    ensures var t := FreeClaim(s, c, reason, now);
      !IssueTaken(t, d.issueId) && !RunTaken(t, d.runId) && t.claims.Keys == s.claims.Keys
  {
    var t := FreeClaim(s, c, reason, now);
    forall id | id in t.claims && LiveId(t, id)
      ensures LiveId(s, id) && t.claims[id].issueId != d.issueId && t.claims[id].runId != d.runId
    {
      assert LiveId(s, id) && LiveId(s, c.claimId);
    }
  }

  /** The claim can no longer be released with this record: it has moved on or is no longer active. */
  predicate Spent(s: Store, c: Claim) {
    && c.claimId in s.claims
    && (s.claims[c.claimId].runId != c.runId || s.claims[c.claimId].driverId != c.driverId
        || s.claims[c.claimId].generation > c.generation
        || (s.claims[c.claimId].generation == c.generation && s.claims[c.claimId].state != Active))
  }

  lemma SpentAfter(s: Store, c: Claim, reason: Id, now: real)
    requires ClaimRuns.Inv(s) && c.claimId in s.claims && c.generation <= s.claims[c.claimId].generation
    ensures Spent(FreeClaim(s, c, reason, now), c)
  {
  }

  lemma StepKeepsSpent(s: Store, op: ClaimRuns.Op, c: Claim)
    requires ClaimRuns.Inv(s) && Spent(s, c)
    ensures Spent(ClaimRuns.Step(s, op), c)
  {
    match op
    case AcquireOp(d, keys, expected) =>
      hide Acquire, Expire;
      ClaimRuns.AcquireDecision(s, d, keys, expected);
      if Acquire(s, d, keys, expected).1.Ok? {
        ClaimRuns.AcquireEffect(s, d, keys, expected);
        ClaimRuns.ExpireExact(s, d.profile.acquiredAt);
      }
    case ExpireOp(now) =>
      hide Expire;
      ClaimRuns.ExpireExact(s, now);
    case _ =>
  }

  lemma {:induction false} RunKeepsSpent(s: Store, ops: seq<ClaimRuns.Op>, c: Claim)
    requires ClaimRuns.Inv(s) && Spent(s, c)
    ensures Spent(ClaimRuns.Run(s, ops), c)
    decreases |ops|
  {
    hide ClaimRuns.Inv, Spent, ClaimRuns.Step;
    if ops != [] {
      StepKeepsSpent(s, ops[0], c);
      ClaimRuns.StepKeepsInv(s, ops[0]);
      RunKeepsSpent(ClaimRuns.Step(s, ops[0]), ops[1..], c);
    }
  }

  /** Whatever other clients do in between, a second pass with the same record changes nothing. */
  lemma SecondReleaseIdle(s: Store, c: Claim, r1: Id, t1: real, ops: seq<ClaimRuns.Op>, r2: Id, t2: real)
    requires ClaimRuns.Inv(s) && c.claimId in s.claims && c.generation <= s.claims[c.claimId].generation
    ensures var u := ClaimRuns.Run(FreeClaim(s, c, r1, t1), ops); FreeClaim(u, c, r2, t2) == u
  {
    hide ClaimRuns.Inv;
    SpentAfter(s, c, r1, t1);
    var release := ClaimRuns.TransitionOp(c.claimId, c.runId, c.driverId, c.generation, Free(t1, r1), t1);
    assert FreeClaim(s, c, r1, t1) == ClaimRuns.Step(s, release);
    ClaimRuns.StepKeepsInv(s, release);
    RunKeepsSpent(FreeClaim(s, c, r1, t1), ops, c);
  }

  // ---- Every other exit ----

  /** The claim to release for a run: the one the launcher kept, else the live one in the store. */
  ghost predicate Found(s: Store, kept: map<Id, Claim>, run: Id, c: Option<Claim>) {
    if run in kept then c == Some(kept[run])
    else if RunTaken(s, run) then
      c.Some? && c.value.claimId in s.claims && s.claims[c.value.claimId] == c.value && Live(c.value) &&
        c.value.runId == run
    else c.None?
  }

  /** A claim read back from the store is released, leaving the run no live claim, exactly if its lease had
      not been expired. */
  lemma FoundIsReleased(s: Store, run: Id, c: Claim, reason: Id, now: real)
    requires ClaimRuns.Inv(s) && Found(s, map[], run, Some(c))
    ensures !RunTaken(FreeClaim(s, c, reason, now), run) <==> c.state == Active
  {
    var t := FreeClaim(s, c, reason, now);
    if c.state == Active {
      forall id | id in t.claims && LiveId(t, id)
        ensures t.claims[id].runId != run
      {
        assert LiveId(s, id) && LiveId(s, c.claimId);
      }
    } else {
      assert t == s && LiveId(t, c.claimId);
    }
  }

  class WorkLauncher {
    const dispatcher: D.Dispatcher
    const claims: S.ClaimStore
    var kept: map<Id, Claim>

    constructor (dispatcher: D.Dispatcher, claims: S.ClaimStore)
      ensures this.dispatcher == dispatcher && this.claims == claims && kept == map[]
    {
      this.dispatcher, this.claims, kept := dispatcher, claims, map[];
    }

    /** The run first, then the claim, whether or not the run could be settled. */
    method FailLaunch(id: Id, c: Claim, scan: Evidence.Containment, reason: Id, now: real)
      requires dispatcher.Valid() && scan != Evidence.SnapshotMissing
      modifies dispatcher`snapshots, claims,
               if id in dispatcher.registry.runs then {dispatcher.registry.runs[id]} else {}
      ensures dispatcher.Valid()
      ensures claims.View() == FreeClaim(old(claims.View()), c, reason, now)
      ensures dispatcher.registry.View() ==
        var before := old(dispatcher.registry.View());
        if id in before && before[id].status.Running? then
          before[id := Runs.Settled(before[id], id in old(dispatcher.snapshots), Outcome.Blocked, Runs.NO_REPORT,
                                    Quiet(scan))]
        else before
    {
      hide Runs.Settled;
      var _ := dispatcher.Complete(id, Outcome.Blocked, Runs.NO_REPORT, Quiet(scan));
      var _ := claims.Release(c.claimId, c.runId, c.driverId, c.generation, Some(reason), now);
    }

    method FindClaim(run: Id) returns (c: Option<Claim>)
      requires forall id <- claims.claims :: claims.claims[id].claimId == id
      ensures Found(claims.View(), kept, run, c)
    {
      if run in kept {
        return Some(kept[run]);
      }
      var live := claims.ActiveClaims();
      for i := 0 to |live|
        invariant forall j :: 0 <= j < i ==> live[j].runId != run
      {
        if live[i].runId == run {
          assert live[i] in live;
          return Some(live[i]);
        }
      }
      forall id <- claims.claims
        ensures LiveId(claims.View(), id) ==> claims.claims[id].runId != run
      {
        assert LiveId(claims.View(), id) ==> claims.claims[id] in live;
      }
      return None;
    }

    /** Containment is recorded if the run is known, the kept claim is forgotten, and whichever claim was found
        is released. */
    method OnWorkerTerminal(run: Id, scan: Evidence.Containment, reason: Id, now: real) returns (ghost c: Option<Claim>)
      requires dispatcher.Valid()
      requires forall id <- claims.claims :: claims.claims[id].claimId == id
      modifies this`kept, dispatcher`snapshots, claims,
               if run in dispatcher.registry.runs then {dispatcher.registry.runs[run]} else {}
      ensures dispatcher.Valid() && kept == old(kept) - {run}
      ensures dispatcher.snapshots == old(dispatcher.snapshots) - {run}
      ensures Found(old(claims.View()), old(kept), run, c)
      ensures claims.View() ==
        if c.Some? then FreeClaim(old(claims.View()), c.value, reason, now) else old(claims.View())
      ensures dispatcher.registry.View() ==
        var before := old(dispatcher.registry.View());
        if run in old(dispatcher.registry.runs) then
          before[run := Runs.Recorded(old(dispatcher.registry.runs[run].View()), run in old(dispatcher.snapshots),
            scan)]
        else before
    {
      hide Runs.Recorded, Release, Found, D.RunRegistry.View, D.RunRegistry.Valid;
      dispatcher.TerminalContainment(run, scan);
      var found := FindClaim(run);
      c := found;
      kept := kept - {run};
      if found.Some? {
        var x := found.value;
        var _ := claims.Release(x.claimId, x.runId, x.driverId, x.generation, Some(reason), now);
      }
    }
  }
}
