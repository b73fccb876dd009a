/** Exactly when a lease may be granted: what a run's comments can still come to, whatever the timing. */
module SyncExact {
  import opened Prelude
  import opened RunStatus
  import opened GitHubSync
  import opened SyncTheorems

  /** A sync that took the lease and has not commented yet. */
  predicate Pending(y: Sync, r: RunId) {
    y.run == r && (y.phase.Claimed? || y.phase.Swapped?)
  }

  function PendingCount(syncs: seq<Sync>, r: RunId): nat {
    if syncs == [] then 0
    else PendingCount(syncs[..|syncs| - 1], r) + if Pending(syncs[|syncs| - 1], r) then 1 else 0
  }

  /** The comments a run has and those its lease holders still owe. */
  function Committed(s: Sys, r: RunId): nat {
    (if r in s.comments then s.comments[r] else 0) + PendingCount(s.syncs, r)
  }

  lemma CountAppend(syncs: seq<Sync>, y: Sync, r: RunId)
    ensures PendingCount(syncs + [y], r) == PendingCount(syncs, r) + if Pending(y, r) then 1 else 0
  {
    assert (syncs + [y])[..|syncs|] == syncs;
  }

  lemma {:induction false} CountUpdate(syncs: seq<Sync>, i: nat, y: Sync, r: RunId)
    requires i < |syncs|
    ensures PendingCount(syncs[i := y], r) + (if Pending(syncs[i], r) then 1 else 0) ==
      PendingCount(syncs, r) + if Pending(y, r) then 1 else 0
  {
    var n := |syncs| - 1;
    if i == n {
      assert syncs[i := y][..n] == syncs[..n];
    } else {
      assert syncs[i := y][..n] == syncs[..n][i := y];
      CountUpdate(syncs[..n], i, y, r);
    }
  }

  lemma {:induction false} CountPositive(syncs: seq<Sync>, r: RunId)
    ensures PendingCount(syncs, r) > 0 <==> exists i :: 0 <= i < |syncs| && Pending(syncs[i], r)
  {
    if syncs != [] {
      var n := |syncs| - 1;
      CountPositive(syncs[..n], r);
      if i :| 0 <= i < |syncs| && Pending(syncs[i], r) && i < n {
        assert Pending(syncs[..n][i], r);
      }
      if i :| 0 <= i < n && Pending(syncs[..n][i], r) {
        assert Pending(syncs[i], r);
      }
    }
  }

  /** `e` grants `r`'s lease. */
  predicate Grants(s: Sys, e: Event, r: RunId) {
    && e.SyncClaim? && e.i < |s.syncs| && s.syncs[e.i].run == r
    && r in s.runs && !s.runs[r].synced && Stale(s.runs[r], s.now)
  }

  /** Only a granted lease adds to what a run is committed to; a failed sync takes away at most its own. */
  lemma StepCommitted(s: Sys, max: Option<nat>, e: Event, r: RunId)
    requires Known(s) && Enabled(s, max, e)
    ensures var (before, after) := (Committed(s, r), Committed(Apply(s, max, e), r));
      if Grants(s, e, r) then after == before + 1
      else after <= before && (!e.SyncFail? ==> after == before)
  {
    hide Known, Apply, PendingCount;
    match e
    case SyncClaim(i) => SyncCommitted(s, max, e, i, r);
    case SyncLabel(i) => SyncCommitted(s, max, e, i, r);
    case SyncComment(i) => SyncCommitted(s, max, e, i, r);
    case SyncFinish(i) => SyncCommitted(s, max, e, i, r);
    case SyncFail(i) => SyncCommitted(s, max, e, i, r);
    case Claim(_, _) => RunCommitted(s, max, e, r);
    case SpawnChild(_, _) => RunCommitted(s, max, e, r);
    case Complete(_, _) => RunCommitted(s, max, e, r);
    case Resync(_) => RunCommitted(s, max, e, r);
    case Tick(_) => RunCommitted(s, max, e, r);
  }

  lemma SyncCommitted(s: Sys, max: Option<nat>, e: Event, i: nat, r: RunId)
    requires Known(s) && Enabled(s, max, e)
    requires e in {SyncClaim(i), SyncLabel(i), SyncComment(i), SyncFinish(i), SyncFail(i)}
    ensures var (before, after) := (Committed(s, r), Committed(Apply(s, max, e), r));
      if Grants(s, e, r) then after == before + 1
      else after <= before && (!e.SyncFail? ==> after == before)
  {
    hide ActiveIssues, Target, SwapLabel, PendingCount, Stale;
    assert Settling(s, s.syncs[i].run);
    CountUpdate(s.syncs, i, Apply(s, max, e).syncs[i], r);
  }

  lemma RunCommitted(s: Sys, max: Option<nat>, e: Event, r: RunId)
    requires Known(s) && Enabled(s, max, e) && (e.Claim? || e.SpawnChild? || e.Complete? || e.Resync? || e.Tick?)
    ensures Committed(Apply(s, max, e), r) == Committed(s, r)
  {
    hide ActiveIssues, SwapLabel, PendingCount;
    if e.Complete? || e.Resync? { CountAppend(s.syncs, Sync(e.id, Want), r); }
  }

  /** No step of `es` grants `r`'s lease. */
  ghost predicate NoGrant(s: Sys, max: Option<nat>, es: seq<Event>, r: RunId)
    requires Known(s) && Legal(s, max, es)
    decreases |es|
  {
    es != [] ==> !Grants(s, es[0], r) && (StepKnown(s, max, es[0]); NoGrant(Apply(s, max, es[0]), max, es[1..], r))
  }

  lemma {:induction false} CommentsBounded(s: Sys, max: Option<nat>, es: seq<Event>, r: RunId)
    requires Known(s) && Legal(s, max, es) && NoGrant(s, max, es, r)
    ensures Committed(Play(s, max, es), r) <= Committed(s, r)
    decreases |es|
  {
    hide Known, Enabled, Apply, Grants, Committed;
    if es != [] {
      StepKnown(s, max, es[0]);
      StepCommitted(s, max, es[0], r);
      CommentsBounded(Apply(s, max, es[0]), max, es[1..], r);
    }
  }

  lemma Prepend(s: Sys, max: Option<nat>, e: Event, es: seq<Event>, r: RunId)
    requires Known(s) && Enabled(s, max, e) && Known(Apply(s, max, e)) && Legal(Apply(s, max, e), max, es)
    ensures Legal(s, max, [e] + es) && Play(s, max, [e] + es) == Play(Apply(s, max, e), max, es)
    ensures NoGrant(s, max, [e] + es, r) <==> !Grants(s, e, r) && NoGrant(Apply(s, max, e), max, es, r)
  {
    hide Known, Enabled, Apply, Grants;
    assert ([e] + es)[1..] == es;
  }

  /** `es` takes every holder to its comment, with no new lease and nothing failing. */
  ghost predicate Reaches(s: Sys, max: Option<nat>, es: seq<Event>, r: RunId, n: nat)
    requires Known(s)
  {
    && Legal(s, max, es) && NoGrant(s, max, es, r) && (forall e <- es :: !e.SyncFail?)
    && r in Play(s, max, es).comments && Play(s, max, es).comments[r] == n
  }

  lemma ReachEarlier(s: Sys, max: Option<nat>, e: Event, es: seq<Event>, r: RunId, n: nat)
    requires Known(s) && Enabled(s, max, e) && Known(Apply(s, max, e)) && (e.SyncLabel? || e.SyncComment?)
    requires Reaches(Apply(s, max, e), max, es, r, n)
    ensures Reaches(s, max, [e] + es, r, n)
  {
    hide Known, Enabled, Apply;
    Prepend(s, max, e, es, r);
  }

  lemma {:induction false} CommentsReached(s: Sys, max: Option<nat>, r: RunId) returns (es: seq<Event>)
    requires Known(s) && r in s.runs
    ensures Reaches(s, max, es, r, Committed(s, r))
    decreases PendingCount(s.syncs, r), 2
  {
    hide PendingCount, Target, SwapLabel, ActiveIssues;
    CountPositive(s.syncs, r);
    if PendingCount(s.syncs, r) == 0 {
      es := [];
    } else {
      var i :| 0 <= i < |s.syncs| && Pending(s.syncs[i], r);
      if s.syncs[i].phase.Claimed? {
        es := ReachedFromClaim(s, max, r, i);
      } else {
        es := ReachedFromSwap(s, max, r, i);
      }
    }
  }

  lemma ReachedFromSwap(s: Sys, max: Option<nat>, r: RunId, i: nat) returns (es: seq<Event>)
    requires Known(s) && r in s.runs && i < |s.syncs| && s.syncs[i].run == r && s.syncs[i].phase.Swapped?
    ensures Reaches(s, max, es, r, Committed(s, r))
    decreases PendingCount(s.syncs, r), 0
  {
    hide PendingCount, Target, SwapLabel, ActiveIssues;
    var e := SyncComment(i);
    StepKnown(s, max, e);
    StepCommitted(s, max, e, r);
    var rest := CommentsReached(Apply(s, max, e), max, r);
    ReachEarlier(s, max, e, rest, r, Committed(s, r));
    es := [e] + rest;
  }

  lemma ReachedFromClaim(s: Sys, max: Option<nat>, r: RunId, i: nat) returns (es: seq<Event>)
    requires Known(s) && r in s.runs && i < |s.syncs| && s.syncs[i].run == r && s.syncs[i].phase.Claimed?
    ensures Reaches(s, max, es, r, Committed(s, r))
    decreases PendingCount(s.syncs, r), 1
  {
    hide PendingCount, Target, SwapLabel, ActiveIssues;
    var e := SyncLabel(i);
    StepKnown(s, max, e);
    StepCommitted(s, max, e, r);
    var rest := ReachedFromSwap(Apply(s, max, e), max, r, i);
    ReachEarlier(s, max, e, rest, r, Committed(s, r));
    es := [e] + rest;
  }

  /** The exact condition, in any state whatever its timing: granting a lease leaves the run with at most one
      comment in every continuation without a further grant iff the run has no comment yet and no earlier
      holder still owes one. */
  lemma GrantSafeExactly(s: Sys, max: Option<nat>, i: nat, r: RunId)
    requires Known(s) && Grants(s, SyncClaim(i), r) && s.syncs[i].phase.Want?
    requires Known(Apply(s, max, SyncClaim(i)))
    ensures
      (forall es :: Continues(s, max, i, r, es) ==> Final(s, max, i, es, r) <= 1)
      <==> s.comments[r] == 0 && forall j :: 0 <= j < |s.syncs| ==> !Pending(s.syncs[j], r)
  {
    var t := Apply(s, max, SyncClaim(i));
    assert r in t.runs;
    hide PendingCount, Play, Legal, NoGrant, TakeLease;
    StepCommitted(s, max, SyncClaim(i), r);
    CountPositive(s.syncs, r);
    if s.comments[r] == 0 && PendingCount(s.syncs, r) == 0 {
      forall es | Continues(s, max, i, r, es)
        ensures Final(s, max, i, es, r) <= 1
      {
        CommentsBounded(t, max, es, r);
      }
    } else {
      var es := CommentsReached(t, max, r);
      assert Continues(s, max, i, r, es) && Final(s, max, i, es, r) == Committed(t, r);
    }
  }

  /** A continuation of the grant in which nobody is granted `r`'s lease again. */
  ghost predicate Continues(s: Sys, max: Option<nat>, i: nat, r: RunId, es: seq<Event>)
    requires Known(s) && Enabled(s, max, SyncClaim(i)) && Known(Apply(s, max, SyncClaim(i)))
  {
    Legal(Apply(s, max, SyncClaim(i)), max, es) && NoGrant(Apply(s, max, SyncClaim(i)), max, es, r)
  }

  /** The comments `r` ends with. */
  ghost function Final(s: Sys, max: Option<nat>, i: nat, es: seq<Event>, r: RunId): nat
    requires Known(s) && Enabled(s, max, SyncClaim(i)) && Known(Apply(s, max, SyncClaim(i)))
    requires Continues(s, max, i, r, es)
  {
    var t := Play(Apply(s, max, SyncClaim(i)), max, es);
    if r in t.comments then t.comments[r] else 0
  }
}
