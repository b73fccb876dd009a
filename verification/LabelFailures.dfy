/** Which failed syncs can break the labels: exactly those that fail after the label step of a cancelled run. */
module LabelFailures {
  import opened Prelude
  import opened RunStatus
  import opened GitHubSync
  import opened SyncTheorems
  import opened SyncHistories
  import opened IssueLabels

  ghost predicate LabelsOk(s: Sys) {
    forall issue <- s.labels :: IssueTidy(s, issue)
  }

  /** What may follow: every sync within its lease, and no failure after the label step of a cancelled run. */
  ghost predicate Continues(s: Sys, max: Option<nat>, es: seq<Event>)
    requires Known(s)
  {
    Legal(s, max, es) && Prompt(s, max, es) && Harmless(s, max, es)
  }

  /** `es` leads from `s` to `u` promptly and with nothing failing. */
  ghost predicate Leads(s: Sys, max: Option<nat>, es: seq<Event>, u: Sys)
    requires Known(s)
  {
    Legal(s, max, es) && Play(s, max, es) == u && Prompt(s, max, es) && NoFailure(es)
  }

  lemma LeadsOn(s: Sys, max: Option<nat>, es: seq<Event>, u: Sys, e: Event) returns (fs: seq<Event>)
    requires Known(s) && Leads(s, max, es, u) && Known(u) && Enabled(u, max, e) && !e.SyncFail?
    requires Timely(Apply(u, max, e))
    ensures Leads(s, max, fs, Apply(u, max, e)) && Known(Apply(u, max, e))
  {
    hide Known, Legal, Play, Prompt, Enabled, Apply, Timely;
    Then(s, max, es, e);
    fs := es + [e];
  }

  lemma {:induction false} NoFailureIsHarmless(s: Sys, max: Option<nat>, es: seq<Event>)
    requires Known(s) && Legal(s, max, es) && NoFailure(es)
    ensures Harmless(s, max, es)
    decreases |es|
  {
    hide Known, Enabled, Apply;
    if es != [] {
      assert !es[0].SyncFail?;
      StepKnown(s, max, es[0]);
      NoFailureIsHarmless(Apply(s, max, es[0]), max, es[1..]);
    }
  }

  /** A cancelled run that has taken its label step, is not synced and is held by nobody. */
  ghost predicate Loose(s: Sys, id: RunId) {
    && Known(s) && id in s.runs && s.runs[id].parent.None? && Withdrawn(s, id) && !s.runs[id].synced
    && id in s.settled && !Held(s, id)
  }

  ghost predicate Idle(s: Sys) {
    forall j :: 0 <= j < |s.syncs| ==> !Holding(s.syncs[j].phase)
  }

  // ---- Letting every other sync finish ----

  function Left(p: Phase): nat {
    match p
    case Claimed(_) => 3
    case Swapped(_, _) => 2
    case Commented(_, _) => 1
    case _ => 0
  }

  /** The next step of sync `k`. */
  function Work(p: Phase, k: nat): Event {
    if p.Claimed? then SyncLabel(k) else if p.Swapped? then SyncComment(k) else SyncFinish(k)
  }

  /** What that step does. */
  ghost predicate Worked(u: Sys, v: Sys, k: nat)
    requires k < |u.syncs| && Holding(u.syncs[k].phase)
  {
    && k < |v.syncs| && MovesTo(u, v, k, v.syncs[k].phase) && v.now == u.now && u.settled <= v.settled
    && Left(v.syncs[k].phase) < Left(u.syncs[k].phase)
    && (Holding(v.syncs[k].phase) ==> v.syncs[k].phase.at == u.syncs[k].phase.at)
  }

  lemma WorkEffect(u: Sys, max: Option<nat>, k: nat)
    requires Known(u) && k < |u.syncs| && Holding(u.syncs[k].phase)
    ensures Enabled(u, max, Work(u.syncs[k].phase, k)) && Known(Apply(u, max, Work(u.syncs[k].phase, k)))
    ensures Worked(u, Apply(u, max, Work(u.syncs[k].phase, k)), k)
  {
    hide Target, SwapLabel, ActiveIssues, Stale;
    assert Settling(u, u.syncs[k].run);
    StepKnown(u, max, Work(u.syncs[k].phase, k));
  }

  lemma WorkedLoose(u: Sys, v: Sys, k: nat, id: RunId)
    requires Loose(u, id) && Known(v) && k < |u.syncs| && Holding(u.syncs[k].phase) && Worked(u, v, k)
    ensures Loose(v, id)
  {
    assert u.syncs[k].run != id;
    MoveHeld(u, k, v.syncs[k].phase);
    assert Held(v, id) <==> Held(Move(u, k, v.syncs[k].phase), id);
    hide Known, Held;
  }

  lemma WorkStep(u: Sys, max: Option<nat>, k: nat, id: RunId)
    requires LeaseInv(u) && Timely(u) && Loose(u, id) && k < |u.syncs| && Holding(u.syncs[k].phase)
    ensures Enabled(u, max, Work(u.syncs[k].phase, k))
    ensures var v := Apply(u, max, Work(u.syncs[k].phase, k));
      && Loose(v, id) && Timely(v) && |v.syncs| == |u.syncs| && Left(v.syncs[k].phase) < Left(u.syncs[k].phase)
      && forall j :: 0 <= j < |u.syncs| && j != k ==> v.syncs[j] == u.syncs[j]
  {
    hide Apply, Enabled, LeaseInv, Loose, Left, Work;
    LooseIsKnown(u, id);
    WorkEffect(u, max, k);
    WorkedLoose(u, Apply(u, max, Work(u.syncs[k].phase, k)), k, id);
  }

  lemma {:induction false} Drain(s: Sys, max: Option<nat>, es: seq<Event>, u: Sys, id: RunId, k: nat)
    returns (fs: seq<Event>, v: Sys)
    requires Known(s) && Leads(s, max, es, u) && LeaseInv(u) && Timely(u) && Loose(u, id) && k <= |u.syncs|
    requires forall j :: 0 <= j < k ==> !Holding(u.syncs[j].phase)
    ensures Leads(s, max, fs, v) && Loose(v, id) && Idle(v)
    decreases |u.syncs| - k, if k < |u.syncs| then Left(u.syncs[k].phase) else 0
  {
    hide Known, Leads, LeaseInv, Timely, Loose, Enabled, Apply;
    if k == |u.syncs| {
      fs, v := es, u;
    } else if !Holding(u.syncs[k].phase) {
      fs, v := Drain(s, max, es, u, id, k + 1);
    } else {
      var e := Work(u.syncs[k].phase, k);
      LooseIsKnown(u, id);
      WorkStep(u, max, k, id);
      StepKeepsLeases(u, max, e);
      fs := LeadsOn(s, max, es, u, e);
      fs, v := Drain(s, max, fs, Apply(u, max, e), id, k);
    }
  }

  lemma LooseIsKnown(u: Sys, id: RunId)
    requires Loose(u, id)
    ensures Known(u)
  {
  }

  // ---- Letting every run end ----

  function Active(s: Sys): set<RunId> {
    set r | r in s.runs && s.runs[r].status.Running?
  }

  lemma EndStep(u: Sys, max: Option<nat>, r: RunId, id: RunId)
    requires Loose(u, id) && Idle(u) && r in Active(u)
    ensures Enabled(u, max, Complete(r, Failed))
    ensures var v := Apply(u, max, Complete(r, Failed));
      Loose(v, id) && Idle(v) && Timely(v) && Active(v) == Active(u) - {r}
  {
    StepKnown(u, max, Complete(r, Failed));
    var v := Apply(u, max, Complete(r, Failed));
    assert Idle(v);
  }

  lemma {:induction false} EndAll(s: Sys, max: Option<nat>, es: seq<Event>, u: Sys, id: RunId)
    returns (fs: seq<Event>, v: Sys)
    requires Known(s) && Leads(s, max, es, u) && Loose(u, id) && Idle(u)
    ensures Leads(s, max, fs, v) && Loose(v, id) && Idle(v) && Active(v) == {}
    decreases |Active(u)|
  {
    hide Known, Leads, Timely, Loose, Enabled, Apply, Idle;
    if Active(u) == {} {
      fs, v := es, u;
    } else {
      var r :| r in Active(u);
      LooseIsKnown(u, id);
      EndStep(u, max, r, id);
      fs := LeadsOn(s, max, es, u, Complete(r, Failed));
      fs, v := EndAll(s, max, fs, Apply(u, max, Complete(r, Failed)), id);
    }
  }

  // ---- The repeated label step ----

  /** An issue whose one workflow label, if it has runs that of its newest, is not ready. */
  ghost predicate Busy(u: Sys, issue: IssueId, l: Label) {
    && issue in u.labels && Only(u.labels[issue], l) && l != Ready
    && if issue in u.latest then Newest(u, issue, u.latest[issue]) &&
      Expected(u, u.latest[issue]) == l else l != InProgress
  }

  /** Half a minute or more on, the loose run's lease is stale. */
  function Wait(u: Sys, id: RunId): (dt: real)
    requires id in u.runs
    ensures dt > 0.0
  {
    var c := u.runs[id].claimedAt;
    if c.Some? && c.value > u.now then c.value - u.now + 31.0 else 31.0
  }

  lemma WaitStep(u: Sys, max: Option<nat>, id: RunId, l: Label)
    requires Loose(u, id) && Idle(u) && Busy(u, u.runs[id].issue, l)
    ensures var v := Apply(u, max, Tick(Wait(u, id)));
      && Loose(v, id) && Idle(v) && Timely(v) && Busy(v, v.runs[id].issue, l) && Stale(v.runs[id], v.now)
  {
    StepKnown(u, max, Tick(Wait(u, id)));
    var v := Apply(u, max, Tick(Wait(u, id)));
    assert Held(v, id) <==> Held(u, id);
  }

  /** The repeated label step is next. */
  ghost predicate Poised(u: Sys, id: RunId, l: Label) {
    && Loose(u, id) && Busy(u, u.runs[id].issue, l) && Stale(u.runs[id], u.now)
    && |u.syncs| > 0 && u.syncs[|u.syncs| - 1] == Sync(id, Want)
    && forall j :: 0 <= j < |u.syncs| ==> !Holding(u.syncs[j].phase)
  }

  lemma ResyncStep(u: Sys, max: Option<nat>, id: RunId, l: Label)
    requires Loose(u, id) && Idle(u) && Busy(u, u.runs[id].issue, l) && Stale(u.runs[id], u.now)
    ensures Enabled(u, max, Resync(id))
    ensures Poised(Apply(u, max, Resync(id)), id, l) && Timely(Apply(u, max, Resync(id)))
  {
    hide Stale;
    StepKnown(u, max, Resync(id));
    var v := Apply(u, max, Resync(id));
    assert forall j :: 0 <= j < |v.syncs| ==> !Holding(v.syncs[j].phase);
  }

  lemma GrantStep(u: Sys, max: Option<nat>, id: RunId, l: Label)
    requires Poised(u, id, l)
    ensures var k := |u.syncs| - 1;
      var v := Apply(u, max, SyncClaim(k));
      && Known(v) && Timely(v) && k < |v.syncs| && v.syncs[k] == Sync(id, Claimed(v.now))
      && (forall j :: 0 <= j < |v.syncs| && j != k ==> !Holding(v.syncs[j].phase))
      && Settling(v, id) && id in v.settled && Withdrawn(v, id) && Busy(v, v.runs[id].issue, l)
  {
    StepKnown(u, max, SyncClaim(|u.syncs| - 1));
  }

  lemma RepeatStep(u: Sys, max: Option<nat>, id: RunId, l: Label, k: nat)
    requires Known(u) && k < |u.syncs| && u.syncs[k] == Sync(id, Claimed(u.now))
    requires forall j :: 0 <= j < |u.syncs| && j != k ==> !Holding(u.syncs[j].phase)
    requires Settling(u, id) && id in u.settled && Withdrawn(u, id) && Busy(u, u.runs[id].issue, l)
    ensures var v := Apply(u, max, SyncLabel(k));
      Timely(v) && u.runs[id].issue in v.labels && !IssueTidy(v, u.runs[id].issue)
  {
    var (issue, v) := (u.runs[id].issue, Apply(u, max, SyncLabel(k)));
    assert Ready in v.labels[issue];
    if issue in u.latest {
      assert Expected(v, u.latest[issue]) == l;
    } else {
      assert l in v.labels[issue];
    }
  }

  /** After a wait, a resync takes the loose run's lease and repeats its label step. */
  lemma Strike(s: Sys, max: Option<nat>, es: seq<Event>, u: Sys, id: RunId, l: Label) returns (fs: seq<Event>)
    requires Known(s) && Leads(s, max, es, u) && Loose(u, id) && Idle(u) && Busy(u, u.runs[id].issue, l)
    ensures Legal(s, max, fs) && Harmless(s, max, fs) && Continues(s, max, fs) && !LabelsOk(Play(s, max, fs))
  {
    LooseIsKnown(u, id);
    assert id in u.runs;
    hide Known, Leads, Loose, Idle, Busy, Apply, Enabled, Timely, Stale, IssueTidy;
    assert Enabled(u, max, Tick(Wait(u, id))) by { TickEnabled(u, max, Wait(u, id)); }
    WaitStep(u, max, id, l);
    fs := LeadsOn(s, max, es, u, Tick(Wait(u, id)));
    var a := Apply(u, max, Tick(Wait(u, id)));
    ResyncStep(a, max, id, l);
    fs := LeadsOn(s, max, fs, a, Resync(id));
    var b := Apply(a, max, Resync(id));
    var k := |b.syncs| - 1;
    GrantEnabled(b, max, id, l);
    GrantStep(b, max, id, l);
    fs := LeadsOn(s, max, fs, b, SyncClaim(k));
    var c := Apply(b, max, SyncClaim(k));
    LabelEnabled(c, max, id, k);
    RepeatStep(c, max, id, l, k);
    fs := LeadsOn(s, max, fs, c, SyncLabel(k));
    Struck(s, max, fs, Apply(c, max, SyncLabel(k)), c.runs[id].issue);
  }

  lemma TickEnabled(u: Sys, max: Option<nat>, dt: real)
    requires dt > 0.0
    ensures Enabled(u, max, Tick(dt))
  {
  }

  lemma GrantEnabled(u: Sys, max: Option<nat>, id: RunId, l: Label)
    requires Poised(u, id, l)
    ensures |u.syncs| > 0 && Enabled(u, max, SyncClaim(|u.syncs| - 1))
  {
  }

  lemma LabelEnabled(u: Sys, max: Option<nat>, id: RunId, k: nat)
    requires k < |u.syncs| && u.syncs[k] == Sync(id, Claimed(u.now))
    ensures Enabled(u, max, SyncLabel(k))
  {
  }

  lemma Struck(s: Sys, max: Option<nat>, es: seq<Event>, u: Sys, issue: IssueId)
    requires Known(s) && Leads(s, max, es, u) && issue in u.labels && !IssueTidy(u, issue)
    ensures Legal(s, max, es) && Continues(s, max, es) && !LabelsOk(Play(s, max, es))
  {
    hide Known, IssueTidy;
    NoFailureIsHarmless(s, max, es);
  }

  // ---- The condition ----

  lemma {:induction false} Above(ids: set<RunId>) returns (n: nat)
    ensures forall r <- ids :: r.n < n
  {
    if ids == {} {
      n := 0;
    } else {
      var r :| r in ids;
      var m := Above(ids - {r});
      n := if r.n < m then m else r.n + 1;
      assert forall x <- ids :: x == r || x in ids - {r};
    }
  }

  /** If the issue is ready again it is claimed anew, and then it is busy. */
  lemma ClaimStep(u: Sys, max: Option<nat>, id: RunId, q: RunId)
    requires Loose(u, id) && Idle(u) && Active(u) == {} && (max.Some? ==> max.value > 0) && q !in u.runs
    requires u.runs[id].issue in u.labels && Only(u.labels[u.runs[id].issue], Ready)
    ensures Enabled(u, max, Claim(q, u.runs[id].issue))
    ensures var v := Apply(u, max, Claim(q, u.runs[id].issue));
      Timely(v) && Loose(v, id) && Idle(v) && Busy(v, v.runs[id].issue, InProgress)
  {
    var issue := u.runs[id].issue;
    assert ActiveIssues(u) == {} by {
      forall r <- u.runs
        ensures !u.runs[r].status.Running?
      {
        assert r !in Active(u);
      }
    }
    StepKnown(u, max, Claim(q, issue));
    var v := Apply(u, max, Claim(q, issue));
    assert Held(v, id) <==> Held(u, id);
    assert Only(v.labels[issue], InProgress);
  }

  /** A loose run can always end up breaking the labels. */
  lemma LooseBreaks(s: Sys, max: Option<nat>, id: RunId) returns (es: seq<Event>)
    requires Known(s) && LeaseInv(s) && Timely(s) && Loose(s, id) && (max.Some? ==> max.value > 0)
    ensures Legal(s, max, es) && Continues(s, max, es) && !LabelsOk(Play(s, max, es))
  {
    assert Leads(s, max, [], s);
    var fs, u;
    fs, u := Drain(s, max, [], s, id, 0);
    fs, u := EndAll(s, max, fs, u, id);
    LooseIsKnown(u, id);
    var issue := u.runs[id].issue;
    if !LabelsOk(u) {
      var bad :| bad in u.labels && !IssueTidy(u, bad);
      Struck(s, max, fs, u, bad);
      es := fs;
    } else {
      es := BreakFrom(s, max, fs, u, id);
    }
  }

  lemma BreakFrom(s: Sys, max: Option<nat>, es: seq<Event>, u: Sys, id: RunId) returns (fs: seq<Event>)
    requires Known(s) && Leads(s, max, es, u) && Loose(u, id) && Idle(u) && Active(u) == {} && LabelsOk(u)
    requires max.Some? ==> max.value > 0
    ensures Legal(s, max, fs) && Continues(s, max, fs) && !LabelsOk(Play(s, max, fs))
  {
    LooseIsKnown(u, id);
    var issue := u.runs[id].issue;
    assert issue in u.labels && IssueTidy(u, issue);
    var l :| Only(u.labels[issue], l) &&
      if issue in u.latest then Newest(u, issue, u.latest[issue]) &&
        Expected(u, u.latest[issue]) == l else l != InProgress;
    hide Leads, Loose, Idle, Only, Apply, Enabled, Timely, IssueTidy, Known, Active;
    if l == Ready {
      var n := Above(u.runs.Keys);
      var q := RunId(n);
      ClaimStep(u, max, id, q);
      fs := LeadsOn(s, max, es, u, Claim(q, issue));
      fs := Strike(s, max, fs, Apply(u, max, Claim(q, issue)), id, InProgress);
    } else {
      assert Busy(u, issue, l);
      fs := Strike(s, max, es, u, id, l);
    }
  }

  /** A failed sync is harmless, whatever may follow, exactly if it fails before its label step or its run was
      not cancelled. */
  lemma FailureHarmlessExactly(s: Sys, max: Option<nat>, i: nat)
    requires Known(s) && LeaseInv(s) && Tidy(s) && Timely(s) && (max.Some? ==> max.value > 0)
    requires i < |s.syncs| && Holding(s.syncs[i].phase) && s.syncs[i].run in s.runs
    requires Known(Apply(s, max, SyncFail(i)))
    ensures (forall es | Continues(Apply(s, max, SyncFail(i)), max, es) ::
      LabelsOk(Play(Apply(s, max, SyncFail(i)), max, es)))
      <==> s.syncs[i].phase.Claimed? || !Withdrawn(s, s.syncs[i].run)
  {
    var (e, t) := (SyncFail(i), Apply(s, max, SyncFail(i)));
    StepKeepsLeases(s, max, e);
    assert Timely(t);
    if !Harmful(s, e) {
      StepKeepsTidy(s, max, e);
      forall es | Continues(t, max, es)
        ensures LabelsOk(Play(t, max, es))
      {
        PlayKeepsTidy(t, max, es);
      }
    } else {
      FailedIsLoose(s, max, i);
      var es := LooseBreaks(t, max, s.syncs[i].run);
    }
  }

  lemma FailedIsLoose(s: Sys, max: Option<nat>, i: nat)
    requires Known(s) && LeaseInv(s) && Tidy(s) && i < |s.syncs| && Harmful(s, SyncFail(i))
    ensures Loose(Apply(s, max, SyncFail(i)), s.syncs[i].run)
  {
    hide IssueTidy, RunTidy;
    StepKnown(s, max, SyncFail(i));
    HolderIsAlone(s, i);
    MoveHeld(s, i, Gone);
    assert PhaseTidy(s, i) && Leased(s, i) && Settling(s, s.syncs[i].run);
  }
}
