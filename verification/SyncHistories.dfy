/** Histories built step by step, and what they show: exactly how long a GitHub call may last before a
    second comment is possible, and what one lost final write does. */
module SyncHistories {
  import opened Prelude
  import opened RunStatus
  import opened GitHubSync
  import opened SyncTheorems

  predicate NoFailure(es: seq<Event>) {
    forall e <- es :: !e.SyncFail?
  }

  /** At this moment no call has lasted longer than `c`: the label call since the lease was taken, the comment
      call, with its final write, since the label call returned. */
  predicate Pace(p: Phase, now: real, c: real) {
    match p
    case Claimed(at) => now - at <= c
    case Swapped(at, labelled) => labelled - at <= c && now - labelled <= c
    case Commented(at, labelled) => labelled - at <= c && now - labelled <= c
    case _ => true
  }

  predicate OnPace(syncs: seq<Sync>, now: real, c: real) {
    forall i :: 0 <= i < |syncs| ==> Pace(syncs[i].phase, now, c)
  }

  /** Throughout `es` each call lasts at most `c`. */
  ghost predicate Paced(s: Sys, max: Option<nat>, es: seq<Event>, c: real)
    requires Known(s) && Legal(s, max, es)
    decreases |es|
  {
    OnPace(s.syncs, s.now, c) && (es != [] ==> (StepKnown(s, max, es[0]); Paced(Apply(s, max, es[0]), max, es[1..], c)))
  }

  predicate OnTime(syncs: seq<Sync>, now: real) {
    forall i :: 0 <= i < |syncs| && Holding(syncs[i].phase) ==> now - syncs[i].phase.at <= LEASE_SECONDS
  }

  /** Two calls that together fit the lease keep every sync within it. */
  lemma {:induction false} PacedIsPrompt(s: Sys, max: Option<nat>, es: seq<Event>, c: real)
    requires Known(s) && Legal(s, max, es) && Paced(s, max, es, c) && 2.0 * c <= LEASE_SECONDS
    ensures Prompt(s, max, es)
    decreases |es|
  {
    hide Known, Apply, Enabled;
    forall i | 0 <= i < |s.syncs| && Holding(s.syncs[i].phase)
      ensures s.now - s.syncs[i].phase.at <= LEASE_SECONDS
    {
      assert Pace(s.syncs[i].phase, s.now, c);
    }
    if es != [] {
      StepKnown(s, max, es[0]);
      PacedIsPrompt(Apply(s, max, es[0]), max, es[1..], c);
    }
  }

  lemma {:induction false} NoFailureFinishes(s: Sys, max: Option<nat>, es: seq<Event>)
    requires Known(s) && Legal(s, max, es) && NoFailure(es)
    ensures Finishing(s, max, es)
    decreases |es|
  {
    hide Known, Apply, Enabled;
    if es != [] {
      StepKnown(s, max, es[0]);
      assert !es[0].SyncFail?;
      NoFailureFinishes(Apply(s, max, es[0]), max, es[1..]);
    }
  }

  /** One more step at the end of a history. */
  lemma {:induction false} Then(s: Sys, max: Option<nat>, es: seq<Event>, e: Event)
    requires Known(s) && Legal(s, max, es) && Enabled(Play(s, max, es), max, e)
    ensures Known(Play(s, max, es)) && Legal(s, max, es + [e]) && Known(Apply(Play(s, max, es), max, e))
    ensures Play(s, max, es + [e]) == Apply(Play(s, max, es), max, e)
    ensures Prompt(s, max, es + [e]) <==> Prompt(s, max, es) && Timely(Apply(Play(s, max, es), max, e))
    ensures Finishing(s, max, es + [e]) <==> Finishing(s, max, es) && !LosesFinish(Play(s, max, es), e)
    ensures forall c :: Paced(s, max, es + [e], c) <==>
      var t := Apply(Play(s, max, es), max, e); Paced(s, max, es, c) && OnPace(t.syncs, t.now, c)
    decreases |es|
  {
    hide Known, Timely, LosesFinish, Apply, Enabled;
    PlayKnown(s, max, es);
    StepKnown(Play(s, max, es), max, e);
    if es == [] {
      assert ([] + [e])[1..] == [];
      assert Prompt(s, max, [e]) <==> Timely(s) && Prompt(Apply(s, max, e), max, []);
    } else {
      StepKnown(s, max, es[0]);
      assert (es + [e])[1..] == es[1..] + [e];
      Then(Apply(s, max, es[0]), max, es[1..], e);
    }
  }

  /** What one run's history is about: its record, the syncs, the clock and its comments. */
  datatype View = View(run: Run, syncs: seq<Sync>, now: real, comments: nat)

  ghost predicate Shows(s: Sys, r: RunId, v: View) {
    Known(s) && r in s.runs && s.runs[r] == v.run && s.syncs == v.syncs && s.now == v.now && s.comments[r] == v.comments
  }

  /** Whether every sync kept its lease, how long a call may last, and whether nothing fails. */
  datatype Care = Care(prompt: bool, pace: Option<real>, smooth: bool)

  /** `es` leads to a state that shows `v`, with that care taken on the way. */
  ghost predicate After(s: Sys, es: seq<Event>, r: RunId, v: View, care: Care)
    requires Known(s)
  {
    && Legal(s, None, es) && Shows(Play(s, None, es), r, v)
    && (care.prompt ==> Prompt(s, None, es)) && (care.smooth ==> NoFailure(es))
    && (care.pace.Some? ==> Paced(s, None, es, care.pace.value))
  }

  /** The care that the step to `v` still takes. */
  predicate Careful(care: Care, v: View, e: Event) {
    && (care.prompt ==> OnTime(v.syncs, v.now)) && (care.smooth ==> !e.SyncFail?)
    && (care.pace.Some? ==> OnPace(v.syncs, v.now, care.pace.value))
  }

  /** The view after one step that concerns `r` alone. */
  function Look(v: View, r: RunId, e: Event): Option<View> {
    match e
    case Tick(dt) => if dt > 0.0 then Some(v.(now := v.now + dt)) else None
    case Resync(id) =>
      if id == r && v.run.parent.None? && v.run.status.Done? &&
        !v.run.synced then Some(v.(syncs := v.syncs + [Sync(r, Want)]))
      else None
    case SyncClaim(i) =>
      if i < |v.syncs| && v.syncs[i] == Sync(r, Want) && !v.run.synced && Stale(v.run, v.now) then
        Some(v.(run := v.run.(claimedAt := Some(v.now)), syncs := v.syncs[i := Sync(r, Claimed(v.now))]))
      else None
    case SyncLabel(i) =>
      if i < |v.syncs| && v.syncs[i].run == r && v.syncs[i].phase.Claimed? then
        Some(v.(syncs := v.syncs[i := Sync(r, Swapped(v.syncs[i].phase.at, v.now))]))
      else None
    case SyncComment(i) =>
      if i < |v.syncs| && v.syncs[i].run == r && v.syncs[i].phase.Swapped? then
        var p := v.syncs[i].phase;
        Some(v.(syncs := v.syncs[i := Sync(r, Commented(p.at, p.labelled))], comments := v.comments + 1))
      else None
    case SyncFail(i) =>
      if i < |v.syncs| && v.syncs[i].run == r && Holding(v.syncs[i].phase) then
        Some(v.(syncs := v.syncs[i := Sync(r, Gone)]))
      else None
    case _ => None
  }

  lemma LookShows(s: Sys, r: RunId, v: View, e: Event)
    requires Shows(s, r, v) && Look(v, r, e).Some?
    ensures Enabled(s, None, e) && Shows(Apply(s, None, e), r, Look(v, r, e).value)
  {
    StepKnown(s, None, e);
  }

  lemma LookAfter(s: Sys, es: seq<Event>, r: RunId, v: View, care: Care, e: Event)
    requires Known(s) && After(s, es, r, v, care) && Look(v, r, e).Some?
    requires Careful(care, Look(v, r, e).value, e)
    ensures After(s, es + [e], r, Look(v, r, e).value, care)
  {
    hide Known, Legal, Play, Prompt, Finishing, Paced, Look, Enabled, Apply;
    LookShows(Play(s, None, es), r, v, e);
    Then(s, None, es, e);
  }

  /** A failed run whose first sync is about to start. */
  lemma AfterFailure(labels: map<IssueId, set<Label>>, r: RunId, issue: IssueId, care: Care)
    returns (es: seq<Event>, v: View)
    requires issue in labels && Ready in labels[issue]
    ensures v == View(Run(issue, None, Done(Failed), false, None), [Sync(r, Want)], 0.0, 0)
    ensures After(Start(labels), es, r, v, care)
  {
    var (s, e0, e1) := (Start(labels), Claim(r, issue), Complete(r, Failed));
    v := View(Run(issue, None, Done(Failed), false, None), [Sync(r, Want)], 0.0, 0);
    hide Legal, Play, Prompt, Finishing, Paced;
    EmptyHistory(s);
    Then(s, None, [], e0);
    Then(s, None, [] + [e0], e1);
    es := [] + [e0] + [e1];
  }

  lemma EmptyHistory(s: Sys)
    requires Known(s)
    ensures Legal(s, None, []) && Play(s, None, []) == s && Finishing(s, None, [])
    ensures Prompt(s, None, []) <==> Timely(s)
    ensures forall c :: Paced(s, None, [], c) <==> OnPace(s.syncs, s.now, c)
  {
  }

  /** If two calls together can outlive the lease, then with nothing failing and no call over `c` a resync takes
      a second lease while the first sync is about to comment, and both comment. */
  lemma OverrunCommentsTwice(labels: map<IssueId, set<Label>>, r: RunId, issue: IssueId, c: real)
    returns (es: seq<Event>)
    requires issue in labels && Ready in labels[issue] && 2.0 * c > LEASE_SECONDS
    ensures Legal(Start(labels), None, es) && NoFailure(es) && Paced(Start(labels), None, es, c)
    ensures r in Play(Start(labels), None, es).comments && Play(Start(labels), None, es).comments[r] == 2
  {
    hide After;
    var (s, care) := (Start(labels), Care(false, Some(c), true));
    var v;
    es, v := AfterFailure(labels, r, issue, care);
    es, v := Next(s, es, r, v, care, SyncClaim(0));
    es, v := Next(s, es, r, v, care, Tick(c));
    es, v := Next(s, es, r, v, care, SyncLabel(0));
    es, v := Next(s, es, r, v, care, Tick(c));
    es, v := Next(s, es, r, v, care, Resync(r));
    es, v := Next(s, es, r, v, care, SyncClaim(1));
    es, v := Next(s, es, r, v, care, SyncComment(0));
    es, v := Next(s, es, r, v, care, SyncLabel(1));
    es, v := Next(s, es, r, v, care, SyncComment(1));
    Shown(s, es, r, v, care);
  }

  /** Every history in which no call lasts longer than `c` and no final write is lost leaves every run at most
      one comment. */
  ghost predicate OneCommentAt(labels: map<IssueId, set<Label>>, c: real) {
    forall max, es, r :: PacedHistory(labels, max, es, c) && r in Play(Start(labels), max, es).comments ==>
      Play(Start(labels), max, es).comments[r] <= 1
  }

  ghost predicate PacedHistory(labels: map<IssueId, set<Label>>, max: Option<nat>, es: seq<Event>, c: real) {
    && Legal(Start(labels), max, es) && Paced(Start(labels), max, es, c) && Finishing(Start(labels), max, es)
  }

  /** The bound on one call that the lease needs: half of it. */
  lemma CallBoundExactly(labels: map<IssueId, set<Label>>, issue: IssueId, c: real)
    requires issue in labels && Ready in labels[issue]
    ensures OneCommentAt(labels, c) <==> 2.0 * c <= LEASE_SECONDS
  {
    hide Legal, Paced, Finishing, Prompt, Play, NoFailure;
    if 2.0 * c <= LEASE_SECONDS {
      forall max, es, r | PacedHistory(labels, max, es, c) && r in Play(Start(labels), max, es).comments
        ensures Play(Start(labels), max, es).comments[r] <= 1
      {
        PacedIsPrompt(Start(labels), max, es, c);
        PlayKnown(Start(labels), max, es);
        AtMostOneComment(labels, max, es, r);
      }
    } else {
      var es := OverrunCommentsTwice(labels, RunId(0), issue, c);
      NoFailureFinishes(Start(labels), None, es);
      assert PacedHistory(labels, None, es, c);
    }
  }

  /** The program's own timeout of a call is over that bound. */
  lemma CallTimeoutTooLong(labels: map<IssueId, set<Label>>, issue: IssueId)
    requires issue in labels && Ready in labels[issue]
    ensures !OneCommentAt(labels, CALL_SECONDS)
  {
    hide OneCommentAt;
    CallBoundExactly(labels, issue, CALL_SECONDS);
  }

  /** Every sync is prompt, but the first dies between its comment and its final write. */
  lemma LostFinishCommentsTwice(labels: map<IssueId, set<Label>>, r: RunId, issue: IssueId) returns (es: seq<Event>)
    requires issue in labels && Ready in labels[issue]
    ensures Legal(Start(labels), None, es) && Prompt(Start(labels), None, es)
    ensures r in Play(Start(labels), None, es).comments && Play(Start(labels), None, es).comments[r] == 2
  {
    hide After;
    var (s, care) := (Start(labels), Care(true, None, false));
    var v;
    es, v := AfterFailure(labels, r, issue, care);
    es, v := Next(s, es, r, v, care, SyncClaim(0));
    es, v := Next(s, es, r, v, care, SyncLabel(0));
    es, v := Next(s, es, r, v, care, SyncComment(0));
    es, v := Next(s, es, r, v, care, SyncFail(0));
    es, v := Next(s, es, r, v, care, Tick(31.0));
    es, v := Next(s, es, r, v, care, Resync(r));
    es, v := Next(s, es, r, v, care, SyncClaim(1));
    es, v := Next(s, es, r, v, care, SyncLabel(1));
    es, v := Next(s, es, r, v, care, SyncComment(1));
    Shown(s, es, r, v, care);
  }

  lemma Next(s: Sys, es: seq<Event>, r: RunId, v: View, care: Care, e: Event) returns (fs: seq<Event>, w: View)
    requires Known(s) && After(s, es, r, v, care) && Look(v, r, e).Some?
    requires Careful(care, Look(v, r, e).value, e)
    ensures Some(w) == Look(v, r, e) && After(s, fs, r, w, care)
  {
    hide After, Look;
    LookAfter(s, es, r, v, care, e);
    fs, w := es + [e], Look(v, r, e).value;
  }

  lemma Shown(s: Sys, es: seq<Event>, r: RunId, v: View, care: Care)
    requires Known(s) && After(s, es, r, v, care)
    ensures Legal(s, None, es) && r in Play(s, None, es).comments && Play(s, None, es).comments[r] == v.comments
    ensures care.prompt ==> Prompt(s, None, es)
    ensures care.smooth ==> NoFailure(es)
    ensures care.pace.Some? ==> Paced(s, None, es, care.pace.value)
  {
  }
}
