/** The Evidence Gate told from the run's record, the worker's report and the commit graph: which scope is approved,
    which complaint decides, and when the gate accepts. */
module EvidenceTerms {
  import opened Prelude
  import opened RepoPath
  import opened CommitGraph
  import opened EvidenceGate

  // ---- The commit a report names ----

  function LowerHex(c: char): char {
    if 'A' <= c <= 'F' then c + 32 as char else c
  }

  /** `text` without white space at its ends is forty hex digits, and `s` is the same in lower case. */
  ghost predicate Reads(text: string, s: Sha) {
    exists from, cut :: Cut(text, from, cut) && |cut| == 40 && |s.hex| == 40 &&
      forall i :: 0 <= i < 40 ==> s.hex[i] == LowerHex(cut[i]) && ('0' <= s.hex[i] <= '9' || 'a' <= s.hex[i] <= 'f')
  }

  lemma {:induction false} LowerAt(s: string)
    ensures |Lower(s)| == |s|
    ensures forall i :: 0 <= i < |s| ==> Lower(s)[i] == if 'A' <= s[i] <= 'Z' then s[i] + 32 as char else s[i]
  {
    if s != [] { LowerAt(s[1..]); }
  }

  /** Cutting white space has one result. */
  lemma CutOnce(text: string, i: nat, a: string, j: nat, b: string)
    requires Cut(text, i, a) && Cut(text, j, b)
    ensures a == b
  {
    assert a != "" ==> text[i] == a[0] && text[i + |a| - 1] == a[|a| - 1];
    assert b != "" ==> text[j] == b[0] && text[j + |b| - 1] == b[|b| - 1];
    if a != "" && b != "" {
      assert i == j && |a| == |b|;
    }
  }

  /** A name parses exactly if it is forty hex digits, whatever the case and the white space around it. */
  lemma ParseShaExactly(text: string, s: Sha)
    ensures ParseSha(text) == Some(s) <==> Reads(text, s)
  {
    var cut := Strip(text);
    var from := StripCuts(text);
    LowerAt(cut);
    hide Strip, Lower, Cut;
    if ParseSha(text) == Some(s) {
      assert forall i :: 0 <= i < 40 ==> s.hex[i] in s.hex;
    }
    if Reads(text, s) {
      var i, c :| Cut(text, i, c) && |c| == 40 && |s.hex| == 40 &&
        forall k :: 0 <= k < 40 ==>
          s.hex[k] == LowerHex(c[k]) && ('0' <= s.hex[k] <= '9' || 'a' <= s.hex[k] <= 'f');
      CutOnce(text, from, cut, i, c);
      assert Lower(cut) == s.hex;
    }
  }

  /** The report's `commit` if it is not empty, otherwise its `commit_sha`. */
  ghost predicate Names(env: Envelope, s: Sha) {
    var text := if env.commit in {None, Some("")} then env.commitSha else env.commit;
    text.Some? && Reads(text.value, s)
  }

  lemma PresentedExactly(env: Envelope, s: Sha)
    ensures Presented(env) == Some(s) <==> Names(env, s)
  {
    hide ParseSha, Reads;
    var text := if env.commit in {None, Some("")} then env.commitSha else env.commit;
    if text.Some? { ParseShaExactly(text.value, s); }
  }

  // ---- The approved scope ----

  /** The scope a record offers, usable or not: explicit paths win over prose. */
  ghost predicate Offers(run: RunRecord, paths: seq<string>) {
    if run.artifactPaths != [] then paths == run.artifactPaths
    else run.policy.Some? && !run.policy.value.blank && paths == run.policy.value.named
  }

  /** The offered scope counts if it names at least one path and only usable ones. */
  ghost predicate Approves(run: RunRecord, paths: seq<string>) {
    Offers(run, paths) && paths != [] && forall p <- paths :: Normalize(p).Some?
  }

  lemma PermittedExactly(run: RunRecord, paths: seq<string>)
    ensures Permitted(run) == Yes(paths) <==> Approves(run, paths)
    ensures Permitted(run) == No(PolicyMissing) <==>
      run.artifactPaths == [] && (run.policy.None? || run.policy.value.blank)
    ensures Permitted(run) == No(PolicyUnparsable) <==> Offers(run, [])
    ensures Permitted(run) == No(PolicyUnsafePath) <==>
      exists offered :: Offers(run, offered) && exists p <- offered :: Normalize(p).None?
  {
    hide Normalize;
    if Permitted(run) == No(PolicyUnsafePath) {
      var offered := if run.artifactPaths != [] then run.artifactPaths else run.policy.value.named;
      assert Offers(run, offered);
    }
  }

  lemma ApprovesOnce(run: RunRecord, a: seq<string>, b: seq<string>)
    requires Approves(run, a) && Approves(run, b)
    ensures a == b
  {
  }

  // ---- Complaints ----

  /** What can be wrong with one commit. */
  ghost predicate Flaw(r: Repo, s: Sha, since: int, run: RunRecord, code: Code)
    requires WellFormed(r)
  {
    s in r.commits && var c := r.commits[s];
    match code
    case TimeUnreadable => c.time.None?
    case PredatesRun => c.time.Some? && c.time.value <= since
    case MessageUnreadable => c.signedOff.None?
    case SignOffMissing => c.signedOff == Some(false)
    case FilesUnreadable => !c.listable
    case NoFilesChanged => Files(r, s) == {}
    case PathUnsafe => exists f <- Files(r, s) :: Normalize(f).None?
    case PolicyViolation => exists f <- Files(r, s), paths :: Approves(run, paths) && !Within(f, paths)
    case _ => false
  }

  ghost predicate Flawless(r: Repo, s: Sha, since: int, run: RunRecord)
    requires WellFormed(r)
  {
    forall code :: !Flaw(r, s, since, run, code)
  }

  /** The place of a complaint in the documented order. */
  function Rank(code: Code): nat {
    match code
    case ContainmentViolation => 0
    case RunMismatch => 1
    case IssueMismatch => 2
    case RequestNotRecorded => 3
    case RequestMismatch => 4
    case CommitMissing => 5
    case IsolationNotRecorded => 6
    case CommitNotFound => 7
    case CommitNotOnBranch => 8
    case TimeUnreadable => 9
    case PredatesRun => 10
    case MessageUnreadable => 11
    case SignOffMissing => 12
    case FilesUnreadable => 13
    case NoFilesChanged => 14
    case PolicyMissing => 15
    case PolicyUnparsable => 16
    case PolicyUnsafePath => 17
    case PathUnsafe => 18
    case PolicyViolation => 19
    case BaseNotRecorded => 20
    case BaseNotFound => 21
    case BranchNotFromBase => 22
    case RangeUnreadable => 23
    case NoContributedCommits => 24
    case NotContributed => 25
    case Contributed(_) => 26
  }

  ghost predicate FirstFlaw(r: Repo, s: Sha, since: int, run: RunRecord, code: Code)
    requires WellFormed(r)
  {
    Flaw(r, s, since, run, code) && forall d :: Rank(d) < Rank(code) ==> !Flaw(r, s, since, run, d)
  }

  /** Of the listed commits other than `s`, the first that has a flaw has this one first. */
  ghost predicate OtherFlaw(r: Repo, listing: seq<Sha>, s: Sha, since: int, run: RunRecord, code: Code)
    requires WellFormed(r)
  {
    exists i :: 0 <= i < |listing| && listing[i] != s && FirstFlaw(r, listing[i], since, run, code) &&
      forall j :: 0 <= j < i ==> listing[j] == s || Flawless(r, listing[j], since, run)
  }

  ghost predicate Reaches(r: Repo, branch: Option<string>, s: Sha)
    requires WellFormed(r)
  {
    branch.Some? && branch.value in r.branches && s in Ancestors(r, r.branches[branch.value])
  }

  ghost predicate BaseIs(run: RunRecord, s: Sha) {
    run.baseCommit.Some? && Reads(run.baseCommit.value, s)
  }

  /** What can be wrong with a run's record, its report and its branch. */
  ghost predicate Complaint(g: Git, run: RunRecord, env: Envelope, code: Code)
    requires WellFormed(g.repo)
  {
    match code
    case ContainmentViolation => run.containment in {Some(CheckoutDirty), Some(SnapshotMissing), Some(ScanError)}
    case RunMismatch => env.runId != Some(run.runId)
    case IssueMismatch => env.issueId != Some(run.issueId)
    case RequestNotRecorded => run.requestId == None
    case RequestMismatch => env.requestId != run.requestId
    case CommitMissing => forall s :: !Names(env, s)
    case IsolationNotRecorded => !run.isolated || run.branch in {None, Some("")}
    case CommitNotFound => exists s :: Names(env, s) && s !in g.repo.commits
    case CommitNotOnBranch => exists s :: Names(env, s) && !Reaches(g.repo, run.branch, s)
    case PolicyMissing => run.artifactPaths == [] && (run.policy.None? || run.policy.value.blank)
    case PolicyUnparsable => Offers(run, [])
    case PolicyUnsafePath => exists offered :: Offers(run, offered) && exists p <- offered :: Normalize(p).None?
    case BaseNotRecorded => forall s :: !BaseIs(run, s)
    case BaseNotFound => exists s :: BaseIs(run, s) && s !in g.repo.commits
    case BranchNotFromBase => exists s :: BaseIs(run, s) && !Reaches(g.repo, run.branch, s)
    case RangeUnreadable => g.listing.None?
    case NoContributedCommits => g.listing == Some([])
    case NotContributed => exists s :: Names(env, s) && g.listing.Some? && s !in g.listing.value
    case Contributed(inner) =>
      exists s :: Names(env, s) && g.listing.Some? &&
        OtherFlaw(g.repo, g.listing.value, s, run.claimedSecond, run, inner)
    case _ => exists s :: Names(env, s) && Flaw(g.repo, s, run.claimedSecond, run, code)
  }

  // ---- One commit ----

  /** `found` is the first flaw of rank `lo` up to `hi`, if there is one. */
  ghost predicate FlawFrom(r: Repo, s: Sha, since: int, run: RunRecord, lo: nat, hi: nat, found: Option<Code>)
    requires WellFormed(r)
  {
    && (found.Some? ==> lo <= Rank(found.value) < hi && Flaw(r, s, since, run, found.value))
    && forall d :: lo <= Rank(d) < (if found.Some? then Rank(found.value) else hi) ==> !Flaw(r, s, since, run, d)
  }

  lemma BasicsFlaws(r: Repo, s: Sha, since: int, run: RunRecord)
    requires WellFormed(r) && s in r.commits
    ensures FlawFrom(r, s, since, run, 0, 18, Basics(r, s, since))
  {
    hide Files, Normalize, Approves, Within;
  }

  lemma FlawCodes(r: Repo, s: Sha, since: int, run: RunRecord)
    requires WellFormed(r)
    ensures forall d :: Rank(d) >= 20 ==> !Flaw(r, s, since, run, d)
  {
    hide Files, Normalize, Approves, Within;
  }

  lemma FlawExactly(r: Repo, s: Sha, since: int, run: RunRecord, paths: seq<string>)
    requires WellFormed(r) && s in r.commits && Approves(run, paths)
    ensures var b := Basics(r, s, since);
      var c := if b.Some? then b else Scope(Files(r, s), paths);
      (c.Some? ==> FirstFlaw(r, s, since, run, c.value)) && (c.None? ==> Flawless(r, s, since, run))
  {
    BasicsFlaws(r, s, since, run);
    ScopeFlaws(r, s, since, run, paths);
    FlawCodes(r, s, since, run);
    hide Flaw, Basics, Scope, Files, Approves, Rank;
  }

  lemma ScopeFlaws(r: Repo, s: Sha, since: int, run: RunRecord, paths: seq<string>)
    requires WellFormed(r) && s in r.commits && Approves(run, paths)
    ensures FlawFrom(r, s, since, run, 18, 20, Scope(Files(r, s), paths))
  {
    hide Files, Normalize, Approves;
    forall other | Approves(run, other)
      ensures other == paths
    {
      ApprovesOnce(run, other, paths);
    }
    forall f | Within(f, paths)
      ensures Normalize(f).Some?
    {
      var i :| 0 <= i < |paths| && Inside(f, paths[i]);
    }
    hide Within;
  }

  lemma {:induction false} OthersExactly(r: Repo, listing: seq<Sha>, s: Sha, since: int, run: RunRecord,
                                         paths: seq<string>)
    requires WellFormed(r) && (forall x <- listing :: x in r.commits) && Approves(run, paths)
    ensures var o := ScanOthers(r, listing, s, since, paths);
      && (o.Some? ==> o.value.Contributed? && OtherFlaw(r, listing, s, since, run, o.value.inner))
      && (o.None? ==> forall x <- listing :: x == s || Flawless(r, x, since, run))
  {
    hide FirstFlaw, Flawless, Flaw, Basics, Scope, Files, Approves;
    if listing != [] {
      FlawExactly(r, listing[0], since, run, paths);
      OthersExactly(r, listing[1..], s, since, run, paths);
      assert forall x :: x in listing <==> x == listing[0] || x in listing[1..];
      var rest := ScanOthers(r, listing[1..], s, since, paths);
      if rest.Some? && (listing[0] == s || Flawless(r, listing[0], since, run)) {
        var i :| 0 <= i < |listing[1..]| && listing[1..][i] != s &&
          FirstFlaw(r, listing[1..][i], since, run, rest.value.inner) &&
          forall j :: 0 <= j < i ==> listing[1..][j] == s || Flawless(r, listing[1..][j], since, run);
        assert listing[i + 1] == listing[1..][i];
        assert forall j :: 0 < j < i + 1 ==> listing[j] == listing[1..][j - 1];
      }
    }
  }

  // ---- The verdict ----

  /** The gate's own readings of a record and a report, told from the raw texts. */
  lemma Readings(g: Git, run: RunRecord, env: Envelope)
    requires Faithful(g, run)
    ensures forall s :: Presented(env) == Some(s) <==> Names(env, s)
    ensures forall s :: BaseIs(run, s) <==>
      run.baseCommit.Some? && ParseSha(run.baseCommit.value).Some? && Base(run) == s
    ensures forall s :: Reaches(g.repo, run.branch, s) <==> run.branch.Some? && OnBranch(g.repo, run.branch.value, s)
  {
    hide Names, ParseSha, Presented, Reads, Ancestors;
    forall s
      ensures Presented(env) == Some(s) <==> Names(env, s)
    {
      PresentedExactly(env, s);
    }
    forall s
      ensures BaseIs(run, s) <==> run.baseCommit.Some? && ParseSha(run.baseCommit.value).Some? && Base(run) == s
    {
      if run.baseCommit.Some? { ParseShaExactly(run.baseCommit.value, s); }
    }
  }

  /** `found` is the first complaint of rank `lo` up to `hi`, if there is one. */
  ghost predicate Stage(g: Git, run: RunRecord, env: Envelope, lo: nat, hi: nat, found: Option<Code>)
    requires WellFormed(g.repo)
  {
    && (found.Some? ==> lo <= Rank(found.value) < hi && Complaint(g, run, env, found.value))
    && forall d :: lo <= Rank(d) < (if found.Some? then Rank(found.value) else hi) ==> !Complaint(g, run, env, d)
  }

  function When(wrong: bool, code: Code): Option<Code> {
    if wrong then Some(code) else None
  }

  lemma RankOnce()
    ensures forall c, d :: Rank(c) == Rank(d) && !c.Contributed? ==> c == d
    ensures forall d :: (Rank(d) == 26 <==> d.Contributed?) && Rank(d) <= 26
  {
  }

  lemma Ranks()
    ensures Rank(ContainmentViolation) == 0 && Rank(RunMismatch) == 1 && Rank(IssueMismatch) == 2
    ensures Rank(RequestNotRecorded) == 3 && Rank(RequestMismatch) == 4 && Rank(CommitMissing) == 5
    ensures Rank(IsolationNotRecorded) == 6 && Rank(CommitNotFound) == 7 && Rank(CommitNotOnBranch) == 8
    ensures Rank(PolicyMissing) == 15 && Rank(PolicyUnparsable) == 16 && Rank(PolicyUnsafePath) == 17
  {
  }

  lemma LateRanks()
    ensures Rank(BaseNotRecorded) == 20 && Rank(BaseNotFound) == 21 && Rank(BranchNotFromBase) == 22
    ensures Rank(RangeUnreadable) == 23 && Rank(NoContributedCommits) == 24 && Rank(NotContributed) == 25
  {
  }

  lemma OneStage(g: Git, run: RunRecord, env: Envelope, wrong: bool, code: Code)
    requires WellFormed(g.repo) && !code.Contributed? && (Complaint(g, run, env, code) <==> wrong)
    ensures Stage(g, run, env, Rank(code), Rank(code) + 1, When(wrong, code))
  {
    RankOnce();
    hide Complaint, Rank;
  }

  lemma Joined(g: Git, run: RunRecord, env: Envelope, lo: nat, mid: nat, hi: nat, a: Option<Code>, b: Option<Code>)
    requires WellFormed(g.repo) && lo <= mid <= hi && Stage(g, run, env, lo, mid, a)
    requires a.None? ==> Stage(g, run, env, mid, hi, b)
    ensures Stage(g, run, env, lo, hi, if a.Some? then a else b)
  {
    hide Complaint, Rank;
  }

  lemma IdentityComplaints(g: Git, run: RunRecord, env: Envelope)
    requires WellFormed(g.repo)
    ensures Complaint(g, run, env, RunMismatch) <==> env.runId != Some(run.runId)
    ensures Complaint(g, run, env, IssueMismatch) <==> env.issueId != Some(run.issueId)
    ensures Complaint(g, run, env, RequestNotRecorded) <==> run.requestId == None
    ensures Complaint(g, run, env, RequestMismatch) <==> env.requestId != run.requestId
  {
  }

  lemma IdentityStage(g: Git, run: RunRecord, env: Envelope)
    requires WellFormed(g.repo)
    ensures Stage(g, run, env, 1, 5, Identity(run, env))
  {
    IdentityComplaints(g, run, env);
    Ranks();
    hide Complaint, Rank;
    OneStage(g, run, env, env.runId != Some(run.runId), RunMismatch);
    OneStage(g, run, env, env.issueId != Some(run.issueId), IssueMismatch);
    OneStage(g, run, env, run.requestId == None, RequestNotRecorded);
    OneStage(g, run, env, env.requestId != run.requestId, RequestMismatch);
  }

  predicate Uncontained(run: RunRecord) {
    !Contained(run)
  }

  predicate Unplaced(run: RunRecord) {
    !run.isolated || run.branch in {None, Some("")}
  }

  predicate Unknown(g: Git, c: Sha) {
    c !in g.repo.commits
  }

  predicate Astray(g: Git, branch: string, c: Sha)
    requires WellFormed(g.repo)
  {
    !OnBranch(g.repo, branch, c)
  }

  /** Complaints about the record and the report, in terms of the gate's readings. */
  lemma ReportComplaints(g: Git, run: RunRecord, env: Envelope)
    requires Faithful(g, run)
    ensures Complaint(g, run, env, ContainmentViolation) <==> Uncontained(run)
    ensures Complaint(g, run, env, CommitMissing) <==> Presented(env).None?
    ensures Complaint(g, run, env, IsolationNotRecorded) <==> Unplaced(run)
    ensures Presented(env).Some? ==>
      (Complaint(g, run, env, CommitNotFound) <==> Unknown(g, Presented(env).value))
  {
    Readings(g, run, env);
    hide Names, Reaches, OnBranch, Presented, Flaw, OtherFlaw, Offers, BaseIs, Normalize;
    assert Presented(env).Some? ==> Names(env, Presented(env).value);
  }

  lemma BranchComplaint(g: Git, run: RunRecord, env: Envelope)
    requires Faithful(g, run) && Presented(env).Some? && run.branch.Some?
    ensures Complaint(g, run, env, CommitNotOnBranch) <==> Astray(g, run.branch.value, Presented(env).value)
  {
    Readings(g, run, env);
    hide Names, Reaches, OnBranch, Presented, Flaw, OtherFlaw, Offers, BaseIs, Normalize;
    assert Names(env, Presented(env).value);
  }

  lemma ReportStages(g: Git, run: RunRecord, env: Envelope)
    requires Faithful(g, run)
    ensures Stage(g, run, env, 0, 1, When(Uncontained(run), ContainmentViolation))
    ensures Stage(g, run, env, 5, 6, When(Presented(env).None?, CommitMissing))
    ensures Stage(g, run, env, 6, 7, When(Unplaced(run), IsolationNotRecorded))
    ensures Presented(env).Some? ==> var c := Presented(env).value;
      && Stage(g, run, env, 7, 8, When(Unknown(g, c), CommitNotFound))
      && (run.branch.Some? ==>
            Stage(g, run, env, 8, 9, When(Astray(g, run.branch.value, c), CommitNotOnBranch)))
  {
    hide Complaint, OnBranch, Presented, Stage, Contained, When, Rank, Ancestors;
    ReportComplaints(g, run, env);
    Ranks();
    OneStage(g, run, env, Uncontained(run), ContainmentViolation);
    OneStage(g, run, env, Presented(env).None?, CommitMissing);
    OneStage(g, run, env, Unplaced(run), IsolationNotRecorded);
    if Presented(env).Some? {
      OneStage(g, run, env, Unknown(g, Presented(env).value), CommitNotFound);
      if run.branch.Some? {
        BranchComplaint(g, run, env);
        OneStage(g, run, env, Astray(g, run.branch.value, Presented(env).value), CommitNotOnBranch);
      }
    }
  }

  lemma CommitStage(g: Git, run: RunRecord, env: Envelope)
    requires Faithful(g, run) && Presented(env).Some? && Presented(env).value in g.repo.commits
    ensures Stage(g, run, env, 9, 15, Basics(g.repo, Presented(env).value, run.claimedSecond))
    ensures Permitted(run).Yes? ==>
      Stage(g, run, env, 18, 20, Scope(Files(g.repo, Presented(env).value), Permitted(run).paths))
  {
    var c := Presented(env).value;
    Readings(g, run, env);
    BasicsFlaws(g.repo, c, run.claimedSecond, run);
    if Permitted(run).Yes? {
      PermittedExactly(run, Permitted(run).paths);
      ScopeFlaws(g.repo, c, run.claimedSecond, run, Permitted(run).paths);
    }
    forall d | 9 <= Rank(d) < 15 || 18 <= Rank(d) < 20
      ensures Complaint(g, run, env, d) <==> Flaw(g.repo, c, run.claimedSecond, run, d)
    {
      FlawComplaint(g, run, env, c, d);
    }
    hide Complaint, Flaw, Basics, Scope, Files, Permitted, Presented, Names, Rank;
  }

  lemma FlawComplaint(g: Git, run: RunRecord, env: Envelope, c: Sha, d: Code)
    requires Faithful(g, run) && (9 <= Rank(d) < 15 || 18 <= Rank(d) < 20) && forall s :: Names(env, s) <==> s == c
    ensures Complaint(g, run, env, d) <==> Flaw(g.repo, c, run.claimedSecond, run, d)
  {
    hide Names, Flaw, OtherFlaw, Offers, BaseIs, Reaches, Normalize;
  }

  lemma ScopeComplaints(g: Git, run: RunRecord, env: Envelope)
    requires WellFormed(g.repo)
    ensures Complaint(g, run, env, PolicyMissing) <==> Permitted(run) == No(PolicyMissing)
    ensures Complaint(g, run, env, PolicyUnparsable) <==> Permitted(run) == No(PolicyUnparsable)
    ensures Complaint(g, run, env, PolicyUnsafePath) <==> Permitted(run) == No(PolicyUnsafePath)
  {
    hide Names, Flaw, OtherFlaw, BaseIs, Reaches, Normalize, Permitted, Offers, WellFormed, Approves;
    PermittedExactly(run, []);
  }

  lemma ThreeStages(g: Git, run: RunRecord, env: Envelope, missing: bool, unparsable: bool, unsafe: bool)
    requires WellFormed(g.repo)
    requires Stage(g, run, env, 15, 16, When(missing, PolicyMissing))
    requires Stage(g, run, env, 16, 17, When(unparsable, PolicyUnparsable))
    requires Stage(g, run, env, 17, 18, When(unsafe, PolicyUnsafePath))
    ensures Stage(g, run, env, 15, 18,
                  if missing then Some(PolicyMissing) else if unparsable then Some(PolicyUnparsable)
                  else When(unsafe, PolicyUnsafePath))
  {
    hide Complaint, Rank, WellFormed;
    Ranks();
  }

  lemma ScopeStage(g: Git, run: RunRecord, env: Envelope)
    requires WellFormed(g.repo)
    ensures Stage(g, run, env, 15, 18, if Permitted(run).No? then Some(Permitted(run).code) else None)
  {
    hide Complaint, Normalize, Rank, Stage;
    ScopeComplaints(g, run, env);
    Ranks();
    var (missing, unparsable, unsafe) := (Permitted(run) == No(PolicyMissing), Permitted(run) == No(PolicyUnparsable),
                                          Permitted(run) == No(PolicyUnsafePath));
    OneStage(g, run, env, missing, PolicyMissing);
    OneStage(g, run, env, unparsable, PolicyUnparsable);
    OneStage(g, run, env, unsafe, PolicyUnsafePath);
    assert Permitted(run).No? ==> missing || unparsable || unsafe;
    ThreeStages(g, run, env, missing, unparsable, unsafe);
  }

  predicate Based(run: RunRecord) {
    run.baseCommit.Some? && ParseSha(run.baseCommit.value).Some?
  }

  lemma BaseComplaint(g: Git, run: RunRecord, env: Envelope)
    requires Faithful(g, run)
    ensures Complaint(g, run, env, BaseNotRecorded) <==> !Based(run)
  {
    hide Names, Flaw, OtherFlaw, BaseIs, Reaches, Normalize, OnBranch, ParseSha, Presented, Offers, Base, WellFormed;
    Readings(g, run, env);
    if Based(run) { assert BaseIs(run, Base(run)); }
  }

  lemma BaseComplaints(g: Git, run: RunRecord, env: Envelope)
    requires Faithful(g, run) && Based(run)
    ensures Complaint(g, run, env, BaseNotFound) <==> Unknown(g, Base(run))
    ensures run.branch.Some? ==>
      (Complaint(g, run, env, BranchNotFromBase) <==> Astray(g, run.branch.value, Base(run)))
  {
    hide Names, Flaw, OtherFlaw, BaseIs, Reaches, Normalize, OnBranch, ParseSha, Presented, Offers, Base, WellFormed;
    Readings(g, run, env);
    assert BaseIs(run, Base(run));
  }

  lemma RangeComplaints(g: Git, run: RunRecord, env: Envelope)
    requires WellFormed(g.repo)
    ensures Complaint(g, run, env, RangeUnreadable) <==> g.listing.None?
    ensures Complaint(g, run, env, NoContributedCommits) <==> g.listing == Some([])
  {
    hide Names, Flaw, OtherFlaw, BaseIs, Reaches, Normalize, Offers, Ancestors;
  }

  lemma MemberComplaint(g: Git, run: RunRecord, env: Envelope)
    requires Faithful(g, run) && Presented(env).Some?
    ensures Complaint(g, run, env, NotContributed) <==> g.listing.Some? && Presented(env).value !in g.listing.value
  {
    hide Names, Flaw, OtherFlaw, BaseIs, Reaches, Normalize, OnBranch, ParseSha, Presented, Offers, WellFormed;
    Readings(g, run, env);
    assert Names(env, Presented(env).value);
  }

  lemma RangeCheckIs(g: Git, run: RunRecord, branch: string, c: Sha)
    requires WellFormed(g.repo)
    ensures RangeCheck(g, run, branch, c) ==
      if !Based(run) then Some(BaseNotRecorded) else if Unknown(g, Base(run)) then Some(BaseNotFound)
      else if Astray(g, branch, Base(run)) then Some(BranchNotFromBase)
      else if g.listing.None? then Some(RangeUnreadable)
      else if g.listing == Some([]) then Some(NoContributedCommits)
      else When(g.listing.Some? && c !in g.listing.value, NotContributed)
  {
    hide OnBranch, ParseSha;
  }

  lemma RangeStage(g: Git, run: RunRecord, env: Envelope)
    requires Faithful(g, run) && Presented(env).Some? && run.branch.Some?
    ensures Stage(g, run, env, 20, 26, RangeCheck(g, run, run.branch.value, Presented(env).value))
  {
    hide Complaint, ParseSha, Presented, OnBranch, Ancestors, Rank, Stage, Base, RangeCheck, When, Unknown, Astray,
      Based;
    var (c, branch) := (Presented(env).value, run.branch.value);
    LateRanks();
    BaseComplaint(g, run, env);
    RangeComplaints(g, run, env);
    MemberComplaint(g, run, env);
    RangeCheckIs(g, run, branch, c);
    var (unbased, unread, none) := (!Based(run), g.listing.None?, g.listing == Some([]));
    var other := g.listing.Some? && c !in g.listing.value;
    OneStage(g, run, env, unbased, BaseNotRecorded);
    OneStage(g, run, env, unread, RangeUnreadable);
    OneStage(g, run, env, none, NoContributedCommits);
    OneStage(g, run, env, other, NotContributed);
    var (lost, off) := (false, false);
    if Based(run) {
      IsBased(run);
      BaseComplaints(g, run, env);
      lost, off := Unknown(g, Base(run)), Astray(g, branch, Base(run));
      OneStage(g, run, env, lost, BaseNotFound);
      OneStage(g, run, env, off, BranchNotFromBase);
    }
    SixStages(g, run, env, unbased, lost, off, unread, none, other);
  }

  lemma IsBased(run: RunRecord)
    requires Based(run)
    ensures run.baseCommit.Some? && ParseSha(run.baseCommit.value).Some?
  {
  }

  lemma SixStages(g: Git, run: RunRecord, env: Envelope, unbased: bool, lost: bool, off: bool, unread: bool, none: bool,
                  other: bool)
    requires WellFormed(g.repo)
    requires Stage(g, run, env, 20, 21, When(unbased, BaseNotRecorded))
    requires unbased || (Stage(g, run, env, 21, 22, When(lost, BaseNotFound)) &&
      Stage(g, run, env, 22, 23, When(off, BranchNotFromBase)))
    requires Stage(g, run, env, 23, 24, When(unread, RangeUnreadable))
    requires Stage(g, run, env, 24, 25, When(none, NoContributedCommits))
    requires Stage(g, run, env, 25, 26, When(other, NotContributed))
    ensures Stage(g, run, env, 20, 26,
                  if unbased then Some(BaseNotRecorded) else if lost then Some(BaseNotFound)
                  else if off then Some(BranchNotFromBase) else if unread then Some(RangeUnreadable)
                  else if none then Some(NoContributedCommits) else When(other, NotContributed))
  {
    hide Complaint, Rank, WellFormed;
    LateRanks();
  }

  lemma OthersStage(g: Git, run: RunRecord, env: Envelope, paths: seq<string>)
    requires Faithful(g, run) && Presented(env).Some? && Approves(run, paths) && g.listing.Some?
    ensures var others := ScanOthers(g.repo, g.listing.value, Presented(env).value, run.claimedSecond, paths);
      Stage(g, run, env, 26, 27, others)
  {
    hide Names, Reaches, OnBranch, Presented, Complaint, ScanOthers, OtherFlaw, Approves, Flawless, Rank, WellFormed;
    var c := Presented(env).value;
    Readings(g, run, env);
    assert Names(env, c);
    OthersExactly(g.repo, g.listing.value, c, run.claimedSecond, run, paths);
    RankOnce();
    var found := ScanOthers(g.repo, g.listing.value, c, run.claimedSecond, paths);
    forall d: Code | d.Contributed?
      ensures Complaint(g, run, env, d) <==> OtherFlaw(g.repo, g.listing.value, c, run.claimedSecond, run, d.inner)
    {
      OtherComplaint(g, run, env, c, d.inner);
    }
    if found.None? {
      forall inner
        ensures !OtherFlaw(g.repo, g.listing.value, c, run.claimedSecond, run, inner)
      {
        NoOtherFlaw(g.repo, g.listing.value, c, run.claimedSecond, run, inner);
      }
    }
  }

  lemma OtherComplaint(g: Git, run: RunRecord, env: Envelope, c: Sha, inner: Code)
    requires WellFormed(g.repo) && g.listing.Some? && forall s :: Names(env, s) <==> s == c
    ensures Complaint(g, run, env, Contributed(inner)) <==>
      OtherFlaw(g.repo, g.listing.value, c, run.claimedSecond, run, inner)
  {
    hide Names, Flaw, OtherFlaw, Offers, BaseIs, Reaches, Normalize, WellFormed;
  }

  lemma NoOtherFlaw(r: Repo, listing: seq<Sha>, s: Sha, since: int, run: RunRecord, inner: Code)
    requires WellFormed(r) && forall x <- listing :: x == s || Flawless(r, x, since, run)
    ensures !OtherFlaw(r, listing, s, since, run, inner)
  {
    hide Flaw, WellFormed;
    forall i | 0 <= i < |listing| && listing[i] != s
      ensures !FirstFlaw(r, listing[i], since, run, inner)
    {
      assert listing[i] in listing;
    }
  }

  /** The codes up to the isolation check, and what the gate then says. */
  lemma EarlyVerdict(g: Git, run: RunRecord, env: Envelope) returns (f: Option<Code>)
    requires Faithful(g, run)
    ensures Stage(g, run, env, 0, 7, f) && (f.Some? ==> Correlate(g, run, env) == Refused(f.value))
    ensures f.None? ==> Presented(env).Some? && run.branch.Some?
    ensures f == None <==>
      && Contained(run) && Identity(run, env).None? && Presented(env).Some? && run.isolated
      && run.branch !in {None, Some("")}
  {
    hide Complaint, Rank, Stage, WellFormed, OnBranch, Files, Basics, Scope, ScanOthers, RangeCheck, Permitted,
      Presented, Identity, Contained;
    ReportStages(g, run, env);
    IdentityStage(g, run, env);
    f := When(Uncontained(run), ContainmentViolation);
    Joined(g, run, env, 0, 1, 5, f, Identity(run, env));
    f := if f.Some? then f else Identity(run, env);
    Joined(g, run, env, 0, 5, 6, f, When(Presented(env).None?, CommitMissing));
    f := if f.Some? then f else When(Presented(env).None?, CommitMissing);
    Joined(g, run, env, 0, 6, 7, f, When(Unplaced(run), IsolationNotRecorded));
    f := if f.Some? then f else When(Unplaced(run), IsolationNotRecorded);
  }

  /** The codes about the presented commit and the approved scope. */
  lemma CommitVerdict(g: Git, run: RunRecord, env: Envelope, early: Option<Code>) returns (f: Option<Code>)
    requires Faithful(g, run) && early.None? && Stage(g, run, env, 0, 7, early)
    requires Contained(run) && Identity(run, env).None? && Presented(env).Some? && run.isolated &&
      run.branch !in {None, Some("")}
    ensures Stage(g, run, env, 0, 20, f) && (f.Some? ==> Correlate(g, run, env) == Refused(f.value))
    ensures f.None? ==> var c := Presented(env).value;
      && c in g.repo.commits && OnBranch(g.repo, run.branch.value, c)
      && Basics(g.repo, c, run.claimedSecond).None? && Permitted(run).Yes?
      && Scope(Files(g.repo, c), Permitted(run).paths).None?
  {
    hide Complaint, Rank, Stage, WellFormed, OnBranch, Files, Basics, Scope, ScanOthers, RangeCheck, Permitted,
      Presented, Identity, Contained;
    ReportStages(g, run, env);
    ScopeStage(g, run, env);
    var c := Presented(env).value;
    f := When(Unknown(g, c), CommitNotFound);
    Joined(g, run, env, 0, 7, 8, None, f);
    var branch := When(Astray(g, run.branch.value, c), CommitNotOnBranch);
    Joined(g, run, env, 0, 8, 9, f, branch);
    if f.None? {
      CommitStage(g, run, env);
      var basics := Basics(g.repo, c, run.claimedSecond);
      Joined(g, run, env, 0, 9, 15, branch, basics);
      f := if branch.Some? then branch else basics;
      var approved := if Permitted(run).No? then Some(Permitted(run).code) else None;
      Joined(g, run, env, 0, 15, 18, f, approved);
      f := if f.Some? then f else approved;
      var scope := if Permitted(run).Yes? then Scope(Files(g.repo, c), Permitted(run).paths) else None;
      Joined(g, run, env, 0, 18, 20, f, scope);
      f := if f.Some? then f else scope;
    } else {
      StageEnds(g, run, env, 8, 20, f);
    }
  }

  lemma StageEnds(g: Git, run: RunRecord, env: Envelope, mid: nat, hi: nat, f: Option<Code>)
    requires WellFormed(g.repo) && mid <= hi && f.Some? && Stage(g, run, env, 0, mid, f)
    ensures Stage(g, run, env, 0, hi, f)
  {
    hide Complaint, Rank, WellFormed;
  }

  /** The codes about the base and the rest of the range. */
  lemma RangeVerdict(g: Git, run: RunRecord, env: Envelope, mid: Option<Code>) returns (f: Option<Code>)
    requires Faithful(g, run) && mid.None? && Stage(g, run, env, 0, 20, mid)
    requires Contained(run) && Identity(run, env).None? && Presented(env).Some? && run.isolated &&
      run.branch !in {None, Some("")}
    requires var c := Presented(env).value;
      && c in g.repo.commits && OnBranch(g.repo, run.branch.value, c)
      && Basics(g.repo, c, run.claimedSecond).None? && Permitted(run).Yes?
      && Scope(Files(g.repo, c), Permitted(run).paths).None?
    ensures Stage(g, run, env, 0, 27, f)
    ensures if f.Some? then Correlate(g, run, env) == Refused(f.value) else Correlate(g, run, env).Accepted?
  {
    hide Complaint, Rank, Stage, WellFormed, OnBranch, Files, Basics, Scope, ScanOthers, Permitted,
      Presented, Identity, Contained, Approves, Base, ParseSha;
    var (c, paths) := (Presented(env).value, Permitted(run).paths);
    RangeStage(g, run, env);
    f := RangeCheck(g, run, run.branch.value, c);
    Joined(g, run, env, 0, 20, 26, None, f);
    if f.None? {
      PermittedExactly(run, paths);
      OthersStage(g, run, env, paths);
      var others := ScanOthers(g.repo, g.listing.value, c, run.claimedSecond, paths);
      Joined(g, run, env, 0, 26, 27, None, others);
      f := others;
    } else {
      StageEnds(g, run, env, 26, 27, f);
    }
  }

  /** The gate refuses with the first complaint, in the documented order, that is true of the record, the report and
      the commit graph; it accepts exactly if none is. */
  lemma VerdictExactly(g: Git, run: RunRecord, env: Envelope)
    requires Faithful(g, run)
    ensures var v := Correlate(g, run, env);
      && (v.Refused? ==>
            Complaint(g, run, env, v.code) && forall d :: Rank(d) < Rank(v.code) ==> !Complaint(g, run, env, d))
      && (v.Accepted? <==> forall d :: !Complaint(g, run, env, d))
  {
    hide Complaint, Rank, WellFormed, OnBranch, Files, Basics, Scope, ScanOthers, RangeCheck, Permitted, Presented,
      Identity, Contained, Correlate;
    RankOnce();
    var f := EarlyVerdict(g, run, env);
    if f.Some? {
      StageEnds(g, run, env, 7, 27, f);
    } else {
      f := CommitVerdict(g, run, env, f);
      if f.Some? {
        StageEnds(g, run, env, 20, 27, f);
      } else {
        f := RangeVerdict(g, run, env, f);
      }
    }
    assert Stage(g, run, env, 0, 27, f);
  }

  /** What an accepted run's evidence records: the commit the report names, the base and the scope of its record,
      and that commit's own time and files. */
  lemma AcceptedEvidence(g: Git, run: RunRecord, env: Envelope)
    requires Faithful(g, run) && Correlate(g, run, env).Accepted?
    ensures var e := Correlate(g, run, env).evidence;
      && Names(env, e.commit) && BaseIs(run, e.base) && Approves(run, e.permitted)
      && e.commit in g.repo.commits && g.repo.commits[e.commit].time == Some(e.committedAt)
      && e.files == Files(g.repo, e.commit) && g.listing == Some(e.contributed)
  {
    hide Permitted, Approves, Basics, Scope, RangeCheck, ScanOthers, Identity, Presented, Contained, OnBranch, Files,
      Base, ParseSha, Names, BaseIs, WellFormed;
    AcceptedReads(g, run, env);
    var e := Correlate(g, run, env).evidence;
    Readings(g, run, env);
    PermittedExactly(run, e.permitted);
  }

  lemma AcceptedReads(g: Git, run: RunRecord, env: Envelope)
    requires Faithful(g, run) && Correlate(g, run, env).Accepted?
    ensures var e := Correlate(g, run, env).evidence;
      && Presented(env) == Some(e.commit) && Permitted(run) == Yes(e.permitted)
      && run.baseCommit.Some? && ParseSha(run.baseCommit.value).Some? && Base(run) == e.base
      && e.commit in g.repo.commits && g.repo.commits[e.commit].time == Some(e.committedAt)
      && e.files == Files(g.repo, e.commit) && g.listing == Some(e.contributed)
  {
    hide Permitted, Scope, ScanOthers, Identity, Presented, Contained, OnBranch, Files, Base, ParseSha, WellFormed;
  }

  /** `path` is not inside the scope the record approves. */
  ghost predicate Outside(run: RunRecord, path: string) {
    forall paths :: Approves(run, paths) ==> !Within(path, paths)
  }

  lemma OutsideExactly(run: RunRecord, path: string)
    requires Permitted(run).Yes?
    ensures Outside(run, path) <==> !Within(path, Permitted(run).paths)
  {
    hide Permitted, Approves, Within;
    PermittedExactly(run, Permitted(run).paths);
    forall paths | Approves(run, paths)
      ensures paths == Permitted(run).paths
    {
      PermittedExactly(run, paths);
    }
  }

  // ---- Acceptance ----

  /** `base` is the run's recorded base, an ancestor of its own branch's tip, and `tip` is that tip. */
  ghost predicate Bounds(g: Git, run: RunRecord, base: Sha, tip: Sha)
    requires WellFormed(g.repo)
  {
    && run.branch !in {None, Some("")} && run.branch.value in g.repo.branches
    && tip == g.repo.branches[run.branch.value] && tip in g.repo.commits
    && BaseIs(run, base) && base in g.repo.commits && base in Ancestors(g.repo, tip)
  }

  /** The named commit is one the branch adds to its base, and every commit it adds is fit. */
  ghost predicate Delivers(g: Git, run: RunRecord, env: Envelope, base: Sha, tip: Sha, named: Sha, paths: seq<string>)
    requires WellFormed(g.repo)
  {
    && Bounds(g, run, base, tip) && Names(env, named) && Approves(run, paths)
    && named in Range(g.repo, base, tip)
    && forall s <- Range(g.repo, base, tip) :: s in g.repo.commits && Fit(g.repo, s, run.claimedSecond, paths)
  }

  /** The report repeats the run's own identity, which includes an approved request. */
  predicate Echoes(run: RunRecord, env: Envelope) {
    && env.runId == Some(run.runId) && env.issueId == Some(run.issueId)
    && run.requestId.Some? && env.requestId == run.requestId
  }

  /** The gate accepts exactly if the run is contained and isolated, the report echoes its identity and names a commit
      its branch adds to the recorded base, and every commit the branch adds is fit for the approved scope. */
  lemma AcceptedExactly(g: Git, run: RunRecord, env: Envelope)
    requires Faithful(g, run)
    ensures Correlate(g, run, env).Accepted? <==>
      && run.containment in {None, Some(Clean), Some(WorktreeDirty)} && run.isolated && Echoes(run, env)
      && g.listing.Some? && exists base, tip, named, paths :: Delivers(g, run, env, base, tip, named, paths)
  {
    hide Correlate, Delivers, Contained, Identity, WellFormed, Echoes, Range;
    ContainedExactly(run);
    EchoesExactly(run, env);
    if Correlate(g, run, env).Accepted? {
      AcceptedDelivers(g, run, env);
    }
    if Contained(run) && run.isolated && Identity(run, env).None? && g.listing.Some? &&
      exists base, tip, named, paths :: Delivers(g, run, env, base, tip, named, paths) {
      var base, tip, named, paths :| Delivers(g, run, env, base, tip, named, paths);
      DeliveredIsAccepted(g, run, env, base, tip, named, paths);
    }
  }

  lemma EchoesExactly(run: RunRecord, env: Envelope)
    ensures Identity(run, env).None? <==> Echoes(run, env)
  {
  }

  lemma DeliveredIsAccepted(g: Git, run: RunRecord, env: Envelope, base: Sha, tip: Sha, named: Sha, paths: seq<string>)
    requires Faithful(g, run) && Delivers(g, run, env, base, tip, named, paths)
    requires Contained(run) && run.isolated && Identity(run, env).None? && g.listing.Some?
    ensures Correlate(g, run, env).Accepted?
  {
    hide Correlate, Delivers, RunLevel, Permitted, Presented, Identity, Contained, Fit, Base, Ancestors, ParseSha;
    DeliveredMeans(g, run, env, base, tip, named, paths);
    DeliveredRun(g, run, env, base, tip, named, paths);
    AcceptsExactly(g, run, env);
  }

  lemma ContainedExactly(run: RunRecord)
    ensures Contained(run) <==> run.containment in {None, Some(Clean), Some(WorktreeDirty)}
  {
    if run.containment.Some? {
      match run.containment.value
      case Clean =>
      case WorktreeDirty =>
      case CheckoutDirty =>
      case SnapshotMissing =>
      case ScanError =>
    }
  }

  lemma AcceptedDelivers(g: Git, run: RunRecord, env: Envelope)
    requires Faithful(g, run) && Correlate(g, run, env).Accepted?
    ensures Contained(run) && run.isolated && Identity(run, env).None?
    ensures g.listing.Some? && run.branch.Some? && run.branch.value in g.repo.branches
    ensures var e := Correlate(g, run, env).evidence;
      Delivers(g, run, env, e.base, g.repo.branches[run.branch.value], e.commit, e.permitted)
  {
    hide Correlate, Names, BaseIs, Approves, Presented, Permitted, ParseSha, Ancestors, Fit, Identity, Contained, Files;
    AcceptsExactly(g, run, env);
    AcceptedEvidence(g, run, env);
    AcceptedReads(g, run, env);
  }

  /** The gate's own readings agree with what is delivered. */
  lemma DeliveredMeans(g: Git, run: RunRecord, env: Envelope, base: Sha, tip: Sha, named: Sha, paths: seq<string>)
    requires Faithful(g, run) && Delivers(g, run, env, base, tip, named, paths)
    ensures Presented(env) == Some(named) && Permitted(run) == Yes(paths) && BaseAndTip(g, run) && Base(run) == base
    ensures tip == g.repo.branches[run.branch.value]
  {
    hide Names, BaseIs, Approves, Presented, Permitted, ParseSha, Ancestors, Fit, Reaches;
    Readings(g, run, env);
    PermittedExactly(run, paths);
  }

  lemma DeliveredRun(g: Git, run: RunRecord, env: Envelope, base: Sha, tip: Sha, named: Sha, paths: seq<string>)
    requires Faithful(g, run) && Delivers(g, run, env, base, tip, named, paths)
    requires Contained(run) && run.isolated && g.listing.Some? && Permitted(run) == Yes(paths)
    requires BaseAndTip(g, run) && Base(run) == base && tip == g.repo.branches[run.branch.value]
    ensures RunLevel(g, run) && named in g.listing.value
    ensures forall s <- g.listing.value :: Fit(g.repo, s, run.claimedSecond, paths)
  {
    hide Names, BaseIs, Approves, Presented, Permitted, ParseSha, Ancestors, Fit, Contained, Base;
  }

  // ---- What feeds the gate ----

  /** After enrichment a report echoes its run whenever a request was approved, whatever the worker wrote. A success
      keeps the commit the worker named, or names the branch tip if it named none; any other outcome names nothing. */
  lemma EnrichedExactly(run: RunRecord, env: Envelope, tip: Option<string>, landed: bool)
    ensures Echoes(run, Enrich(run, env, tip, landed)) <==> run.requestId.Some?
    ensures !landed ==> forall s :: !Names(Enrich(run, env, tip, landed), s)
    ensures landed && (env.commit !in {None, Some("")} || tip.None?) ==>
      forall s :: Names(Enrich(run, env, tip, landed), s) <==> Names(env, s)
    ensures landed && env.commit in {None, Some("")} && tip !in {None, Some("")} ==>
      forall s :: Names(Enrich(run, env, tip, landed), s) <==> Reads(tip.value, s)
  {
    hide Reads;
  }
}
