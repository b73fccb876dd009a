/** The Evidence Gate: a mutating run's success is accepted only on a correlated commit, and every
    commit the run contributed is held to the same rules. */
module EvidenceGate {
  import opened Prelude
  import opened RepoPath
  import opened CommitGraph

  type Id = nat

  datatype Containment = Clean | WorktreeDirty | CheckoutDirty | SnapshotMissing | ScanError

  /** An artifact policy in prose: blank, or the paths it names in backticks. */
  datatype Policy = Policy(blank: bool, named: seq<string>)

  datatype RunRecord = RunRecord(
    runId: Id, issueId: Id, requestId: Option<Id>, containment: Option<Containment>,
    isolated: bool, branch: Option<string>, claimedSecond: int,
    artifactPaths: seq<string>, policy: Option<Policy>, baseCommit: Option<string>, worktree: Option<string>)

  datatype Envelope = Envelope(
    runId: Option<Id>, issueId: Option<Id>, requestId: Option<Id>, commit: Option<string>, commitSha: Option<string>)

  datatype Code =
    | ContainmentViolation
    | RunMismatch | IssueMismatch | RequestNotRecorded | RequestMismatch
    | CommitMissing | IsolationNotRecorded | CommitNotFound | CommitNotOnBranch
    | TimeUnreadable | PredatesRun | MessageUnreadable | SignOffMissing | FilesUnreadable | NoFilesChanged
    | PolicyMissing | PolicyUnparsable | PolicyUnsafePath | PathUnsafe | PolicyViolation
    | BaseNotRecorded | BaseNotFound | BranchNotFromBase | RangeUnreadable | NoContributedCommits | NotContributed
    | Contributed(inner: Code)

  datatype Evidence = Evidence(
    runId: Id, issueId: Id, requestId: Option<Id>, commit: Sha, branch: string, committedAt: nat,
    files: set<string>, permitted: seq<string>, base: Sha, contributed: seq<Sha>, contributedFiles: set<string>,
    worktree: Option<string>)

  datatype Verdict = Accepted(evidence: Evidence) | Refused(code: Code)

  // ---- Object names ----

  function Lower(s: string): string {
    if s == [] then [] else [if 'A' <= s[0] <= 'Z' then s[0] - 'A' + 'a' else s[0]] + Lower(s[1..])
  }

  predicate Hex(s: string) {
    forall c <- s :: '0' <= c <= '9' || 'a' <= c <= 'f'
  }

  function ParseSha(raw: string): Option<Sha> {
    var text := Lower(Strip(raw));
    if |text| == 40 && Hex(text) then Some(Sha(text)) else None
  }

  /** `commit` if it is a non-empty string, else `commit_sha`. */
  function Presented(env: Envelope): Option<Sha> {
    var raw := if env.commit.Some? && env.commit.value != "" then env.commit else env.commitSha;
    if raw.None? then None else ParseSha(raw.value)
  }

  // ---- The rules one commit must pass ----

  /** Time, sign-off and a non-empty file list, in the order they are checked. */
  function Basics(r: Repo, s: Sha, claimedSecond: int): Option<Code>
    requires WellFormed(r) && s in r.commits
  {
    var c := r.commits[s];
    if c.time.None? then Some(TimeUnreadable)
    else if c.time.value <= claimedSecond then Some(PredatesRun)
    else if c.signedOff.None? then Some(MessageUnreadable)
    else if !c.signedOff.value then Some(SignOffMissing)
    else if !c.listable then Some(FilesUnreadable)
    else if Files(r, s) == {} then Some(NoFilesChanged)
    else None
  }

  function Scope(files: set<string>, permitted: seq<string>): Option<Code> {
    if exists f <- files :: Normalize(f).None? then Some(PathUnsafe)
    else if exists f <- files :: !Within(f, permitted) then Some(PolicyViolation)
    else None
  }

  /** A contributed commit is fit when nothing in either list of rules refuses it. */
  ghost predicate Fit(r: Repo, s: Sha, claimedSecond: int, permitted: seq<string>)
    requires WellFormed(r) && s in r.commits
  {
    && r.commits[s].time.Some? && r.commits[s].time.value > claimedSecond
    && r.commits[s].signedOff == Some(true)
    && r.commits[s].listable
    && Files(r, s) != {}
    && forall f <- Files(r, s) :: Within(f, permitted)
  }

  lemma FitExactly(r: Repo, s: Sha, claimedSecond: int, permitted: seq<string>)
    requires WellFormed(r) && s in r.commits
    ensures Basics(r, s, claimedSecond).None? && Scope(Files(r, s), permitted).None? <==>
      Fit(r, s, claimedSecond, permitted)
  {
    hide Files, Normalize;
    forall f | f in Files(r, s) && Within(f, permitted)
      ensures Normalize(f).Some?
    {
      var i :| 0 <= i < |permitted| && Inside(f, permitted[i]);
    }
  }

  // ---- The approved scope ----

  /** Explicit paths win over prose; there is no unrestricted outcome. */
  function Permitted(run: RunRecord): (r: Approval)
  {
    var paths := if run.artifactPaths != [] then run.artifactPaths
                 else if run.policy.Some? && !run.policy.value.blank then run.policy.value.named else [];
    if run.artifactPaths == [] && (run.policy.None? || run.policy.value.blank) then No(PolicyMissing)
    else if paths == [] then No(PolicyUnparsable)
    else if exists p <- paths :: Normalize(p).None? then No(PolicyUnsafePath)
    else Yes(paths)
  }

  datatype Approval = Yes(paths: seq<string>) | No(code: Code)

  function Identity(run: RunRecord, env: Envelope): Option<Code> {
    if env.runId != Some(run.runId) then Some(RunMismatch)
    else if env.issueId != Some(run.issueId) then Some(IssueMismatch)
    else if run.requestId.None? then Some(RequestNotRecorded)
    else if env.requestId != run.requestId then Some(RequestMismatch)
    else None
  }

  predicate Contained(run: RunRecord) {
    run.containment !in {Some(CheckoutDirty), Some(SnapshotMissing), Some(ScanError)}
  }

  // ---- The contributed range ----

  /** The first refusal among the other commits of the listing. */
  function ScanOthers(r: Repo, listing: seq<Sha>, commit: Sha, claimedSecond: int, permitted: seq<string>): Option<Code>
    requires WellFormed(r) && forall s <- listing :: s in r.commits
  {
    if listing == [] then None
    else
      var s := listing[0];
      var failure :=
        if s == commit then None
        else if Basics(r, s, claimedSecond).Some? then Basics(r, s, claimedSecond)
        else Scope(Files(r, s), permitted);
      if failure.Some? then Some(Contributed(failure.value))
      else ScanOthers(r, listing[1..], commit, claimedSecond, permitted)
  }

  function FilesOf(r: Repo, listing: seq<Sha>): set<string>
    requires WellFormed(r) && forall s <- listing :: s in r.commits
  {
    if listing == [] then {} else Files(r, listing[0]) + FilesOf(r, listing[1..])
  }

  lemma {:induction false} FilesOfIsUnion(r: Repo, listing: seq<Sha>)
    requires WellFormed(r) && forall s <- listing :: s in r.commits
    ensures forall f :: f in FilesOf(r, listing) <==> exists s <- listing :: f in Files(r, s)
  {
    hide Files;
    if listing != [] {
      FilesOfIsUnion(r, listing[1..]);
      assert forall s :: s in listing <==> s == listing[0] || s in listing[1..];
    }
  }

  lemma {:induction false} ScanExactly(r: Repo, listing: seq<Sha>, commit: Sha, claimedSecond: int,
                                       permitted: seq<string>)
    requires WellFormed(r) && forall s <- listing :: s in r.commits
    ensures ScanOthers(r, listing, commit, claimedSecond, permitted).None? <==>
      forall s <- listing :: s == commit || Fit(r, s, claimedSecond, permitted)
  {
    hide Fit, Basics, Scope, Files;
    if listing != [] {
      FitExactly(r, listing[0], claimedSecond, permitted);
      ScanExactly(r, listing[1..], commit, claimedSecond, permitted);
      assert forall s :: s in listing <==> s == listing[0] || s in listing[1..];
    }
  }

  // ---- The gate ----

  /** What git answered: the ancestor questions, and `rev-list base..tip` when it could be read. */
  datatype Git = Git(repo: Repo, listing: Option<seq<Sha>>)

  /** The listing is the range it was asked for. */
  ghost predicate Faithful(g: Git, run: RunRecord) {
    && WellFormed(g.repo)
    && (g.listing.Some? ==> forall s <- g.listing.value :: s in g.repo.commits)
    && (BaseAndTip(g, run) && g.listing.Some? ==>
          forall s :: s in g.listing.value <==> s in Range(g.repo, Base(run), g.repo.branches[run.branch.value]))
  }

  predicate BaseAndTip(g: Git, run: RunRecord) {
    && run.branch.Some? && run.branch.value in g.repo.branches
    && run.baseCommit.Some? && ParseSha(run.baseCommit.value).Some? && Base(run) in g.repo.commits
  }

  function Base(run: RunRecord): Sha
    requires run.baseCommit.Some? && ParseSha(run.baseCommit.value).Some?
  {
    ParseSha(run.baseCommit.value).value
  }

  predicate OnBranch(r: Repo, branch: string, s: Sha)
    requires WellFormed(r)
  {
    branch in r.branches && s in Ancestors(r, r.branches[branch])
  }

  /** The checks on the recorded base and the presented commit's place in the range. */
  function RangeCheck(g: Git, run: RunRecord, branch: string, commit: Sha): Option<Code>
    requires WellFormed(g.repo)
  {
    if run.baseCommit.None? || ParseSha(run.baseCommit.value).None? then Some(BaseNotRecorded)
    else if Base(run) !in g.repo.commits then Some(BaseNotFound)
    else if !OnBranch(g.repo, branch, Base(run)) then Some(BranchNotFromBase)
    else if g.listing.None? then Some(RangeUnreadable)
    else if g.listing.value == [] then Some(NoContributedCommits)
    else if commit !in g.listing.value then Some(NotContributed)
    else None
  }

  /** The whole decision, in the order the checks are made. */
  function Correlate(g: Git, run: RunRecord, env: Envelope): Verdict
    requires Faithful(g, run)
  {
    if !Contained(run) then Refused(ContainmentViolation)
    else if Identity(run, env).Some? then Refused(Identity(run, env).value)
    else if Presented(env).None? then Refused(CommitMissing)
    else if !run.isolated || run.branch in {None, Some("")} then Refused(IsolationNotRecorded)
    else
      var (commit, branch) := (Presented(env).value, run.branch.value);
      if commit !in g.repo.commits then Refused(CommitNotFound)
      else if !OnBranch(g.repo, branch, commit) then Refused(CommitNotOnBranch)
      else if Basics(g.repo, commit, run.claimedSecond).Some? then
        Refused(Basics(g.repo, commit, run.claimedSecond).value)
      else
        match Permitted(run)
        case No(code) => Refused(code)
        case Yes(permitted) =>
          var files := Files(g.repo, commit);
          if Scope(files, permitted).Some? then Refused(Scope(files, permitted).value)
          else if RangeCheck(g, run, branch, commit).Some? then Refused(RangeCheck(g, run, branch, commit).value)
          else
            var listing := g.listing.value;
            var other := ScanOthers(g.repo, listing, commit, run.claimedSecond, permitted);
            if other.Some? then Refused(other.value)
            else Accepted(Evidence(
              run.runId, run.issueId, run.requestId, commit, branch, g.repo.commits[commit].time.value,
              files, permitted, Base(run), listing, FilesOf(g.repo, listing), run.worktree))
  }

  /** The checks that do not depend on which contributed commit is presented. */
  ghost predicate RunLevel(g: Git, run: RunRecord)
    requires Faithful(g, run)
  {
    && Contained(run) && run.isolated && run.branch != Some("")
    && Permitted(run).Yes?
    && BaseAndTip(g, run) && g.listing.Some?
    && OnBranch(g.repo, run.branch.value, Base(run))
  }

  /** The gate accepts exactly when the identity and run-level checks hold, the presented commit is one
      the run contributed, and every contributed commit is fit. */
  lemma AcceptsExactly(g: Git, run: RunRecord, env: Envelope)
    requires Faithful(g, run)
    ensures Correlate(g, run, env).Accepted? <==>
      && Identity(run, env).None? && RunLevel(g, run)
      && Presented(env).Some? && Presented(env).value in g.listing.value
      && forall s <- g.listing.value :: Fit(g.repo, s, run.claimedSecond, Permitted(run).paths)
  {
    hide Basics, Scope, Fit, Files, Ancestors, ParseSha, Permitted, Contained, Identity;
    if g.listing.Some? && Permitted(run).Yes? && Presented(env).Some? {
      var (c, paths) := (Presented(env).value, Permitted(run).paths);
      if c in g.listing.value {
        FitExactly(g.repo, c, run.claimedSecond, paths);
        ScanExactly(g.repo, g.listing.value, c, run.claimedSecond, paths);
      }
    }
  }

  /** So the verdict is the same whichever contributed commit an envelope presents. */
  lemma VerdictIgnoresWhichCommit(g: Git, run: RunRecord, a: Envelope, b: Envelope)
    requires Faithful(g, run) && g.listing.Some?
    requires a.runId == b.runId && a.issueId == b.issueId && a.requestId == b.requestId
    requires Presented(a).Some? && Presented(b).Some?
    requires Presented(a).value in g.listing.value && Presented(b).value in g.listing.value
    ensures Correlate(g, run, a).Accepted? <==> Correlate(g, run, b).Accepted?
  {
    hide Correlate, RunLevel, Presented, Permitted, Fit;
    AcceptsExactly(g, run, a);
    AcceptsExactly(g, run, b);
  }

  /** Accepted evidence names its own run, and its files are the union of what the range changed. */
  lemma EvidenceIsOwn(g: Git, run: RunRecord, env: Envelope)
    requires Faithful(g, run) && Correlate(g, run, env).Accepted?
    ensures var e := Correlate(g, run, env).evidence;
      && e.runId == run.runId && e.issueId == run.issueId && e.requestId == run.requestId && run.requestId.Some?
      && Some(e.branch) == run.branch && e.worktree == run.worktree && Contained(run)
      && (forall s :: s in e.contributed <==> s in Range(g.repo, e.base, g.repo.branches[e.branch]))
      && (forall f :: f in e.contributedFiles <==>
            exists s <- e.contributed :: s in g.repo.commits && f in Files(g.repo, s))
      && (forall f <- e.contributedFiles :: Within(f, e.permitted))
  {
    hide Basics, Scope, Fit, Files, Ancestors, ParseSha, Permitted;
    AcceptsExactly(g, run, env);
    var e := Correlate(g, run, env).evidence;
    FilesOfIsUnion(g.repo, e.contributed);
    forall f | f in e.contributedFiles
      ensures Within(f, e.permitted)
    {
      var s :| s in e.contributed && f in Files(g.repo, s);
      FitFiles(g.repo, s, run.claimedSecond, e.permitted, f);
    }
  }

  lemma FitFiles(r: Repo, s: Sha, claimedSecond: int, permitted: seq<string>, f: string)
    requires WellFormed(r) && s in r.commits
    requires Fit(r, s, claimedSecond, permitted) && f in Files(r, s)
    ensures Within(f, permitted)
  {
  }

  // ---- What feeds the gate ----

  /** The platform's own identity fields replace the worker's; a non-success carries no commit, a
      success without one takes the branch tip when it can be read. */
  function Enrich(run: RunRecord, env: Envelope, tip: Option<string>, landed: bool): Envelope {
    Envelope(Some(run.runId), Some(run.issueId), run.requestId,
             if !landed then None
             else if (env.commit.None? || env.commit.value == "") && tip.Some? then tip else env.commit,
             if !landed then None else env.commitSha)
  }

  /** After enrichment only an unapproved run can fail its identity checks, whatever the worker wrote. */
  lemma EnrichedIdentity(run: RunRecord, env: Envelope, tip: Option<string>, landed: bool)
    ensures Identity(run, Enrich(run, env, tip, landed)) ==
      if run.requestId.Some? then None else Some(RequestNotRecorded)
    ensures !landed ==> Presented(Enrich(run, env, tip, landed)).None?
  {
  }

  /** A branch with contributed commits has its tip among them. */
  lemma TipIsContributed(r: Repo, base: Sha, tip: Sha, s: Sha)
    requires WellFormed(r) && base in r.commits && tip in r.commits && s in Range(r, base, tip)
    ensures tip in Range(r, base, tip)
  {
    hide Ancestors;
    if tip in Ancestors(r, base) {
      AncestorsNest(r, tip, base);
    }
    AncestorsStep(r, tip, tip);
  }

  /** The derived branch tip gets the verdict any other contributed commit would. */
  lemma DerivedTipSameVerdict(g: Git, run: RunRecord, env: Envelope, other: Envelope, tip: string)
    requires Faithful(g, run) && g.listing.Some? && BaseAndTip(g, run) && run.requestId.Some?
    requires env.commit.None? || env.commit.value == ""
    requires tip != "" && ParseSha(tip) == Some(g.repo.branches[run.branch.value])
    requires Identity(run, other).None? && Presented(other).Some? && Presented(other).value in g.listing.value
    ensures Correlate(g, run, Enrich(run, env, Some(tip), true)).Accepted? <==> Correlate(g, run, other).Accepted?
  {
    hide Correlate, Permitted, Fit, Ancestors, ParseSha;
    EnrichedIdentity(run, env, Some(tip), true);
    TipIsContributed(g.repo, Base(run), g.repo.branches[run.branch.value], Presented(other).value);
    VerdictIgnoresWhichCommit(g, run, Enrich(run, env, Some(tip), true), other);
  }

  // ---- The gate as it runs ----

  method VerifyCommitCorrelation(g: Git, run: RunRecord, env: Envelope) returns (v: Verdict)
    requires Faithful(g, run)
    ensures v == Correlate(g, run, env)
  {
    hide Scope, Files, Ancestors, ParseSha;
    if !Contained(run) {
      return Refused(ContainmentViolation);
    }
    var identity := Identity(run, env);
    if identity.Some? {
      return Refused(identity.value);
    }
    var presented := Presented(env);
    if presented.None? {
      return Refused(CommitMissing);
    }
    if !run.isolated || run.branch in {None, Some("")} {
      return Refused(IsolationNotRecorded);
    }
    var commit, branch := presented.value, run.branch.value;
    if commit !in g.repo.commits {
      return Refused(CommitNotFound);
    }
    if !OnBranch(g.repo, branch, commit) {
      return Refused(CommitNotOnBranch);
    }
    var basics := Basics(g.repo, commit, run.claimedSecond);
    if basics.Some? {
      return Refused(basics.value);
    }
    var approved := Permitted(run);
    if approved.No? {
      return Refused(approved.code);
    }
    var permitted, files := approved.paths, Files(g.repo, commit);
    var scope := Scope(files, permitted);
    if scope.Some? {
      return Refused(scope.value);
    }
    var range := RangeCheck(g, run, branch, commit);
    if range.Some? {
      return Refused(range.value);
    }
    var failure, contributedFiles := ScanContributed(g.repo, g.listing.value, commit, run.claimedSecond, permitted);
    if failure.Some? {
      return Refused(failure.value);
    }
    v := Accepted(Evidence(
      run.runId, run.issueId, run.requestId, commit, branch, g.repo.commits[commit].time.value,
      files, permitted, Base(run), g.listing.value, contributedFiles, run.worktree));
  }

  /** Walks the listing, stopping at the first commit that breaks a rule and collecting files on the way. */
  method ScanContributed(r: Repo, listing: seq<Sha>, commit: Sha, claimedSecond: int, permitted: seq<string>)
    returns (failure: Option<Code>, files: set<string>)
    requires WellFormed(r) && forall s <- listing :: s in r.commits
    ensures failure == ScanOthers(r, listing, commit, claimedSecond, permitted)
    ensures failure.None? ==> files == FilesOf(r, listing)
  {
    hide Basics, Scope, Files;
    files := {};
    for i := 0 to |listing|
      invariant ScanOthers(r, listing[i..], commit, claimedSecond, permitted) ==
                ScanOthers(r, listing, commit, claimedSecond, permitted)
      invariant files + FilesOf(r, listing[i..]) == FilesOf(r, listing)
    {
      var s := listing[i];
      assert listing[i..][0] == s && listing[i..][1..] == listing[i + 1..];
      if s != commit {
        var basics := Basics(r, s, claimedSecond);
        if basics.None? {
          basics := Scope(Files(r, s), permitted);
        }
        if basics.Some? {
          return Some(Contributed(basics.value)), files;
        }
      }
      files := files + Files(r, s);
    }
    return None, files;
  }
}
