/** What the gate's acceptance says about trees: what stays as it was outside the approved scope, exactly
    when it does, and a merge for which it does not. */
module ScopeTheorems {
  import opened Prelude
  import opened RepoPath
  import opened CommitGraph
  import opened EvidenceGate
  import opened EvidenceTerms

  /** On a grounded range, merges included, an accepted branch reads at every path outside the scope its record
      approves exactly as its base does. */
  lemma AcceptedStaysInScope(g: Git, run: RunRecord, env: Envelope, path: string)
    requires Faithful(g, run) && Correlate(g, run, env).Accepted? && Outside(run, path)
    requires var e := Correlate(g, run, env).evidence;
      Grounded(g.repo, e.base, Range(g.repo, e.base, g.repo.branches[e.branch]))
    ensures var e := Correlate(g, run, env).evidence;
      Content(g.repo.commits[g.repo.branches[e.branch]], path) == Content(g.repo.commits[e.base], path)
  {
    hide Correlate, Files, Within, Grounded, Approves;
    var e := Correlate(g, run, env).evidence;
    AcceptedEvidence(g, run, env);
    AcceptedRange(g, run, env);
    assert g.repo.branches[e.branch] ==
      e.base || g.repo.branches[e.branch] in Range(g.repo, e.base, g.repo.branches[e.branch])
      by { TipPlace(g.repo, e.base, g.repo.branches[e.branch]); }
    UnlistedIsInherited(g.repo, e.base, g.repo.branches[e.branch], g.repo.branches[e.branch], path);
  }

  /** A tip that contains the base is the base or is contributed. */
  lemma TipPlace(r: Repo, base: Sha, tip: Sha)
    requires WellFormed(r) && base in r.commits && tip in r.commits && base in Ancestors(r, tip)
    ensures tip == base || tip in Range(r, base, tip)
  {
  }

  /** On any history it reads as some commit the base already contained, or is absent. */
  lemma AcceptedAddsNothingOutside(g: Git, run: RunRecord, env: Envelope, path: string)
    requires Faithful(g, run) && Correlate(g, run, env).Accepted?
    requires Outside(run, path)
    ensures var e := Correlate(g, run, env).evidence;
      var tip := g.repo.branches[e.branch];
      Content(g.repo.commits[tip], path).None? || OldContent(g.repo, e.base, tip, path)
  {
    hide Correlate, Files, Ancestors, Within, Approves;
    var e := Correlate(g, run, env).evidence;
    AcceptedEvidence(g, run, env);
    AcceptedRange(g, run, env);
    UnlistedHasOldContent(g.repo, e.base, g.repo.branches[e.branch], g.repo.branches[e.branch], path);
  }

  lemma AcceptedRange(g: Git, run: RunRecord, env: Envelope)
    requires Faithful(g, run) && Correlate(g, run, env).Accepted?
    ensures var e := Correlate(g, run, env).evidence;
      && e.branch in g.repo.branches && e.base in g.repo.commits
      && e.base in Ancestors(g.repo, g.repo.branches[e.branch])
      && forall x <- Range(g.repo, e.base, g.repo.branches[e.branch]), f <- Files(g.repo, x) :: Within(f, e.permitted)
  {
    hide Basics, Scope, Fit, Files, Ancestors, ParseSha, Permitted, Contained, Identity;
    AcceptsExactly(g, run, env);
    var e := Correlate(g, run, env).evidence;
    forall x, f | x in Range(g.repo, e.base, g.repo.branches[e.branch]) && f in Files(g.repo, x)
      ensures Within(f, e.permitted)
    {
      FitFiles(g.repo, x, run.claimedSecond, e.permitted, f);
    }
  }

  // ---- Exactly when ----

  /** The same graph and answers with other trees. */
  function Regrown(g: Git, trees: map<Sha, map<string, Blob>>): Git
    requires g.repo.commits.Keys <= trees.Keys
  {
    g.(repo := Replanted(g.repo, trees))
  }

  ghost predicate AcceptedWith(g: Git, run: RunRecord, env: Envelope, trees: map<Sha, map<string, Blob>>) {
    && g.repo.commits.Keys <= trees.Keys
    && Faithful(Regrown(g, trees), run) && Correlate(Regrown(g, trees), run, env).Accepted?
  }

  /** The branch's tip reads `path` as the run's base does. */
  predicate TipKeeps(g: Git, run: RunRecord, path: string)
    requires BaseAndTip(g, run) && g.repo.branches[run.branch.value] in g.repo.commits
  {
    Content(g.repo.commits[g.repo.branches[run.branch.value]], path) == Content(g.repo.commits[Base(run)], path)
  }

  lemma RegrownFaithful(g: Git, run: RunRecord, trees: map<Sha, map<string, Blob>>)
    requires Faithful(g, run) && g.repo.commits.Keys <= trees.Keys
    ensures Faithful(Regrown(g, trees), run) && WellFormed(Regrown(g, trees).repo)
    ensures BaseAndTip(g, run) ==>
      var (base, tip) := (Base(run), g.repo.branches[run.branch.value]);
      BaseAndTip(Regrown(g, trees), run) && Range(Regrown(g, trees).repo, base, tip) == Range(g.repo, base, tip)
  {
    hide Ancestors, ParseSha;
    ReplantedWellFormed(g.repo, trees);
    if BaseAndTip(g, run) {
      ReplantedAncestors(g.repo, trees, Base(run));
      ReplantedAncestors(g.repo, trees, g.repo.branches[run.branch.value]);
    }
  }

  /** What an accepted run's commit graph looks like. */
  lemma AcceptedShape(g: Git, run: RunRecord, env: Envelope)
    requires Faithful(g, run) && Correlate(g, run, env).Accepted?
    ensures BaseAndTip(g, run) && Permitted(run).Yes? && g.listing.Some?
    ensures var (e, tip) := (Correlate(g, run, env).evidence, g.repo.branches[run.branch.value]);
      && e.base == Base(run) && Some(e.branch) == run.branch && e.permitted == Permitted(run).paths
      && tip in g.repo.commits && Base(run) in Ancestors(g.repo, tip)
      && forall s :: s in g.listing.value <==> s in Range(g.repo, Base(run), tip)
  {
    hide Basics, Scope, Fit, Files, Ancestors, ParseSha, Permitted, Contained, Identity;
    AcceptsExactly(g, run, env);
  }

  lemma GroundedKeeps(g: Git, run: RunRecord, env: Envelope, path: string, trees: map<Sha, map<string, Blob>>)
    requires Faithful(g, run) && BaseAndTip(g, run) && AcceptedWith(g, run, env, trees)
    requires Outside(run, path)
    requires Grounded(g.repo, Base(run), Range(g.repo, Base(run), g.repo.branches[run.branch.value]))
    ensures TipKeeps(Regrown(g, trees), run, path)
  {
    hide Correlate, Files, Within, Permitted, ParseSha, Ancestors, Range;
    var t := Regrown(g, trees);
    RegrownFaithful(g, run, trees);
    AcceptedShape(t, run, env);
    assert forall s <- t.repo.commits :: t.repo.commits[s].parents == g.repo.commits[s].parents;
    AcceptedStaysInScope(t, run, env, path);
  }

  /** Rewriting the scope's own file in every commit, and dropping `path` wherever a commit can, passes the gate. */
  lemma TellingAccepted(g: Git, run: RunRecord, env: Envelope, path: string, file: string)
    requires Faithful(g, run) && Correlate(g, run, env).Accepted?
    requires BaseAndTip(g, run) && Permitted(run).Yes? && file != path && Within(file, Permitted(run).paths)
    ensures AcceptedWith(g, run, env, Telling(g.repo, Base(run), file, path))
  {
    hide Files, Within, Permitted, ParseSha, Ancestors, Correlate, Older, Identity, Contained;
    var (base, tip) := (Base(run), g.repo.branches[run.branch.value]);
    var trees := Telling(g.repo, base, file, path);
    var t := Regrown(g, trees);
    AcceptedShape(g, run, env);
    RegrownFaithful(g, run, trees);
    AcceptsExactly(g, run, env);
    forall s | s in t.listing.value
      ensures Fit(t.repo, s, run.claimedSecond, Permitted(run).paths)
    {
      assert s != base by { BaseIsOld(g.repo, base); }
      TellingFiles(g.repo, base, s, file, path);
    }
    ReplantedAncestors(g.repo, trees, tip);
    AcceptsExactly(t, run, env);
  }

  lemma BaseIsOld(r: Repo, base: Sha)
    requires WellFormed(r) && base in r.commits
    ensures base in Ancestors(r, base)
  {
  }

  lemma OlderTipDiffers(g: Git, run: RunRecord, path: string, file: string)
    requires Faithful(g, run) && BaseAndTip(g, run) && file != path &&
      g.repo.branches[run.branch.value] in g.repo.commits
    requires Older(g.repo, Base(run), g.repo.branches[run.branch.value])
    ensures !TipKeeps(Regrown(g, Telling(g.repo, Base(run), file, path)), run, path)
  {
    hide ParseSha;
    var (base, tip) := (Base(run), g.repo.branches[run.branch.value]);
    assert !Older(g.repo, base, base);
    hide Older;
    TellingContent(g.repo, base, tip, file, path, path);
    TellingContent(g.repo, base, base, file, path, path);
  }

  /** Exactly when acceptance keeps a path outside the scope as it was, whatever the commits contain: when
      every contributed commit has parents and each is contributed or the base. */
  lemma ScopeKeptExactly(g: Git, run: RunRecord, env: Envelope, path: string)
    requires Faithful(g, run) && Correlate(g, run, env).Accepted? && Outside(run, path)
    requires BaseAndTip(g, run) && g.repo.branches[run.branch.value] in g.repo.commits
    ensures (forall trees :: AcceptedWith(g, run, env, trees) ==> TipKeeps(Regrown(g, trees), run, path))
      <==> Grounded(g.repo, Base(run), Range(g.repo, Base(run), g.repo.branches[run.branch.value]))
  {
    hide Correlate, Files, Within, Permitted, ParseSha, Ancestors, Range, Grounded, TipKeeps;
    var (base, tip) := (Base(run), g.repo.branches[run.branch.value]);
    AcceptedShape(g, run, env);
    if Grounded(g.repo, base, Range(g.repo, base, tip)) {
      forall trees | AcceptedWith(g, run, env, trees)
        ensures TipKeeps(Regrown(g, trees), run, path)
      {
        GroundedKeeps(g, run, env, path, trees);
      }
    } else {
      UngroundedIsOlder(g.repo, base, tip);
      var file := PermittedFile(run);
      OutsideExactly(run, path);
      TellingAccepted(g, run, env, path, file);
      OlderTipDiffers(g, run, path, file);
    }
  }

  lemma PermittedFile(run: RunRecord) returns (file: string)
    requires Permitted(run).Yes?
    ensures Within(file, Permitted(run).paths)
  {
    hide Normalize;
    var paths := Permitted(run).paths;
    file := paths[0];
    assert file in paths;
    assert Inside(file, paths[0]);
  }

  // ---- A merge the gate accepts ----

  /** An object name of forty equal digits. */
  function Name(c: char): string {
    seq(40, i => c)
  }

  lemma {:induction false} HexIsLower(text: string)
    requires Hex(text)
    ensures Lower(text) == text
  {
    if text != [] {
      assert text[0] in text && forall c <- text[1..] :: c in text;
      HexIsLower(text[1..]);
    }
  }

  lemma NameParses(c: char)
    requires '0' <= c <= '9'
    ensures ParseSha(Name(c)) == Some(Sha(Name(c)))
  {
    var text := Name(c);
    assert text[0] == c && text[39] == c && Hex(text);
    HexIsLower(text);
  }

  /** A run on the merge's branch that may change `file` only. */
  function MergeRun(base: string, file: string): RunRecord {
    RunRecord(1, 2, Some(3), Some(Clean), true, Some("work"), 0, [file], None, Some(base), Some("tree"))
  }

  function MergeReport(tip: string): Envelope {
    Envelope(Some(1), Some(2), Some(3), Some(tip), None)
  }

  lemma FourNames()
    ensures Four(Sha(Name('0')), Sha(Name('1')), Sha(Name('2')), Sha(Name('3')))
  {
    assert Name('0')[0] == '0' && Name('1')[0] == '1' && Name('2')[0] == '2' && Name('3')[0] == '3';
  }

  lemma LetterNormalizes(c: char)
    requires Letter(c)
    ensures Normalize([c]) == Some([c])
  {
    var text := [c];
    assert Strip(text) == text;
    assert Slashes(text) == text;
    SplitPlain(text);
    assert Keep([text]) == Some([text]);
  }

  lemma OnlyItself(c: char, d: char)
    requires Letter(c) && Letter(d) && c != d
    ensures Within([c], [[c]]) && !Within([d], [[c]])
  {
    LetterNormalizes(c);
    LetterNormalizes(d);
    hide Normalize;
    assert [[c]][0] == [c] && [d][0] != [c][0];
    assert Inside([c], [[c]][0]);
  }

  lemma MayChangeOnly(base: string, c: char)
    requires Letter(c)
    ensures Permitted(MergeRun(base, [c])) == Yes([[c]])
  {
    LetterNormalizes(c);
    hide Normalize;
  }

  lemma MergeFit(r: Repo, s: Sha, file: string)
    requires WellFormed(r) && s in r.commits && Files(r, s) == {file} && Within(file, [file])
    requires r.commits[s].time.Some? && r.commits[s].time.value > 0
    requires r.commits[s].signedOff == Some(true) && r.commits[s].listable
    ensures Fit(r, s, 0, [file])
  {
    hide WellFormed, Files, Within;
  }

  /** A branch that adds two commits to its base, each changing only the permitted file. */
  ghost predicate TwoCommits(r: Repo, b: Sha, c: Sha, d: Sha, file: string) {
    && WellFormed(r) && b in r.commits && c in r.commits && d in r.commits
    && "work" in r.branches && r.branches["work"] == d
    && b in Ancestors(r, d) && Range(r, b, d) == {c, d} && Files(r, c) == {file} && Files(r, d) == {file}
    && Plausible(r.commits[c]) && Plausible(r.commits[d])
  }

  predicate Plausible(c: Commit) {
    c.time.Some? && c.time.value > 0 && c.signedOff == Some(true) && c.listable
  }

  lemma MergeIsTwoCommits(a: Sha, b: Sha, c: Sha, d: Sha, path: string, file: string)
    requires Four(a, b, c, d) && file != path
    ensures TwoCommits(MergeRepo(a, b, c, d, path, file), b, c, d, file)
  {
    MergeMayKeepOlderContent(a, b, c, d, path, file);
    hide WellFormed, Ancestors, Files, Range;
  }

  lemma TwoCommitsInOrder(r: Repo, b: Sha, c: Sha, d: Sha, base: string, file: string)
    requires TwoCommits(r, b, c, d, file) && ParseSha(base) == Some(b)
    requires Permitted(MergeRun(base, file)) == Yes([file])
    ensures var g := Git(r, Some([d, c]));
      Faithful(g, MergeRun(base, file)) && RunLevel(g, MergeRun(base, file)) && BaseAndTip(g, MergeRun(base, file))
  {
    hide ParseSha, Ancestors, Files, Permitted, WellFormed, Range;
    var g := Git(r, Some([d, c]));
    assert forall s :: s in g.listing.value <==> s in Range(r, b, d);
  }

  lemma TwoCommitsAccepted(r: Repo, b: Sha, c: Sha, d: Sha, base: string, tip: string, file: string)
    requires TwoCommits(r, b, c, d, file) && ParseSha(base) == Some(b) && ParseSha(tip) == Some(d) && tip != ""
    requires Within(file, [file]) && Permitted(MergeRun(base, file)) == Yes([file])
    ensures var g := Git(r, Some([d, c]));
      && Faithful(g, MergeRun(base, file)) && BaseAndTip(g, MergeRun(base, file))
      && Correlate(g, MergeRun(base, file), MergeReport(tip)).Accepted?
  {
    TwoCommitsInOrder(r, b, c, d, base, file);
    MergeFit(r, c, file);
    MergeFit(r, d, file);
    hide ParseSha, Ancestors, Files, Within, Permitted, WellFormed, Correlate, RunLevel, Faithful, Fit, BaseAndTip,
      TwoCommits;
    AcceptsExactly(Git(r, Some([d, c])), MergeRun(base, file), MergeReport(tip));
  }

  /** The gate accepts a merge whose commits list only the permitted path, and whose tip reads another path as
      the base's own parent did. */
  lemma AcceptedMergeReadsOlder() returns (g: Git, run: RunRecord, env: Envelope, path: string)
    ensures Faithful(g, run) && Correlate(g, run, env).Accepted?
    ensures Outside(run, path)
    ensures BaseAndTip(g, run) && g.repo.branches[run.branch.value] in g.repo.commits && !TipKeeps(g, run, path)
  {
    FourNames();
    NameParses('1');
    NameParses('3');
    OnlyItself('s', 'q');
    MayChangeOnly(Name('1'), 's');
    assert "q" != "s" by { assert "q"[0] != "s"[0]; }
    var (a, b, c, d) := (Sha(Name('0')), Sha(Name('1')), Sha(Name('2')), Sha(Name('3')));
    var r := MergeRepo(a, b, c, d, "q", "s");
    MergeIsTwoCommits(a, b, c, d, "q", "s");
    MergeMayKeepOlderContent(a, b, c, d, "q", "s");
    hide ParseSha, Within, Permitted, Correlate, Name, MergeRepo, Faithful, Ancestors, Files;
    TwoCommitsAccepted(r, b, c, d, Name('1'), Name('3'), "s");
    g, run := Git(r, Some([d, c])), MergeRun(Name('1'), "s");
    env, path := MergeReport(Name('3')), "q";
    OutsideExactly(run, path);
  }
}
