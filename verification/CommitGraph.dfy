/** Git as an immutable commit graph with a tree per commit: ancestry, the range a branch adds to a
    base, and the files a commit is shown to change. */
module CommitGraph {
  import opened Prelude
  import opened RepoPath

  /** An object name: forty lower-case hex digits. */
  datatype Sha = Sha(hex: string)

  type Blob = nat

  /** What git answers about a commit; None or false where it cannot read the answer. */
  datatype Commit = Commit(
    parents: seq<Sha>, tree: map<string, Blob>, time: Option<nat>, signedOff: Option<bool>, listable: bool)

  /** `depth` is a generation number: it witnesses that no commit is its own ancestor. */
  datatype Repo = Repo(commits: map<Sha, Commit>, depth: map<Sha, nat>, branches: map<string, Sha>)

  ghost predicate WellFormed(r: Repo) {
    && r.depth.Keys == r.commits.Keys
    && (forall s <- r.commits, p <- r.commits[s].parents :: p in r.commits && r.depth[p] < r.depth[s])
    && (forall b <- r.branches :: r.branches[b] in r.commits)
  }

  function Ancestors(r: Repo, s: Sha): (a: set<Sha>)
    requires WellFormed(r) && s in r.commits
    ensures s in a && a <= r.commits.Keys
    ensures forall x <- a :: x == s || r.depth[x] < r.depth[s]
    decreases r.depth[s]
  {
    {s} + set p, x | p in r.commits[s].parents && x in Ancestors(r, p) :: x
  }

  /** base..tip: the commits reachable from the tip and not from the base. */
  function Range(r: Repo, base: Sha, tip: Sha): set<Sha>
    requires WellFormed(r) && base in r.commits && tip in r.commits
  {
    Ancestors(r, tip) - Ancestors(r, base)
  }

  lemma AncestorsStep(r: Repo, a: Sha, b: Sha)
    requires WellFormed(r) && b in r.commits
    ensures a in Ancestors(r, b) <==>
      a == b || exists p <- r.commits[b].parents :: p in r.commits && a in Ancestors(r, p)
  {
  }

  lemma {:induction false} AncestorsNest(r: Repo, a: Sha, b: Sha)
    requires WellFormed(r) && b in r.commits && a in Ancestors(r, b)
    ensures Ancestors(r, a) <= Ancestors(r, b)
    decreases r.depth[b]
  {
    if a != b {
      AncestorsStep(r, a, b);
      var p :| p in r.commits[b].parents && p in r.commits && a in Ancestors(r, p);
      AncestorsNest(r, a, p);
      forall x | x in Ancestors(r, a) ensures x in Ancestors(r, b) { AncestorsStep(r, x, b); }
    }
  }

  lemma ParentIsAncestor(r: Repo, s: Sha, p: Sha, tip: Sha)
    requires WellFormed(r) && tip in r.commits && s in Ancestors(r, tip) && p in r.commits[s].parents
    ensures p in Ancestors(r, tip) && r.depth[p] < r.depth[s]
  {
    hide Ancestors;
    AncestorsNest(r, s, tip);
    AncestorsStep(r, p, s);
  }

  function Content(c: Commit, path: string): Option<Blob> {
    if path in c.tree then Some(c.tree[path]) else None
  }

  /** `path` reads differently in `s` than in each of its parents. A root commit differs wherever it has a file. */
  predicate Changes(r: Repo, s: Sha, path: string)
    requires WellFormed(r) && s in r.commits
  {
    if r.commits[s].parents == [] then path in r.commits[s].tree
    else forall p <- r.commits[s].parents :: Content(r.commits[p], path) != Content(r.commits[s], path)
  }

  /** The paths `git show --name-only` lists: for a merge, those that differ from every parent. */
  function Files(r: Repo, s: Sha): (files: set<string>)
    requires WellFormed(r) && s in r.commits
    ensures forall path :: path in files <==> Changes(r, s, path)
  {
    var c := r.commits[s];
    if c.parents == [] then c.tree.Keys
    else
      var p := r.commits[c.parents[0]];
      assert forall path :: Changes(r, s, path) ==> Content(p, path) != Content(c, path);
      set path | path in c.tree.Keys + p.tree.Keys && Changes(r, s, path)
  }

  // ---- What unlisted paths keep ----

  /** Every commit of the range has a parent, and each of its parents is in the range or is the base: what
      a listing of the range with parents shows. */
  ghost predicate Grounded(r: Repo, base: Sha, range: set<Sha>) {
    forall s <- range :: s in r.commits && r.commits[s].parents != [] &&
      forall p <- r.commits[s].parents :: p in range || p == base
  }

  /** On a grounded range, merges included, a path no commit lists reads in every commit as at the base. */
  lemma {:induction false} UnlistedIsInherited(r: Repo, base: Sha, tip: Sha, s: Sha, path: string)
    requires WellFormed(r) && base in r.commits && tip in r.commits && Grounded(r, base, Range(r, base, tip))
    requires s == base || s in Range(r, base, tip)
    requires forall x <- Range(r, base, tip) :: path !in Files(r, x)
    ensures Content(r.commits[s], path) == Content(r.commits[base], path)
    decreases r.depth[s]
  {
    if s != base {
      hide Ancestors, Files;
      assert r.commits[s].parents != [] && !Changes(r, s, path);
      var p :| p in r.commits[s].parents && Content(r.commits[p], path) == Content(r.commits[s], path);
      UnlistedIsInherited(r, base, tip, p, path);
    }
  }

  // ---- Other trees on the same graph ----

  /** The same commits with other trees. */
  function Replanted(r: Repo, trees: map<Sha, map<string, Blob>>): Repo
    requires r.commits.Keys <= trees.Keys
  {
    r.(commits := map s | s in r.commits :: r.commits[s].(tree := trees[s]))
  }

  lemma ReplantedWellFormed(r: Repo, trees: map<Sha, map<string, Blob>>)
    requires WellFormed(r) && r.commits.Keys <= trees.Keys
    ensures WellFormed(Replanted(r, trees)) && Replanted(r, trees).commits.Keys == r.commits.Keys
  {
    var t := Replanted(r, trees);
    assert forall s <- r.commits :: t.commits[s].parents == r.commits[s].parents;
    assert t.commits.Keys == r.commits.Keys;
  }

  lemma {:induction false} ReplantedAncestors(r: Repo, trees: map<Sha, map<string, Blob>>, s: Sha)
    requires WellFormed(r) && r.commits.Keys <= trees.Keys && s in r.commits && WellFormed(Replanted(r, trees))
    ensures Ancestors(Replanted(r, trees), s) == Ancestors(r, s)
    decreases r.depth[s]
  {
    var t := Replanted(r, trees);
    forall p | p in r.commits[s].parents
      ensures Ancestors(t, p) == Ancestors(r, p)
    {
      ReplantedAncestors(r, trees, p);
    }
    hide Ancestors, WellFormed;
    forall a
      ensures a in Ancestors(t, s) <==> a in Ancestors(r, s)
    {
      AncestorsStep(r, a, s);
      AncestorsStep(t, a, s);
    }
  }

  /** `s` can take content from before the base without listing it: it is such a commit, has no parent, or
      has a parent that can. */
  predicate Older(r: Repo, base: Sha, s: Sha)
    requires WellFormed(r) && base in r.commits && s in r.commits
    decreases r.depth[s]
  {
    s != base &&
    (s in Ancestors(r, base) || r.commits[s].parents == [] || exists p <- r.commits[s].parents :: Older(r, base, p))
  }

  /** An ungrounded commit reaches the tip with older content. */
  lemma {:induction false} OlderRises(r: Repo, base: Sha, s: Sha, tip: Sha)
    requires WellFormed(r) && base in r.commits && tip in r.commits && s in Ancestors(r, tip)
    requires s !in Ancestors(r, base) && Older(r, base, s)
    ensures Older(r, base, tip)
    decreases r.depth[tip]
  {
    if s != tip {
      AncestorsStep(r, s, tip);
      var p :| p in r.commits[tip].parents && p in r.commits && s in Ancestors(r, p);
      OlderRises(r, base, s, p);
      if tip == base { assert false; }
    }
  }

  lemma UngroundedIsOlder(r: Repo, base: Sha, tip: Sha)
    requires WellFormed(r) && base in r.commits && tip in r.commits && !Grounded(r, base, Range(r, base, tip))
    ensures Older(r, base, tip)
  {
    var s :| s in Range(r, base, tip) && !(s in r.commits && r.commits[s].parents != [] &&
      forall p <- r.commits[s].parents :: p in Range(r, base, tip) || p == base);
    assert base in Ancestors(r, base);
    if r.commits[s].parents != [] {
      var p :| p in r.commits[s].parents && p !in Range(r, base, tip) && p != base;
      ParentIsAncestor(r, s, p, tip);
      assert p in Ancestors(r, base) && Older(r, base, p);
    }
    OlderRises(r, base, s, tip);
  }

  /** Trees in which every commit rewrites `file`, and `path` is present exactly where it is not older. */
  function Telling(r: Repo, base: Sha, file: string, path: string): map<Sha, map<string, Blob>>
    requires WellFormed(r) && base in r.commits
  {
    map s | s in r.commits ::
      if Older(r, base, s) then map[file := r.depth[s]] else map[file := r.depth[s], path := 0]
  }

  /** With those trees each commit outside the base's history lists just `file`. */
  lemma TellingFiles(r: Repo, base: Sha, s: Sha, file: string, path: string)
    requires WellFormed(r) && base in r.commits && file != path && s in r.commits
    requires s !in Ancestors(r, base) && s != base && WellFormed(Replanted(r, Telling(r, base, file, path)))
    ensures Files(Replanted(r, Telling(r, base, file, path)), s) == {file}
  {
    hide Ancestors, Older, Files, Changes, WellFormed;
    var files := Files(Replanted(r, Telling(r, base, file, path)), s);
    forall f
      ensures f in files <==> f == file
    {
      TellingChange(r, base, s, file, path, f);
    }
  }

  /** What a commit of those trees holds at `f`. */
  function Told(r: Repo, base: Sha, s: Sha, file: string, path: string, f: string): Option<Blob>
    requires WellFormed(r) && base in r.commits && s in r.commits
  {
    if f == file then Some(r.depth[s]) else if f == path && !Older(r, base, s) then Some(0) else None
  }

  lemma TellingContent(r: Repo, base: Sha, s: Sha, file: string, path: string, f: string)
    requires WellFormed(r) && base in r.commits && file != path && s in r.commits
    ensures s in Replanted(r, Telling(r, base, file, path)).commits
    ensures Content(Replanted(r, Telling(r, base, file, path)).commits[s], f) == Told(r, base, s, file, path, f)
  {
    hide Older, WellFormed;
  }

  lemma TellingChange(r: Repo, base: Sha, s: Sha, file: string, path: string, f: string)
    requires WellFormed(r) && base in r.commits && file != path && s in r.commits
    requires s !in Ancestors(r, base) && s != base && WellFormed(Replanted(r, Telling(r, base, file, path)))
    ensures Changes(Replanted(r, Telling(r, base, file, path)), s, f) <==> f == file
  {
    var t := Replanted(r, Telling(r, base, file, path));
    var parents := r.commits[s].parents;
    assert t.commits[s].parents == parents;
    assert forall p <- parents :: p in r.commits && r.depth[p] < r.depth[s];
    assert parents == [] ==> Older(r, base, s);
    hide Ancestors, Older, WellFormed, Telling, Replanted, Changes, Content;
    TellingContent(r, base, s, file, path, f);
    if parents == [] {
      RootChanges(t, s, f);
    } else if f == file {
      forall p | p in parents
        ensures p in t.commits && Content(t.commits[p], f) != Content(t.commits[s], f)
      {
        TellingContent(r, base, p, file, path, f);
      }
      DiffersFromAll(t, s, f);
    } else {
      var p := TellingParent(r, base, s);
      TellingContent(r, base, p, file, path, f);
      AgreesWithOne(t, s, f, p);
    }
  }

  lemma RootChanges(r: Repo, s: Sha, path: string)
    requires WellFormed(r) && s in r.commits && r.commits[s].parents == []
    ensures Changes(r, s, path) <==> Content(r.commits[s], path).Some?
  {
  }

  lemma DiffersFromAll(r: Repo, s: Sha, path: string)
    requires WellFormed(r) && s in r.commits && r.commits[s].parents != []
    requires forall p <- r.commits[s].parents ::
      p in r.commits && Content(r.commits[p], path) != Content(r.commits[s], path)
    ensures Changes(r, s, path)
  {
  }

  lemma AgreesWithOne(r: Repo, s: Sha, path: string, p: Sha)
    requires WellFormed(r) && s in r.commits && p in r.commits[s].parents && p in r.commits
    requires Content(r.commits[p], path) == Content(r.commits[s], path)
    ensures !Changes(r, s, path)
  {
  }

  /** A parent that is older exactly if the commit is. */
  lemma TellingParent(r: Repo, base: Sha, s: Sha) returns (p: Sha)
    requires WellFormed(r) && base in r.commits && s in r.commits && s !in Ancestors(r, base) && s != base
    requires r.commits[s].parents != []
    ensures p in r.commits[s].parents && (Older(r, base, s) <==> Older(r, base, p))
  {
    if Older(r, base, s) {
      p :| p in r.commits[s].parents && Older(r, base, p);
    } else {
      p := r.commits[s].parents[0];
    }
  }

  /** The content of `path` in `s` is the content some commit already contained in the base had. */
  ghost predicate OldContent(r: Repo, base: Sha, s: Sha, path: string)
    requires WellFormed(r) && base in r.commits && s in r.commits
  {
    exists a <- Ancestors(r, base) :: Content(r.commits[s], path) == Content(r.commits[a], path)
  }

  /** On any history it reads as it does in some commit the base already contained, or is absent
      because an unrelated root never had it. */
  lemma {:induction false} UnlistedHasOldContent(r: Repo, base: Sha, tip: Sha, s: Sha, path: string)
    requires WellFormed(r) && base in r.commits && tip in r.commits && s in r.commits && s in Ancestors(r, tip)
    requires forall x <- Range(r, base, tip) :: path !in Files(r, x)
    ensures Content(r.commits[s], path).None? || OldContent(r, base, s, path)
    decreases r.depth[s]
  {
    hide Ancestors, Files;
    if s !in Ancestors(r, base) {
      assert s in Range(r, base, tip) && !Changes(r, s, path);
      if r.commits[s].parents != [] {
        var p :| p in r.commits[s].parents && Content(r.commits[p], path) == Content(r.commits[s], path);
        ParentIsAncestor(r, s, p, tip);
        UnlistedHasOldContent(r, base, tip, p, path);
      }
    }
  }

  // ---- With a merge the weaker statement is all there is ----

  /** a <- b <- c and a merge d of c and a, on a branch `work`. The merge takes `path` from a and changes
      `file`. */
  function MergeRepo(a: Sha, b: Sha, c: Sha, d: Sha, path: string, file: string): Repo {
    Repo(map[a := Commit([], map[path := 1, file := 1], Some(1), Some(true), true),
             b := Commit([a], map[path := 2, file := 1], Some(2), Some(true), true),
             c := Commit([b], map[path := 2, file := 2], Some(3), Some(true), true),
             d := Commit([c, a], map[path := 1, file := 3], Some(4), Some(true), true)],
         map[a := 0, b := 1, c := 2, d := 3], map["work" := d])
  }

  predicate Four(a: Sha, b: Sha, c: Sha, d: Sha) {
    a != b && a != c && a != d && b != c && b != d && c != d
  }

  lemma MergeWellFormed(a: Sha, b: Sha, c: Sha, d: Sha, path: string, file: string)
    requires Four(a, b, c, d)
    ensures WellFormed(MergeRepo(a, b, c, d, path, file))
  {
  }

  lemma AncestorsBy(r: Repo, x: Sha, s: Sha, p: Sha, q: Sha)
    requires WellFormed(r) && s in r.commits && (r.commits[s].parents == [p] || r.commits[s].parents == [p, q])
    requires p in r.commits && q in r.commits
    ensures x in Ancestors(r, s) <==>
      x == s || x in Ancestors(r, p) || (|r.commits[s].parents| == 2 && x in Ancestors(r, q))
  {
    hide Ancestors;
    AncestorsStep(r, x, s);
    var parents := r.commits[s].parents;
    assert parents[0] == p && p in parents && (|parents| == 2 ==> parents[1] == q && q in parents);
  }

  lemma MergeAncestors(a: Sha, b: Sha, c: Sha, d: Sha, path: string, file: string, x: Sha)
    requires Four(a, b, c, d) && WellFormed(MergeRepo(a, b, c, d, path, file))
    ensures var r := MergeRepo(a, b, c, d, path, file);
      (x in Ancestors(r, b) <==> x == a || x == b) && (x in Ancestors(r, d) <==> x == a || x == b || x == c || x == d)
  {
    var r := MergeRepo(a, b, c, d, path, file);
    assert r.commits[a].parents == [] && r.commits[b].parents == [a];
    assert r.commits[c].parents == [b] && r.commits[d].parents == [c, a];
    hide Ancestors, WellFormed, MergeRepo;
    AncestorsStep(r, x, a);
    AncestorsBy(r, x, b, a, a);
    AncestorsBy(r, x, c, b, b);
    AncestorsBy(r, x, d, c, a);
  }

  lemma MergeRange(a: Sha, b: Sha, c: Sha, d: Sha, path: string, file: string)
    requires Four(a, b, c, d) && WellFormed(MergeRepo(a, b, c, d, path, file))
    ensures var r := MergeRepo(a, b, c, d, path, file); b in Ancestors(r, d) && Range(r, b, d) == {c, d}
  {
    hide Ancestors, WellFormed;
    forall x { MergeAncestors(a, b, c, d, path, file, x); }
  }

  lemma SideChanges(a: Sha, b: Sha, c: Sha, d: Sha, path: string, file: string)
    requires Four(a, b, c, d) && file != path && WellFormed(MergeRepo(a, b, c, d, path, file))
    ensures Files(MergeRepo(a, b, c, d, path, file), c) == {file}
  {
    var r := MergeRepo(a, b, c, d, path, file);
    hide WellFormed;
    assert r.commits[c].parents == [b] && forall p :: p in r.commits[c].parents <==> p == b;
  }

  lemma MergedChanges(a: Sha, b: Sha, c: Sha, d: Sha, path: string, file: string)
    requires Four(a, b, c, d) && file != path && WellFormed(MergeRepo(a, b, c, d, path, file))
    ensures Files(MergeRepo(a, b, c, d, path, file), d) == {file}
  {
    var r := MergeRepo(a, b, c, d, path, file);
    hide WellFormed;
    assert r.commits[d].parents[0] == c && r.commits[d].parents[1] == a;
    assert c in r.commits[d].parents && a in r.commits[d].parents;
    assert forall p :: p in r.commits[d].parents <==> p == c || p == a;
  }

  /** No commit the branch adds lists `path`, and each lists something, yet the tip reads `path` as the
      base's own parent did, not as the base does. */
  lemma MergeMayKeepOlderContent(a: Sha, b: Sha, c: Sha, d: Sha, path: string, file: string)
    requires Four(a, b, c, d) && file != path
    ensures var r := MergeRepo(a, b, c, d, path, file);
      && WellFormed(r) && b in Ancestors(r, d) && Range(r, b, d) == {c, d}
      && Files(r, c) == {file} && Files(r, d) == {file}
      && Content(r.commits[d], path) == Content(r.commits[a], path) != Content(r.commits[b], path)
  {
    MergeWellFormed(a, b, c, d, path, file);
    hide WellFormed, Files, Ancestors, Range;
    MergeRange(a, b, c, d, path, file);
    SideChanges(a, b, c, d, path, file);
    MergedChanges(a, b, c, d, path, file);
  }
}
