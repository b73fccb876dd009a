/** Repository-relative paths: what normalisation returns, and what being inside a permitted path
    means segment by segment. Only ASCII white space is stripped. */
module RepoPath {
  import opened Prelude

  predicate Space(c: char) {
    c == ' ' || '\t' <= c <= '\r' || 28 as char <= c <= 31 as char
  }

  function StripLeft(s: string): string {
    if s != [] && Space(s[0]) then StripLeft(s[1..]) else s
  }

  function StripRight(s: string): string {
    if s != [] && Space(s[|s| - 1]) then StripRight(s[..|s| - 1]) else s
  }

  function Strip(s: string): string {
    StripRight(StripLeft(s))
  }

  /** Backslashes read as slashes. */
  function Slashes(s: string): (t: string)
    ensures |t| == |s| && forall i :: 0 <= i < |s| ==> t[i] == if s[i] == '\\' then '/' else s[i]
  {
    if s == [] then [] else [if s[0] == '\\' then '/' else s[0]] + Slashes(s[1..])
  }

  /** The pieces between slashes; never empty. */
  function Split(s: string): (parts: seq<string>)
    ensures parts != []
  {
    if s == [] then [""]
    else
      var rest := Split(s[1..]);
      if s[0] == '/' then [""] + rest else [[s[0]] + rest[0]] + rest[1..]
  }

  function Join(parts: seq<string>): string {
    if parts == [] then ""
    else if |parts| == 1 then parts[0]
    else parts[0] + "/" + Join(parts[1..])
  }

  predicate Letter(c: char) {
    'a' <= c <= 'z' || 'A' <= c <= 'Z'
  }

  predicate Rooted(s: string) {
    (s != [] && s[0] == '/') || (|s| >= 2 && Letter(s[0]) && s[1] == ':')
  }

  /** The pieces kept: empty ones and "." dropped; None as soon as ".." appears. */
  function Keep(parts: seq<string>): (r: Option<seq<string>>)
    ensures r.Some? <==> ".." !in parts
    ensures r.Some? ==> forall p <- r.value :: p in parts && p != "" && p != "." && p != ".."
  {
    if parts == [] then Some([])
    else if parts[0] == "" || parts[0] == "." then Keep(parts[1..])
    else if parts[0] == ".." then None
    else
      match Keep(parts[1..])
      case None => None
      case Some(rest) => Some([parts[0]] + rest)
  }

  /** The segments of a usable path, or None. */
  function Segments(path: string): Option<seq<string>> {
    var candidate := Slashes(Strip(path));
    if candidate == "" || Rooted(candidate) then None
    else match Keep(Split(candidate))
      case None => None
      case Some(segments) => if segments == [] then None else Some(segments)
  }

  function Normalize(path: string): Option<string> {
    match Segments(path)
    case None => None
    case Some(segments) => Some(Join(segments))
  }

  ghost function Appended(segments: seq<string>, rest: Option<seq<string>>): Option<seq<string>> {
    if rest.None? then None else Some(segments + rest.value)
  }

  method NormalizeRepoPath(path: string) returns (r: Option<string>)
    ensures r == Normalize(path)
  {
    var stripped := Strip(path);
    if stripped == "" {
      return None;
    }
    var candidate := Slashes(stripped);
    if Rooted(candidate) {
      return None;
    }
    var parts := Split(candidate);
    var segments: seq<string> := [];
    assert Keep(parts) == Appended([], Keep(parts[0..])) by {
      assert parts[0..] == parts && (Keep(parts).Some? ==> [] + Keep(parts).value == Keep(parts).value);
    }
    for i := 0 to |parts|
      invariant Keep(parts) == Appended(segments, Keep(parts[i..]))
    {
      assert parts[i..][0] == parts[i] && parts[i..][1..] == parts[i + 1..];
      if parts[i] == "" || parts[i] == "." {
        continue;
      }
      if parts[i] == ".." {
        return None;
      }
      assert Keep(parts[i + 1..]).Some? ==>
        segments + ([parts[i]] + Keep(parts[i + 1..]).value) == (segments + [parts[i]]) + Keep(parts[i + 1..]).value;
      segments := segments + [parts[i]];
    }
    assert parts[|parts|..] == [];
    assert segments + [] == segments;
    if segments == [] {
      return None;
    }
    return Some(Join(segments));
  }

  // ---- Joining and splitting undo each other ----

  predicate Plain(segment: string) {
    '/' !in segment
  }

  lemma {:induction false} SplitPlain(s: string)
    ensures forall p <- Split(s) :: Plain(p)
    ensures Plain(s) ==> Split(s) == [s]
  {
    if s != [] {
      SplitPlain(s[1..]);
      var rest := Split(s[1..]);
      assert forall p <- rest[1..] :: p in rest;
      assert rest[0] in rest;
      assert s == [s[0]] + s[1..];
    }
  }

  lemma {:induction false} SplitAtSlash(a: string, b: string)
    ensures Split(a + "/" + b) == Split(a) + Split(b)
  {
    if a == [] {
      assert ("" + "/" + b)[1..] == b;
    } else {
      assert (a + "/" + b)[1..] == a[1..] + "/" + b;
      SplitAtSlash(a[1..], b);
    }
  }

  lemma {:induction false} SplitJoin(parts: seq<string>)
    requires parts != [] && forall p <- parts :: Plain(p)
    ensures Split(Join(parts)) == parts
  {
    SplitPlain(parts[0]);
    if |parts| > 1 {
      SplitJoin(parts[1..]);
      SplitAtSlash(parts[0], Join(parts[1..]));
      assert parts == [parts[0]] + parts[1..];
    }
  }

  lemma {:induction false} JoinAppend(a: seq<string>, b: seq<string>)
    requires a != [] && b != []
    ensures Join(a + b) == Join(a) + "/" + Join(b)
  {
    assert (a + b)[0] == a[0] && (a + b)[1..] == a[1..] + b;
    if |a| == 1 {
      assert a[1..] + b == b;
    } else {
      JoinAppend(a[1..], b);
      assert Join(a + b) == a[0] + "/" + (Join(a[1..]) + "/" + Join(b));
    }
  }

  /** What comes out: at least one segment, none empty, "." or "..", none with a slash. */
  lemma NormalizedShape(path: string)
    requires Segments(path).Some?
    ensures var segments := Segments(path).value;
      && segments != []
      && Normalize(path) == Some(Join(segments))
      && Split(Join(segments)) == segments
      && forall p <- segments :: Plain(p) && p != "" && p != "." && p != ".."
  {
    var candidate := Slashes(Strip(path));
    SplitPlain(candidate);
    SplitJoin(Segments(path).value);
  }

  // ---- What comes out, told from the text alone ----

  /** The white space cut off at both ends, by code point. */
  predicate White(c: char) {
    c as int in {9, 10, 11, 12, 13, 28, 29, 30, 31, 32}
  }

  predicate Dropped(piece: string) {
    piece == "" || piece == "."
  }

  predicate DriveOrRoot(text: string) {
    || (text != "" && text[0] == '/')
    || (|text| >= 2 && ('A' <= text[0] <= 'Z' || 'a' <= text[0] <= 'z') && text[1] == ':')
  }

  /** `text` is what lies between the white space at both ends of `path`. */
  ghost predicate Cut(path: string, from: nat, text: string) {
    && from + |text| <= |path| && text == path[from..from + |text|]
    && (forall i :: 0 <= i < from || from + |text| <= i < |path| ==> White(path[i]))
    && (text != "" ==> !White(text[0]) && !White(text[|text| - 1]))
  }

  /** `kept` is `parts` at the places `at`, in order, and everything elsewhere is dropped. */
  ghost predicate Picks(parts: seq<string>, at: seq<nat>, kept: seq<string>) {
    && |at| == |kept|
    && (forall i :: 0 <= i < |at| ==> at[i] < |parts| && kept[i] == parts[at[i]] && !Dropped(kept[i]))
    && (forall i, j :: 0 <= i < j < |at| ==> at[i] < at[j])
    && (forall j :: 0 <= j < |parts| && j !in at ==> Dropped(parts[j]))
  }

  lemma {:induction false} StripLeftCuts(s: string) returns (from: nat)
    ensures from <= |s| && StripLeft(s) == s[from..] && forall i :: 0 <= i < from ==> White(s[i])
    ensures from < |s| ==> !White(s[from])
  {
    from := 0;
    if s != [] && Space(s[0]) {
      var rest := StripLeftCuts(s[1..]);
      from := rest + 1;
      assert forall i :: 0 < i < from ==> s[i] == s[1..][i - 1];
      assert s[1..][rest..] == s[from..];
    }
  }

  lemma {:induction false} StripRightCuts(s: string) returns (to: nat)
    ensures to <= |s| && StripRight(s) == s[..to] && forall i :: to <= i < |s| ==> White(s[i])
    ensures to > 0 ==> !White(s[to - 1])
  {
    to := |s|;
    if s != [] && Space(s[|s| - 1]) {
      to := StripRightCuts(s[..|s| - 1]);
    }
  }

  lemma StripCuts(path: string) returns (from: nat)
    ensures Cut(path, from, Strip(path))
  {
    from := StripLeftCuts(path);
    var rest := StripLeft(path);
    var to := StripRightCuts(rest);
    assert forall i :: 0 <= i < |rest| ==> rest[i] == path[from + i];
    assert forall i :: from + to <= i < |path| ==> path[i] == rest[i - from];
    assert Strip(path) == path[from..from + to];
  }

  lemma {:induction false} KeepLast(init: seq<string>, last: string)
    requires ".." !in init && last != ".."
    ensures Keep(init).Some?
    ensures Keep(init + [last]) == Some(Keep(init).value + if Dropped(last) then [] else [last])
  {
    if init == [] {
      var added := if Dropped(last) then [] else [last];
      assert init + [last] == [last] && [last][1..] == [] && Keep([]) == Some([]);
      assert [] + added == added && [last] + [] == [last];
    } else {
      assert init[0] in init && forall p <- init[1..] :: p in init;
      assert (init + [last])[1..] == init[1..] + [last];
      KeepLast(init[1..], last);
      var (kept, added) := (Keep(init[1..]).value, if Dropped(last) then [] else [last]);
      assert [init[0]] + (kept + added) == [init[0]] + kept + added;
      assert (init + [last])[0] == init[0];
    }
  }

  lemma PicksLast(init: seq<string>, last: string, at: seq<nat>, kept: seq<string>)
    requires Picks(init, at, kept)
    ensures if Dropped(last) then Picks(init + [last], at, kept) else Picks(init + [last], at + [|init|], kept + [last])
  {
    hide Dropped;
    assert |init| in at + [|init|] && forall j :: j in at ==> j in at + [|init|];
    assert forall j :: 0 <= j < |init| ==> (init + [last])[j] == init[j];
  }

  lemma KeepNothing()
    ensures Keep([]) == Some([]) && Picks([], [], [])
  {
  }

  lemma {:induction false} KeepPicks(parts: seq<string>) returns (at: seq<nat>)
    requires ".." !in parts
    ensures Keep(parts).Some? && Picks(parts, at, Keep(parts).value)
    decreases |parts|
  {
    hide Picks, Keep, Dropped;
    at := [];
    if parts == [] {
      KeepNothing();
    } else {
      var (init, last) := (parts[..|parts| - 1], parts[|parts| - 1]);
      assert last in parts && init + [last] == parts;
      at := KeepPicks(init);
      KeepLast(init, last);
      PicksLast(init, last, at, Keep(init).value);
      at := if Dropped(last) then at else at + [|init|];
      assert Keep(init).value + [] == Keep(init).value;
    }
  }

  lemma PicksAll(parts: seq<string>, at: seq<nat>, kept: seq<string>)
    requires Picks(parts, at, kept)
    ensures kept == [] <==> forall p <- parts :: Dropped(p)
  {
    if kept != [] { assert parts[at[0]] in parts; }
  }

  /** For every path: cut its white space, read backslashes as slashes, and split. There is no normal form exactly
      if that text is blank, rooted, has a ".." piece or nothing but dropped pieces; otherwise the normal form
      splits into exactly the other pieces, in order and none left out. */
  lemma NormalForm(path: string) returns (from: nat, cut: string, text: string, at: seq<nat>)
    ensures Cut(path, from, cut)
    ensures |text| == |cut| && forall i :: 0 <= i < |cut| ==> text[i] == if cut[i] == '\\' then '/' else cut[i]
    ensures Normalize(path).None? <==>
      cut == "" || DriveOrRoot(text) || ".." in Split(text) || forall p <- Split(text) :: Dropped(p)
    ensures Normalize(path).Some? ==> Picks(Split(text), at, Split(Normalize(path).value))
  {
    cut, at := Strip(path), [];
    from := StripCuts(path);
    text := Slashes(cut);
    hide StripLeft, StripRight, Split, Join;
    if ".." !in Split(text) {
      at := KeepPicks(Split(text));
      PicksAll(Split(text), at, Keep(Split(text)).value);
    }
    if Segments(path).Some? { NormalizedShape(path); }
  }

  /** The pieces of a text are the only plain ones that join to it. */
  lemma {:induction false} SplitExactly(s: string, parts: seq<string>)
    ensures Join(Split(s)) == s && forall p <- Split(s) :: Plain(p)
    ensures parts != [] && (forall p <- parts :: Plain(p)) && Join(parts) == s ==> parts == Split(s)
  {
    SplitPlain(s);
    JoinSplit(s);
    if parts != [] && (forall p <- parts :: Plain(p)) && Join(parts) == s { SplitJoin(parts); }
  }

  lemma {:induction false} JoinSplit(s: string)
    ensures Join(Split(s)) == s
  {
    if s != [] {
      JoinSplit(s[1..]);
      var rest := Split(s[1..]);
      assert s == [s[0]] + s[1..];
      if s[0] == '/' {
        assert ([""] + rest)[1..] == rest;
      } else {
        assert ([[s[0]] + rest[0]] + rest[1..])[1..] == rest[1..];
        assert |rest| > 1 ==> Join(rest) == rest[0] + "/" + Join(rest[1..]);
      }
    }
  }

  predicate Sturdy(s: string) {
    s != "" && !White(s[0]) && !White(s[|s| - 1]) && !DriveOrRoot(s)
  }

  lemma StripNone(s: string)
    requires s != "" ==> !White(s[0]) && !White(s[|s| - 1])
    ensures Strip(s) == s
  {
  }

  lemma {:induction false} SlashesNone(s: string)
    requires '\\' !in s
    ensures Slashes(s) == s
  {
    assert forall i :: 0 <= i < |s| ==> s[i] in s;
    assert forall i :: 0 <= i < |s| ==> Slashes(s)[i] == s[i];
  }

  lemma {:induction false} KeepNone(parts: seq<string>)
    requires forall p <- parts :: !Dropped(p) && p != ".."
    ensures Keep(parts) == Some(parts)
  {
    if parts != [] {
      assert parts[0] in parts && forall p <- parts[1..] :: p in parts;
      KeepNone(parts[1..]);
      assert parts == [parts[0]] + parts[1..];
    }
  }

  /** Usable pieces joined come back unchanged, unless their text has white space at an end or looks rooted. */
  lemma JoinedIsNormal(segments: seq<string>)
    requires segments != [] && forall p <- segments :: Plain(p) && !Dropped(p) && p != ".."
    requires Sturdy(Join(segments)) && '\\' !in Join(segments)
    ensures Normalize(Join(segments)) == Some(Join(segments))
  {
    StripNone(Join(segments));
    SlashesNone(Join(segments));
    SplitJoin(segments);
    KeepNone(segments);
  }

  lemma {:induction false} KeepShortens(parts: seq<string>)
    requires Keep(parts).Some?
    ensures |Join(Keep(parts).value)| <= |Join(parts)|
  {
    if parts != [] { KeepShortens(parts[1..]); }
  }

  lemma NoBackslash(path: string)
    requires Normalize(path).Some?
    ensures '\\' !in Normalize(path).value
  {
    hide Split, Join, StripLeft, StripRight;
    var text := Slashes(Strip(path));
    SplitExactly(text, Split(text));
    assert '\\' !in text;
    JoinChars(Split(text), '\\');
    JoinChars(Segments(path).value, '\\');
  }

  lemma {:induction false} JoinChars(parts: seq<string>, c: char)
    requires c != '/'
    ensures c in Join(parts) <==> exists p <- parts :: c in p
  {
    if |parts| > 1 {
      JoinChars(parts[1..], c);
      assert forall p :: p in parts <==> p == parts[0] || p in parts[1..];
    } else if |parts| == 1 {
      assert parts[0] in parts;
    }
  }

  /** Normalising once more changes nothing exactly if the normal form has no white space at its ends and does
      not look rooted. It can: see `DriveSurvives`. */
  lemma NormalizedTwice(path: string)
    requires Normalize(path).Some?
    ensures var p := Normalize(path).value; Normalize(p) == Some(p) <==> Sturdy(p)
  {
    var p := Normalize(path).value;
    hide Split, Join, StripLeft, StripRight;
    NormalizedShape(path);
    NoBackslash(path);
    if Sturdy(p) {
      JoinedIsNormal(Segments(path).value);
    } else if Normalize(p) == Some(p) {
      var from := StripCuts(p);
      SplitExactly(Slashes(Strip(p)), []);
      KeepShortens(Split(Slashes(Strip(p))));
      assert Strip(p) == p;
      SlashesNone(p);
      assert false;
    }
  }

  /** A leading "." piece hides a drive letter from the check, and the normal form then starts with it. */
  lemma DriveSurvives()
    ensures Normalize("./C:/x") == Some("C:/x") && Normalize("C:/x") == None
  {
    DriveSplit();
    DriveKept();
    StripNone("./C:/x");
    StripNone("C:/x");
    hide Strip, Slashes, Split, Keep, Join, Normalize;
    NormalizeKept("./C:/x", ["C:", "x"]);
    NormalizeRooted("C:/x");
  }

  lemma DriveSplit()
    ensures Split("./C:/x") == ["."] + (["C:"] + ["x"])
  {
    hide Split;
    assert "./C:/x" == "." + "/" + "C:/x" && "C:/x" == "C:" + "/" + "x";
    SplitAtSlash(".", "C:/x");
    SplitAtSlash("C:", "x");
    SplitPlain(".");
    SplitPlain("C:");
    SplitPlain("x");
  }

  lemma NormalizeKept(path: string, kept: seq<string>)
    requires Strip(path) == path && path != "" && '\\' !in path && !DriveOrRoot(path)
    requires Keep(Split(path)) == Some(kept) && kept != []
    ensures Normalize(path) == Some(Join(kept))
  {
    SlashesNone(path);
  }

  lemma NormalizeRooted(path: string)
    requires Strip(path) == path && '\\' !in path && DriveOrRoot(path)
    ensures Normalize(path) == None
  {
    SlashesNone(path);
  }

  lemma DriveKept()
    ensures Keep(["."] + (["C:"] + ["x"])) == Some(["C:", "x"]) && Join(["C:", "x"]) == "C:/x"
  {
    var rest := ["C:"] + ["x"];
    assert (["."] + rest)[1..] == rest && rest == ["C:", "x"];
    assert "C:"[0] == 'C' && "x"[0] == 'x';
    KeepNone(rest);
    assert ["C:", "x"][1..] == ["x"];
  }

  // ---- Being inside a permitted path ----

  /** `path` is `allowed` itself or below it, compared as text. */
  predicate TextInside(path: string, allowed: string) {
    path == allowed || allowed + "/" <= path
  }

  predicate Inside(path: string, allowed: string) {
    match (Normalize(path), Normalize(allowed))
    case (Some(p), Some(a)) => TextInside(p, a)
    case _ => false
  }

  predicate Within(path: string, permitted: seq<string>) {
    exists i :: 0 <= i < |permitted| && Inside(path, permitted[i])
  }

  method IsWithin(path: string, permitted: seq<string>) returns (inside: bool)
    ensures inside == Within(path, permitted)
  {
    var normalized := NormalizeRepoPath(path);
    if normalized.None? {
      return false;
    }
    for i := 0 to |permitted|
      invariant forall j :: 0 <= j < i ==> !Inside(path, permitted[j])
    {
      var allowed := NormalizeRepoPath(permitted[i]);
      if allowed.Some? && (normalized.value == allowed.value || allowed.value + "/" <= normalized.value) {
        return true;
      }
    }
    return false;
  }

  /** The text comparison is segment-list prefix containment: no sibling that merely shares leading
      characters is ever inside. */
  lemma InsideIsPrefix(path: string, allowed: string)
    ensures Inside(path, allowed) <==>
      && Normalize(path).Some? && Normalize(allowed).Some?
      && Split(Normalize(allowed).value) <= Split(Normalize(path).value)
  {
    hide Join, Split, Segments;
    if Segments(path).Some? && Segments(allowed).Some? {
      var (p, a) := (Segments(path).value, Segments(allowed).value);
      NormalizedShape(path);
      NormalizedShape(allowed);
      if Join(a) + "/" <= Join(p) {
        var rest := Join(p)[|Join(a)| + 1..];
        assert Join(p) == Join(a) + "/" + rest;
        SplitAtSlash(Join(a), rest);
        assert p == a + Split(rest);
      }
      if a <= p && a != p {
        assert p == a + p[|a|..];
        JoinAppend(a, p[|a|..]);
        assert Join(p) == Join(a) + "/" + Join(p[|a|..]);
      }
    }
  }
}
