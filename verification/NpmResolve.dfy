/** The npm dependency lookup, done by string surgery on lock-file paths: it tries the
    enclosing `node_modules` levels from the innermost outwards. */
module NpmResolve {
  import opened Text

  const HEAD: string := "node_modules/"
  const MARKER: string := "/node_modules/"

  /** `pat` stands in `s` at position `i`. */
  predicate StandsAt(s: string, i: nat, pat: string) {
    i + |pat| <= |s| && s[i..i + |pat|] == pat
  }

  /** Python's `pat in s`. */
  predicate Occurs(s: string, pat: string) { exists i | 0 <= i <= |s| :: StandsAt(s, i, pat) }

  /** Where `s.rsplit(pat, 1)` cuts: the last occurrence among the first `n` positions. */
  function LastBefore(s: string, pat: string, n: nat): (r: Option<nat>)
    ensures r.None? ==> forall i :: 0 <= i < n ==> !StandsAt(s, i, pat)
    ensures r.Some? ==> r.value < n && StandsAt(s, r.value, pat)
    ensures r.Some? ==> forall i :: r.value < i < n ==> !StandsAt(s, i, pat)
  {
    if n == 0 then None
    else if StandsAt(s, n - 1, pat) then Some(n - 1)
    else LastBefore(s, pat, n - 1)
  }

  function Last(s: string, pat: string): Option<nat> { LastBefore(s, pat, |s| + 1) }

  predicate StartsWith(s: string, pat: string) { StandsAt(s, 0, pat) }

  predicate EndsWith(s: string, pat: string) { |pat| <= |s| && s[|s| - |pat|..] == pat }

  function Candidate(cursor: string, dependency: string): string {
    if cursor != "" then cursor + MARKER + dependency else HEAD + dependency
  }

  /** The next enclosing level, as the loop computes it; `None` ends the search. */
  function Outward(cursor: string): (r: Option<string>)
    ensures r.Some? ==> |r.value| < |cursor|
  {
    var cut := Last(cursor, MARKER);
    if cut.Some? then Some(cursor[..cut.value])
    else if StartsWith(cursor, HEAD) then Some("")
    else None
  }

  /** `_resolve_npm_dependency` as a search outwards. */
  function Resolve(packages: set<string>, cursor: string, dependency: string): Option<string>
    decreases |cursor|
  {
    if Candidate(cursor, dependency) in packages then Some(Candidate(cursor, dependency))
    else
      match Outward(cursor)
      case None => None
      case Some(outer) => Resolve(packages, outer, dependency)
  }

  method ResolveNpmDependency(packages: set<string>, packagePath: string, dependency: string)
      returns (r: Option<string>)
    ensures r == Resolve(packages, packagePath, dependency)
  {
    var cursor := packagePath;
    while true
      invariant Resolve(packages, cursor, dependency) == Resolve(packages, packagePath, dependency)
      decreases |cursor|
    {
      var candidate := if cursor != "" then cursor + MARKER + dependency else HEAD + dependency;
      if candidate in packages { return Some(candidate); }
      var cut := Last(cursor, MARKER);
      if cut.Some? {
        cursor := cursor[..cut.value];
        continue;
      }
      if StartsWith(cursor, HEAD) {
        cursor := "";
        continue;
      }
      return None;
    }
  }

  // ---------------------------------------------------------------- paths as levels

  /** A package name: `foo` or `@scope/foo`, never passing through `node_modules` itself. */
  predicate LevelName(name: string) { !Occurs("/" + name, MARKER) }

  /** Where the levels start: the project root (empty) or a directory outside `node_modules`. */
  predicate Base(base: string) { !Occurs(base, MARKER) && !StartsWith(base, HEAD) }

  /** `base/node_modules/a1/node_modules/a2...`; below the root without the leading slash. */
  function PathOf(base: string, levels: seq<string>): string {
    if levels == [] then base
    else Candidate(PathOf(base, levels[..|levels| - 1]), levels[|levels| - 1])
  }

  /** The enclosing levels from the innermost outwards. */
  function Nearest(packages: set<string>, base: string, levels: seq<string>, dependency: string): Option<string> {
    if Candidate(PathOf(base, levels), dependency) in packages then Some(Candidate(PathOf(base, levels), dependency))
    else if levels == [] then None
    else Nearest(packages, base, levels[..|levels| - 1], dependency)
  }

  lemma StandsShift(a: string, b: string, i: nat, pat: string)
    ensures StandsAt(a + b, |a| + i, pat) == StandsAt(b, i, pat)
  {
    if i + |pat| <= |b| { assert (a + b)[|a| + i..|a| + i + |pat|] == b[i..i + |pat|]; }
  }

  lemma FirstCharacter(s: string, i: nat, pat: string)
    requires pat != "" && i < |s|
    ensures StandsAt(s, i, pat) ==> s[i] == pat[0]
  {
    if StandsAt(s, i, pat) { assert s[i..i + |pat|][0] == s[i]; }
  }

  lemma MarkerStands(cursor: string, name: string)
    ensures StandsAt(cursor + MARKER + name, |cursor|, MARKER)
  {
    assert (cursor + MARKER + name)[|cursor|..|cursor| + |MARKER|] == MARKER;
  }

  /** The marker starts with a slash and has no other before its last character. */
  lemma NoOverlap(d: nat)
    requires 0 < d < |MARKER| - 1
    ensures MARKER[d] != '/'
  {
  }

  lemma NoMarkerLater(cursor: string, name: string, i: nat)
    requires LevelName(name) && |cursor| < i <= |cursor + MARKER + name|
    ensures !StandsAt(cursor + MARKER + name, i, MARKER)
  {
    var s := cursor + MARKER + name;
    var front := cursor + MARKER[..|MARKER| - 1];
    if i < |front| {
      NoOverlap(i - |cursor|);
      assert s[i] == MARKER[i - |cursor|];
      FirstCharacter(s, i, MARKER);
    } else {
      assert s == front + ("/" + name);
      StandsShift(front, "/" + name, i - |front|, MARKER);
    }
  }

  lemma NoMarkerInHead(name: string, i: nat)
    requires LevelName(name) && i <= |HEAD + name|
    ensures !StandsAt(HEAD + name, i, MARKER)
  {
    var s := HEAD + name;
    var front := HEAD[..|HEAD| - 1];
    if i < |front| {
      NoOverlap(i + 1);
      assert s[i] == MARKER[i + 1];
      FirstCharacter(s, i, MARKER);
    } else {
      assert s == front + ("/" + name);
      StandsShift(front, "/" + name, i - |front|, MARKER);
    }
  }

  /** Cutting at the last marker undoes appending a level. */
  lemma OutwardUndoes(cursor: string, name: string)
    requires LevelName(name)
    ensures Outward(Candidate(cursor, name)) == Some(cursor)
  {
    var s := Candidate(cursor, name);
    if cursor != "" {
      MarkerStands(cursor, name);
      forall i | |cursor| < i <= |s| ensures !StandsAt(s, i, MARKER) { NoMarkerLater(cursor, name, i); }
      assert s[..|cursor|] == cursor;
    } else {
      forall i | 0 <= i <= |s| ensures !StandsAt(s, i, MARKER) { NoMarkerInHead(name, i); }
      assert s[0..|HEAD|] == HEAD;
    }
  }

  /** The string loop visits exactly the enclosing levels of the path, innermost first. */
  lemma {:induction false} ResolveIsNearest(packages: set<string>, base: string, levels: seq<string>, dependency: string)
    requires Base(base) && forall name :: name in levels ==> LevelName(name)
    ensures Resolve(packages, PathOf(base, levels), dependency) == Nearest(packages, base, levels, dependency)
  {
    if levels == [] {
    } else {
      var init, name := levels[..|levels| - 1], levels[|levels| - 1];
      OutwardUndoes(PathOf(base, init), name);
      ResolveIsNearest(packages, base, init, dependency);
    }
  }

  /** The candidate at the deepest level that has it, and nothing only if no level has it. */
  lemma {:induction false} NearestIsDeepest(packages: set<string>, base: string, levels: seq<string>, dependency: string)
      returns (k: nat)
    ensures k <= |levels|
    ensures var r := Nearest(packages, base, levels, dependency);
      && (r.Some? ==>
            && r.value == Candidate(PathOf(base, levels[..k]), dependency) && r.value in packages
            && forall j | k < j <= |levels| :: Candidate(PathOf(base, levels[..j]), dependency) !in packages)
      && (r.None? <==> forall j | 0 <= j <= |levels| :: Candidate(PathOf(base, levels[..j]), dependency) !in packages)
  {
    assert levels[..|levels|] == levels;
    if Candidate(PathOf(base, levels), dependency) in packages {
      k := |levels|;
    } else if levels == [] {
      k := 0;
    } else {
      var init := levels[..|levels| - 1];
      k := NearestIsDeepest(packages, base, init, dependency);
      assert forall j | 0 <= j <= |init| :: init[..j] == levels[..j];
    }
  }

  lemma NoLaterMarker(path: string, from: nat)
    requires from <= |path| && forall i :: from <= i <= |path| ==> !StandsAt(path, i, MARKER)
    ensures !Occurs(path[from..], MARKER)
  {
    forall i | 0 <= i <= |path[from..]| ensures !StandsAt(path[from..], i, MARKER) {
      assert path == path[..from] + path[from..];
      StandsShift(path[..from], path[from..], i, MARKER);
    }
  }

  lemma FrontStarts(front: string, rest: string, pat: string)
    ensures StartsWith(front, pat) ==> StartsWith(front + rest, pat)
  {
    if StartsWith(front, pat) { assert (front + rest)[0..|pat|] == front[0..|pat|]; }
  }

  /** What is behind the last marker is a level. */
  lemma LastLevel(path: string) returns (outer: string, name: string)
    requires Last(path, MARKER).Some?
    ensures path == outer + MARKER + name && outer == path[..|outer|] && |outer| < |path| && LevelName(name)
    ensures StartsWith(outer, MARKER) ==> StartsWith(path, MARKER)
  {
    var cut := Last(path, MARKER).value;
    outer, name := path[..cut], path[cut + |MARKER|..];
    assert path == outer + MARKER + name == outer + (MARKER + name);
    FrontStarts(outer, MARKER + name, MARKER);
    NoLaterMarker(path, cut + |MARKER| - 1);
    assert path[cut + |MARKER| - 1..] == "/" + name;
  }

  lemma OneLevel(path: string) returns (name: string)
    requires Last(path, MARKER).None? && StartsWith(path, HEAD)
    ensures path == HEAD + name && LevelName(name)
  {
    name := path[|HEAD|..];
    assert path == HEAD + name && path[|HEAD| - 1..] == "/" + name;
    NoLaterMarker(path, |HEAD| - 1);
  }

  /** Every lock-file path is a base with levels, so the lookup is known for all of them. */
  lemma {:induction false} EveryPathHasLevels(path: string) returns (base: string, levels: seq<string>)
    requires !StartsWith(path, MARKER)
    ensures Base(base) && (forall name :: name in levels ==> LevelName(name))
    ensures PathOf(base, levels) == path
    decreases |path|
  {
    if Last(path, MARKER).Some? {
      var outer, name := LastLevel(path);
      base, levels := EveryPathHasLevels(outer);
      assert (levels + [name])[..|levels|] == levels;
      levels := levels + [name];
    } else if StartsWith(path, HEAD) {
      var name := OneLevel(path);
      base, levels := "", [name];
      assert levels[..0] == [];
      assert !Occurs("", MARKER);
    } else {
      base, levels := path, [];
    }
  }

  lemma LongerThanRoot(cursor: string, dependency: string)
    requires cursor != ""
    ensures Candidate(cursor, dependency) != HEAD + dependency
  {
    assert |Candidate(cursor, dependency)| > |HEAD + dependency|;
  }

  lemma {:induction false} NearestMissesRoot(packages: set<string>, base: string, levels: seq<string>, dependency: string)
    requires base != "" && Nearest(packages, base, levels, dependency) == None
    ensures Nearest(packages + {HEAD + dependency}, base, levels, dependency) == None
  {
    LongerThanRoot(PathOf(base, levels), dependency);
    if levels != [] { NearestMissesRoot(packages, base, levels[..|levels| - 1], dependency); }
  }

  /** A path below a directory outside `node_modules` (a workspace, say) stops at that base: a
      package that only the project root has is not found, unlike in Node's own lookup. */
  lemma WorkspaceMissesRoot(packages: set<string>, base: string, levels: seq<string>, dependency: string)
    requires Base(base) && base != "" && forall name :: name in levels ==> LevelName(name)
    requires Resolve(packages, PathOf(base, levels), dependency) == None
    ensures Resolve(packages + {HEAD + dependency}, PathOf(base, levels), dependency) == None
  {
    ResolveIsNearest(packages, base, levels, dependency);
    ResolveIsNearest(packages + {HEAD + dependency}, base, levels, dependency);
    NearestMissesRoot(packages, base, levels, dependency);
  }

  lemma TooShort(s: string, pat: string)
    requires |s| < |pat|
    ensures !Occurs(s, pat) && Last(s, pat).None?
  {
  }

  // ---------------------------------------------------------------- the recovered name

  /** `_npm_name_from_lock_path`. */
  function NameFromLockPath(path: string): Result<string> {
    match Last(path, HEAD)
    case None => Rejected
    case Some(i) =>
      var name := path[i + |HEAD|..];
      if name == "" || EndsWith(name, "/node_modules") then Rejected else Ok(name)
  }

  lemma HeadStandsOnce(front: string, name: string, i: nat)
    requires |front| < i <= |front + HEAD + name|
    ensures StandsAt(front + HEAD + name, i, HEAD) <==>
              i >= |front| + |HEAD| && StandsAt(name, i - |front| - |HEAD|, HEAD)
  {
    var s := front + HEAD + name;
    if i < |front| + |HEAD| {
      assert s[i] == HEAD[i - |front|] && HEAD[i - |front|] != HEAD[0];
      FirstCharacter(s, i, HEAD);
    } else {
      StandsShift(front + HEAD, name, i - |front| - |HEAD|, HEAD);
    }
  }

  /** The last `node_modules/` of a candidate is the one before the dependency, unless the
      dependency itself contains another. */
  lemma LastHead(front: string, name: string)
    ensures var cut := Last(front + HEAD + name, HEAD);
            cut.Some? && |front| <= cut.value && (cut.value == |front| <==> !Occurs(name, HEAD))
  {
    var path := front + HEAD + name;
    assert path[|front|..|front| + |HEAD|] == HEAD;
    assert StandsAt(path, |front|, HEAD);
    var cut := Last(path, HEAD).value;
    if Occurs(name, HEAD) {
      var i :| 0 <= i <= |name| && StandsAt(name, i, HEAD);
      HeadStandsOnce(front, name, |front| + |HEAD| + i);
    } else if cut > |front| {
      HeadStandsOnce(front, name, cut);
    }
  }

  lemma NameAfterCut(front: string, name: string, path: string, cut: nat)
    requires path == front + HEAD + name && |front| <= cut && cut + |HEAD| <= |path|
    ensures |path[cut + |HEAD|..]| == |name| - (cut - |front|)
    ensures path[cut + |HEAD|..] == name <==> cut == |front|
  {
    if cut == |front| { assert path[cut + |HEAD|..] == name; }
  }

  lemma NameBehind(front: string, name: string)
    ensures NameFromLockPath(front + HEAD + name) == Ok(name)
       <==> name != "" && !Occurs(name, HEAD) && !EndsWith(name, "/node_modules")
  {
    LastHead(front, name);
    NameAfterCut(front, name, front + HEAD + name, Last(front + HEAD + name, HEAD).value);
  }

  lemma CandidateParts(cursor: string, dependency: string)
    ensures Candidate(cursor, dependency) == (if cursor != "" then cursor + "/" else "") + HEAD + dependency
  {
    if cursor != "" { assert MARKER == "/" + HEAD; }
  }

  /** A name that does not itself pass through `node_modules`. */
  ghost predicate PlainName(name: string) {
    && name != "" && !(exists front, rest :: name == front + "node_modules/" + rest)
    && !(exists front :: name == front + "/node_modules")
  }

  lemma PlainMeans(name: string)
    ensures PlainName(name) <==> name != "" && !Occurs(name, HEAD) && !EndsWith(name, "/node_modules")
  {
    if Occurs(name, HEAD) {
      var i :| 0 <= i <= |name| && StandsAt(name, i, HEAD);
      assert name == name[..i] + "node_modules/" + name[i + |HEAD|..];
    }
    if front, rest :| name == front + "node_modules/" + rest {
      assert name[|front|..|front| + |HEAD|] == HEAD;
      assert StandsAt(name, |front|, HEAD);
    }
    if EndsWith(name, "/node_modules") {
      assert name == name[..|name| - |"/node_modules"|] + "/node_modules";
    }
    if front :| name == front + "/node_modules" {
      assert name[|name| - |"/node_modules"|..] == "/node_modules";
    }
  }

  /** The name read back from a candidate is the requested dependency exactly for the names
      that do not themselves pass through `node_modules`. */
  lemma NameIsDependency(cursor: string, dependency: string)
    ensures Candidate(cursor, dependency)
         == if cursor == "" then "node_modules/" + dependency else cursor + "/node_modules/" + dependency
    ensures NameFromLockPath(Candidate(cursor, dependency)) == Ok(dependency) <==> PlainName(dependency)
  {
    CandidateParts(cursor, dependency);
    NameBehind(if cursor != "" then cursor + "/" else "", dependency);
    PlainMeans(dependency);
  }

  lemma NothingBehindCut(path: string, cut: nat)
    requires Last(path, HEAD) == Some(cut)
    ensures cut + |HEAD| <= |path| && path == path[..cut] + HEAD + path[cut + |HEAD|..]
    ensures !Occurs(path[cut + |HEAD|..], HEAD)
  {
    var front, name := path[..cut], path[cut + |HEAD|..];
    assert path == front + HEAD + name;
    LastHead(front, name);
  }

  /** Which paths have a name, and which: what follows some `node_modules/`, if it is plain. */
  lemma NameIsRead(path: string, name: string)
    ensures NameFromLockPath(path) == Ok(name) <==> PlainName(name) && exists front :: path == front + "node_modules/" + name
  {
    PlainMeans(name);
    if NameFromLockPath(path) == Ok(name) {
      var cut := Last(path, HEAD).value;
      NothingBehindCut(path, cut);
      assert path == path[..cut] + "node_modules/" + name;
    }
    if front :| path == front + "node_modules/" + name { NameBehind(front, name); }
  }

  /** The dependency `a/node_modules/b` is read back as `b`. */
  lemma OneMisreadName()
    ensures NameFromLockPath(Candidate("", "a/node_modules/b")) == Ok("b")
  {
    var front := "node_modules/a/";
    assert Candidate("", "a/node_modules/b") == front + HEAD + "b";
    TooShort("b", HEAD);
    LastHead(front, "b");
    assert (front + HEAD + "b")[|front| + |HEAD|..] == "b";
    assert |"b"| < |"/node_modules"|;
  }
}
