/** `_npm_lock_graph`: one component and one dependency record per path of `package-lock.json`,
    edges found by the outward `node_modules` lookup. */
module NpmLock {
  import opened Text
  import opened NpmResolve
  import opened Reachability
  import opened SbomGraphs

  /** A lock record: `direct` are its runtime and development dependencies, `other` its
      optional and peer ones; `licensed` says that its licence, if it has one, is text. */
  datatype NpmPackage = NpmPackage(name: Option<string>, version: Option<string>, dev: bool,
                                   direct: set<string>, other: set<string>, licensed: bool)

  type NpmPackages = map<string, NpmPackage>

  const LOCKFILE_VERSION: int := 3

  datatype NpmFile = NpmFile(lockfileVersion: int, packages: NpmPackages)

  function At(packages: NpmPackages, path: string): NpmPackage {
    if path in packages then packages[path] else NpmPackage(None, None, false, {}, {}, true)
  }

  function NameAt(packages: NpmPackages, path: string): Option<string> {
    if path == "" then At(packages, "").name
    else
      match NameFromLockPath(path)
      case Ok(name) => Some(name)
      case Rejected => None
  }

  predicate Named(packages: NpmPackages, path: string) {
    && NameAt(packages, path).Some? && At(packages, path).version.Some?
    && (path != "" ==> At(packages, path).licensed)
  }

  /** The packages of a lock that the tool accepts. */
  predicate NpmReadable(packages: NpmPackages) {
    "" in packages && forall path | path in packages :: Named(packages, path)
  }

  predicate NpmFileReadable(lock: NpmFile) { lock.lockfileVersion == LOCKFILE_VERSION && NpmReadable(lock.packages) }

  /** Which locks are read: version 3 with a root that has a name and a version, and below it
      only paths that end in a plain name, with a version and a licence, if any, that is text. */
  lemma ReadableMeans(lock: NpmFile)
    ensures NpmFileReadable(lock) <==>
      && lock.lockfileVersion == 3 && "" in lock.packages
      && lock.packages[""].name.Some? && lock.packages[""].version.Some?
      && forall path | path in lock.packages && path != "" ::
           && lock.packages[path].version.Some? && lock.packages[path].licensed
           && exists front, name :: PlainName(name) && path == front + "node_modules/" + name
  {
    forall path ensures NameFromLockPath(path).Ok? <==> exists front, name :: PlainName(name) && path == front + "node_modules/" + name {
      if NameFromLockPath(path).Ok? { NameIsRead(path, NameFromLockPath(path).value); }
      if front, name :| PlainName(name) && path == front + "node_modules/" + name { NameIsRead(path, name); }
    }
  }

  function Identity(path: string): string { if path == "" then "<root>" else path }

  function NpmComponent(sha: string -> string, packages: NpmPackages, path: string): Component {
    var name, version := NameAt(packages, path).GetOr(""), At(packages, path).version.GetOr("");
    Component(LockedRef(sha, "npm", [Identity(path), name, version]), name, version,
              if path == "" then WorkspaceRoot else if name in At(packages, "").direct then Direct else Transitive,
              path == "" || !At(packages, path).dev)
  }

  function ResolvedAmong(packages: NpmPackages, path: string, names: set<string>): set<string> {
    set d | d in names && Resolve(packages.Keys, path, d).Some? :: Resolve(packages.Keys, path, d).value
  }

  function NpmEdges(packages: NpmPackages, path: string): set<string> {
    ResolvedAmong(packages, path, At(packages, path).direct + At(packages, path).other)
  }

  function RefsOf(sha: string -> string, packages: NpmPackages, paths: set<string>): set<Ref> {
    set p | p in paths :: NpmComponent(sha, packages, p).ref
  }

  lemma OneMoreName(sha: string -> string, packages: NpmPackages, path: string, names: set<string>, name: string)
    ensures var before, after := ResolvedAmong(packages, path, names), ResolvedAmong(packages, path, names + {name});
            var found := Resolve(packages.Keys, path, name);
      && after == (if found.Some? then before + {found.value} else before)
      && RefsOf(sha, packages, after)
           == (if found.Some? then RefsOf(sha, packages, before) + {NpmComponent(sha, packages, found.value).ref}
               else RefsOf(sha, packages, before))
  {
    var before, after := ResolvedAmong(packages, path, names), ResolvedAmong(packages, path, names + {name});
    assert after == if Resolve(packages.Keys, path, name).Some? then before + {Resolve(packages.Keys, path, name).value} else before;
  }

  function ComponentOf(sha: string -> string, packages: NpmPackages): string -> Component {
    path => NpmComponent(sha, packages, path)
  }

  function EdgesOf(packages: NpmPackages): string -> set<string> { path => NpmEdges(packages, path) }

  lemma {:induction false} ResolvedIsLocked(packages: set<string>, cursor: string, dependency: string)
    ensures Resolve(packages, cursor, dependency).Some? ==> Resolve(packages, cursor, dependency).value in packages
    decreases |cursor|
  {
    if Outward(cursor).Some? { ResolvedIsLocked(packages, Outward(cursor).value, dependency); }
  }

  function First(names: seq<string>, n: nat): set<string>
    requires n <= |names|
  {
    set d | d in names[..n]
  }

  lemma FirstStep(names: seq<string>, n: nat)
    requires n < |names|
    ensures First(names, n + 1) == First(names, n) + {names[n]}
  {
    TakeOneMore(names, n);
  }

  method DependsOn(sha: string -> string, packages: NpmPackages, components: map<string, Component>, path: string)
      returns (refs: set<Ref>)
    requires path in packages && components.Keys == packages.Keys
    requires forall p | p in packages :: components[p] == NpmComponent(sha, packages, p)
    ensures refs == RefsOf(sha, packages, NpmEdges(packages, path))
  {
    var names := Enumerate(packages[path].direct + packages[path].other);
    refs := {};
    for i := 0 to |names|
      invariant refs == RefsOf(sha, packages, ResolvedAmong(packages, path, First(names, i)))
    {
      var found := ResolveNpmDependency(packages.Keys, path, names[i]);
      ResolvedIsLocked(packages.Keys, path, names[i]);
      FirstStep(names, i);
      OneMoreName(sha, packages, path, First(names, i), names[i]);
      if found.Some? { refs := refs + {components[found.value].ref}; }
    }
    assert First(names, |names|) == packages[path].direct + packages[path].other by { TakeAll(names); }
  }

  /** What the first pass knows after the paths in `done`. */
  ghost predicate Indexed(sha: string -> string, packages: NpmPackages, byPath: map<string, Component>, done: set<string>) {
    byPath.Keys == done && forall p | p in byPath :: byPath[p] == NpmComponent(sha, packages, p)
  }

  ghost predicate Listed(sha: string -> string, packages: NpmPackages, components: seq<Component>, paths: seq<string>) {
    |components| <= |paths| && forall j | 0 <= j < |components| :: components[j] == NpmComponent(sha, packages, paths[j])
  }

  lemma ListedOneMore(sha: string -> string, packages: NpmPackages, components: seq<Component>, paths: seq<string>, c: Component)
    requires Listed(sha, packages, components, paths) && |components| < |paths|
    requires c == NpmComponent(sha, packages, paths[|components|])
    ensures Listed(sha, packages, components + [c], paths)
  {
    var more := components + [c];
    forall j | 0 <= j < |more| ensures more[j] == NpmComponent(sha, packages, paths[j]) {
      if j < |components| { assert more[j] == components[j]; }
    }
  }

  lemma IndexedOneMore(sha: string -> string, packages: NpmPackages, byPath: map<string, Component>,
                       paths: seq<string>, i: nat)
    requires i < |paths| && Indexed(sha, packages, byPath, First(paths, i))
    ensures Indexed(sha, packages, byPath[paths[i] := NpmComponent(sha, packages, paths[i])], First(paths, i + 1))
  {
    FirstStep(paths, i);
  }

  /** The first pass: a component per path. */
  method NpmComponents(sha: string -> string, packages: NpmPackages, paths: seq<string>)
      returns (ok: bool, components: seq<Component>, byPath: map<string, Component>)
    requires forall p | p in paths :: p in packages
    ensures ok <==> forall i | 0 <= i < |paths| :: Named(packages, paths[i])
    ensures ok ==> |components| == |paths|
    ensures ok ==> forall i | 0 <= i < |paths| :: components[i] == NpmComponent(sha, packages, paths[i])
    ensures ok ==> byPath.Keys == set p | p in paths
    ensures ok ==> forall p | p in byPath :: byPath[p] == NpmComponent(sha, packages, p)
  {
    components, byPath := [], map[];
    for i := 0 to |paths|
      invariant Indexed(sha, packages, byPath, First(paths, i)) && |components| == i
      invariant Listed(sha, packages, components, paths)
      invariant forall j | 0 <= j < i :: Named(packages, paths[j])
    {
      var path := paths[i];
      if !Named(packages, path) { return false, [], map[]; }
      IndexedOneMore(sha, packages, byPath, paths, i);
      ListedOneMore(sha, packages, components, paths, NpmComponent(sha, packages, path));
      byPath := byPath[path := NpmComponent(sha, packages, path)];
      components := components + [NpmComponent(sha, packages, path)];
    }
    TakeAll(paths);
    ok := true;
  }

  /** The second pass: a dependency record per path. */
  method NpmRecords(sha: string -> string, packages: NpmPackages, paths: seq<string>, byPath: map<string, Component>)
      returns (records: seq<Record>)
    requires (forall p | p in paths :: p in packages) && byPath.Keys == packages.Keys
    requires forall p | p in packages :: byPath[p] == NpmComponent(sha, packages, p)
    ensures |records| == |paths|
    ensures forall i | 0 <= i < |paths| ::
      records[i] == Record(NpmComponent(sha, packages, paths[i]).ref, RefsOf(sha, packages, NpmEdges(packages, paths[i])))
  {
    records := [];
    for i := 0 to |paths|
      invariant |records| == i
      invariant forall j | 0 <= j < i ::
        records[j] == Record(NpmComponent(sha, packages, paths[j]).ref, RefsOf(sha, packages, NpmEdges(packages, paths[j])))
    {
      var refs := DependsOn(sha, packages, byPath, paths[i]);
      records := records + [Record(byPath[paths[i]].ref, refs)];
    }
  }

  lemma Assembled(sha: string -> string, packages: NpmPackages, paths: seq<string>,
                  components: seq<Component>, records: seq<Record>)
    requires |components| == |records| == |paths|
    requires forall i | 0 <= i < |paths| :: components[i] == NpmComponent(sha, packages, paths[i])
    requires forall i | 0 <= i < |paths| ::
      records[i] == Record(NpmComponent(sha, packages, paths[i]).ref, RefsOf(sha, packages, NpmEdges(packages, paths[i])))
    ensures Translates(LockGraph(components, records), paths, ComponentOf(sha, packages), EdgesOf(packages))
  {
  }

  method NpmLockGraph(sha: string -> string, lock: NpmFile) returns (r: Result<LockGraph>, ghost keys: seq<string>)
    ensures r.Ok? <==> NpmFileReadable(lock)
    ensures r.Ok? ==> Enumerates(keys, lock.packages.Keys)
    ensures r.Ok? ==> Translates(r.value, keys, ComponentOf(sha, lock.packages), EdgesOf(lock.packages))
  {
    keys := [];
    var packages := lock.packages;
    if lock.lockfileVersion != LOCKFILE_VERSION || "" !in packages { return Rejected, []; }
    var paths := Enumerate(packages.Keys);
    var ok, components, byPath := NpmComponents(sha, packages, paths);
    if !ok { return Rejected, []; }
    forall p | p in packages ensures Named(packages, p) { assert p in paths; }
    assert byPath.Keys == packages.Keys;
    var records := NpmRecords(sha, packages, paths, byPath);
    keys := paths;
    r := Ok(LockGraph(components, records));
    Assembled(sha, packages, paths, components, records);
  }

  // ---------------------------------------------------------------- the graph is closed

  lemma StandInIsNoPath()
    ensures forall i | 0 <= i <= |"<root>"| :: !StandsAt("<root>", i, HEAD)
  {
  }

  /** No accepted lock has a path that looks like the root's stand-in identity. */
  lemma RootIdentityIsFree(packages: NpmPackages, path: string)
    requires NpmReadable(packages) && path in packages && path != ""
    ensures Identity(path) != Identity("")
  {
    StandInIsNoPath();
  }

  /** The text that a path's reference is the hash of. */
  function NpmText(packages: NpmPackages, path: string): string {
    FieldText("npm", [Identity(path), NameAt(packages, path).GetOr(""), At(packages, path).version.GetOr("")])
  }

  /** No two paths give the same text. */
  ghost predicate NpmApart(packages: NpmPackages) {
    forall p, q | p in packages && q in packages && p != q :: NpmText(packages, p) != NpmText(packages, q)
  }

  /** References are as distinct as the texts hashed: nothing else keeps two paths apart. */
  lemma NpmRefsDistinct(sha: string -> string, packages: NpmPackages, p: string, q: string)
    requires Injective(sha)
    ensures NpmComponent(sha, packages, p).ref != NpmComponent(sha, packages, q).ref
       <==> NpmText(packages, p) != NpmText(packages, q)
  {
    assert NpmComponent(sha, packages, p).ref == Urn("npm", sha(NpmText(packages, p)));
    assert NpmComponent(sha, packages, q).ref == Urn("npm", sha(NpmText(packages, q)));
  }

  /** Locks without NUL in their fields keep all paths apart. */
  lemma NulFreeLocksApart(packages: NpmPackages)
    requires NpmReadable(packages)
    requires forall p | p in packages ::
      NulFree(p) && NulFree(NameAt(packages, p).GetOr("")) && NulFree(At(packages, p).version.GetOr(""))
    ensures NpmApart(packages)
  {
    forall p, q | p in packages && q in packages && p != q ensures NpmText(packages, p) != NpmText(packages, q) {
      var a := [Identity(p), NameAt(packages, p).GetOr(""), At(packages, p).version.GetOr("")];
      var b := [Identity(q), NameAt(packages, q).GetOr(""), At(packages, q).version.GetOr("")];
      if p != "" { RootIdentityIsFree(packages, p); }
      if q != "" { RootIdentityIsFree(packages, q); }
      assert a[0] != b[0];
      if FieldText("npm", a) == FieldText("npm", b) { FieldTextInjective("npm", a, b); }
    }
  }

  lemma EdgesLocked(packages: NpmPackages)
    ensures forall k :: NpmEdges(packages, k) <= packages.Keys
  {
    forall k, e | e in NpmEdges(packages, k) ensures e in packages {
      var d :| d in At(packages, k).direct + At(packages, k).other && Resolve(packages.Keys, k, d) == Some(e);
      ResolvedIsLocked(packages.Keys, k, d);
    }
  }

  lemma ApartIsDistinct(sha: string -> string, packages: NpmPackages, keys: seq<string>)
    requires Enumerates(keys, packages.Keys) && Injective(sha)
    ensures NpmApart(packages) <==> DistinctRefs(keys, ComponentOf(sha, packages))
  {
    var component := ComponentOf(sha, packages);
    if DistinctRefs(keys, component) {
      forall p, q | p in packages && q in packages && p != q ensures NpmText(packages, p) != NpmText(packages, q) {
        var i :| 0 <= i < |keys| && keys[i] == p;
        var j :| 0 <= j < |keys| && keys[j] == q;
        assert component(keys[if i < j then i else j]).ref != component(keys[if i < j then j else i]).ref;
        NpmRefsDistinct(sha, packages, p, q);
      }
    } else if NpmApart(packages) {
      forall i, j | 0 <= i < j < |keys| ensures component(keys[i]).ref != component(keys[j]).ref {
        assert keys[i] in keys && keys[j] in keys;
        NpmRefsDistinct(sha, packages, keys[i], keys[j]);
      }
    }
  }

  /** The graph is closed exactly when the paths are apart. */
  lemma NpmGraphClosed(sha: string -> string, packages: NpmPackages, g: LockGraph, keys: seq<string>)
    requires NpmReadable(packages) && Enumerates(keys, packages.Keys) && Injective(sha)
    requires Translates(g, keys, ComponentOf(sha, packages), EdgesOf(packages))
    ensures Closed(g) <==> NpmApart(packages)
    ensures Refs(g.components) == set p | p in packages :: NpmComponent(sha, packages, p).ref
  {
    EdgesLocked(packages);
    TranslationClosed(g, keys, ComponentOf(sha, packages), EdgesOf(packages));
    ApartIsDistinct(sha, packages, keys);
    assert (set p | p in packages :: NpmComponent(sha, packages, p).ref) == set k | k in keys :: ComponentOf(sha, packages)(k).ref;
  }

  // ---------------------------------------------------------------- two paths, one reference

  lemma JoinFour(a: string, b: string, c: string, d: string, sep: char)
    ensures Join([a, b, c, d], sep) == a + [sep] + (b + [sep] + (c + [sep] + d))
  {
    assert [a, b, c, d][1..] == [b, c, d] && [b, c, d][1..] == [c, d] && [c, d][1..] == [d];
    assert Join([c, d], sep) == c + [sep] + Join([d], sep);
    assert Join([b, c, d], sep) == b + [sep] + Join([c, d], sep);
    assert Join([a, b, c, d], sep) == a + [sep] + Join([b, c, d], sep);
  }

  /** A NUL in a path moves the boundary between the fields. */
  lemma BoundaryMoves(path: string, x: string, version: string)
    ensures FieldText("npm", [path, x, x + ['\0'] + x + ['\0'] + version])
         == FieldText("npm", [path + ['\0'] + x, x + ['\0'] + x, version])
  {
    var nul := ['\0'];
    JoinFour("npm", path, x, x + nul + x + nul + version, '\0');
    JoinFour("npm", path + nul + x, x + nul + x, version, '\0');
    assert ["npm"] + [path, x, x + nul + x + nul + version] == ["npm", path, x, x + nul + x + nul + version];
    assert ["npm"] + [path + nul + x, x + nul + x, version] == ["npm", path + nul + x, x + nul + x, version];
    assert path + nul + (x + nul + (x + nul + x + nul + version)) == path + nul + x + nul + (x + nul + x + nul + version);
  }

  lemma ShortName(cursor: string, name: string)
    requires 0 < |name| < 5
    ensures NameFromLockPath(Candidate(cursor, name)) == Ok(name)
  {
    TooShort(name, HEAD);
    NameIsDependency(cursor, name);
  }

  lemma NameBelowRoot(name: string)
    requires 0 < |name| < 5
    ensures NameFromLockPath(HEAD + name) == Ok(name)
  {
    assert Candidate("", name) == HEAD + name;
    ShortName("", name);
  }

  function Bare(version: string): NpmPackage { NpmPackage(None, Some(version), false, {}, {}, true) }

  /** A lock with two packages below `node_modules`, one of whose names holds a NUL. */
  function SharedLock(): NpmPackages {
    map["" := NpmPackage(Some("web"), Some("1"), false, {}, {}, true),
        HEAD + "a" := Bare("a" + ['\0'] + "a" + ['\0'] + "w"),
        HEAD + "a" + ['\0'] + "a" := Bare("w")]
  }

  /** JSON admits that lock and the tool reads it, yet two of its paths share one reference,
      whatever the hash. */
  lemma OneReferenceTwice()
    ensures NpmReadable(SharedLock()) && !NpmApart(SharedLock())
  {
    var p, x := HEAD + "a", "a" + ['\0'] + "a";
    var q := HEAD + "a" + ['\0'] + "a";
    assert q == HEAD + x;
    NameBelowRoot("a");
    NameBelowRoot(x);
    assert |p| < |q|;
    BoundaryMoves(p, "a", "w");
    assert NpmText(SharedLock(), p) == NpmText(SharedLock(), q);
  }

  // ---------------------------------------------------------------- a dependency that is not seen

  const WORKSPACE: string := "packages/a"

  /** A lock where the root and `b`, installed in a workspace, both depend on the root's `x`. */
  function WorkspaceLock(): NpmPackages {
    map["" := NpmPackage(Some("web"), Some("1"), false, {"x"}, {}, true),
        Candidate(WORKSPACE, "b") := NpmPackage(None, Some("1"), false, {"x"}, {}, true),
        Candidate("", "x") := Bare("1")]
  }

  lemma WorkspaceIsBase()
    ensures Base(WORKSPACE) && Outward(WORKSPACE) == None
  {
    TooShort(WORKSPACE, MARKER);
    TooShort(WORKSPACE, HEAD);
  }

  lemma NestedGoesOutward()
    ensures Outward(Candidate(WORKSPACE, "b")) == Some(WORKSPACE)
  {
    TooShort("/" + "b", MARKER);
    OutwardUndoes(WORKSPACE, "b");
  }

  /** Neither of the two candidates that are tried for `b` is in the lock. */
  lemma CandidatesMissing()
    ensures Candidate(Candidate(WORKSPACE, "b"), "x") !in WorkspaceLock()
    ensures Candidate(WORKSPACE, "x") !in WorkspaceLock()
  {
    var b := Candidate(WORKSPACE, "b");
    assert |Candidate(b, "x")| > |b| > |Candidate("", "x")|;
    var there := Candidate(WORKSPACE, "x");
    assert there[|there| - 1] == 'x' && b[|b| - 1] == 'b';
    assert |there| > |Candidate("", "x")|;
  }

  lemma WorkspaceLockReadable()
    ensures NpmReadable(WorkspaceLock())
  {
    ShortName(WORKSPACE, "b");
    ShortName("", "x");
  }

  /** The tool reads that lock, and finds `x` from the root but not from `b`, so that the edge
      from `b` to `x` is left out of the graph. */
  lemma OneWorkspaceMiss()
    ensures NpmReadable(WorkspaceLock())
    ensures Resolve(WorkspaceLock().Keys, "", "x") == Some(Candidate("", "x"))
    ensures Resolve(WorkspaceLock().Keys, Candidate(WORKSPACE, "b"), "x") == None
    ensures NpmEdges(WorkspaceLock(), Candidate(WORKSPACE, "b")) == {}
  {
    WorkspaceLockReadable();
    WorkspaceIsBase();
    NestedGoesOutward();
    CandidatesMissing();
    assert At(WorkspaceLock(), Candidate(WORKSPACE, "b")).direct == {"x"};
  }
}
