/** What the generated SBOM says of each package, in terms of the lock files alone. */
module SbomMeaning {
  import opened Text
  import opened Reachability
  import opened SbomGraphs
  import opened NpmResolve
  import opened NpmLock
  import Py = PythonLock
  import opened CargoLock
  import opened SupplyChain

  const NUL: string := ['\0']

  /** A graph that the generator returns for locks it can read. */
  ghost predicate Generated(x: Parts, keys: seq<Package>, g: LockGraph) {
    Readable(x.sha, x.norm, x.locks) && Sbom(x, keys, g)
  }

  function RefIn(x: Parts, p: Package): Ref { ComponentIn(x)(p).ref }

  /** The place of a package: its component, and a record of the references of its edges. */
  lemma PlaceOf(x: Parts, keys: seq<Package>, g: LockGraph, p: Package) returns (i: nat)
    requires Sbom(x, keys, g) && p in Packages(x)
    ensures i < |g.records| == |g.components| && g.components[i] == ComponentIn(x)(p) && g.records[i].ref == RefIn(x, p)
    ensures forall r :: r in g.records[i].dependsOn <==> exists e :: e in AllEdges(x)(p) && r == RefIn(x, e)
  {
    assert p in keys;
    i :| 0 <= i < |keys| && keys[i] == p;
    var component := ComponentIn(x);
    assert g.records[i].dependsOn == set e | e in AllEdges(x)(keys[i]) :: component(e).ref;
    forall r ensures r in g.records[i].dependsOn <==> exists e :: e in AllEdges(x)(p) && r == RefIn(x, e) {
      if r in g.records[i].dependsOn {
        var e :| e in AllEdges(x)(keys[i]) && component(e).ref == r;
        assert r == RefIn(x, e);
      }
    }
  }

  // ---------------------------------------------------------------- npm

  function NpmName(packages: NpmPackages, path: string): string
    requires NpmReadable(packages) && path in packages
  {
    assert Named(packages, path);
    if path == "" then packages[path].name.value else NameFromLockPath(path).value
  }

  function NpmVersion(packages: NpmPackages, path: string): string
    requires NpmReadable(packages) && path in packages
  {
    assert Named(packages, path);
    packages[path].version.value
  }

  /** The digest is that of ecosystem, path, name and version, with NUL between them. */
  function NpmRef(sha: string -> string, packages: NpmPackages, path: string): Ref
    requires NpmReadable(packages) && path in packages
  {
    Urn("npm", sha("npm" + NUL + (if path == "" then "<root>" else path) + NUL
                   + NpmName(packages, path) + NUL + NpmVersion(packages, path)))
  }

  lemma NpmRefSpelled(sha: string -> string, packages: NpmPackages, path: string)
    requires NpmReadable(packages) && path in packages
    ensures NpmComponent(sha, packages, path).ref == NpmRef(sha, packages, path)
  {
    assert Named(packages, path);
    var name, version := NpmName(packages, path), NpmVersion(packages, path);
    JoinFour("npm", Identity(path), name, version, '\0');
    assert ["npm"] + [Identity(path), name, version] == ["npm", Identity(path), name, version];
    assert "npm" + NUL + Identity(path) + NUL + name + NUL + version
        == "npm" + NUL + (Identity(path) + NUL + (name + NUL + version));
  }

  /** `path` asks for `d`, and the lookup finds `q`. */
  predicate NpmNeeds(packages: NpmPackages, path: string, d: string, q: string) {
    && path in packages && q in packages && (d in packages[path].direct || d in packages[path].other)
    && Resolve(packages.Keys, path, d) == Some(q)
  }

  lemma NpmEdgeSet(x: Parts, path: string)
    ensures AllEdges(x)(Npm(path)) == set q | q in NpmEdges(x.locks.Paths(), path) :: Npm(q)
  {
    assert AllEdges(x)(Npm(path)) == LockEdges(x)(Npm(path));
  }

  lemma NpmEdgesAre(x: Parts, path: string, e: Package)
    requires path in x.locks.Paths()
    ensures e in AllEdges(x)(Npm(path)) <==> e.Npm? && exists d :: NpmNeeds(x.locks.Paths(), path, d, e.path)
  {
    var packages := x.locks.Paths();
    NpmEdgeSet(x, path);
    if e in AllEdges(x)(Npm(path)) {
      var d :| (d in packages[path].direct || d in packages[path].other) && Resolve(packages.Keys, path, d) == Some(e.path);
      ResolvedIsLocked(packages.Keys, path, d);
      assert NpmNeeds(packages, path, d, e.path);
    }
  }

  lemma NpmRefIn(x: Parts, path: string)
    requires NpmReadable(x.locks.Paths()) && path in x.locks.Paths()
    ensures RefIn(x, Npm(path)) == NpmRef(x.sha, x.locks.Paths(), path)
  {
    NpmRefSpelled(x.sha, x.locks.Paths(), path);
    RefSpelled(x, Npm(path));
  }

  /** The references that `path` needs, as a lookup finds them. */
  ghost predicate NeedsRef(sha: string -> string, packages: NpmPackages, path: string, r: Ref)
    requires NpmReadable(packages)
  {
    exists d, q :: NpmNeeds(packages, path, d, q) && r == NpmRef(sha, packages, q)
  }

  lemma NpmRefsAre(x: Parts, path: string, r: Ref)
    requires NpmReadable(x.locks.Paths()) && path in x.locks.Paths()
    ensures (exists e :: e in AllEdges(x)(Npm(path)) && r == RefIn(x, e)) <==> NeedsRef(x.sha, x.locks.Paths(), path, r)
  {
    if e :| e in AllEdges(x)(Npm(path)) && r == RefIn(x, e) {
      NpmEdgesAre(x, path, e);
      var d :| NpmNeeds(x.locks.Paths(), path, d, e.path);
      NpmRefIn(x, e.path);
    }
    if d, q :| NpmNeeds(x.locks.Paths(), path, d, q) && r == NpmRef(x.sha, x.locks.Paths(), q) {
      NpmEdgesAre(x, path, Npm(q));
      NpmRefIn(x, q);
    }
  }

  /** An npm package's record has the references of whatever the lookup finds for its runtime,
      development, optional and peer dependencies, and no others. */
  lemma NpmRecord(x: Parts, keys: seq<Package>, g: LockGraph, path: string) returns (i: nat)
    requires Generated(x, keys, g) && path in x.locks.Paths()
    ensures NpmReadable(x.locks.Paths()) && i < |g.records| && g.records[i].ref == NpmRef(x.sha, x.locks.Paths(), path)
    ensures forall r :: r in g.records[i].dependsOn <==> NeedsRef(x.sha, x.locks.Paths(), path, r)
  {
    assert x.locks.npm.Some?;
    i := PlaceOf(x, keys, g, Npm(path));
    NpmRefIn(x, path);
    forall r ensures r in g.records[i].dependsOn <==> NeedsRef(x.sha, x.locks.Paths(), path, r) {
      NpmRefsAre(x, path, r);
    }
  }

  /** For a path of levels the lookup is the nearest enclosing level that has the dependency. */
  lemma NeedsByLevels(packages: NpmPackages, base: string, levels: seq<string>, d: string, q: string)
    requires Base(base) && (forall name | name in levels :: LevelName(name)) && PathOf(base, levels) in packages
    ensures var path := PathOf(base, levels);
      NpmNeeds(packages, path, d, q) <==>
        (d in packages[path].direct || d in packages[path].other) && Nearest(packages.Keys, base, levels, d) == Some(q)
  {
    ResolveIsNearest(packages.Keys, base, levels, d);
    ResolvedIsLocked(packages.Keys, PathOf(base, levels), d);
  }

  /** The entry of a lock path: its name and version, direct if the root depends on its name,
      and optional if it is for development only. */
  function NpmEntry(sha: string -> string, packages: NpmPackages, path: string): Component
    requires NpmReadable(packages) && path in packages
  {
    var name := NpmName(packages, path);
    Component(NpmRef(sha, packages, path), name, NpmVersion(packages, path),
              if path == "" then WorkspaceRoot else if name in packages[""].direct then Direct else Transitive,
              path == "" || !packages[path].dev)
  }

  lemma NpmEntrySpelled(sha: string -> string, packages: NpmPackages, path: string)
    requires NpmReadable(packages) && path in packages
    ensures NpmComponent(sha, packages, path) == NpmEntry(sha, packages, path)
  {
    assert Named(packages, path) && "" in packages;
    NpmRefSpelled(sha, packages, path);
  }

  lemma NpmListed(x: Parts, keys: seq<Package>, g: LockGraph, path: string)
    requires Generated(x, keys, g) && path in x.locks.Paths()
    ensures NpmReadable(x.locks.Paths()) && NpmEntry(x.sha, x.locks.Paths(), path) in g.components
  {
    assert x.locks.npm.Some?;
    var i := PlaceOf(x, keys, g, Npm(path));
    NpmEntrySpelled(x.sha, x.locks.Paths(), path);
    assert ComponentIn(x)(Npm(path)) == NpmComponent(x.sha, x.locks.Paths(), path);
    assert g.components[i] in g.components;
  }

  // ---------------------------------------------------------------- Python

  function PyRef(norm: Py.Norm, p: Py.PyPackage): Ref { Purl(norm(p.name), p.version) }

  /** Optional dependencies count for the product only. */
  predicate PyNeeds(p: Py.PyPackage, d: string) { d in p.dependencies || (p.editableRoot && d in p.optional) }

  /** The lock holds a package of that normalised name, with that reference. */
  predicate PyLocked(norm: Py.Norm, lock: seq<Py.PyPackage>, name: string, r: Ref) {
    exists l | 0 <= l < |lock| :: norm(lock[l].name) == name && r == PyRef(norm, lock[l])
  }

  lemma PyIndexed(x: Parts, k: nat)
    requires Py.PyReadable(x.norm, x.locks.python) && k < |x.locks.python|
    ensures var p := x.locks.python[k];
      x.norm(p.name) in x.ByName() && x.ByName()[x.norm(p.name)] == p
  {
    Py.ByNameKeys(x.norm, x.locks.python);
  }

  lemma PyProduct(x: Parts, k: nat)
    requires Py.PyReadable(x.norm, x.locks.python) && Product(x) && k < |x.locks.python|
    ensures x.locks.python[k].editableRoot <==> x.norm(x.locks.python[k].name) == x.root
  {
    Py.ByNameKeys(x.norm, x.locks.python);
    var i :| Py.OneRoot(x.locks.python, i);
    PyIndexed(x, k);
    PyIndexed(x, i);
    var j :| 0 <= j < |x.locks.python| && x.norm(x.locks.python[j].name) == x.root;
    PyIndexed(x, j);
  }

  lemma PyRefIn(x: Parts, name: string, r: Ref)
    requires Py.PyReadable(x.norm, x.locks.python) && name in x.ByName()
    ensures r == RefIn(x, Python(name)) <==> PyLocked(x.norm, x.locks.python, name, r)
  {
    Py.ByNameKeys(x.norm, x.locks.python);
    assert ComponentIn(x)(Python(name)) == Py.PyComponent(x.norm, x.ByName(), x.root, x.required, name);
    var j :| 0 <= j < |x.locks.python| && x.norm(x.locks.python[j].name) == name;
    PyIndexed(x, j);
  }

  lemma PyEdgeSet(x: Parts, name: string)
    requires Product(x) && name in x.ByName()
    ensures forall e: Package :: e in LockEdges(x)(Python(name)) <==>
      e.Python? && e.name in Py.DependencyNames(x.norm, x.ByName()[name], name == x.root)
  {
    var graph := Py.DependencyGraph(x.norm, x.ByName(), x.root);
    assert Py.EdgesOf(graph)(name) == graph[name] == Py.DependencyNames(x.norm, x.ByName()[name], name == x.root);
    assert LockEdges(x)(Python(name)) == set e | e in Py.EdgesOf(graph)(name) :: Python(e);
  }

  /** The references that the package at `k` needs from its own lock. */
  ghost predicate PyNeedsRef(norm: Py.Norm, lock: seq<Py.PyPackage>, k: nat, r: Ref)
    requires k < |lock|
  {
    exists d :: PyNeeds(lock[k], d) && PyLocked(norm, lock, norm(d), r)
  }

  lemma PyEdgeMeans(x: Parts, k: nat, name: string)
    requires Py.PyReadable(x.norm, x.locks.python) && Product(x) && k < |x.locks.python|
    ensures Python(name) in LockEdges(x)(Python(x.norm(x.locks.python[k].name))) <==>
      exists d :: PyNeeds(x.locks.python[k], d) && x.norm(d) == name
  {
    var p := x.locks.python[k];
    PyIndexed(x, k);
    PyProduct(x, k);
    PyEdgeSet(x, x.norm(p.name));
  }

  lemma PyEdgeInside(x: Parts, k: nat, e: Package)
    requires Py.PyReadable(x.norm, x.locks.python) && Product(x) && k < |x.locks.python|
    requires e in LockEdges(x)(Python(x.norm(x.locks.python[k].name)))
    ensures e.Python? && e.name in x.ByName()
  {
    var p := x.locks.python[k];
    PyIndexed(x, k);
    PyEdgeSet(x, x.norm(p.name));
    var graph := Py.DependencyGraph(x.norm, x.ByName(), x.root);
    assert x.norm(p.name) in graph && graph[x.norm(p.name)] <= graph.Keys;
  }

  lemma PyRefsAre(x: Parts, k: nat, r: Ref)
    requires Py.PyReadable(x.norm, x.locks.python) && Product(x) && k < |x.locks.python|
    ensures (exists e :: e in LockEdges(x)(Python(x.norm(x.locks.python[k].name))) && r == RefIn(x, e)) <==>
      PyNeedsRef(x.norm, x.locks.python, k, r)
  {
    var edges := LockEdges(x)(Python(x.norm(x.locks.python[k].name)));
    if e :| e in edges && r == RefIn(x, e) {
      PyEdgeInside(x, k, e);
      PyEdgeMeans(x, k, e.name);
      PyRefIn(x, e.name, r);
    }
    if d :| PyNeeds(x.locks.python[k], d) && PyLocked(x.norm, x.locks.python, x.norm(d), r) {
      PyEdgeMeans(x, k, x.norm(d));
      PyEdgeInside(x, k, Python(x.norm(d)));
      PyRefIn(x, x.norm(d), r);
    }
  }

  // ---------------------------------------------------------------- Cargo

  function CrateRef(sha: string -> string, k: CargoKey): Ref {
    Urn("cargo", sha("cargo" + NUL + k.name + NUL + k.version + NUL + k.source + NUL + k.name + NUL + k.version))
  }

  lemma CrateRefSpelled(sha: string -> string, k: CargoKey)
    ensures CargoComponent(sha)(k).ref == CrateRef(sha, k)
  {
    var rest := [k.version, k.source, k.name, k.version];
    JoinFour(k.version, k.source, k.name, k.version, '\0');
    assert (["cargo"] + [k.name, k.version, k.source, k.name, k.version])[1..] == [k.name] + rest;
    assert ([k.name] + rest)[1..] == rest;
    var tail := k.version + NUL + (k.source + NUL + (k.name + NUL + k.version));
    assert Join([k.name] + rest, '\0') == k.name + NUL + tail;
    assert CrateText(k) == "cargo" + NUL + (k.name + NUL + tail);
    assert "cargo" + NUL + k.name + NUL + k.version + NUL + k.source + NUL + k.name + NUL + k.version
        == "cargo" + NUL + (k.name + NUL + tail);
  }

  /** The snapshot's last word on its key. */
  predicate LastOfKey(entries: seq<CargoEntry>, e: nat) {
    e < |entries| && forall f | e < f < |entries| :: entries[f].key != entries[e].key
  }

  lemma {:induction false} LastOfKeyCounts(entries: seq<CargoEntry>, e: nat)
    requires LastOfKey(entries, e)
    ensures entries[e].key in ByKey(entries) && ByKey(entries)[entries[e].key] == entries[e].dependencies
    decreases |entries|
  {
    var n := |entries| - 1;
    if e < n {
      assert entries[..n][e] == entries[e];
      LastOfKeyCounts(entries[..n], e);
    }
  }

  lemma {:induction false} LastEntryOf(entries: seq<CargoEntry>, k: CargoKey) returns (e: nat)
    requires k in ByKey(entries)
    ensures LastOfKey(entries, e) && entries[e].key == k
    decreases |entries|
  {
    var n := |entries| - 1;
    if entries[n].key == k {
      e := n;
    } else {
      e := LastEntryOf(entries[..n], k);
      assert forall f | e <= f < n :: entries[..n][f] == entries[f];
    }
  }

  /** The snapshot resolves when the last entry of each crate depends only on listed crates. */
  lemma ResolvesMeans(entries: seq<CargoEntry>)
    ensures Resolves(ByKey(entries)) <==>
              forall e: nat, d | LastOfKey(entries, e) && d in entries[e].dependencies :: exists f :: f in entries && f.key == d
  {
    var m := ByKey(entries);
    ByKeyKeys(entries);
    if Resolves(m) {
      forall e: nat, d | LastOfKey(entries, e) && d in entries[e].dependencies ensures exists f :: f in entries && f.key == d {
        LastOfKeyCounts(entries, e);
        assert entries[e].key in m && d in m[entries[e].key] && d in m;
      }
    }
    if forall e: nat, d | LastOfKey(entries, e) && d in entries[e].dependencies :: exists f :: f in entries && f.key == d {
      forall k, d | k in m && d in m[k] ensures d in m {
        var e := LastEntryOf(entries, k);
        LastOfKeyCounts(entries, e);
      }
    }
  }

  lemma CrateEdgeSet(x: Parts, k: CargoKey)
    requires k in x.locks.Crates()
    ensures forall e: Package :: e in AllEdges(x)(Crate(k)) <==> e.Crate? && e.key in x.locks.Crates()[k]
  {
    assert AllEdges(x)(Crate(k)) == LockEdges(x)(Crate(k)) == set d | d in CargoEdges(x.locks.Crates())(k) :: Crate(d);
    assert CargoEdges(x.locks.Crates())(k) == set d | d in x.locks.Crates()[k];
  }

  lemma CrateRefIn(x: Parts, k: CargoKey)
    ensures RefIn(x, Crate(k)) == CrateRef(x.sha, k)
  {
    CrateRefSpelled(x.sha, k);
    RefSpelled(x, Crate(k));
  }

  ghost predicate CrateNeedsRef(sha: string -> string, entry: CargoEntry, r: Ref) {
    exists d :: d in entry.dependencies && r == CrateRef(sha, d)
  }

  lemma CrateRefsAre(x: Parts, e: nat, r: Ref)
    requires x.locks.cargo.Some? && LastOfKey(x.locks.cargo.value.snapshot.entries, e)
    ensures var entry := x.locks.cargo.value.snapshot.entries[e];
      (exists p :: p in AllEdges(x)(Crate(entry.key)) && r == RefIn(x, p)) <==> CrateNeedsRef(x.sha, entry, r)
  {
    var entry := x.locks.cargo.value.snapshot.entries[e];
    LastOfKeyCounts(x.locks.cargo.value.snapshot.entries, e);
    CrateEdgeSet(x, entry.key);
    if p :| p in AllEdges(x)(Crate(entry.key)) && r == RefIn(x, p) { CrateRefIn(x, p.key); }
    if d :| d in entry.dependencies && r == CrateRef(x.sha, d) {
      CrateRefIn(x, d);
      assert Crate(d) in AllEdges(x)(Crate(entry.key));
    }
  }

  /** A crate's record has the references of its dependencies in the snapshot. */
  lemma CargoRecord(x: Parts, keys: seq<Package>, g: LockGraph, e: nat) returns (i: nat)
    requires Generated(x, keys, g) && x.locks.cargo.Some? && LastOfKey(x.locks.cargo.value.snapshot.entries, e)
    ensures var entry := x.locks.cargo.value.snapshot.entries[e];
      && i < |g.records| && g.records[i].ref == CrateRef(x.sha, entry.key)
      && forall r :: r in g.records[i].dependsOn <==> CrateNeedsRef(x.sha, entry, r)
  {
    var entry := x.locks.cargo.value.snapshot.entries[e];
    LastOfKeyCounts(x.locks.cargo.value.snapshot.entries, e);
    i := PlaceOf(x, keys, g, Crate(entry.key));
    CrateRefIn(x, entry.key);
    forall r ensures r in g.records[i].dependsOn <==> CrateNeedsRef(x.sha, entry, r) { CrateRefsAre(x, e, r); }
  }

  predicate Workspace(k: CargoKey) { k.name == "visiondata-gate-desktop" && k.source == "local-workspace" }

  function CrateEntry(sha: string -> string, k: CargoKey): Component {
    Component(CrateRef(sha, k), k.name, k.version, if Workspace(k) then WorkspaceRoot else Transitive, true)
  }

  lemma CrateListed(x: Parts, keys: seq<Package>, g: LockGraph, k: CargoKey)
    requires Sbom(x, keys, g) && k in x.locks.Crates()
    ensures CrateEntry(x.sha, k) in g.components
  {
    var i := PlaceOf(x, keys, g, Crate(k));
    CrateRefSpelled(x.sha, k);
    assert ComponentIn(x)(Crate(k)) == CargoComponent(x.sha)(k);
    assert g.components[i] in g.components;
  }

  // ---------------------------------------------------------------- the product

  /** The workspace crate that is listed last. */
  predicate LastWorkspace(entries: seq<CargoEntry>, e: nat) {
    e < |entries| && Workspace(entries[e].key) && forall f | e < f < |entries| :: !Workspace(entries[f].key)
  }

  lemma {:induction false} LastWorkspaceIsRoot(entries: seq<CargoEntry>, e: nat)
    requires LastWorkspace(entries, e)
    ensures LastRoot(entries) == Some(entries[e].key)
    decreases |entries|
  {
    var n := |entries| - 1;
    if e < n {
      assert entries[..n][e] == entries[e];
      LastWorkspaceIsRoot(entries[..n], e);
    }
  }

  lemma {:induction false} RootHasPlace(entries: seq<CargoEntry>) returns (e: nat)
    requires LastRoot(entries).Some?
    ensures LastWorkspace(entries, e)
  {
    var n := |entries| - 1;
    if IsRoot(entries[n].key) { e := n; } else { e := RootHasPlace(entries[..n]); }
  }

  ghost predicate WorkspaceRef(sha: string -> string, entries: seq<CargoEntry>, r: Ref) {
    exists e: nat :: LastWorkspace(entries, e) && r == CrateRef(sha, entries[e].key)
  }

  /** The references of the npm root and of the workspace crate. */
  ghost predicate RootRef(x: Parts, r: Ref)
    requires x.locks.npm.Some? ==> NpmReadable(x.locks.Paths())
  {
    || (x.locks.npm.Some? && r == NpmRef(x.sha, x.locks.Paths(), ""))
    || (x.locks.cargo.Some? && WorkspaceRef(x.sha, x.locks.cargo.value.snapshot.entries, r))
  }

  lemma WorkspaceRefIs(sha: string -> string, entries: seq<CargoEntry>, r: Ref)
    ensures WorkspaceRef(sha, entries, r) <==> LastRoot(entries).Some? && r == CrateRef(sha, LastRoot(entries).value)
  {
    if e: nat :| LastWorkspace(entries, e) && r == CrateRef(sha, entries[e].key) {
      LastWorkspaceIsRoot(entries, e);
    } else if LastRoot(entries).Some? {
      var f := RootHasPlace(entries);
      LastWorkspaceIsRoot(entries, f);
    }
  }

  lemma RootRefsAre(x: Parts, r: Ref)
    requires Readable(x.sha, x.norm, x.locks)
    ensures (exists p :: p in x.Hung() && r == RefIn(x, p)) <==> RootRef(x, r)
  {
    if x.locks.npm.Some? {
      NpmRefIn(x, "");
      assert Npm("") in x.Hung();
    }
    if x.locks.cargo.Some? {
      var entries := x.locks.cargo.value.snapshot.entries;
      WorkspaceRefIs(x.sha, entries, r);
      if LastRoot(entries).Some? {
        CrateRefIn(x, LastRoot(entries).value);
        assert Crate(LastRoot(entries).value) in x.Hung();
      }
    }
  }

  lemma ProductEdges(x: Parts, name: string, r: Ref)
    ensures (exists e :: e in AllEdges(x)(Python(name)) && r == RefIn(x, e)) <==>
      || (exists e :: e in LockEdges(x)(Python(name)) && r == RefIn(x, e))
      || (name == x.root && exists e :: e in x.Hung() && r == RefIn(x, e))
  {
    var edges := LockEdges(x)(Python(name));
    assert AllEdges(x)(Python(name)) == if name == x.root then edges + x.Hung() else edges;
  }

  /** A Python package's record has the references of its dependencies; the product's has those
      of its optional groups too, and of the roots of the other two locks. */
  lemma PythonRecord(x: Parts, keys: seq<Package>, g: LockGraph, k: nat) returns (i: nat)
    requires Generated(x, keys, g) && k < |x.locks.python|
    ensures i < |g.records| && g.records[i].ref == PyRef(x.norm, x.locks.python[k])
    ensures forall r :: r in g.records[i].dependsOn <==>
      PyNeedsRef(x.norm, x.locks.python, k, r) || (x.locks.python[k].editableRoot && RootRef(x, r))
  {
    var p := x.locks.python[k];
    var name := x.norm(p.name);
    PyIndexed(x, k);
    PyProduct(x, k);
    i := PlaceOf(x, keys, g, Python(name));
    assert ComponentIn(x)(Python(name)) == Py.PyComponent(x.norm, x.ByName(), x.root, x.required, name);
    forall r ensures r in g.records[i].dependsOn <==>
      PyNeedsRef(x.norm, x.locks.python, k, r) || (p.editableRoot && RootRef(x, r))
    {
      PyRefsAre(x, k, r);
      RootRefsAre(x, r);
      ProductEdges(x, name, r);
    }
  }

  // ---------------------------------------------------------------- what is required

  predicate PyAsks(norm: Py.Norm, p: Py.PyPackage, next: string) {
    || (exists d | d in p.dependencies :: norm(d) == next)
    || (p.editableRoot && exists d | d in p.optional :: norm(d) == next)
  }

  /** A package of that name asks for that other name. */
  predicate PyLeads(norm: Py.Norm, lock: seq<Py.PyPackage>, name: string, next: string) {
    exists k | 0 <= k < |lock| :: norm(lock[k].name) == name && PyAsks(norm, lock[k], next)
  }

  predicate PyStarts(norm: Py.Norm, lock: seq<Py.PyPackage>, name: string) {
    exists k | 0 <= k < |lock| :: lock[k].editableRoot && exists d | d in lock[k].dependencies :: norm(d) == name
  }

  predicate PySteps(norm: Py.Norm, lock: seq<Py.PyPackage>, names: seq<string>) {
    forall j | 0 <= j < |names| - 1 :: PyLeads(norm, lock, names[j], names[j + 1])
  }

  /** A plain dependency of the product, what it asks for, and so on. */
  predicate PyChain(norm: Py.Norm, lock: seq<Py.PyPackage>, names: seq<string>) {
    names != [] && PyStarts(norm, lock, names[0]) && PySteps(norm, lock, names)
  }

  ghost predicate PyRequired(norm: Py.Norm, lock: seq<Py.PyPackage>, name: string) {
    exists names :: PyChain(norm, lock, names) && names[|names| - 1] == name
  }

  lemma LeadsIsEdge(x: Parts, name: string, next: string)
    requires Py.PyReadable(x.norm, x.locks.python) && Product(x)
    ensures var graph := Py.DependencyGraph(x.norm, x.ByName(), x.root);
      PyLeads(x.norm, x.locks.python, name, next) <==> name in graph && next in graph[name]
  {
    var lock, graph := x.locks.python, Py.DependencyGraph(x.norm, x.ByName(), x.root);
    Py.ByNameKeys(x.norm, lock);
    forall k | 0 <= k < |lock| && x.norm(lock[k].name) == name
      ensures name in graph && (PyAsks(x.norm, lock[k], next) <==> next in graph[name])
    {
      PyIndexed(x, k);
      PyProduct(x, k);
    }
    if name in graph {
      var k :| 0 <= k < |lock| && x.norm(lock[k].name) == name;
    }
  }

  lemma RootAt(x: Parts) returns (k: nat)
    requires Py.PyReadable(x.norm, x.locks.python) && Product(x)
    ensures k < |x.locks.python| && x.locks.python[k].editableRoot && x.ByName()[x.root] == x.locks.python[k]
    ensures forall l | 0 <= l < |x.locks.python| && x.locks.python[l].editableRoot :: l == k
  {
    var i :| Py.OneRoot(x.locks.python, i);
    k := i;
    PyIndexed(x, k);
    PyProduct(x, k);
  }

  lemma RootNames(norm: Py.Norm, p: Py.PyPackage, name: string)
    ensures name in Py.RequiredRoots(norm, p) <==> exists d | d in p.dependencies :: norm(d) == name
  {
    var roots := Py.RequiredRoots(norm, p);
    if d :| d in p.dependencies && norm(d) == name {
      var i :| 0 <= i < |p.dependencies| && p.dependencies[i] == d;
      assert roots[i] == name;
    }
    if name in roots {
      var i :| 0 <= i < |roots| && roots[i] == name;
      assert p.dependencies[i] in p.dependencies;
    }
  }

  lemma StartsAtRoots(x: Parts, name: string)
    requires Py.PyReadable(x.norm, x.locks.python) && Product(x)
    ensures PyStarts(x.norm, x.locks.python, name) <==> name in Py.RequiredRoots(x.norm, x.ByName()[x.root])
  {
    var k := RootAt(x);
    RootNames(x.norm, x.locks.python[k], name);
  }

  lemma StepsAgree(x: Parts, names: seq<string>)
    requires Py.PyReadable(x.norm, x.locks.python) && Product(x) && names != []
    ensures PySteps(x.norm, x.locks.python, names) <==> Chain(Py.DependencyGraph(x.norm, x.ByName(), x.root), names)
  {
    var graph := Py.DependencyGraph(x.norm, x.ByName(), x.root);
    if Chain(graph, names) {
      forall j | 0 <= j < |names| - 1 ensures PyLeads(x.norm, x.locks.python, names[j], names[j + 1]) {
        assert names[j] in graph && names[j + 1] in graph[names[j]];
        LeadsIsEdge(x, names[j], names[j + 1]);
      }
    }
    if PySteps(x.norm, x.locks.python, names) {
      forall j | 0 <= j < |names| - 1 ensures names[j] in graph && names[j + 1] in graph[names[j]] {
        assert PyLeads(x.norm, x.locks.python, names[j], names[j + 1]);
        LeadsIsEdge(x, names[j], names[j + 1]);
      }
    }
  }

  lemma ChainsAgree(x: Parts, names: seq<string>)
    requires Py.PyReadable(x.norm, x.locks.python) && Product(x)
    ensures PyChain(x.norm, x.locks.python, names) <==>
      && Chain(Py.DependencyGraph(x.norm, x.ByName(), x.root), names)
      && names[0] in Py.RequiredRoots(x.norm, x.ByName()[x.root])
  {
    if names != [] {
      StartsAtRoots(x, names[0]);
      StepsAgree(x, names);
    }
  }

  lemma RequiredIsReached(x: Parts, name: string)
    requires Py.PyReadable(x.norm, x.locks.python) && Product(x)
    ensures name in x.required <==> PyRequired(x.norm, x.locks.python, name)
  {
    var graph, roots := Py.DependencyGraph(x.norm, x.ByName(), x.root), Py.RequiredRoots(x.norm, x.ByName()[x.root]);
    forall names ensures PyChain(x.norm, x.locks.python, names) <==> Chain(graph, names) && names[0] in roots {
      ChainsAgree(x, names);
    }
    assert name in x.required <==> Py.Reached(x.norm, x.ByName(), x.root, name);
  }

  ghost function PyEntry(norm: Py.Norm, lock: seq<Py.PyPackage>, k: nat): Component
    requires k < |lock|
  {
    var p := lock[k];
    Component(PyRef(norm, p), p.name, p.version,
              if p.editableRoot then InternalRoot
              else if exists l | 0 <= l < |lock| :: lock[l].editableRoot && PyAsks(norm, lock[l], norm(p.name)) then Direct
              else Transitive,
              p.editableRoot || PyRequired(norm, lock, norm(p.name)))
  }

  lemma PyComponentIs(x: Parts, k: nat)
    requires Py.PyReadable(x.norm, x.locks.python) && Product(x) && k < |x.locks.python|
    ensures ComponentIn(x)(Python(x.norm(x.locks.python[k].name))) == PyEntry(x.norm, x.locks.python, k)
  {
    var p := x.locks.python[k];
    var name := x.norm(p.name);
    PyIndexed(x, k);
    PyProduct(x, k);
    RequiredIsReached(x, name);
    var l := RootAt(x);
    assert name in Py.DependencyNames(x.norm, x.locks.python[l], true) <==> PyAsks(x.norm, x.locks.python[l], name);
    assert ComponentIn(x)(Python(name)) == Py.PyComponent(x.norm, x.ByName(), x.root, x.required, name);
  }

  lemma PyPlace(x: Parts, keys: seq<Package>, g: LockGraph, k: nat) returns (i: nat)
    requires Generated(x, keys, g) && k < |x.locks.python|
    ensures i < |g.components| && g.components[i] == PyEntry(x.norm, x.locks.python, k)
  {
    var p := x.locks.python[k];
    PyIndexed(x, k);
    i := PlaceOf(x, keys, g, Python(x.norm(p.name)));
    PyComponentIs(x, k);
  }

  /** The component of a Python package: direct if the product asks for it, and required if a
      chain of dependencies leads to it from the product's plain ones. */
  lemma PythonListed(x: Parts, keys: seq<Package>, g: LockGraph, k: nat)
    requires Generated(x, keys, g) && k < |x.locks.python|
    ensures PyEntry(x.norm, x.locks.python, k) in g.components
  {
    var i := PyPlace(x, keys, g, k);
    assert g.components[i] in g.components;
  }

  /** The component of a package of one of the locks. */
  ghost predicate Known(x: Parts, c: Component)
    requires x.locks.npm.Some? ==> NpmReadable(x.locks.Paths())
  {
    || (exists k: nat | k < |x.locks.python| :: c == PyEntry(x.norm, x.locks.python, k))
    || (exists path | path in x.locks.Paths() :: c == NpmEntry(x.sha, x.locks.Paths(), path))
    || (exists k | k in x.locks.Crates() :: c == CrateEntry(x.sha, k))
  }

  lemma KnownPython(x: Parts, n: string)
    requires Readable(x.sha, x.norm, x.locks) && Product(x) && n in x.ByName()
    ensures Known(x, ComponentIn(x)(Python(n)))
  {
    Py.ByNameKeys(x.norm, x.locks.python);
    var k :| 0 <= k < |x.locks.python| && x.norm(x.locks.python[k].name) == n;
    PyComponentIs(x, k);
  }

  lemma KnownNpm(x: Parts, path: string)
    requires Readable(x.sha, x.norm, x.locks) && path in x.locks.Paths()
    ensures Known(x, ComponentIn(x)(Npm(path)))
  {
    NpmEntrySpelled(x.sha, x.locks.Paths(), path);
    assert ComponentIn(x)(Npm(path)) == NpmComponent(x.sha, x.locks.Paths(), path);
  }

  lemma KnownCrate(x: Parts, k: CargoKey)
    requires Readable(x.sha, x.norm, x.locks) && k in x.locks.Crates()
    ensures Known(x, ComponentIn(x)(Crate(k)))
  {
    CrateRefSpelled(x.sha, k);
    assert ComponentIn(x)(Crate(k)) == CargoComponent(x.sha)(k);
  }

  /** The graph lists nothing else. */
  lemma NothingElseListed(x: Parts, keys: seq<Package>, g: LockGraph, c: Component)
    requires Generated(x, keys, g) && c in g.components
    ensures Known(x, c)
  {
    var i :| 0 <= i < |g.components| && g.components[i] == c;
    assert keys[i] in Packages(x) && c == ComponentIn(x)(keys[i]);
    match keys[i]
    case Python(n) => KnownPython(x, n);
    case Npm(path) => KnownNpm(x, path);
    case Crate(k) => KnownCrate(x, k);
  }

  /** Which locks are read: a readable Python lock, a readable npm lock if there is one, and if there is
      a Cargo lock, a snapshot that belongs to it and resolves. */
  lemma ReadableMeans(sha: string -> string, norm: Py.Norm, locks: Locks3)
    ensures Readable(sha, norm, locks) <==>
      && Py.PyReadable(norm, locks.python) && (locks.npm.Some? ==> NpmFileReadable(locks.npm.value))
      && (locks.cargo.Some? ==>
            var c := locks.cargo.value;
            && Bound(sha, c.lockText, c.snapshot) && Locks(c.locked, c.snapshot.entries)
            && forall e: nat, d | LastOfKey(c.snapshot.entries, e) && d in c.snapshot.entries[e].dependencies ::
                 exists f :: f in c.snapshot.entries && f.key == d)
  {
    if locks.cargo.Some? { ResolvesMeans(locks.cargo.value.snapshot.entries); }
  }
}
