/** `generate_supply_chain_artifacts`: the Python, npm and Cargo graphs merged into one, with
    the npm and Cargo roots hung below the product. */
module SupplyChain {
  import opened Text
  import opened Reachability
  import opened SbomGraphs
  import opened NpmLock
  import Py = PythonLock
  import opened CargoLock

  datatype CargoInputs = CargoInputs(locked: seq<CargoKey>, lockText: string, snapshot: Snapshot)

  /** The lock files; the web ones may be absent. */
  datatype Locks3 = Locks3(python: seq<Py.PyPackage>, npm: Option<NpmFile>, cargo: Option<CargoInputs>) {
    function Paths(): NpmPackages { if npm.Some? then npm.value.packages else map[] }

    function Crates(): map<CargoKey, seq<CargoKey>> { if cargo.Some? then ByKey(cargo.value.snapshot.entries) else map[] }
  }

  predicate CargoReadable(sha: string -> string, inputs: CargoInputs) {
    && Bound(sha, inputs.lockText, inputs.snapshot)
    && Locks(inputs.locked, inputs.snapshot.entries) && Resolves(ByKey(inputs.snapshot.entries))
  }

  ghost predicate Readable(sha: string -> string, norm: Py.Norm, locks: Locks3) {
    && Py.PyReadable(norm, locks.python)
    && (locks.npm.Some? ==> NpmFileReadable(locks.npm.value))
    && (locks.cargo.Some? ==> CargoReadable(sha, locks.cargo.value))
  }

  /** A package of any of the three locks. */
  datatype Package = Python(name: string) | Npm(path: string) | Crate(key: CargoKey)

  function NpmRoot(locks: Locks3): set<Package> { if locks.npm.Some? then {Npm("")} else {} }

  function CargoRoot(locks: Locks3): set<Package> {
    var root := if locks.cargo.Some? then LastRoot(locks.cargo.value.snapshot.entries) else None;
    if root.Some? then {Crate(root.value)} else {}
  }

  /** What the merged graph is made of: the locks, the product's name, and the Python packages
      it requires. */
  datatype Parts = Parts(norm: Py.Norm, sha: string -> string, locks: Locks3, root: string, required: set<string>) {
    function ByName(): map<string, Py.PyPackage> { Py.ByName(norm, locks.python) }

    /** The root of the npm lock and the root crate. */
    function Hung(): set<Package> { NpmRoot(locks) + CargoRoot(locks) }
  }

  function Packages(x: Parts): set<Package> {
    (set n | n in x.ByName() :: Python(n)) + (set p | p in x.locks.Paths() :: Npm(p)) + set k | k in x.locks.Crates() :: Crate(k)
  }

  function ComponentIn(x: Parts): Package -> Component {
    (p: Package) =>
      match p
      case Python(n) => Py.PyComponent(x.norm, x.ByName(), x.root, x.required, n)
      case Npm(path) => NpmComponent(x.sha, x.locks.Paths(), path)
      case Crate(k) => CargoComponent(x.sha)(k)
  }

  /** The dependencies each lock gives its packages. */
  function LockEdges(x: Parts): Package -> set<Package> {
    (p: Package) =>
      match p
      case Python(n) => set e | e in Py.EdgesOf(Py.DependencyGraph(x.norm, x.ByName(), x.root))(n) :: Python(e)
      case Npm(path) => set e | e in NpmEdges(x.locks.Paths(), path) :: Npm(e)
      case Crate(k) => set e | e in CargoEdges(x.locks.Crates())(k) :: Crate(e)
  }

  /** And the product also depends on the other two roots. */
  function AllEdges(x: Parts): Package -> set<Package> {
    (p: Package) => if p == Python(x.root) then LockEdges(x)(p) + x.Hung() else LockEdges(x)(p)
  }

  /** The product is the editable Python package, and what it requires is what its plain
      dependencies reach. */
  ghost predicate Product(x: Parts) {
    && x.root in x.ByName() && x.ByName()[x.root].editableRoot
    && Resolved(Py.DependencyGraph(x.norm, x.ByName(), x.root))
    && Py.RequiredSet(x.norm, x.ByName(), x.root, x.required)
  }

  /** The merged graph: each package of each lock with its component and all its dependencies,
      and nothing else. */
  ghost predicate Sbom(x: Parts, keys: seq<Package>, g: LockGraph) {
    && Product(x)
    && Enumerates(keys, Packages(x)) && Translates(g, keys, ComponentIn(x), AllEdges(x))
  }

  const EMPTY: LockGraph := LockGraph([], [])

  // ---------------------------------------------------------------- the three parts

  lemma PythonPart(x: Parts, g: LockGraph, keys: seq<string>)
    requires Py.PythonGraph(x.norm, x.ByName(), x.root, g, keys, x.required)
    ensures Translates(g, Each(keys, n => Python(n)), ComponentIn(x), LockEdges(x))
  {
    WrapTranslates(g, keys, Py.ComponentOf(x.norm, x.ByName(), x.root, x.required),
                   Py.EdgesOf(Py.DependencyGraph(x.norm, x.ByName(), x.root)), n => Python(n), ComponentIn(x), LockEdges(x));
  }

  lemma NpmPart(x: Parts, g: LockGraph, keys: seq<string>)
    requires Translates(g, keys, ComponentOf(x.sha, x.locks.Paths()), EdgesOf(x.locks.Paths()))
    ensures Translates(g, Each(keys, p => Npm(p)), ComponentIn(x), LockEdges(x))
  {
    WrapTranslates(g, keys, ComponentOf(x.sha, x.locks.Paths()), EdgesOf(x.locks.Paths()),
                   p => Npm(p), ComponentIn(x), LockEdges(x));
  }

  lemma CargoPart(x: Parts, g: LockGraph, keys: seq<CargoKey>)
    requires Translates(g, keys, CargoComponent(x.sha), CargoEdges(x.locks.Crates()))
    ensures Translates(g, Each(keys, k => Crate(k)), ComponentIn(x), LockEdges(x))
  {
    WrapTranslates(g, keys, CargoComponent(x.sha), CargoEdges(x.locks.Crates()),
                   k => Crate(k), ComponentIn(x), LockEdges(x));
  }

  lemma Wrapped<K(!new)>(keys: seq<K>, s: set<K>, wrap: K -> Package)
    requires Enumerates(keys, s) && forall a, b :: wrap(a) == wrap(b) ==> a == b
    ensures Enumerates(Each(keys, wrap), set k | k in s :: wrap(k))
  {
    var each := Each(keys, wrap);
    forall p ensures p in each <==> p in set k | k in s :: wrap(k) {
      if p in each {
        var i :| 0 <= i < |each| && each[i] == p;
        assert keys[i] in keys;
      }
      if k :| k in s && wrap(k) == p {
        var i :| 0 <= i < |keys| && keys[i] == k;
        assert each[i] == p;
      }
    }
  }

  lemma Joined<K(!new)>(a: seq<K>, b: seq<K>, s: set<K>, t: set<K>)
    requires Enumerates(a, s) && Enumerates(b, t) && s !! t
    ensures Enumerates(a + b, s + t)
  {
    forall i, j | 0 <= i < j < |a + b| ensures (a + b)[i] != (a + b)[j] {
      if i < |a| <= j { assert a[i] in s && b[j - |a|] in t; }
    }
  }

  function AllKeys(py: seq<string>, npm: seq<string>, cargo: seq<CargoKey>): seq<Package> {
    Each(py, n => Python(n)) + Each(npm, p => Npm(p)) + Each(cargo, k => Crate(k))
  }

  lemma AllKeysEnumerate(x: Parts, py: seq<string>, npm: seq<string>, cargo: seq<CargoKey>)
    requires Enumerates(py, x.ByName().Keys) && Enumerates(npm, x.locks.Paths().Keys)
    requires Enumerates(cargo, x.locks.Crates().Keys)
    ensures Enumerates(AllKeys(py, npm, cargo), Packages(x))
  {
    Wrapped(py, x.ByName().Keys, n => Python(n));
    Wrapped(npm, x.locks.Paths().Keys, p => Npm(p));
    Wrapped(cargo, x.locks.Crates().Keys, k => Crate(k));
    var a, b, c := set n | n in x.ByName() :: Python(n), set p | p in x.locks.Paths() :: Npm(p),
                   set k | k in x.locks.Crates() :: Crate(k);
    Joined(Each(py, n => Python(n)), Each(npm, p => Npm(p)), a, b);
    Joined(Each(py, n => Python(n)) + Each(npm, p => Npm(p)), Each(cargo, k => Crate(k)), a + b, c);
  }

  lemma ThreeTranslate(x: Parts, py: LockGraph, npm: LockGraph, cargo: LockGraph,
                       pyKeys: seq<string>, npmKeys: seq<string>, cargoKeys: seq<CargoKey>)
    requires Py.PythonGraph(x.norm, x.ByName(), x.root, py, pyKeys, x.required)
    requires Translates(npm, npmKeys, ComponentOf(x.sha, x.locks.Paths()), EdgesOf(x.locks.Paths()))
    requires Translates(cargo, cargoKeys, CargoComponent(x.sha), CargoEdges(x.locks.Crates()))
    ensures Translates(Merge(Merge(py, npm), cargo), AllKeys(pyKeys, npmKeys, cargoKeys), ComponentIn(x), LockEdges(x))
  {
    PythonPart(x, py, pyKeys);
    NpmPart(x, npm, npmKeys);
    CargoPart(x, cargo, cargoKeys);
    MergeTranslates(py, npm, Each(pyKeys, n => Python(n)), Each(npmKeys, p => Npm(p)), ComponentIn(x), LockEdges(x));
    MergeTranslates(Merge(py, npm), cargo, Each(pyKeys, n => Python(n)) + Each(npmKeys, p => Npm(p)),
                    Each(cargoKeys, k => Crate(k)), ComponentIn(x), LockEdges(x));
  }

  lemma RefSpelled(x: Parts, p: Package)
    ensures var ref := ComponentIn(x)(p).ref;
      match p
      case Python(n) => ref.Purl? && ref.name == n
      case Npm(path) => ref == NpmComponent(x.sha, x.locks.Paths(), path).ref && ref.Urn? && ref.ecosystem == "npm"
      case Crate(k) => ref == CargoComponent(x.sha)(k).ref && ref.Urn? && ref.ecosystem == "cargo"
  {
    if p.Python? {
      assert ComponentIn(x)(p) == Py.PyComponent(x.norm, x.ByName(), x.root, x.required, p.name);
    }
  }

  /** Only the product's record carries the product's purl. */
  lemma ProductsRecord(x: Parts, keys: seq<Package>, g: LockGraph, at: nat)
    requires Product(x) && Enumerates(keys, Packages(x)) && Translates(g, keys, ComponentIn(x), LockEdges(x))
    requires at < |g.records| && g.records[at].ref == Purl(x.root, x.ByName()[x.root].version)
    ensures keys[at] == Python(x.root)
  {
    assert g.records[at].ref == ComponentIn(x)(keys[at]).ref;
    RefSpelled(x, keys[at]);
  }

  lemma ProductRecorded(x: Parts, keys: seq<Package>, g: LockGraph)
    requires Product(x) && Enumerates(keys, Packages(x)) && Translates(g, keys, ComponentIn(x), LockEdges(x))
    ensures Purl(x.root, x.ByName()[x.root].version) in RecordRefs(g.records)
  {
    assert Python(x.root) in Packages(x);
    var i :| 0 <= i < |keys| && keys[i] == Python(x.root);
    assert ComponentIn(x)(keys[i]) == Py.PyComponent(x.norm, x.ByName(), x.root, x.required, x.root);
    assert g.records[i] in g.records;
  }

  /** Hanging the other roots below the product completes the graph. */
  lemma HungBelowProduct(x: Parts, keys: seq<Package>, g: LockGraph, at: nat, roots: set<Ref>)
    requires Product(x) && Enumerates(keys, Packages(x)) && Translates(g, keys, ComponentIn(x), LockEdges(x))
    requires at < |g.records| && g.records[at].ref == Purl(x.root, x.ByName()[x.root].version)
    requires roots == set k | k in x.Hung() :: ComponentIn(x)(k).ref
    ensures Sbom(x, keys, g.(records := g.records[at := g.records[at].(dependsOn := g.records[at].dependsOn + roots)]))
  {
    ProductsRecord(x, keys, g, at);
    ExtendTranslates(g, keys, ComponentIn(x), LockEdges(x), at, x.Hung(), AllEdges(x));
  }

  // ---------------------------------------------------------------- the generator

  method NpmGraph(sha: string -> string, locks: Locks3) returns (ok: bool, g: LockGraph, roots: set<Ref>, ghost keys: seq<string>)
    ensures ok <==> (locks.npm.Some? ==> NpmFileReadable(locks.npm.value))
    ensures ok ==> Enumerates(keys, locks.Paths().Keys)
    ensures ok ==> Translates(g, keys, ComponentOf(sha, locks.Paths()), EdgesOf(locks.Paths()))
    ensures ok ==> roots == if locks.npm.Some? then {NpmComponent(sha, locks.Paths(), "").ref} else {}
  {
    ok, g, roots, keys := true, EMPTY, {}, [];
    if locks.npm.Some? {
      var r;
      r, keys := NpmLockGraph(sha, locks.npm.value);
      if r.Ok? {
        g, roots := r.value, {NpmComponent(sha, locks.npm.value.packages, "").ref};
      } else {
        ok := false;
      }
    }
  }

  method CargoPartGraph(sha: string -> string, locks: Locks3)
      returns (ok: bool, g: LockGraph, roots: set<Ref>, ghost keys: seq<CargoKey>)
    ensures ok <==> (locks.cargo.Some? ==> CargoReadable(sha, locks.cargo.value))
    ensures ok ==> Enumerates(keys, locks.Crates().Keys)
    ensures ok ==> Translates(g, keys, CargoComponent(sha), CargoEdges(locks.Crates()))
    ensures ok && locks.cargo.Some? ==> LastRoot(locks.cargo.value.snapshot.entries).Some?
    ensures ok ==> roots == if locks.cargo.Some? then {CargoComponent(sha)(LastRoot(locks.cargo.value.snapshot.entries).value).ref} else {}
  {
    ok, g, roots, keys := true, EMPTY, {}, [];
    if locks.cargo.Some? {
      var r;
      r, keys := CargoLockGraph(sha, locks.cargo.value.locked, locks.cargo.value.lockText, locks.cargo.value.snapshot);
      if r.CargoGraph? {
        g, roots := r.graph, {r.root};
      } else {
        ok := false;
      }
    }
  }

  /** `next(item for item in records if item["ref"] == ref)`. */
  method FindRecord(records: seq<Record>, ref: Ref) returns (at: Option<nat>)
    ensures at.Some? ==> at.value < |records| && records[at.value].ref == ref
    ensures at.None? ==> ref !in RecordRefs(records)
  {
    for i := 0 to |records|
      invariant forall j | 0 <= j < i :: records[j].ref != ref
    {
      if records[i].ref == ref { return Some(i); }
    }
    at := None;
  }

  lemma HungRefs(x: Parts, npmRoots: set<Ref>, cargoRoots: set<Ref>)
    requires npmRoots == if x.locks.npm.Some? then {NpmComponent(x.sha, x.locks.Paths(), "").ref} else {}
    requires x.locks.cargo.Some? ==> LastRoot(x.locks.cargo.value.snapshot.entries).Some?
    requires cargoRoots == if x.locks.cargo.Some? then {CargoComponent(x.sha)(LastRoot(x.locks.cargo.value.snapshot.entries).value).ref} else {}
    ensures npmRoots + cargoRoots == set k | k in x.Hung() :: ComponentIn(x)(k).ref
  {
    var refs := set k | k in x.Hung() :: ComponentIn(x)(k).ref;
    if x.locks.npm.Some? { assert Npm("") in x.Hung() && ComponentIn(x)(Npm("")).ref in refs; }
    if x.locks.cargo.Some? {
      var crate := Crate(LastRoot(x.locks.cargo.value.snapshot.entries).value);
      assert crate in x.Hung() && ComponentIn(x)(crate).ref in refs;
    }
  }

  /** Success is readability of the locks, and the result lists every package of the three
      locks with every dependency. */
  method GenerateSbom(sha: string -> string, norm: Py.Norm, locks: Locks3)
      returns (r: Result<LockGraph>, root: string, ghost keys: seq<Package>, ghost required: set<string>)
    ensures r.Ok? <==> Readable(sha, norm, locks)
    ensures r.Ok? ==> Sbom(Parts(norm, sha, locks, root, required), keys, r.value)
  {
    r, keys := Rejected, [];
    var py;
    ghost var pyKeys;
    py, root, pyKeys, required := Py.PythonLockGraph(norm, locks.python);
    var npmOk, npm, npmRoots, npmKeys := NpmGraph(sha, locks);
    var cargoOk, cargo, cargoRoots, cargoKeys := CargoPartGraph(sha, locks);
    if py.Ok? && npmOk && cargoOk {
      ghost var x := Parts(norm, sha, locks, root, required);
      keys := AllKeys(pyKeys, npmKeys, cargoKeys);
      ThreeTranslate(x, py.value, npm, cargo, pyKeys, npmKeys, cargoKeys);
      AllKeysEnumerate(x, pyKeys, npmKeys, cargoKeys);
      var g := Merge(Merge(py.value, npm), cargo);
      var roots := npmRoots + cargoRoots;
      var at := FindRecord(g.records, Purl(root, Py.ByName(norm, locks.python)[root].version));
      ProductRecorded(x, keys, g);
      HungRefs(x, npmRoots, cargoRoots);
      HungBelowProduct(x, keys, g, at.value, roots);
      var record := g.records[at.value];
      r := Ok(g.(records := g.records[at.value := record.(dependsOn := record.dependsOn + roots)]));
    }
  }

  // ---------------------------------------------------------------- what such a graph is worth

  /** The roots hung below the product are packages of their locks. */
  ghost predicate RootsLocked(locks: Locks3) {
    && (locks.npm.Some? ==> "" in locks.npm.value.packages)
    && forall p | p in CargoRoot(locks) :: p.key in locks.Crates()
  }

  lemma LockEdgeInside(x: Parts, k: Package, e: Package)
    requires Product(x) && Resolves(x.locks.Crates())
    requires k in Packages(x) && e in LockEdges(x)(k)
    ensures e in Packages(x)
  {
    match k
    case Python(n) =>
      var graph := Py.DependencyGraph(x.norm, x.ByName(), x.root);
      var m :| m in Py.EdgesOf(graph)(n) && e == Python(m);
      assert n in graph && graph[n] <= graph.Keys && Py.EdgesOf(graph)(n) == graph[n];
      assert m in x.ByName();
    case Npm(path) =>
      EdgesLocked(x.locks.Paths());
      var p :| p in NpmEdges(x.locks.Paths(), path) && e == Npm(p);
    case Crate(key) =>
      var d :| d in CargoEdges(x.locks.Crates())(key) && e == Crate(d);
      var crates := x.locks.Crates();
      assert key in crates && CargoEdges(crates)(key) == set c | c in crates[key];
  }

  /** Two packages of one ecosystem share a reference only if their fields give one text. */
  ghost predicate Apart(locks: Locks3) { NpmApart(locks.Paths()) && CratesApart(locks.Crates()) }

  lemma DistinctAt(x: Parts, keys: seq<Package>, p: Package, q: Package)
    requires DistinctRefs(keys, ComponentIn(x)) && p in keys && q in keys && p != q
    ensures ComponentIn(x)(p).ref != ComponentIn(x)(q).ref
  {
    var i :| 0 <= i < |keys| && keys[i] == p;
    var j :| 0 <= j < |keys| && keys[j] == q;
    assert ComponentIn(x)(keys[if i < j then i else j]).ref != ComponentIn(x)(keys[if i < j then j else i]).ref;
  }

  lemma ApartRefs(x: Parts, p: Package, q: Package)
    requires Injective(x.sha) && Apart(x.locks) && p in Packages(x) && q in Packages(x) && p != q
    ensures ComponentIn(x)(p).ref != ComponentIn(x)(q).ref
  {
    RefSpelled(x, p);
    RefSpelled(x, q);
    if p.Npm? && q.Npm? { NpmRefsDistinct(x.sha, x.locks.Paths(), p.path, q.path); }
    if p.Crate? && q.Crate? { CargoRefsDistinct(x.sha, p.key, q.key); }
  }

  lemma SbomRefsDistinct(x: Parts, keys: seq<Package>)
    requires Enumerates(keys, Packages(x)) && Injective(x.sha)
    ensures DistinctRefs(keys, ComponentIn(x)) <==> Apart(x.locks)
  {
    if DistinctRefs(keys, ComponentIn(x)) {
      forall p, q | p in x.locks.Paths() && q in x.locks.Paths() && p != q
        ensures NpmText(x.locks.Paths(), p) != NpmText(x.locks.Paths(), q)
      {
        DistinctAt(x, keys, Npm(p), Npm(q));
        NpmRefsDistinct(x.sha, x.locks.Paths(), p, q);
      }
      forall p, q | p in x.locks.Crates() && q in x.locks.Crates() && p != q ensures CrateText(p) != CrateText(q) {
        DistinctAt(x, keys, Crate(p), Crate(q));
        CargoRefsDistinct(x.sha, p, q);
      }
    } else if Apart(x.locks) {
      forall i, j | 0 <= i < j < |keys| ensures ComponentIn(x)(keys[i]).ref != ComponentIn(x)(keys[j]).ref {
        assert keys[i] in keys && keys[j] in keys;
        ApartRefs(x, keys[i], keys[j]);
      }
    }
  }

  lemma ReadableRoots(sha: string -> string, norm: Py.Norm, locks: Locks3)
    requires Readable(sha, norm, locks)
    ensures Resolves(locks.Crates()) && RootsLocked(locks)
  {
    if locks.cargo.Some? { LastRootListed(locks.cargo.value.snapshot.entries); }
  }

  /** Every reference of the SBOM of readable locks resolves to exactly one component and one record precisely
      when the field texts are apart. */
  lemma SbomClosed(x: Parts, keys: seq<Package>, g: LockGraph)
    requires Sbom(x, keys, g) && Readable(x.sha, x.norm, x.locks) && Injective(x.sha)
    ensures Closed(g) <==> Apart(x.locks)
    ensures Refs(g.components) == set p | p in Packages(x) :: ComponentIn(x)(p).ref
  {
    ReadableRoots(x.sha, x.norm, x.locks);
    forall k, e | k in keys && e in AllEdges(x)(k) ensures e in keys {
      if e in LockEdges(x)(k) { LockEdgeInside(x, k, e); }
    }
    TranslationClosed(g, keys, ComponentIn(x), AllEdges(x));
    SbomRefsDistinct(x, keys);
    assert (set p | p in Packages(x) :: ComponentIn(x)(p).ref) == set k | k in keys :: ComponentIn(x)(k).ref;
  }

  /** The Python components marked as required are the product and what its plain dependencies
      reach. */
  lemma SbomRequired(x: Parts, keys: seq<Package>, g: LockGraph)
    requires Sbom(x, keys, g)
    ensures forall c | c in g.components && c.ref.Purl? ::
      c.required <==> c.ref.name == x.root || Py.Reached(x.norm, x.ByName(), x.root, c.ref.name)
  {
    forall c | c in g.components && c.ref.Purl?
      ensures c.required <==> c.ref.name == x.root || Py.Reached(x.norm, x.ByName(), x.root, c.ref.name)
    {
      var i :| 0 <= i < |g.components| && g.components[i] == c;
      RefSpelled(x, keys[i]);
      assert c == Py.PyComponent(x.norm, x.ByName(), x.root, x.required, c.ref.name);
    }
  }
}
