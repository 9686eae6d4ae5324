/** The Python part of the SBOM: packages of `uv.lock` by normalised name, their dependency
    graph, and the packages the product requires. */
module PythonLock {
  import opened Text
  import opened Reachability
  import opened SbomGraphs

  /** A lock record; `optional` are the dependencies of all its optional groups. */
  datatype PyPackage = PyPackage(name: string, version: string, dependencies: seq<string>,
                                 optional: seq<string>, editableRoot: bool)

  /** Package name normalisation. */
  type Norm = string -> string

  function Normalized(norm: Norm, names: seq<string>): set<string> { set n | n in names :: norm(n) }

  /** `_dependency_names`. */
  function DependencyNames(norm: Norm, p: PyPackage, includeOptional: bool): set<string> {
    Normalized(norm, p.dependencies) + if includeOptional then Normalized(norm, p.optional) else {}
  }

  function ByName(norm: Norm, lock: seq<PyPackage>): map<string, PyPackage> {
    if lock == [] then map[]
    else ByName(norm, lock[..|lock| - 1])[norm(lock[|lock| - 1].name) := lock[|lock| - 1]]
  }

  predicate UniqueNames(norm: Norm, lock: seq<PyPackage>) {
    forall i, j :: 0 <= i < j < |lock| ==> norm(lock[i].name) != norm(lock[j].name)
  }

  predicate OneRoot(lock: seq<PyPackage>, i: int) {
    0 <= i < |lock| && lock[i].editableRoot && forall j | 0 <= j < |lock| && j != i :: !lock[j].editableRoot
  }

  /** The dependency graph; only the root's optional groups count. */
  function DependencyGraph(norm: Norm, byName: map<string, PyPackage>, root: string): Graph {
    map n | n in byName :: DependencyNames(norm, byName[n], n == root)
  }

  ghost predicate PyReadable(norm: Norm, lock: seq<PyPackage>) {
    && UniqueNames(norm, lock)
    && exists i :: OneRoot(lock, i) && Resolved(DependencyGraph(norm, ByName(norm, lock), norm(lock[i].name)))
  }

  lemma {:induction false} ByNameKeys(norm: Norm, lock: seq<PyPackage>)
    ensures forall n :: n in ByName(norm, lock) <==> exists i :: 0 <= i < |lock| && norm(lock[i].name) == n
    ensures UniqueNames(norm, lock) ==> forall i | 0 <= i < |lock| ::
      norm(lock[i].name) in ByName(norm, lock) && ByName(norm, lock)[norm(lock[i].name)] == lock[i]
  {
    if lock != [] { ByNameKeys(norm, lock[..|lock| - 1]); }
  }

  /** What a package asks for: its plain dependencies, and those of its groups if it is the product. */
  ghost predicate Asks(p: PyPackage, d: string) { d in p.dependencies || (p.editableRoot && d in p.optional) }

  ghost predicate Locked(norm: Norm, lock: seq<PyPackage>, name: string) {
    exists k :: 0 <= k < |lock| && norm(lock[k].name) == norm(name)
  }

  lemma AskedNames(norm: Norm, p: PyPackage, includeOptional: bool)
    requires includeOptional <==> p.editableRoot
    ensures forall e :: e in DependencyNames(norm, p, includeOptional) <==> exists d :: Asks(p, d) && norm(d) == e
  {
  }

  lemma ResolvedMeans(norm: Norm, lock: seq<PyPackage>, i: int)
    requires UniqueNames(norm, lock) && OneRoot(lock, i)
    ensures Resolved(DependencyGraph(norm, ByName(norm, lock), norm(lock[i].name))) <==>
              forall k, d | 0 <= k < |lock| && Asks(lock[k], d) :: Locked(norm, lock, d)
  {
    var byName, root := ByName(norm, lock), norm(lock[i].name);
    ByNameKeys(norm, lock);
    var graph := DependencyGraph(norm, byName, root);
    forall k | 0 <= k < |lock| ensures forall e :: e in graph[norm(lock[k].name)] <==> exists d :: Asks(lock[k], d) && norm(d) == e {
      AskedNames(norm, lock[k], norm(lock[k].name) == root);
    }
    assert forall d :: Locked(norm, lock, d) <==> norm(d) in byName;
    if Resolved(graph) {
      forall k, d | 0 <= k < |lock| && Asks(lock[k], d) ensures Locked(norm, lock, d) {
        assert norm(d) in graph[norm(lock[k].name)];
      }
    }
    if forall k, d | 0 <= k < |lock| && Asks(lock[k], d) :: Locked(norm, lock, d) {
      forall n, e | n in graph && e in graph[n] ensures e in graph {
        var k :| 0 <= k < |lock| && norm(lock[k].name) == n;
        var d :| Asks(lock[k], d) && norm(d) == e;
      }
    }
  }

  /** Which locks are read: normalised names that differ, one product, and every package that
      another one asks for. */
  lemma PyReadableMeans(norm: Norm, lock: seq<PyPackage>)
    ensures PyReadable(norm, lock) <==>
      && (forall i, j | 0 <= i < j < |lock| :: norm(lock[i].name) != norm(lock[j].name))
      && (exists i :: 0 <= i < |lock| && lock[i].editableRoot && forall j | 0 <= j < |lock| && j != i :: !lock[j].editableRoot)
      && forall k, d | 0 <= k < |lock| && Asks(lock[k], d) :: Locked(norm, lock, d)
  {
    if UniqueNames(norm, lock) {
      if i :| OneRoot(lock, i) {
        ResolvedMeans(norm, lock, i);
        assert forall j | OneRoot(lock, j) :: j == i;
      }
      assert forall i :: OneRoot(lock, i) <==>
        0 <= i < |lock| && lock[i].editableRoot && forall j | 0 <= j < |lock| && j != i :: !lock[j].editableRoot;
    }
  }

  /** A component, given the root's name and the set of required packages. */
  function PyComponent(norm: Norm, byName: map<string, PyPackage>, root: string, required: set<string>, n: string): Component {
    var p := if n in byName then byName[n] else PyPackage("", "", [], [], false);
    Component(Purl(n, p.version), p.name, p.version,
              if n == root then InternalRoot
              else if root in byName && n in DependencyNames(norm, byName[root], true) then Direct
              else Transitive,
              n == root || n in required)
  }

  function ComponentOf(norm: Norm, byName: map<string, PyPackage>, root: string, required: set<string>): string -> Component {
    n => PyComponent(norm, byName, root, required, n)
  }

  function EdgesOf(g: Graph): string -> set<string> { n => if n in g then g[n] else {} }

  /** `roots = [p for p in packages if editable]`, of which there must be exactly one. */
  method FindRoot(lock: seq<PyPackage>) returns (found: Option<nat>)
    ensures found.Some? ==> OneRoot(lock, found.value)
    ensures found.None? ==> forall i :: !OneRoot(lock, i)
  {
    found := None;
    for i := 0 to |lock|
      invariant found.Some? ==> found.value < i && lock[found.value].editableRoot
      invariant forall j | 0 <= j < i && lock[j].editableRoot :: found == Some(j)
    {
      if lock[i].editableRoot {
        if found.Some? { return None; }
        found := Some(i);
      }
    }
  }

  lemma Clash(norm: Norm, lock: seq<PyPackage>, n: nat)
    requires n < |lock| && norm(lock[n].name) in ByName(norm, lock[..n])
    ensures !UniqueNames(norm, lock)
  {
    ByNameKeys(norm, lock[..n]);
    var i :| 0 <= i < n && norm(lock[..n][i].name) == norm(lock[n].name);
    assert norm(lock[i].name) == norm(lock[n].name);
  }

  lemma NoClash(norm: Norm, lock: seq<PyPackage>, p: PyPackage)
    requires UniqueNames(norm, lock) && norm(p.name) !in ByName(norm, lock)
    ensures UniqueNames(norm, lock + [p])
    ensures ByName(norm, lock + [p]) == ByName(norm, lock)[norm(p.name) := p]
  {
    ByNameKeys(norm, lock);
    assert (lock + [p])[..|lock|] == lock;
  }

  method IndexByName(norm: Norm, lock: seq<PyPackage>) returns (r: Option<map<string, PyPackage>>)
    ensures r.Some? <==> UniqueNames(norm, lock)
    ensures r.Some? ==> r.value == ByName(norm, lock)
  {
    var byName: map<string, PyPackage> := map[];
    for i := 0 to |lock|
      invariant byName == ByName(norm, lock[..i]) && UniqueNames(norm, lock[..i])
    {
      if norm(lock[i].name) in byName {
        Clash(norm, lock, i);
        return None;
      }
      NoClash(norm, lock[..i], lock[i]);
      TakeOneMore(lock, i);
      byName := byName[norm(lock[i].name) := lock[i]];
    }
    TakeAll(lock);
    r := Some(byName);
  }

  /** The worklist's start: the root's plain dependencies, optional groups aside. */
  function RequiredRoots(norm: Norm, p: PyPackage): (r: seq<string>)
    ensures forall n | n in r :: n in Normalized(norm, p.dependencies)
  {
    seq(|p.dependencies|, i requires 0 <= i < |p.dependencies| => norm(p.dependencies[i]))
  }

  ghost predicate Reached(norm: Norm, byName: map<string, PyPackage>, root: string, n: string)
    requires root in byName
  {
    ReachableFrom(DependencyGraph(norm, byName, root), RequiredRoots(norm, byName[root]), n)
  }

  /** The required packages are the root's plain dependencies and whatever they lead to. */
  ghost predicate RequiredSet(norm: Norm, byName: map<string, PyPackage>, root: string, required: set<string>)
    requires root in byName
  {
    forall n :: n in required <==> Reached(norm, byName, root, n)
  }

  ghost predicate PythonGraph(norm: Norm, byName: map<string, PyPackage>, root: string,
                              g: LockGraph, keys: seq<string>, required: set<string>)
  {
    && root in byName && Resolved(DependencyGraph(norm, byName, root))
    && Enumerates(keys, byName.Keys) && RequiredSet(norm, byName, root, required)
    && Translates(g, keys, ComponentOf(norm, byName, root, required), EdgesOf(DependencyGraph(norm, byName, root)))
  }

  method Assemble(norm: Norm, byName: map<string, PyPackage>, root: string)
      returns (g: LockGraph, ghost keys: seq<string>, ghost required: set<string>)
    requires root in byName && Resolved(DependencyGraph(norm, byName, root))
    ensures PythonGraph(norm, byName, root, g, keys, required)
  {
    var graph := DependencyGraph(norm, byName, root);
    assert forall x | x in RequiredRoots(norm, byName[root]) :: x in graph[root];
    var reached := RequiredReachable(graph, RequiredRoots(norm, byName[root]));
    var names := Enumerate(byName.Keys);
    keys, required := names, reached;
    g := Translate(names, ComponentOf(norm, byName, root, reached), EdgesOf(graph));
  }

  method PythonLockGraph(norm: Norm, lock: seq<PyPackage>)
      returns (r: Result<LockGraph>, root: string, ghost keys: seq<string>, ghost required: set<string>)
    ensures r.Ok? <==> PyReadable(norm, lock)
    ensures r.Ok? ==> PythonGraph(norm, ByName(norm, lock), root, r.value, keys, required)
    ensures r.Ok? ==> ByName(norm, lock)[root].editableRoot
  {
    root, keys, required := "", [], {};
    var index := IndexByName(norm, lock);
    var at := FindRoot(lock);
    if index.None? || at.None? { return Rejected, "", [], {}; }
    root := norm(lock[at.value].name);
    ByNameKeys(norm, lock);
    assert root in index.value && index.value[root] == lock[at.value];
    var resolved := Resolved(DependencyGraph(norm, index.value, root));
    assert forall i | OneRoot(lock, i) :: i == at.value;
    if !resolved { return Rejected, "", [], {}; }
    var g;
    g, keys, required := Assemble(norm, index.value, root);
    r := Ok(g);
  }

  /** A purl spells out the name it stands for. */
  lemma PythonRefsDistinct(norm: Norm, byName: map<string, PyPackage>, root: string, keys: seq<string>, required: set<string>)
    requires Enumerates(keys, byName.Keys)
    ensures DistinctRefs(keys, ComponentOf(norm, byName, root, required))
  {
    var component := ComponentOf(norm, byName, root, required);
    forall i, j | 0 <= i < j < |keys| ensures component(keys[i]).ref != component(keys[j]).ref {
      assert component(keys[i]).ref.name == keys[i] && component(keys[j]).ref.name == keys[j];
    }
  }

  lemma RequiredMarks(norm: Norm, byName: map<string, PyPackage>, root: string,
                      g: LockGraph, keys: seq<string>, required: set<string>)
    requires PythonGraph(norm, byName, root, g, keys, required)
    ensures forall c | c in g.components ::
      c.ref.Purl? && (c.required <==> c.ref.name == root || Reached(norm, byName, root, c.ref.name))
  {
    forall c | c in g.components
      ensures c.ref.Purl? && (c.required <==> c.ref.name == root || c.ref.name in required)
    {
      var i :| 0 <= i < |g.components| && g.components[i] == c;
    }
  }

  /** A component is `required` exactly when it is the root or reachable from the root's
      required dependencies; the graph is closed, cycles included. */
  lemma PythonGraphClosed(norm: Norm, byName: map<string, PyPackage>, root: string,
                          g: LockGraph, keys: seq<string>, required: set<string>)
    requires PythonGraph(norm, byName, root, g, keys, required)
    ensures Closed(g) && Purl(root, byName[root].version) in Refs(g.components)
    ensures forall ref | ref in Refs(g.components) :: ref.Purl?
    ensures forall c | c in g.components ::
      c.required <==> (c.ref.name == root || Reached(norm, byName, root, c.ref.name))
  {
    var graph := DependencyGraph(norm, byName, root);
    forall k, e | k in keys && e in EdgesOf(graph)(k) ensures e in keys {
      assert k in graph && e in graph.Keys;
    }
    PythonRefsDistinct(norm, byName, root, keys, required);
    TranslationClosed(g, keys, ComponentOf(norm, byName, root, required), EdgesOf(graph));
    assert root in keys;
    RequiredMarks(norm, byName, root, g, keys, required);
  }
}
