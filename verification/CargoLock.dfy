/** The Cargo part of the SBOM: the snapshot generator projects `cargo metadata` onto stable
    identities, and the SBOM generator turns a snapshot bound to `Cargo.lock` into a graph. */
module CargoLock {
  import opened Text
  import opened Reachability
  import opened SbomGraphs

  datatype CargoKey = CargoKey(name: string, version: string, source: string)

  datatype CargoEntry = CargoEntry(key: CargoKey, dependencies: seq<CargoKey>)

  const SNAPSHOT_SCHEMA: string := "visiondata-gate.cargo-license-snapshot.v1"
  const TARGET: string := "x86_64-pc-windows-msvc"

  /** What a snapshot says of itself. */
  datatype Header = Header(schema: string, lockSha256: string, target: string, paths: bool, authors: bool, count: int)

  datatype Snapshot = Snapshot(header: Header, entries: seq<CargoEntry>)

  function HeaderFor(sha: string -> string, lockText: string, count: nat): Header {
    Header(SNAPSHOT_SCHEMA, sha(lockText), TARGET, false, false, count)
  }

  /** The snapshot belongs to that lock. */
  predicate Bound(sha: string -> string, lockText: string, snapshot: Snapshot) {
    snapshot.header == HeaderFor(sha, lockText, |snapshot.entries|)
  }

  // ---------------------------------------------------------------- the snapshot generator

  /** A package and a resolve node of `cargo metadata`. */
  datatype MetaPackage = MetaPackage(id: string, name: string, version: string, source: Option<string>)
  datatype MetaNode = MetaNode(id: string, dependencies: seq<string>)

  function IdentityOf(p: MetaPackage): CargoKey {
    CargoKey(p.name, p.version, if p.source.GetOr("") == "" then "local-workspace" else p.source.value)
  }

  /** Where each identity stands among the packages; defined only while none repeats. */
  predicate Positions(packages: seq<MetaPackage>, positions: map<CargoKey, nat>) {
    && (forall k | k in positions :: positions[k] < |packages| && IdentityOf(packages[positions[k]]) == k)
    && forall i | 0 <= i < |packages| :: IdentityOf(packages[i]) in positions && positions[IdentityOf(packages[i])] == i
  }

  predicate DistinctIdentities(packages: seq<MetaPackage>) {
    forall i, j :: 0 <= i < j < |packages| ==> IdentityOf(packages[i]) != IdentityOf(packages[j])
  }

  predicate Complete(p: MetaPackage) { p.name != "" && p.version != "" && p.id != "" }

  predicate Identified(packages: seq<MetaPackage>) {
    packages != [] && (forall p | p in packages :: Complete(p)) && DistinctIdentities(packages)
  }

  predicate IsIdentity(packages: seq<MetaPackage>, key: CargoKey) {
    exists i | 0 <= i < |packages| :: IdentityOf(packages[i]) == key
  }

  /** Later packages win a repeated id. */
  function IdMap(packages: seq<MetaPackage>): map<string, CargoKey> {
    if packages == [] then map[]
    else IdMap(packages[..|packages| - 1])[packages[|packages| - 1].id := IdentityOf(packages[|packages| - 1])]
  }

  predicate NodesKnown(nodes: seq<MetaNode>, ids: map<string, CargoKey>) {
    forall n | n in nodes :: n.id in ids && forall d | d in n.dependencies :: d in ids
  }

  function Identities(dependencies: seq<string>, ids: map<string, CargoKey>): seq<CargoKey>
    requires forall d | d in dependencies :: d in ids
  {
    seq(|dependencies|, i requires 0 <= i < |dependencies| => ids[dependencies[i]])
  }

  /** The dependencies the last node of an identity gives it. */
  function ResolvedFor(nodes: seq<MetaNode>, ids: map<string, CargoKey>, key: CargoKey): seq<CargoKey>
    requires NodesKnown(nodes, ids)
  {
    if nodes == [] then []
    else
      var last := nodes[|nodes| - 1];
      if ids[last.id] == key then Identities(last.dependencies, ids)
      else ResolvedFor(nodes[..|nodes| - 1], ids, key)
  }

  /** One entry per package, with the resolved edges between identities. */
  ghost predicate Projects(packages: seq<MetaPackage>, nodes: seq<MetaNode>, entries: seq<CargoEntry>) {
    && Identified(packages) && NodesKnown(nodes, IdMap(packages)) && |entries| == |packages|
    && forall i | 0 <= i < |packages| ::
         entries[i] == CargoEntry(IdentityOf(packages[i]), ResolvedFor(nodes, IdMap(packages), IdentityOf(packages[i])))
  }

  lemma {:induction false} IdMapValues(packages: seq<MetaPackage>)
    ensures forall id | id in IdMap(packages) :: IsIdentity(packages, IdMap(packages)[id])
  {
    if packages != [] {
      var init, last := packages[..|packages| - 1], packages[|packages| - 1];
      IdMapValues(init);
      assert packages == init + [last];
      forall id | id in IdMap(packages) ensures IsIdentity(packages, IdMap(packages)[id]) {
        if id == last.id {
          assert IdentityOf(packages[|init|]) == IdMap(packages)[id];
        } else {
          assert id in IdMap(init) && IsIdentity(init, IdMap(init)[id]);
          var i :| 0 <= i < |init| && IdentityOf(init[i]) == IdMap(init)[id];
          assert IdentityOf(packages[i]) == IdMap(packages)[id];
        }
      }
    }
  }

  lemma NewPosition(packages: seq<MetaPackage>, positions: map<CargoKey, nat>, p: MetaPackage)
    requires Positions(packages, positions) && IdentityOf(p) !in positions
    ensures Positions(packages + [p], positions[IdentityOf(p) := |packages|])
  {
    var more, moved := packages + [p], positions[IdentityOf(p) := |packages|];
    forall k | k in moved ensures moved[k] < |more| && IdentityOf(more[moved[k]]) == k {
      if k != IdentityOf(p) { assert more[positions[k]] == packages[positions[k]]; }
    }
    forall i | 0 <= i < |more| ensures IdentityOf(more[i]) in moved && moved[IdentityOf(more[i])] == i {
      if i < |packages| { assert more[i] == packages[i]; }
    }
  }

  lemma PositionsDistinct(packages: seq<MetaPackage>, positions: map<CargoKey, nat>)
    requires Positions(packages, positions)
    ensures DistinctIdentities(packages)
  {
  }

  lemma IdMapSnoc(packages: seq<MetaPackage>, p: MetaPackage)
    ensures IdMap(packages + [p]) == IdMap(packages)[p.id := IdentityOf(p)]
  {
    assert (packages + [p])[..|packages|] == packages;
  }

  lemma RepeatedPosition(packages: seq<MetaPackage>, n: nat, positions: map<CargoKey, nat>)
    requires n < |packages| && Positions(packages[..n], positions) && IdentityOf(packages[n]) in positions
    ensures !DistinctIdentities(packages)
  {
    var i := positions[IdentityOf(packages[n])];
    assert packages[..n][i] == packages[i];
  }

  /** What the loop knows after the first `n` packages. */
  ghost predicate IdentifiedSoFar(packages: seq<MetaPackage>, n: nat, ids: map<string, CargoKey>, positions: map<CargoKey, nat>) {
    && n <= |packages| && ids == IdMap(packages[..n]) && Positions(packages[..n], positions)
    && forall j | 0 <= j < n :: Complete(packages[j])
  }

  lemma IdentifiedOneMore(packages: seq<MetaPackage>, n: nat, ids: map<string, CargoKey>, positions: map<CargoKey, nat>)
    requires n < |packages| && IdentifiedSoFar(packages, n, ids, positions)
    requires IdentityOf(packages[n]) !in positions && Complete(packages[n])
    ensures IdentifiedSoFar(packages, n + 1, ids[packages[n].id := IdentityOf(packages[n])],
                            positions[IdentityOf(packages[n]) := n])
  {
    NewPosition(packages[..n], positions, packages[n]);
    IdMapSnoc(packages[..n], packages[n]);
    TakeOneMore(packages, n);
  }

  method IdentifyPackages(packages: seq<MetaPackage>)
      returns (ok: bool, ids: map<string, CargoKey>, positions: map<CargoKey, nat>)
    ensures ok <==> Identified(packages)
    ensures ok ==> ids == IdMap(packages) && Positions(packages, positions)
  {
    ids, positions, ok := map[], map[], packages != [];
    var i := 0;
    while i < |packages| && ok
      invariant i <= |packages| && (ok ==> IdentifiedSoFar(packages, i, ids, positions))
      invariant !ok ==> !Identified(packages)
      decreases |packages| - i, ok
    {
      var p := packages[i];
      var identity := IdentityOf(p);
      if !Complete(p) {
        ok := false;
      } else if identity in positions {
        RepeatedPosition(packages, i, positions);
        ok := false;
      } else {
        IdentifiedOneMore(packages, i, ids, positions);
        ids, positions, i := ids[p.id := identity], positions[identity := i], i + 1;
      }
    }
    if ok {
      TakeAll(packages);
      PositionsDistinct(packages, positions);
    }
  }

  /** No source counts as the workspace. */
  function SourceText(p: MetaPackage): string {
    match p.source
    case None => "local-workspace"
    case Some(text) => if |text| == 0 then "local-workspace" else text
  }

  /** What `cargo metadata` must give: at least one package, each with a name, a version and an
      id, and no two with the same name, version and source. */
  lemma IdentifiedMeans(packages: seq<MetaPackage>)
    ensures Identified(packages) <==>
      && packages != [] && (forall p | p in packages :: |p.name| > 0 && |p.version| > 0 && |p.id| > 0)
      && forall i, j | 0 <= i < j < |packages| ::
           packages[i].name != packages[j].name || packages[i].version != packages[j].version
           || SourceText(packages[i]) != SourceText(packages[j])
  {
    forall i | 0 <= i < |packages|
      ensures IdentityOf(packages[i]) == CargoKey(packages[i].name, packages[i].version, SourceText(packages[i]))
    {
    }
  }

  /** The package that an id stands for: the last one that has it. */
  ghost predicate StandsFor(packages: seq<MetaPackage>, id: string, i: nat) {
    i < |packages| && packages[i].id == id && forall j | i < j < |packages| :: packages[j].id != id
  }

  lemma {:induction false} StandsForIdentity(packages: seq<MetaPackage>, id: string, i: nat)
    requires StandsFor(packages, id, i)
    ensures id in IdMap(packages) && IdMap(packages)[id] == IdentityOf(packages[i])
    decreases |packages|
  {
    var n := |packages| - 1;
    if i < n {
      assert packages[n].id != id;
      assert packages[..n][i] == packages[i];
      StandsForIdentity(packages[..n], id, i);
    }
  }

  lemma {:induction false} KnownStandsFor(packages: seq<MetaPackage>, id: string) returns (i: nat)
    requires id in IdMap(packages)
    ensures StandsFor(packages, id, i)
    decreases |packages|
  {
    var n := |packages| - 1;
    if packages[n].id == id {
      i := n;
    } else {
      i := KnownStandsFor(packages[..n], id);
      assert packages[i] == packages[..n][i];
      assert forall j | i < j < n :: packages[j] == packages[..n][j];
    }
  }

  ghost predicate IsId(packages: seq<MetaPackage>, id: string) { exists p :: p in packages && p.id == id }

  lemma {:induction false} KnownIds(packages: seq<MetaPackage>)
    ensures forall id :: id in IdMap(packages) <==> IsId(packages, id)
  {
    if packages != [] {
      var init, last := packages[..|packages| - 1], packages[|packages| - 1];
      KnownIds(init);
      assert packages == init + [last];
    }
  }

  /** The resolve graph may name only ids of packages. */
  lemma NodesKnownMeans(packages: seq<MetaPackage>, nodes: seq<MetaNode>)
    ensures NodesKnown(nodes, IdMap(packages)) <==>
              forall n | n in nodes :: IsId(packages, n.id) && forall d | d in n.dependencies :: IsId(packages, d)
  {
    KnownIds(packages);
  }

  /** The last node of a package. */
  ghost predicate LastNode(packages: seq<MetaPackage>, nodes: seq<MetaNode>, i: nat, n: nat) {
    && n < |nodes| && StandsFor(packages, nodes[n].id, i)
    && forall m | n < m < |nodes| :: !StandsFor(packages, nodes[m].id, i)
  }

  lemma OthersIdentity(packages: seq<MetaPackage>, id: string, i: nat)
    requires DistinctIdentities(packages) && i < |packages| && id in IdMap(packages)
    ensures IdMap(packages)[id] == IdentityOf(packages[i]) <==> StandsFor(packages, id, i)
  {
    var j := KnownStandsFor(packages, id);
    StandsForIdentity(packages, id, j);
    if i != j { assert IdentityOf(packages[if i < j then i else j]) != IdentityOf(packages[if i < j then j else i]); }
  }

  lemma LastNodeBefore(packages: seq<MetaPackage>, nodes: seq<MetaNode>, i: nat, n: nat)
    requires LastNode(packages, nodes, i, n) && n < |nodes| - 1
    ensures LastNode(packages, nodes[..|nodes| - 1], i, n) && !StandsFor(packages, nodes[|nodes| - 1].id, i)
  {
    var before := nodes[..|nodes| - 1];
    assert forall m | n <= m < |before| :: before[m] == nodes[m];
  }

  lemma {:induction false} LastNodeResolves(packages: seq<MetaPackage>, nodes: seq<MetaNode>, i: nat, n: nat)
    requires DistinctIdentities(packages) && i < |packages| && NodesKnown(nodes, IdMap(packages))
    requires LastNode(packages, nodes, i, n)
    ensures forall d | d in nodes[n].dependencies :: d in IdMap(packages)
    ensures ResolvedFor(nodes, IdMap(packages), IdentityOf(packages[i])) == Identities(nodes[n].dependencies, IdMap(packages))
    decreases |nodes|
  {
    var last := |nodes| - 1;
    OthersIdentity(packages, nodes[last].id, i);
    if n < last {
      LastNodeBefore(packages, nodes, i, n);
      LastNodeResolves(packages, nodes[..last], i, n);
    }
  }

  lemma {:induction false} NoNodeResolves(packages: seq<MetaPackage>, nodes: seq<MetaNode>, i: nat)
    requires DistinctIdentities(packages) && i < |packages| && NodesKnown(nodes, IdMap(packages))
    requires forall n | 0 <= n < |nodes| :: !StandsFor(packages, nodes[n].id, i)
    ensures ResolvedFor(nodes, IdMap(packages), IdentityOf(packages[i])) == []
    decreases |nodes|
  {
    if nodes != [] {
      var last := |nodes| - 1;
      OthersIdentity(packages, nodes[last].id, i);
      NoNodeResolves(packages, nodes[..last], i);
    }
  }

  /** What the snapshot says of a package: its identity, and no dependencies if it has no node. */
  lemma ProjectedIdentity(packages: seq<MetaPackage>, nodes: seq<MetaNode>, entries: seq<CargoEntry>, i: nat)
    requires Projects(packages, nodes, entries) && i < |packages|
    ensures |entries| == |packages|
    ensures entries[i].key == CargoKey(packages[i].name, packages[i].version, SourceText(packages[i]))
    ensures (forall n | 0 <= n < |nodes| :: !StandsFor(packages, nodes[n].id, i)) ==> entries[i].dependencies == []
  {
    if forall n | 0 <= n < |nodes| :: !StandsFor(packages, nodes[n].id, i) { NoNodeResolves(packages, nodes, i); }
  }

  /** Otherwise the packages that the dependencies of its last node stand for, in their order. */
  lemma ProjectedDependencies(packages: seq<MetaPackage>, nodes: seq<MetaNode>, entries: seq<CargoEntry>, i: nat, n: nat)
    requires Projects(packages, nodes, entries) && i < |packages| && LastNode(packages, nodes, i, n)
    ensures |entries| == |packages| && |entries[i].dependencies| == |nodes[n].dependencies|
    ensures forall d: nat, k: nat | d < |nodes[n].dependencies| && StandsFor(packages, nodes[n].dependencies[d], k) ::
      entries[i].dependencies[d] == entries[k].key
  {
    LastNodeResolves(packages, nodes, i, n);
    forall d: nat, k: nat | d < |nodes[n].dependencies| && StandsFor(packages, nodes[n].dependencies[d], k)
      ensures entries[i].dependencies[d] == entries[k].key
    {
      StandsForIdentity(packages, nodes[n].dependencies[d], k);
    }
  }

  ghost predicate ProjectsWith(packages: seq<MetaPackage>, ids: map<string, CargoKey>, nodes: seq<MetaNode>, entries: seq<CargoEntry>) {
    && NodesKnown(nodes, ids) && |entries| == |packages|
    && forall i | 0 <= i < |packages| ::
         entries[i] == CargoEntry(IdentityOf(packages[i]), ResolvedFor(nodes, ids, IdentityOf(packages[i])))
  }

  /** Patching one entry in place accounts for one more node. */
  lemma Patched(packages: seq<MetaPackage>, ids: map<string, CargoKey>, nodes: seq<MetaNode>, entries: seq<CargoEntry>,
                node: MetaNode, at: nat)
    requires ProjectsWith(packages, ids, nodes, entries) && NodesKnown([node], ids) && DistinctIdentities(packages)
    requires at < |packages| && IdentityOf(packages[at]) == ids[node.id]
    ensures NodesKnown(nodes + [node], ids)
    ensures ProjectsWith(packages, ids, nodes + [node], entries[at := entries[at].(dependencies := Identities(node.dependencies, ids))])
  {
    assert (nodes + [node])[..|nodes|] == nodes;
    forall i | 0 <= i < |packages| && i != at ensures IdentityOf(packages[i]) != ids[node.id] {
      assert IdentityOf(packages[if i < at then i else at]) != IdentityOf(packages[if i < at then at else i]);
    }
  }

  method CargoSnapshot(sha: string -> string, lockText: string, packages: seq<MetaPackage>, nodes: seq<MetaNode>)
      returns (r: Result<Snapshot>)
    ensures r.Ok? <==> Identified(packages) && NodesKnown(nodes, IdMap(packages))
    ensures r.Ok? ==> Projects(packages, nodes, r.value.entries) && Bound(sha, lockText, r.value)
  {
    var ok, ids, positions := IdentifyPackages(packages);
    if !ok { return Rejected; }
    var projected := seq(|packages|, i requires 0 <= i < |packages| => CargoEntry(IdentityOf(packages[i]), []));
    IdMapValues(packages);
    for n := 0 to |nodes|
      invariant ProjectsWith(packages, ids, nodes[..n], projected)
    {
      var node := nodes[n];
      if node.id !in ids || exists d :: d in node.dependencies && d !in ids { return Rejected; }
      assert IsIdentity(packages, ids[node.id]);
      var at := positions[ids[node.id]];
      Patched(packages, ids, nodes[..n], projected, node, at);
      TakeOneMore(nodes, n);
      projected := projected[at := projected[at].(dependencies := Identities(node.dependencies, ids))];
    }
    TakeAll(nodes);
    r := Ok(Snapshot(HeaderFor(sha, lockText, |projected|), projected));
  }

  // ---------------------------------------------------------------- the consumer

  /** Later entries replace earlier ones with the same key. */
  function ByKey(snapshot: seq<CargoEntry>): map<CargoKey, seq<CargoKey>> {
    if snapshot == [] then map[]
    else ByKey(snapshot[..|snapshot| - 1])[snapshot[|snapshot| - 1].key := snapshot[|snapshot| - 1].dependencies]
  }

  predicate IsRoot(key: CargoKey) { key.name == "visiondata-gate-desktop" && key.source == "local-workspace" }

  predicate Locks(locked: seq<CargoKey>, snapshot: seq<CargoEntry>) {
    && (forall i, j :: 0 <= i < j < |locked| ==> locked[i] != locked[j])
    && (forall e | e in snapshot :: e.key in locked)
    && exists e :: e in snapshot && IsRoot(e.key)
  }

  predicate Resolves(m: map<CargoKey, seq<CargoKey>>) {
    forall k | k in m :: forall d | d in m[k] :: d in m
  }

  function CargoComponent(sha: string -> string): CargoKey -> Component {
    (k: CargoKey) => Component(LockedRef(sha, "cargo", [k.name, k.version, k.source, k.name, k.version]),
                               k.name, k.version, if IsRoot(k) then WorkspaceRoot else Transitive, true)
  }

  function CargoEdges(m: map<CargoKey, seq<CargoKey>>): CargoKey -> set<CargoKey> {
    (k: CargoKey) => if k in m then set d | d in m[k] else {}
  }

  datatype CargoResult = CargoGraph(graph: LockGraph, root: Ref) | Refused | Unresolved

  /** The snapshot must be of the known schema and target, without paths and authors, for this very
      lock, as long as it says; the lock lists no crate twice and all that the snapshot lists,
      and the snapshot lists the workspace crate. */
  lemma AcceptableMeans(sha: string -> string, locked: seq<CargoKey>, lockText: string, snapshot: Snapshot)
    ensures Bound(sha, lockText, snapshot) && Locks(locked, snapshot.entries) <==>
      && snapshot.header.schema == "visiondata-gate.cargo-license-snapshot.v1"
      && snapshot.header.target == "x86_64-pc-windows-msvc" && !snapshot.header.paths && !snapshot.header.authors
      && snapshot.header.lockSha256 == sha(lockText) && snapshot.header.count == |snapshot.entries|
      && (forall i, j | 0 <= i < j < |locked| :: locked[i] != locked[j])
      && (forall e | e in snapshot.entries :: e.key in locked)
      && exists e :: e in snapshot.entries && e.key.name == "visiondata-gate-desktop" && e.key.source == "local-workspace"
  {
  }

  lemma {:induction false} ByKeyKeys(snapshot: seq<CargoEntry>)
    ensures forall k :: k in ByKey(snapshot) <==> exists e :: e in snapshot && e.key == k
  {
    if snapshot != [] {
      var init, last := snapshot[..|snapshot| - 1], snapshot[|snapshot| - 1];
      ByKeyKeys(init);
      assert snapshot == init + [last];
    }
  }

  /** The root crate: the last one listed. */
  function LastRoot(snapshot: seq<CargoEntry>): Option<CargoKey> {
    if snapshot == [] then None
    else if IsRoot(snapshot[|snapshot| - 1].key) then Some(snapshot[|snapshot| - 1].key)
    else LastRoot(snapshot[..|snapshot| - 1])
  }

  lemma {:induction false} LastRootListed(snapshot: seq<CargoEntry>)
    ensures LastRoot(snapshot).Some? ==> IsRoot(LastRoot(snapshot).value) && LastRoot(snapshot).value in ByKey(snapshot)
  {
    if snapshot != [] { LastRootListed(snapshot[..|snapshot| - 1]); }
  }

  /** The loop over the snapshot's packages. */
  method ReadEntries(locked: seq<CargoKey>, entries: seq<CargoEntry>)
      returns (ok: bool, byKey: map<CargoKey, seq<CargoKey>>, root: Option<CargoKey>)
    ensures ok <==> forall e | e in entries :: e.key in locked
    ensures ok ==> byKey == ByKey(entries) && root == LastRoot(entries)
    ensures ok ==> (root.Some? <==> exists e :: e in entries && IsRoot(e.key))
  {
    byKey, root := map[], None;
    for i := 0 to |entries|
      invariant byKey == ByKey(entries[..i]) && root == LastRoot(entries[..i])
      invariant forall j | 0 <= j < i :: entries[j].key in locked
      invariant root.Some? ==> exists j | 0 <= j < i :: IsRoot(entries[j].key)
      invariant root.None? ==> forall j | 0 <= j < i :: !IsRoot(entries[j].key)
    {
      if entries[i].key !in locked { return false, map[], None; }
      assert entries[..i + 1][..i] == entries[..i];
      byKey := byKey[entries[i].key := entries[i].dependencies];
      if IsRoot(entries[i].key) { root := Some(entries[i].key); }
    }
    TakeAll(entries);
    ok := true;
  }

  method CargoLockGraph(sha: string -> string, locked: seq<CargoKey>, lockText: string, snapshot: Snapshot)
      returns (r: CargoResult, ghost keys: seq<CargoKey>)
    ensures r.Refused? <==> !Bound(sha, lockText, snapshot) || !Locks(locked, snapshot.entries)
    ensures r.Unresolved? <==>
      Bound(sha, lockText, snapshot) && Locks(locked, snapshot.entries) && !Resolves(ByKey(snapshot.entries))
    ensures r.CargoGraph? ==> Enumerates(keys, ByKey(snapshot.entries).Keys)
    ensures r.CargoGraph? ==> Translates(r.graph, keys, CargoComponent(sha), CargoEdges(ByKey(snapshot.entries)))
    ensures r.CargoGraph? ==>
      LastRoot(snapshot.entries).Some? && r.root == CargoComponent(sha)(LastRoot(snapshot.entries).value).ref
  {
    keys, r := [], Refused;
    if (exists i, j :: 0 <= i < j < |locked| && locked[i] == locked[j]) || !Bound(sha, lockText, snapshot) { return; }
    var ok, byKey, root := ReadEntries(locked, snapshot.entries);
    if !ok || root.None? { return; }
    assert Locks(locked, snapshot.entries);
    if !Resolves(byKey) { return Unresolved, []; }
    var ordered := Enumerate(byKey.Keys);
    var g := Translate(ordered, CargoComponent(sha), CargoEdges(byKey));
    keys := ordered;
    r := CargoGraph(g, CargoComponent(sha)(root.value).ref);
  }

  lemma {:induction false} ByKeyFrom(snapshot: seq<CargoEntry>, k: CargoKey)
    requires k in ByKey(snapshot)
    ensures exists i :: 0 <= i < |snapshot| && snapshot[i].key == k && snapshot[i].dependencies == ByKey(snapshot)[k]
  {
    var init, last := snapshot[..|snapshot| - 1], snapshot[|snapshot| - 1];
    if last.key != k {
      ByKeyFrom(init, k);
      var i :| 0 <= i < |init| && init[i].key == k && init[i].dependencies == ByKey(init)[k];
      assert snapshot[i] == init[i];
    }
  }

  lemma {:induction false} ResolvedAreIdentities(nodes: seq<MetaNode>, ids: map<string, CargoKey>, key: CargoKey, d: CargoKey)
    requires NodesKnown(nodes, ids) && d in ResolvedFor(nodes, ids, key)
    ensures exists id :: id in ids && ids[id] == d
  {
    var last := nodes[|nodes| - 1];
    if ids[last.id] == key {
      var i :| 0 <= i < |last.dependencies| && ids[last.dependencies[i]] == d;
      assert last.dependencies[i] in last.dependencies;
    } else {
      ResolvedAreIdentities(nodes[..|nodes| - 1], ids, key, d);
    }
  }

  /** A generated snapshot never triggers the consumer's unresolved-dependency error. */
  lemma GeneratedSnapshotResolves(packages: seq<MetaPackage>, nodes: seq<MetaNode>, entries: seq<CargoEntry>)
    requires Projects(packages, nodes, entries)
    ensures Resolves(ByKey(entries))
  {
    var ids := IdMap(packages);
    IdMapValues(packages);
    ByKeyKeys(entries);
    forall k, d | k in ByKey(entries) && d in ByKey(entries)[k] ensures d in ByKey(entries) {
      ByKeyFrom(entries, k);
      var i :| 0 <= i < |entries| && entries[i].key == k && entries[i].dependencies == ByKey(entries)[k];
      ResolvedAreIdentities(nodes, ids, k, d);
      var id :| id in ids && ids[id] == d;
      assert IsIdentity(packages, ids[id]);
      var j :| 0 <= j < |packages| && IdentityOf(packages[j]) == d;
      assert entries[j] in entries && entries[j].key == d;
    }
  }

  /** And it is bound to the lock it was generated from, and to no other. */
  lemma GeneratedSnapshotIsBound(sha: string -> string, lockText: string, other: string, snapshot: Snapshot)
    requires Injective(sha) && Bound(sha, lockText, snapshot)
    ensures Bound(sha, other, snapshot) <==> other == lockText
  {
    assert sha(other) == sha(lockText) <==> other == lockText;
  }

  /** The text that a crate's reference is the hash of. */
  function CrateText(k: CargoKey): string { FieldText("cargo", [k.name, k.version, k.source, k.name, k.version]) }

  /** No two crates give the same text. */
  ghost predicate CratesApart(m: map<CargoKey, seq<CargoKey>>) {
    forall p, q | p in m && q in m && p != q :: CrateText(p) != CrateText(q)
  }

  /** References are as distinct as the texts hashed. */
  lemma CargoRefsDistinct(sha: string -> string, p: CargoKey, q: CargoKey)
    requires Injective(sha)
    ensures CargoComponent(sha)(p).ref != CargoComponent(sha)(q).ref <==> CrateText(p) != CrateText(q)
  {
    assert CargoComponent(sha)(p).ref == Urn("cargo", sha(CrateText(p)));
    assert CargoComponent(sha)(q).ref == Urn("cargo", sha(CrateText(q)));
  }

  predicate NulFreeKey(k: CargoKey) { NulFree(k.name) && NulFree(k.version) && NulFree(k.source) }

  /** Crates without NUL in their fields are apart. */
  lemma NulFreeCratesApart(m: map<CargoKey, seq<CargoKey>>)
    requires forall k | k in m :: NulFreeKey(k)
    ensures CratesApart(m)
  {
    forall p, q | p in m && q in m && p != q ensures CrateText(p) != CrateText(q) {
      var a, b := [p.name, p.version, p.source, p.name, p.version], [q.name, q.version, q.source, q.name, q.version];
      assert a[0] != b[0] || a[1] != b[1] || a[2] != b[2];
      if FieldText("cargo", a) == FieldText("cargo", b) { FieldTextInjective("cargo", a, b); }
    }
  }

  lemma CratesDistinct(sha: string -> string, m: map<CargoKey, seq<CargoKey>>, keys: seq<CargoKey>)
    requires Enumerates(keys, m.Keys) && Injective(sha)
    ensures CratesApart(m) <==> DistinctRefs(keys, CargoComponent(sha))
  {
    var component := CargoComponent(sha);
    if DistinctRefs(keys, component) {
      forall p, q | p in m && q in m && p != q ensures CrateText(p) != CrateText(q) {
        var i :| 0 <= i < |keys| && keys[i] == p;
        var j :| 0 <= j < |keys| && keys[j] == q;
        assert component(keys[if i < j then i else j]).ref != component(keys[if i < j then j else i]).ref;
        CargoRefsDistinct(sha, p, q);
      }
    } else if CratesApart(m) {
      forall i, j | 0 <= i < j < |keys| ensures component(keys[i]).ref != component(keys[j]).ref {
        assert keys[i] in keys && keys[j] in keys;
        CargoRefsDistinct(sha, keys[i], keys[j]);
      }
    }
  }

  /** The graph is closed exactly when the crates are apart. */
  lemma CargoGraphClosed(sha: string -> string, m: map<CargoKey, seq<CargoKey>>, g: LockGraph, keys: seq<CargoKey>)
    requires Enumerates(keys, m.Keys) && Resolves(m) && Translates(g, keys, CargoComponent(sha), CargoEdges(m))
    requires Injective(sha)
    ensures Closed(g) <==> CratesApart(m)
    ensures Refs(g.components) == set k | k in m :: CargoComponent(sha)(k).ref
  {
    TranslationClosed(g, keys, CargoComponent(sha), CargoEdges(m));
    CratesDistinct(sha, m, keys);
    assert (set k | k in m :: CargoComponent(sha)(k).ref) == set k | k in keys :: CargoComponent(sha)(k).ref;
  }
}
