/** Freezing a selection of sources into a staging tree, and verifying before every build
    step that the staged sources are still the frozen ones. */
module FrozenSources {
  import opened Text
  import opened Sorting
  import opened Reachability
  import opened DependencyTree
  import opened TreeWrite
  import opened SourceSelection
  import opened SelectionChanges

  datatype Row = Row(path: string, size: nat, sha256: string)

  datatype Manifest = Manifest(schema: string, files: seq<Row>, contentSha256: string)

  const SCHEMA := "visiondata-gate.authority-build-source.v1"

  /** A staging tree: its sources, and the manifest kept beside them. */
  datatype Staging = Staging(source: FileTree, manifest: Manifest)

  datatype Hashing = Hashing(sha: Bytes -> string, digest: seq<Row> -> string)

  function HashFile(hashing: Hashing, path: string, data: Bytes): Row { Row(path, |data|, hashing.sha(data)) }

  function PathOf(r: Row): string { r.path }

  // ---------------------------------------------------------------- verification

  predicate RowHolds(hashing: Hashing, tree: Node, row: Row) {
    && SafeRelative(row.path) && FileAt(tree, row.path).Some?
    && row == HashFile(hashing, row.path, FileAt(tree, row.path).value)
  }

  predicate RowsHold(hashing: Hashing, tree: Node, rows: seq<Row>) {
    forall i | 0 <= i < |rows| :: RowHolds(hashing, tree, rows[i])
  }

  function RowPaths(rows: seq<Row>): set<string> { set r | r in rows :: r.path }

  /** What `verify_frozen` accepts. */
  ghost predicate Frozen(scope: Scope, hashing: Hashing, s: Staging) {
    && s.manifest.schema == SCHEMA
    && hashing.digest(s.manifest.files) == s.manifest.contentSha256
    && Selectable(scope, s.source) && IsSelection(scope, s.source, RowPaths(s.manifest.files))
    && RowsHold(hashing, s.source, s.manifest.files)
  }

  /** The final loop: every row passes its test. */
  method CheckRows(rows: seq<Row>, holds: Row -> bool) returns (ok: bool)
    ensures ok <==> forall i | 0 <= i < |rows| :: holds(rows[i])
  {
    for i := 0 to |rows|
      invariant forall j | 0 <= j < i :: holds(rows[j])
    {
      if !holds(rows[i]) { return false; }
    }
    ok := true;
  }

  method VerifyFrozen(scope: Scope, hashing: Hashing, s: Staging) returns (ok: bool)
    ensures ok <==> Frozen(scope, hashing, s)
  {
    ok := false;
    var rows := s.manifest.files;
    if s.manifest.schema == SCHEMA && hashing.digest(rows) == s.manifest.contentSha256 {
      var r := SourceNames(scope, s.source);
      if r.Ok? {
        OneSelection(scope, s.source, r.value, RowPaths(rows));
        if r.value == RowPaths(rows) { ok := CheckRows(rows, row => RowHolds(hashing, s.source, row)); }
      }
    }
  }

  /** What verification vouches for: a row for each source, with the path, the length and the digest
      of the file that is there, and no row for anything else. */
  lemma FrozenRows(scope: Scope, hashing: Hashing, s: Staging)
    requires Frozen(scope, hashing, s)
    ensures s.manifest.schema == "visiondata-gate.authority-build-source.v1"
    ensures s.manifest.contentSha256 == hashing.digest(s.manifest.files)
    ensures forall name :: Selected(scope, s.source, name) <==> exists i :: 0 <= i < |s.manifest.files| && s.manifest.files[i].path == name
    ensures forall i | 0 <= i < |s.manifest.files| ::
      var row := s.manifest.files[i];
      exists data :: FileAt(s.source, row.path) == Some(data) && row.size == |data| && row.sha256 == hashing.sha(data)
  {
    var rows := s.manifest.files;
    forall name ensures Selected(scope, s.source, name) <==> exists i :: 0 <= i < |rows| && rows[i].path == name {
      assert name in RowPaths(rows) <==> Selected(scope, s.source, name);
      if i :| 0 <= i < |rows| && rows[i].path == name { assert rows[i] in rows; }
    }
    forall i | 0 <= i < |rows|
      ensures exists data ::
        FileAt(s.source, rows[i].path) == Some(data) && rows[i].size == |data| && rows[i].sha256 == hashing.sha(data)
    {
      assert RowHolds(hashing, s.source, rows[i]);
      var data := FileAt(s.source, rows[i].path).value;
      assert FileAt(s.source, rows[i].path) == Some(data);
    }
  }

  lemma RowsCarryOver(scope: Scope, hashing: Hashing, s: Staging, t: Staging)
    requires Frozen(scope, hashing, s) && Frozen(scope, hashing, t) && SameSources(scope, s.source, t.source)
    ensures forall r | r in s.manifest.files :: r in t.manifest.files
  {
    forall r | r in s.manifest.files ensures r in t.manifest.files {
      var i :| 0 <= i < |s.manifest.files| && s.manifest.files[i] == r;
      assert RowHolds(hashing, s.source, s.manifest.files[i]);
      assert r.path in RowPaths(s.manifest.files);
      assert Selected(scope, s.source, r.path) && r.path in RowPaths(t.manifest.files);
      var j :| 0 <= j < |t.manifest.files| && t.manifest.files[j].path == r.path;
      assert RowHolds(hashing, t.source, t.manifest.files[j]);
    }
  }

  lemma SameRowSameBytes(hashing: Hashing, a: Node, b: Node, rows: seq<Row>, others: seq<Row>, name: string)
    requires Injective(hashing.sha) && RowsHold(hashing, a, rows) && RowsHold(hashing, b, others)
    requires name in RowPaths(rows) && forall r | r in rows :: r in others
    ensures FileAt(a, name) == FileAt(b, name)
  {
    var i :| 0 <= i < |rows| && rows[i].path == name;
    var j :| 0 <= j < |others| && others[j] == rows[i];
    assert RowHolds(hashing, a, rows[i]) && RowHolds(hashing, b, others[j]);
  }

  lemma SourcesCarryOver(scope: Scope, hashing: Hashing, s: Staging, t: Staging)
    requires Injective(hashing.sha) && Frozen(scope, hashing, s) && Frozen(scope, hashing, t)
    requires forall r :: r in s.manifest.files <==> r in t.manifest.files
    ensures SameSources(scope, s.source, t.source)
  {
    assert RowPaths(s.manifest.files) == RowPaths(t.manifest.files);
    OneSelection(scope, s.source, RowPaths(s.manifest.files), RowPaths(t.manifest.files));
    forall name ensures Selected(scope, s.source, name) <==> Selected(scope, t.source, name) {
      assert name in RowPaths(t.manifest.files) <==> Selected(scope, s.source, name);
    }
    forall name | Selected(scope, s.source, name) ensures FileAt(s.source, name) == FileAt(t.source, name) {
      assert name in RowPaths(s.manifest.files);
      SameRowSameBytes(hashing, s.source, t.source, s.manifest.files, t.manifest.files, name);
    }
  }

  /** Two verified trees have the same selected sources, byte for byte, exactly when their
      manifests have the same rows. */
  lemma SameSourcesIffSameRows(scope: Scope, hashing: Hashing, s: Staging, t: Staging)
    requires Injective(hashing.sha) && Frozen(scope, hashing, s) && Frozen(scope, hashing, t)
    ensures SameSources(scope, s.source, t.source) <==> forall r :: r in s.manifest.files <==> r in t.manifest.files
  {
    if SameSources(scope, s.source, t.source) {
      RowsCarryOver(scope, hashing, s, t);
      RowsCarryOver(scope, hashing, t, s);
    } else if forall r :: r in s.manifest.files <==> r in t.manifest.files {
      SourcesCarryOver(scope, hashing, s, t);
    }
  }

  /** What the build puts elsewhere, such as the dependency tree or compiled code, does not
      disturb the verification. */
  lemma OutsideFilesDoNotMatter(scope: Scope, hashing: Hashing, s: Staging, path: string, data: Bytes, put: FileTree)
    requires Outside(scope, path) && Writable(s.source, Split(path, '/'))
    requires put == Put(s.source, Split(path, '/'), data) && LinksKept(scope, s.source, put)
    ensures Frozen(scope, hashing, s) <==> Frozen(scope, hashing, s.(source := put))
  {
    var rows := s.manifest.files;
    WrittenByPut(s.source, path, data);
    WrittenSelection(scope, s.source, put, path, data, RowPaths(rows));
    if IsSelection(scope, put, RowPaths(rows)) {
      forall i | 0 <= i < |rows| ensures RowHolds(hashing, s.source, rows[i]) <==> RowHolds(hashing, put, rows[i]) {
        assert rows[i].path in RowPaths(rows);
        WrittenFiles(s.source, put, path, data, rows[i].path);
      }
    }
  }

  // ---------------------------------------------------------------- freezing

  /** The rows of the named files, in order. */
  ghost predicate RowsOf(rows: seq<Row>, tree: Node, names: set<string>, hashing: Hashing) {
    && OrderedBy(rows, PathOf) && DistinctKeys(rows, PathOf) && RowPaths(rows) == names
    && forall r | r in rows :: FileAt(tree, r.path).Some? && r == HashFile(hashing, r.path, FileAt(tree, r.path).value)
  }

  /** `sorted(names)` of a set. */
  method SortedNames(names: set<string>) returns (list: seq<string>)
    ensures forall p :: p in list <==> p in names
    ensures OrderedBy(list, Self) && DistinctKeys(list, Self)
  {
    var items := Enumerate(names);
    assert DistinctKeys(items, Self);
    SortedOrdered(items, Self);
    SortedMembers(items, Self);
    DistinctKeysPermute(items, Sorted(items, Self), Self);
    list := Sorted(items, Self);
  }

  lemma RowsInOrder(names: seq<string>, rows: seq<Row>, tree: Node, hashing: Hashing)
    requires OrderedBy(names, Self) && DistinctKeys(names, Self) && |rows| == |names|
    requires forall i | 0 <= i < |names| ::
      FileAt(tree, names[i]).Some? && rows[i] == HashFile(hashing, names[i], FileAt(tree, names[i]).value)
    ensures RowsOf(rows, tree, Members(names), hashing)
  {
    forall i, j | 0 <= i < j < |rows| ensures StrLe(PathOf(rows[i]), PathOf(rows[j])) && PathOf(rows[i]) != PathOf(rows[j]) {
      assert StrLe(Self(names[i]), Self(names[j])) && Self(names[i]) != Self(names[j]);
    }
    forall p | p in names ensures p in RowPaths(rows) {
      var i :| 0 <= i < |names| && names[i] == p;
      assert rows[i] in rows;
    }
  }

  /** Hashes the named files in order, refusing the first that may not be frozen. */
  method HashSources(names: seq<string>, tree: Node, admitted: string -> bool, hashing: Hashing)
      returns (ok: bool, rows: seq<Row>)
    requires OrderedBy(names, Self) && DistinctKeys(names, Self)
    ensures ok <==> forall p | p in names :: FileAt(tree, p).Some? && admitted(p)
    ensures ok ==> RowsOf(rows, tree, Members(names), hashing)
  {
    rows := [];
    for i := 0 to |names|
      invariant |rows| == i && forall j | 0 <= j < i :: FileAt(tree, names[j]).Some? && admitted(names[j])
      invariant forall j | 0 <= j < i :: rows[j] == HashFile(hashing, names[j], FileAt(tree, names[j]).value)
    {
      if FileAt(tree, names[i]).None? || !admitted(names[i]) { return false, []; }
      rows := rows + [HashFile(hashing, names[i], FileAt(tree, names[i]).value)];
    }
    RowsInOrder(names, rows, tree, hashing);
    ok := true;
  }

  /** `copy_verified`: an occupied place is refused, and what was written must match the row. */
  method CopyVerified(hashing: Hashing, data: Bytes, staged: FileTree, row: Row) returns (ok: bool, put: FileTree)
    ensures ok <==> Writable(staged, Split(row.path, '/')) && FileAt(staged, row.path).None? && row == HashFile(hashing, row.path, data)
    ensures put == if Writable(staged, Split(row.path, '/')) && FileAt(staged, row.path).None?
                   then Put(staged, Split(row.path, '/'), data) else staged
  {
    ok, put := false, staged;
    if Writable(staged, Split(row.path, '/')) && FileAt(staged, row.path).None? {
      WrittenByPut(staged, row.path, data);
      put := Put(staged, Split(row.path, '/'), data);
      WrittenFiles(staged, put, row.path, data, row.path);
      ok := HashFile(hashing, row.path, FileAt(put, row.path).value) == row;
    }
  }

  lemma CopyIsNew(rows: seq<Row>, i: nat)
    requires i < |rows| && DistinctKeys(rows, PathOf)
    ensures rows[i].path !in RowPaths(rows[..i])
  {
    forall j | 0 <= j < i ensures rows[..i][j].path != rows[i].path { assert PathOf(rows[j]) != PathOf(rows[i]); }
  }

  /** Copies the listed files into an empty tree, each checked against its row. */
  method CopySources(hashing: Hashing, authority: FileTree, rows: seq<Row>) returns (ok: bool, staged: FileTree)
    requires authority.Dir? && RowsOf(rows, authority, RowPaths(rows), hashing)
    ensures ok && Replica(authority, RowPaths(rows), staged)
  {
    EmptyReplica(authority);
    ok, staged := true, Dir([]);
    for i := 0 to |rows|
      invariant ok && Replica(authority, RowPaths(rows[..i]), staged)
    {
      var row := rows[i];
      assert row in rows;
      TakeOneMore(rows, i);
      assert RowPaths(rows[..i + 1]) == RowPaths(rows[..i]) + {row.path};
      CopyIsNew(rows, i);
      PlaceIsFree(authority, RowPaths(rows[..i]), staged, row.path);
      ReplicaGrows(authority, RowPaths(rows[..i]), staged, row.path);
      ok, staged := CopyVerified(hashing, FileAt(authority, row.path).value, staged, row);
    }
    TakeAll(rows);
  }

  /** Right after freezing, verification succeeds. */
  lemma FreshlyFrozen(scope: Scope, hashing: Hashing, authority: FileTree, s: Staging)
    requires s.manifest.schema == SCHEMA && s.manifest.contentSha256 == hashing.digest(s.manifest.files)
    requires Selectable(scope, authority) && IsSelection(scope, authority, RowPaths(s.manifest.files))
    requires RowsOf(s.manifest.files, authority, RowPaths(s.manifest.files), hashing)
    requires Replica(authority, RowPaths(s.manifest.files), s.source)
    requires forall p | p in RowPaths(s.manifest.files) :: SafeRelative(p)
    ensures Frozen(scope, hashing, s) && SameSources(scope, authority, s.source)
  {
    var rows := s.manifest.files;
    SelectionIsFixpoint(scope, authority, RowPaths(rows), s.source);
    forall i | 0 <= i < |rows| ensures RowHolds(hashing, s.source, rows[i]) {
      assert rows[i] in rows && rows[i].path in RowPaths(rows);
    }
    forall name ensures Selected(scope, authority, name) <==> Selected(scope, s.source, name) {
      assert name in RowPaths(rows) <==> Selected(scope, authority, name);
      assert name in RowPaths(rows) <==> Selected(scope, s.source, name);
    }
  }

  /** `freeze_sources`: it ends by verifying the tree it has just written, and that never fails. */
  method FreezeSources(scope: Scope, hashing: Hashing, authority: FileTree, allowed: string -> bool)
      returns (r: Result<Staging>)
    ensures r.Ok? <==>
      && authority.Dir? && Selectable(scope, authority)
      && forall name | Selected(scope, authority, name) ::
           FileAt(authority, name).Some? && allowed(name) && !scope.private(name) && SafeRelative(name)
    ensures r.Ok? ==> Frozen(scope, hashing, r.value) && SameSources(scope, authority, r.value.source)
    ensures r.Ok? ==> Replica(authority, RowPaths(r.value.manifest.files), r.value.source)
    ensures r.Ok? ==> RowsOf(r.value.manifest.files, authority, RowPaths(r.value.manifest.files), hashing)
  {
    r := Rejected;
    var selection := Rejected;
    if authority.Dir? { selection := SourceNames(scope, authority); }
    if selection.Ok? {
      var admitted := p => allowed(p) && Admissible(scope, p);
      var names := SortedNames(selection.value);
      assert Members(names) == selection.value;
      var complete, rows := HashSources(names, authority, admitted, hashing);
      if complete {
        var copied, staged := CopySources(hashing, authority, rows);
        var s := Staging(staged, Manifest(SCHEMA, rows, hashing.digest(rows)));
        FreshlyFrozen(scope, hashing, authority, s);
        var verified := VerifyFrozen(scope, hashing, s);
        if copied && verified { r := Ok(s); }
      }
    }
  }

  // ---------------------------------------------------------------- building

  /** A build step: it may do anything to the staging tree, its manifest included, or fail. */
  type Step = Staging -> Result<Staging>

  /** The staging tree after the first `n` steps, unless one of them has failed. */
  function StateAfter(start: Staging, steps: seq<Step>, n: nat): Result<Staging>
    requires n <= |steps|
  {
    if n == 0 then Ok(start)
    else
      match StateAfter(start, steps, n - 1)
      case Rejected => Rejected
      case Ok(s) => steps[n - 1](s)
  }

  /** The first `n` steps have been done and have left a tree in order. */
  ghost predicate FrozenAfter(scope: Scope, hashing: Hashing, start: Staging, steps: seq<Step>, n: nat) {
    n <= |steps| && StateAfter(start, steps, n).Ok? && Frozen(scope, hashing, StateAfter(start, steps, n).value)
  }

  /** The loop of `build_staging`: verify, run a step, and verify once more at the end. */
  method RunSteps(scope: Scope, hashing: Hashing, start: Staging, steps: seq<Step>) returns (r: Result<Staging>)
    ensures r.Ok? <==> forall i | 0 <= i <= |steps| :: FrozenAfter(scope, hashing, start, steps, i)
    ensures r.Ok? ==> r == StateAfter(start, steps, |steps|)
  {
    var i, ok := 0, true;
    r := Ok(start);
    while i < |steps| && ok
      invariant i <= |steps| && r == StateAfter(start, steps, i) && (ok ==> r.Ok?)
      invariant forall k | 0 <= k < i :: FrozenAfter(scope, hashing, start, steps, k)
      invariant !ok ==> !FrozenAfter(scope, hashing, start, steps, i)
      decreases |steps| - i, ok
    {
      ok := VerifyFrozen(scope, hashing, r.value);
      if ok {
        r, i := steps[i](r.value), i + 1;
        ok := r.Ok?;
      }
    }
    if ok { ok := VerifyFrozen(scope, hashing, r.value); }
    assert ok <==> FrozenAfter(scope, hashing, start, steps, i);
    if !ok { r := Rejected; }
  }

  /** Step `i`, if the run gets that far, starts from the frozen sources, byte for byte, exactly
      when the manifest on disk still has the rows it began with. */
  lemma StepsStartFromFrozenSources(scope: Scope, hashing: Hashing, start: Staging, steps: seq<Step>, i: nat)
    requires Injective(hashing.sha) && Frozen(scope, hashing, start) && FrozenAfter(scope, hashing, start, steps, i)
    ensures var now := StateAfter(start, steps, i).value;
      SameSources(scope, start.source, now.source) <==> forall r :: r in start.manifest.files <==> r in now.manifest.files
  {
    SameSourcesIffSameRows(scope, hashing, start, StateAfter(start, steps, i).value);
  }

  lemma SelectedIsThere(scope: Scope, hashing: Hashing, s: Staging, path: string)
    requires Frozen(scope, hashing, s) && Selected(scope, s.source, path)
    ensures FileAt(s.source, path).Some? && SafeRelative(path)
  {
    var rows := s.manifest.files;
    assert path in RowPaths(rows);
    var k :| 0 <= k < |rows| && rows[k].path == path;
    assert RowHolds(hashing, s.source, rows[k]);
  }

  /** The rows with the one of that path replaced. */
  function WithRow(rows: seq<Row>, row: Row): (r: seq<Row>)
    ensures |r| == |rows| && forall i | 0 <= i < |rows| :: r[i] == if rows[i].path == row.path then row else rows[i]
  {
    seq(|rows|, i requires 0 <= i < |rows| => if rows[i].path == row.path then row else rows[i])
  }

  lemma RewrittenRows(hashing: Hashing, tree: Node, put: Node, a: seq<Row>, b: seq<Row>, path: string, data: Bytes)
    requires RowsHold(hashing, tree, a) && Written(tree, put, path, data)
    requires b == WithRow(a, HashFile(hashing, path, data))
    ensures RowsHold(hashing, put, b) && RowPaths(b) == RowPaths(a)
  {
    forall i | 0 <= i < |a| ensures RowHolds(hashing, put, b[i]) && b[i].path == a[i].path {
      assert RowHolds(hashing, tree, a[i]);
      WrittenFiles(tree, put, path, data, a[i].path);
    }
    forall r | r in a ensures r.path in RowPaths(b) {
      var i :| 0 <= i < |a| && a[i] == r;
      assert b[i] in b;
    }
    forall r | r in b ensures r.path in RowPaths(a) {
      var i :| 0 <= i < |b| && b[i] == r;
      assert a[i] in a;
    }
  }

  /** Only the manifest on disk is consulted: a step that changes a source and rewrites the
      manifest to match goes through. */
  lemma RewrittenManifestPasses(scope: Scope, hashing: Hashing, s: Staging, path: string, data: Bytes, put: FileTree)
      returns (t: Staging)
    requires Frozen(scope, hashing, s) && Selected(scope, s.source, path)
    requires put == Put(s.source, Split(path, '/'), data) && LinksKept(scope, s.source, put)
    ensures t.source == put && FileAt(t.source, path) == Some(data) && Frozen(scope, hashing, t)
  {
    var rows := WithRow(s.manifest.files, HashFile(hashing, path, data));
    t := Staging(put, Manifest(s.manifest.schema, rows, hashing.digest(rows)));
    SelectedIsThere(scope, hashing, s, path);
    FileIsWritable(s.source, path);
    WrittenByPut(s.source, path, data);
    WrittenFiles(s.source, put, path, data, path);
    RewrittenRows(hashing, s.source, put, s.manifest.files, rows, path, data);
    RewrittenSelection(scope, s.source, put, path, data, RowPaths(s.manifest.files));
  }
}
