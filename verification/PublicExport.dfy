/** Assembling a public snapshot: the selected files, two generated copies and the manifest
    that binds them, checked before it is published. */
module PublicExport {
  import opened Text
  import opened Sorting
  import opened PublicManifest
  import opened PublicChecker

  function EntryFor(path: string, data: string, sha: string -> string, source: Option<string>): Entry {
    Entry(path, sha(data), |data|, source)
  }

  /** Every path is there, with the data it has in the source tree. */
  ghost predicate Copies(paths: seq<string>, source: Files, files: Files, entries: seq<Entry>, sha: string -> string) {
    && Present(paths, source) && Present(paths, files) && files.Keys == (set p | p in paths)
    && (forall i | 0 <= i < |paths| :: files[paths[i]] == source[paths[i]])
    && |entries| == |paths|
    && forall i | 0 <= i < |paths| :: entries[i] == EntryFor(paths[i], source[paths[i]], sha, None)
  }

  lemma CopiesMore(paths: seq<string>, n: nat, source: Files, files: Files, entries: seq<Entry>, sha: string -> string)
    requires n < |paths| && Copies(paths[..n], source, files, entries, sha) && paths[n] in source
    ensures Copies(paths[..n + 1], source, files[paths[n] := source[paths[n]]],
                   entries + [EntryFor(paths[n], source[paths[n]], sha, None)], sha)
  {
    TakeOneMore(paths, n);
    var more, last := paths[..n + 1], paths[n];
    assert forall p :: p in more <==> p in paths[..n] || p == last;
    forall i | 0 <= i < n ensures more[i] == paths[..n][i] { }
  }

  /** `_copy_files`, for paths the selection admits. */
  method CopyFiles(paths: seq<string>, source: Files, sha: string -> string)
      returns (ok: bool, files: Files, entries: seq<Entry>)
    ensures ok <==> Present(paths, source)
    ensures ok ==> Copies(paths, source, files, entries, sha)
  {
    files, entries := map[], [];
    for i := 0 to |paths|
      invariant Copies(paths[..i], source, files, entries, sha)
    {
      if paths[i] !in source { return false, map[], []; }
      CopiesMore(paths, i, source, files, entries, sha);
      var data := source[paths[i]];
      files, entries := files[paths[i] := data], entries + [EntryFor(paths[i], data, sha, None)];
    }
    TakeAll(paths);
    ok := true;
  }

  /** The selected paths, as the exporter relies on them: distinct, with both templates, and
      naming neither a generated file nor the manifest. */
  ghost predicate Exportable(paths: seq<string>) {
    && Distinct(paths) && TEMPLATE in paths && PUBLIC_README in paths
    && PAGES !in paths && README !in paths && MANIFEST !in paths
  }

  /** The snapshot without its manifest. */
  function WithGenerated(files: Files): Files
    requires TEMPLATE in files && PUBLIC_README in files
  {
    files[PAGES := files[TEMPLATE]][README := files[PUBLIC_README]]
  }

  function GeneratedEntries(files: Files, sha: string -> string): seq<Entry>
    requires TEMPLATE in files && PUBLIC_README in files
  {
    [EntryFor(PAGES, files[TEMPLATE], sha, Some(TEMPLATE)), EntryFor(README, files[PUBLIC_README], sha, Some(PUBLIC_README))]
  }

  function PathSet(entries: seq<Entry>): set<string> { set e | e in entries :: e.path }

  /** Entries that say what the files are. */
  ghost predicate Inventory(entries: seq<Entry>, files: Files, sha: string -> string) {
    && AllMatch(entries, files, sha) && Sourced(entries, files)
    && DistinctKeys(entries, PathOf) && files.Keys == PathSet(entries)
  }

  lemma GeneratedPaths(g: seq<Entry>)
    requires |g| == 2 && g[0].path == PAGES && g[1].path == README
    ensures PathSet(g) == {PAGES, README}
  {
    assert g[0] in g && g[1] in g;
  }

  lemma PathSetPlus(a: seq<Entry>, b: seq<Entry>)
    ensures PathSet(a + b) == PathSet(a) + PathSet(b)
  {
    assert forall e :: e in a + b <==> e in a || e in b;
  }

  lemma CopiedKeys(paths: seq<string>, source: Files, files: Files, entries: seq<Entry>, sha: string -> string)
    requires Exportable(paths) && Copies(paths, source, files, entries, sha)
    ensures TEMPLATE in files && PUBLIC_README in files && PAGES !in files && README !in files && MANIFEST !in files
    ensures files.Keys == PathSet(entries)
  {
    assert TEMPLATE in files.Keys && PUBLIC_README in files.Keys;
    assert PAGES !in files.Keys && README !in files.Keys && MANIFEST !in files.Keys;
    forall p | p in files.Keys ensures p in PathSet(entries) {
      var i :| 0 <= i < |paths| && paths[i] == p;
      assert entries[i] in entries && entries[i].path == p;
    }
    forall e | e in entries ensures e.path in files.Keys {
      var i :| 0 <= i < |entries| && entries[i] == e;
      assert paths[i] in paths;
    }
  }

  lemma CopiedEntries(paths: seq<string>, source: Files, files: Files, entries: seq<Entry>, sha: string -> string)
    requires Exportable(paths) && Copies(paths, source, files, entries, sha)
    requires TEMPLATE in files && PUBLIC_README in files && PAGES !in files && README !in files
    ensures AllMatch(entries + GeneratedEntries(files, sha), WithGenerated(files), sha)
    ensures Sourced(entries + GeneratedEntries(files, sha), WithGenerated(files))
  {
    var all, more := entries + GeneratedEntries(files, sha), WithGenerated(files);
    forall i | 0 <= i < |all|
      ensures Matches(all[i], more, sha) && WellShaped(all[i]) && FaithfulCopy(all[i], more)
    {
      if i < |paths| { assert paths[i] in paths && all[i] == entries[i]; }
    }
  }

  lemma CopiedDistinct(paths: seq<string>, entries: seq<Entry>, g: seq<Entry>)
    requires Exportable(paths) && |entries| == |paths| && |g| == 2 && g[0].path == PAGES && g[1].path == README
    requires forall i | 0 <= i < |paths| :: entries[i].path == paths[i]
    ensures DistinctKeys(entries + g, PathOf)
  {
    var all := entries + g;
    forall i, j | 0 <= i < j < |all| ensures PathOf(all[i]) != PathOf(all[j]) {
      if j < |paths| {
        assert Self(paths[i]) != Self(paths[j]);
      } else if i < |paths| {
        assert paths[i] in paths;
      }
    }
  }

  lemma CopiedInventory(paths: seq<string>, source: Files, files: Files, entries: seq<Entry>, sha: string -> string)
    requires Exportable(paths) && Copies(paths, source, files, entries, sha)
    ensures TEMPLATE in files && PUBLIC_README in files && MANIFEST !in WithGenerated(files)
    ensures Inventory(entries + GeneratedEntries(files, sha), WithGenerated(files), sha)
  {
    CopiedKeys(paths, source, files, entries, sha);
    var all, more := entries + GeneratedEntries(files, sha), WithGenerated(files);
    CopiedEntries(paths, source, files, entries, sha);
    CopiedDistinct(paths, entries, GeneratedEntries(files, sha));
    PathSetPlus(entries, GeneratedEntries(files, sha));
    GeneratedPaths(GeneratedEntries(files, sha));
  }

  lemma SameMembers(a: seq<Entry>, b: seq<Entry>, files: Files, sha: string -> string)
    requires AllMatch(a, files, sha) && Sourced(a, files) && forall e :: e in b <==> e in a
    ensures AllMatch(b, files, sha) && Sourced(b, files) && PathSet(b) == PathSet(a)
  {
    forall i | 0 <= i < |b| ensures Matches(b[i], files, sha) && WellShaped(b[i]) && FaithfulCopy(b[i], files) {
      assert b[i] in a;
    }
  }

  lemma SortedInventory(entries: seq<Entry>, files: Files, sha: string -> string)
    requires Inventory(entries, files, sha)
    ensures Inventory(Sorted(entries, PathOf), files, sha) && OrderedBy(Sorted(entries, PathOf), PathOf)
  {
    SortedOrdered(entries, PathOf);
    DistinctKeysPermute(entries, Sorted(entries, PathOf), PathOf);
    SortedMembers(entries, PathOf);
    SameMembers(entries, Sorted(entries, PathOf), files, sha);
  }

  /** The digest over the entries as declared, as the exporter computes it. */
  function DeclaredRows(entries: seq<Entry>): seq<Row> {
    seq(|entries|, i requires 0 <= i < |entries| => Row(entries[i].path, entries[i].sha256))
  }

  lemma DeclaredIsObserved(entries: seq<Entry>, files: Files, sha: string -> string)
    requires AllMatch(entries, files, sha)
    ensures Present(Paths(entries), files) && DeclaredRows(entries) == Observed(Paths(entries), files, sha)
  {
    forall i | 0 <= i < |entries| ensures Paths(entries)[i] in files { assert Matches(entries[i], files, sha); }
  }

  lemma PathSetIsPaths(entries: seq<Entry>)
    ensures PathSet(entries) == set p | p in Paths(entries)
  {
    forall e | e in entries ensures e.path in Paths(entries) {
      var i :| 0 <= i < |entries| && entries[i] == e;
      assert Paths(entries)[i] == e.path;
    }
    forall p | p in Paths(entries) ensures p in PathSet(entries) {
      var i :| 0 <= i < |entries| && Paths(entries)[i] == p;
      assert entries[i] in entries;
    }
  }

  lemma PathsFollow(entries: seq<Entry>)
    requires OrderedBy(entries, PathOf) && DistinctKeys(entries, PathOf)
    ensures Ascending(Paths(entries)) && Distinct(Paths(entries))
  {
    var paths := Paths(entries);
    forall i, j | 0 <= i < j < |paths| ensures StrLe(Self(paths[i]), Self(paths[j])) && Self(paths[i]) != Self(paths[j]) {
      assert StrLe(PathOf(entries[i]), PathOf(entries[j])) && PathOf(entries[i]) != PathOf(entries[j]);
    }
  }

  lemma InventoryBinds(boundary: Boundary, entries: seq<Entry>, files: Files, sha: string -> string, data: string)
    requires Inventory(entries, files, sha) && OrderedBy(entries, PathOf) && MANIFEST !in files
    ensures var m := Manifest(boundary, |entries|, sha(Preimage(DeclaredRows(entries))), entries);
      && Binds(m, files[MANIFEST := data], sha) && Sourced(entries, files[MANIFEST := data])
      && MANIFEST !in Paths(entries)
  {
    var paths, all := Paths(entries), files[MANIFEST := data];
    forall i | 0 <= i < |entries| ensures Matches(entries[i], all, sha) && FaithfulCopy(entries[i], all) {
      assert Matches(entries[i], files, sha) && FaithfulCopy(entries[i], files);
    }
    PathsFollow(entries);
    DeclaredIsObserved(entries, all, sha);
    PathSetIsPaths(entries);
  }

  function Selection(tracked: seq<string>, chosen: string -> bool): seq<string> {
    if tracked == [] then []
    else (if chosen(tracked[0]) then [tracked[0]] else []) + Selection(tracked[1..], chosen)
  }

  lemma {:induction false} SelectionMembers(tracked: seq<string>, chosen: string -> bool)
    ensures forall p :: p in Selection(tracked, chosen) <==> p in tracked && chosen(p)
  {
    if tracked != [] {
      SelectionMembers(tracked[1..], chosen);
      FirstAndRest(tracked);
      assert forall p :: p in tracked <==> p == tracked[0] || p in tracked[1..];
    }
  }

  lemma DistinctPrepend(p: string, paths: seq<string>)
    requires Distinct(paths) && p !in paths
    ensures Distinct([p] + paths) && [] + paths == paths
  {
    var more := [p] + paths;
    forall i, j | 0 <= i < j < |more| ensures Self(more[i]) != Self(more[j]) {
      if i > 0 { assert Self(paths[i - 1]) != Self(paths[j - 1]); }
    }
  }

  lemma {:induction false} SelectionDistinct(tracked: seq<string>, chosen: string -> bool)
    requires Distinct(tracked)
    ensures Distinct(Selection(tracked, chosen))
  {
    if tracked != [] {
      var rest := tracked[1..];
      forall i, j | 0 <= i < j < |rest| ensures Self(rest[i]) != Self(rest[j]) {
        assert Self(tracked[i + 1]) != Self(tracked[j + 1]);
      }
      SelectionDistinct(rest, chosen);
      SelectionMembers(rest, chosen);
      forall p | p in Selection(rest, chosen) ensures p != tracked[0] {
        var k :| 0 <= k < |rest| && rest[k] == p;
        assert Self(tracked[0]) != Self(tracked[k + 1]);
      }
      DistinctPrepend(tracked[0], Selection(rest, chosen));
    }
  }

  lemma SelectionIsExportable(tracked: seq<string>, chosen: string -> bool, required: set<string>)
    requires {TEMPLATE, PUBLIC_README} <= required && Distinct(tracked)
    requires !chosen(PAGES) && !chosen(README) && !chosen(MANIFEST)
    ensures required <= (set p | p in Selection(tracked, chosen)) ==> Exportable(Selection(tracked, chosen))
  {
    SelectionMembers(tracked, chosen);
    SelectionDistinct(tracked, chosen);
  }

  /** The snapshot that the selected paths of a source tree make. */
  ghost predicate Assembled(selected: seq<string>, source: Files, files: Files, m: Manifest, sha: string -> string, codec: Codec) {
    && Public(m.boundary) && Binds(m, files, sha) && Sourced(m.files, files) && MANIFEST !in Paths(m.files)
    && files.Keys == (set p | p in selected) + {PAGES, README, MANIFEST}
    && Present(selected, source) && Present(selected, files) && TEMPLATE in source && PUBLIC_README in source
    && (forall i | 0 <= i < |selected| :: files[selected[i]] == source[selected[i]])
    && files[PAGES] == source[TEMPLATE] && files[README] == source[PUBLIC_README]
    && files[MANIFEST] == codec.write(m)
  }

  lemma CopiedAt(selected: seq<string>, source: Files, files: Files, entries: seq<Entry>, sha: string -> string, p: string)
    requires Copies(selected, source, files, entries, sha) && p in selected
    ensures p in source && p in files && files[p] == source[p]
  {
    var i :| 0 <= i < |selected| && selected[i] == p;
    assert files[selected[i]] == source[selected[i]];
  }

  lemma CopiedAssembles(selected: seq<string>, source: Files, files: Files, entries: seq<Entry>, sha: string -> string,
                        codec: Codec, m: Manifest, snapshot: Files)
    requires Exportable(selected) && Copies(selected, source, files, entries, sha)
    requires TEMPLATE in files && PUBLIC_README in files
    requires snapshot == WithGenerated(files)[MANIFEST := codec.write(m)]
    requires Public(m.boundary) && Binds(m, snapshot, sha) && Sourced(m.files, snapshot) && MANIFEST !in Paths(m.files)
    ensures Assembled(selected, source, snapshot, m, sha, codec)
  {
    CopiedAt(selected, source, files, entries, sha, TEMPLATE);
    CopiedAt(selected, source, files, entries, sha, PUBLIC_README);
    forall i | 0 <= i < |selected| ensures selected[i] in snapshot && snapshot[selected[i]] == source[selected[i]] {
      assert selected[i] in selected;
    }
  }

  /** Walks the snapshot directory. */
  method Walk(files: Files) returns (paths: seq<string>)
    ensures Enumerates(paths, files)
  {
    paths := [];
    var rest := files.Keys;
    while rest != {}
      invariant rest <= files.Keys && forall p :: p in paths <==> p in files.Keys - rest
      decreases |rest|
    {
      var p :| p in rest;
      paths, rest := paths + [p], rest - {p};
    }
  }

  /** Copies, generates, lists, and writes the manifest. */
  method BuildSnapshot(identity: Identity, selected: seq<string>, source: Files, sha: string -> string, codec: Codec)
      returns (ok: bool, snapshot: Files, m: Manifest)
    requires Exportable(selected)
    ensures ok <==> Present(selected, source)
    ensures ok ==> Assembled(selected, source, snapshot, m, sha, codec) && m.boundary == BoundaryOf(identity)
  {
    snapshot, m := map[], Manifest(BoundaryOf(identity), 0, "", []);
    var files, entries;
    ok, files, entries := CopyFiles(selected, source, sha);
    if !ok { return; }
    CopiedInventory(selected, source, files, entries, sha);
    var listed := Sorted(entries + GeneratedEntries(files, sha), PathOf);
    var all := WithGenerated(files);
    m := Manifest(BoundaryOf(identity), |listed|, sha(Preimage(DeclaredRows(listed))), listed);
    snapshot := all[MANIFEST := codec.write(m)];
    SortedInventory(entries + GeneratedEntries(files, sha), all, sha);
    InventoryBinds(m.boundary, listed, all, sha, codec.write(m));
    CopiedAssembles(selected, source, files, entries, sha, codec, m, snapshot);
  }

  /** The selection is complete and every selected file exists. */
  predicate Complete(selected: seq<string>, source: Files, required: set<string>) {
    Present(selected, source) && required <= set p | p in selected
  }

  predicate SlashlessPaths(paths: seq<string>) { forall i | 0 <= i < |paths| :: '\\' !in paths[i] }

  lemma FixedNamesSlashless()
    ensures '\\' !in PAGES && '\\' !in README && '\\' !in MANIFEST
  {
  }

  lemma KeysSlashless(selected: seq<string>, files: Files)
    requires files.Keys == (set p | p in selected) + {PAGES, README, MANIFEST}
    ensures Slashless(files) <==> SlashlessPaths(selected)
  {
    FixedNamesSlashless();
    if SlashlessPaths(selected) {
      forall p | p in files.Keys ensures '\\' !in p { }
    } else {
      var i :| 0 <= i < |selected| && '\\' in selected[i];
      assert selected[i] in files.Keys;
    }
  }

  /** The exporter's own check passes exactly when the source is named by object identifiers and
      no selected path holds a backslash. */
  lemma AssembledCleanIff(selected: seq<string>, source: Files, files: Files, m: Manifest, sha: string -> string,
                          codec: Codec, paths: seq<string>)
    requires Faithful(codec) && Assembled(selected, source, files, m, sha, codec) && Enumerates(paths, files)
    ensures Clean(paths, files, sha, codec) <==> Identified(m.boundary.source) && SlashlessPaths(selected)
  {
    KeysSlashless(selected, files);
    CleanIffSlashless(paths, files, sha, codec, m);
  }

  /** Has the checker walk the snapshot directory. */
  method CheckMirror(selected: seq<string>, source: Files, snapshot: Files, ghost m: Manifest, sha: string -> string, codec: Codec)
      returns (clean: bool)
    requires Faithful(codec) && Assembled(selected, source, snapshot, m, sha, codec)
    ensures clean <==> Identified(m.boundary.source) && SlashlessPaths(selected)
  {
    var paths := Walk(snapshot);
    var violations := MirrorViolations(paths, snapshot, sha, codec);
    AssembledCleanIff(selected, source, snapshot, m, sha, codec, paths);
    clean := violations == [];
  }

  /** The check before publication: `private` stands for the privacy scan beside it. */
  method ValidateExport(selected: seq<string>, source: Files, snapshot: Files, ghost m: Manifest,
                        sha: string -> string, codec: Codec, private: Files -> bool)
      returns (ok: bool)
    requires Faithful(codec) && Assembled(selected, source, snapshot, m, sha, codec)
    ensures ok <==> Identified(m.boundary.source) && SlashlessPaths(selected) && !private(snapshot)
  {
    var clean := CheckMirror(selected, source, snapshot, m, sha, codec);
    ok := clean && !private(snapshot);
  }

  /** `_assemble_snapshot`: the snapshot is written to its directory, and its manifest is
      returned only if the check before publication passes and the source, read `again`, is
      still the one it began with. */
  method AssembleSnapshot(identity: Identity, again: Identity, source: Files, tracked: seq<string>, chosen: string -> bool,
                          required: set<string>, sha: string -> string, codec: Codec, private: Files -> bool)
      returns (r: Result<Manifest>, written: Files, ghost m: Manifest)
    requires Faithful(codec) && {TEMPLATE, PUBLIC_README} <= required && Distinct(tracked)
    requires !chosen(PAGES) && !chosen(README) && !chosen(MANIFEST)
    ensures Complete(Selection(tracked, chosen), source, required) ==>
              Assembled(Selection(tracked, chosen), source, written, m, sha, codec) && m.boundary == BoundaryOf(identity)
    ensures r.Ok? <==>
      && Complete(Selection(tracked, chosen), source, required) && Identified(identity) && again == identity
      && SlashlessPaths(Selection(tracked, chosen)) && !private(written)
    ensures r.Ok? ==> r.value == m
  {
    var selected := Selection(tracked, chosen);
    r, m, written := Rejected, Manifest(BoundaryOf(identity), 0, "", []), map[];
    if required <= set p | p in selected {
      SelectionIsExportable(tracked, chosen, required);
      var complete, snapshot, manifest := BuildSnapshot(identity, selected, source, sha, codec);
      m, written := manifest, snapshot;
      if complete {
        var passed := ValidateExport(selected, source, snapshot, manifest, sha, codec, private);
        if passed && again == identity { r := Ok(manifest); }
      }
    }
  }
}
