/** How the defense kit takes in a public snapshot: it reads the directory within its limits,
    compares it with the manifest, has the checker look at it, and reads it once more. */
module PublicIntake {
  import opened Text
  import opened Sorting
  import opened PublicManifest
  import opened PublicChecker
  import opened PublicExport
  import opened PublicConsumers

  const MAX_FILE: nat := 128 * 1024 * 1024
  const MAX_TOTAL: nat := 256 * 1024 * 1024
  const MAX_ENTRIES: nat := 20_000

  /** The kit's own path rule and privacy scan, and the checker's scan of a whole snapshot. */
  datatype Rules = Rules(sensitive: string -> bool, scan: string -> bool, private: Files -> bool)

  // ---------------------------------------------------------------- reading a directory

  // Below, `paths` are the files a directory lists, in the order in which they are read.

  /** The size of the first `n` files together. */
  function Size(paths: seq<string>, n: nat, files: Files): nat
    requires n <= |paths| && Present(paths, files)
  {
    if n == 0 then 0 else Size(paths, n - 1, files) + |files[paths[n - 1]]|
  }

  lemma {:induction false} SizeGrows(paths: seq<string>, n: nat, files: Files)
    requires n <= |paths| && Present(paths, files)
    ensures Size(paths, n, files) <= Size(paths, |paths|, files)
    decreases |paths| - n
  {
    if n < |paths| { SizeGrows(paths, n + 1, files); }
  }

  predicate Admitted(path: string, data: string, rules: Rules) {
    !rules.sensitive(path) && 0 < |data| <= MAX_FILE && !rules.scan(data)
  }

  /** What can be read of a snapshot: all of its files, the manifest among them, within the limits. */
  predicate Readable(paths: seq<string>, files: Files, rules: Rules) {
    && 0 < |paths| <= MAX_ENTRIES + 1
    && Present(paths, files) && Size(paths, |paths|, files) <= MAX_TOTAL
    && forall i | 0 <= i < |paths| :: Admitted(paths[i], files[paths[i]], rules)
  }

  /** The first `n` files have been read. */
  ghost predicate ReadFirst(paths: seq<string>, n: nat, files: Files, values: Files) {
    && n <= |paths| && values.Keys == (set p | p in paths[..n])
    && forall p | p in values :: p in files && values[p] == files[p]
  }

  lemma ReadNext(paths: seq<string>, n: nat, files: Files, values: Files)
    requires n < |paths| && paths[n] in files && ReadFirst(paths, n, files, values)
    ensures ReadFirst(paths, n + 1, files, values[paths[n] := files[paths[n]]])
  {
    TakeOneMore(paths, n);
    assert forall p :: p in paths[..n + 1] <==> p in paths[..n] || p == paths[n];
  }

  /** The first `n` files have been read, and were within the limits. */
  ghost predicate ReadSoFar(paths: seq<string>, n: nat, files: Files, rules: Rules, values: Files, total: int) {
    && Present(paths, files) && ReadFirst(paths, n, files, values) && total == Size(paths, n, files) <= MAX_TOTAL
    && forall i | 0 <= i < n :: Admitted(paths[i], files[paths[i]], rules)
  }

  lemma ReadMore(paths: seq<string>, n: nat, files: Files, rules: Rules, values: Files, total: int)
    requires n < |paths| && ReadSoFar(paths, n, files, rules, values, total)
    requires Admitted(paths[n], files[paths[n]], rules) && total + |files[paths[n]]| <= MAX_TOTAL
    ensures ReadSoFar(paths, n + 1, files, rules, values[paths[n] := files[paths[n]]], total + |files[paths[n]]|)
  {
    ReadNext(paths, n, files, values);
  }

  lemma TooLarge(paths: seq<string>, n: nat, files: Files, rules: Rules, values: Files, total: int)
    requires n < |paths| && ReadSoFar(paths, n, files, rules, values, total)
    requires total + |files[paths[n]]| > MAX_TOTAL
    ensures !Readable(paths, files, rules)
  {
    SizeGrows(paths, n + 1, files);
  }

  lemma ReadAll(paths: seq<string>, files: Files, rules: Rules, values: Files, total: int)
    requires Enumerates(paths, files) && 0 < |paths| <= MAX_ENTRIES + 1
    requires ReadSoFar(paths, |paths|, files, rules, values, total)
    ensures values == files && Readable(paths, files, rules)
  {
    TakeAll(paths);
    assert values.Keys == files.Keys;
  }

  lemma NothingRead(paths: seq<string>, files: Files, rules: Rules)
    requires Enumerates(paths, files)
    ensures ReadSoFar(paths, 0, files, rules, map[], 0)
  {
  }

  /** The loop over the files. */
  method ReadFiles(paths: seq<string>, files: Files, rules: Rules) returns (ok: bool, values: Files)
    requires Enumerates(paths, files) && 0 < |paths| <= MAX_ENTRIES + 1
    ensures ok <==> Readable(paths, files, rules)
    ensures ok ==> values == files
  {
    var total, i := 0, 0;
    values, ok := map[], true;
    NothingRead(paths, files, rules);
    while i < |paths| && ok
      invariant i <= |paths| && ReadSoFar(paths, i, files, rules, values, total)
      invariant !ok ==> !Readable(paths, files, rules)
      decreases |paths| - i, ok
    {
      var p := paths[i];
      var data := files[p];
      if !Admitted(p, data, rules) {
        ok := false;
      } else if total + |data| > MAX_TOTAL {
        TooLarge(paths, i, files, rules, values, total);
        ok := false;
      } else {
        ReadMore(paths, i, files, rules, values, total);
        values, total, i := values[p := data], total + |data|, i + 1;
      }
    }
    if ok { ReadAll(paths, files, rules, values, total); }
  }

  /** `_read_snapshot_bytes`. */
  method ReadSnapshot(paths: seq<string>, files: Files, rules: Rules) returns (r: Result<Files>)
    requires Enumerates(paths, files)
    ensures r.Ok? <==> Readable(paths, files, rules)
    ensures r.Ok? ==> r.value == files
  {
    r := Rejected;
    if 0 < |paths| <= MAX_ENTRIES + 1 {
      var ok, values := ReadFiles(paths, files, rules);
      if ok { r := Ok(values); }
    }
  }

  lemma {:induction false} CountDistinct(paths: seq<string>)
    requires Distinct(paths)
    ensures |set p | p in paths| == |paths|
  {
    if paths != [] {
      var n := |paths| - 1;
      forall i, j | 0 <= i < j < n ensures Self(paths[..n][i]) != Self(paths[..n][j]) {
        assert Self(paths[i]) != Self(paths[j]);
      }
      CountDistinct(paths[..n]);
      forall k | 0 <= k < n ensures paths[k] != paths[n] { assert Self(paths[k]) != Self(paths[n]); }
      TakeOneMore(paths, n);
      TakeAll(paths);
      assert (set p | p in paths) == (set p | p in paths[..n]) + {paths[n]};
    }
  }

  lemma EachAdmitted(paths: seq<string>, files: Files, rules: Rules)
    requires Enumerates(paths, files)
    ensures (forall i | 0 <= i < |paths| :: Admitted(paths[i], files[paths[i]], rules)) <==>
              forall p | p in files :: Admitted(p, files[p], rules)
  {
    forall p | p in files ensures exists i :: 0 <= i < |paths| && paths[i] == p { assert p in paths; }
  }

  /** In terms of the files themselves: their number, each one's name, size and contents, and
      their size together. */
  lemma ReadableIffWithinLimits(paths: seq<string>, files: Files, rules: Rules)
    requires Distinct(paths) && Enumerates(paths, files)
    ensures Readable(paths, files, rules) <==>
      && 0 < |files| <= MAX_ENTRIES + 1 && Size(paths, |paths|, files) <= MAX_TOTAL
      && forall p | p in files :: Admitted(p, files[p], rules)
  {
    CountDistinct(paths);
    assert files.Keys == (set p | p in paths) && |files| == |files.Keys|;
    EachAdmitted(paths, files, rules);
  }

  // ---------------------------------------------------------------- the intake

  /** What the kit and the checker ask of the files once they have been read. */
  ghost predicate Sound(paths: seq<string>, files: Files, source: Identity, sha: string -> string, fold: string -> string,
                        rules: Rules, codec: Codec) {
    && MANIFEST in files && codec.read(files[MANIFEST]).Some?
    && codec.read(files[MANIFEST]).value.boundary == BoundaryOf(source)
    && KitAccepts(codec.read(files[MANIFEST]).value, files, sha, fold, rules.sensitive)
    && Clean(paths, files, sha, codec) && !rules.private(files)
  }

  /** The manifest is compared first, then the checker runs. */
  method JudgeSnapshot(paths: seq<string>, files: Files, source: Identity, sha: string -> string, fold: string -> string,
                       rules: Rules, codec: Codec)
      returns (ok: bool)
    ensures ok <==> Sound(paths, files, source, sha, fold, rules, codec)
  {
    ok := false;
    if MANIFEST in files && codec.read(files[MANIFEST]).Some? {
      ok := ValidateKitManifest(codec.read(files[MANIFEST]).value, source, files, sha, fold, rules.sensitive);
      if ok {
        var violations := MirrorViolations(paths, files, sha, codec);
        ok := violations == [] && !rules.private(files);
      }
    }
  }

  /** Two readings of the directory, with the judgement between them. */
  ghost predicate Intake(paths: seq<string>, files: Files, pathsAgain: seq<string>, again: Files, source: Identity,
                         sha: string -> string, fold: string -> string, rules: Rules, codec: Codec) {
    && Readable(paths, files, rules) && Sound(paths, files, source, sha, fold, rules, codec)
    && Readable(pathsAgain, again, rules) && again == files
  }

  /** `_public_snapshot_materials`: `again` is what the directory holds at the second reading. */
  method TakeSnapshot(paths: seq<string>, files: Files, pathsAgain: seq<string>, again: Files, source: Identity,
                      sha: string -> string, fold: string -> string, rules: Rules, codec: Codec)
      returns (r: Result<Files>)
    requires Enumerates(paths, files) && Enumerates(pathsAgain, again)
    ensures r.Ok? <==> Intake(paths, files, pathsAgain, again, source, sha, fold, rules, codec)
    ensures r.Ok? ==> r.value == files == again && Readable(paths, files, rules) && Readable(pathsAgain, again, rules)
  {
    r := ReadSnapshot(paths, files, rules);
    if r.Ok? {
      var sound := JudgeSnapshot(paths, r.value, source, sha, fold, rules, codec);
      var second := ReadSnapshot(pathsAgain, again, rules);
      if !sound || second != r { r := Rejected; }
    }
  }

  lemma AdmittedEntries(paths: seq<string>, files: Files, m: Manifest, sha: string -> string, rules: Rules)
    requires Enumerates(paths, files) && Readable(paths, files, rules) && AllMatch(m.files, files, sha)
    ensures forall i | 0 <= i < |m.files| ::
      && m.files[i].path in files && |files[m.files[i].path]| > 0 && !rules.sensitive(m.files[i].path)
  {
    forall i | 0 <= i < |m.files|
      ensures m.files[i].path in files && |files[m.files[i].path]| > 0 && !rules.sensitive(m.files[i].path)
    {
      var p := m.files[i].path;
      assert Matches(m.files[i], files, sha) && p in paths;
      var k :| 0 <= k < |paths| && paths[k] == p;
      assert Admitted(paths[k], files[paths[k]], rules);
    }
  }

  /** Of files that can be read, the kit asks no more than the source and paths that fold apart. */
  lemma ReadableManifest(paths: seq<string>, files: Files, m: Manifest, source: Identity, sha: string -> string,
                         fold: string -> string, rules: Rules)
    requires Enumerates(paths, files) && Readable(paths, files, rules)
    requires Public(m.boundary) && Binds(m, files, sha) && MANIFEST !in Paths(m.files)
    ensures m.boundary == BoundaryOf(source) && KitAccepts(m, files, sha, fold, rules.sensitive) <==>
      m.boundary.source == source && Apart(Paths(m.files), fold)
  {
    ManifestTakesExport(m, files, source, sha, fold, rules.sensitive);
    AdmittedEntries(paths, files, m, sha, rules);
  }

  /** With its manifest spelled out. */
  lemma SoundSpelled(m: Manifest, paths: seq<string>, files: Files, source: Identity, sha: string -> string,
                     fold: string -> string, rules: Rules, codec: Codec)
    requires MANIFEST in files && codec.read(files[MANIFEST]) == Some(m)
    ensures Sound(paths, files, source, sha, fold, rules, codec) <==>
      && m.boundary == BoundaryOf(source) && KitAccepts(m, files, sha, fold, rules.sensitive)
      && Clean(paths, files, sha, codec) && !rules.private(files)
  {
  }

  /** What is asked of an export apart from reading it. */
  lemma ExportIsSound(selected: seq<string>, tree: Files, files: Files, m: Manifest, paths: seq<string>, source: Identity,
                      sha: string -> string, fold: string -> string, rules: Rules, codec: Codec)
    requires Faithful(codec) && Assembled(selected, tree, files, m, sha, codec) && Enumerates(paths, files)
    ensures Sound(paths, files, source, sha, fold, rules, codec) <==>
      && m.boundary == BoundaryOf(source) && KitAccepts(m, files, sha, fold, rules.sensitive)
      && Identified(m.boundary.source) && SlashlessPaths(selected) && !rules.private(files)
  {
    assert MANIFEST in files && codec.read(files[MANIFEST]) == Some(m);
    SoundSpelled(m, paths, files, source, sha, fold, rules, codec);
    if !rules.private(files) { AssembledCleanIff(selected, tree, files, m, sha, codec, paths); }
  }

  /** End to end: the kit takes an exported snapshot, left alone while it is read, exactly when
      it was made from the kit's own source, named by object identifiers, no selected path holds
      a backslash, the checker's scan is silent, every file is admitted and they are not too many
      or too large together, and no two listed paths differ in case alone. */
  lemma KitTakesExport(selected: seq<string>, tree: Files, files: Files, m: Manifest, paths: seq<string>, source: Identity,
                       sha: string -> string, fold: string -> string, rules: Rules, codec: Codec)
    requires Faithful(codec) && Assembled(selected, tree, files, m, sha, codec) && Enumerates(paths, files)
    ensures Intake(paths, files, paths, files, source, sha, fold, rules, codec) <==>
      && m.boundary.source == source && Identified(source) && SlashlessPaths(selected) && !rules.private(files)
      && Readable(paths, files, rules) && Apart(Paths(m.files), fold)
  {
    ExportIsSound(selected, tree, files, m, paths, source, sha, fold, rules, codec);
    if Readable(paths, files, rules) { ReadableManifest(paths, files, m, source, sha, fold, rules); }
  }
}
