/** What the validators of a public snapshot accept, condition by condition. */
module PublicMeaning {
  import opened Text
  import opened Sorting
  import opened Sums
  import opened PublicManifest
  import opened PublicChecker
  import opened PublicConsumers
  import opened PublicExport
  import I = PublicIntake
  import U = PublicUpload

  // ---------------------------------------------------------------- the boundary

  /** ASCII digits, and the letters from `a` to `f`. */
  predicate HexDigits(s: string) { forall c | c in s :: 48 <= c as int <= 57 || 97 <= c as int <= 102 }

  /** The name of a git object, in either of git's hashes. */
  predicate ObjectName(s: string) { (|s| == 40 || |s| == 64) && HexDigits(s) }

  lemma ObjectIdMeans(s: string)
    ensures ObjectId(s) <==> ObjectName(s)
  {
    if HexDigits(s) {
      forall i | 0 <= i < |s| ensures '0' <= s[i] <= '9' || 'a' <= s[i] <= 'f' { assert s[i] in s; }
    }
  }

  predicate DeclaresPublic(b: Boundary) {
    && b.schema == "visiondata-gate.public-mirror.v2" && b.clean && b.trackedOnly
    && !b.history && !b.evidence && !b.customerData && !b.personalData
  }

  lemma SealedMeans(b: Boundary)
    ensures Public(b) <==> DeclaresPublic(b)
    ensures Sealed(b) <==> DeclaresPublic(b) && ObjectName(b.source.commit) && ObjectName(b.source.tree)
  {
    ObjectIdMeans(b.source.commit);
    ObjectIdMeans(b.source.tree);
  }

  // ---------------------------------------------------------------- the entries

  /** The entry says what is in the file. */
  predicate TellsFile(e: Entry, files: Files, sha: string -> string) {
    e.path in files && e.size == |files[e.path]| && e.sha256 == sha(files[e.path])
  }

  predicate IsCopy(e: Entry, files: Files, template: string) {
    e.source == Some(template) && template in files && e.path in files && files[template] == files[e.path]
  }

  /** Two files are copies of templates; no other file names a source. */
  predicate CopiesTemplate(e: Entry, files: Files) {
    if e.path == ".github/workflows/pages.yml" then IsCopy(e, files, "tools/templates/public-pages.yml")
    else if e.path == "README.md" then IsCopy(e, files, "docs/PUBLIC_REPOSITORY_README.md")
    else e.source.None?
  }

  lemma GeneratedAre(path: string)
    ensures path in GENERATED <==> path == ".github/workflows/pages.yml" || path == "README.md"
    ensures path == ".github/workflows/pages.yml" ==> GENERATED[path] == "tools/templates/public-pages.yml"
    ensures path == "README.md" ==> GENERATED[path] == "docs/PUBLIC_REPOSITORY_README.md"
  {
    assert ".github/workflows/pages.yml"[0] != "README.md"[0];
  }

  lemma CopiesTemplateMeans(e: Entry, files: Files)
    requires e.path in files
    ensures WellShaped(e) && FaithfulCopy(e, files) <==> CopiesTemplate(e, files)
  {
    GeneratedAre(e.path);
  }

  /** In order, and none twice. */
  ghost predicate StrictlyOrdered(entries: seq<Entry>) {
    forall i, j | 0 <= i < j < |entries| :: StrLe(entries[i].path, entries[j].path) && entries[i].path != entries[j].path
  }

  lemma StrictlyOrderedMeans(entries: seq<Entry>)
    ensures Distinct(Paths(entries)) && Ascending(Paths(entries)) <==> StrictlyOrdered(entries)
  {
    var paths := Paths(entries);
    if Distinct(paths) && Ascending(paths) {
      forall i, j | 0 <= i < j < |entries|
        ensures StrLe(entries[i].path, entries[j].path) && entries[i].path != entries[j].path
      {
        assert StrLe(Self(paths[i]), Self(paths[j])) && Self(paths[i]) != Self(paths[j]);
      }
    }
    if StrictlyOrdered(entries) {
      forall i, j | 0 <= i < j < |paths| ensures StrLe(Self(paths[i]), Self(paths[j])) && Self(paths[i]) != Self(paths[j]) {
        assert paths[i] == entries[i].path && paths[j] == entries[j].path;
      }
    }
  }

  /** Path and digest of each entry, as the file that is there gives it. */
  function RowsSeen(entries: seq<Entry>, files: Files, sha: string -> string): seq<Row>
    requires forall i | 0 <= i < |entries| :: entries[i].path in files
  {
    seq(|entries|, i requires 0 <= i < |entries| => Row(entries[i].path, sha(files[entries[i].path])))
  }

  /** The manifest tells all the files it lists, in order and none twice, as many as it says, and
      its snapshot digest is that of their paths and digests. */
  ghost predicate TellsFiles(m: Manifest, files: Files, sha: string -> string) {
    && m.fileCount == |m.files| && (forall i | 0 <= i < |m.files| :: TellsFile(m.files[i], files, sha))
    && StrictlyOrdered(m.files) && m.snapshotSha256 == sha(Preimage(RowsSeen(m.files, files, sha)))
  }

  lemma CoreMeans(m: Manifest, files: Files, sha: string -> string)
    ensures Core(m, files, sha) <==> TellsFiles(m, files, sha)
  {
    StrictlyOrderedMeans(m.files);
    forall i | 0 <= i < |m.files| ensures Matches(m.files[i], files, sha) <==> TellsFile(m.files[i], files, sha) {}
    if AllMatch(m.files, files, sha) {
      forall i | 0 <= i < |m.files| ensures Paths(m.files)[i] in files { assert Matches(m.files[i], files, sha); }
      assert Observed(Paths(m.files), files, sha) == RowsSeen(m.files, files, sha);
    }
  }

  ghost predicate ListsPath(m: Manifest, path: string) { exists i :: 0 <= i < |m.files| && m.files[i].path == path }

  lemma PathsMean(entries: seq<Entry>, p: string)
    ensures p in Paths(entries) <==> exists i :: 0 <= i < |entries| && entries[i].path == p
  {
    if i :| 0 <= i < |entries| && entries[i].path == p { assert Paths(entries)[i] == p; }
  }

  lemma ListedMeans(m: Manifest)
    ensures forall p :: p in Listed(m) <==> ListsPath(m, p) || p == "PUBLIC_MIRROR_MANIFEST.json"
  {
    forall p ensures p in Paths(m.files) <==> ListsPath(m, p) { PathsMean(m.files, p); }
  }

  // ---------------------------------------------------------------- the checker

  ghost predicate Tracks(paths: seq<string>, path: string) { exists i :: 0 <= i < |paths| && Slashed(paths[i]) == path }

  lemma TrackedMeans(paths: seq<string>)
    ensures forall p :: p in Tracked(paths) <==> Tracks(paths, p)
  {
    forall p ensures p in Tracked(paths) <==> Tracks(paths, p) {
      if i :| 0 <= i < |paths| && Slashed(paths[i]) == p { assert paths[i] in paths; }
    }
  }

  /** The checker has nothing to object exactly when the manifest is tracked and can be read,
      declares a public snapshot of named objects, tells its files, the two generated ones as
      copies of their templates, and lists, besides itself, exactly what is tracked. */
  lemma CleanMeans(paths: seq<string>, files: Files, sha: string -> string, codec: Codec)
    ensures Clean(paths, files, sha, codec) <==>
      && "PUBLIC_MIRROR_MANIFEST.json" in files && codec.read(files["PUBLIC_MIRROR_MANIFEST.json"]).Some?
      && var m := codec.read(files["PUBLIC_MIRROR_MANIFEST.json"]).value;
      && DeclaresPublic(m.boundary) && ObjectName(m.boundary.source.commit) && ObjectName(m.boundary.source.tree)
      && TellsFiles(m, files, sha) && (forall i | 0 <= i < |m.files| :: CopiesTemplate(m.files[i], files))
      && forall p :: Tracks(paths, p) <==> ListsPath(m, p) || p == "PUBLIC_MIRROR_MANIFEST.json"
  {
    TrackedMeans(paths);
    if MANIFEST in files && codec.read(files[MANIFEST]).Some? {
      var m := codec.read(files[MANIFEST]).value;
      SealedMeans(m.boundary);
      CoreMeans(m, files, sha);
      ListedMeans(m);
      if TellsFiles(m, files, sha) {
        forall i | 0 <= i < |m.files|
          ensures WellShaped(m.files[i]) && FaithfulCopy(m.files[i], files) <==> CopiesTemplate(m.files[i], files)
        {
          CopiesTemplateMeans(m.files[i], files);
        }
      }
    }
  }

  // ---------------------------------------------------------------- the exporter

  /** What an assembled snapshot holds: each selected file as it is in the source, the two copies of
      templates, the manifest as it is written, and nothing else; and the manifest tells them. */
  lemma AssembledMeans(selected: seq<string>, source: Files, files: Files, m: Manifest, sha: string -> string, codec: Codec)
    requires Assembled(selected, source, files, m, sha, codec)
    ensures forall p :: p in files <==>
      || p in selected || p == ".github/workflows/pages.yml" || p == "README.md" || p == "PUBLIC_MIRROR_MANIFEST.json"
    ensures forall i | 0 <= i < |selected| ::
      selected[i] in source && selected[i] in files && files[selected[i]] == source[selected[i]]
    ensures "tools/templates/public-pages.yml" in source && "docs/PUBLIC_REPOSITORY_README.md" in source
    ensures ".github/workflows/pages.yml" in files && "README.md" in files && "PUBLIC_MIRROR_MANIFEST.json" in files
    ensures files[".github/workflows/pages.yml"] == source["tools/templates/public-pages.yml"]
    ensures files["README.md"] == source["docs/PUBLIC_REPOSITORY_README.md"]
    ensures files["PUBLIC_MIRROR_MANIFEST.json"] == codec.write(m)
    ensures DeclaresPublic(m.boundary) && TellsFiles(m, files, sha)
    ensures forall i | 0 <= i < |m.files| :: CopiesTemplate(m.files[i], files)
    ensures forall p :: p in files <==> ListsPath(m, p) || p == "PUBLIC_MIRROR_MANIFEST.json"
    ensures !ListsPath(m, "PUBLIC_MIRROR_MANIFEST.json")
  {
    SealedMeans(m.boundary);
    CoreMeans(m, files, sha);
    ListedMeans(m);
    PathsMean(m.files, MANIFEST);
    forall i | 0 <= i < |m.files| ensures CopiesTemplate(m.files[i], files) { CopiesTemplateMeans(m.files[i], files); }
  }

  // ---------------------------------------------------------------- the kit

  lemma ApartMeans(entries: seq<Entry>, fold: string -> string)
    ensures Apart(Paths(entries), fold) <==>
              forall i, j | 0 <= i < j < |entries| :: fold(entries[i].path) != fold(entries[j].path)
  {
    var paths := Paths(entries);
    if Apart(paths, fold) {
      forall i, j | 0 <= i < j < |entries| ensures fold(entries[i].path) != fold(entries[j].path) {
        assert fold(paths[i]) != fold(paths[j]);
      }
    }
  }

  /** The kit asks in addition that the manifest speak of all the files, of none that is empty,
      sensitive or the manifest itself, and of no two that fold alike. */
  lemma KitAcceptsMeans(m: Manifest, files: Files, sha: string -> string, fold: string -> string, sensitive: string -> bool)
    ensures KitAccepts(m, files, sha, fold, sensitive) <==>
      && TellsFiles(m, files, sha) && (forall p :: p in files <==> ListsPath(m, p) || p == "PUBLIC_MIRROR_MANIFEST.json")
      && (forall i | 0 <= i < |m.files| ::
            m.files[i].size > 0 && !sensitive(m.files[i].path) && m.files[i].path != "PUBLIC_MIRROR_MANIFEST.json")
      && forall i, j | 0 <= i < j < |m.files| :: fold(m.files[i].path) != fold(m.files[j].path)
  {
    CoreMeans(m, files, sha);
    ListedMeans(m);
    ApartMeans(m.files, fold);
  }

  lemma {:induction false} SizeIsSum(paths: seq<string>, n: nat, files: Files)
    requires n <= |paths| && Present(paths, files)
    ensures I.Size(paths, n, files) == Sum(paths[..n], (p: string) => if p in files then |files[p]| else 0)
  {
    if n > 0 {
      SizeIsSum(paths, n - 1, files);
      SumLast(paths, n - 1, (p: string) => if p in files then |files[p]| else 0);
    }
  }

  /** What the kit reads: at most 20,001 files, none of them sensitive, empty, private or larger
      than 128 MiB, and together no more than 256 MiB. */
  lemma KitReadsMeans(paths: seq<string>, files: Files, rules: I.Rules)
    requires Distinct(paths) && Enumerates(paths, files)
    ensures I.Readable(paths, files, rules) <==>
      && 0 < |files| <= 20_001 && Sum(paths, (p: string) => if p in files then |files[p]| else 0) <= 268_435_456
      && forall p | p in files ::
           !rules.sensitive(p) && files[p] != "" && |files[p]| <= 134_217_728 && !rules.scan(files[p])
  {
    I.ReadableIffWithinLimits(paths, files, rules);
    SizeIsSum(paths, |paths|, files);
    TakeAll(paths);
  }

  // ---------------------------------------------------------------- the upload

  function StoredSize(m: U.Member): nat { if m.name == "" || m.folder then 0 else |m.data| }

  lemma {:induction false} TotalIsSum(members: seq<U.Member>)
    ensures U.Total(members) == Sum(members, StoredSize)
  {
    if members != [] {
      var n := |members| - 1;
      TotalIsSum(members[..n]);
      SumLast(members, n, StoredSize);
      TakeAll(members);
    }
  }

  /** Which ZIPs are read: at most 20,001 members, of which those with a name have an archive path
      outside any `.git` and differ when folded, the files non-empty and no larger than 32 MiB,
      and all files together no more than 128 MiB. */
  lemma ZipReadsMeans(members: seq<U.Member>, naming: U.Naming)
    ensures U.Readable(members, naming) <==>
      && |members| <= 20_001 && Sum(members, StoredSize) <= 134_217_728
      && (forall i | 0 <= i < |members| && members[i].name != "" ::
            && naming.safe(members[i].name) && !naming.history(members[i].name)
            && (!members[i].folder ==> members[i].data != "" && |members[i].data| <= 33_554_432))
      && forall i, j | 0 <= i < j < |members| && members[i].name != "" && members[j].name != "" ::
           naming.fold(members[i].name) != naming.fold(members[j].name)
  {
    TotalIsSum(members);
  }

  lemma {:induction false} MemberIsRead(members: seq<U.Member>, i: nat)
    requires i < |members| && members[i].name != "" && !members[i].folder
    requires forall j | i < j < |members| :: members[j].name != members[i].name
    ensures members[i].name in U.Contents(members) && U.Contents(members)[members[i].name] == members[i].data
    decreases |members|
  {
    var n := |members| - 1;
    if i < n {
      assert members[..n][i] == members[i];
      assert forall j | i < j < n :: members[..n][j] == members[j];
      MemberIsRead(members[..n], i);
    }
  }

  /** And what is read of them: the data of each file member that has a name. */
  lemma ZipContentsAre(members: seq<U.Member>, naming: U.Naming, p: string, data: string)
    requires U.Readable(members, naming)
    ensures p in U.Contents(members) && U.Contents(members)[p] == data <==>
              exists i :: 0 <= i < |members| && members[i] == U.Member(p, false, data) && p != ""
  {
    if p in U.Contents(members) && U.Contents(members)[p] == data {
      var i := U.FileHasMember(members, p);
      assert members[i] == U.Member(p, false, data);
    }
    if i :| 0 <= i < |members| && members[i] == U.Member(p, false, data) && p != "" {
      MemberIsRead(members, i);
    }
  }

  /** The source that the manifest names for a file, without regard to what is in the files. */
  predicate NamesTemplate(e: Entry) {
    if e.path == ".github/workflows/pages.yml" then e.source == Some("tools/templates/public-pages.yml")
    else if e.path == "README.md" then e.source == Some("docs/PUBLIC_REPOSITORY_README.md")
    else e.source.None?
  }

  lemma DeclarableMeans(e: Entry, naming: U.Naming)
    ensures U.Declarable(e, naming) <==> NamesTemplate(e) && naming.safe(e.path) && e.size > 0
  {
    GeneratedAre(e.path);
  }

  /** The size and digest of every file but the manifest. */
  ghost predicate BindsFiles(expected: U.Bindings, files: Files, sha: string -> string) {
    && (forall p :: p in expected <==> p in files && p != "PUBLIC_MIRROR_MANIFEST.json")
    && forall p | p in expected :: expected[p] == (|files[p]|, sha(files[p]))
  }

  lemma BindingsMean(expected: U.Bindings, files: Files, sha: string -> string)
    ensures U.BindingsOf(U.Apart(files), sha) == expected <==> BindsFiles(expected, files, sha)
  {
    var bound := U.BindingsOf(U.Apart(files), sha);
    assert forall p :: p in bound <==> p in files && p != MANIFEST;
  }

  /** The upload asks that the manifest tell all files but itself, that every entry have an archive
      path, a size and the right template, and that the files be the expected ones. */
  lemma UploadAcceptsMeans(m: Manifest, files: Files, expected: U.Bindings, naming: U.Naming, sha: string -> string)
    ensures U.UploadAccepts(m, files, expected, naming, sha) <==>
      && TellsFiles(m, files, sha) && (forall p :: p in files <==> ListsPath(m, p) || p == "PUBLIC_MIRROR_MANIFEST.json")
      && !ListsPath(m, "PUBLIC_MIRROR_MANIFEST.json")
      && (forall i | 0 <= i < |m.files| :: NamesTemplate(m.files[i]) && naming.safe(m.files[i].path) && m.files[i].size > 0)
      && BindsFiles(expected, files, sha)
  {
    CoreMeans(m, files, sha);
    ListedMeans(m);
    BindingsMean(expected, files, sha);
    assert MANIFEST in Paths(m.files) <==> ListsPath(m, MANIFEST) by { PathsMean(m.files, MANIFEST); }
    forall i | 0 <= i < |m.files| { DeclarableMeans(m.files[i], naming); }
  }

  /** Which source trees are bound: both templates are selected, and every selected file is there,
      has an archive path, is not empty and no larger than 32 MiB; with the generated copies there
      are at most 20,000 files. */
  lemma TreeAcceptedMeans(selected: seq<string>, source: Files, naming: U.Naming)
    requires PAGES !in selected && README !in selected
    ensures U.TreeAccepted(selected, source, naming) <==>
      && "tools/templates/public-pages.yml" in selected && "docs/PUBLIC_REPOSITORY_README.md" in selected
      && (forall p | p in selected :: p in source && naming.safe(p) && source[p] != "" && |source[p]| <= 33_554_432)
      && |set p | p in selected| + 2 <= 20_000
  {
    if U.Bindable(selected, source, naming) {
      var files := U.SelectedFiles(selected, source);
      var names := set p | p in selected;
      forall i | 0 <= i < |selected| ensures selected[i] in source {}
      assert PAGES != README by { GeneratedAre(PAGES); GeneratedAre(README); }
      assert files.Keys == names + {PAGES} + {README};
      assert |files| == |files.Keys|;
    }
  }

  /** The ZIP is accepted when it can be read, its manifest is there and readable, declares the
      public boundary for the source that is being uploaded, and is accepted with the files. */
  lemma ZipAcceptedMeans(members: seq<U.Member>, source: Identity, expected: U.Bindings, naming: U.Naming,
                         sha: string -> string, codec: Codec)
    ensures U.ZipAccepted(members, source, expected, naming, sha, codec) <==>
      && U.Readable(members, naming) && "PUBLIC_MIRROR_MANIFEST.json" in U.Contents(members)
      && var m := codec.read(U.Contents(members)["PUBLIC_MIRROR_MANIFEST.json"]);
      && m.Some? && DeclaresPublic(m.value.boundary) && m.value.boundary.source == source
      && U.UploadAccepts(m.value, U.Contents(members), expected, naming, sha)
  {
    if MANIFEST in U.Contents(members) && codec.read(U.Contents(members)[MANIFEST]).Some? {
      SealedMeans(codec.read(U.Contents(members)[MANIFEST]).value.boundary);
    }
  }
}
