/** The upload bundle's validation of a public source ZIP: the members, the manifest's
    declarations and the source tree must agree three ways. */
module PublicUpload {
  import opened Text
  import opened Sorting
  import opened PublicManifest
  import opened PublicChecker
  import opened PublicExport

  const MAX_FILE: nat := 32 * 1024 * 1024
  const MAX_TOTAL: nat := 128 * 1024 * 1024
  const MAX_ENTRIES: nat := 20_000

  /** A ZIP member, its name without trailing slashes. */
  datatype Member = Member(name: string, folder: bool, data: string)

  /** What is known of a file without its contents. */
  type Bindings = map<string, (int, string)>

  /** The archive path rule (an opaque one, save that it rules out backslashes), the case
      folding, and which paths have a `.git` segment. */
  datatype Naming = Naming(safe: string -> bool, fold: string -> string, history: string -> bool)

  ghost predicate SlashesOnly(naming: Naming) { forall p :: naming.safe(p) ==> '\\' !in p }

  function BindingOf(data: string, sha: string -> string): (int, string) { (|data|, sha(data)) }

  function BindingsOf(files: Files, sha: string -> string): Bindings { map p | p in files :: BindingOf(files[p], sha) }

  // ---------------------------------------------------------------- what the source tree demands

  predicate Bounded(data: string) { 0 < |data| <= MAX_FILE }

  /** Every selected file is there, non-empty, small enough, and has an archive path. */
  predicate Bindable(selected: seq<string>, source: Files, naming: Naming) {
    && Present(selected, source) && TEMPLATE in selected && PUBLIC_README in selected
    && forall i | 0 <= i < |selected| :: naming.safe(selected[i]) && Bounded(source[selected[i]])
  }

  function Taken(paths: seq<string>, source: Files): Files { map p | p in paths && p in source :: source[p] }

  /** The public files of a source tree: the selected ones and the generated copies. */
  function SelectedFiles(selected: seq<string>, source: Files): Files
    requires Present(selected, source) && TEMPLATE in selected && PUBLIC_README in selected
  {
    WithGenerated(Taken(selected, source))
  }

  /** What `_expected_public_source_files` accepts. */
  predicate TreeAccepted(selected: seq<string>, source: Files, naming: Naming) {
    Bindable(selected, source, naming) && |SelectedFiles(selected, source)| <= MAX_ENTRIES
  }

  /** The loop has bound the first `n` paths. */
  ghost predicate BoundFirst(selected: seq<string>, n: nat, source: Files, naming: Naming, sha: string -> string, bound: Bindings) {
    && n <= |selected|
    && (forall j | 0 <= j < n :: naming.safe(selected[j]) && selected[j] in source && Bounded(source[selected[j]]))
    && bound == BindingsOf(Taken(selected[..n], source), sha)
  }

  lemma TakenMore(paths: seq<string>, p: string, source: Files, sha: string -> string)
    requires p in source
    ensures BindingsOf(Taken(paths + [p], source), sha) == BindingsOf(Taken(paths, source), sha)[p := BindingOf(source[p], sha)]
  {
    var more, before := BindingsOf(Taken(paths + [p], source), sha), BindingsOf(Taken(paths, source), sha);
    forall q ensures q in more <==> q in before || q == p { assert q in paths + [p] <==> q in paths || q == p; }
  }

  lemma BoundNext(selected: seq<string>, n: nat, source: Files, naming: Naming, sha: string -> string, bound: Bindings)
    requires n < |selected| && BoundFirst(selected, n, source, naming, sha, bound)
    requires naming.safe(selected[n]) && selected[n] in source && Bounded(source[selected[n]])
    ensures BoundFirst(selected, n + 1, source, naming, sha, bound[selected[n] := BindingOf(source[selected[n]], sha)])
  {
    TakeOneMore(selected, n);
    TakenMore(selected[..n], selected[n], source, sha);
  }

  /** Binding the generated copies like their templates binds the public files. */
  lemma GeneratedBound(files: Files, sha: string -> string)
    requires TEMPLATE in files && PUBLIC_README in files && PAGES !in files && README !in files
    ensures var bound := BindingsOf(files, sha);
      BindingsOf(WithGenerated(files), sha) == bound[PAGES := bound[TEMPLATE]][README := bound[PUBLIC_README]]
  {
  }

  lemma SameSize<K, V, W>(a: map<K, V>, b: map<K, W>)
    requires a.Keys == b.Keys
    ensures |a| == |b|
  {
    assert |a| == |a.Keys| && |b| == |b.Keys|;
  }

  /** The loop over the tracked files. */
  method BindSelected(selected: seq<string>, source: Files, naming: Naming, sha: string -> string)
      returns (ok: bool, bound: Bindings)
    ensures ok <==> forall i | 0 <= i < |selected| :: naming.safe(selected[i]) && selected[i] in source && Bounded(source[selected[i]])
    ensures ok ==> bound == BindingsOf(Taken(selected, source), sha)
  {
    bound := map[];
    for i := 0 to |selected|
      invariant BoundFirst(selected, i, source, naming, sha, bound)
    {
      var path := selected[i];
      if !naming.safe(path) || path !in source || !Bounded(source[path]) { return false, bound; }
      BoundNext(selected, i, source, naming, sha, bound);
      bound := bound[path := BindingOf(source[path], sha)];
    }
    TakeAll(selected);
    ok := true;
  }

  /** `_expected_public_source_files`: a binding per selected file, and per generated one. */
  method ExpectedFiles(selected: seq<string>, source: Files, naming: Naming, sha: string -> string)
      returns (r: Result<Bindings>)
    requires PAGES !in selected && README !in selected
    ensures r.Ok? <==> TreeAccepted(selected, source, naming)
    ensures r.Ok? ==> r.value == BindingsOf(SelectedFiles(selected, source), sha)
  {
    r := Rejected;
    var ok, bound := BindSelected(selected, source, naming, sha);
    if ok && TEMPLATE in bound && PUBLIC_README in bound {
      var files := Taken(selected, source);
      GeneratedBound(files, sha);
      var expected := bound[PAGES := bound[TEMPLATE]][README := bound[PUBLIC_README]];
      SameSize(expected, WithGenerated(files));
      if |expected| <= MAX_ENTRIES { r := Ok(expected); }
    }
  }

  // ---------------------------------------------------------------- reading the ZIP

  /** A member the validator passes over, or one with an archive path and a proper size. */
  predicate Plain(m: Member, naming: Naming) {
    m.name == "" || (naming.safe(m.name) && !naming.history(m.name) && (m.folder || Bounded(m.data)))
  }

  predicate Stored(m: Member) { m.name != "" && !m.folder }

  function Contents(members: seq<Member>): Files {
    if members == [] then map[]
    else
      var m := members[|members| - 1];
      var before := Contents(members[..|members| - 1]);
      if Stored(m) then before[m.name := m.data] else before
  }

  function Total(members: seq<Member>): nat {
    if members == [] then 0
    else Total(members[..|members| - 1]) + if Stored(members[|members| - 1]) then |members[|members| - 1].data| else 0
  }

  /** A ZIP whose members the validator reads: plain, apart, and within the limits. */
  ghost predicate Readable(members: seq<Member>, naming: Naming) {
    && |members| <= MAX_ENTRIES + 1
    && (forall i | 0 <= i < |members| :: Plain(members[i], naming))
    && (forall i, j | 0 <= i < j < |members| && members[i].name != "" && members[j].name != "" ::
          naming.fold(members[i].name) != naming.fold(members[j].name))
    && Total(members) <= MAX_TOTAL
  }

  lemma {:induction false} TotalGrows(members: seq<Member>, n: nat)
    requires n <= |members|
    ensures Total(members[..n]) <= Total(members)
    decreases |members| - n
  {
    if n == |members| {
      TakeAll(members);
    } else {
      TotalGrows(members, n + 1);
      assert members[..n + 1][..n] == members[..n];
    }
  }

  lemma ContentsMore(members: seq<Member>, n: nat)
    requires n < |members|
    ensures Total(members[..n + 1]) == Total(members[..n]) + if Stored(members[n]) then |members[n].data| else 0
    ensures Contents(members[..n + 1])
         == if Stored(members[n]) then Contents(members[..n])[members[n].name := members[n].data] else Contents(members[..n])
  {
    assert members[..n + 1][..n] == members[..n];
  }

  ghost predicate ReadSoFar(members: seq<Member>, n: nat, naming: Naming, seen: set<string>) {
    && n <= |members|
    && (forall i | 0 <= i < n :: Plain(members[i], naming))
    && seen == (set i | 0 <= i < n && members[i].name != "" :: naming.fold(members[i].name))
    && (forall i, j | 0 <= i < j < n && members[i].name != "" && members[j].name != "" ::
          naming.fold(members[i].name) != naming.fold(members[j].name))
  }

  lemma ReadOneMore(members: seq<Member>, n: nat, naming: Naming, seen: set<string>)
    requires n < |members| && ReadSoFar(members, n, naming, seen) && Plain(members[n], naming)
    requires members[n].name != "" ==> naming.fold(members[n].name) !in seen
    ensures ReadSoFar(members, n + 1, naming,
                      if members[n].name != "" then seen + {naming.fold(members[n].name)} else seen)
  {
  }

  lemma Colliding(members: seq<Member>, n: nat, naming: Naming, seen: set<string>)
    requires n < |members| && ReadSoFar(members, n, naming, seen)
    requires members[n].name != "" && naming.fold(members[n].name) in seen
    ensures !Readable(members, naming)
  {
    var i :| 0 <= i < n && members[i].name != "" && naming.fold(members[i].name) == naming.fold(members[n].name);
  }

  method ReadMembers(members: seq<Member>, naming: Naming) returns (r: Result<Files>)
    ensures r.Ok? <==> Readable(members, naming)
    ensures r.Ok? ==> r.value == Contents(members)
  {
    if |members| > MAX_ENTRIES + 1 { return Rejected; }
    var observed: Files, seen: set<string>, total := map[], {}, 0;
    for i := 0 to |members|
      invariant ReadSoFar(members, i, naming, seen)
      invariant observed == Contents(members[..i]) && total == Total(members[..i]) && total <= MAX_TOTAL
    {
      var m := members[i];
      ContentsMore(members, i);
      if !Plain(m, naming) { return Rejected; }
      if m.name != "" && naming.fold(m.name) in seen {
        Colliding(members, i, naming, seen);
        return Rejected;
      }
      ReadOneMore(members, i, naming, seen);
      if m.name != "" { seen := seen + {naming.fold(m.name)}; }
      if Stored(m) {
        total := total + |m.data|;
        if total > MAX_TOTAL {
          TotalGrows(members, i + 1);
          return Rejected;
        }
        observed := observed[m.name := m.data];
      }
    }
    TakeAll(members);
    return Ok(observed);
  }

  // ---------------------------------------------------------------- comparing with the manifest

  /** What an entry may look like, before it is compared with anything. */
  predicate Declarable(e: Entry, naming: Naming) {
    && WellShaped(e) && naming.safe(e.path) && e.size > 0
    && (e.path in GENERATED ==> e.source == Some(GENERATED[e.path]))
  }

  function Declared(entries: seq<Entry>): Bindings {
    if entries == [] then map[]
    else
      var e := entries[|entries| - 1];
      Declared(entries[..|entries| - 1])[e.path := (e.size, e.sha256)]
  }

  lemma PathsSplit(entries: seq<Entry>)
    requires entries != []
    ensures var n := |entries| - 1;
      (set p | p in Paths(entries)) == (set p | p in Paths(entries[..n])) + {entries[n].path}
  {
    var n, paths := |entries| - 1, Paths(entries);
    assert Paths(entries[..n]) == paths[..n];
    TakeOneMore(paths, n);
    TakeAll(paths);
  }

  lemma {:induction false} DeclaredKeys(entries: seq<Entry>)
    ensures Declared(entries).Keys == set p | p in Paths(entries)
  {
    if entries != [] {
      DeclaredKeys(entries[..|entries| - 1]);
      PathsSplit(entries);
    }
  }

  lemma DistinctBefore(entries: seq<Entry>, n: nat)
    requires n < |entries| && Distinct(Paths(entries))
    ensures Distinct(Paths(entries[..n])) && forall i | 0 <= i < n :: entries[i].path != entries[n].path
  {
    var paths, before := Paths(entries), Paths(entries[..n]);
    forall i, j | 0 <= i < j < n ensures Self(before[i]) != Self(before[j]) { assert Self(paths[i]) != Self(paths[j]); }
    forall i | 0 <= i < n ensures entries[i].path != entries[n].path { assert Self(paths[i]) != Self(paths[n]); }
  }

  lemma {:induction false} DeclaredAt(entries: seq<Entry>, i: nat)
    requires Distinct(Paths(entries)) && i < |entries|
    ensures entries[i].path in Declared(entries) && Declared(entries)[entries[i].path] == (entries[i].size, entries[i].sha256)
    decreases |entries|
  {
    var n := |entries| - 1;
    if i < n {
      DistinctBefore(entries, n);
      DeclaredAt(entries[..n], i);
    }
  }

  /** The files of the ZIP without the manifest. */
  function Apart(files: Files): Files { files - {MANIFEST} }

  ghost predicate UploadAccepts(m: Manifest, files: Files, expected: Bindings, naming: Naming, sha: string -> string) {
    && Binds(m, files, sha) && MANIFEST !in Paths(m.files)
    && (forall i | 0 <= i < |m.files| :: Declarable(m.files[i], naming))
    && BindingsOf(Apart(files), sha) == expected
  }

  ghost predicate DeclaredSoFar(entries: seq<Entry>, naming: Naming, declared: Bindings, ordered: seq<string>, digest: string) {
    && (forall i | 0 <= i < |entries| :: Declarable(entries[i], naming)) && Distinct(Paths(entries))
    && declared == Declared(entries) && declared.Keys == (set p | p in Paths(entries))
    && ordered == Paths(entries) && digest == Preimage(DeclaredRows(entries))
  }

  lemma DeclaredNext(entries: seq<Entry>, e: Entry)
    ensures Declared(entries + [e]) == Declared(entries)[e.path := (e.size, e.sha256)]
    ensures Preimage(DeclaredRows(entries + [e])) == Preimage(DeclaredRows(entries)) + RowText(Row(e.path, e.sha256))
  {
    assert (entries + [e])[..|entries|] == entries;
    assert DeclaredRows(entries + [e]) == DeclaredRows(entries) + [Row(e.path, e.sha256)];
    PreimageSnoc(DeclaredRows(entries), Row(e.path, e.sha256));
  }

  lemma DeclaredMore(entries: seq<Entry>, e: Entry, naming: Naming, declared: Bindings, ordered: seq<string>, digest: string)
    requires DeclaredSoFar(entries, naming, declared, ordered, digest)
    requires Declarable(e, naming) && e.path !in declared
    ensures DeclaredSoFar(entries + [e], naming, declared[e.path := (e.size, e.sha256)], ordered + [e.path],
                          digest + RowText(Row(e.path, e.sha256)))
  {
    assert e.path !in Paths(entries);
    PathsMore(entries, e);
    assert forall p :: p in ordered + [e.path] <==> p in ordered || p == e.path;
    DeclaredNext(entries, e);
  }

  lemma AcceptedNeeds(m: Manifest, n: nat, files: Files, expected: Bindings, naming: Naming, sha: string -> string)
    requires n < |m.files| && UploadAccepts(m, files, expected, naming, sha)
    ensures Declarable(m.files[n], naming) && m.files[n].path !in Paths(m.files[..n])
  {
    forall k | 0 <= k < n ensures Paths(m.files[..n])[k] != m.files[n].path {
      assert Self(Paths(m.files)[k]) != Self(Paths(m.files)[n]);
    }
  }

  /** The loop over the entries. */
  method DeclareEntries(m: Manifest, files: Files, expected: Bindings, naming: Naming, sha: string -> string)
      returns (ok: bool, declared: Bindings, ordered: seq<string>, digest: string)
    ensures ok ==> DeclaredSoFar(m.files, naming, declared, ordered, digest)
    ensures !ok ==> !UploadAccepts(m, files, expected, naming, sha)
  {
    declared, ordered, digest := map[], [], [];
    for i := 0 to |m.files|
      invariant DeclaredSoFar(m.files[..i], naming, declared, ordered, digest)
    {
      var e := m.files[i];
      TakeOneMore(m.files, i);
      if e.path in declared || !Declarable(e, naming) {
        if UploadAccepts(m, files, expected, naming, sha) { AcceptedNeeds(m, i, files, expected, naming, sha); }
        return false, declared, ordered, digest;
      }
      DeclaredMore(m.files[..i], e, naming, declared, ordered, digest);
      declared, ordered := declared[e.path := (e.size, e.sha256)], ordered + [e.path];
      digest := digest + RowText(Row(e.path, e.sha256));
    }
    TakeAll(m.files);
    ok := true;
  }

  /** Declarations that equal the observed bindings say what the files are. */
  lemma DeclarationsMatch(m: Manifest, files: Files, sha: string -> string)
    requires Distinct(Paths(m.files)) && Declared(m.files) == BindingsOf(Apart(files), sha) && MANIFEST in files
    ensures AllMatch(m.files, files, sha) && MANIFEST !in Paths(m.files) && files.Keys == Listed(m)
    ensures Present(Paths(m.files), files) && DeclaredRows(m.files) == Observed(Paths(m.files), files, sha)
  {
    DeclaredKeys(m.files);
    var bindings := BindingsOf(Apart(files), sha);
    forall i | 0 <= i < |m.files| ensures Matches(m.files[i], files, sha) {
      DeclaredAt(m.files, i);
      assert m.files[i].path in bindings && bindings[m.files[i].path] == (m.files[i].size, m.files[i].sha256);
    }
    assert bindings.Keys == files.Keys - {MANIFEST};
    DeclaredIsObserved(m.files, files, sha);
  }

  lemma MatchesDeclare(m: Manifest, files: Files, sha: string -> string)
    requires Binds(m, files, sha) && MANIFEST !in Paths(m.files)
    ensures Declared(m.files) == BindingsOf(Apart(files), sha)
  {
    DeclaredKeys(m.files);
    var declared, bindings := Declared(m.files), BindingsOf(Apart(files), sha);
    assert bindings.Keys == files.Keys - {MANIFEST} == declared.Keys;
    forall p | p in declared ensures declared[p] == bindings[p] {
      var i :| 0 <= i < |m.files| && Paths(m.files)[i] == p;
      DeclaredAt(m.files, i);
      assert Matches(m.files[i], files, sha);
    }
  }

  lemma UploadConcludes(m: Manifest, files: Files, expected: Bindings, naming: Naming, sha: string -> string,
                        declared: Bindings, ordered: seq<string>, digest: string)
    requires DeclaredSoFar(m.files, naming, declared, ordered, digest) && m.fileCount == |m.files| && MANIFEST in files
    ensures UploadAccepts(m, files, expected, naming, sha) <==>
              && Sorted(ordered, Self) == ordered && declared == BindingsOf(Apart(files), sha)
              && declared == expected && m.snapshotSha256 == sha(digest)
  {
    SortedIffAscending(ordered);
    if declared == BindingsOf(Apart(files), sha) {
      DeclarationsMatch(m, files, sha);
    } else if UploadAccepts(m, files, expected, naming, sha) {
      MatchesDeclare(m, files, sha);
    }
  }

  method CompareWithManifest(m: Manifest, files: Files, expected: Bindings, naming: Naming, sha: string -> string)
      returns (ok: bool)
    requires MANIFEST in files
    ensures ok <==> UploadAccepts(m, files, expected, naming, sha)
  {
    if m.fileCount != |m.files| { return false; }
    var declared, ordered, digest;
    ok, declared, ordered, digest := DeclareEntries(m, files, expected, naming, sha);
    if !ok { return; }
    UploadConcludes(m, files, expected, naming, sha, declared, ordered, digest);
    ok := Sorted(ordered, Self) == ordered && declared == BindingsOf(Apart(files), sha)
      && declared == expected && m.snapshotSha256 == sha(digest);
  }

  /** What `_validate_public_source_zip` accepts. */
  ghost predicate ZipAccepted(members: seq<Member>, source: Identity, expected: Bindings, naming: Naming,
                              sha: string -> string, codec: Codec) {
    && Readable(members, naming) && MANIFEST in Contents(members) && codec.read(Contents(members)[MANIFEST]).Some?
    && codec.read(Contents(members)[MANIFEST]).value.boundary == BoundaryOf(source)
    && UploadAccepts(codec.read(Contents(members)[MANIFEST]).value, Contents(members), expected, naming, sha)
  }

  /** `_validate_public_source_zip`, for the commit and tree that are being uploaded. */
  method ValidatePublicSourceZip(members: seq<Member>, source: Identity, expected: Bindings, naming: Naming,
                                 sha: string -> string, codec: Codec)
      returns (ok: bool)
    ensures ok <==> ZipAccepted(members, source, expected, naming, sha, codec)
  {
    ok := false;
    var read := ReadMembers(members, naming);
    if read.Ok? && MANIFEST in read.value && codec.read(read.value[MANIFEST]).Some? {
      var files, m := read.value, codec.read(read.value[MANIFEST]).value;
      if m.boundary == BoundaryOf(source) { ok := CompareWithManifest(m, files, expected, naming, sha); }
    }
  }

  // ---------------------------------------------------------------- what acceptance is worth

  /** Bindings tell files apart. */
  lemma BindingsTell(a: Files, b: Files, sha: string -> string)
    requires Hashes(sha) && BindingsOf(a, sha) == BindingsOf(b, sha)
    ensures a == b
  {
    var x, y := BindingsOf(a, sha), BindingsOf(b, sha);
    assert a.Keys == x.Keys == y.Keys == b.Keys;
    forall p | p in a ensures a[p] == b[p] {
      assert x[p] == BindingOf(a[p], sha) && y[p] == BindingOf(b[p], sha);
    }
  }

  /** An accepted ZIP holds, byte for byte, the public files of the source tree. */
  lemma AcceptedZipIsTheSource(m: Manifest, files: Files, selected: seq<string>, source: Files, naming: Naming, sha: string -> string)
    requires Hashes(sha) && Present(selected, source) && TEMPLATE in selected && PUBLIC_README in selected
    requires UploadAccepts(m, files, BindingsOf(SelectedFiles(selected, source), sha), naming, sha)
    ensures Apart(files) == SelectedFiles(selected, source)
  {
    BindingsTell(Apart(files), SelectedFiles(selected, source), sha);
  }

  /** What the public files of a source tree are. */
  ghost predicate Published(selected: seq<string>, source: Files, made: Files) {
    && made.Keys == (set p | p in selected) + {PAGES, README}
    && Present(selected, source) && Present(selected, made) && TEMPLATE in source && PUBLIC_README in source
    && (forall i | 0 <= i < |selected| :: made[selected[i]] == source[selected[i]])
    && made[PAGES] == source[TEMPLATE] && made[README] == source[PUBLIC_README]
  }

  lemma PublishedIsUnique(selected: seq<string>, source: Files, a: Files, b: Files)
    requires Published(selected, source, a) && Published(selected, source, b)
    ensures a == b
  {
    forall p | p in a.Keys ensures a[p] == b[p] {
      if p in selected {
        var i :| 0 <= i < |selected| && selected[i] == p;
        assert a[selected[i]] == b[selected[i]];
      }
    }
  }

  lemma SelectedFilesArePublished(selected: seq<string>, source: Files)
    requires Exportable(selected) && Present(selected, source)
    ensures Published(selected, source, SelectedFiles(selected, source))
  {
    var i :| 0 <= i < |selected| && selected[i] == TEMPLATE;
    var j :| 0 <= j < |selected| && selected[j] == PUBLIC_README;
    assert selected[i] in source && selected[j] in source;
    forall k | 0 <= k < |selected| ensures selected[k] in selected { }
  }

  lemma AssembledIsPublished(selected: seq<string>, source: Files, files: Files, m: Manifest, sha: string -> string, codec: Codec)
    requires Exportable(selected) && Assembled(selected, source, files, m, sha, codec)
    ensures Published(selected, source, Apart(files))
  {
    forall k | 0 <= k < |selected| ensures selected[k] in selected { }
  }

  lemma ListedIsSafe(m: Manifest, naming: Naming, p: string)
    requires SlashesOnly(naming) && p in Listed(m) && p != MANIFEST
    requires forall i | 0 <= i < |m.files| :: naming.safe(m.files[i].path)
    ensures '\\' !in p
  {
    assert p in Paths(m.files);
    var i :| 0 <= i < |m.files| && Paths(m.files)[i] == p;
    assert naming.safe(m.files[i].path);
  }

  lemma SlashlessListed(m: Manifest, files: Files, naming: Naming)
    requires SlashesOnly(naming) && files.Keys == Listed(m)
    requires forall i | 0 <= i < |m.files| :: naming.safe(m.files[i].path)
    ensures Slashless(files)
  {
    FixedNamesSlashless();
    forall p | p in files && p != MANIFEST ensures '\\' !in p { ListedIsSafe(m, naming, p); }
  }

  lemma SourcedUpload(m: Manifest, files: Files, expected: Bindings, naming: Naming, sha: string -> string)
    requires UploadAccepts(m, files, expected, naming, sha)
    requires forall p | p in GENERATED :: p in files && GENERATED[p] in files && files[GENERATED[p]] == files[p]
    ensures Sourced(m.files, files)
  {
    forall i | 0 <= i < |m.files| ensures WellShaped(m.files[i]) && FaithfulCopy(m.files[i], files) {
      assert Declarable(m.files[i], naming);
    }
  }

  lemma GeneratedCopies(files: Files, selected: seq<string>, source: Files)
    requires Exportable(selected) && Published(selected, source, Apart(files))
    ensures forall p | p in GENERATED :: p in files && GENERATED[p] in files && files[GENERATED[p]] == files[p]
  {
    var apart := Apart(files);
    var i :| 0 <= i < |selected| && selected[i] == TEMPLATE;
    var j :| 0 <= j < |selected| && selected[j] == PUBLIC_README;
    assert apart[selected[i]] == source[selected[i]] && apart[selected[j]] == source[selected[j]];
    assert apart.Keys <= files.Keys;
  }

  /** And the checker finds no violation in it, if the source is named by object identifiers. */
  lemma AcceptedZipIsClean(m: Manifest, files: Files, paths: seq<string>, selected: seq<string>, source: Files, naming: Naming,
                           sha: string -> string, codec: Codec)
    requires Hashes(sha) && SlashesOnly(naming) && Enumerates(paths, files)
    requires Exportable(selected) && Present(selected, source)
    requires MANIFEST in files && codec.read(files[MANIFEST]) == Some(m)
    requires Public(m.boundary) && Identified(m.boundary.source)
    requires UploadAccepts(m, files, BindingsOf(SelectedFiles(selected, source), sha), naming, sha)
    ensures Clean(paths, files, sha, codec)
  {
    var expected := BindingsOf(SelectedFiles(selected, source), sha);
    AcceptedZipIsTheSource(m, files, selected, source, naming, sha);
    SelectedFilesArePublished(selected, source);
    GeneratedCopies(files, selected, source);
    SlashlessListed(m, files, naming);
    SourcedUpload(m, files, expected, naming, sha);
    CleanIffSlashless(paths, files, sha, codec, m);
  }

  lemma ExportIsTheSource(selected: seq<string>, source: Files, files: Files, m: Manifest, sha: string -> string, codec: Codec)
    requires Exportable(selected) && Assembled(selected, source, files, m, sha, codec)
    ensures Apart(files) == SelectedFiles(selected, source)
  {
    AssembledIsPublished(selected, source, files, m, sha, codec);
    SelectedFilesArePublished(selected, source);
    PublishedIsUnique(selected, source, Apart(files), SelectedFiles(selected, source));
  }

  lemma ExportDeclares(m: Manifest, files: Files, naming: Naming, sha: string -> string)
    requires AllMatch(m.files, files, sha) && Sourced(m.files, files)
    ensures (forall i | 0 <= i < |m.files| :: Declarable(m.files[i], naming)) <==>
      forall i | 0 <= i < |m.files| :: naming.safe(m.files[i].path) && m.files[i].size > 0
  {
    forall i | 0 <= i < |m.files| ensures WellShaped(m.files[i]) && FaithfulCopy(m.files[i], files) { }
  }

  // ---------------------------------------------------------------- the upload of an export

  /** Every file comes from a member that was read. */
  lemma {:induction false} FileHasMember(members: seq<Member>, p: string) returns (i: nat)
    requires p in Contents(members)
    ensures i < |members| && Stored(members[i]) && members[i].name == p && members[i].data == Contents(members)[p]
  {
    var n := |members| - 1;
    if Stored(members[n]) && members[n].name == p {
      i := n;
    } else {
      i := FileHasMember(members[..n], p);
    }
  }

  lemma OneKeyMore<K, V>(a: map<K, V>, k: K, v: V)
    ensures |a[k := v]| <= |a| + 1
  {
    assert a[k := v].Keys == a.Keys + {k};
    assert |a| == |a.Keys| && |a[k := v]| == |a[k := v].Keys|;
  }

  lemma {:induction false} NoMoreFilesThanMembers(members: seq<Member>)
    ensures |Contents(members)| <= |members|
  {
    if members != [] {
      var m, before := members[|members| - 1], Contents(members[..|members| - 1]);
      NoMoreFilesThanMembers(members[..|members| - 1]);
      OneKeyMore(before, m.name, m.data);
    }
  }

  lemma ReadFilesPlain(members: seq<Member>, naming: Naming)
    requires Readable(members, naming)
    ensures forall p | p in Contents(members) :: naming.safe(p) && Bounded(Contents(members)[p])
    ensures MANIFEST in Contents(members) ==> |Apart(Contents(members))| <= MAX_ENTRIES
  {
    var files := Contents(members);
    forall p | p in files ensures naming.safe(p) && Bounded(files[p]) {
      var i := FileHasMember(members, p);
      assert Plain(members[i], naming);
    }
    NoMoreFilesThanMembers(members);
    if MANIFEST in files {
      assert Apart(files).Keys == files.Keys - {MANIFEST};
      assert |files| == |files.Keys| && |Apart(files)| == |Apart(files).Keys|;
    }
  }

  /** The source tree of an export can be bound when the exported files can be read. */
  lemma ExportedTreeAccepted(selected: seq<string>, source: Files, files: Files, m: Manifest, naming: Naming,
                             sha: string -> string, codec: Codec)
    requires Exportable(selected) && Assembled(selected, source, files, m, sha, codec)
    requires forall p | p in files :: naming.safe(p) && Bounded(files[p])
    requires |Apart(files)| <= MAX_ENTRIES
    ensures TreeAccepted(selected, source, naming)
  {
    ExportIsTheSource(selected, source, files, m, sha, codec);
    forall i | 0 <= i < |selected| ensures naming.safe(selected[i]) && Bounded(source[selected[i]]) {
      assert selected[i] in files && files[selected[i]] == source[selected[i]];
    }
  }

  lemma ExportedFilesAccepted(selected: seq<string>, source: Files, files: Files, m: Manifest, naming: Naming,
                              sha: string -> string, codec: Codec)
    requires Exportable(selected) && Assembled(selected, source, files, m, sha, codec)
    requires forall p | p in files :: naming.safe(p) && Bounded(files[p])
    ensures UploadAccepts(m, files, BindingsOf(SelectedFiles(selected, source), sha), naming, sha)
  {
    ExportIsTheSource(selected, source, files, m, sha, codec);
    ExportDeclares(m, files, naming, sha);
    forall i | 0 <= i < |m.files| ensures naming.safe(m.files[i].path) && m.files[i].size > 0 {
      assert Matches(m.files[i], files, sha);
    }
  }

  lemma ManifestReadsBack(selected: seq<string>, source: Files, files: Files, m: Manifest, sha: string -> string, codec: Codec)
    requires Faithful(codec) && Assembled(selected, source, files, m, sha, codec)
    ensures MANIFEST in files && codec.read(files[MANIFEST]) == Some(m) && m.boundary == BoundaryOf(m.boundary.source)
  {
  }

  /** End to end: an export passes both the binding of its source tree and the validation of
      its ZIP exactly when it was made from the uploaded source and the ZIP is one that the
      validator can read.  Nothing else is asked. */
  lemma UploadTakesExport(selected: seq<string>, source: Files, files: Files, m: Manifest, members: seq<Member>,
                          uploaded: Identity, naming: Naming, sha: string -> string, codec: Codec)
    requires Faithful(codec) && Exportable(selected) && Assembled(selected, source, files, m, sha, codec)
    requires Contents(members) == files
    ensures TreeAccepted(selected, source, naming)
            && ZipAccepted(members, uploaded, BindingsOf(SelectedFiles(selected, source), sha), naming, sha, codec)
            <==> m.boundary.source == uploaded && Readable(members, naming)
  {
    ManifestReadsBack(selected, source, files, m, sha, codec);
    if Readable(members, naming) {
      ReadFilesPlain(members, naming);
      ExportedTreeAccepted(selected, source, files, m, naming, sha, codec);
      ExportedFilesAccepted(selected, source, files, m, naming, sha, codec);
    }
  }

  /** One file member per file, as the exporter's directory is zipped. */
  ghost predicate OneEach(members: seq<Member>) {
    && (forall i | 0 <= i < |members| :: Stored(members[i]))
    && forall i, j | 0 <= i < j < |members| :: members[i].name != members[j].name
  }

  /** The limits, in terms of the files themselves. */
  ghost predicate WithinLimits(files: Files, naming: Naming) {
    && |files| <= MAX_ENTRIES + 1
    && (forall p | p in files :: naming.safe(p) && !naming.history(p) && Bounded(files[p]))
    && forall p, q | p in files && q in files && naming.fold(p) == naming.fold(q) :: p == q
  }

  lemma NewKeyCounts<K, V>(a: map<K, V>, k: K, v: V)
    requires k !in a
    ensures |a[k := v]| == |a| + 1
  {
    assert a[k := v].Keys == a.Keys + {k};
    assert |a| == |a.Keys| && |a[k := v]| == |a[k := v].Keys|;
  }

  lemma LastIsNew(members: seq<Member>, n: nat)
    requires OneEach(members) && n < |members|
    ensures members[n].name !in Contents(members[..n])
  {
    if members[n].name in Contents(members[..n]) {
      var i := FileHasMember(members[..n], members[n].name);
      assert false;
    }
  }

  lemma {:induction false} OneEachCount(members: seq<Member>)
    requires OneEach(members)
    ensures |Contents(members)| == |members|
  {
    if members != [] {
      var n := |members| - 1;
      OneEachCount(members[..n]);
      LastIsNew(members, n);
      NewKeyCounts(Contents(members[..n]), members[n].name, members[n].data);
    }
  }

  lemma {:induction false} OneEachContents(members: seq<Member>, i: nat)
    requires OneEach(members) && i < |members|
    ensures members[i].name in Contents(members) && Contents(members)[members[i].name] == members[i].data
    decreases |members|
  {
    var n := |members| - 1;
    if i < n {
      assert members[..n][i] == members[i];
      OneEachContents(members[..n], i);
    }
  }

  lemma ReadableWithinLimits(members: seq<Member>, naming: Naming)
    requires OneEach(members) && Readable(members, naming)
    ensures WithinLimits(Contents(members), naming)
  {
    var files := Contents(members);
    OneEachCount(members);
    forall p | p in files ensures naming.safe(p) && !naming.history(p) && Bounded(files[p]) {
      var i := FileHasMember(members, p);
      assert Plain(members[i], naming);
    }
    forall p, q | p in files && q in files && naming.fold(p) == naming.fold(q) ensures p == q {
      var i := FileHasMember(members, p);
      var j := FileHasMember(members, q);
      assert Stored(members[i]) && Stored(members[j]);
    }
  }

  lemma WithinLimitsReadable(members: seq<Member>, naming: Naming)
    requires OneEach(members) && WithinLimits(Contents(members), naming) && Total(members) <= MAX_TOTAL
    ensures Readable(members, naming)
  {
    var files := Contents(members);
    OneEachCount(members);
    forall i | 0 <= i < |members| ensures Plain(members[i], naming) { OneEachContents(members, i); }
    forall i, j | 0 <= i < j < |members| ensures naming.fold(members[i].name) != naming.fold(members[j].name) {
      OneEachContents(members, i);
      OneEachContents(members, j);
    }
  }

  /** Such a ZIP is readable exactly when the files are within the limits and their sizes add
      up to no more than the total. */
  lemma ReadableIffWithinLimits(members: seq<Member>, naming: Naming)
    requires OneEach(members)
    ensures Readable(members, naming) <==> WithinLimits(Contents(members), naming) && Total(members) <= MAX_TOTAL
  {
    if Readable(members, naming) {
      ReadableWithinLimits(members, naming);
    } else if WithinLimits(Contents(members), naming) && Total(members) <= MAX_TOTAL {
      WithinLimitsReadable(members, naming);
    }
  }
}
