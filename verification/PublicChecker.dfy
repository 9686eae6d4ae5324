/** The checker's view of a public snapshot: the list of manifest violations, and what it
    means that there are none. */
module PublicChecker {
  import opened Text
  import opened Sorting
  import opened PublicManifest

  datatype Violation = Violation(rule: string, path: string)

  /** The checker normalises the paths it is given. */
  function Tracked(paths: seq<string>): set<string> { set p | p in paths :: Slashed(p) }

  /** Exactly the generated entries name a source. */
  predicate WellShaped(e: Entry) { e.source.Some? <==> e.path in GENERATED }

  predicate FaithfulCopy(e: Entry, files: Files) {
    e.path in GENERATED ==>
      && e.source == Some(GENERATED[e.path])
      && GENERATED[e.path] in files && e.path in files && files[GENERATED[e.path]] == files[e.path]
  }

  predicate Good(e: Entry, tracked: set<string>, files: Files, sha: string -> string) {
    WellShaped(e) && FaithfulCopy(e, files) && e.path in tracked && Matches(e, files, sha)
  }

  predicate AllGood(entries: seq<Entry>, tracked: set<string>, files: Files, sha: string -> string) {
    forall i | 0 <= i < |entries| :: Good(entries[i], tracked, files, sha)
  }

  predicate Sourced(entries: seq<Entry>, files: Files) {
    forall i | 0 <= i < |entries| :: WellShaped(entries[i]) && FaithfulCopy(entries[i], files)
  }

  /** The snapshot mirrors its manifest. */
  ghost predicate Mirrors(paths: seq<string>, files: Files, sha: string -> string, m: Manifest) {
    Core(m, files, sha) && Sourced(m.files, files) && Tracked(paths) == Listed(m)
  }

  /** The declared boundary is the public one, and the source is named by object identifiers. */
  predicate Sealed(b: Boundary) { Public(b) && Identified(b.source) }

  ghost predicate Clean(paths: seq<string>, files: Files, sha: string -> string, codec: Codec) {
    && MANIFEST in Tracked(paths) && MANIFEST in files
    && codec.read(files[MANIFEST]).Some? && Sealed(codec.read(files[MANIFEST]).value.boundary)
    && Mirrors(paths, files, sha, codec.read(files[MANIFEST]).value)
  }

  /** The checks on one entry whose shape is right and whose path is new. */
  method EntryViolations(e: Entry, tracked: set<string>, files: Files, sha: string -> string)
      returns (found: seq<Violation>, fed: string)
    requires WellShaped(e)
    ensures found == [] <==> Good(e, tracked, files, sha)
    ensures found == [] ==> fed == RowText(Row(e.path, sha(files[e.path])))
  {
    found, fed := [], [];
    if e.path in GENERATED && e.source != Some(GENERATED[e.path]) {
      found := found + [Violation("public-generated-source-drift", e.path)];
    }
    if e.path !in tracked || e.path !in files {
      found := found + [Violation("public-mirror-file-missing", e.path)];
      return;
    }
    var data := files[e.path];
    if e.path in GENERATED && (GENERATED[e.path] !in files || files[GENERATED[e.path]] != data) {
      found := found + [Violation("public-generated-copy-drift", e.path)];
    }
    if e.size != |data| { found := found + [Violation("public-mirror-size-drift", e.path)]; }
    if e.sha256 != sha(data) { found := found + [Violation("public-mirror-sha-drift", e.path)]; }
    fed := e.path + [NUL] + sha(data) + [NUL];
  }

  /** What the loop over the entries knows while it has found nothing wrong. */
  ghost predicate Spotless(entries: seq<Entry>, tracked: set<string>, files: Files, sha: string -> string,
                           observed: set<string>, ordered: seq<string>, digest: string) {
    && AllGood(entries, tracked, files, sha) && Distinct(Paths(entries))
    && ordered == Paths(entries) && observed == (set p | p in Paths(entries))
    && Present(ordered, files)
    && digest == Preimage(Observed(ordered, files, sha))
  }

  lemma PathsMore(entries: seq<Entry>, e: Entry)
    requires Distinct(Paths(entries)) && e.path !in Paths(entries)
    ensures Paths(entries + [e]) == Paths(entries) + [e.path] && Distinct(Paths(entries) + [e.path])
  {
    var paths, more := Paths(entries), Paths(entries) + [e.path];
    forall i, j | 0 <= i < j < |more| ensures Self(more[i]) != Self(more[j]) {
      assert more[i] == paths[i];
      if j < |paths| { assert more[j] == paths[j]; }
    }
  }

  lemma ObservedMore(ordered: seq<string>, path: string, files: Files, sha: string -> string)
    requires Present(ordered, files) && path in files
    ensures Present(ordered + [path], files)
    ensures Preimage(Observed(ordered + [path], files, sha))
         == Preimage(Observed(ordered, files, sha)) + RowText(Row(path, sha(files[path])))
  {
    assert Observed(ordered + [path], files, sha) == Observed(ordered, files, sha) + [Row(path, sha(files[path]))];
    PreimageSnoc(Observed(ordered, files, sha), Row(path, sha(files[path])));
  }

  lemma SpotlessMore(entries: seq<Entry>, e: Entry, tracked: set<string>, files: Files, sha: string -> string,
                     observed: set<string>, ordered: seq<string>, digest: string)
    requires Spotless(entries, tracked, files, sha, observed, ordered, digest)
    requires Good(e, tracked, files, sha) && e.path !in observed
    ensures Spotless(entries + [e], tracked, files, sha, observed + {e.path}, ordered + [e.path],
                     digest + RowText(Row(e.path, sha(files[e.path]))))
  {
    PathsMore(entries, e);
    assert forall p :: p in ordered + [e.path] <==> p in ordered || p == e.path;
    assert observed + {e.path} == set p | p in ordered + [e.path];
    ObservedMore(ordered, e.path, files, sha);
  }

  lemma MirrorsIsGood(m: Manifest, n: nat, paths: seq<string>, files: Files, sha: string -> string)
    requires n < |m.files| && Mirrors(paths, files, sha, m)
    ensures Good(m.files[n], Tracked(paths), files, sha) && m.files[n].path !in Paths(m.files[..n])
  {
    assert Paths(m.files)[n] == m.files[n].path && Matches(m.files[n], files, sha);
    assert m.files[n].path in Listed(m);
    forall k | 0 <= k < n ensures Paths(m.files[..n])[k] != m.files[n].path {
      assert Self(Paths(m.files)[k]) != Self(Paths(m.files)[n]);
    }
  }

  /** An entry that repeats a path, or is not good, cannot be mended by the others. */
  lemma Spoiled(m: Manifest, n: nat, paths: seq<string>, files: Files, sha: string -> string)
    requires n < |m.files|
    requires !Good(m.files[n], Tracked(paths), files, sha) || m.files[n].path in Paths(m.files[..n])
    ensures !Mirrors(paths, files, sha, m)
  {
    if Mirrors(paths, files, sha, m) { MirrorsIsGood(m, n, paths, files, sha); }
  }

  /** One entry: what it violates, and what it adds to the running values. */
  method JudgeEntry(m: Manifest, n: nat, ghost paths: seq<string>, tracked: set<string>, files: Files, sha: string -> string,
                    observed: set<string>, ordered: seq<string>, digest: string)
      returns (found: seq<Violation>, observed': set<string>, ordered': seq<string>, digest': string)
    requires n < |m.files| && tracked == Tracked(paths)
    ensures found == [] && Spotless(m.files[..n], tracked, files, sha, observed, ordered, digest) ==>
      Spotless(m.files[..n + 1], tracked, files, sha, observed', ordered', digest')
    ensures found != [] && Spotless(m.files[..n], tracked, files, sha, observed, ordered, digest) ==>
      !Mirrors(paths, files, sha, m)
  {
    var e := m.files[n];
    ghost var spotless := Spotless(m.files[..n], tracked, files, sha, observed, ordered, digest);
    observed', ordered', digest' := observed, ordered, digest;
    TakeOneMore(m.files, n);
    if !WellShaped(e) {
      Spoiled(m, n, paths, files, sha);
      found := [Violation("public-mirror-entry-field-drift", MANIFEST)];
    } else if e.path in observed {
      if spotless { Spoiled(m, n, paths, files, sha); }
      found := [Violation("public-mirror-path-duplicate", e.path)];
    } else {
      var fed;
      found, fed := EntryViolations(e, tracked, files, sha);
      if found != [] {
        Spoiled(m, n, paths, files, sha);
      } else if spotless {
        SpotlessMore(m.files[..n], e, tracked, files, sha, observed, ordered, digest);
      }
      observed', ordered', digest' := observed + {e.path}, ordered + [e.path], digest + fed;
    }
  }

  /** The loop over the entries. */
  method EntriesViolations(m: Manifest, paths: seq<string>, files: Files, sha: string -> string)
      returns (violations: seq<Violation>, observed: set<string>, ordered: seq<string>, digest: string)
    ensures violations == [] ==> Spotless(m.files, Tracked(paths), files, sha, observed, ordered, digest)
    ensures violations != [] ==> !Mirrors(paths, files, sha, m)
  {
    violations, observed, ordered, digest := [], {}, [], [];
    var tracked := Tracked(paths);
    for i := 0 to |m.files|
      invariant violations == [] ==> Spotless(m.files[..i], tracked, files, sha, observed, ordered, digest)
      invariant violations != [] ==> !Mirrors(paths, files, sha, m)
    {
      var found;
      found, observed, ordered, digest := JudgeEntry(m, i, paths, tracked, files, sha, observed, ordered, digest);
      violations := violations + found;
    }
    TakeAll(m.files);
  }

  lemma GoodParts(entries: seq<Entry>, tracked: set<string>, files: Files, sha: string -> string)
    requires AllGood(entries, tracked, files, sha)
    ensures AllMatch(entries, files, sha) && Sourced(entries, files)
  {
    forall i | 0 <= i < |entries|
      ensures Matches(entries[i], files, sha) && WellShaped(entries[i]) && FaithfulCopy(entries[i], files)
    {
      assert Good(entries[i], tracked, files, sha);
    }
  }

  /** What remains to be compared once every entry was found good. */
  lemma SpotlessMirrors(m: Manifest, paths: seq<string>, files: Files, sha: string -> string,
                        observed: set<string>, ordered: seq<string>, digest: string)
    requires Spotless(m.files, Tracked(paths), files, sha, observed, ordered, digest) && m.fileCount == |m.files|
    ensures Mirrors(paths, files, sha, m) <==>
              observed + {MANIFEST} == Tracked(paths) && Sorted(ordered, Self) == ordered && m.snapshotSha256 == sha(digest)
  {
    SortedIffAscending(ordered);
    GoodParts(m.files, Tracked(paths), files, sha);
  }

  /** The checks on the declared boundary. */
  method BoundaryViolations(b: Boundary) returns (violations: seq<Violation>)
    ensures violations == [] <==> Sealed(b)
  {
    violations := [];
    if !Public(b) { violations := violations + [Violation("public-mirror-boundary-drift", MANIFEST)]; }
    if !ObjectId(b.source.commit) {
      violations := violations + [Violation("public-mirror-source-oid-drift", "source_commit_oid")];
    }
    if !ObjectId(b.source.tree) {
      violations := violations + [Violation("public-mirror-source-oid-drift", "source_tree_oid")];
    }
  }

  /** `_mirror_manifest_violations`. */
  method MirrorViolations(paths: seq<string>, files: Files, sha: string -> string, codec: Codec)
      returns (violations: seq<Violation>)
    ensures violations == [] <==> Clean(paths, files, sha, codec)
  {
    var tracked := Tracked(paths);
    if MANIFEST !in tracked { return [Violation("public-mirror-manifest-missing", MANIFEST)]; }
    if MANIFEST !in files || codec.read(files[MANIFEST]).None? {
      return [Violation("public-mirror-manifest-invalid", MANIFEST)];
    }
    var m := codec.read(files[MANIFEST]).value;
    var boundary := BoundaryViolations(m.boundary);
    if m.fileCount != |m.files| { return boundary + [Violation("public-mirror-file-count-drift", MANIFEST)]; }
    var observed, ordered, digest;
    violations, observed, ordered, digest := EntriesViolations(m, paths, files, sha);
    if violations == [] { SpotlessMirrors(m, paths, files, sha, observed, ordered, digest); }
    if observed + {MANIFEST} != tracked {
      violations := violations + [Violation("public-mirror-file-untracked-or-unmanifested", MANIFEST)];
    }
    if Sorted(ordered, Self) != ordered {
      violations := violations + [Violation("public-mirror-entry-order-drift", MANIFEST)];
    }
    if m.snapshotSha256 != sha(digest) {
      violations := violations + [Violation("public-mirror-snapshot-sha-drift", MANIFEST)];
    }
    violations := boundary + violations;
  }

  ghost predicate Enumerates(paths: seq<string>, files: Files) { forall p :: p in paths <==> p in files }

  predicate Slashless(files: Files) { forall p | p in files :: '\\' !in p }

  lemma TrackedExactly(paths: seq<string>, files: Files)
    requires Enumerates(paths, files)
    ensures Tracked(paths) == files.Keys <==> Slashless(files)
  {
    if Slashless(files) {
      forall p ensures p in Tracked(paths) <==> p in files {
        if p in files { assert p in paths && Slashed(p) == p; }
      }
    } else {
      var p :| p in files && '\\' in p;
      assert p !in Tracked(paths) && p in files.Keys;
    }
  }

  /** A snapshot bound by its manifest, generated copies included, has no violation exactly
      when its boundary is sealed and none of its paths holds a backslash. */
  lemma CleanIffSlashless(paths: seq<string>, files: Files, sha: string -> string, codec: Codec, m: Manifest)
    requires MANIFEST in files && codec.read(files[MANIFEST]) == Some(m)
    requires Binds(m, files, sha) && Sourced(m.files, files) && Enumerates(paths, files)
    ensures Clean(paths, files, sha, codec) <==> Sealed(m.boundary) && Slashless(files)
  {
    TrackedExactly(paths, files);
    assert MANIFEST in Listed(m);
  }

  /** No violation means that the manifest binds every byte of every file, unless some file
      name holds a backslash. */
  lemma CleanBinds(paths: seq<string>, files: Files, sha: string -> string, codec: Codec)
    requires Clean(paths, files, sha, codec) && Enumerates(paths, files)
    ensures Binds(codec.read(files[MANIFEST]).value, files, sha) <==> Slashless(files)
  {
    TrackedExactly(paths, files);
  }

  lemma TrackedShadow(paths: seq<string>, extra: string)
    requires '\\' in extra && Slashed(extra) in Tracked(paths)
    ensures Tracked(paths + [extra]) == Tracked(paths) && extra !in Tracked(paths)
  {
    assert forall p :: p in paths + [extra] <==> p in paths || p == extra;
  }

  lemma CoreIgnores(m: Manifest, files: Files, sha: string -> string, extra: string, data: string)
    requires Core(m, files, sha) && extra !in Listed(m)
    ensures Core(m, files[extra := data], sha)
  {
    var more := files[extra := data];
    forall i | 0 <= i < |m.files| ensures Matches(m.files[i], more, sha) && m.files[i].path != extra {
      assert Paths(m.files)[i] == m.files[i].path && Matches(m.files[i], files, sha);
    }
    assert forall i | 0 <= i < |Paths(m.files)| :: Paths(m.files)[i] == m.files[i].path;
    assert Observed(Paths(m.files), more, sha) == Observed(Paths(m.files), files, sha);
  }

  lemma SourcedIgnores(m: Manifest, files: Files, extra: string, data: string)
    requires Sourced(m.files, files) && extra !in Listed(m) && '\\' in extra
    ensures Sourced(m.files, files[extra := data])
  {
    assert '\\' !in TEMPLATE && '\\' !in PUBLIC_README;
    forall i | 0 <= i < |m.files| ensures FaithfulCopy(m.files[i], files[extra := data]) {
      assert Paths(m.files)[i] == m.files[i].path && FaithfulCopy(m.files[i], files);
    }
  }

  /** Such a file goes unseen when its normalised name is that of a listed file: it can be
      added, with any contents, to a snapshot that has no violation. */
  lemma ShadowedFileIsUnseen(paths: seq<string>, files: Files, sha: string -> string, codec: Codec, extra: string, data: string)
    requires Clean(paths, files, sha, codec)
    requires '\\' in extra && Slashed(extra) in Tracked(paths)
    ensures Clean(paths + [extra], files[extra := data], sha, codec)
  {
    var m := codec.read(files[MANIFEST]).value;
    TrackedShadow(paths, extra);
    CoreIgnores(m, files, sha, extra, data);
    SourcedIgnores(m, files, extra, data);
  }
}
