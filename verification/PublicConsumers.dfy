/** The defense kit's validation of a public snapshot against its manifest. */
module PublicConsumers {
  import opened Text
  import opened Sorting
  import opened PublicManifest
  import opened PublicChecker

  /** What the kit asks beyond the core: no listed file is empty, no two listed paths fold
      alike, none is sensitive, and the manifest is not listed. */
  predicate NoEmptyFile(entries: seq<Entry>) { forall i | 0 <= i < |entries| :: entries[i].size > 0 }

  ghost predicate Apart(paths: seq<string>, fold: string -> string) { DistinctKeys(paths, fold) }

  predicate Unobjectionable(entries: seq<Entry>, sensitive: string -> bool) {
    forall i | 0 <= i < |entries| :: !sensitive(entries[i].path) && entries[i].path != MANIFEST
  }

  // ---------------------------------------------------------------- the defense kit

  ghost predicate KitAccepts(m: Manifest, files: Files, sha: string -> string, fold: string -> string, sensitive: string -> bool) {
    && Binds(m, files, sha) && NoEmptyFile(m.files)
    && Apart(Paths(m.files), fold) && Unobjectionable(m.files, sensitive)
  }

  /** One entry passes every check of the kit's loop that does not depend on the others. */
  predicate KitEntry(e: Entry, files: Files, sha: string -> string, sensitive: string -> bool) {
    Matches(e, files, sha) && e.size > 0 && !sensitive(e.path) && e.path != MANIFEST
  }

  ghost predicate KitSoFar(entries: seq<Entry>, files: Files, sha: string -> string, fold: string -> string,
                           sensitive: string -> bool, seen: set<string>, observed: seq<string>, digest: string) {
    && (forall i | 0 <= i < |entries| :: KitEntry(entries[i], files, sha, sensitive))
    && observed == Paths(entries) && Apart(observed, fold)
    && seen == (set p | p in observed :: fold(p))
    && Present(observed, files) && digest == Preimage(Observed(observed, files, sha))
  }

  lemma KitOneMore(entries: seq<Entry>, e: Entry, files: Files, sha: string -> string, fold: string -> string,
                   sensitive: string -> bool, seen: set<string>, observed: seq<string>, digest: string)
    requires KitSoFar(entries, files, sha, fold, sensitive, seen, observed, digest)
    requires KitEntry(e, files, sha, sensitive) && fold(e.path) !in seen
    ensures KitSoFar(entries + [e], files, sha, fold, sensitive, seen + {fold(e.path)}, observed + [e.path],
                     digest + RowText(Row(e.path, sha(files[e.path]))))
  {
    var more := observed + [e.path];
    assert Paths(entries + [e]) == more;
    assert forall p :: p in more <==> p in observed || p == e.path;
    forall i, j | 0 <= i < j < |more| ensures fold(more[i]) != fold(more[j]) {
      assert more[i] == observed[i] && observed[i] in observed;
    }
    ObservedMore(observed, e.path, files, sha);
  }

  /** An accepted manifest has only acceptable entries, no two of which fold alike. */
  lemma KitNeeds(m: Manifest, n: nat, files: Files, sha: string -> string, fold: string -> string, sensitive: string -> bool)
    requires n < |m.files| && KitAccepts(m, files, sha, fold, sensitive)
    ensures KitEntry(m.files[n], files, sha, sensitive)
    ensures fold(m.files[n].path) !in set p | p in Paths(m.files[..n]) :: fold(p)
  {
    var paths := Paths(m.files);
    assert Matches(m.files[n], files, sha);
    forall p | p in Paths(m.files[..n]) ensures fold(p) != fold(m.files[n].path) {
      var i :| 0 <= i < n && Paths(m.files[..n])[i] == p;
      assert fold(paths[i]) != fold(paths[n]);
    }
  }

  lemma ApartIsDistinct(paths: seq<string>, fold: string -> string)
    requires Apart(paths, fold)
    ensures Distinct(paths)
  {
    forall i, j | 0 <= i < j < |paths| ensures Self(paths[i]) != Self(paths[j]) {
      assert fold(paths[i]) != fold(paths[j]);
    }
  }

  lemma KitEntriesFine(entries: seq<Entry>, files: Files, sha: string -> string, sensitive: string -> bool)
    requires forall i | 0 <= i < |entries| :: KitEntry(entries[i], files, sha, sensitive)
    ensures AllMatch(entries, files, sha) && NoEmptyFile(entries) && Unobjectionable(entries, sensitive)
  {
    forall i | 0 <= i < |entries|
      ensures Matches(entries[i], files, sha) && entries[i].size > 0
      ensures !sensitive(entries[i].path) && entries[i].path != MANIFEST
    {
      assert KitEntry(entries[i], files, sha, sensitive);
    }
  }

  lemma BindsIff(m: Manifest, files: Files, sha: string -> string, observed: seq<string>, digest: string)
    requires m.fileCount == |m.files| && AllMatch(m.files, files, sha) && observed == Paths(m.files) && Distinct(observed)
    requires Present(observed, files) && digest == Preimage(Observed(observed, files, sha))
    ensures Binds(m, files, sha) <==>
              Ascending(observed) && files.Keys == (set p | p in observed) + {MANIFEST} && m.snapshotSha256 == sha(digest)
  {
  }

  lemma KitConcludes(m: Manifest, files: Files, sha: string -> string, fold: string -> string, sensitive: string -> bool,
                     seen: set<string>, observed: seq<string>, digest: string)
    requires KitSoFar(m.files, files, sha, fold, sensitive, seen, observed, digest) && m.fileCount == |m.files|
    ensures KitAccepts(m, files, sha, fold, sensitive) <==>
              && Sorted(observed, Self) == observed && files.Keys == (set p | p in observed) + {MANIFEST}
              && m.snapshotSha256 == sha(digest)
  {
    SortedIffAscending(observed);
    ApartIsDistinct(observed, fold);
    KitEntriesFine(m.files, files, sha, sensitive);
    BindsIff(m, files, sha, observed, digest);
  }

  /** The loop over the entries, and what is compared after it. */
  method KitFiles(m: Manifest, files: Files, sha: string -> string, fold: string -> string, sensitive: string -> bool)
      returns (ok: bool)
    ensures ok <==> KitAccepts(m, files, sha, fold, sensitive)
  {
    if m.fileCount != |m.files| { return false; }
    var seen: set<string>, observed: seq<string>, digest: string := {}, [], [];
    for i := 0 to |m.files|
      invariant KitSoFar(m.files[..i], files, sha, fold, sensitive, seen, observed, digest)
    {
      var e := m.files[i];
      TakeOneMore(m.files, i);
      if fold(e.path) in seen || !KitEntry(e, files, sha, sensitive) {
        if KitAccepts(m, files, sha, fold, sensitive) { KitNeeds(m, i, files, sha, fold, sensitive); }
        return false;
      }
      KitOneMore(m.files[..i], e, files, sha, fold, sensitive, seen, observed, digest);
      seen, observed := seen + {fold(e.path)}, observed + [e.path];
      digest := digest + RowText(Row(e.path, sha(files[e.path])));
    }
    TakeAll(m.files);
    KitConcludes(m, files, sha, fold, sensitive, seen, observed, digest);
    ok := Sorted(observed, Self) == observed && files.Keys == (set p | p in observed) + {MANIFEST}
      && m.snapshotSha256 == sha(digest);
  }

  /** `_validate_public_manifest`, for the commit and tree the kit is built from. */
  method ValidateKitManifest(m: Manifest, source: Identity, files: Files, sha: string -> string, fold: string -> string,
                             sensitive: string -> bool)
      returns (ok: bool)
    ensures ok <==> m.boundary == BoundaryOf(source) && KitAccepts(m, files, sha, fold, sensitive)
  {
    ok := false;
    if m.boundary == BoundaryOf(source) { ok := KitFiles(m, files, sha, fold, sensitive); }
  }

  /** As far as the manifest goes, the kit takes an exported snapshot exactly when it was made
      from the kit's own source, no listed file is empty, no listed path is sensitive, and no
      two differ in case alone. */
  lemma ManifestTakesExport(m: Manifest, files: Files, source: Identity, sha: string -> string, fold: string -> string,
                            sensitive: string -> bool)
    requires Public(m.boundary) && Binds(m, files, sha) && MANIFEST !in Paths(m.files)
    ensures forall i | 0 <= i < |m.files| :: m.files[i].path in files
    ensures m.boundary == BoundaryOf(source) && KitAccepts(m, files, sha, fold, sensitive) <==>
      && m.boundary.source == source
      && (forall i | 0 <= i < |m.files| :: |files[m.files[i].path]| > 0 && !sensitive(m.files[i].path))
      && Apart(Paths(m.files), fold)
  {
    forall i | 0 <= i < |m.files|
      ensures m.files[i].path != MANIFEST && m.files[i].path in files && m.files[i].size == |files[m.files[i].path]|
    {
      assert Paths(m.files)[i] == m.files[i].path && Matches(m.files[i], files, sha);
    }
  }
}
