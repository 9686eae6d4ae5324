/** The manifest of a public snapshot: what the exporter writes, and what its three
    validators recompute.  Byte strings and texts are one type here. */
module PublicManifest {
  import opened Text
  import opened Sorting

  const MANIFEST: string := "PUBLIC_MIRROR_MANIFEST.json"
  const TEMPLATE: string := "tools/templates/public-pages.yml"
  const PAGES: string := ".github/workflows/pages.yml"
  const PUBLIC_README: string := "docs/PUBLIC_REPOSITORY_README.md"
  const README: string := "README.md"
  const NUL: char := '\0'

  /** Which file a generated file is a copy of. */
  const GENERATED: map<string, string> := map[PAGES := TEMPLATE, README := PUBLIC_README]

  datatype Entry = Entry(path: string, sha256: string, size: int, source: Option<string>)

  const SCHEMA: string := "visiondata-gate.public-mirror.v2"

  /** The commit and tree a snapshot is taken from. */
  datatype Identity = Identity(commit: string, tree: string)

  /** What a manifest declares about its origin and about what it leaves out. */
  datatype Boundary = Boundary(
    schema: string, source: Identity, clean: bool, history: bool, evidence: bool,
    customerData: bool, personalData: bool, trackedOnly: bool)

  /** The only declaration the exporter writes, and the only one any validator takes. */
  function BoundaryOf(source: Identity): Boundary { Boundary(SCHEMA, source, true, false, false, false, false, true) }

  predicate Public(b: Boundary) { b == BoundaryOf(b.source) }

  /** 40 or 64 lower-case hexadecimal digits. */
  predicate ObjectId(s: string) {
    |s| in {40, 64} && forall i | 0 <= i < |s| :: '0' <= s[i] <= '9' || 'a' <= s[i] <= 'f'
  }

  predicate Identified(source: Identity) { ObjectId(source.commit) && ObjectId(source.tree) }

  datatype Manifest = Manifest(boundary: Boundary, fileCount: int, snapshotSha256: string, files: seq<Entry>)

  type Files = map<string, string>

  /** JSON, as far as it matters: reading inverts writing. */
  datatype Codec = Codec(write: Manifest -> string, read: string -> Option<Manifest>)

  ghost predicate Faithful(codec: Codec) { forall m :: codec.read(codec.write(m)) == Some(m) }

  /** Collisions apart, with digests that are spelled without NUL. */
  ghost predicate Hashes(sha: string -> string) {
    && Injective(sha)
    && forall x :: NUL !in sha(x)
  }

  datatype Row = Row(path: string, digest: string)

  /** What one file adds to the running digest: path, NUL, hexadecimal digest, NUL. */
  function RowText(row: Row): string { row.path + [NUL] + row.digest + [NUL] }

  function Preimage(rows: seq<Row>): string { if rows == [] then [] else RowText(rows[0]) + Preimage(rows[1..]) }

  /** The digest's input grows by path, NUL, digest, NUL. */
  lemma {:induction false} PreimageSnoc(rows: seq<Row>, row: Row)
    ensures Preimage([]) == ""
    ensures RowText(row) == row.path + "\0" + row.digest + "\0"
    ensures Preimage(rows + [row]) == Preimage(rows) + RowText(row)
  {
    if rows == [] {
      assert [row][1..] == [];
      assert Preimage([row]) == RowText(row) + [];
    } else {
      assert (rows + [row])[1..] == rows[1..] + [row];
      PreimageSnoc(rows[1..], row);
      Regroup(RowText(rows[0]), Preimage(rows[1..]), RowText(row));
    }
  }

  function RowFields(rows: seq<Row>): seq<string> {
    if rows == [] then [] else [rows[0].path, rows[0].digest] + RowFields(rows[1..])
  }

  ghost predicate RowsNulFree(rows: seq<Row>) {
    forall i | 0 <= i < |rows| :: NUL !in rows[i].path && NUL !in rows[i].digest
  }

  lemma {:induction false} PreimageFields(rows: seq<Row>)
    requires RowsNulFree(rows)
    ensures Preimage(rows) == Terminated(RowFields(rows), NUL)
    ensures forall f | f in RowFields(rows) :: NUL !in f
  {
    if rows != [] {
      PreimageFields(rows[1..]);
      var fields := RowFields(rows);
      assert fields[1..] == [rows[0].digest] + RowFields(rows[1..]);
      assert fields[1..][1..] == RowFields(rows[1..]);
    }
  }

  lemma {:induction false} RowFieldsInjective(a: seq<Row>, b: seq<Row>)
    requires RowFields(a) == RowFields(b)
    ensures a == b
  {
    if a != [] && b != [] {
      var f, g := RowFields(a), RowFields(b);
      assert f[0] == a[0].path && f[1] == a[0].digest && f[2..] == RowFields(a[1..]);
      assert g[0] == b[0].path && g[1] == b[0].digest && g[2..] == RowFields(b[1..]);
      RowFieldsInjective(a[1..], b[1..]);
      FirstAndRest(a);
      FirstAndRest(b);
    }
  }

  /** The preimage can be read back in only one way. */
  lemma PreimageDecodes(a: seq<Row>, b: seq<Row>)
    requires RowsNulFree(a) && RowsNulFree(b) && Preimage(a) == Preimage(b)
    ensures a == b
  {
    PreimageFields(a);
    PreimageFields(b);
    SplitTerminated(RowFields(a), [], NUL);
    SplitTerminated(RowFields(b), [], NUL);
    assert Preimage(a) + [] == Preimage(a) && Preimage(b) + [] == Preimage(b);
    var last := Split<char>([], NUL);
    assert RowFields(a) == (RowFields(a) + last)[..|RowFields(a) + last| - |last|];
    assert RowFields(b) == (RowFields(b) + last)[..|RowFields(b) + last| - |last|];
    RowFieldsInjective(a, b);
  }

  // ---------------------------------------------------------------- what a manifest says of files

  function Paths(entries: seq<Entry>): seq<string> {
    seq(|entries|, i requires 0 <= i < |entries| => entries[i].path)
  }

  predicate Present(paths: seq<string>, files: Files) { forall i | 0 <= i < |paths| :: paths[i] in files }

  /** The rows a validator feeds to its digest: the digests it observes. */
  function Observed(paths: seq<string>, files: Files, sha: string -> string): seq<Row>
    requires Present(paths, files)
  {
    seq(|paths|, i requires 0 <= i < |paths| => Row(paths[i], sha(files[paths[i]])))
  }

  function PathOf(e: Entry): string { e.path }

  ghost predicate Ascending(paths: seq<string>) { OrderedBy(paths, Self) }

  ghost predicate Distinct(paths: seq<string>) { DistinctKeys(paths, Self) }

  /** `paths == sorted(paths)`. */
  lemma SortedIffAscending(paths: seq<string>)
    ensures Sorted(paths, Self) == paths <==> Ascending(paths)
  {
    SortedOrdered(paths, Self);
    if Ascending(paths) { OrderIsUnique(paths, Sorted(paths, Self), Self); }
  }

  predicate Matches(e: Entry, files: Files, sha: string -> string) {
    e.path in files && e.size == |files[e.path]| && e.sha256 == sha(files[e.path])
  }

  predicate AllMatch(entries: seq<Entry>, files: Files, sha: string -> string) {
    forall i | 0 <= i < |entries| :: Matches(entries[i], files, sha)
  }

  /** The files a manifest speaks of: the listed ones and itself. */
  function Listed(m: Manifest): set<string> { (set p | p in Paths(m.files)) + {MANIFEST} }

  /** The core that all validators demand: the listed files are there, byte for byte, in
      order, and the snapshot digest is theirs. */
  ghost predicate Core(m: Manifest, files: Files, sha: string -> string) {
    && m.fileCount == |m.files| && AllMatch(m.files, files, sha)
    && Distinct(Paths(m.files)) && Ascending(Paths(m.files)) && Present(Paths(m.files), files)
    && m.snapshotSha256 == sha(Preimage(Observed(Paths(m.files), files, sha)))
  }

  /** And there are no other files. */
  ghost predicate Binds(m: Manifest, files: Files, sha: string -> string) {
    Core(m, files, sha) && files.Keys == Listed(m)
  }

  lemma SameRowsSameFiles(p: seq<string>, q: seq<string>, a: Files, b: Files, sha: string -> string)
    requires Hashes(sha)
    requires Present(p, a) && Present(q, b)
    requires Observed(p, a, sha) == Observed(q, b, sha)
    ensures p == q && forall i | 0 <= i < |p| :: a[p[i]] == b[p[i]]
  {
    var rows, others := Observed(p, a, sha), Observed(q, b, sha);
    assert |rows| == |p| && |others| == |q|;
    forall i | 0 <= i < |p| ensures p[i] == q[i] && a[p[i]] == b[q[i]] {
      assert rows[i] == Row(p[i], sha(a[p[i]])) && others[i] == Row(q[i], sha(b[q[i]]));
    }
  }

  lemma ObservedNulFree(paths: seq<string>, files: Files, sha: string -> string)
    requires Hashes(sha) && (forall p | p in files :: NUL !in p)
    requires Present(paths, files)
    ensures RowsNulFree(Observed(paths, files, sha))
  {
  }

  /** The snapshot digest alone fixes which files there are, and every byte of them. */
  lemma DigestDeterminesFiles(m: Manifest, n: Manifest, a: Files, b: Files, sha: string -> string)
    requires Hashes(sha) && Binds(m, a, sha) && Binds(n, b, sha)
    requires (forall p | p in a :: NUL !in p) && forall p | p in b :: NUL !in p
    requires m.snapshotSha256 == n.snapshotSha256
    ensures a.Keys == b.Keys && Paths(m.files) == Paths(n.files)
    ensures forall p | p in a && p != MANIFEST :: a[p] == b[p]
  {
    var p, q := Paths(m.files), Paths(n.files);
    ObservedNulFree(p, a, sha);
    ObservedNulFree(q, b, sha);
    PreimageDecodes(Observed(p, a, sha), Observed(q, b, sha));
    SameRowsSameFiles(p, q, a, b, sha);
  }
}
