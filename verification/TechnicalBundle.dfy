/** The technical bundle: what `build_bundle` packs, what `verify_bundle` accepts, and why an
    accepted bundle is the one its manifest describes. */
module TechnicalBundle {
  import opened Text
  import opened Sorting

  const MAX_BYTES: nat := 512 * 1024 * 1024
  const MAX_FILE_BYTES: nat := 64 * 1024 * 1024
  const MAX_MEMBERS: nat := 50000
  const MANIFEST: string := "BUNDLE_MANIFEST.json"
  const IDENTITY: string := "SOURCE_IDENTITY.json"
  const START: string := "START_HERE.md"

  type Payload = map<string, string>

  datatype Row = Row(path: string, bytes: nat, sha256: string)

  datatype Manifest = Manifest(members: seq<Row>, payloadSha256: string)

  /** The fields of the source identity that verification looks at. */
  datatype Identity = Identity(sourceFiles: int, sourcePayloadSha256: string, stateKnown: bool)

  /** JSON as far as it matters, with the schema version folded in: reading inverts writing,
      and the text of an inventory determines it. */
  datatype Codec = Codec(
    rowsText: seq<Row> -> string,
    writeManifest: Manifest -> string, readManifest: string -> Option<Manifest>,
    writeIdentity: Identity -> string, readIdentity: string -> Option<Identity>)

  ghost predicate Faithful(c: Codec) {
    && (forall m :: c.readManifest(c.writeManifest(m)) == Some(m))
    && (forall i :: c.readIdentity(c.writeIdentity(i)) == Some(i))
  }

  function PathOf(r: Row): string { r.path }

  function RowFor(name: string, data: string, sha: string -> string): Row { Row(name, |data|, sha(data)) }

  /** `inventory(payload)`, without saying how it is computed: a row per member, in order. */
  ghost predicate Inventories(rows: seq<Row>, payload: Payload, sha: string -> string) {
    && OrderedBy(rows, PathOf) && DistinctKeys(rows, PathOf)
    && (forall r | r in rows :: r.path in payload && r == RowFor(r.path, payload[r.path], sha))
    && forall p | p in payload :: RowFor(p, payload[p], sha) in rows
  }

  lemma FirstRow(a: seq<Row>, b: seq<Row>, payload: Payload, sha: string -> string)
    requires Inventories(a, payload, sha) && Inventories(b, payload, sha) && a != []
    ensures b != [] && a[0] == b[0]
  {
    assert a[0] in a && a[0] in b;
    assert b[0] in b && b[0] in a;
    var i :| 0 <= i < |b| && b[i] == a[0];
    var j :| 0 <= j < |a| && a[j] == b[0];
    StrLeReflexive(PathOf(a[0]));
    assert StrLe(PathOf(a[0]), PathOf(a[j])) && StrLe(PathOf(b[0]), PathOf(b[i]));
    StrLeAntisymmetric(PathOf(a[0]), PathOf(b[0]));
  }

  lemma RestInOrder(rows: seq<Row>)
    requires OrderedBy(rows, PathOf) && DistinctKeys(rows, PathOf) && rows != []
    ensures OrderedBy(rows[1..], PathOf) && DistinctKeys(rows[1..], PathOf)
    ensures forall r :: r in rows[1..] <==> r in rows && r.path != rows[0].path
  {
    var rest := rows[1..];
    forall i, j | 0 <= i < j < |rest| ensures StrLe(PathOf(rest[i]), PathOf(rest[j])) && PathOf(rest[i]) != PathOf(rest[j]) {
      assert StrLe(PathOf(rows[i + 1]), PathOf(rows[j + 1])) && PathOf(rows[i + 1]) != PathOf(rows[j + 1]);
    }
    forall i | 0 <= i < |rest| ensures rest[i] in rows && rest[i].path != rows[0].path {
      assert PathOf(rows[0]) != PathOf(rows[i + 1]);
    }
    FirstAndRest(rows);
  }

  lemma OtherRows(rows: seq<Row>, payload: Payload, sha: string -> string)
    requires Inventories(rows, payload, sha) && rows != []
    ensures Inventories(rows[1..], payload - {rows[0].path}, sha)
  {
    RestInOrder(rows);
  }

  /** A payload has one inventory. */
  lemma {:induction false} InventoryIsUnique(a: seq<Row>, b: seq<Row>, payload: Payload, sha: string -> string)
    requires Inventories(a, payload, sha) && Inventories(b, payload, sha)
    ensures a == b
  {
    if a != [] {
      FirstRow(a, b, payload, sha);
      OtherRows(a, payload, sha);
      OtherRows(b, payload, sha);
      InventoryIsUnique(a[1..], b[1..], payload - {a[0].path}, sha);
      FirstAndRest(a);
      FirstAndRest(b);
    } else if b != [] {
      FirstRow(b, a, payload, sha);
    }
  }

  /** And an inventory, with the hashes apart, describes one payload. */
  lemma InventoryDetermines(rows: seq<Row>, p: Payload, q: Payload, sha: string -> string)
    requires Injective(sha) && Inventories(rows, p, sha) && Inventories(rows, q, sha)
    ensures p == q
  {
    forall name | name in p ensures name in q && p[name] == q[name] {
      assert RowFor(name, p[name], sha) in rows;
      assert sha(p[name]) == sha(q[name]);
    }
    forall name | name in q ensures name in p { assert RowFor(name, q[name], sha) in rows; }
  }

  method Inventory(payload: Payload, sha: string -> string) returns (rows: seq<Row>)
    ensures Inventories(rows, payload, sha)
  {
    var items: seq<Row> := [];
    var rest := payload.Keys;
    while rest != {}
      invariant rest <= payload.Keys
      invariant forall r | r in items :: r.path in payload.Keys - rest && r == RowFor(r.path, payload[r.path], sha)
      invariant forall p | p in payload.Keys - rest :: RowFor(p, payload[p], sha) in items
      invariant DistinctKeys(items, PathOf)
      decreases |rest|
    {
      var p :| p in rest;
      DistinctKeysMore(items, RowFor(p, payload[p], sha), PathOf);
      items, rest := items + [RowFor(p, payload[p], sha)], rest - {p};
    }
    SortedOrdered(items, PathOf);
    SortedMembers(items, PathOf);
    DistinctKeysPermute(items, Sorted(items, PathOf), PathOf);
    rows := Sorted(items, PathOf);
  }

  // ---------------------------------------------------------------- names and limits

  datatype Member = Member(name: string, data: string)

  datatype Naming = Naming(safe: string -> bool, fold: string -> string)

  ghost predicate GoodNames(members: seq<Member>, naming: Naming) {
    && (forall i | 0 <= i < |members| :: naming.safe(members[i].name))
    && forall i, j | 0 <= i < j < |members| :: naming.fold(members[i].name) != naming.fold(members[j].name)
  }

  /** `check_names`. */
  method CheckNames(members: seq<Member>, naming: Naming) returns (ok: bool)
    ensures ok <==> GoodNames(members, naming)
  {
    var seen: set<string> := {};
    for k := 0 to |members|
      invariant seen == set i | 0 <= i < k :: naming.fold(members[i].name)
      invariant GoodNames(members[..k], naming)
    {
      var name := members[k].name;
      if !naming.safe(name) { return false; }
      if naming.fold(name) in seen {
        var i :| 0 <= i < k && naming.fold(members[i].name) == naming.fold(name);
        return false;
      }
      seen := seen + {naming.fold(name)};
    }
    TakeAll(members);
    ok := true;
  }

  function Total(members: seq<Member>): nat {
    if members == [] then 0 else Total(members[..|members| - 1]) + |members[|members| - 1].data|
  }

  predicate NoneTooLarge(members: seq<Member>) { forall i | 0 <= i < |members| :: |members[i].data| <= MAX_FILE_BYTES }

  function Contents(members: seq<Member>): Payload {
    if members == [] then map[]
    else
      var m := members[|members| - 1];
      Contents(members[..|members| - 1])[m.name := m.data]
  }

  lemma ContentsMore(members: seq<Member>, n: nat)
    requires n < |members|
    ensures Contents(members[..n + 1]) == Contents(members[..n])[members[n].name := members[n].data]
    ensures Total(members[..n + 1]) == Total(members[..n]) + |members[n].data|
    ensures NoneTooLarge(members[..n + 1]) <==> NoneTooLarge(members[..n]) && |members[n].data| <= MAX_FILE_BYTES
  {
    var more := members[..n + 1];
    assert more[..n] == members[..n];
    assert forall i | 0 <= i < n :: more[i] == members[..n][i];
  }

  method ReadAll(members: seq<Member>) returns (payload: Payload, total: nat, fits: bool)
    ensures payload == Contents(members) && total == Total(members) && (fits <==> NoneTooLarge(members))
  {
    payload, total, fits := map[], 0, true;
    for i := 0 to |members|
      invariant payload == Contents(members[..i]) && total == Total(members[..i]) && (fits <==> NoneTooLarge(members[..i]))
    {
      ContentsMore(members, i);
      payload, total := payload[members[i].name := members[i].data], total + |members[i].data|;
      fits := fits && |members[i].data| <= MAX_FILE_BYTES;
    }
    TakeAll(members);
  }

  // ---------------------------------------------------------------- acceptance

  const SOURCE: string := "source/"

  predicate InSource(name: string) { |SOURCE| <= |name| && name[..|SOURCE|] == SOURCE }

  function Unprefixed(payload: Payload): (names: set<string>)
    ensures forall name :: name in names <==> SOURCE + name in payload
  {
    var names := set p | p in payload && InSource(p) :: p[|SOURCE|..];
    assert forall name :: (SOURCE + name)[|SOURCE|..] == name && InSource(SOURCE + name);
    assert forall p | p in payload && InSource(p) :: SOURCE + p[|SOURCE|..] == p;
    names
  }

  /** The source files inside a payload, under their own names. */
  function SourceOf(payload: Payload): Payload {
    map name | name in Unprefixed(payload) :: payload[SOURCE + name]
  }

  ghost predicate IdentityHolds(i: Identity, source: Payload, sha: string -> string, c: Codec) {
    && i.sourceFiles == |source| && i.stateKnown
    && forall rows | Inventories(rows, source, sha) :: i.sourcePayloadSha256 == sha(c.rowsText(rows))
  }

  ghost predicate Describes(m: Manifest, rest: Payload, sha: string -> string, c: Codec) {
    && m.payloadSha256 == sha(c.rowsText(m.members)) && Inventories(m.members, rest, sha)
    && START in rest && IDENTITY in rest && c.readIdentity(rest[IDENTITY]).Some?
    && IdentityHolds(c.readIdentity(rest[IDENTITY]).value, SourceOf(rest), sha, c)
  }

  /** Everything `verify_bundle` checks of the contents. */
  ghost predicate Verified(payload: Payload, sha: string -> string, c: Codec) {
    && MANIFEST in payload && c.readManifest(payload[MANIFEST]).Some?
    && Describes(c.readManifest(payload[MANIFEST]).value, payload - {MANIFEST}, sha, c)
  }

  datatype Archive = Archive(size: nat, sha256: string)

  /** A bundle is a directory or a ZIP, whose own size is limited like that of a file. */
  datatype Bundle = Bundle(members: seq<Member>, zip: Option<Archive>)

  ghost predicate Admissible(b: Bundle, naming: Naming) {
    && (b.zip.Some? ==> b.zip.value.size <= MAX_FILE_BYTES)
    && GoodNames(b.members, naming) && NoneTooLarge(b.members)
    && |b.members| <= MAX_MEMBERS && Total(b.members) <= MAX_BYTES
  }

  /** The digest a caller may ask for: that of the ZIP, and of nothing else. */
  predicate AsExpected(b: Bundle, expected: Option<string>) {
    if b.zip.Some? then expected.None? || expected.value == b.zip.value.sha256 else expected.GetOr("") == ""
  }

  method VerifyContents(payload: Payload, sha: string -> string, c: Codec) returns (ok: bool)
    ensures ok <==> Verified(payload, sha, c)
  {
    if MANIFEST !in payload || c.readManifest(payload[MANIFEST]).None? { return false; }
    var m := c.readManifest(payload[MANIFEST]).value;
    var rest := payload - {MANIFEST};
    if m.payloadSha256 != sha(c.rowsText(m.members)) { return false; }
    var rows := Inventory(rest, sha);
    if Inventories(m.members, rest, sha) { InventoryIsUnique(m.members, rows, rest, sha); }
    if m.members != rows { return false; }
    if START !in rest || IDENTITY !in rest || c.readIdentity(rest[IDENTITY]).None? { return false; }
    var identity, source := c.readIdentity(rest[IDENTITY]).value, SourceOf(rest);
    var sourceRows := Inventory(source, sha);
    forall r | Inventories(r, source, sha) ensures r == sourceRows { InventoryIsUnique(r, sourceRows, source, sha); }
    ok := identity.sourceFiles == |source| && identity.stateKnown
      && identity.sourcePayloadSha256 == sha(c.rowsText(sourceRows));
  }

  /** `verify_bundle`. */
  method VerifyBundle(b: Bundle, expected: Option<string>, naming: Naming, sha: string -> string, c: Codec) returns (ok: bool)
    ensures ok <==> Admissible(b, naming) && AsExpected(b, expected) && Verified(Contents(b.members), sha, c)
  {
    ok := false;
    var named := CheckNames(b.members, naming);
    var payload, total, fits := ReadAll(b.members);
    if AsExpected(b, expected) && named && fits && total <= MAX_BYTES && |b.members| <= MAX_MEMBERS {
      if b.zip.None? || b.zip.value.size <= MAX_FILE_BYTES {
        ok := VerifyContents(payload, sha, c);
      }
    }
  }

  lemma WithoutAndBack(p: Payload, name: string)
    requires name in p
    ensures (p - {name})[name := p[name]] == p
  {
  }

  /** Two accepted bundles with the same manifest have the same contents, all of them. */
  lemma ManifestDeterminesBundle(p: Payload, q: Payload, sha: string -> string, c: Codec)
    requires Injective(sha) && Verified(p, sha, c) && Verified(q, sha, c)
    requires p[MANIFEST] == q[MANIFEST]
    ensures p == q
  {
    InventoryDetermines(c.readManifest(p[MANIFEST]).value.members, p - {MANIFEST}, q - {MANIFEST}, sha);
    WithoutAndBack(p, MANIFEST);
    WithoutAndBack(q, MANIFEST);
  }

  /** The payload digest alone fixes everything but the manifest's own spelling. */
  lemma DigestDeterminesPayload(p: Payload, q: Payload, sha: string -> string, c: Codec)
    requires Injective(sha) && Injective(c.rowsText) && Verified(p, sha, c) && Verified(q, sha, c)
    requires c.readManifest(p[MANIFEST]).value.payloadSha256 == c.readManifest(q[MANIFEST]).value.payloadSha256
    ensures p - {MANIFEST} == q - {MANIFEST}
  {
    var m, n := c.readManifest(p[MANIFEST]).value, c.readManifest(q[MANIFEST]).value;
    assert c.rowsText(m.members) == c.rowsText(n.members);
    InventoryDetermines(m.members, p - {MANIFEST}, q - {MANIFEST}, sha);
  }

  // ---------------------------------------------------------------- building

  const EVIDENCE: string := "evidence/"

  /** Where things are put: sources and evidence under their directories, apart from the fixed names. */
  ghost predicate HoldsSource(p: Payload, source: Payload) {
    && (forall name :: SOURCE + name in p <==> name in source)
    && forall name | name in source :: p[SOURCE + name] == source[name]
  }

  function Prefixed(source: Payload): (p: Payload)
    ensures HoldsSource(p, source)
    ensures forall name | name in p :: InSource(name)
  {
    assert forall name :: (SOURCE + name)[|SOURCE|..] == name && InSource(SOURCE + name);
    var names := set n | n in source :: SOURCE + n;
    map name | name in names && name[|SOURCE|..] in source :: source[name[|SOURCE|..]]
  }

  lemma ElsewhereKeeps(p: Payload, source: Payload, name: string, data: string)
    requires HoldsSource(p, source) && !InSource(name)
    ensures HoldsSource(p[name := data], source)
  {
    assert forall n :: InSource(SOURCE + n);
  }

  lemma InSourceStarts(name: string)
    ensures InSource(name) ==> name != [] && name[0] == 's'
  {
    if InSource(name) { assert name[0] == name[..|SOURCE|][0]; }
  }

  lemma NotInSource(name: string)
    ensures !InSource(EVIDENCE + name) && !InSource(IDENTITY) && !InSource(START) && !InSource(MANIFEST)
    ensures EVIDENCE + name !in {IDENTITY, START, MANIFEST}
  {
    assert (EVIDENCE + name)[0] == 'e' && IDENTITY[0] == 'S' && START[0] == 'S' && MANIFEST[0] == 'B';
    InSourceStarts(EVIDENCE + name);
    InSourceStarts(IDENTITY);
    InSourceStarts(START);
    InSourceStarts(MANIFEST);
  }

  /** A reviewed text under a plain name. */
  predicate Reviewable(m: Member, naming: Naming, reviewed: (string, string) -> bool) {
    naming.safe(m.name) && '/' !in m.name && |m.data| <= MAX_FILE_BYTES && reviewed(m.name, m.data)
  }

  predicate EvidenceFits(evidence: seq<Member>, naming: Naming, reviewed: (string, string) -> bool) {
    && (forall i | 0 <= i < |evidence| :: Reviewable(evidence[i], naming, reviewed))
    && forall i, j | 0 <= i < j < |evidence| :: evidence[i].name != evidence[j].name
  }

  function EvidenceKeys(evidence: seq<Member>, k: nat): set<string>
    requires k <= |evidence|
  {
    set i | 0 <= i < k :: EVIDENCE + evidence[i].name
  }

  predicate Has(p: Payload, name: string, data: string) { name in p && p[name] == data }

  /** A payload of the source and the first `k` evidence texts, and nothing else. */
  ghost predicate Gathered(p: Payload, source: Payload, evidence: seq<Member>, k: nat) {
    && k <= |evidence| && HoldsSource(p, source)
    && (forall i | 0 <= i < k :: Has(p, EVIDENCE + evidence[i].name, evidence[i].data))
    && forall name | name in p && !InSource(name) :: name in EvidenceKeys(evidence, k)
  }

  lemma KeyTaken(p: Payload, source: Payload, evidence: seq<Member>, k: nat)
    requires k < |evidence| && Gathered(p, source, evidence, k)
    ensures EVIDENCE + evidence[k].name in p <==> exists i | 0 <= i < k :: evidence[i].name == evidence[k].name
  {
    NotInSource(evidence[k].name);
    forall i | 0 <= i < k && EVIDENCE + evidence[i].name == EVIDENCE + evidence[k].name
      ensures evidence[i].name == evidence[k].name
    {
      SameLengthSplit(EVIDENCE, EVIDENCE, evidence[i].name, evidence[k].name);
    }
    if i :| 0 <= i < k && evidence[i].name == evidence[k].name {
      assert Has(p, EVIDENCE + evidence[i].name, evidence[i].data);
    }
  }

  lemma KeysMore(evidence: seq<Member>, k: nat)
    requires k < |evidence|
    ensures EvidenceKeys(evidence, k + 1) == EvidenceKeys(evidence, k) + {EVIDENCE + evidence[k].name}
  {
  }

  lemma HasMore(p: Payload, evidence: seq<Member>, k: nat)
    requires k < |evidence| && forall i | 0 <= i < k :: Has(p, EVIDENCE + evidence[i].name, evidence[i].data)
    requires EVIDENCE + evidence[k].name !in p
    ensures forall i | 0 <= i < k + 1 ::
      Has(p[EVIDENCE + evidence[k].name := evidence[k].data], EVIDENCE + evidence[i].name, evidence[i].data)
  {
    var more := p[EVIDENCE + evidence[k].name := evidence[k].data];
    forall i | 0 <= i < k ensures Has(more, EVIDENCE + evidence[i].name, evidence[i].data) {
      assert Has(p, EVIDENCE + evidence[i].name, evidence[i].data);
    }
  }

  lemma OnlyMore(p: Payload, evidence: seq<Member>, k: nat)
    requires k < |evidence| && forall name | name in p && !InSource(name) :: name in EvidenceKeys(evidence, k)
    ensures forall name | name in p[EVIDENCE + evidence[k].name := evidence[k].data] && !InSource(name) ::
      name in EvidenceKeys(evidence, k + 1)
  {
    KeysMore(evidence, k);
  }

  lemma GatheredMore(p: Payload, source: Payload, evidence: seq<Member>, k: nat)
    requires k < |evidence| && Gathered(p, source, evidence, k) && EVIDENCE + evidence[k].name !in p
    ensures Gathered(p[EVIDENCE + evidence[k].name := evidence[k].data], source, evidence, k + 1)
  {
    NotInSource(evidence[k].name);
    ElsewhereKeeps(p, source, EVIDENCE + evidence[k].name, evidence[k].data);
    HasMore(p, evidence, k);
    OnlyMore(p, evidence, k);
  }

  lemma FixedNamesFree(p: Payload, source: Payload, evidence: seq<Member>, k: nat)
    requires Gathered(p, source, evidence, k)
    ensures IDENTITY !in p && START !in p && MANIFEST !in p
  {
    NotInSource("");
    forall i | 0 <= i < k ensures EVIDENCE + evidence[i].name !in {IDENTITY, START, MANIFEST} { NotInSource(evidence[i].name); }
    assert IDENTITY !in EvidenceKeys(evidence, k) && START !in EvidenceKeys(evidence, k) && MANIFEST !in EvidenceKeys(evidence, k);
  }

  ghost predicate Adding(p: Payload, source: Payload, evidence: seq<Member>, k: nat, naming: Naming, reviewed: (string, string) -> bool) {
    Gathered(p, source, evidence, k) && EvidenceFits(evidence[..k], naming, reviewed)
  }

  lemma EvidenceMore(evidence: seq<Member>, k: nat, naming: Naming, reviewed: (string, string) -> bool)
    requires k < |evidence| && EvidenceFits(evidence[..k], naming, reviewed)
    ensures EvidenceFits(evidence[..k + 1], naming, reviewed) <==>
      Reviewable(evidence[k], naming, reviewed) && !exists i | 0 <= i < k :: evidence[i].name == evidence[k].name
  {
    var more := evidence[..k + 1];
    assert forall i | 0 <= i < k :: more[i] == evidence[..k][i] == evidence[i];
    assert more[k] == evidence[k];
  }

  lemma EvidenceStops(evidence: seq<Member>, k: nat, naming: Naming, reviewed: (string, string) -> bool)
    requires k <= |evidence| && !EvidenceFits(evidence[..k], naming, reviewed)
    ensures !EvidenceFits(evidence, naming, reviewed)
  {
    assert forall i | 0 <= i < k :: evidence[..k][i] == evidence[i];
  }

  lemma AddingMore(p: Payload, source: Payload, evidence: seq<Member>, k: nat, naming: Naming, reviewed: (string, string) -> bool)
    requires k < |evidence| && Adding(p, source, evidence, k, naming, reviewed)
    requires Reviewable(evidence[k], naming, reviewed) && EVIDENCE + evidence[k].name !in p
    ensures Adding(p[EVIDENCE + evidence[k].name := evidence[k].data], source, evidence, k + 1, naming, reviewed)
  {
    KeyTaken(p, source, evidence, k);
    EvidenceMore(evidence, k, naming, reviewed);
    GatheredMore(p, source, evidence, k);
  }

  lemma AddingStops(p: Payload, source: Payload, evidence: seq<Member>, k: nat, naming: Naming, reviewed: (string, string) -> bool)
    requires k < |evidence| && Adding(p, source, evidence, k, naming, reviewed)
    requires !Reviewable(evidence[k], naming, reviewed) || EVIDENCE + evidence[k].name in p
    ensures !EvidenceFits(evidence, naming, reviewed)
  {
    KeyTaken(p, source, evidence, k);
    EvidenceMore(evidence, k, naming, reviewed);
    EvidenceStops(evidence, k + 1, naming, reviewed);
  }

  /** The loop that adds the evidence. */
  method AddEvidence(source: Payload, evidence: seq<Member>, naming: Naming, reviewed: (string, string) -> bool)
      returns (ok: bool, p: Payload)
    ensures ok <==> EvidenceFits(evidence, naming, reviewed)
    ensures ok ==> Gathered(p, source, evidence, |evidence|)
  {
    p := Prefixed(source);
    for k := 0 to |evidence|
      invariant Adding(p, source, evidence, k, naming, reviewed)
    {
      if !Reviewable(evidence[k], naming, reviewed) || EVIDENCE + evidence[k].name in p {
        AddingStops(p, source, evidence, k, naming, reviewed);
        return false, p;
      }
      AddingMore(p, source, evidence, k, naming, reviewed);
      p := p[EVIDENCE + evidence[k].name := evidence[k].data];
    }
    TakeAll(evidence);
    ok := true;
  }

  lemma SourceComesBack(p: Payload, source: Payload)
    requires HoldsSource(p, source)
    ensures SourceOf(p) == source
  {
  }

  lemma IdentitySealed(source: Payload, rows: seq<Row>, sha: string -> string, c: Codec)
    requires Inventories(rows, source, sha)
    ensures IdentityHolds(Identity(|source|, sha(c.rowsText(rows)), true), source, sha, c)
  {
    forall r | Inventories(r, source, sha) ensures r == rows { InventoryIsUnique(r, rows, source, sha); }
  }

  function Sealed(p: Payload, rows: seq<Row>, sha: string -> string, c: Codec): Payload {
    p[MANIFEST := c.writeManifest(Manifest(rows, sha(c.rowsText(rows))))]
  }

  lemma DescribedBy(p: Payload, rows: seq<Row>, identity: Identity, sha: string -> string, c: Codec)
    requires Inventories(rows, p, sha) && START in p && IDENTITY in p && c.readIdentity(p[IDENTITY]) == Some(identity)
    requires IdentityHolds(identity, SourceOf(p), sha, c)
    ensures Describes(Manifest(rows, sha(c.rowsText(rows))), p, sha, c)
  {
  }

  lemma ReadsBack(p: Payload, identity: Identity, c: Codec)
    requires Faithful(c) && IDENTITY in p && p[IDENTITY] == c.writeIdentity(identity)
    ensures c.readIdentity(p[IDENTITY]) == Some(identity)
  {
  }

  lemma WholeIsDescribed(p: Payload, source: Payload, rows: seq<Row>, sourceRows: seq<Row>, sha: string -> string, c: Codec)
    requires Faithful(c) && HoldsSource(p, source) && START in p && IDENTITY in p
    requires Inventories(rows, p, sha) && Inventories(sourceRows, source, sha)
    requires p[IDENTITY] == c.writeIdentity(Identity(|source|, sha(c.rowsText(sourceRows)), true))
    ensures Describes(Manifest(rows, sha(c.rowsText(rows))), p, sha, c)
  {
    SourceComesBack(p, source);
    IdentitySealed(source, sourceRows, sha, c);
    ReadsBack(p, Identity(|source|, sha(c.rowsText(sourceRows)), true), c);
    DescribedBy(p, rows, Identity(|source|, sha(c.rowsText(sourceRows)), true), sha, c);
  }

  /** Whatever the builder seals is what the verifier accepts. */
  lemma SealedIsVerified(p: Payload, rows: seq<Row>, sha: string -> string, c: Codec)
    requires Faithful(c) && MANIFEST !in p && Describes(Manifest(rows, sha(c.rowsText(rows))), p, sha, c)
    ensures Verified(Sealed(p, rows, sha, c), sha, c)
  {
    var m := Manifest(rows, sha(c.rowsText(rows)));
    assert p[MANIFEST := c.writeManifest(m)] - {MANIFEST} == p;
    assert c.readManifest(c.writeManifest(m)) == Some(m);
  }

  function NameOf(m: Member): string { m.name }

  /** `sorted(payload.items())`, written member by member. */
  ghost predicate Packs(members: seq<Member>, payload: Payload) {
    && |members| == |payload| && Contents(members) == payload
    && OrderedBy(members, NameOf) && DistinctKeys(members, NameOf)
  }

  /** The items of a dictionary, in any order. */
  ghost predicate Itemises(items: seq<Member>, payload: Payload, names: set<string>) {
    && (forall m | m in items :: m.name in names && m.name in payload && m.data == payload[m.name])
    && (forall p | p in names && p in payload :: Member(p, payload[p]) in items)
    && DistinctKeys(items, NameOf)
  }

  lemma ItemisesMore(items: seq<Member>, payload: Payload, names: set<string>, p: string)
    requires Itemises(items, payload, names) && p in payload && p !in names
    ensures Itemises(items + [Member(p, payload[p])], payload, names + {p})
  {
    DistinctKeysMore(items, Member(p, payload[p]), NameOf);
  }

  lemma {:induction false} MemberIsContained(members: seq<Member>, i: nat)
    requires i < |members| && forall j | i < j < |members| :: members[j].name != members[i].name
    ensures members[i].name in Contents(members) && Contents(members)[members[i].name] == members[i].data
    decreases |members|
  {
    var n := |members| - 1;
    if i < n {
      assert members[..n][i] == members[i];
      assert forall j | i < j < n :: members[..n][j] == members[j];
      MemberIsContained(members[..n], i);
    }
  }

  lemma {:induction false} ContainedHasMember(members: seq<Member>, name: string)
    requires name in Contents(members)
    ensures Member(name, Contents(members)[name]) in members
  {
    var n := |members| - 1;
    if members[n].name != name { ContainedHasMember(members[..n], name); }
  }

  lemma ContentsIs(members: seq<Member>, payload: Payload)
    requires Itemises(members, payload, payload.Keys)
    ensures Contents(members) == payload
  {
    forall p | p in payload ensures p in Contents(members) && Contents(members)[p] == payload[p] {
      var i :| 0 <= i < |members| && members[i] == Member(p, payload[p]);
      forall j | i < j < |members| ensures members[j].name != members[i].name {
        assert NameOf(members[i]) != NameOf(members[j]);
      }
      MemberIsContained(members, i);
    }
    forall p | p in Contents(members) ensures p in payload { ContainedHasMember(members, p); }
  }

  lemma PackedItems(items: seq<Member>, payload: Payload)
    requires Itemises(items, payload, payload.Keys) && |items| == |payload|
    ensures Packs(Sorted(items, NameOf), payload)
  {
    var members := Sorted(items, NameOf);
    SortedOrdered(items, NameOf);
    SortedMembers(items, NameOf);
    DistinctKeysPermute(items, members, NameOf);
    ContentsIs(members, payload);
  }

  method Pack(payload: Payload) returns (members: seq<Member>)
    ensures Packs(members, payload)
  {
    var items: seq<Member> := [];
    var rest := payload.Keys;
    while rest != {}
      invariant rest <= payload.Keys && |items| + |rest| == |payload|
      invariant Itemises(items, payload, payload.Keys - rest)
      decreases |rest|
    {
      var p :| p in rest;
      ItemisesMore(items, payload, payload.Keys - rest, p);
      assert payload.Keys - rest + {p} == payload.Keys - (rest - {p});
      items, rest := items + [Member(p, payload[p])], rest - {p};
    }
    PackedItems(items, payload);
    members := Sorted(items, NameOf);
  }

  predicate SourceFits(source: Payload, naming: Naming) {
    source != map[] && forall n | n in source :: naming.safe(n) && |source[n]| <= MAX_FILE_BYTES
  }

  /** Writes the archive and verifies it. */
  method WriteAndVerify(members: seq<Member>, zip: Archive, naming: Naming, sha: string -> string, c: Codec) returns (ok: bool)
    requires Verified(Contents(members), sha, c)
    ensures ok <==> Admissible(Bundle(members, Some(zip)), naming)
  {
    ok := false;
    var named := CheckNames(members, naming);
    var payload, total, fits := ReadAll(members);
    if named && |members| <= MAX_MEMBERS && total <= MAX_BYTES {
      ok := VerifyBundle(Bundle(members, Some(zip)), None, naming, sha, c);
    }
  }

  // ---------------------------------------------------------------- what is in a built bundle

  /** The source, the evidence, the start page, the two generated members, and nothing else. */
  ghost predicate Bundled(payload: Payload, source: Payload, evidence: seq<Member>, start: string) {
    && HoldsSource(payload, source) && Has(payload, START, start) && IDENTITY in payload && MANIFEST in payload
    && (forall i | 0 <= i < |evidence| :: Has(payload, EVIDENCE + evidence[i].name, evidence[i].data))
    && forall name | name in payload && !InSource(name) ::
         name in EvidenceKeys(evidence, |evidence|) || name == START || name == IDENTITY || name == MANIFEST
  }

  lemma SealedHoldsAll(p: Payload, source: Payload, evidence: seq<Member>, identity: string, start: string, manifest: string)
    requires Gathered(p, source, evidence, |evidence|)
    ensures Bundled(p[IDENTITY := identity][START := start][MANIFEST := manifest], source, evidence, start)
  {
    NotInSource("");
    ElsewhereKeeps(p, source, IDENTITY, identity);
    ElsewhereKeeps(p[IDENTITY := identity], source, START, start);
    ElsewhereKeeps(p[IDENTITY := identity][START := start], source, MANIFEST, manifest);
    var whole := p[IDENTITY := identity][START := start][MANIFEST := manifest];
    forall i | 0 <= i < |evidence| ensures Has(whole, EVIDENCE + evidence[i].name, evidence[i].data) {
      NotInSource(evidence[i].name);
      assert Has(p, EVIDENCE + evidence[i].name, evidence[i].data);
    }
    assert START != IDENTITY && START != MANIFEST;
  }

  method SealAndPack(p: Payload, source: Payload, ghost evidence: seq<Member>, start: string, sha: string -> string, c: Codec)
      returns (members: seq<Member>)
    requires Faithful(c) && Gathered(p, source, evidence, |evidence|)
    ensures Verified(Contents(members), sha, c) && Bundled(Contents(members), source, evidence, start)
  {
    FixedNamesFree(p, source, evidence, |evidence|);
    NotInSource("");
    var sourceRows := Inventory(source, sha);
    var identity := c.writeIdentity(Identity(|source|, sha(c.rowsText(sourceRows)), true));
    ElsewhereKeeps(p, source, IDENTITY, identity);
    ElsewhereKeeps(p[IDENTITY := identity], source, START, start);
    var whole := p[IDENTITY := identity][START := start];
    var rows := Inventory(whole, sha);
    WholeIsDescribed(whole, source, rows, sourceRows, sha, c);
    SealedIsVerified(whole, rows, sha, c);
    var manifest := c.writeManifest(Manifest(rows, sha(c.rowsText(rows))));
    SealedHoldsAll(p, source, evidence, identity, start, manifest);
    members := Pack(Sealed(whole, rows, sha, c));
  }

  lemma SourceOfBundle(payload: Payload, source: Payload, evidence: seq<Member>, start: string)
    requires Bundled(payload, source, evidence, start)
    ensures SourceOf(payload) == source
  {
    SourceComesBack(payload, source);
  }

  /** `build_bundle`, from the filtered source files: it ends by verifying the members it wrote. */
  method BuildBundle(source: Payload, evidence: seq<Member>, start: string, naming: Naming, reviewed: (string, string) -> bool,
                     zip: seq<Member> -> Archive, sha: string -> string, c: Codec)
      returns (r: Result<Bundle>, members: seq<Member>)
    requires Faithful(c)
    ensures SourceFits(source, naming) && EvidenceFits(evidence, naming, reviewed) ==>
              && Verified(Contents(members), sha, c) && Bundled(Contents(members), source, evidence, start)
              && SourceOf(Contents(members)) == source
    ensures r.Ok? <==>
      && SourceFits(source, naming) && EvidenceFits(evidence, naming, reviewed)
      && Admissible(Bundle(members, Some(zip(members))), naming)
    ensures r.Ok? ==> r.value == Bundle(members, Some(zip(members)))
  {
    members, r := [], Rejected;
    var ok, p := AddEvidence(source, evidence, naming, reviewed);
    if ok && SourceFits(source, naming) {
      var packed := SealAndPack(p, source, evidence, start, sha, c);
      members := packed;
      SourceOfBundle(Contents(packed), source, evidence, start);
      var verified := WriteAndVerify(packed, zip(packed), naming, sha, c);
      if verified { r := Ok(Bundle(packed, Some(zip(packed)))); }
    }
  }
}
