/** What a technical bundle must look like to be accepted and to be built, condition by condition. */
module BundleMeaning {
  import opened Text
  import opened Sums
  import opened TechnicalBundle

  // ---------------------------------------------------------------- the contents

  /** A row for every member and no other, in order, each with the member's length and digest. */
  ghost predicate TellsMembers(rows: seq<Row>, payload: Payload, sha: string -> string) {
    && (forall i, j | 0 <= i < j < |rows| :: StrLe(rows[i].path, rows[j].path) && rows[i].path != rows[j].path)
    && (forall i | 0 <= i < |rows| ::
          rows[i].path in payload && rows[i].bytes == |payload[rows[i].path]| && rows[i].sha256 == sha(payload[rows[i].path]))
    && forall name | name in payload :: exists i :: 0 <= i < |rows| && rows[i].path == name
  }

  lemma InventoryTells(rows: seq<Row>, payload: Payload, sha: string -> string)
    requires Inventories(rows, payload, sha)
    ensures TellsMembers(rows, payload, sha)
  {
    forall i, j | 0 <= i < j < |rows| ensures StrLe(rows[i].path, rows[j].path) && rows[i].path != rows[j].path {
      assert StrLe(PathOf(rows[i]), PathOf(rows[j])) && PathOf(rows[i]) != PathOf(rows[j]);
    }
    forall i | 0 <= i < |rows|
      ensures rows[i].path in payload
      ensures rows[i].bytes == |payload[rows[i].path]| && rows[i].sha256 == sha(payload[rows[i].path])
    {
      assert rows[i] in rows;
    }
    forall name | name in payload ensures exists i :: 0 <= i < |rows| && rows[i].path == name {
      assert RowFor(name, payload[name], sha) in rows;
      var i :| 0 <= i < |rows| && rows[i] == RowFor(name, payload[name], sha);
    }
  }

  lemma TellingIsInventory(rows: seq<Row>, payload: Payload, sha: string -> string)
    requires TellsMembers(rows, payload, sha)
    ensures Inventories(rows, payload, sha)
  {
    forall r | r in rows ensures r.path in payload && r == RowFor(r.path, payload[r.path], sha) {
      var i :| 0 <= i < |rows| && rows[i] == r;
    }
    forall name | name in payload ensures RowFor(name, payload[name], sha) in rows {
      var i :| 0 <= i < |rows| && rows[i].path == name;
      assert rows[i] == RowFor(name, payload[name], sha);
    }
    forall i, j | 0 <= i < j < |rows| ensures StrLe(PathOf(rows[i]), PathOf(rows[j])) && PathOf(rows[i]) != PathOf(rows[j]) {
      assert StrLe(rows[i].path, rows[j].path) && rows[i].path != rows[j].path;
    }
  }

  lemma TellsIffInventory(rows: seq<Row>, payload: Payload, sha: string -> string)
    ensures Inventories(rows, payload, sha) <==> TellsMembers(rows, payload, sha)
  {
    if Inventories(rows, payload, sha) { InventoryTells(rows, payload, sha); }
    if TellsMembers(rows, payload, sha) { TellingIsInventory(rows, payload, sha); }
  }

  /** The members below `source/`, without that prefix. */
  ghost predicate SourceMembers(source: Payload, payload: Payload) {
    && (forall name :: name in source <==> "source/" + name in payload)
    && forall name | name in source :: source[name] == payload["source/" + name]
  }

  lemma SourceOfIs(source: Payload, payload: Payload)
    ensures SourceMembers(source, payload) <==> source == SourceOf(payload)
  {
    var found := SourceOf(payload);
    assert forall name :: name in found <==> "source/" + name in payload;
  }

  /** The identity counts the source files, vouches for their inventory, and names a known state. */
  ghost predicate Identifies(i: Identity, source: Payload, sha: string -> string, c: Codec) {
    && i.stateKnown && i.sourceFiles == |source|
    && forall rows | TellsMembers(rows, source, sha) :: i.sourcePayloadSha256 == sha(c.rowsText(rows))
  }

  lemma IdentifiesMeans(i: Identity, source: Payload, sha: string -> string, c: Codec)
    ensures IdentityHolds(i, source, sha, c) <==> Identifies(i, source, sha, c)
  {
    forall rows ensures Inventories(rows, source, sha) <==> TellsMembers(rows, source, sha) {
      TellsIffInventory(rows, source, sha);
    }
  }

  /** The manifest vouches for its own rows, and these tell all other members; the start page and
      a readable identity are among them, and it identifies the source files. */
  ghost predicate Vouches(m: Manifest, rest: Payload, source: Payload, sha: string -> string, c: Codec) {
    && m.payloadSha256 == sha(c.rowsText(m.members)) && TellsMembers(m.members, rest, sha)
    && "START_HERE.md" in rest && "SOURCE_IDENTITY.json" in rest && c.readIdentity(rest["SOURCE_IDENTITY.json"]).Some?
    && Identifies(c.readIdentity(rest["SOURCE_IDENTITY.json"]).value, source, sha, c)
  }

  lemma VouchesMeans(m: Manifest, rest: Payload, source: Payload, sha: string -> string, c: Codec)
    requires source == SourceOf(rest)
    ensures Describes(m, rest, sha, c) <==> Vouches(m, rest, source, sha, c)
  {
    TellsIffInventory(m.members, rest, sha);
    if IDENTITY in rest && c.readIdentity(rest[IDENTITY]).Some? {
      IdentifiesMeans(c.readIdentity(rest[IDENTITY]).value, source, sha, c);
    }
  }

  lemma SourceApart(payload: Payload, source: Payload)
    requires SourceMembers(source, payload)
    ensures source == SourceOf(payload - {MANIFEST})
  {
    NotInSource("");
    var rest := payload - {MANIFEST};
    forall name ensures "source/" + name in payload <==> "source/" + name in rest {
      assert InSource("source/" + name);
    }
    SourceOfIs(source, rest);
  }

  /** The contents are accepted exactly when their manifest can be read and vouches for the rest. */
  lemma VerifiedMeans(payload: Payload, source: Payload, sha: string -> string, c: Codec)
    requires SourceMembers(source, payload)
    ensures Verified(payload, sha, c) <==>
      && "BUNDLE_MANIFEST.json" in payload && c.readManifest(payload["BUNDLE_MANIFEST.json"]).Some?
      && Vouches(c.readManifest(payload["BUNDLE_MANIFEST.json"]).value, payload - {"BUNDLE_MANIFEST.json"}, source, sha, c)
  {
    SourceApart(payload, source);
    if MANIFEST in payload && c.readManifest(payload[MANIFEST]).Some? {
      VouchesMeans(c.readManifest(payload[MANIFEST]).value, payload - {MANIFEST}, source, sha, c);
    }
  }

  // ---------------------------------------------------------------- the limits

  lemma {:induction false} TotalIsSum(members: seq<Member>)
    ensures Total(members) == Sum(members, (m: Member) => |m.data|)
  {
    if members != [] {
      var n := |members| - 1;
      TotalIsSum(members[..n]);
      SumLast(members, n, (m: Member) => |m.data|);
      TakeAll(members);
    }
  }

  /** At most 50,000 members with safe names that differ when folded, none larger than 64 MiB and
      together no larger than 512 MiB; a ZIP, too, is no larger than 64 MiB. */
  lemma AdmissibleMeans(b: Bundle, naming: Naming)
    ensures Admissible(b, naming) <==>
      && |b.members| <= 50_000 && Sum(b.members, (m: Member) => |m.data|) <= 536_870_912
      && (forall i | 0 <= i < |b.members| :: naming.safe(b.members[i].name) && |b.members[i].data| <= 67_108_864)
      && (forall i, j | 0 <= i < j < |b.members| :: naming.fold(b.members[i].name) != naming.fold(b.members[j].name))
      && (b.zip.Some? ==> b.zip.value.size <= 67_108_864)
  {
    TotalIsSum(b.members);
  }

  /** A digest that is asked for must be the ZIP's; of a directory none may be asked. */
  lemma AsExpectedMeans(b: Bundle, expected: Option<string>)
    ensures AsExpected(b, expected) <==>
      expected.None? || (if b.zip.Some? then b.zip.value.sha256 == expected.value else |expected.value| == 0)
  {
  }

  /** What is verified is what the members hold, under their names. */
  lemma ContentsAre(b: Bundle, naming: Naming, name: string, data: string)
    requires Admissible(b, naming)
    ensures name in Contents(b.members) && Contents(b.members)[name] == data <==> Member(name, data) in b.members
  {
    if name in Contents(b.members) { ContainedHasMember(b.members, name); }
    if Member(name, data) in b.members {
      var i :| 0 <= i < |b.members| && b.members[i] == Member(name, data);
      MemberIsContained(b.members, i);
    }
  }

  // ---------------------------------------------------------------- building

  /** What may be built: some source files with safe names, and evidence under safe names without a
      slash, each of them reviewed and no two alike; none of the files larger than 64 MiB. */
  lemma BuildableMeans(source: Payload, evidence: seq<Member>, naming: Naming, reviewed: (string, string) -> bool)
    ensures SourceFits(source, naming) && EvidenceFits(evidence, naming, reviewed) <==>
      && (exists name :: name in source) && (forall name | name in source :: naming.safe(name) && |source[name]| <= 67_108_864)
      && (forall e | e in evidence ::
            naming.safe(e.name) && '/' !in e.name && |e.data| <= 67_108_864 && reviewed(e.name, e.data))
      && forall i, j | 0 <= i < j < |evidence| :: evidence[i].name != evidence[j].name
  {
    if source != map[] {
      var name :| name in source;
    }
    assert (forall i | 0 <= i < |evidence| :: Reviewable(evidence[i], naming, reviewed)) <==>
      forall e | e in evidence :: Reviewable(e, naming, reviewed);
  }

  /** What a built bundle holds: the sources below `source/`, the evidence below `evidence/`, the
      start page, the two generated members, and nothing else. */
  lemma BundledMeans(payload: Payload, source: Payload, evidence: seq<Member>, start: string)
    requires Bundled(payload, source, evidence, start)
    ensures SourceMembers(source, payload)
    ensures "START_HERE.md" in payload && payload["START_HERE.md"] == start
    ensures "SOURCE_IDENTITY.json" in payload && "BUNDLE_MANIFEST.json" in payload
    ensures forall e | e in evidence :: "evidence/" + e.name in payload && payload["evidence/" + e.name] == e.data
    ensures forall name | name in payload ::
      || (exists n :: n in source && name == "source/" + n) || (exists e :: e in evidence && name == "evidence/" + e.name)
      || name in {"START_HERE.md", "SOURCE_IDENTITY.json", "BUNDLE_MANIFEST.json"}
  {
    forall e | e in evidence ensures "evidence/" + e.name in payload && payload["evidence/" + e.name] == e.data {
      var i :| 0 <= i < |evidence| && evidence[i] == e;
      assert Has(payload, EVIDENCE + evidence[i].name, evidence[i].data);
    }
    forall name | name in payload
      ensures || (exists n :: n in source && name == "source/" + n) || (exists e :: e in evidence && name == "evidence/" + e.name)
              || name in {"START_HERE.md", "SOURCE_IDENTITY.json", "BUNDLE_MANIFEST.json"}
    {
      if InSource(name) {
        var n := name[|SOURCE|..];
        assert name == "source/" + n && n in source;
      } else if name in EvidenceKeys(evidence, |evidence|) {
        var i :| 0 <= i < |evidence| && name == EVIDENCE + evidence[i].name;
        assert evidence[i] in evidence && name == "evidence/" + evidence[i].name;
      }
    }
  }
}
