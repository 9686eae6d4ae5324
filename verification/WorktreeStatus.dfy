/** `git status --porcelain=v1 -z`, and the grouping of its entries by namespace. */
module WorktreeStatus {
  import opened Text
  import opened Sorting

  const END: char := '\0'

  datatype Entry = Entry(status: string, path: string, source: Option<string>)

  predicate Moved(status: string) { 'R' in status || 'C' in status }

  function Take(s: string, n: nat): string { if n <= |s| then s[..n] else s }

  function Drop(s: string, n: nat): string { if n <= |s| then s[n..] else [] }

  function Before(first: seq<Entry>, rest: Result<seq<Entry>>): Result<seq<Entry>> {
    if rest.Ok? then Ok(first + rest.value) else Rejected
  }

  /** The entries in a list of NUL-separated fields: a rename or copy takes two fields. */
  function Entries(fields: seq<string>): Result<seq<Entry>> {
    if fields == [] then Ok([])
    else if fields[0] == [] then Entries(fields[1..])
    else
      var status, path := Take(fields[0], 2), Slashed(Drop(fields[0], 3));
      if !Moved(status) then Before([Entry(status, path, None)], Entries(fields[1..]))
      else if |fields| == 1 || fields[1] == [] then Rejected
      else Before([Entry(status, path, Some(Slashed(fields[1])))], Entries(fields[2..]))
  }

  ghost predicate ReadSoFar(fields: seq<string>, index: nat, entries: seq<Entry>) {
    index <= |fields| && Entries(fields) == Before(entries, Entries(fields[index..]))
  }

  lemma ReadNothing(fields: seq<string>)
    ensures ReadSoFar(fields, 0, [])
  {
    assert fields[0..] == fields;
    if Entries(fields).Ok? { assert [] + Entries(fields).value == Entries(fields).value; }
  }

  lemma ReadGap(fields: seq<string>, index: nat, entries: seq<Entry>)
    requires index < |fields| && fields[index] == [] && ReadSoFar(fields, index, entries)
    ensures ReadSoFar(fields, index + 1, entries)
  {
    assert fields[index..][1..] == fields[index + 1..];
  }

  lemma ReadEntry(fields: seq<string>, index: nat, entries: seq<Entry>, entry: Entry, next: nat)
    requires index < next <= |fields| && ReadSoFar(fields, index, entries)
    requires Entries(fields[index..]) == Before([entry], Entries(fields[next..]))
    ensures ReadSoFar(fields, next, entries + [entry])
  {
    var rest := Entries(fields[next..]);
    if rest.Ok? { assert entries + ([entry] + rest.value) == entries + [entry] + rest.value; }
  }

  lemma ReadEverything(fields: seq<string>, entries: seq<Entry>)
    requires ReadSoFar(fields, |fields|, entries)
    ensures Entries(fields) == Ok(entries)
  {
    assert entries + [] == entries;
  }

  /** `_status_entries`. */
  method StatusEntries(text: string) returns (r: Result<seq<Entry>>)
    ensures r == Entries(Split(text, END))
  {
    var fields := Split(text, END);
    var entries: seq<Entry> := [];
    var index := 0;
    ReadNothing(fields);
    while index < |fields|
      invariant 0 <= index <= |fields| && ReadSoFar(fields, index, entries)
    {
      var raw := fields[index];
      DropTwice(fields, index, 1);
      if raw == [] {
        ReadGap(fields, index, entries);
        index := index + 1;
        continue;
      }
      var status := Take(raw, 2);
      var entry := Entry(status, Slashed(Drop(raw, 3)), None);
      if Moved(status) {
        if index + 1 >= |fields| || fields[index + 1] == [] { return Rejected; }
        entry := entry.(source := Some(Slashed(fields[index + 1])));
        DropTwice(fields, index, 2);
        ReadEntry(fields, index, entries, entry, index + 2);
        index := index + 2;
      } else {
        ReadEntry(fields, index, entries, entry, index + 1);
        index := index + 1;
      }
      entries := entries + [entry];
    }
    ReadEverything(fields, entries);
    return Ok(entries);
  }

  /** The first two characters of a field name a rename or a copy. */
  ghost predicate NamesMove(field: string) {
    exists i :: 0 <= i < 2 && i < |field| && field[i] in {'R', 'C'}
  }

  /** How any list of fields is read, one field at a time: an empty field is skipped, a rename or copy
      takes the next field too and is refused without one, and any other field is one entry by itself. */
  lemma FieldIsRead(field: string, rest: seq<string>)
    ensures Entries([]) == Ok([])
    ensures field == [] ==> Entries([field] + rest) == Entries(rest)
    ensures field != [] && NamesMove(field) && (rest == [] || rest[0] == []) ==> Entries([field] + rest) == Rejected
    ensures field != [] && NamesMove(field) && rest != [] && rest[0] != [] ==>
              var after := Entries(rest[1..]);
              var e := Entry(Take(field, 2), Slashed(Drop(field, 3)), Some(Slashed(rest[0])));
              Entries([field] + rest) == if after.Ok? then Ok([e] + after.value) else Rejected
    ensures field != [] && !NamesMove(field) ==>
              var after := Entries(rest);
              var e := Entry(Take(field, 2), Slashed(Drop(field, 3)), None);
              Entries([field] + rest) == if after.Ok? then Ok([e] + after.value) else Rejected
  {
    var fields, status := [field] + rest, Take(field, 2);
    assert fields[1..] == rest && (rest != [] ==> fields[2..] == rest[1..]);
    assert forall i | 0 <= i < |status| :: status[i] == field[i];
    assert NamesMove(field) <==> 'R' in status || 'C' in status by {
      if NamesMove(field) {
        var i :| 0 <= i < 2 && i < |field| && field[i] in {'R', 'C'};
        assert status[i] in status;
      }
    }
  }

  /** What git writes for an entry. */
  function EntryFields(e: Entry): seq<string> {
    [e.status + " " + e.path] + if e.source.Some? then [e.source.value] else []
  }

  function Printed(entries: seq<Entry>): string {
    if entries == [] then [] else Terminated(EntryFields(entries[0]), '\0') + Printed(entries[1..])
  }

  ghost predicate Writable(e: Entry) {
    && |e.status| == 2 && END !in e.status && END !in e.path
    && (e.source.Some? <==> 'R' in e.status || 'C' in e.status)
    && (e.source.Some? ==> e.source.value != [] && END !in e.source.value)
  }

  function Normal(e: Entry): Entry {
    Entry(e.status, Slashed(e.path), if e.source.Some? then Some(Slashed(e.source.value)) else None)
  }

  function AllNormal(entries: seq<Entry>): seq<Entry> {
    seq(|entries|, i requires 0 <= i < |entries| => Normal(entries[i]))
  }

  lemma AllNormalFirst(entries: seq<Entry>)
    requires entries != []
    ensures AllNormal(entries) == [Normal(entries[0])] + AllNormal(entries[1..])
  {
  }

  lemma NothingPrinted()
    ensures Entries(Split(Printed([]), END)) == Ok(AllNormal([]))
  {
    var nothing: string := "";
    assert Printed([]) == nothing && Split(nothing, END) == [nothing];
    assert [nothing][1..] == [];
    assert AllNormal([]) == [] && Entries([nothing]) == Entries([nothing][1..]) == Ok([]);
  }

  lemma FirstEntry(e: Entry, rest: seq<string>, more: seq<Entry>)
    requires Writable(e) && Entries(rest) == Ok(more)
    ensures Entries(EntryFields(e) + rest) == Ok([Normal(e)] + more)
  {
    var field := e.status + " " + e.path;
    assert field[..2] == e.status && field[3..] == e.path;
    var fields := EntryFields(e) + rest;
    if e.source.Some? {
      assert fields[2..] == rest;
    } else {
      assert fields[1..] == rest;
    }
  }

  /** Reading what git wrote gives back every entry, renames and copies included. */
  lemma {:induction false} ReadingInvertsWriting(entries: seq<Entry>)
    requires forall i | 0 <= i < |entries| :: Writable(entries[i])
    ensures Entries(Split(Printed(entries), END)) == Ok(AllNormal(entries))
  {
    if entries == [] {
      NothingPrinted();
    } else {
      ReadingInvertsWriting(entries[1..]);
      SplitTerminated(EntryFields(entries[0]), Printed(entries[1..]), END);
      FirstEntry(entries[0], Split(Printed(entries[1..]), END), AllNormal(entries[1..]));
      AllNormalFirst(entries);
      assert Printed(entries) == Terminated(EntryFields(entries[0]), END) + Printed(entries[1..]);
    }
  }

  ghost predicate Plain(e: Entry) {
    '\\' !in e.path && (e.source.Some? ==> '\\' !in e.source.value)
  }

  /** The entries come back unchanged exactly when no path holds a backslash. */
  lemma UnchangedIffNoBackslash(entries: seq<Entry>)
    ensures AllNormal(entries) == entries <==> forall i | 0 <= i < |entries| :: Plain(entries[i])
  {
    assert forall i | 0 <= i < |entries| :: Normal(entries[i]) == entries[i] <==> Plain(entries[i]);
    if AllNormal(entries) == entries {
      assert forall i | 0 <= i < |entries| :: entries[i] == AllNormal(entries)[i] == Normal(entries[i]);
    }
  }

  type Groups = map<string, seq<Entry>>

  /** The entries whose path falls into a namespace, in the order git listed them. */
  function InNamespace(entries: seq<Entry>, namespaceOf: string -> string, name: string): seq<Entry> {
    if entries == [] then []
    else
      var e := entries[|entries| - 1];
      InNamespace(entries[..|entries| - 1], namespaceOf, name) + if namespaceOf(e.path) == name then [e] else []
  }

  ghost predicate Grouped(entries: seq<Entry>, namespaceOf: string -> string, groups: Groups) {
    && (forall name :: name in groups <==> exists e :: e in entries && namespaceOf(e.path) == name)
    && (forall name | name in groups :: groups[name] == InNamespace(entries, namespaceOf, name))
  }

  lemma {:induction false} NoneInNamespace(entries: seq<Entry>, namespaceOf: string -> string, name: string)
    requires forall e | e in entries :: namespaceOf(e.path) != name
    ensures InNamespace(entries, namespaceOf, name) == []
  {
    if entries != [] {
      assert entries[|entries| - 1] in entries;
      NoneInNamespace(entries[..|entries| - 1], namespaceOf, name);
    }
  }

  /** `groups.setdefault(name, []).append(entry)`. */
  function AddTo(groups: Groups, name: string, e: Entry): Groups {
    groups[name := (if name in groups then groups[name] else []) + [e]]
  }

  lemma InNamespaceOneMore(entries: seq<Entry>, e: Entry, namespaceOf: string -> string, name: string)
    ensures InNamespace(entries + [e], namespaceOf, name)
         == InNamespace(entries, namespaceOf, name) + if namespaceOf(e.path) == name then [e] else []
  {
    assert (entries + [e])[..|entries|] == entries;
  }

  lemma GroupedOneMore(entries: seq<Entry>, e: Entry, namespaceOf: string -> string, groups: Groups)
    requires Grouped(entries, namespaceOf, groups)
    ensures Grouped(entries + [e], namespaceOf, AddTo(groups, namespaceOf(e.path), e))
  {
    var name, more := namespaceOf(e.path), AddTo(groups, namespaceOf(e.path), e);
    if name !in groups { NoneInNamespace(entries, namespaceOf, name); }
    forall other | other in more ensures more[other] == InNamespace(entries + [e], namespaceOf, other) {
      InNamespaceOneMore(entries, e, namespaceOf, other);
    }
    forall other ensures other in more <==> exists x :: x in entries + [e] && namespaceOf(x.path) == other {
      if other in groups {
        var x :| x in entries && namespaceOf(x.path) == other;
        assert x in entries + [e];
      }
      if other == name { assert e in entries + [e]; }
    }
  }

  function ByPath(groups: Groups): Groups { map name | name in groups :: Sorted(groups[name], (e: Entry) => e.path) }

  const FROZEN: string := "FROZEN_HISTORY"

  lemma {:induction false} CountInNamespace(entries: seq<Entry>, namespaceOf: string -> string, name: string, e: Entry)
    ensures multiset(InNamespace(entries, namespaceOf, name))[e]
         == if namespaceOf(e.path) == name then multiset(entries)[e] else 0
  {
    if entries != [] {
      var n := |entries| - 1;
      TakeOneMore(entries, n);
      TakeAll(entries);
      CountInNamespace(entries[..n], namespaceOf, name, e);
    }
  }

  lemma GroupsNotEmpty(entries: seq<Entry>, namespaceOf: string -> string, listed: Groups)
    requires Grouped(entries, namespaceOf, listed)
    ensures forall name | name in listed :: listed[name] != []
  {
    forall name | name in listed ensures listed[name] != [] {
      var e :| e in entries && namespaceOf(e.path) == name;
      CountInNamespace(entries, namespaceOf, name, e);
      assert multiset(listed[name])[e] > 0;
    }
  }

  /** The frozen namespace has a group exactly when some entry falls into it. */
  lemma FrozenListed(entries: seq<Entry>, namespaceOf: string -> string, listed: Groups)
    requires Grouped(entries, namespaceOf, listed)
    ensures FROZEN in ByPath(listed) && ByPath(listed)[FROZEN] != [] <==>
              exists e :: e in entries && namespaceOf(e.path) == FROZEN
  {
    GroupsNotEmpty(entries, namespaceOf, listed);
  }

  /** The loop over the entries. */
  method GroupEntries(entries: seq<Entry>, namespaceOf: string -> string) returns (listed: Groups)
    ensures Grouped(entries, namespaceOf, listed)
  {
    listed := map[];
    for i := 0 to |entries|
      invariant Grouped(entries[..i], namespaceOf, listed)
    {
      TakeOneMore(entries, i);
      GroupedOneMore(entries[..i], entries[i], namespaceOf, listed);
      listed := AddTo(listed, namespaceOf(entries[i].path), entries[i]);
    }
    TakeAll(entries);
  }

  /** The grouping part of `build_inventory`; a move is classified by its destination alone. */
  method BuildInventory(entries: seq<Entry>, namespaceOf: string -> string)
      returns (groups: Groups, frozenModified: bool, ghost found: Groups)
    ensures Grouped(entries, namespaceOf, found) && groups == ByPath(found)
    ensures frozenModified <==> exists e :: e in entries && namespaceOf(e.path) == FROZEN
  {
    var listed := GroupEntries(entries, namespaceOf);
    found, groups := listed, ByPath(listed);
    FrozenListed(entries, namespaceOf, listed);
    frozenModified := FROZEN in groups && groups[FROZEN] != [];
  }

  /** Grouping loses and duplicates nothing: each entry is in its own namespace as often as
      git listed it, and in no other; within a namespace the paths are in order. */
  lemma GroupsPartition(entries: seq<Entry>, namespaceOf: string -> string, listed: Groups, name: string, e: Entry)
    requires Grouped(entries, namespaceOf, listed)
    ensures (if name in listed then multiset(ByPath(listed)[name])[e] else 0)
         == if namespaceOf(e.path) == name then multiset(entries)[e] else 0
    ensures name in listed ==> OrderedBy(ByPath(listed)[name], (e: Entry) => e.path)
  {
    CountInNamespace(entries, namespaceOf, name, e);
    if name in listed { SortedOrdered(listed[name], (e: Entry) => e.path); }
  }
}
