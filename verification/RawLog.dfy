/** The raw records of `git log --raw -z --no-renames`, and the map from every object of the
    history to the paths it was recorded under. */
module RawLog {
  import opened Text
  import opened Words
  import HistoryScan

  const COLON: byte := 58
  const GITLINK: Bytes := [49, 54, 48, 48, 48, 48]
  const UNAVAILABLE := HistoryScan.HISTORY_PATH_UNAVAILABLE

  datatype Side = Side(mode: Bytes, object_id: Bytes)

  datatype Change = Change(before: Side, after: Side, status: Bytes, path: string)

  /** How path bytes are read and written as text. */
  datatype Codec = Codec(read: Bytes -> Option<string>, write: string -> Bytes)

  /** `set(object_bytes) == {ord("0")}`. */
  predicate Null(object_id: Bytes) { object_id != [] && forall b | b in object_id :: b == 48 }

  predicate Ascii(s: Bytes) { forall b | b in s :: b < 128 }

  predicate Nameable(side: Side) { Null(side.object_id) || Ascii(side.object_id) }

  /** One record, from its metadata field and its path field. */
  function ReadChange(metadata: Bytes, path: Bytes, codec: Codec): Result<Change>
    requires metadata != []
  {
    var parts := WordsOf(metadata[1..], b => BytesSpace(b));
    if |parts| != 5 || codec.read(path).None? then Rejected
    else
      var change := Change(Side(parts[0], parts[2]), Side(parts[1], parts[3]), parts[4],
                           Slashed(codec.read(path).value));
      if Nameable(change.before) && Nameable(change.after) then Ok(change) else Rejected
  }

  function Before(first: seq<Change>, rest: Result<seq<Change>>): Result<seq<Change>> {
    if rest.Ok? then Ok(first + rest.value) else Rejected
  }

  /** The records in a list of NUL-separated fields; empty fields between records are skipped. */
  function Changes(fields: seq<Bytes>, codec: Codec): Result<seq<Change>> {
    if fields == [] then Ok([])
    else if fields[0] == [] then Changes(fields[1..], codec)
    else if fields[0][0] != COLON || |fields| == 1 then Rejected
    else
      var change := ReadChange(fields[0], fields[1], codec);
      if change.Rejected? then Rejected else Before([change.value], Changes(fields[2..], codec))
  }

  ghost predicate Unprintable(id: Bytes) { exists b :: b in id && b >= 128 }

  lemma NameableMeans(side: Side)
    ensures Nameable(side) <==> !Unprintable(side.object_id)
  {
  }

  /** How any list of fields is read, one record at a time: an empty field is skipped; a record starts
      with a colon and takes the next field too; it has five words and a path that can be read,
      and the identifiers are ASCII; anything else is refused. */
  lemma RecordIsRead(metadata: Bytes, rest: seq<Bytes>, codec: Codec)
    ensures Changes([], codec) == Ok([])
    ensures metadata == [] ==> Changes([metadata] + rest, codec) == Changes(rest, codec)
    ensures metadata != [] && (metadata[0] != 58 || rest == []) ==> Changes([metadata] + rest, codec) == Rejected
    ensures metadata != [] && metadata[0] == 58 && rest != [] ==>
      var words, path, after := WordsOf(metadata[1..], b => BytesSpace(b)), codec.read(rest[0]), Changes(rest[1..], codec);
      Changes([metadata] + rest, codec) ==
        if |words| != 5 || path.None? || Unprintable(words[2]) || Unprintable(words[3]) || after.Rejected? then Rejected
        else Ok([Change(Side(words[0], words[2]), Side(words[1], words[3]), words[4], Slashed(path.value))] + after.value)
  {
    var fields := [metadata] + rest;
    assert fields[1..] == rest && (rest != [] ==> fields[2..] == rest[1..]);
    if metadata != [] && metadata[0] == 58 && rest != [] {
      var words := WordsOf(metadata[1..], b => BytesSpace(b));
      if |words| == 5 {
        NameableMeans(Side(words[0], words[2]));
        NameableMeans(Side(words[1], words[3]));
      }
    }
  }

  /** The bytes that separate words, and the words of a text: between separators. */
  lemma SeparatorsAre(b: byte)
    ensures BytesSpace(b) <==> b in {9, 10, 11, 12, 13, 32}
    ensures TextSpace(b) <==> b in {9, 10, 11, 12, 13, 28, 29, 30, 31, 32}
  {
  }

  predicate Recorded(side: Side) { !Null(side.object_id) && side.mode != GITLINK }

  /** The object and path a side records, unless it is absent or a submodule. */
  function SidePair(side: Side, path: string): set<(Bytes, string)> {
    if Recorded(side) then {(side.object_id, path)} else {}
  }

  function Pairs(c: Change): set<(Bytes, string)> { SidePair(c.before, c.path) + SidePair(c.after, c.path) }

  function AllPairs(changes: seq<Change>): set<(Bytes, string)> { set c, pair | c in changes && pair in Pairs(c) :: pair }

  /** A side that is there: its identifier is not all zeros. */
  ghost predicate Exists(id: Bytes) { id == [] || exists b :: b in id && b != 48 }

  lemma ExistsUnlessNull(id: Bytes)
    ensures Exists(id) <==> !Null(id)
  {
  }

  /** Which objects are recorded under which paths: those that a record names on either side, unless
      the side is a submodule (mode 160000) or is not there. */
  lemma PairsAre(changes: seq<Change>, id: Bytes, path: string)
    ensures (id, path) in AllPairs(changes) <==>
      exists c, side :: c in changes && (side == c.before || side == c.after) && c.path == path
        && side.object_id == id && Exists(id) && side.mode != [49, 54, 48, 48, 48, 48]
  {
    ExistsUnlessNull(id);
    if c, side :| c in changes && (side == c.before || side == c.after) && c.path == path
                  && side.object_id == id && Exists(id) && side.mode != [49, 54, 48, 48, 48, 48]
    {
      assert (id, path) in Pairs(c);
    }
    if (id, path) in AllPairs(changes) {
      var c :| c in changes && (id, path) in Pairs(c);
      if (id, path) in SidePair(c.before, path) {
        assert c.before.object_id == id;
      } else {
        assert c.after.object_id == id;
      }
    }
  }

  type PathMap = map<Bytes, set<string>>

  /** The map knows exactly the paths recorded, and holds no object without one. */
  ghost predicate Tracks(objects: PathMap, pairs: set<(Bytes, string)>) {
    && (forall o, p :: o in objects && p in objects[o] <==> (o, p) in pairs)
    && (forall o | o in objects :: objects[o] != {})
  }

  datatype Gitlink = Gitlink(object_id: Bytes, path: string)

  function SideGitlinks(side: Side, path: string): seq<Gitlink> {
    if !Null(side.object_id) && side.mode == GITLINK then [Gitlink(side.object_id, path)] else []
  }

  function Gitlinks(changes: seq<Change>): seq<Gitlink> {
    if changes == [] then []
    else
      var c := changes[|changes| - 1];
      Gitlinks(changes[..|changes| - 1]) + SideGitlinks(c.before, c.path) + SideGitlinks(c.after, c.path)
  }

  /** The submodules are the sides of mode 160000 that are there. */
  lemma {:induction false} GitlinksAre(changes: seq<Change>, g: Gitlink)
    ensures g in Gitlinks(changes) <==>
      exists c, side :: c in changes && (side == c.before || side == c.after)
        && g == Gitlink(side.object_id, c.path) && Exists(side.object_id) && side.mode == [49, 54, 48, 48, 48, 48]
  {
    if changes != [] {
      var init, last := changes[..|changes| - 1], changes[|changes| - 1];
      GitlinksAre(init, g);
      assert changes == init + [last];
      ExistsUnlessNull(last.before.object_id);
      ExistsUnlessNull(last.after.object_id);
      assert forall c :: c in changes <==> c in init || c == last;
    }
  }

  /** `objects.setdefault(object_id, set()).add(path)` for one side of a record. */
  function AddSide(objects: PathMap, side: Side, path: string): PathMap {
    if !Recorded(side) then objects
    else
      var known := if side.object_id in objects then objects[side.object_id] else {};
      objects[side.object_id := known + {path}]
  }

  lemma AddedSide(objects: PathMap, pairs: set<(Bytes, string)>, side: Side, path: string)
    requires Tracks(objects, pairs)
    ensures Tracks(AddSide(objects, side, path), pairs + SidePair(side, path))
  {
  }

  lemma OneMoreChange(changes: seq<Change>, c: Change)
    ensures AllPairs(changes + [c]) == AllPairs(changes) + Pairs(c)
    ensures Gitlinks(changes + [c])
         == Gitlinks(changes) + SideGitlinks(c.before, c.path) + SideGitlinks(c.after, c.path)
  {
    assert forall x :: x in changes + [c] <==> x in changes || x == c;
    assert (changes + [c])[..|changes|] == changes;
  }

  lemma AddedSides(objects: PathMap, changes: seq<Change>, c: Change)
    requires Tracks(objects, AllPairs(changes))
    ensures Tracks(AddSide(AddSide(objects, c.before, c.path), c.after, c.path), AllPairs(changes + [c]))
  {
    var pairs := AllPairs(changes);
    AddedSide(objects, pairs, c.before, c.path);
    AddedSide(AddSide(objects, c.before, c.path), pairs + SidePair(c.before, c.path), c.after, c.path);
    OneMoreChange(changes, c);
    assert pairs + SidePair(c.before, c.path) + SidePair(c.after, c.path) == pairs + Pairs(c);
  }

  /** What the loop has read, followed by what it has still to read. */
  ghost predicate ReadSoFar(fields: seq<Bytes>, codec: Codec, index: nat, changes: seq<Change>) {
    index <= |fields| && Changes(fields, codec) == Before(changes, Changes(fields[index..], codec))
  }

  lemma ReadNothing(fields: seq<Bytes>, codec: Codec)
    ensures ReadSoFar(fields, codec, 0, [])
  {
    assert fields[0..] == fields;
    var rest := Changes(fields, codec);
    if rest.Ok? { assert [] + rest.value == rest.value; }
  }

  lemma ReadGap(fields: seq<Bytes>, codec: Codec, index: nat, changes: seq<Change>)
    requires index < |fields| && fields[index] == [] && ReadSoFar(fields, codec, index, changes)
    ensures ReadSoFar(fields, codec, index + 1, changes)
  {
    assert fields[index..][1..] == fields[index + 1..];
  }

  lemma ReadRecord(fields: seq<Bytes>, codec: Codec, index: nat, changes: seq<Change>, c: Change)
    requires index + 1 < |fields| && fields[index] != [] && fields[index][0] == COLON
    requires ReadSoFar(fields, codec, index, changes)
    requires ReadChange(fields[index], fields[index + 1], codec) == Ok(c)
    ensures ReadSoFar(fields, codec, index + 2, changes + [c])
  {
    var rest := Changes(fields[index + 2..], codec);
    assert fields[index..][2..] == fields[index + 2..];
    if rest.Ok? { assert changes + ([c] + rest.value) == changes + [c] + rest.value; }
  }

  datatype Inventory = Inventory(objects: PathMap, gitlinks: seq<Gitlink>)

  lemma ReadEverything(fields: seq<Bytes>, codec: Codec, changes: seq<Change>)
    requires ReadSoFar(fields, codec, |fields|, changes)
    ensures Changes(fields, codec) == Ok(changes)
  {
    assert changes + [] == changes;
  }

  method ReadChanges(raw: Bytes, codec: Codec) returns (r: Result<Inventory>, ghost changes: seq<Change>)
    ensures r.Rejected? ==> Changes(Split(raw, NUL), codec).Rejected?
    ensures r.Ok? ==> Changes(Split(raw, NUL), codec) == Ok(changes)
    ensures r.Ok? ==> Tracks(r.value.objects, AllPairs(changes)) && r.value.gitlinks == Gitlinks(changes)
  {
    var objects: PathMap := map[];
    var gitlinks: seq<Gitlink> := [];
    changes := [];
    var fields := Split(raw, NUL);
    var index := 0;
    ReadNothing(fields, codec);
    while index < |fields|
      invariant 0 <= index <= |fields| && ReadSoFar(fields, codec, index, changes)
      invariant Tracks(objects, AllPairs(changes)) && gitlinks == Gitlinks(changes)
    {
      var metadata := fields[index];
      if metadata == [] {
        ReadGap(fields, codec, index, changes);
        index := index + 1;
        continue;
      }
      if metadata[0] != COLON || index + 1 >= |fields| { return Rejected, changes; }
      var change := ReadChange(metadata, fields[index + 1], codec);
      if change.Rejected? { return Rejected, changes; }
      var c := change.value;
      ReadRecord(fields, codec, index, changes, c);
      AddedSides(objects, changes, c);
      OneMoreChange(changes, c);
      objects := AddSide(objects, c.before, c.path);
      objects := AddSide(objects, c.after, c.path);
      gitlinks := gitlinks + SideGitlinks(c.before, c.path) + SideGitlinks(c.after, c.path);
      changes := changes + [c];
      index := index + 2;
    }
    ReadEverything(fields, codec, changes);
    return Ok(Inventory(objects, gitlinks)), changes;
  }

  predicate ObjectName(s: Bytes) { 40 <= |s| <= 64 && forall b | b in s :: Digit(b) || 97 <= b <= 102 }

  predicate ReachableListed(raw: Bytes) { forall f | f in Split(raw, NUL) :: f == [] || ObjectName(f) }

  /** The identifiers `git rev-list` printed. */
  function Reachable(raw: Bytes): set<Bytes> { set f | f in Split(raw, NUL) && f != [] }

  lemma ObjectNameMeans(f: Bytes)
    ensures ObjectName(f) <==> 40 <= |f| <= 64 && forall i | 0 <= i < |f| :: 48 <= f[i] <= 57 || 97 <= f[i] <= 102
  {
    if ObjectName(f) { assert forall i | 0 <= i < |f| :: f[i] in f; }
  }

  /** The listing must hold hexadecimal identifiers of 40 to 64 digits, apart from empty fields, and
      all of them are reachable. */
  lemma ReachableMeans(raw: Bytes)
    ensures ReachableListed(raw) <==>
      forall f: Bytes | f in Split(raw, 0) && f != [] ::
        40 <= |f| <= 64 && forall i | 0 <= i < |f| :: 48 <= f[i] <= 57 || 97 <= f[i] <= 102
    ensures forall id :: id in Reachable(raw) <==> id in Split(raw, 0) && id != []
  {
    forall f: Bytes | f in Split(raw, 0) { ObjectNameMeans(f); }
  }

  method ReadReachable(raw: Bytes, objects: PathMap) returns (r: Result<PathMap>)
    ensures r.Ok? <==> ReachableListed(raw)
    ensures r.Ok? ==> r.value.Keys == objects.Keys + Reachable(raw)
    ensures r.Ok? ==> forall o | o in r.value :: r.value[o] == if o in objects then objects[o] else {}
  {
    var fields := Split(raw, NUL);
    var more := objects;
    for i := 0 to |fields|
      invariant forall f | f in fields[..i] :: f == [] || ObjectName(f)
      invariant more.Keys == objects.Keys + set f | f in fields[..i] && f != []
      invariant forall o | o in more :: more[o] == if o in objects then objects[o] else {}
    {
      TakeOneMore(fields, i);
      if fields[i] == [] { continue; }
      if !ObjectName(fields[i]) { return Rejected; }
      if fields[i] !in more { more := more[fields[i] := {}]; }
    }
    TakeAll(fields);
    return Ok(more);
  }

  /** The paths recorded for an object, and the placeholder when there is none. */
  ghost predicate Inventoried(objects: PathMap, pairs: set<(Bytes, string)>, reachable: set<Bytes>) {
    && (forall o :: o in objects <==> o in reachable || exists p :: (o, p) in pairs)
    && forall o, p :: o in objects && p in objects[o] <==>
         (o, p) in pairs || (o in reachable && p == UNAVAILABLE && forall q :: (o, q) !in pairs)
  }

  lemma FilledIn(recorded: PathMap, pairs: set<(Bytes, string)>, reachable: set<Bytes>, known: PathMap, objects: PathMap)
    requires Tracks(recorded, pairs)
    requires known.Keys == recorded.Keys + reachable
    requires forall o | o in known :: known[o] == if o in recorded then recorded[o] else {}
    requires objects.Keys == known.Keys
    requires forall o | o in objects :: objects[o] == if known[o] == {} then {UNAVAILABLE} else known[o]
    ensures Inventoried(objects, pairs, reachable)
  {
    forall o ensures o in recorded <==> exists p :: (o, p) in pairs {
      if o in recorded {
        var p :| p in recorded[o];
        assert (o, p) in pairs;
      }
    }
  }

  /** `_history_inventory`. */
  method HistoryInventory(raw: Bytes, reachable: Bytes, codec: Codec) returns (r: Result<Inventory>, ghost changes: seq<Change>)
    ensures r.Ok? <==> Changes(Split(raw, NUL), codec).Ok? && ReachableListed(reachable)
    ensures r.Ok? ==> Changes(Split(raw, NUL), codec) == Ok(changes)
    ensures r.Ok? ==> Inventoried(r.value.objects, AllPairs(changes), Reachable(reachable))
    ensures r.Ok? ==> r.value.gitlinks == Gitlinks(changes)
  {
    var read;
    read, changes := ReadChanges(raw, codec);
    if read.Rejected? { return Rejected, changes; }
    var known := ReadReachable(reachable, read.value.objects);
    if known.Rejected? { return Rejected, changes; }
    var objects := map o | o in known.value :: if known.value[o] == {} then {UNAVAILABLE} else known.value[o];
    FilledIn(read.value.objects, AllPairs(changes), Reachable(reachable), known.value, objects);
    return Ok(Inventory(objects, read.value.gitlinks)), changes;
  }

  /** No object is left without a path, and the placeholder marks the objects without a record;
      it also appears for a recorded path that happens to be spelled like it. */
  lemma PlaceholderMarksUnrecorded(objects: PathMap, pairs: set<(Bytes, string)>, reachable: set<Bytes>, o: Bytes)
    requires Inventoried(objects, pairs, reachable) && o in objects
    ensures objects[o] != {}
    ensures UNAVAILABLE in objects[o] <==> (forall p :: (o, p) !in pairs) || (o, UNAVAILABLE) in pairs
  {
    if p :| (o, p) in pairs {
      assert p in objects[o];
    } else {
      assert UNAVAILABLE in objects[o];
    }
  }

  /** What git writes: records, with extra separators anywhere between them. */
  datatype Item = Gap | Record(change: Change)

  function Metadata(c: Change): Bytes {
    [COLON] + Spaced([c.before.mode, c.after.mode, c.before.object_id, c.after.object_id, c.status])
  }

  function ItemFields(item: Item, codec: Codec): seq<Bytes> {
    match item
    case Gap => [[]]
    case Record(c) => [Metadata(c), codec.write(c.path)]
  }

  function Printed(items: seq<Item>, codec: Codec): Bytes {
    if items == [] then []
    else Terminated(ItemFields(items[0], codec), NUL) + Printed(items[1..], codec)
  }

  function ItemRecords(item: Item): seq<Change> {
    match item
    case Gap => []
    case Record(c) => [c.(path := Slashed(c.path))]
  }

  function Records(items: seq<Item>): seq<Change> {
    if items == [] then [] else ItemRecords(items[0]) + Records(items[1..])
  }

  /** A word without NUL or white space. */
  ghost predicate Word(s: Bytes) { s != [] && forall b | b in s :: b != 0 && b != 32 && !(9 <= b <= 13) }

  /** An object identifier, in hexadecimal. */
  ghost predicate HexWord(s: Bytes) { s != [] && forall b | b in s :: 48 <= b <= 57 || 97 <= b <= 102 }

  ghost predicate Writable(c: Change, codec: Codec) {
    && Word(c.before.mode) && Word(c.after.mode) && Word(c.status)
    && HexWord(c.before.object_id) && HexWord(c.after.object_id)
    && NUL !in codec.write(c.path) && codec.read(codec.write(c.path)) == Some(c.path)
  }

  ghost predicate WritableItem(item: Item, codec: Codec) { item.Gap? || Writable(item.change, codec) }

  lemma {:induction false} SpacedWithoutNul(words: seq<Bytes>)
    requires forall w | w in words :: NUL !in w
    ensures NUL !in Spaced(words)
  {
    if |words| > 1 { SpacedWithoutNul(words[1..]); }
  }

  lemma WordsAreRead(words: seq<Bytes>)
    requires words != [] && forall i | 0 <= i < |words| :: Word(words[i])
    ensures NUL !in Spaced(words) && WordsOf(Spaced(words), b => BytesSpace(b)) == words
  {
    forall w | w in words ensures Solid(w, b => BytesSpace(b)) && NUL !in w {
      var i :| 0 <= i < |words| && words[i] == w;
    }
    WordsOfSpaced(words, [], b => BytesSpace(b));
    assert Spaced(words) + [] == Spaced(words);
    SpacedWithoutNul(words);
  }

  lemma HexIsWord(s: Bytes)
    requires HexWord(s)
    ensures Word(s) && !Unprintable(s)
  {
  }

  lemma MetadataWords(c: Change, codec: Codec)
    requires Writable(c, codec)
    ensures NUL !in Metadata(c) && Nameable(c.before) && Nameable(c.after)
    ensures WordsOf(Metadata(c)[1..], b => BytesSpace(b))
         == [c.before.mode, c.after.mode, c.before.object_id, c.after.object_id, c.status]
  {
    var words := [c.before.mode, c.after.mode, c.before.object_id, c.after.object_id, c.status];
    HexIsWord(c.before.object_id);
    HexIsWord(c.after.object_id);
    NameableMeans(c.before);
    NameableMeans(c.after);
    WordsAreRead(words);
    assert Metadata(c)[1..] == Spaced(words);
  }

  lemma MetadataIsRead(c: Change, codec: Codec)
    requires Writable(c, codec)
    ensures NUL !in Metadata(c)
    ensures ReadChange(Metadata(c), codec.write(c.path), codec) == Ok(c.(path := Slashed(c.path)))
  {
    MetadataWords(c, codec);
  }

  lemma FirstItem(item: Item, rest: seq<Bytes>, codec: Codec, more: seq<Change>)
    requires WritableItem(item, codec) && Changes(rest, codec) == Ok(more)
    ensures Changes(ItemFields(item, codec) + rest, codec) == Ok(ItemRecords(item) + more)
  {
    var fields := ItemFields(item, codec) + rest;
    if item.Gap? {
      assert fields[1..] == rest && [] + more == more;
    } else {
      MetadataIsRead(item.change, codec);
      assert fields[2..] == rest;
    }
  }

  /** Reading what git wrote gives back every record, its path's backslashes turned to slashes. */
  lemma {:induction false} ReadingInvertsWriting(items: seq<Item>, codec: Codec)
    requires forall i | 0 <= i < |items| :: WritableItem(items[i], codec)
    ensures Changes(Split(Printed(items, codec), NUL), codec) == Ok(Records(items))
  {
    if items == [] {
      assert Split<byte>([], NUL) == [[]];
      assert Changes([[]], codec) == Changes([[]][1..], codec);
    } else {
      var rest := Split(Printed(items[1..], codec), NUL);
      var fields := ItemFields(items[0], codec);
      ReadingInvertsWriting(items[1..], codec);
      if items[0].Record? { MetadataIsRead(items[0].change, codec); }
      SplitTerminated(fields, Printed(items[1..], codec), NUL);
      FirstItem(items[0], rest, codec, Records(items[1..]));
    }
  }

  /** A rename record's second path is taken for the next record's metadata: it is refused
      unless that path is empty or starts with a colon. */
  lemma RenameRecordIsRefused(c: Change, target: Bytes, rest: seq<Bytes>, codec: Codec)
    requires Writable(c, codec) && target != [] && target[0] != COLON
    ensures Changes([Metadata(c), codec.write(c.path), target] + rest, codec).Rejected?
  {
    var fields := [Metadata(c), codec.write(c.path), target] + rest;
    MetadataIsRead(c, codec);
    assert fields[2..] == [target] + rest;
    assert ([target] + rest)[0] == target;
  }

  // ---------------------------------------------------------------- a record the placeholder hides

  function Repeated(b: byte, n: nat): Bytes { seq(n, _ => b) }

  const SAMPLE: Bytes := Repeated(97, 40)

  /** The record of a file that was added. */
  function Addition(path: string): Change {
    Change(Side(Repeated(48, 6), Repeated(48, 40)), Side([49, 48, 48, 54, 52, 52], SAMPLE), [65], path)
  }

  lemma AdditionIsWritable(path: string, codec: Codec)
    requires NUL !in codec.write(path) && codec.read(codec.write(path)) == Some(path)
    ensures Writable(Addition(path), codec) && Recorded(Addition(path).after) && !Recorded(Addition(path).before)
  {
    assert SAMPLE[0] == 97;
    assert 97 in SAMPLE;
  }

  lemma UnavailableSlashless()
    ensures '\\' !in UNAVAILABLE
  {
  }

  lemma OneRecordRead(c: Change, codec: Codec)
    requires Writable(c, codec) && '\\' !in c.path
    ensures Changes(Split(Printed([Record(c)], codec), NUL), codec) == Ok([c])
  {
    var items := [Record(c)];
    ReadingInvertsWriting(items, codec);
    assert items[1..] == [];
    assert ItemRecords(items[0]) == [c];
    assert Records(items) == [c] + [] == [c];
  }

  lemma OnePair(c: Change)
    requires Recorded(c.after) && !Recorded(c.before)
    ensures AllPairs([c]) == {(c.after.object_id, c.path)}
  {
    OneMoreChange([], c);
    assert [] + [c] == [c] && AllPairs([]) == {};
  }

  /** An object recorded under the placeholder's spelling is listed like one without a record. */
  lemma SpelledLikePlaceholder(objects: PathMap, o: Bytes)
    ensures Inventoried(objects, {(o, UNAVAILABLE)}, {o}) <==> Inventoried(objects, {}, {o})
  {
    var one, none: set<(Bytes, string)> := {(o, UNAVAILABLE)}, {};
    if Inventoried(objects, one, {o}) {
      forall x ensures x in objects <==> x in {o} || exists p :: (x, p) in none {}
      forall x, p ensures x in objects && p in objects[x] <==>
          (x, p) in none || (x in {o} && p == UNAVAILABLE && forall q :: (x, q) !in none) {}
    }
  }

  /** The log with this one record is read back, and its object's inventory is then the one of
      a log without any record of it. */
  lemma PlaceholderHidesRecord(codec: Codec, objects: PathMap)
    requires NUL !in codec.write(UNAVAILABLE) && codec.read(codec.write(UNAVAILABLE)) == Some(UNAVAILABLE)
    ensures Changes(Split(Printed([Record(Addition(UNAVAILABLE))], codec), NUL), codec) == Ok([Addition(UNAVAILABLE)])
    ensures AllPairs([Addition(UNAVAILABLE)]) == {(SAMPLE, UNAVAILABLE)}
    ensures Inventoried(objects, {(SAMPLE, UNAVAILABLE)}, {SAMPLE}) <==> Inventoried(objects, {}, {SAMPLE})
  {
    var c := Addition(UNAVAILABLE);
    AdditionIsWritable(UNAVAILABLE, codec);
    UnavailableSlashless();
    OneRecordRead(c, codec);
    OnePair(c);
    SpelledLikePlaceholder(objects, SAMPLE);
  }
}
