/** A dependency directory with internal directory links, as `_dependency_inventory` sees it,
    and its mathematical unfolding: what each trail of entry names leads to when links are
    followed.  Directories nest inductively; a link holds the resolved place it points at. */
module DependencyTree {
  import opened Text

  /** Where a directory really is: plain entry names below the root. */
  type Location = seq<string>

  datatype Entry = Entry(name: string, node: Node)

  datatype Node =
    | File(data: Bytes)
    | Dir(entries: seq<Entry>)
    | Link(target: Option<Location>)  // None: broken, or resolved outside the root
    | Special                         // neither directory nor regular file

  const IGNORE_DIRS: set<string> :=
    {"__pycache__", ".pytest_cache", ".ruff_cache", ".cache", ".vite", ".vite-temp", ".tmp"}

  /** What the walk takes from outside: the file hash and the private-name rule. */
  datatype Rules = Rules(sha: Bytes -> string, isPrivate: string -> bool)

  /** `safe_relative`. */
  predicate SafeRelative(name: string) {
    && name != ""
    && (forall c | c in name :: c !in "\\:<>\"|?*" && c as int >= 32)
    && forall part | part in Split(name, '/') ::
         part != "" && part != "." && part != ".." && part[|part| - 1] !in ". "
  }

  /** Which segments a safe relative name may have. */
  predicate SafeSegment(part: string) {
    && part !in {"", ".", ".."} && part[|part| - 1] != '.' && part[|part| - 1] != ' '
    && forall c | c in part :: c !in {'\\', ':', '<', '>', '"', '|', '?', '*'} && c >= ' '
  }

  lemma SafeCharacters(parts: seq<string>, c: char)
    requires c in Join(parts, '/') && forall part | part in parts :: SafeSegment(part)
    ensures c !in "\\:<>\"|?*" && c as int >= 32
  {
    JoinedCharacters(parts, '/');
  }

  lemma SafeSegmentOf(parts: seq<string>, part: string)
    requires part in parts && SafeRelative(Join(parts, '/')) && Split(Join(parts, '/'), '/') == parts
    ensures SafeSegment(part)
  {
    JoinedCharacters(parts, '/');
    forall c | c in part ensures c !in {'\\', ':', '<', '>', '"', '|', '?', '*'} && c >= ' ' {
      assert c in Join(parts, '/');
    }
  }

  /** A relative name is safe exactly when all its segments are. */
  lemma SafeBySegments(parts: seq<string>)
    requires parts != [] && forall part | part in parts :: '/' !in part
    ensures SafeRelative(Join(parts, '/')) <==> forall part | part in parts :: SafeSegment(part)
  {
    SplitJoin(parts, '/');
    if forall part | part in parts :: SafeSegment(part) {
      JoinedCharacters(parts, '/');
      assert parts[0] in parts && parts[0][0] in Join(parts, '/');
      forall c | c in Join(parts, '/') ensures c !in "\\:<>\"|?*" && c as int >= 32 { SafeCharacters(parts, c); }
    }
    if SafeRelative(Join(parts, '/')) {
      forall part | part in parts ensures SafeSegment(part) { SafeSegmentOf(parts, part); }
    }
  }

  // ---------------------------------------------------------------- the tree on disk

  predicate DistinctNames(entries: seq<Entry>) {
    forall i, j :: 0 <= i < j < |entries| ==> entries[i].name != entries[j].name
  }

  /** A listing without repeated or composite entry names. */
  predicate GoodListing(entries: seq<Entry>) {
    DistinctNames(entries) && forall e | e in entries :: '/' !in e.name
  }

  function Find(entries: seq<Entry>, name: string): Option<Node> {
    if entries == [] then None
    else if entries[0].name == name then Some(entries[0].node)
    else Find(entries[1..], name)
  }

  lemma {:induction false} FindEntry(entries: seq<Entry>, i: nat)
    requires DistinctNames(entries) && i < |entries|
    ensures Find(entries, entries[i].name) == Some(entries[i].node)
  {
    if i > 0 { FindEntry(entries[1..], i - 1); }
  }

  lemma {:induction false} FindIndex(entries: seq<Entry>, name: string) returns (i: nat)
    requires Find(entries, name).Some?
    ensures i < |entries| && entries[i] == Entry(name, Find(entries, name).value)
  {
    if entries[0].name == name {
      i := 0;
    } else {
      i := FindIndex(entries[1..], name);
      i := i + 1;
    }
  }

  /** Descends through plain directories only. */
  function Lookup(tree: Node, at: Location): Option<Node>
    decreases |at|
  {
    if at == [] then Some(tree)
    else if !tree.Dir? then None
    else
      match Find(tree.entries, at[0])
      case None => None
      case Some(child) => Lookup(child, at[1..])
  }

  predicate IsDir(tree: Node, at: Location) {
    Lookup(tree, at).Some? && Lookup(tree, at).value.Dir?
  }

  function Entries(tree: Node, at: Location): seq<Entry>
    requires IsDir(tree, at)
  {
    Lookup(tree, at).value.entries
  }

  /** What a file system guarantees of every directory in it. */
  ghost predicate WellFormed(tree: Node) {
    forall at | IsDir(tree, at) :: GoodListing(Entries(tree, at))
  }

  lemma {:induction false} LookupSnoc(tree: Node, at: Location, name: string)
    requires IsDir(tree, at)
    ensures Lookup(tree, at + [name]) == Find(Entries(tree, at), name)
    decreases |at|
  {
    if at == [] {
      assert (at + [name])[1..] == [];
    } else {
      assert (at + [name])[1..] == at[1..] + [name];
      LookupSnoc(Find(tree.entries, at[0]).value, at[1..], name);
    }
  }

  lemma LookupChild(tree: Node, at: Location, i: nat)
    requires WellFormed(tree) && IsDir(tree, at) && i < |Entries(tree, at)|
    ensures Find(Entries(tree, at), Entries(tree, at)[i].name) == Some(Entries(tree, at)[i].node)
    ensures Lookup(tree, at + [Entries(tree, at)[i].name]) == Some(Entries(tree, at)[i].node)
  {
    LookupSnoc(tree, at, Entries(tree, at)[i].name);
    FindEntry(Entries(tree, at), i);
  }

  lemma ChildWellFormed(tree: Node, name: string)
    requires WellFormed(tree) && tree.Dir? && Find(tree.entries, name).Some?
    ensures WellFormed(Find(tree.entries, name).value)
  {
    var child := Find(tree.entries, name).value;
    forall at | IsDir(child, at) ensures GoodListing(Entries(child, at)) {
      assert ([name] + at)[1..] == at;
      assert IsDir(tree, [name] + at);
    }
  }

  /** All directories below and including `tree`. */
  ghost function Dirs(tree: Node): set<Location>
    decreases tree
  {
    if !tree.Dir? then {} else {[]} + DirsIn(tree.entries)
  }

  ghost function DirsIn(entries: seq<Entry>): set<Location>
    decreases entries
  {
    if entries == [] then {}
    else (set l | l in Dirs(entries[0].node) :: [entries[0].name] + l) + DirsIn(entries[1..])
  }

  lemma {:induction false} DirsInContains(entries: seq<Entry>, e: Entry, l: Location)
    requires e in entries && l in Dirs(e.node)
    ensures [e.name] + l in DirsIn(entries)
  {
    if entries[0] != e { DirsInContains(entries[1..], e, l); }
  }

  lemma {:induction false} DirsContains(tree: Node, at: Location)
    requires IsDir(tree, at)
    ensures at in Dirs(tree)
    decreases |at|
  {
    if at != [] {
      var child := Find(tree.entries, at[0]).value;
      var i := FindIndex(tree.entries, at[0]);
      DirsContains(child, at[1..]);
      DirsInContains(tree.entries, Entry(at[0], child), at[1..]);
      assert at == [at[0]] + at[1..];
    }
  }

  // ---------------------------------------------------------------- the unfolding

  /** A link the walk may materialise: it resolves to a directory inside the root. */
  predicate GoodLink(tree: Node, node: Node) {
    node.Link? && node.target.Some? && IsDir(tree, node.target.value)
  }

  /** The entry a directory shows under a name that is not ignored. */
  function Shown(tree: Node, at: Location, name: string): Option<Node> {
    if name in IGNORE_DIRS || !IsDir(tree, at) then None else Find(Entries(tree, at), name)
  }

  /** One step along the unfolding: a link continues at its target. */
  function Follow(tree: Node, at: Location, name: string): Option<Location> {
    match Shown(tree, at, name)
    case None => None
    case Some(node) =>
      if !node.Link? then Some(at + [name]) else if GoodLink(tree, node) then node.target else None
  }

  /** Where a trail of names ends. */
  function Walk(tree: Node, at: Location, names: seq<string>): Option<Location>
    decreases |names|
  {
    if names == [] then Some(at)
    else
      match Follow(tree, at, names[0])
      case None => None
      case Some(next) => Walk(tree, next, names[1..])
  }

  /** The directory entry a non-empty trail ends at, before a final link is followed. */
  function Reach(tree: Node, at: Location, names: seq<string>): Option<Node>
    requires names != []
    decreases |names|
  {
    if |names| == 1 then Shown(tree, at, names[0])
    else
      match Follow(tree, at, names[0])
      case None => None
      case Some(next) => Reach(tree, next, names[1..])
  }

  lemma {:induction false} WalkAppend(tree: Node, at: Location, a: seq<string>, b: seq<string>)
    requires Walk(tree, at, a).Some?
    ensures Walk(tree, at, a + b) == Walk(tree, Walk(tree, at, a).value, b)
    decreases |a|
  {
    if a == [] {
      assert a + b == b;
    } else {
      assert (a + b)[1..] == a[1..] + b;
      WalkAppend(tree, Follow(tree, at, a[0]).value, a[1..], b);
    }
  }

  lemma {:induction false} ReachAppend(tree: Node, at: Location, a: seq<string>, b: seq<string>)
    requires Walk(tree, at, a).Some? && b != []
    ensures Reach(tree, at, a + b) == Reach(tree, Walk(tree, at, a).value, b)
    decreases |a|
  {
    if a == [] {
      assert a + b == b;
    } else {
      assert (a + b)[1..] == a[1..] + b;
      ReachAppend(tree, Follow(tree, at, a[0]).value, a[1..], b);
    }
  }

  function PathText(trail: seq<string>): string { Join(trail, '/') }

  /** A shown entry the walk refuses: unsafe or private name, special file, or a link that
      is broken, leaves the root, or does not point at a directory. */
  predicate Refused(tree: Node, rules: Rules, trail: seq<string>, node: Node) {
    || !SafeRelative(PathText(trail))
    || node.Special?
    || (node.File? && rules.isPrivate(PathText(trail)))
    || (node.Link? && !GoodLink(tree, node))
  }

  ghost predicate Unacceptable(tree: Node, rules: Rules, trail: seq<string>) {
    && trail != []
    && Reach(tree, [], trail).Some?
    && Refused(tree, rules, trail, Reach(tree, [], trail).value)
  }

  ghost predicate HasUnacceptable(tree: Node, rules: Rules) {
    exists trail :: Unacceptable(tree, rules, trail)
  }

  /** A trail from the root to a place from which more names lead back to the same place. */
  ghost predicate Closes(tree: Node, trail: seq<string>, loop: seq<string>) {
    && loop != []
    && Walk(tree, [], trail).Some?
    && Walk(tree, Walk(tree, [], trail).value, loop) == Walk(tree, [], trail)
  }

  ghost predicate Cyclic(tree: Node) {
    exists trail, loop :: Closes(tree, trail, loop)
  }

  /** The unfolding shows a regular file with these bytes at the trail. */
  predicate UnfoldsTo(tree: Node, trail: seq<string>, data: Bytes) {
    trail != [] && Reach(tree, [], trail) == Some(File(data))
  }

  ghost predicate UnfoldedFiles(tree: Node, trails: set<seq<string>>) {
    forall t :: t in trails ==> t != [] && Reach(tree, [], t).Some? && Reach(tree, [], t).value.File?
  }
}
