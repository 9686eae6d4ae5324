/** Writing a file into a directory tree, with the directories above it, and what that leaves
    alone. */
module TreeWrite {
  import opened Text
  import opened DependencyTree

  /** An entry of that name is replaced, a new one comes last. */
  function SetEntry(entries: seq<Entry>, name: string, node: Node): seq<Entry> {
    if entries == [] then [Entry(name, node)]
    else if entries[0].name == name then [Entry(name, node)] + entries[1..]
    else [entries[0]] + SetEntry(entries[1..], name, node)
  }

  /** The tree with a file of these bytes at `at`. */
  function Put(tree: Node, at: Location, data: Bytes): Node
    decreases |at|
  {
    if at == [] then File(data)
    else
      var entries := if tree.Dir? then tree.entries else [];
      Dir(SetEntry(entries, at[0], Put(Find(entries, at[0]).GetOr(Dir([])), at[1..], data)))
  }

  /** Nothing but directories above, and at most a file in place. */
  predicate Writable(tree: Node, at: Location) {
    && at != []
    && (forall k | 0 <= k < |at| :: Lookup(tree, at[..k]).None? || IsDir(tree, at[..k]))
    && (Lookup(tree, at).None? || Lookup(tree, at).value.File?)
  }

  // ---------------------------------------------------------------- what is found afterwards

  lemma {:induction false} FindSetEntry(entries: seq<Entry>, name: string, node: Node, other: string)
    ensures Find(SetEntry(entries, name, node), other) == if other == name then Some(node) else Find(entries, other)
  {
    if entries != [] && entries[0].name != name { FindSetEntry(entries[1..], name, node, other); }
  }

  lemma NothingInEmpty(at: Location)
    requires at != []
    ensures Lookup(Dir([]), at).None? && Writable(Dir([]), at)
  {
    forall k | 0 <= k < |at| ensures Lookup(Dir([]), at[..k]).None? || IsDir(Dir([]), at[..k]) {}
  }

  /** Where the file goes, seen from the directory on the way to it. */
  lemma WritableBelow(tree: Node, at: Location)
    requires Writable(tree, at) && |at| > 1
    ensures tree.Dir? && Writable(Find(tree.entries, at[0]).GetOr(Dir([])), at[1..])
  {
    assert Lookup(tree, at[..0]) == Some(tree);
    if Find(tree.entries, at[0]).Some? {
      var child := Find(tree.entries, at[0]).value;
      forall k | 0 <= k < |at| - 1 ensures Lookup(child, at[1..][..k]).None? || IsDir(child, at[1..][..k]) {
        assert at[..k + 1][1..] == at[1..][..k];
      }
    } else {
      NothingInEmpty(at[1..]);
    }
  }

  /** What `x` leads to once a file is put at `at`. */
  predicate PutAt(tree: Node, put: Node, at: Location, data: Bytes, x: Location) {
    if x == at then Lookup(put, x) == Some(File(data))
    else if x < at then IsDir(put, x)
    else Lookup(put, x) == Lookup(tree, x)
  }

  lemma {:induction false} LookupPut(tree: Node, at: Location, data: Bytes, x: Location)
    requires Writable(tree, at)
    ensures PutAt(tree, Put(tree, at, data), at, data, x)
    decreases |at|
  {
    assert Lookup(tree, at[..0]) == Some(tree);
    if x != [] {
      var child := Find(tree.entries, at[0]).GetOr(Dir([]));
      FindSetEntry(tree.entries, at[0], Put(child, at[1..], data), x[0]);
      if x[0] == at[0] {
        assert at == [at[0]] + at[1..] && x == [x[0]] + x[1..];
        if |at| == 1 {
          assert Lookup(tree, at) == Find(tree.entries, at[0]);
        } else {
          WritableBelow(tree, at);
          LookupPut(child, at[1..], data, x[1..]);
          if x[1..] != [] { NothingInEmpty(x[1..]); }
        }
      }
    }
  }

  // ---------------------------------------------------------------- well-formed trees

  lemma {:induction false} SetEntryNames(entries: seq<Entry>, name: string, node: Node)
    requires GoodListing(entries) && '/' !in name
    ensures GoodListing(SetEntry(entries, name, node))
    ensures forall e | e in SetEntry(entries, name, node) :: e.name == name || exists f | f in entries :: f.name == e.name
  {
    if entries != [] && entries[0].name != name { SetEntryNames(entries[1..], name, node); }
  }

  lemma EmptyWellFormed()
    ensures WellFormed(Dir([]))
  {
    forall at | IsDir(Dir([]), at) ensures GoodListing(Entries(Dir([]), at)) { assert at == []; }
  }

  lemma {:induction false} PutWellFormed(tree: Node, at: Location, data: Bytes)
    requires WellFormed(tree) && forall name | name in at :: '/' !in name
    ensures WellFormed(Put(tree, at, data))
    decreases |at|
  {
    if at != [] {
      var entries := if tree.Dir? then tree.entries else [];
      var child := Find(entries, at[0]).GetOr(Dir([]));
      assert tree.Dir? ==> IsDir(tree, []) && Entries(tree, []) == entries;
      if Find(entries, at[0]).Some? { ChildWellFormed(tree, at[0]); } else { EmptyWellFormed(); }
      PutWellFormed(child, at[1..], data);
      SetEntryNames(entries, at[0], Put(child, at[1..], data));
      forall x | IsDir(Put(tree, at, data), x) && x != [] ensures GoodListing(Entries(Put(tree, at, data), x)) {
        FindSetEntry(entries, at[0], Put(child, at[1..], data), x[0]);
        if x[0] == at[0] {
          assert IsDir(Put(child, at[1..], data), x[1..]);
        } else {
          assert IsDir(tree, x);
        }
      }
    }
  }
}
