/** `copy_dependency_tree` with link materialisation: the copy is a link-free tree whose files
    are exactly those of the unfolding. */
module DependencyCopy {
  import opened Text
  import opened Sorting
  import opened DependencyTree
  import opened DependencyRows
  import opened DependencyMeaning
  import opened DependencyWalk
  import opened DependencyListing
  import opened DependencySize
  import opened Sums

  const SIZE_LIMIT: nat := 8 * 1024 * 1024 * 1024

  /** The directory being written: only regular files, and the directories above them. */
  class TargetTree {
    var present: bool
    var files: map<seq<string>, Bytes>

    constructor (present: bool)
      ensures this.present == present && files == map[]
    {
      this.present := present;
      files := map[];
    }

    /** Nothing is in the way: no such file or directory yet, and no file above it. */
    predicate Free(at: seq<string>)
      reads this
    {
      forall t | t in files :: !(at <= t) && !(t <= at)
    }

    /** `copy_verified`: `later` is what the source holds when it is hashed once more. */
    method CopyVerified(rules: Rules, data: Bytes, later: Bytes, at: seq<string>, row: Row) returns (ok: bool)
      modifies this`files
      ensures ok <==> old(Free(at)) && row == HashFile(rules, data, row.path) == HashFile(rules, later, row.path)
      ensures files == if old(Free(at)) then old(files)[at := data] else old(files)
    {
      if !Free(at) { return false; }
      files := files[at := data];
      ok := HashFile(rules, files[at], row.path) == row && HashFile(rules, later, row.path) == row;
    }
  }

  // ---------------------------------------------------------------- rows and trails

  /** No file of the unfolding lies above another one. */
  lemma FilesDoNotNest(tree: Node, a: seq<string>, b: seq<string>, x: Bytes, y: Bytes)
    requires UnfoldsTo(tree, a, x) && UnfoldsTo(tree, b, y) && a <= b
    ensures a == b
  {
    if a != b {
      FilePlace(tree, a);
      assert b == a + b[|a|..];
      ReachAppend(tree, [], a, b[|a|..]);
      NothingPast(tree, Walk(tree, [], a).value, b[|a|..]);
    }
  }

  lemma RowUnfolds(tree: Node, rules: Rules, inv: Inventory, row: Row) returns (trail: seq<string>)
    requires WellFormed(tree) && Describes(tree, rules, inv) && row in inv.files
    ensures RowOfTrail(tree, rules, trail, row) && trail == Split(row.path, '/')
  {
    trail :| RowOfTrail(tree, rules, trail, row);
    RowTrail(tree, rules, trail, row);
  }

  lemma SameItems<T(!new)>(a: seq<T>, b: seq<T>, key: T -> string)
    requires forall x :: x in a <==> x in b
    requires OrderedBy(a, key) && DistinctKeys(a, key) && OrderedBy(b, key) && DistinctKeys(b, key)
    ensures a == b
  {
    DistinctKeysOnce(a, key);
    DistinctKeysOnce(b, key);
    assert multiset(a) == multiset(b) by {
      forall x ensures multiset(a)[x] == multiset(b)[x] {
        assert x in a <==> multiset(a)[x] > 0;
        assert x in b <==> multiset(b)[x] > 0;
      }
    }
    OrderIsUnique(a, b, key);
  }

  /** A tree has one inventory. */
  lemma InventoryUnique(tree: Node, rules: Rules, a: Inventory, b: Inventory)
    requires Describes(tree, rules, a) && Describes(tree, rules, b)
    ensures a == b
  {
    SameItems(a.files, b.files, RowPath());
    SameItems(a.links, b.links, LinkPath());
  }

  /** Whatever order the directories are listed in, the tree is accepted or refused alike and has
      the same inventory. */
  lemma InventoryIgnoresListing(tree: Node, other: Node, rules: Rules)
    requires WellFormed(tree) && WellFormed(other) && Reordered(tree, other)
    ensures Listable(tree, rules) <==> Listable(other, rules)
    ensures forall inv :: Describes(tree, rules, inv) <==> Describes(other, rules, inv)
  {
    ReorderedSameShape(tree, other);
    SameShapeBack(tree, other);
    RefusalsAlike(tree, other, rules);
    forall inv ensures Describes(tree, rules, inv) <==> Describes(other, rules, inv) {
      if Describes(tree, rules, inv) { DescribesAlike(tree, other, rules, inv); }
      if Describes(other, rules, inv) { DescribesAlike(other, tree, rules, inv); }
    }
  }

  // ---------------------------------------------------------------- the copy

  /** The trees whose link-free copy fits. */
  ghost predicate Copyable(tree: Node, rules: Rules) {
    Listable(tree, rules) && forall trails | ListsFiles(tree, trails) :: Sum(trails, BytesAt(tree)) <= SIZE_LIMIT
  }

  lemma CopyableIffSmall(tree: Node, rules: Rules, inv: Inventory)
    requires WellFormed(tree) && Listable(tree, rules) && Describes(tree, rules, inv)
    ensures Copyable(tree, rules) <==> inv.totalBytes <= SIZE_LIMIT
  {
    forall trails | ListsFiles(tree, trails) ensures Sum(trails, BytesAt(tree)) == inv.totalBytes {
      TotalIsUnfoldedBytes(tree, rules, inv, trails);
    }
    RowsListFiles(tree, rules, inv);
  }

  ghost predicate EqualsUnfolding(tree: Node, files: map<seq<string>, Bytes>) {
    forall trail, data :: trail in files && files[trail] == data <==> UnfoldsTo(tree, trail, data)
  }

  /** The first `n` rows are on disk and nothing else. */
  ghost predicate CopiedFirst(tree: Node, rows: seq<Row>, n: nat, files: map<seq<string>, Bytes>)
    requires n <= |rows|
  {
    && (forall t :: t in files <==> exists i :: 0 <= i < n && t == Split(rows[i].path, '/'))
    && forall t | t in files :: UnfoldsTo(tree, t, files[t])
  }

  lemma NextIsFree(tree: Node, rules: Rules, inv: Inventory, n: nat, files: map<seq<string>, Bytes>, trail: seq<string>)
    requires WellFormed(tree) && Describes(tree, rules, inv) && n < |inv.files|
    requires CopiedFirst(tree, inv.files, n, files)
    requires RowOfTrail(tree, rules, trail, inv.files[n])
    ensures forall t | t in files :: !(trail <= t) && !(t <= trail)
  {
    var data := Reach(tree, [], trail).value.data;
    forall t | t in files ensures !(trail <= t) && !(t <= trail) {
      if trail <= t { FilesDoNotNest(tree, trail, t, data, files[t]); }
      if t <= trail { FilesDoNotNest(tree, t, trail, files[t], data); }
      var i :| 0 <= i < n && t == Split(inv.files[i].path, '/');
      var other := RowUnfolds(tree, rules, inv, inv.files[i]);
      assert RowPath()(inv.files[i]) != RowPath()(inv.files[n]);
    }
  }

  lemma AllCopied(tree: Node, rules: Rules, inv: Inventory, files: map<seq<string>, Bytes>)
    requires WellFormed(tree) && Describes(tree, rules, inv)
    requires CopiedFirst(tree, inv.files, |inv.files|, files)
    ensures EqualsUnfolding(tree, files)
  {
    forall trail, data | UnfoldsTo(tree, trail, data) ensures trail in files && files[trail] == data {
      var row := HashFile(rules, data, PathText(trail));
      assert RowOfTrail(tree, rules, trail, row);
      RowTrail(tree, rules, trail, row);
      assert row in inv.files;
      var i :| 0 <= i < |inv.files| && inv.files[i] == row;
    }
  }

  lemma CopiedNext(tree: Node, rows: seq<Row>, n: nat, files: map<seq<string>, Bytes>, data: Bytes)
    requires n < |rows| && CopiedFirst(tree, rows, n, files)
    requires UnfoldsTo(tree, Split(rows[n].path, '/'), data)
    ensures CopiedFirst(tree, rows, n + 1, files[Split(rows[n].path, '/') := data])
  {
  }

  method CopyDependencyTree(tree: Node, rules: Rules, target: TargetTree) returns (r: Result<Inventory>)
    requires WellFormed(tree) && tree.Dir?
    requires !target.present ==> target.files == map[]
    modifies target
    ensures r.Ok? <==> Copyable(tree, rules) && !old(target.present)
    ensures r.Ok? ==> Describes(tree, rules, r.value) && EqualsUnfolding(tree, target.files)
    ensures r.Rejected? ==> target.present == old(target.present) && target.files == old(target.files)
  {
    var result, sources := DependencyInventory(tree, rules);
    if result.Rejected? { return Rejected; }
    var inv := result.value;
    CopyableIffSmall(tree, rules, inv);
    if inv.totalBytes > SIZE_LIMIT || target.present { return Rejected; }
    target.present := true;
    var n := 0;
    while n < |inv.files|
      invariant n <= |inv.files| && CopiedFirst(tree, inv.files, n, target.files)
      invariant target.present
    {
      var row := inv.files[n];
      ghost var trail := RowUnfolds(tree, rules, inv, row);
      NextIsFree(tree, rules, inv, n, target.files, trail);
      var data := Lookup(tree, sources[row.path]).value.data;
      CopiedNext(tree, inv.files, n, target.files, data);
      var ok := target.CopyVerified(rules, data, data, Split(row.path, '/'), row);
      assert ok;
      n := n + 1;
    }
    AllCopied(tree, rules, inv, target.files);
    return Ok(inv);
  }
}
