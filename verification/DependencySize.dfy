/** How much a dependency directory holds: the bytes of the files of its unfolding, added up in
    any order. */
module DependencySize {
  import opened Text
  import opened Sorting
  import opened Sums
  import opened DependencyTree
  import opened DependencyRows

  predicate IsFile(tree: Node, trail: seq<string>) {
    trail != [] && Reach(tree, [], trail).Some? && Reach(tree, [], trail).value.File?
  }

  function BytesAt(tree: Node): seq<string> -> nat {
    (trail: seq<string>) => if IsFile(tree, trail) then |Reach(tree, [], trail).value.data| else 0
  }

  /** The files of the unfolding, each once. */
  ghost predicate ListsFiles(tree: Node, trails: seq<seq<string>>) {
    && (forall t :: t in trails <==> IsFile(tree, t))
    && forall i, j | 0 <= i < j < |trails| :: trails[i] != trails[j]
  }

  lemma {:induction false} OnceEach<T>(s: seq<T>)
    requires forall i, j | 0 <= i < j < |s| :: s[i] != s[j]
    ensures forall x :: x in s ==> multiset(s)[x] == 1
  {
    if s != [] {
      OnceEach(s[1..]);
      RestCounts(s);
    }
  }

  lemma SameTrails(a: seq<seq<string>>, b: seq<seq<string>>)
    requires forall t :: t in a <==> t in b
    requires forall i, j | 0 <= i < j < |a| :: a[i] != a[j]
    requires forall i, j | 0 <= i < j < |b| :: b[i] != b[j]
    ensures multiset(a) == multiset(b)
  {
    OnceEach(a);
    OnceEach(b);
    forall t ensures multiset(a)[t] == multiset(b)[t] {
      assert t in a <==> multiset(a)[t] > 0;
      assert t in b <==> multiset(b)[t] > 0;
    }
  }

  /** A row leads back to its trail by splitting its path. */
  lemma RowTrail(tree: Node, rules: Rules, trail: seq<string>, row: Row)
    requires WellFormed(tree) && RowOfTrail(tree, rules, trail, row)
    ensures Split(row.path, '/') == trail
  {
    TrailNames(tree, [], trail);
    SplitJoin(trail, '/');
  }

  /** The trails of the rows, in the order of the rows. */
  function RowTrails(rows: seq<Row>): seq<seq<string>> {
    seq(|rows|, i requires 0 <= i < |rows| => Split(rows[i].path, '/'))
  }

  lemma RowAt(tree: Node, rules: Rules, inv: Inventory, i: nat)
    requires WellFormed(tree) && Describes(tree, rules, inv) && i < |inv.files|
    ensures RowOfTrail(tree, rules, RowTrails(inv.files)[i], inv.files[i])
  {
    assert inv.files[i] in inv.files;
    var trail :| RowOfTrail(tree, rules, trail, inv.files[i]);
    RowTrail(tree, rules, trail, inv.files[i]);
  }

  lemma RowsListFiles(tree: Node, rules: Rules, inv: Inventory)
    requires WellFormed(tree) && Describes(tree, rules, inv)
    ensures ListsFiles(tree, RowTrails(inv.files))
  {
    var trails := RowTrails(inv.files);
    forall t | t in trails ensures IsFile(tree, t) {
      var i :| 0 <= i < |trails| && trails[i] == t;
      RowAt(tree, rules, inv, i);
    }
    forall t | IsFile(tree, t) ensures t in trails {
      var row := HashFile(rules, Reach(tree, [], t).value.data, PathText(t));
      assert RowOfTrail(tree, rules, t, row);
      RowTrail(tree, rules, t, row);
      assert row in inv.files;
      var i :| 0 <= i < |inv.files| && inv.files[i] == row;
      assert trails[i] == t;
    }
    forall i, j | 0 <= i < j < |trails| ensures trails[i] != trails[j] {
      RowAt(tree, rules, inv, i);
      RowAt(tree, rules, inv, j);
      assert RowPath()(inv.files[i]) != RowPath()(inv.files[j]);
    }
  }

  lemma {:induction false} RowSizes(tree: Node, rules: Rules, rows: seq<Row>, trails: seq<seq<string>>)
    requires |rows| == |trails| && forall i | 0 <= i < |rows| :: RowOfTrail(tree, rules, trails[i], rows[i])
    ensures TotalSize(rows) == Sum(trails, BytesAt(tree))
  {
    if rows != [] {
      assert RowOfTrail(tree, rules, trails[0], rows[0]);
      RowSizes(tree, rules, rows[1..], trails[1..]);
    }
  }

  /** The total of an inventory is the number of bytes in the files of the unfolding, in
      whatever order they are listed. */
  lemma TotalIsUnfoldedBytes(tree: Node, rules: Rules, inv: Inventory, trails: seq<seq<string>>)
    requires WellFormed(tree) && Describes(tree, rules, inv) && ListsFiles(tree, trails)
    ensures inv.totalBytes == Sum(trails, BytesAt(tree))
  {
    RowsListFiles(tree, rules, inv);
    forall i | 0 <= i < |inv.files| ensures RowOfTrail(tree, rules, RowTrails(inv.files)[i], inv.files[i]) {
      RowAt(tree, rules, inv, i);
    }
    RowSizes(tree, rules, inv.files, RowTrails(inv.files));
    SameTrails(trails, RowTrails(inv.files));
    SumPermutes(trails, RowTrails(inv.files), BytesAt(tree));
  }
}
