/** The accepted trees and their inventories once more, told by routes: which real directories
    one passes when names are followed one after the other. */
module DependencyRoutes {
  import opened Text
  import opened DependencyTree
  import opened DependencyRows
  import opened DependencyWalk

  // ---------------------------------------------------------------- routes

  /** There is a real directory, and it has that entry. */
  predicate Holds(tree: Node, at: Location, e: Entry) {
    Lookup(tree, at).Some? && Lookup(tree, at).value.Dir? && e in Lookup(tree, at).value.entries
  }

  predicate Directory(tree: Node, at: Location) { Lookup(tree, at).Some? && Lookup(tree, at).value.Dir? }

  predicate Ignored(name: string) {
    || name == "__pycache__" || name == ".pytest_cache" || name == ".ruff_cache" || name == ".cache"
    || name == ".vite" || name == ".vite-temp" || name == ".tmp"
  }

  /** A name leads on to what it names, or to the directory inside the root that it links to. */
  predicate LeadsOn(tree: Node, at: Location, name: string, node: Node, next: Location) {
    && Holds(tree, at, Entry(name, node))
    && if node.Link? then node.target == Some(next) && Directory(tree, next) else next == at + [name]
  }

  ghost predicate Step(tree: Node, at: Location, name: string, next: Location) {
    !Ignored(name) && exists node :: LeadsOn(tree, at, name, node, next)
  }

  /** The places that the names lead through. */
  ghost predicate Route(tree: Node, names: seq<string>, places: seq<Location>) {
    && |places| == |names| + 1 && places[0] == []
    && forall i | 0 <= i < |names| :: Step(tree, places[i], names[i], places[i + 1])
  }

  /** A route and one more name show this entry. */
  ghost predicate ShownAfter(tree: Node, names: seq<string>, places: seq<Location>, node: Node) {
    && names != [] && Route(tree, names[..|names| - 1], places) && !Ignored(names[|names| - 1])
    && Holds(tree, places[|places| - 1], Entry(names[|names| - 1], node))
  }

  ghost predicate Shows(tree: Node, names: seq<string>, node: Node) {
    exists places :: ShownAfter(tree, names, places, node)
  }

  // ---------------------------------------------------------------- routes are walks

  lemma IgnoredNames(name: string)
    ensures name in IGNORE_DIRS <==> Ignored(name)
  {
  }

  lemma ShownIsHeld(tree: Node, at: Location, name: string, node: Node)
    requires WellFormed(tree)
    ensures Shown(tree, at, name) == Some(node) <==> !Ignored(name) && Holds(tree, at, Entry(name, node))
  {
    IgnoredNames(name);
    if IsDir(tree, at) {
      var entries := Entries(tree, at);
      assert GoodListing(entries);
      if Find(entries, name).Some? {
        var i := FindIndex(entries, name);
        assert entries[i] in entries;
      }
      if Entry(name, node) in entries {
        var i :| 0 <= i < |entries| && entries[i] == Entry(name, node);
        FindEntry(entries, i);
      }
    }
  }

  lemma FollowIsStep(tree: Node, at: Location, name: string, next: Location)
    requires WellFormed(tree)
    ensures Follow(tree, at, name) == Some(next) <==> Step(tree, at, name, next)
  {
    if Shown(tree, at, name).Some? {
      var node := Shown(tree, at, name).value;
      ShownIsHeld(tree, at, name, node);
      if Follow(tree, at, name) == Some(next) { assert LeadsOn(tree, at, name, node, next); }
    }
    if Step(tree, at, name, next) {
      var node :| LeadsOn(tree, at, name, node, next);
      ShownIsHeld(tree, at, name, node);
    }
  }

  lemma WalkSnoc(tree: Node, at: Location, names: seq<string>, name: string)
    ensures Walk(tree, at, names + [name])
         == if Walk(tree, at, names).Some? then Follow(tree, Walk(tree, at, names).value, name) else None
    decreases |names|
  {
    var all := names + [name];
    if names == [] {
      assert all[1..] == [];
    } else {
      assert all[1..] == names[1..] + [name];
      if Follow(tree, at, names[0]).Some? { WalkSnoc(tree, Follow(tree, at, names[0]).value, names[1..], name); }
    }
  }

  /** A route ends where the walk along its names ends. */
  lemma {:induction false} RouteWalks(tree: Node, names: seq<string>, places: seq<Location>)
    requires WellFormed(tree) && Route(tree, names, places)
    ensures Walk(tree, [], names) == Some(places[|names|])
    decreases |names|
  {
    if names != [] {
      var n := |names| - 1;
      RouteWalks(tree, names[..n], places[..|names|]);
      WalkSnoc(tree, [], names[..n], names[n]);
      FollowIsStep(tree, places[n], names[n], places[n + 1]);
      assert names == names[..n] + [names[n]];
    }
  }

  /** And every walk that ends is along a route. */
  lemma {:induction false} WalkHasRoute(tree: Node, names: seq<string>) returns (places: seq<Location>)
    requires WellFormed(tree) && Walk(tree, [], names).Some?
    ensures Route(tree, names, places) && places[|names|] == Walk(tree, [], names).value
    decreases |names|
  {
    if names == [] {
      places := [[]];
    } else {
      var n := |names| - 1;
      assert names == names[..n] + [names[n]];
      WalkSnoc(tree, [], names[..n], names[n]);
      var before := WalkHasRoute(tree, names[..n]);
      var last := Walk(tree, [], names).value;
      FollowIsStep(tree, before[n], names[n], last);
      places := before + [last];
      forall i | 0 <= i < |names| ensures Step(tree, places[i], names[i], places[i + 1]) {
        if i < n { assert Step(tree, before[i], names[..n][i], before[i + 1]); }
      }
    }
  }

  lemma {:induction false} ReachNeedsWalk(tree: Node, at: Location, names: seq<string>, name: string)
    ensures Reach(tree, at, names + [name])
         == if Walk(tree, at, names).Some? then Shown(tree, Walk(tree, at, names).value, name) else None
    decreases |names|
  {
    var all := names + [name];
    if names != [] {
      assert all[1..] == names[1..] + [name];
      if Follow(tree, at, names[0]).Some? { ReachNeedsWalk(tree, Follow(tree, at, names[0]).value, names[1..], name); }
    }
  }

  /** What a trail leads to is what some route shows. */
  lemma ReachIsShown(tree: Node, names: seq<string>, node: Node)
    requires WellFormed(tree) && names != []
    ensures Reach(tree, [], names) == Some(node) <==> Shows(tree, names, node)
  {
    var n := |names| - 1;
    assert names == names[..n] + [names[n]];
    ReachNeedsWalk(tree, [], names[..n], names[n]);
    if Reach(tree, [], names) == Some(node) {
      var places := WalkHasRoute(tree, names[..n]);
      ShownIsHeld(tree, places[n], names[n], node);
      assert ShownAfter(tree, names, places, node);
    }
    if Shows(tree, names, node) {
      var places :| ShownAfter(tree, names, places, node);
      RouteWalks(tree, names[..n], places);
      ShownIsHeld(tree, places[n], names[n], node);
    }
  }

  // ---------------------------------------------------------------- what is accepted

  /** No route comes back to a place it has been at. */
  ghost predicate NeverReturns(tree: Node) {
    forall names, places, i, j | Route(tree, names, places) && 0 <= i < j <= |names| :: places[i] != places[j]
  }

  lemma {:induction false} RoutePrefix(tree: Node, names: seq<string>, places: seq<Location>, n: nat)
    requires Route(tree, names, places) && n <= |names|
    ensures Route(tree, names[..n], places[..n + 1])
  {
  }

  lemma RouteTo(tree: Node, names: seq<string>, places: seq<Location>, n: nat)
    requires WellFormed(tree) && Route(tree, names, places) && n <= |names|
    ensures Walk(tree, [], names[..n]) == Some(places[n])
  {
    RoutePrefix(tree, names, places, n);
    RouteWalks(tree, names[..n], places[..n + 1]);
  }

  lemma ReturnCloses(tree: Node, names: seq<string>, places: seq<Location>, i: nat, j: nat)
    requires WellFormed(tree) && Route(tree, names, places) && i < j <= |names| && places[i] == places[j]
    ensures Closes(tree, names[..i], names[i..j])
  {
    RouteTo(tree, names, places, i);
    RouteTo(tree, names, places, j);
    WalkAppend(tree, [], names[..i], names[i..j]);
    assert names[..j] == names[..i] + names[i..j];
  }

  lemma Returns(tree: Node, names: seq<string>, places: seq<Location>, i: nat, j: nat)
    requires Route(tree, names, places) && i < j <= |names| && places[i] == places[j]
    ensures !NeverReturns(tree)
  {
  }

  lemma ClosingReturns(tree: Node, trail: seq<string>, loop: seq<string>)
    requires WellFormed(tree) && Closes(tree, trail, loop)
    ensures !NeverReturns(tree)
  {
    var names := trail + loop;
    WalkAppend(tree, [], trail, loop);
    var places := WalkHasRoute(tree, names);
    RouteTo(tree, names, places, |trail|);
    assert names[..|trail|] == trail;
    Returns(tree, names, places, |trail|, |names|);
  }

  lemma AcyclicNeverReturns(tree: Node)
    requires WellFormed(tree)
    ensures !Cyclic(tree) <==> NeverReturns(tree)
  {
    if Cyclic(tree) {
      var trail, loop :| Closes(tree, trail, loop);
      ClosingReturns(tree, trail, loop);
    } else {
      forall names, places, i, j | Route(tree, names, places) && 0 <= i < j <= |names| ensures places[i] != places[j] {
        if places[i] == places[j] { ReturnCloses(tree, names, places, i, j); }
      }
    }
  }

  /** An entry that may be copied: a regular file that is not private, a directory, or a link to
      one inside the root, under names that are safe everywhere. */
  predicate Fits(tree: Node, rules: Rules, names: seq<string>, node: Node) {
    && (forall name | name in names :: SafeSegment(name)) && node != Special
    && (node.File? ==> !rules.isPrivate(Join(names, '/')))
    && (node.Link? ==> node.target.Some? && Directory(tree, node.target.value))
  }

  ghost predicate AllFit(tree: Node, rules: Rules) {
    forall names, node | names != [] && Shows(tree, names, node) :: Fits(tree, rules, names, node)
  }

  lemma FitsUnlessRefused(tree: Node, rules: Rules, names: seq<string>, node: Node)
    requires WellFormed(tree) && names != [] && Reach(tree, [], names) == Some(node)
    ensures Refused(tree, rules, names, node) <==> !Fits(tree, rules, names, node)
  {
    TrailNames(tree, [], names);
    SafeBySegments(names);
  }

  lemma AcceptableAllFit(tree: Node, rules: Rules)
    requires WellFormed(tree)
    ensures !HasUnacceptable(tree, rules) <==> AllFit(tree, rules)
  {
    forall names, node | names != []
      ensures Reach(tree, [], names) == Some(node) <==> Shows(tree, names, node)
    {
      ReachIsShown(tree, names, node);
    }
    if names, node :| names != [] && Shows(tree, names, node) && !Fits(tree, rules, names, node) {
      FitsUnlessRefused(tree, rules, names, node);
      assert Unacceptable(tree, rules, names);
    }
    if trail :| Unacceptable(tree, rules, trail) {
      var node := Reach(tree, [], trail).value;
      FitsUnlessRefused(tree, rules, trail, node);
      assert Shows(tree, trail, node);
    }
  }

  ghost predicate ShowsFile(tree: Node, names: seq<string>) { exists data :: Shows(tree, names, File(data)) }

  ghost predicate WithinLimit(tree: Node) {
    forall files: set<seq<string>> | forall names | names in files :: names != [] && ShowsFile(tree, names) :: |files| <= 100_000
  }

  lemma FileIsShown(tree: Node, names: seq<string>)
    requires WellFormed(tree) && names != []
    ensures ShowsFile(tree, names) <==> Reach(tree, [], names).Some? && Reach(tree, [], names).value.File?
  {
    if Reach(tree, [], names).Some? && Reach(tree, [], names).value.File? {
      var data := Reach(tree, [], names).value.data;
      ReachIsShown(tree, names, File(data));
    }
    if ShowsFile(tree, names) {
      var data :| Shows(tree, names, File(data));
      ReachIsShown(tree, names, File(data));
    }
  }

  lemma FewFilesWithinLimit(tree: Node)
    requires WellFormed(tree)
    ensures !TooMany(tree) <==> WithinLimit(tree)
  {
    forall names | names != []
      ensures ShowsFile(tree, names) <==> Reach(tree, [], names).Some? && Reach(tree, [], names).value.File?
    {
      FileIsShown(tree, names);
    }
    if files: set<seq<string>> :| (forall names | names in files :: names != [] && ShowsFile(tree, names)) && |files| > 100_000 {
      assert UnfoldedFiles(tree, files);
    }
    if TooMany(tree) {
      var files: set<seq<string>> :| UnfoldedFiles(tree, files) && |files| > FILE_LIMIT;
      assert forall names | names in files :: names != [] && ShowsFile(tree, names);
    }
  }

  /** The walk accepts exactly the trees in which no route returns, every entry that a route shows
      fits, and no more than 100,000 files are shown. */
  lemma AcceptedByRoutes(tree: Node, rules: Rules)
    requires WellFormed(tree)
    ensures Listable(tree, rules) <==> NeverReturns(tree) && AllFit(tree, rules) && WithinLimit(tree)
  {
    AcyclicNeverReturns(tree);
    AcceptableAllFit(tree, rules);
    FewFilesWithinLimit(tree);
  }

  // ---------------------------------------------------------------- what is listed

  ghost predicate FileRow(tree: Node, rules: Rules, row: Row) {
    exists names, data :: names != [] && Shows(tree, names, File(data)) && row == Row(Join(names, '/'), |data|, rules.sha(data))
  }

  ghost predicate LinkedRow(tree: Node, row: LinkRow) {
    exists names, target ::
      && names != [] && Shows(tree, names, Link(Some(target))) && Directory(tree, target)
      && row == LinkRow(Join(names, '/'), Join(target, '/'))
  }

  lemma FileRowOfTrail(tree: Node, rules: Rules, row: Row)
    requires WellFormed(tree)
    ensures FileRow(tree, rules, row) <==> exists trail :: RowOfTrail(tree, rules, trail, row)
  {
    if trail :| RowOfTrail(tree, rules, trail, row) {
      var data := Reach(tree, [], trail).value.data;
      ReachIsShown(tree, trail, File(data));
    }
    if names, data :| names != [] && Shows(tree, names, File(data)) && row == Row(Join(names, '/'), |data|, rules.sha(data)) {
      ReachIsShown(tree, names, File(data));
      assert RowOfTrail(tree, rules, names, row);
    }
  }

  lemma LinkedRowOfTrail(tree: Node, row: LinkRow)
    requires WellFormed(tree)
    ensures LinkedRow(tree, row) <==> exists trail :: LinkOfTrail(tree, trail, row)
  {
    if trail :| LinkOfTrail(tree, trail, row) {
      var target := Reach(tree, [], trail).value.target.value;
      ReachIsShown(tree, trail, Link(Some(target)));
    }
    if names, target :|
      && names != [] && Shows(tree, names, Link(Some(target))) && Directory(tree, target)
      && row == LinkRow(Join(names, '/'), Join(target, '/'))
    {
      ReachIsShown(tree, names, Link(Some(target)));
      assert LinkOfTrail(tree, names, row);
    }
  }

  /** An inventory has a row for each file and each link that some route shows, saying its path
      and what it is, and no others. */
  lemma InventoryByRoutes(tree: Node, rules: Rules, inv: Inventory)
    requires WellFormed(tree) && Describes(tree, rules, inv)
    ensures forall row :: row in inv.files <==> FileRow(tree, rules, row)
    ensures forall row :: row in inv.links <==> LinkedRow(tree, row)
  {
    forall row ensures row in inv.files <==> FileRow(tree, rules, row) { FileRowOfTrail(tree, rules, row); }
    forall row ensures row in inv.links <==> LinkedRow(tree, row) { LinkedRowOfTrail(tree, row); }
  }

  /** The copy of an unfolding holds what the routes show. */
  lemma UnfoldingByRoutes(tree: Node, trail: seq<string>, data: Bytes)
    requires WellFormed(tree)
    ensures UnfoldsTo(tree, trail, data) <==> trail != [] && Shows(tree, trail, File(data))
  {
    if trail != [] { ReachIsShown(tree, trail, File(data)); }
  }
}
