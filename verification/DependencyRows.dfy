/** The inventory of a dependency directory: what its rows promise about the unfolding, and
    how the rows, the recorded sources and the stack relate while the walk is under way. */
module DependencyRows {
  import opened Text
  import opened Sorting
  import opened DependencyTree
  import opened DependencyExplore
  import opened DependencyMeaning
  import opened DependencyVerdict

  const FILE_LIMIT: nat := 100_000

  datatype Row = Row(path: string, size: nat, sha256: string)
  datatype LinkRow = LinkRow(path: string, target: string)
  datatype Inventory = Inventory(files: seq<Row>, totalBytes: nat, links: seq<LinkRow>)

  /** `hash_file`. */
  function HashFile(rules: Rules, data: Bytes, path: string): Row {
    Row(path, |data|, rules.sha(data))
  }

  function TotalSize(rows: seq<Row>): nat {
    if rows == [] then 0 else rows[0].size + TotalSize(rows[1..])
  }

  function RowPath(): Row -> string { (r: Row) => r.path }

  function LinkPath(): LinkRow -> string { (r: LinkRow) => r.path }

  // ---------------------------------------------------------------- the promise

  ghost predicate RowOfTrail(tree: Node, rules: Rules, trail: seq<string>, row: Row) {
    && trail != [] && Reach(tree, [], trail).Some? && Reach(tree, [], trail).value.File?
    && row == HashFile(rules, Reach(tree, [], trail).value.data, PathText(trail))
  }

  ghost predicate LinkOfTrail(tree: Node, trail: seq<string>, row: LinkRow) {
    && trail != [] && Reach(tree, [], trail).Some? && GoodLink(tree, Reach(tree, [], trail).value)
    && row == LinkRow(PathText(trail), PathText(Reach(tree, [], trail).value.target.value))
  }

  /** One row per file of the unfolding and one per materialised link, in path order. */
  ghost predicate Describes(tree: Node, rules: Rules, inv: Inventory) {
    && (forall row :: row in inv.files <==> exists trail :: RowOfTrail(tree, rules, trail, row))
    && (forall row :: row in inv.links <==> exists trail :: LinkOfTrail(tree, trail, row))
    && OrderedBy(inv.files, RowPath()) && DistinctKeys(inv.files, RowPath())
    && OrderedBy(inv.links, LinkPath()) && DistinctKeys(inv.links, LinkPath())
    && inv.totalBytes == TotalSize(inv.files)
  }

  predicate ReadableAt(tree: Node, trail: seq<string>, place: Location)
    requires trail != []
  {
    Reach(tree, [], trail).Some? && Reach(tree, [], trail).value.File? && Lookup(tree, place) == Reach(tree, [], trail)
  }

  /** Each row's file can be read, without passing a link, at the recorded place. */
  ghost predicate Readable(tree: Node, rows: seq<Row>, sources: map<string, Location>) {
    && sources.Keys == (set row | row in rows :: row.path)
    && forall row | row in rows :: ReadableAt(tree, Split(row.path, '/'), sources[row.path])
  }

  /** The unfolding shows more files than the walk is willing to list. */
  ghost predicate TooMany(tree: Node) {
    exists trails: set<seq<string>> :: UnfoldedFiles(tree, trails) && |trails| > FILE_LIMIT
  }

  // ---------------------------------------------------------------- trails and their texts

  lemma {:induction false} TrailNames(tree: Node, at: Location, trail: seq<string>)
    requires WellFormed(tree) && trail != [] && Reach(tree, at, trail).Some?
    ensures forall name :: name in trail ==> '/' !in name
    decreases |trail|
  {
    var i := FindIndex(Entries(tree, at), trail[0]);
    assert GoodListing(Entries(tree, at));
    assert '/' !in trail[0];
    if |trail| > 1 {
      TrailNames(tree, Follow(tree, at, trail[0]).value, trail[1..]);
      assert trail == [trail[0]] + trail[1..];
    }
  }

  /** Different trails of the unfolding have different path texts. */
  lemma PathTextInjective(tree: Node, a: seq<string>, b: seq<string>)
    requires WellFormed(tree) && a != [] && b != []
    requires Reach(tree, [], a).Some? && Reach(tree, [], b).Some?
    requires PathText(a) == PathText(b)
    ensures a == b
  {
    TrailNames(tree, [], a);
    TrailNames(tree, [], b);
    JoinInjective(a, b, '/');
  }

  // ---------------------------------------------------------------- what has been found so far

  ghost predicate Records(tree: Node, rules: Rules, x: Found, row: Row) {
    && x.FileAt? && Lookup(tree, x.at).Some? && Lookup(tree, x.at).value.File?
    && row == HashFile(rules, Lookup(tree, x.at).value.data, PathText(x.trail))
  }

  ghost predicate RecordsLink(x: Found, row: LinkRow) {
    x.LinkAt? && row == LinkRow(PathText(x.trail), PathText(x.target))
  }

  ghost predicate Recorded(tree: Node, rules: Rules, files: seq<Found>, rows: seq<Row>,
                           linked: seq<Found>, links: seq<LinkRow>)
  {
    && |files| == |rows| && (forall i | 0 <= i < |files| :: Records(tree, rules, files[i], rows[i]))
    && |linked| == |links| && (forall i | 0 <= i < |linked| :: RecordsLink(linked[i], links[i]))
  }

  ghost predicate Sourced(files: seq<Found>, sources: map<string, Location>) {
    && (forall i | 0 <= i < |files| :: files[i].FileAt?)
    && sources.Keys == (set i | 0 <= i < |files| :: PathText(files[i].trail))
    && forall i | 0 <= i < |files| :: sources[PathText(files[i].trail)] == files[i].at
  }

  lemma RootFinds(tree: Node, rules: Rules, x: Found)
    requires WellFormed(tree) && tree.Dir? && Explore(tree, rules, RootFrame(tree)).Some?
    ensures x in Explore(tree, rules, RootFrame(tree)).value <==> x.trail != [] && Target(tree, [], x.trail, x)
    ensures Explore(tree, rules, RootFrame(tree)).value[x] <= 1
  {
    ExploreLists(tree, rules, RootFrame(tree));
    assert x.trail[0..] == x.trail && x.trail[..0] == [];
  }

  /** Finds with equal path texts are the same find. */
  lemma TextDetermines(tree: Node, x: Found, y: Found)
    requires WellFormed(tree)
    requires x.trail != [] && Target(tree, [], x.trail, x)
    requires y.trail != [] && Target(tree, [], y.trail, y)
    requires PathText(x.trail) == PathText(y.trail)
    ensures x == y
  {
    PathTextInjective(tree, x.trail, y.trail);
  }

  lemma FoundTwice<T>(s: seq<T>, x: T)
    requires x in s
    ensures multiset(s + [x])[x] >= 2
  {
  }

  /** As long as the whole exploration succeeds, a new find has a new name. */
  lemma FreshName(tree: Node, rules: Rules, found: seq<Found>, x: Found)
    requires WellFormed(tree) && tree.Dir? && Explore(tree, rules, RootFrame(tree)).Some?
    requires multiset(found + [x]) <= Explore(tree, rules, RootFrame(tree)).value
    ensures forall y | y in found :: PathText(y.trail) != PathText(x.trail)
  {
    forall y | y in found ensures PathText(y.trail) != PathText(x.trail) {
      assert y in multiset(found + [x]) && x in multiset(found + [x]);
      RootFinds(tree, rules, x);
      RootFinds(tree, rules, y);
      if PathText(y.trail) == PathText(x.trail) {
        TextDetermines(tree, x, y);
        FoundTwice(found, x);
      }
    }
  }

  lemma {:induction false} DistinctTexts(tree: Node, rules: Rules, found: seq<Found>)
    requires WellFormed(tree) && tree.Dir? && Explore(tree, rules, RootFrame(tree)).Some?
    requires multiset(found) <= Explore(tree, rules, RootFrame(tree)).value
    ensures forall i, j :: 0 <= i < j < |found| ==> PathText(found[i].trail) != PathText(found[j].trail)
  {
    if found != [] {
      var init, last := found[..|found| - 1], found[|found| - 1];
      assert found == init + [last];
      DistinctTexts(tree, rules, init);
      FreshName(tree, rules, init, last);
    }
  }

  lemma SourcedStep(tree: Node, rules: Rules, files: seq<Found>, sources: map<string, Location>, x: Found)
    requires WellFormed(tree) && tree.Dir? && Explore(tree, rules, RootFrame(tree)).Some?
    requires multiset(files + [x]) <= Explore(tree, rules, RootFrame(tree)).value
    requires Sourced(files, sources) && x.FileAt?
    ensures Sourced(files + [x], sources[PathText(x.trail) := x.at])
  {
    FreshName(tree, rules, files, x);
    var more := sources[PathText(x.trail) := x.at];
    forall text ensures text in more <==> text in (set i | 0 <= i < |files + [x]| :: PathText((files + [x])[i].trail)) {
      if text in sources {
        var i :| 0 <= i < |files| && text == PathText(files[i].trail);
        assert (files + [x])[i] == files[i];
      }
      assert (files + [x])[|files|] == x;
    }
  }

  lemma {:induction false} DistinctTrails(found: seq<Found>) returns (trails: set<seq<string>>)
    requires forall i, j :: 0 <= i < j < |found| ==> found[i].trail != found[j].trail
    ensures forall t :: t in trails <==> exists x :: x in found && x.trail == t
    ensures |trails| == |found|
  {
    if found == [] {
      trails := {};
    } else {
      var init, last := found[..|found| - 1], found[|found| - 1];
      assert found == init + [last];
      var rest := DistinctTrails(init);
      trails := rest + {last.trail};
      assert last.trail !in rest;
    }
  }

  lemma LimitExceeded(tree: Node, rules: Rules, files: seq<Found>)
    requires WellFormed(tree) && tree.Dir? && Explore(tree, rules, RootFrame(tree)).Some?
    requires multiset(files) <= Explore(tree, rules, RootFrame(tree)).value
    requires (forall i | 0 <= i < |files| :: files[i].FileAt?) && |files| > FILE_LIMIT
    ensures TooMany(tree)
  {
    DistinctTexts(tree, rules, files);
    var trails := DistinctTrails(files);
    forall t | t in trails ensures t != [] && Reach(tree, [], t).Some? && Reach(tree, [], t).value.File? {
      var x :| x in files && x.trail == t;
      assert x in multiset(files);
      RootFinds(tree, rules, x);
    }
    assert UnfoldedFiles(tree, trails);
  }

  /** A set of trails that are all among the finds is no larger than the finds. */
  lemma {:induction false} TrailsBounded(trails: set<seq<string>>, files: seq<Found>)
    requires forall t | t in trails :: exists x :: x in files && x.trail == t
    ensures |trails| <= |files|
  {
    if files == [] {
      assert trails == {};
    } else {
      var first := files[0].trail;
      forall t | t in trails - {first} ensures exists x :: x in files[1..] && x.trail == t {
        var x :| x in files && x.trail == t;
        assert x in files[1..];
      }
      TrailsBounded(trails - {first}, files[1..]);
      assert |trails| <= |trails - {first}| + 1;
    }
  }

  // ---------------------------------------------------------------- how the loops progress

  /** Finds so far, with everything the stack still promises. */
  ghost function Promised(tree: Node, rules: Rules, files: seq<Found>, linked: seq<Found>, pending: seq<Frame>): Finds {
    Plus(Some(multiset(files) + multiset(linked)), ExploreAll(tree, rules, pending))
  }

  lemma PrefixExplored(tree: Node, rules: Rules, f: Frame, n: nat, m: nat)
    requires n <= m <= |f.listing| && ExploreFrom(tree, rules, f, m).Some?
    ensures ExploreFrom(tree, rules, f, n).Some?
    ensures ExploreFrom(tree, rules, f, n).value <= ExploreFrom(tree, rules, f, m).value
  {
    PrefixesGrow(tree, rules, f, n, m);
  }

  lemma PartOfSum(files: multiset<Found>, linked: multiset<Found>, pending: Finds, before: Finds, part: Finds, all: Finds)
    requires part.Some? && all.Some? && part.value <= all.value
    requires Plus(Some(files + linked), pending) == Plus(before, part) && Plus(before, all).Some?
    ensures files <= Plus(before, all).value
  {
    assert files <= files + linked <= files + linked + pending.value == before.value + part.value;
  }

  /** While the whole exploration can still succeed, so has what was processed of it. */
  lemma PartOfWhole(tree: Node, rules: Rules, f: Frame, n: nat, before: Finds,
                    files: seq<Found>, linked: seq<Found>, pending: seq<Frame>)
    requires n <= |f.listing| && Plus(before, Explore(tree, rules, f)).Some?
    requires Promised(tree, rules, files, linked, pending) == Plus(before, ExploreFrom(tree, rules, f, n))
    ensures multiset(files) <= Plus(before, Explore(tree, rules, f)).value
  {
    PrefixExplored(tree, rules, f, n, |f.listing|);
    PartOfSum(multiset(files), multiset(linked), ExploreAll(tree, rules, pending), before,
              ExploreFrom(tree, rules, f, n), Explore(tree, rules, f));
  }

  lemma PlusShuffle(done: multiset<Found>, stack: Finds, before: Finds, part: Finds, own: multiset<Found>, below: Finds)
    requires Plus(Some(done), stack) == Plus(before, part)
    ensures Plus(Some(done + own), Plus(stack, below)) == Plus(before, Plus(part, Plus(Some(own), below)))
  {
    if stack.Some? && below.Some? {
      assert (done + own) + (stack.value + below.value) == (done + stack.value) + (own + below.value);
      assert (before.value + part.value) + (own + below.value) == before.value + (part.value + (own + below.value));
    }
  }

  lemma PlusAssociates(done: multiset<Found>, stack: Finds, below: Finds)
    ensures Plus(Some(done), Plus(stack, below)) == Plus(Plus(Some(done), stack), below)
  {
    if stack.Some? && below.Some? {
      assert done + (stack.value + below.value) == (done + stack.value) + below.value;
    }
  }

  lemma PlusNothing(a: Finds)
    ensures Plus(a, Some(multiset{})) == a
  {
    if a.Some? { assert a.value + multiset{} == a.value; }
  }

  /** Popping a frame moves its exploration out of the stack's. */
  lemma PopFrame(tree: Node, rules: Rules, files: seq<Found>, linked: seq<Found>, rest: seq<Frame>, f: Frame)
    ensures Promised(tree, rules, files, linked, rest + [f])
         == Plus(Promised(tree, rules, files, linked, rest), Explore(tree, rules, f))
    ensures WeightAll(tree, rest + [f]) == WeightAll(tree, rest) + Weight(tree, f)
    ensures Promised(tree, rules, files, linked, rest)
         == Plus(Promised(tree, rules, files, linked, rest), ExploreFrom(tree, rules, f, 0))
  {
    Push(tree, rules, rest, f);
    var stack, below := ExploreAll(tree, rules, rest), Explore(tree, rules, f);
    PlusAssociates(multiset(files) + multiset(linked), stack, below);
    PlusNothing(Promised(tree, rules, files, linked, rest));
  }

  lemma RecordFile(tree: Node, rules: Rules, files: seq<Found>, rows: seq<Row>, linked: seq<Found>, links: seq<LinkRow>,
                   x: Found, row: Row)
    requires Recorded(tree, rules, files, rows, linked, links) && Records(tree, rules, x, row)
    ensures Recorded(tree, rules, files + [x], rows + [row], linked, links)
  {
  }

  lemma RecordLink(tree: Node, rules: Rules, files: seq<Found>, rows: seq<Row>, linked: seq<Found>, links: seq<LinkRow>,
                   x: Found, row: LinkRow)
    requires Recorded(tree, rules, files, rows, linked, links) && RecordsLink(x, row)
    ensures Recorded(tree, rules, files, rows, linked + [x], links + [row])
  {
  }

  lemma NothingPlus(a: Finds)
    ensures Plus(Some(multiset{}), a) == a
  {
    if a.Some? { assert multiset{} + a.value == a.value; }
  }

  lemma StepSkip(tree: Node, rules: Rules, f: Frame, n: nat, before: Finds, now: Finds)
    requires n < |f.listing| && f.listing[n].name in IGNORE_DIRS
    requires now == Plus(before, ExploreFrom(tree, rules, f, n))
    ensures now == Plus(before, ExploreFrom(tree, rules, f, n + 1))
    ensures WeightFrom(tree, f, n) <= WeightFrom(tree, f, n + 1)
  {
    var part := ExploreFrom(tree, rules, f, n);
    assert part.Some? ==> part.value + multiset{} == part.value;
  }

  lemma StepFile(tree: Node, rules: Rules, f: Frame, n: nat, before: Finds,
                 files: seq<Found>, linked: seq<Found>, pending: seq<Frame>, x: Found)
    requires n < |f.listing| && f.listing[n].node.File? && f.listing[n].name !in IGNORE_DIRS
    requires !Refused(tree, rules, f.trail + [f.listing[n].name], f.listing[n].node)
    requires x == FileAt(f.trail + [f.listing[n].name], f.at + [f.listing[n].name])
    requires Promised(tree, rules, files, linked, pending) == Plus(before, ExploreFrom(tree, rules, f, n))
    ensures Promised(tree, rules, files + [x], linked, pending) == Plus(before, ExploreFrom(tree, rules, f, n + 1))
    ensures WeightFrom(tree, f, n) <= WeightFrom(tree, f, n + 1)
  {
    PlusShuffle(multiset(files) + multiset(linked), ExploreAll(tree, rules, pending), before,
                ExploreFrom(tree, rules, f, n), multiset{x}, Some(multiset{}));
    assert multiset(files + [x]) + multiset(linked) == multiset(files) + multiset(linked) + multiset{x};
    assert multiset{x} + multiset{} == multiset{x};
    var stack := ExploreAll(tree, rules, pending);
    assert stack.Some? ==> stack.value + multiset{} == stack.value;
  }

  lemma StepDir(tree: Node, rules: Rules, f: Frame, n: nat, before: Finds,
                files: seq<Found>, linked: seq<Found>, pending: seq<Frame>, g: Frame)
    requires n < |f.listing| && f.listing[n].node.Dir? && f.listing[n].name !in IGNORE_DIRS
    requires !Refused(tree, rules, f.trail + [f.listing[n].name], f.listing[n].node)
    requires g == Opened(tree, f, f.listing[n])
    requires Promised(tree, rules, files, linked, pending) == Plus(before, ExploreFrom(tree, rules, f, n))
    ensures Promised(tree, rules, files, linked, pending + [g]) == Plus(before, ExploreFrom(tree, rules, f, n + 1))
    ensures WeightFrom(tree, f, n + 1) == WeightFrom(tree, f, n) + Weight(tree, g)
  {
    PlusShuffle(multiset(files) + multiset(linked), ExploreAll(tree, rules, pending), before,
                ExploreFrom(tree, rules, f, n), multiset{}, Explore(tree, rules, g));
    Push(tree, rules, pending, g);
    assert multiset(files) + multiset(linked) + multiset{} == multiset(files) + multiset(linked);
    var below := Explore(tree, rules, g);
    assert below.Some? ==> multiset{} + below.value == below.value;
  }

  lemma StepLink(tree: Node, rules: Rules, f: Frame, n: nat, before: Finds,
                 files: seq<Found>, linked: seq<Found>, pending: seq<Frame>, g: Frame, x: Found)
    requires n < |f.listing| && GoodLink(tree, f.listing[n].node) && f.listing[n].name !in IGNORE_DIRS
    requires !Refused(tree, rules, f.trail + [f.listing[n].name], f.listing[n].node)
    requires f.listing[n].node.target.value !in f.ancestors
    requires g == Opened(tree, f, f.listing[n]) && x == LinkAt(g.trail, g.at)
    requires Promised(tree, rules, files, linked, pending) == Plus(before, ExploreFrom(tree, rules, f, n))
    ensures Promised(tree, rules, files, linked + [x], pending + [g]) == Plus(before, ExploreFrom(tree, rules, f, n + 1))
    ensures WeightFrom(tree, f, n + 1) == WeightFrom(tree, f, n) + Weight(tree, g)
  {
    PlusShuffle(multiset(files) + multiset(linked), ExploreAll(tree, rules, pending), before,
                ExploreFrom(tree, rules, f, n), multiset{x}, Explore(tree, rules, g));
    Push(tree, rules, pending, g);
    assert multiset(files) + multiset(linked + [x]) == multiset(files) + multiset(linked) + multiset{x};
  }

  /** One entry the walk refuses dooms the whole exploration. */
  lemma StepRefused(tree: Node, rules: Rules, f: Frame, n: nat, before: Finds, whole: Finds)
    requires n < |f.listing| && f.listing[n].name !in IGNORE_DIRS
    requires var e := f.listing[n];
             || Refused(tree, rules, f.trail + [e.name], e.node)
             || (GoodLink(tree, e.node) && e.node.target.value in f.ancestors)
    requires whole == Plus(before, Explore(tree, rules, f))
    ensures whole.None?
  {
    if Explore(tree, rules, f).Some? { EveryEntryExplored(tree, rules, f, |f.listing|, n); }
  }
}
