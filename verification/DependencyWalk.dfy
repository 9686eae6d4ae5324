/** `_dependency_inventory`: the stack-driven walk that materialises internal directory links,
    proved against the unfolding of the directory graph. */
module DependencyWalk {
  import opened Text
  import opened Sorting
  import opened DependencyTree
  import opened DependencyExplore
  import opened DependencyMeaning
  import opened DependencyVerdict
  import opened DependencyRows

  /** The trees the walk lists. */
  ghost predicate Listable(tree: Node, rules: Rules) {
    !Cyclic(tree) && !HasUnacceptable(tree, rules) && !TooMany(tree)
  }

  lemma OverTheLimit(tree: Node, rules: Rules, files: seq<Found>, whole: Finds)
    requires WellFormed(tree) && tree.Dir? && whole == Explore(tree, rules, RootFrame(tree))
    requires whole.Some? ==> multiset(files) <= whole.value
    requires (forall i | 0 <= i < |files| :: files[i].FileAt?) && |files| > FILE_LIMIT
    ensures !Listable(tree, rules)
  {
    ExploredExactly(tree, rules);
    if whole.Some? { LimitExceeded(tree, rules, files); }
  }

  // ---------------------------------------------------------------- the finished walk

  lemma FilePlace(tree: Node, trail: seq<string>)
    requires trail != [] && Reach(tree, [], trail).Some? && Reach(tree, [], trail).value.File?
    ensures Walk(tree, [], trail).Some?
    ensures Lookup(tree, Walk(tree, [], trail).value) == Reach(tree, [], trail)
  {
    var init, last := trail[..|trail| - 1], trail[|trail| - 1];
    assert init + [last] == trail;
    ReachSplits(tree, [], init, last);
    WalkSnoc(tree, init, last);
    LookupSnoc(tree, Walk(tree, [], init).value, last);
  }

  /** The finds of a successful walk, told apart. */
  ghost predicate Complete(tree: Node, rules: Rules, files: seq<Found>, linked: seq<Found>) {
    && tree.Dir? && Explore(tree, rules, RootFrame(tree)) == Some(multiset(files) + multiset(linked))
    && (forall x | x in files :: x.FileAt?) && forall x | x in linked :: x.LinkAt?
  }

  lemma FindsAreReached(tree: Node, rules: Rules, files: seq<Found>, linked: seq<Found>, x: Found)
    requires WellFormed(tree) && Complete(tree, rules, files, linked)
    ensures x.FileAt? ==> (x in files <==> x.trail != [] && Target(tree, [], x.trail, x))
    ensures x.LinkAt? ==> (x in linked <==> x.trail != [] && Target(tree, [], x.trail, x))
  {
    RootFinds(tree, rules, x);
    assert x in multiset(files) + multiset(linked) <==> x in files || x in linked;
  }

  lemma NotTooMany(tree: Node, rules: Rules, files: seq<Found>, linked: seq<Found>)
    requires WellFormed(tree) && Complete(tree, rules, files, linked) && |files| <= FILE_LIMIT
    ensures !TooMany(tree)
  {
    forall trails: set<seq<string>> | UnfoldedFiles(tree, trails) ensures |trails| <= FILE_LIMIT {
      forall t | t in trails ensures exists x :: x in files && x.trail == t {
        FilePlace(tree, t);
        var x := FileAt(t, Walk(tree, [], t).value);
        FindsAreReached(tree, rules, files, linked, x);
        assert x in files && x.trail == t;
      }
      TrailsBounded(trails, files);
    }
  }

  lemma RowsDescribe(tree: Node, rules: Rules, files: seq<Found>, rows: seq<Row>, linked: seq<Found>, links: seq<LinkRow>)
    requires WellFormed(tree) && Complete(tree, rules, files, linked)
    requires Recorded(tree, rules, files, rows, linked, links)
    ensures forall row :: row in rows <==> exists trail :: RowOfTrail(tree, rules, trail, row)
  {
    forall row | row in rows ensures exists trail :: RowOfTrail(tree, rules, trail, row) {
      var i :| 0 <= i < |rows| && rows[i] == row;
      FindsAreReached(tree, rules, files, linked, files[i]);
      FilePlace(tree, files[i].trail);
      assert RowOfTrail(tree, rules, files[i].trail, row);
    }
    forall row, trail | RowOfTrail(tree, rules, trail, row) ensures row in rows {
      FilePlace(tree, trail);
      var x := FileAt(trail, Walk(tree, [], trail).value);
      FindsAreReached(tree, rules, files, linked, x);
      var i :| 0 <= i < |files| && files[i] == x;
      assert Records(tree, rules, files[i], rows[i]);
    }
  }

  lemma LinksDescribe(tree: Node, rules: Rules, files: seq<Found>, rows: seq<Row>, linked: seq<Found>, links: seq<LinkRow>)
    requires WellFormed(tree) && Complete(tree, rules, files, linked)
    requires Recorded(tree, rules, files, rows, linked, links)
    ensures forall row :: row in links <==> exists trail :: LinkOfTrail(tree, trail, row)
  {
    forall row | row in links ensures exists trail :: LinkOfTrail(tree, trail, row) {
      var i :| 0 <= i < |links| && links[i] == row;
      FindsAreReached(tree, rules, files, linked, linked[i]);
      assert RecordsLink(linked[i], links[i]);
      assert LinkOfTrail(tree, linked[i].trail, row);
    }
    forall row, trail | LinkOfTrail(tree, trail, row) ensures row in links {
      var x := LinkAt(trail, Reach(tree, [], trail).value.target.value);
      FindsAreReached(tree, rules, files, linked, x);
      var i :| 0 <= i < |linked| && linked[i] == x;
      assert RecordsLink(linked[i], links[i]);
    }
  }

  lemma InSorted<T(!new)>(s: seq<T>, key: T -> string)
    ensures forall x :: x in Sorted(s, key) <==> x in s
  {
    forall x ensures x in Sorted(s, key) <==> x in s {
      assert x in multiset(Sorted(s, key)) <==> x in multiset(s);
    }
  }

  lemma SortedRows(tree: Node, rules: Rules, files: seq<Found>, rows: seq<Row>, linked: seq<Found>, links: seq<LinkRow>)
    requires WellFormed(tree) && Complete(tree, rules, files, linked)
    requires Recorded(tree, rules, files, rows, linked, links)
    ensures OrderedBy(Sorted(rows, RowPath()), RowPath()) && DistinctKeys(Sorted(rows, RowPath()), RowPath())
    ensures OrderedBy(Sorted(links, LinkPath()), LinkPath()) && DistinctKeys(Sorted(links, LinkPath()), LinkPath())
  {
    DistinctTexts(tree, rules, files);
    DistinctTexts(tree, rules, linked);
    assert forall i | 0 <= i < |files| :: Records(tree, rules, files[i], rows[i]);
    assert forall i | 0 <= i < |linked| :: RecordsLink(linked[i], links[i]);
    SortedOrdered(rows, RowPath());
    SortedOrdered(links, LinkPath());
    DistinctKeysPermute(rows, Sorted(rows, RowPath()), RowPath());
    DistinctKeysPermute(links, Sorted(links, LinkPath()), LinkPath());
  }

  lemma FoundReadable(tree: Node, rules: Rules, files: seq<Found>, linked: seq<Found>, x: Found)
    requires WellFormed(tree) && Complete(tree, rules, files, linked) && x in files
    ensures ReadableAt(tree, Split(PathText(x.trail), '/'), x.at)
  {
    FindsAreReached(tree, rules, files, linked, x);
    FilePlace(tree, x.trail);
    TrailNames(tree, [], x.trail);
    SplitJoin(x.trail, '/');
  }

  lemma SourceKeys(tree: Node, rules: Rules, files: seq<Found>, rows: seq<Row>, sorted: seq<Row>, sources: map<string, Location>)
    requires forall row :: row in sorted <==> row in rows
    requires |files| == |rows| && forall i | 0 <= i < |files| :: Records(tree, rules, files[i], rows[i])
    requires Sourced(files, sources)
    ensures sources.Keys == (set row | row in sorted :: row.path)
  {
    var paths := set row | row in sorted :: row.path;
    forall text ensures text in sources.Keys <==> text in paths {
      if text in sources.Keys {
        var i :| 0 <= i < |files| && text == PathText(files[i].trail);
        assert Records(tree, rules, files[i], rows[i]) && rows[i] in sorted;
      }
      if text in paths {
        var row :| row in sorted && row.path == text;
        var i :| 0 <= i < |rows| && rows[i] == row;
        assert Records(tree, rules, files[i], rows[i]);
      }
    }
  }

  lemma ReadableRows(tree: Node, rules: Rules, files: seq<Found>, rows: seq<Row>, linked: seq<Found>, links: seq<LinkRow>,
                     sources: map<string, Location>)
    requires WellFormed(tree) && Complete(tree, rules, files, linked)
    requires Recorded(tree, rules, files, rows, linked, links) && Sourced(files, sources)
    ensures Readable(tree, Sorted(rows, RowPath()), sources)
  {
    assert forall i | 0 <= i < |files| :: Records(tree, rules, files[i], rows[i]);
    InSorted(rows, RowPath());
    SourceKeys(tree, rules, files, rows, Sorted(rows, RowPath()), sources);
    forall row | row in rows
      ensures row.path in sources && ReadableAt(tree, Split(row.path, '/'), sources[row.path])
    {
      var i :| 0 <= i < |rows| && rows[i] == row;
      FoundReadable(tree, rules, files, linked, files[i]);
      assert sources[PathText(files[i].trail)] == files[i].at;
    }
  }

  lemma SortedDescribe(tree: Node, rules: Rules, files: seq<Found>, rows: seq<Row>, linked: seq<Found>, links: seq<LinkRow>)
    requires WellFormed(tree) && Complete(tree, rules, files, linked)
    requires Recorded(tree, rules, files, rows, linked, links)
    ensures var sorted := Sorted(rows, RowPath());
            Describes(tree, rules, Inventory(sorted, TotalSize(sorted), Sorted(links, LinkPath())))
  {
    assert forall i | 0 <= i < |linked| :: RecordsLink(linked[i], links[i]);
    RowsDescribe(tree, rules, files, rows, linked, links);
    LinksDescribe(tree, rules, files, rows, linked, links);
    SortedRows(tree, rules, files, rows, linked, links);
    InSorted(rows, RowPath());
    InSorted(links, LinkPath());
  }

  lemma Finished(tree: Node, rules: Rules, files: seq<Found>, rows: seq<Row>, linked: seq<Found>, links: seq<LinkRow>,
                 sources: map<string, Location>)
    requires WellFormed(tree) && tree.Dir? && |rows| <= FILE_LIMIT
    requires Explore(tree, rules, RootFrame(tree)) == Some(multiset(files) + multiset(linked))
    requires Recorded(tree, rules, files, rows, linked, links) && Sourced(files, sources)
    ensures Listable(tree, rules)
    ensures var sorted := Sorted(rows, RowPath());
            && Describes(tree, rules, Inventory(sorted, TotalSize(sorted), Sorted(links, LinkPath())))
            && Readable(tree, sorted, sources)
  {
    ExploredExactly(tree, rules);
    NotTooMany(tree, rules, files, linked);
    SortedDescribe(tree, rules, files, rows, linked, links);
    ReadableRows(tree, rules, files, rows, linked, links, sources);
  }

  // ---------------------------------------------------------------- the walk

  /** What the walk carries from entry to entry. */
  datatype Carried = Carried(rows: seq<Row>, links: seq<LinkRow>, sources: map<string, Location>, pending: seq<Frame>)

  ghost predicate Sound(tree: Node, rules: Rules, c: Carried, files: seq<Found>, linked: seq<Found>)
    requires tree.Dir?
  {
    && (forall f | f in c.pending :: Placed(tree, f))
    && Recorded(tree, rules, files, c.rows, linked, c.links) && |c.rows| <= FILE_LIMIT
    && (Explore(tree, rules, RootFrame(tree)).Some? ==> Sourced(files, c.sources))
  }

  lemma Doomed(tree: Node, rules: Rules, f: Frame, n: nat, before: Finds)
    requires WellFormed(tree) && tree.Dir? && n < |f.listing| && f.listing[n].name !in IGNORE_DIRS
    requires Plus(before, Explore(tree, rules, f)) == Explore(tree, rules, RootFrame(tree))
    requires var e := f.listing[n];
             || Refused(tree, rules, f.trail + [e.name], e.node)
             || (GoodLink(tree, e.node) && e.node.target.value in f.ancestors)
    ensures !Listable(tree, rules)
  {
    StepRefused(tree, rules, f, n, before, Explore(tree, rules, RootFrame(tree)));
    ExploredExactly(tree, rules);
  }

  /** The inner loop's position: `n` entries of the popped frame are done. */
  ghost predicate Midway(tree: Node, rules: Rules, frame: Frame, n: nat, before: Finds,
                         c: Carried, files: seq<Found>, linked: seq<Found>)
    requires tree.Dir? && n <= |frame.listing|
  {
    && Sound(tree, rules, c, files, linked)
    && Promised(tree, rules, files, linked, c.pending) == Plus(before, ExploreFrom(tree, rules, frame, n))
  }

  ghost predicate Visiting(tree: Node, rules: Rules, frame: Frame, before: Finds) {
    && WellFormed(tree) && tree.Dir? && Placed(tree, frame)
    && Plus(before, Explore(tree, rules, frame)) == Explore(tree, rules, RootFrame(tree))
  }

  // What a visited entry adds: a pushed frame whose trail is longer by the entry's name, and a row.

  function DirFrame(frame: Frame, e: Entry): Frame
    requires e.node.Dir?
  {
    var at := frame.at + [e.name];
    Frame(frame.trail + [e.name], at, e.node.entries, frame.ancestors + {at})
  }

  function LinkFrame(tree: Node, frame: Frame, e: Entry): Frame
    requires GoodLink(tree, e.node)
  {
    var target := e.node.target.value;
    Frame(frame.trail + [e.name], target, Entries(tree, target), frame.ancestors + {target})
  }

  function LinkRowOf(tree: Node, frame: Frame, e: Entry): LinkRow
    requires GoodLink(tree, e.node)
  {
    LinkRow(PathText(frame.trail + [e.name]), PathText(e.node.target.value))
  }

  function WithLink(tree: Node, frame: Frame, e: Entry, c: Carried): Carried
    requires GoodLink(tree, e.node)
  {
    c.(links := c.links + [LinkRowOf(tree, frame, e)], pending := c.pending + [LinkFrame(tree, frame, e)])
  }

  function WithDir(frame: Frame, e: Entry, c: Carried): Carried
    requires e.node.Dir?
  {
    c.(pending := c.pending + [DirFrame(frame, e)])
  }

  function WithFile(rules: Rules, frame: Frame, e: Entry, c: Carried): Carried
    requires e.node.File?
  {
    var path := PathText(frame.trail + [e.name]);
    c.(rows := c.rows + [HashFile(rules, e.node.data, path)], sources := c.sources[path := frame.at + [e.name]])
  }

  lemma LinkVisited(tree: Node, rules: Rules, frame: Frame, n: nat, c: Carried,
                    files: seq<Found>, linked: seq<Found>, before: Finds)
    requires n < |frame.listing| && frame.listing[n].name !in IGNORE_DIRS
    requires GoodLink(tree, frame.listing[n].node) && frame.listing[n].node.target.value !in frame.ancestors
    requires SafeRelative(PathText(frame.trail + [frame.listing[n].name]))
    requires Visiting(tree, rules, frame, before) && Midway(tree, rules, frame, n, before, c, files, linked)
    ensures var e := frame.listing[n]; var d := WithLink(tree, frame, e, c);
      && Midway(tree, rules, frame, n + 1, before, d, files, linked + [LinkAt(frame.trail + [e.name], e.node.target.value)])
      && WeightAll(tree, d.pending) - WeightAll(tree, c.pending) <= WeightFrom(tree, frame, n + 1) - WeightFrom(tree, frame, n)
  {
    var e := frame.listing[n];
    var x := LinkAt(frame.trail + [e.name], e.node.target.value);
    StepLink(tree, rules, frame, n, before, files, linked, c.pending, LinkFrame(tree, frame, e), x);
    Push(tree, rules, c.pending, LinkFrame(tree, frame, e));
    RecordLink(tree, rules, files, c.rows, linked, c.links, x, LinkRowOf(tree, frame, e));
  }

  /** Refused: outside the root, broken, not a directory, or back to an ancestor.  Otherwise
      recorded, and its target is pushed as an ancestor of whatever it shows. */
  method VisitLink(tree: Node, rules: Rules, frame: Frame, n: nat, c: Carried,
                   ghost files: seq<Found>, ghost linked: seq<Found>, ghost before: Finds)
      returns (ok: bool, d: Carried, ghost linked': seq<Found>)
    requires n < |frame.listing| && frame.listing[n].node.Link? && frame.listing[n].name !in IGNORE_DIRS
    requires SafeRelative(PathText(frame.trail + [frame.listing[n].name]))
    requires Visiting(tree, rules, frame, before) && Midway(tree, rules, frame, n, before, c, files, linked)
    ensures ok <==> GoodLink(tree, frame.listing[n].node) && frame.listing[n].node.target.value !in frame.ancestors
    ensures ok ==> d == WithLink(tree, frame, frame.listing[n], c)
    ensures if ok then Midway(tree, rules, frame, n + 1, before, d, files, linked') else !Listable(tree, rules)
    ensures ok ==> WeightAll(tree, d.pending) - WeightAll(tree, c.pending)
                     <= WeightFrom(tree, frame, n + 1) - WeightFrom(tree, frame, n)
  {
    var e := frame.listing[n];
    var node := e.node;
    if node.target.None? || !IsDir(tree, node.target.value) || node.target.value in frame.ancestors {
      Doomed(tree, rules, frame, n, before);
      return false, c, linked;
    }
    LinkVisited(tree, rules, frame, n, c, files, linked, before);
    var next := LinkFrame(tree, frame, e);
    ok, d := true, c.(links := c.links + [LinkRowOf(tree, frame, e)], pending := c.pending + [next]);
    linked' := linked + [LinkAt(frame.trail + [e.name], node.target.value)];
  }

  /** Pushed without a test against the ancestors, among which it then is. */
  method VisitDir(tree: Node, rules: Rules, frame: Frame, n: nat, c: Carried,
                  ghost files: seq<Found>, ghost linked: seq<Found>, ghost before: Finds)
      returns (d: Carried)
    requires n < |frame.listing| && frame.listing[n].node.Dir? && frame.listing[n].name !in IGNORE_DIRS
    requires SafeRelative(PathText(frame.trail + [frame.listing[n].name]))
    requires Visiting(tree, rules, frame, before) && Midway(tree, rules, frame, n, before, c, files, linked)
    ensures d == WithDir(frame, frame.listing[n], c)
    ensures Midway(tree, rules, frame, n + 1, before, d, files, linked)
    ensures WeightAll(tree, d.pending) - WeightAll(tree, c.pending)
              <= WeightFrom(tree, frame, n + 1) - WeightFrom(tree, frame, n)
  {
    var next := DirFrame(frame, frame.listing[n]);
    EntryStep(tree, frame, frame.listing[n]);
    StepDir(tree, rules, frame, n, before, files, linked, c.pending, next);
    Push(tree, rules, c.pending, next);
    d := c.(pending := c.pending + [next]);
  }

  lemma FileVisited(tree: Node, rules: Rules, frame: Frame, n: nat, before: Finds,
                    c: Carried, files: seq<Found>, linked: seq<Found>, x: Found)
    requires n < |frame.listing| && frame.listing[n].node.File? && frame.listing[n].name !in IGNORE_DIRS
    requires Visiting(tree, rules, frame, before) && Sound(tree, rules, c, files, linked)
    requires Promised(tree, rules, files + [x], linked, c.pending) == Plus(before, ExploreFrom(tree, rules, frame, n + 1))
    requires x == FileAt(frame.trail + [frame.listing[n].name], frame.at + [frame.listing[n].name])
    ensures Recorded(tree, rules, files + [x], c.rows + [HashFile(rules, frame.listing[n].node.data, PathText(x.trail))],
                     linked, c.links)
    ensures var whole := Explore(tree, rules, RootFrame(tree));
            whole.Some? ==> multiset(files + [x]) <= whole.value && Sourced(files + [x], c.sources[PathText(x.trail) := x.at])
  {
    EntryStep(tree, frame, frame.listing[n]);
    RecordFile(tree, rules, files, c.rows, linked, c.links, x,
               HashFile(rules, frame.listing[n].node.data, PathText(x.trail)));
    if Explore(tree, rules, RootFrame(tree)).Some? {
      PartOfWhole(tree, rules, frame, n + 1, before, files + [x], linked, c.pending);
      SourcedStep(tree, rules, files, c.sources, x);
    }
  }

  /** Refused: a private name, or one file too many.  Otherwise it gets a row and a place. */
  method VisitFile(tree: Node, rules: Rules, frame: Frame, n: nat, c: Carried,
                   ghost files: seq<Found>, ghost linked: seq<Found>, ghost before: Finds)
      returns (ok: bool, d: Carried, ghost files': seq<Found>)
    requires n < |frame.listing| && frame.listing[n].node.File? && frame.listing[n].name !in IGNORE_DIRS
    requires SafeRelative(PathText(frame.trail + [frame.listing[n].name]))
    requires Visiting(tree, rules, frame, before) && Midway(tree, rules, frame, n, before, c, files, linked)
    ensures ok <==> !rules.isPrivate(PathText(frame.trail + [frame.listing[n].name])) && |c.rows| < FILE_LIMIT
    ensures ok ==> d == WithFile(rules, frame, frame.listing[n], c)
    ensures if ok then Midway(tree, rules, frame, n + 1, before, d, files', linked) else !Listable(tree, rules)
    ensures ok ==> d.pending == c.pending && WeightFrom(tree, frame, n) <= WeightFrom(tree, frame, n + 1)
  {
    var e := frame.listing[n];
    var trail := frame.trail + [e.name];
    ghost var x := FileAt(trail, frame.at + [e.name]);
    files' := files + [x];
    if rules.isPrivate(PathText(trail)) {
      Doomed(tree, rules, frame, n, before);
      return false, c, files;
    }
    StepFile(tree, rules, frame, n, before, files, linked, c.pending, x);
    FileVisited(tree, rules, frame, n, before, c, files, linked, x);
    d := WithFile(rules, frame, e, c);
    ok := |d.rows| <= FILE_LIMIT;
    if !ok { OverTheLimit(tree, rules, files', Explore(tree, rules, RootFrame(tree))); }
  }

  /** The body of the inner loop: one directory entry. */
  method VisitEntry(tree: Node, rules: Rules, frame: Frame, n: nat, c: Carried,
                    ghost files: seq<Found>, ghost linked: seq<Found>, ghost before: Finds)
      returns (ok: bool, d: Carried, ghost files': seq<Found>, ghost linked': seq<Found>)
    requires n < |frame.listing|
    requires Visiting(tree, rules, frame, before) && Midway(tree, rules, frame, n, before, c, files, linked)
    ensures if ok then Midway(tree, rules, frame, n + 1, before, d, files', linked') else !Listable(tree, rules)
    ensures ok ==> WeightAll(tree, d.pending) - WeightAll(tree, c.pending)
                     <= WeightFrom(tree, frame, n + 1) - WeightFrom(tree, frame, n)
  {
    var Entry(name, node) := frame.listing[n];
    ok, d, files', linked' := true, c, files, linked;
    if name in IGNORE_DIRS {
      StepSkip(tree, rules, frame, n, before, Promised(tree, rules, files, linked, c.pending));
    } else if !SafeRelative(PathText(frame.trail + [name])) {
      Doomed(tree, rules, frame, n, before);
      ok := false;
    } else if node.Link? {
      ok, d, linked' := VisitLink(tree, rules, frame, n, c, files, linked, before);
    } else if node.Dir? {
      d := VisitDir(tree, rules, frame, n, c, files, linked, before);
    } else if node.File? {
      ok, d, files' := VisitFile(tree, rules, frame, n, c, files, linked, before);
    } else {
      Doomed(tree, rules, frame, n, before);
      ok := false;
    }
  }

  method DependencyInventory(tree: Node, rules: Rules)
      returns (r: Result<Inventory>, sourceFiles: map<string, Location>)
    requires WellFormed(tree) && tree.Dir?
    ensures r.Ok? <==> Listable(tree, rules)
    ensures r.Ok? ==> Describes(tree, rules, r.value)
    ensures r.Ok? ==> Readable(tree, r.value.files, sourceFiles)
  {
    var c := Carried([], [], map[], [RootFrame(tree)]);
    ghost var files: seq<Found>, linked: seq<Found> := [], [];
    ghost var whole := Explore(tree, rules, RootFrame(tree));
    PopFrame(tree, rules, files, linked, [], RootFrame(tree));
    assert [] + [RootFrame(tree)] == c.pending;
    NothingPlus(whole);
    assert multiset(files) + multiset(linked) + multiset{} == multiset{};
    while c.pending != []
      invariant Sound(tree, rules, c, files, linked)
      invariant Promised(tree, rules, files, linked, c.pending) == whole
      decreases WeightAll(tree, c.pending)
    {
      var frame, rest := c.pending[|c.pending| - 1], c.pending[..|c.pending| - 1];
      assert rest + [frame] == c.pending;
      PopFrame(tree, rules, files, linked, rest, frame);
      c := c.(pending := rest);
      ghost var before := Promised(tree, rules, files, linked, rest);
      var n := 0;
      while n < |frame.listing|
        invariant n <= |frame.listing| && Midway(tree, rules, frame, n, before, c, files, linked)
        invariant WeightAll(tree, c.pending) <= WeightAll(tree, rest) + WeightFrom(tree, frame, n)
      {
        var ok;
        ok, c, files, linked := VisitEntry(tree, rules, frame, n, c, files, linked, before);
        if !ok { return Rejected, map[]; }
        n := n + 1;
      }
    }
    r := Ok(Inventory(Sorted(c.rows, RowPath()), TotalSize(Sorted(c.rows, RowPath())), Sorted(c.links, LinkPath())));
    sourceFiles := c.sources;
    PlusNothing(Some(multiset(files) + multiset(linked)));
    Finished(tree, rules, files, c.rows, linked, c.links, sourceFiles);
  }
}
