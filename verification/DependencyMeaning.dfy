/** What the exploration finds, in terms of the unfolding alone: every regular file and every
    materialised link that some trail of names leads to, each exactly once. */
module DependencyMeaning {
  import opened Text
  import opened DependencyTree
  import opened DependencyExplore

  /** The frame shows the real directory it names. */
  predicate Placed(tree: Node, f: Frame) {
    Lookup(tree, f.at) == Some(Dir(f.listing))
  }

  /** `x` is what the non-empty `names` lead to from `at`. */
  predicate Target(tree: Node, at: Location, names: seq<string>, x: Found)
    requires names != []
  {
    match x
    case FileAt(_, place) =>
      && Reach(tree, at, names).Some? && Reach(tree, at, names).value.File?
      && Walk(tree, at, names) == Some(place)
    case LinkAt(_, target) =>
      Reach(tree, at, names) == Some(Link(Some(target))) && IsDir(tree, target)
  }

  predicate Leads(tree: Node, f: Frame, x: Found) {
    && |f.trail| < |x.trail| && f.trail == x.trail[..|f.trail|]
    && Target(tree, f.at, x.trail[|f.trail|..], x)
  }

  /** The entry itself, under the trail that opens it. */
  predicate Own(tree: Node, f: Frame, e: Entry, x: Found) {
    && x.trail == f.trail + [e.name]
    && match x
       case FileAt(_, place) => e.node.File? && place == f.at + [e.name]
       case LinkAt(_, target) => e.node == Link(Some(target)) && IsDir(tree, target)
  }

  predicate Opens(tree: Node, node: Node) { node.Dir? || GoodLink(tree, node) }

  lemma EntryStep(tree: Node, f: Frame, e: Entry)
    requires WellFormed(tree) && Placed(tree, f) && e in f.listing && e.name !in IGNORE_DIRS
    ensures Shown(tree, f.at, e.name) == Some(e.node)
    ensures !e.node.Link? ==> Follow(tree, f.at, e.name) == Some(f.at + [e.name])
    ensures Opens(tree, e.node) ==>
              && Follow(tree, f.at, e.name) == Some(Opened(tree, f, e).at)
              && Placed(tree, Opened(tree, f, e))
    ensures Lookup(tree, f.at + [e.name]) == Some(e.node)
  {
    assert IsDir(tree, f.at) && Entries(tree, f.at) == f.listing;
    var i :| 0 <= i < |f.listing| && f.listing[i] == e;
    LookupChild(tree, f.at, i);
  }

  lemma NothingPast(tree: Node, at: Location, names: seq<string>)
    requires !IsDir(tree, at) && names != []
    ensures Reach(tree, at, names).None?
  {
  }

  /** Trails through an entry: the entry itself, or a trail from the frame it opens. */
  lemma LeadsThrough(tree: Node, f: Frame, e: Entry, x: Found)
    requires WellFormed(tree) && Placed(tree, f) && e in f.listing && e.name !in IGNORE_DIRS
    requires |f.trail| < |x.trail| && f.trail == x.trail[..|f.trail|] && x.trail[|f.trail|] == e.name
    ensures Leads(tree, f, x) <==>
              Own(tree, f, e, x) || (Opens(tree, e.node) && Leads(tree, Opened(tree, f, e), x))
  {
    EntryStep(tree, f, e);
    var names := x.trail[|f.trail|..];
    var trail := f.trail + [e.name];
    assert trail == x.trail[..|trail|];
    if |names| == 1 {
      assert x.trail == trail;
      assert names == [e.name] && names[1..] == [];
      assert Walk(tree, f.at, names) == Follow(tree, f.at, e.name);
    } else {
      assert x.trail != trail;
      assert names[1..] == x.trail[|trail|..];
      if !Opens(tree, e.node) { NothingPast(tree, f.at + [e.name], names[1..]); }
    }
  }

  lemma OpenedAlong(tree: Node, f: Frame, e: Entry, x: Found)
    requires Opens(tree, e.node) && Leads(tree, Opened(tree, f, e), x)
    ensures |f.trail| < |x.trail| && f.trail == x.trail[..|f.trail|] && x.trail[|f.trail|] == e.name
    ensures !Own(tree, f, e, x)
  {
    var g := Opened(tree, f, e);
    assert x.trail[|f.trail|] == g.trail[|f.trail|] == e.name;
    assert f.trail == g.trail[..|f.trail|] == x.trail[..|f.trail|];
  }

  ghost predicate Lists(tree: Node, f: Frame, found: multiset<Found>) {
    && (forall x :: x in found <==> Leads(tree, f, x))
    && forall x :: found[x] <= 1
  }

  predicate Through(f: Frame, name: string, x: Found) {
    |f.trail| < |x.trail| && x.trail[|f.trail|] == name
  }

  ghost predicate ListsThrough(tree: Node, f: Frame, e: Entry, found: multiset<Found>) {
    && (forall x :: x in found <==> Leads(tree, f, x) && Through(f, e.name, x))
    && forall x :: found[x] <= 1
  }

  predicate ThroughFirst(f: Frame, n: nat, x: Found)
    requires n <= |f.listing|
  {
    exists i | 0 <= i < n :: Through(f, f.listing[i].name, x)
  }

  ghost predicate ListsFirst(tree: Node, f: Frame, n: nat, found: multiset<Found>)
    requires n <= |f.listing|
  {
    && (forall x :: x in found <==> Leads(tree, f, x) && ThroughFirst(f, n, x))
    && forall x :: found[x] <= 1
  }

  lemma {:induction false} ExploreLists(tree: Node, rules: Rules, f: Frame)
    requires WellFormed(tree) && Placed(tree, f) && Explore(tree, rules, f).Some?
    ensures Lists(tree, f, Explore(tree, rules, f).value)
    decreases |Dirs(tree) - f.ancestors|, f.listing, |f.listing| + 1
  {
    ExploreFromLists(tree, rules, f, |f.listing|);
    forall x | Leads(tree, f, x) ensures ThroughFirst(f, |f.listing|, x) {
      var name := x.trail[|f.trail|..][0];
      assert Shown(tree, f.at, name).Some?;
      var i := FindIndex(f.listing, name);
      assert Through(f, f.listing[i].name, x);
    }
  }

  lemma OneMoreEntry(tree: Node, f: Frame, n: nat, before: multiset<Found>, last: multiset<Found>)
    requires 0 < n <= |f.listing| && GoodListing(f.listing)
    requires ListsFirst(tree, f, n - 1, before) && ListsThrough(tree, f, f.listing[n - 1], last)
    ensures ListsFirst(tree, f, n, before + last)
  {
    forall x
      ensures (before + last)[x] == before[x] + last[x] <= 1
      ensures x in before + last <==> Leads(tree, f, x) && ThroughFirst(f, n, x)
    {
      assert ThroughFirst(f, n, x) <==> ThroughFirst(f, n - 1, x) || Through(f, f.listing[n - 1].name, x);
      assert x in before <==> before[x] > 0;
      assert x in last <==> last[x] > 0;
    }
  }

  lemma {:induction false} ExploreFromLists(tree: Node, rules: Rules, f: Frame, n: nat)
    requires WellFormed(tree) && Placed(tree, f) && n <= |f.listing|
    requires ExploreFrom(tree, rules, f, n).Some?
    ensures ListsFirst(tree, f, n, ExploreFrom(tree, rules, f, n).value)
    decreases |Dirs(tree) - f.ancestors|, f.listing, n, 1
  {
    if n > 0 {
      ExploreFromLists(tree, rules, f, n - 1);
      ExploreEntryLists(tree, rules, f, f.listing[n - 1]);
      assert IsDir(tree, f.at) && Entries(tree, f.at) == f.listing;
      OneMoreEntry(tree, f, n, ExploreFrom(tree, rules, f, n - 1).value,
                   ExploreEntry(tree, rules, f, f.listing[n - 1]).value);
    }
  }

  lemma FileLists(tree: Node, f: Frame, e: Entry)
    requires WellFormed(tree) && Placed(tree, f) && e in f.listing && e.name !in IGNORE_DIRS
    requires e.node.File?
    ensures ListsThrough(tree, f, e, multiset{FileAt(f.trail + [e.name], f.at + [e.name])})
  {
    forall x: Found
      ensures Leads(tree, f, x) && Through(f, e.name, x) <==> x == FileAt(f.trail + [e.name], f.at + [e.name])
    {
      if |f.trail| < |x.trail| && f.trail == x.trail[..|f.trail|] && x.trail[|f.trail|] == e.name {
        LeadsThrough(tree, f, e, x);
      }
    }
  }

  lemma OpenedLists(tree: Node, f: Frame, e: Entry, found: multiset<Found>, below: multiset<Found>)
    requires WellFormed(tree) && Placed(tree, f) && e in f.listing && e.name !in IGNORE_DIRS
    requires Opens(tree, e.node) && Lists(tree, Opened(tree, f, e), below)
    requires found == (if e.node.Dir? then below
                       else multiset{LinkAt(f.trail + [e.name], e.node.target.value)} + below)
    ensures ListsThrough(tree, f, e, found)
  {
    forall x: Found
      ensures found[x] <= 1
      ensures x in found <==> Leads(tree, f, x) && Through(f, e.name, x)
    {
      if Leads(tree, Opened(tree, f, e), x) { OpenedAlong(tree, f, e, x); }
      if |f.trail| < |x.trail| && f.trail == x.trail[..|f.trail|] && x.trail[|f.trail|] == e.name {
        LeadsThrough(tree, f, e, x);
      }
      assert x in found <==> Own(tree, f, e, x) || x in below;
    }
  }

  lemma {:induction false} ExploreEntryLists(tree: Node, rules: Rules, f: Frame, e: Entry)
    requires WellFormed(tree) && Placed(tree, f) && e in f.listing
    requires ExploreEntry(tree, rules, f, e).Some?
    ensures ListsThrough(tree, f, e, ExploreEntry(tree, rules, f, e).value)
    decreases |Dirs(tree) - f.ancestors|, f.listing, 0
  {
    if e.name in IGNORE_DIRS {
      forall x | Leads(tree, f, x) ensures !Through(f, e.name, x) {
        assert x.trail[|f.trail|] == x.trail[|f.trail|..][0];
      }
    } else {
      EntryStep(tree, f, e);
      if Opens(tree, e.node) {
        var g := Opened(tree, f, e);
        AncestorsGrow(tree, f.ancestors, g.at);
        ExploreLists(tree, rules, g);
        OpenedLists(tree, f, e, ExploreEntry(tree, rules, f, e).value, Explore(tree, rules, g).value);
      } else {
        FileLists(tree, f, e);
      }
    }
  }
}
