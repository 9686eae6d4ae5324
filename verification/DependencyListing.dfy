/** One directory tree listed in two orders: what every trail leads to is the same, so the
    inventory does not depend on the order in which directories are read. */
module DependencyListing {
  import opened Text
  import opened DependencyTree
  import opened DependencyRows

  /** The entries of one directory are found in the other under the same names, their
      contents reordered in turn; everything but the order is equal. */
  ghost predicate Reordered(a: Node, b: Node)
    decreases a
  {
    match a
    case Dir(entries) =>
      && b.Dir?
      && (forall i | 0 <= i < |entries| :: HasCounterpart(entries[i], b.entries))
      && forall j | 0 <= j < |b.entries| :: exists i | 0 <= i < |entries| :: entries[i].name == b.entries[j].name
    case _ => a == b
  }

  ghost predicate HasCounterpart(e: Entry, others: seq<Entry>)
    decreases e
  {
    exists j | 0 <= j < |others| :: e.name == others[j].name && Reordered(e.node, others[j].node)
  }

  /** The same kind of node, and for files and links the same one. */
  predicate Alike(a: Option<Node>, b: Option<Node>) {
    if a.None? || b.None? then a == b
    else if a.value.Dir? then b.value.Dir?
    else a == b
  }

  ghost predicate SameShape(a: Node, b: Node) { forall at :: Alike(Lookup(a, at), Lookup(b, at)) }

  lemma CounterpartFound(e: Entry, others: seq<Entry>)
    requires HasCounterpart(e, others) && DistinctNames(others)
    ensures Find(others, e.name).Some? && Reordered(e.node, Find(others, e.name).value)
  {
    var j :| 0 <= j < |others| && e.name == others[j].name && Reordered(e.node, others[j].node);
    FindEntry(others, j);
  }

  lemma FoundReordered(a: Node, b: Node, name: string)
    requires a.Dir? && Reordered(a, b) && DistinctNames(a.entries) && DistinctNames(b.entries)
    ensures Find(a.entries, name).Some? <==> Find(b.entries, name).Some?
    ensures Find(a.entries, name).Some? ==> Reordered(Find(a.entries, name).value, Find(b.entries, name).value)
  {
    if Find(a.entries, name).Some? {
      var i := FindIndex(a.entries, name);
      CounterpartFound(a.entries[i], b.entries);
    } else if Find(b.entries, name).Some? {
      var j := FindIndex(b.entries, name);
      var i :| 0 <= i < |a.entries| && a.entries[i].name == b.entries[j].name;
      FindEntry(a.entries, i);
    }
  }

  lemma ChildReordered(a: Node, b: Node, name: string)
    requires WellFormed(a) && WellFormed(b) && Reordered(a, b) && a.Dir?
    ensures b.Dir? && (Find(a.entries, name).Some? <==> Find(b.entries, name).Some?)
    ensures Find(a.entries, name).Some? ==>
      && WellFormed(Find(a.entries, name).value) && WellFormed(Find(b.entries, name).value)
      && Reordered(Find(a.entries, name).value, Find(b.entries, name).value)
  {
    assert IsDir(a, []) && Entries(a, []) == a.entries && IsDir(b, []) && Entries(b, []) == b.entries;
    FoundReordered(a, b, name);
    if Find(a.entries, name).Some? {
      ChildWellFormed(a, name);
      ChildWellFormed(b, name);
    }
  }

  lemma SameKindReordered(a: Node, b: Node)
    requires Reordered(a, b)
    ensures Alike(Some(a), Some(b)) && (a.Dir? <==> b.Dir?)
  {
  }

  lemma {:induction false} LookupReordered(a: Node, b: Node, at: Location)
    requires WellFormed(a) && WellFormed(b) && Reordered(a, b)
    ensures Alike(Lookup(a, at), Lookup(b, at))
    decreases |at|
  {
    SameKindReordered(a, b);
    if at != [] && a.Dir? {
      ChildReordered(a, b, at[0]);
      if Find(a.entries, at[0]).Some? {
        LookupReordered(Find(a.entries, at[0]).value, Find(b.entries, at[0]).value, at[1..]);
      }
    }
  }

  lemma ReorderedSameShape(a: Node, b: Node)
    requires WellFormed(a) && WellFormed(b) && Reordered(a, b)
    ensures SameShape(a, b)
  {
    forall at ensures Alike(Lookup(a, at), Lookup(b, at)) { LookupReordered(a, b, at); }
  }

  // ---------------------------------------------------------------- trails do not see the order

  lemma ShownAlike(a: Node, b: Node, at: Location, name: string)
    requires SameShape(a, b)
    ensures Alike(Shown(a, at, name), Shown(b, at, name))
  {
    assert Alike(Lookup(a, at), Lookup(b, at));
    if IsDir(a, at) {
      LookupSnoc(a, at, name);
      LookupSnoc(b, at, name);
      assert Alike(Lookup(a, at + [name]), Lookup(b, at + [name]));
    }
  }

  lemma GoodLinkAlike(a: Node, b: Node, node: Node)
    requires SameShape(a, b)
    ensures GoodLink(a, node) <==> GoodLink(b, node)
  {
    if node.Link? && node.target.Some? { assert Alike(Lookup(a, node.target.value), Lookup(b, node.target.value)); }
  }

  lemma FollowAlike(a: Node, b: Node, at: Location, name: string)
    requires SameShape(a, b)
    ensures Follow(a, at, name) == Follow(b, at, name)
  {
    ShownAlike(a, b, at, name);
    if Shown(a, at, name).Some? { GoodLinkAlike(a, b, Shown(a, at, name).value); }
  }

  lemma {:induction false} ReachAlike(a: Node, b: Node, at: Location, trail: seq<string>)
    requires SameShape(a, b) && trail != []
    ensures Alike(Reach(a, at, trail), Reach(b, at, trail))
    decreases |trail|
  {
    ShownAlike(a, b, at, trail[0]);
    FollowAlike(a, b, at, trail[0]);
    if |trail| > 1 && Follow(a, at, trail[0]).Some? { ReachAlike(a, b, Follow(a, at, trail[0]).value, trail[1..]); }
  }

  /** An inventory of one listing is an inventory of the other. */
  lemma DescribesAlike(a: Node, b: Node, rules: Rules, inv: Inventory)
    requires SameShape(a, b) && Describes(a, rules, inv)
    ensures Describes(b, rules, inv)
  {
    forall trail, row ensures RowOfTrail(a, rules, trail, row) <==> RowOfTrail(b, rules, trail, row) {
      if trail != [] { ReachAlike(a, b, [], trail); }
    }
    forall trail, row ensures LinkOfTrail(a, trail, row) <==> LinkOfTrail(b, trail, row) {
      if trail != [] {
        ReachAlike(a, b, [], trail);
        if Reach(a, [], trail).Some? { GoodLinkAlike(a, b, Reach(a, [], trail).value); }
      }
    }
    forall row ensures row in inv.files <==> exists trail :: RowOfTrail(b, rules, trail, row) {
      assert row in inv.files <==> exists trail :: RowOfTrail(a, rules, trail, row);
    }
    forall row ensures row in inv.links <==> exists trail :: LinkOfTrail(b, trail, row) {
      assert row in inv.links <==> exists trail :: LinkOfTrail(a, trail, row);
    }
  }

  // ---------------------------------------------------------------- nor do the refusals

  lemma SameShapeBack(a: Node, b: Node)
    requires SameShape(a, b)
    ensures SameShape(b, a)
  {
    forall at ensures Alike(Lookup(b, at), Lookup(a, at)) { assert Alike(Lookup(a, at), Lookup(b, at)); }
  }

  lemma {:induction false} WalkAlike(a: Node, b: Node, at: Location, names: seq<string>)
    requires SameShape(a, b)
    ensures Walk(a, at, names) == Walk(b, at, names)
    decreases |names|
  {
    if names != [] {
      FollowAlike(a, b, at, names[0]);
      if Follow(a, at, names[0]).Some? { WalkAlike(a, b, Follow(a, at, names[0]).value, names[1..]); }
    }
  }

  lemma CyclicAlike(a: Node, b: Node)
    requires SameShape(a, b) && Cyclic(a)
    ensures Cyclic(b)
  {
    var trail, loop :| Closes(a, trail, loop);
    WalkAlike(a, b, [], trail);
    WalkAlike(a, b, Walk(a, [], trail).value, loop);
    assert Closes(b, trail, loop);
  }

  lemma UnacceptableAlike(a: Node, b: Node, rules: Rules)
    requires SameShape(a, b) && HasUnacceptable(a, rules)
    ensures HasUnacceptable(b, rules)
  {
    var trail :| Unacceptable(a, rules, trail);
    ReachAlike(a, b, [], trail);
    GoodLinkAlike(a, b, Reach(a, [], trail).value);
    assert Unacceptable(b, rules, trail);
  }

  lemma TooManyAlike(a: Node, b: Node)
    requires SameShape(a, b) && TooMany(a)
    ensures TooMany(b)
  {
    var trails: set<seq<string>> :| UnfoldedFiles(a, trails) && |trails| > FILE_LIMIT;
    forall t | t in trails ensures t != [] && Reach(b, [], t).Some? && Reach(b, [], t).value.File? {
      ReachAlike(a, b, [], t);
    }
    assert UnfoldedFiles(b, trails);
  }

  /** What one listing is refused for, the other is refused for too. */
  lemma RefusalsAlike(a: Node, b: Node, rules: Rules)
    requires SameShape(a, b)
    ensures Cyclic(a) <==> Cyclic(b)
    ensures HasUnacceptable(a, rules) <==> HasUnacceptable(b, rules)
    ensures TooMany(a) <==> TooMany(b)
  {
    SameShapeBack(a, b);
    if Cyclic(a) { CyclicAlike(a, b); }
    if Cyclic(b) { CyclicAlike(b, a); }
    if HasUnacceptable(a, rules) { UnacceptableAlike(a, b, rules); }
    if HasUnacceptable(b, rules) { UnacceptableAlike(b, a, rules); }
    if TooMany(a) { TooManyAlike(a, b); }
    if TooMany(b) { TooManyAlike(b, a); }
  }
}
