/** The verdict of the exploration: it refuses exactly the trees that show an unacceptable
    entry somewhere in the unfolding or whose unfolding is infinite. */
module DependencyVerdict {
  import opened Text
  import opened DependencyTree
  import opened DependencyExplore
  import opened DependencyMeaning

  // ---------------------------------------------------------------- accepted: nothing bad below

  /** `g` is strictly below `f` in the order that makes the exploration terminate. */
  ghost predicate Below(tree: Node, g: Frame, f: Frame) {
    || |Dirs(tree) - g.ancestors| < |Dirs(tree) - f.ancestors|
    || (|Dirs(tree) - g.ancestors| == |Dirs(tree) - f.ancestors| && Dir(g.listing) < Dir(f.listing))
  }

  /** The results for the first entries of a listing, and for each of them. */
  ghost function Prefixes(tree: Node, rules: Rules, f: Frame): nat -> Finds {
    (k: nat) => if k <= |f.listing| then ExploreFrom(tree, rules, f, k) else None
  }

  ghost function Each(tree: Node, rules: Rules, f: Frame): nat -> Finds {
    (k: nat) => if k < |f.listing| then ExploreEntry(tree, rules, f, f.listing[k]) else None
  }

  lemma LastEntry(tree: Node, rules: Rules, f: Frame, n: nat)
    requires 0 < n <= |f.listing|
    ensures Prefixes(tree, rules, f)(n) == Plus(Prefixes(tree, rules, f)(n - 1), Each(tree, rules, f)(n - 1))
  {
  }

  lemma PlusParts(init: Finds, last: Finds)
    requires Plus(init, last).Some?
    ensures init.Some? && last.Some? && init.value <= Plus(init, last).value
  {
  }

  /** A chain of sums that ends well has gone well all along, and has only grown. */
  lemma {:induction false} SumsGrow(chain: nat -> Finds, each: nat -> Finds, n: nat, m: nat)
    requires n <= m && chain(m).Some?
    requires forall k: nat | 0 < k <= m :: chain(k) == Plus(chain(k - 1), each(k - 1))
    ensures chain(n).Some? && chain(n).value <= chain(m).value
    ensures n < m ==> each(n).Some?
    decreases m
  {
    if n < m {
      PlusParts(chain(m - 1), each(m - 1));
      SumsGrow(chain, each, n, m - 1);
    }
  }

  lemma PrefixesGrow(tree: Node, rules: Rules, f: Frame, n: nat, m: nat)
    requires n <= m <= |f.listing| && Prefixes(tree, rules, f)(m).Some?
    ensures var chain := Prefixes(tree, rules, f); chain(n).Some? && chain(n).value <= chain(m).value
    ensures n < m ==> Each(tree, rules, f)(n).Some?
  {
    forall k: nat | 0 < k <= m
      ensures Prefixes(tree, rules, f)(k) == Plus(Prefixes(tree, rules, f)(k - 1), Each(tree, rules, f)(k - 1))
    {
      LastEntry(tree, rules, f, k);
    }
    SumsGrow(Prefixes(tree, rules, f), Each(tree, rules, f), n, m);
  }

  lemma EveryEntryExplored(tree: Node, rules: Rules, f: Frame, n: nat, i: nat)
    requires i < n <= |f.listing| && ExploreFrom(tree, rules, f, n).Some?
    ensures ExploreEntry(tree, rules, f, f.listing[i]).Some?
  {
    PrefixesGrow(tree, rules, f, i, n);
  }

  /** The entry behind a shown name was explored, and so was the frame it opens. */
  lemma StepDown(tree: Node, rules: Rules, f: Frame, name: string) returns (e: Entry)
    requires WellFormed(tree) && Placed(tree, f) && Explore(tree, rules, f).Some?
    requires Shown(tree, f.at, name).Some?
    ensures e == Entry(name, Shown(tree, f.at, name).value) && e in f.listing
    ensures !Refused(tree, rules, f.trail + [name], e.node)
    ensures Opens(tree, e.node) ==>
              var g := Opened(tree, f, e);
              Explore(tree, rules, g).Some? && Below(tree, g, f)
  {
    var i := FindIndex(f.listing, name);
    e := f.listing[i];
    EveryEntryExplored(tree, rules, f, |f.listing|, i);
    if Opens(tree, e.node) { AncestorsGrow(tree, f.ancestors, Opened(tree, f, e).at); }
  }

  /** The first name of a walk to a directory is shown, and opens a directory. */
  lemma FirstStep(tree: Node, at: Location, names: seq<string>)
    requires names != [] && Walk(tree, at, names).Some? && IsDir(tree, Walk(tree, at, names).value)
    ensures Follow(tree, at, names[0]).Some? && Shown(tree, at, names[0]).Some?
    ensures Walk(tree, at, names) == Walk(tree, Follow(tree, at, names[0]).value, names[1..])
    ensures names[0] !in IGNORE_DIRS
  {
  }

  /** The first step of a walk that ends in a directory. */
  lemma StepInto(tree: Node, rules: Rules, f: Frame, names: seq<string>) returns (g: Frame)
    requires WellFormed(tree) && Placed(tree, f) && Explore(tree, rules, f).Some?
    requires names != [] && Walk(tree, f.at, names).Some? && IsDir(tree, Walk(tree, f.at, names).value)
    ensures Walk(tree, f.at, names) == Walk(tree, g.at, names[1..]) && g.trail == f.trail + [names[0]]
    ensures Placed(tree, g) && Explore(tree, rules, g).Some? && Below(tree, g, f)
  {
    FirstStep(tree, f.at, names);
    var e := StepDown(tree, rules, f, names[0]);
    EntryStep(tree, f, e);
    g := Opened(tree, f, e);
  }

  lemma {:induction false} Descend(tree: Node, rules: Rules, f: Frame, names: seq<string>) returns (g: Frame)
    requires WellFormed(tree) && Placed(tree, f) && Explore(tree, rules, f).Some?
    requires Walk(tree, f.at, names).Some? && IsDir(tree, Walk(tree, f.at, names).value)
    ensures Walk(tree, f.at, names) == Some(g.at) && g.trail == f.trail + names
    ensures Placed(tree, g) && Explore(tree, rules, g).Some?
    ensures if names == [] then g == f else Below(tree, g, f)
    decreases |names|
  {
    if names == [] {
      g := f;
      assert f.trail + names == f.trail;
    } else {
      var next := StepInto(tree, rules, f, names);
      g := Descend(tree, rules, next, names[1..]);
      assert f.trail + names == next.trail + names[1..];
    }
  }

  lemma {:induction false} NoLoop(tree: Node, rules: Rules, f: Frame, loop: seq<string>)
    requires WellFormed(tree) && Placed(tree, f) && Explore(tree, rules, f).Some?
    requires loop != [] && Walk(tree, f.at, loop) == Some(f.at)
    ensures false
    decreases |Dirs(tree) - f.ancestors|
  {
    var g := Descend(tree, rules, f, loop);
    NoLoop(tree, rules, g, loop);
  }

  lemma AcceptedIsAcyclic(tree: Node, rules: Rules)
    requires WellFormed(tree) && tree.Dir? && Explore(tree, rules, RootFrame(tree)).Some?
    ensures !Cyclic(tree)
  {
    forall trail, loop ensures !Closes(tree, trail, loop) {
      if Closes(tree, trail, loop) {
        assert Shown(tree, Walk(tree, [], trail).value, loop[0]).Some?;
        var g := Descend(tree, rules, RootFrame(tree), trail);
        NoLoop(tree, rules, g, loop);
      }
    }
  }

  lemma {:induction false} ReachSplits(tree: Node, at: Location, init: seq<string>, last: string)
    requires Reach(tree, at, init + [last]).Some?
    ensures Walk(tree, at, init).Some?
    ensures var d := Walk(tree, at, init).value;
            IsDir(tree, d) && Reach(tree, at, init + [last]) == Shown(tree, d, last)
    decreases |init|
  {
    if init != [] {
      assert (init + [last])[1..] == init[1..] + [last];
      ReachSplits(tree, Follow(tree, at, init[0]).value, init[1..], last);
    }
  }

  lemma AcceptableAt(tree: Node, rules: Rules, init: seq<string>, last: string)
    requires WellFormed(tree) && tree.Dir? && Explore(tree, rules, RootFrame(tree)).Some?
    requires Reach(tree, [], init + [last]).Some?
    ensures !Refused(tree, rules, init + [last], Reach(tree, [], init + [last]).value)
  {
    ReachSplits(tree, [], init, last);
    var f := Descend(tree, rules, RootFrame(tree), init);
    assert f.trail == init;
    var e := StepDown(tree, rules, f, last);
  }

  lemma AcceptedIsAcceptable(tree: Node, rules: Rules)
    requires WellFormed(tree) && tree.Dir? && Explore(tree, rules, RootFrame(tree)).Some?
    ensures !HasUnacceptable(tree, rules)
  {
    forall trail ensures !Unacceptable(tree, rules, trail) {
      if trail != [] && Reach(tree, [], trail).Some? {
        var init, last := trail[..|trail| - 1], trail[|trail| - 1];
        assert init + [last] == trail;
        AcceptableAt(tree, rules, init, last);
      }
    }
  }

  // ---------------------------------------------------------------- refused: for a reason

  predicate Passed(tree: Node, trail: seq<string>, place: Location) {
    exists k | 0 <= k <= |trail| :: Walk(tree, [], trail[..k]) == Some(place)
  }

  /** The frame's ancestors are places its trail has been through. */
  predicate OnTrail(tree: Node, f: Frame) {
    && Walk(tree, [], f.trail) == Some(f.at)
    && forall a | a in f.ancestors :: Passed(tree, f.trail, a)
  }

  lemma WalkSnoc(tree: Node, trail: seq<string>, name: string)
    requires Walk(tree, [], trail).Some?
    ensures Walk(tree, [], trail + [name]) == Follow(tree, Walk(tree, [], trail).value, name)
    ensures Reach(tree, [], trail + [name]) == Shown(tree, Walk(tree, [], trail).value, name)
  {
    WalkAppend(tree, [], trail, [name]);
    ReachAppend(tree, [], trail, [name]);
    assert [name][1..] == [];
  }

  lemma OnTrailStep(tree: Node, f: Frame, e: Entry)
    requires WellFormed(tree) && Placed(tree, f) && e in f.listing && e.name !in IGNORE_DIRS
    requires OnTrail(tree, f) && Opens(tree, e.node)
    ensures OnTrail(tree, Opened(tree, f, e))
  {
    var g := Opened(tree, f, e);
    EntryStep(tree, f, e);
    WalkSnoc(tree, f.trail, e.name);
    forall a | a in g.ancestors ensures Passed(tree, g.trail, a) {
      if a in f.ancestors {
        var k :| 0 <= k <= |f.trail| && Walk(tree, [], f.trail[..k]) == Some(a);
        assert g.trail[..k] == f.trail[..k];
      } else {
        assert g.trail[..|g.trail|] == g.trail;
      }
    }
  }

  lemma ClosingLink(tree: Node, f: Frame, name: string, target: Location)
    requires OnTrail(tree, f) && Follow(tree, f.at, name) == Some(target) && target in f.ancestors
    ensures Cyclic(tree)
  {
    var k :| 0 <= k <= |f.trail| && Walk(tree, [], f.trail[..k]) == Some(target);
    var before, loop := f.trail[..k], f.trail[k..] + [name];
    assert before + loop == f.trail + [name];
    WalkAppend(tree, [], before, loop);
    WalkSnoc(tree, f.trail, name);
    assert Closes(tree, before, loop);
  }

  /** An entry that is fine in itself is refused only for what lies below it. */
  lemma OpenedRefused(tree: Node, rules: Rules, f: Frame, e: Entry)
    requires e in f.listing && ExploreEntry(tree, rules, f, e).None?
    requires !Refused(tree, rules, f.trail + [e.name], e.node)
    requires e.node.Link? ==> e.node.target.value !in f.ancestors
    ensures Opens(tree, e.node) && Explore(tree, rules, Opened(tree, f, e)).None?
  {
  }

  lemma {:induction false} RefusedForAReason(tree: Node, rules: Rules, f: Frame)
    requires WellFormed(tree) && Placed(tree, f) && OnTrail(tree, f)
    requires Explore(tree, rules, f).None?
    ensures Cyclic(tree) || HasUnacceptable(tree, rules)
    decreases |Dirs(tree) - f.ancestors|, f.listing, 1
  {
    var n := |f.listing|;
    while ExploreEntry(tree, rules, f, f.listing[n - 1]).Some?
      invariant 0 < n <= |f.listing| && ExploreFrom(tree, rules, f, n).None?
      decreases n
    {
      n := n - 1;
    }
    EntryRefusedForAReason(tree, rules, f, f.listing[n - 1]);
  }

  lemma {:induction false} EntryRefusedForAReason(tree: Node, rules: Rules, f: Frame, e: Entry)
    requires WellFormed(tree) && Placed(tree, f) && OnTrail(tree, f) && e in f.listing
    requires ExploreEntry(tree, rules, f, e).None?
    ensures Cyclic(tree) || HasUnacceptable(tree, rules)
    decreases |Dirs(tree) - f.ancestors|, f.listing, 0
  {
    EntryStep(tree, f, e);
    if Refused(tree, rules, f.trail + [e.name], e.node) {
      WalkSnoc(tree, f.trail, e.name);
      assert Unacceptable(tree, rules, f.trail + [e.name]);
    } else if e.node.Link? && e.node.target.value in f.ancestors {
      ClosingLink(tree, f, e.name, e.node.target.value);
    } else {
      OpenedRefused(tree, rules, f, e);
      OnTrailStep(tree, f, e);
      AncestorsGrow(tree, f.ancestors, Opened(tree, f, e).at);
      RefusedForAReason(tree, rules, Opened(tree, f, e));
    }
  }

  /** Refused, other errors aside, exactly when the reachable graph has a cycle. */
  lemma ExploredExactly(tree: Node, rules: Rules)
    requires WellFormed(tree) && tree.Dir?
    ensures Explore(tree, rules, RootFrame(tree)).Some? <==> !Cyclic(tree) && !HasUnacceptable(tree, rules)
  {
    if Explore(tree, rules, RootFrame(tree)).Some? {
      AcceptedIsAcyclic(tree, rules);
      AcceptedIsAcceptable(tree, rules);
    } else {
      assert RootFrame(tree).trail[..0] == [];
      RefusedForAReason(tree, rules, RootFrame(tree));
    }
  }
}
