/** The link-following exploration as a function on one stack frame: everything found below
    the frame, or nothing when the walk must refuse it. */
module DependencyExplore {
  import opened Text
  import opened DependencyTree

  /** A stack frame: the name prefix, the real directory with its listing, and the
      directories on the way to it. */
  datatype Frame = Frame(trail: seq<string>, at: Location, listing: seq<Entry>, ancestors: set<Location>)

  datatype Found =
    | FileAt(trail: seq<string>, at: Location)          // a regular file and where it really is
    | LinkAt(trail: seq<string>, target: Location)      // a directory link to be materialised

  type Finds = Option<multiset<Found>>

  function Plus(a: Finds, b: Finds): Finds {
    if a.Some? && b.Some? then Some(a.value + b.value) else None
  }

  function RootFrame(tree: Node): Frame
    requires tree.Dir?
  {
    Frame([], [], tree.entries, {[]})
  }

  /** The frame for a plain subdirectory or for a link that was just checked. */
  function Opened(tree: Node, f: Frame, e: Entry): Frame
    requires e.node.Dir? || GoodLink(tree, e.node)
  {
    if e.node.Dir? then
      Frame(f.trail + [e.name], f.at + [e.name], e.node.entries, f.ancestors + {f.at + [e.name]})
    else
      var target := e.node.target.value;
      Frame(f.trail + [e.name], target, Entries(tree, target), f.ancestors + {target})
  }

  /** A link edge strictly grows the ancestor set; a plain edge, which the walk never tests
      against the ancestors, strictly shrinks the subtree. */
  ghost function Explore(tree: Node, rules: Rules, f: Frame): Finds
    decreases |Dirs(tree) - f.ancestors|, f.listing, |f.listing| + 1
  {
    ExploreFrom(tree, rules, f, |f.listing|)
  }

  /** The first `n` entries of the listing. */
  ghost function ExploreFrom(tree: Node, rules: Rules, f: Frame, n: nat): Finds
    requires n <= |f.listing|
    decreases |Dirs(tree) - f.ancestors|, f.listing, n, 1
  {
    if n == 0 then Some(multiset{})
    else Plus(ExploreFrom(tree, rules, f, n - 1), ExploreEntry(tree, rules, f, f.listing[n - 1]))
  }

  lemma AncestorsGrow(tree: Node, ancestors: set<Location>, next: Location)
    ensures |Dirs(tree) - (ancestors + {next})| <= |Dirs(tree) - ancestors|
    ensures IsDir(tree, next) && next !in ancestors ==>
              |Dirs(tree) - (ancestors + {next})| < |Dirs(tree) - ancestors|
  {
    var before := Dirs(tree) - ancestors;
    assert Dirs(tree) - (ancestors + {next}) == before - {next};
    if IsDir(tree, next) { DirsContains(tree, next); }
  }

  ghost function ExploreEntry(tree: Node, rules: Rules, f: Frame, e: Entry): Finds
    requires e in f.listing
    decreases |Dirs(tree) - f.ancestors|, f.listing, 0
  {
    if e.name in IGNORE_DIRS then Some(multiset{})
    else if Refused(tree, rules, f.trail + [e.name], e.node) then None
    else
      match e.node
      case File(_) => Some(multiset{FileAt(f.trail + [e.name], f.at + [e.name])})
      case Dir(_) =>
        AncestorsGrow(tree, f.ancestors, f.at + [e.name]);
        Explore(tree, rules, Opened(tree, f, e))
      case Link(target) =>
        AncestorsGrow(tree, f.ancestors, target.value);
        if target.value in f.ancestors then None
        else Plus(Some(multiset{LinkAt(f.trail + [e.name], target.value)}),
                  Explore(tree, rules, Opened(tree, f, e)))
  }

  /** A whole stack of frames, the next one to be popped last. */
  ghost function ExploreAll(tree: Node, rules: Rules, pending: seq<Frame>): Finds {
    if pending == [] then Some(multiset{})
    else Plus(ExploreAll(tree, rules, pending[..|pending| - 1]),
              Explore(tree, rules, pending[|pending| - 1]))
  }

  // ---------------------------------------------------------------- how many frames a frame spawns

  ghost function Weight(tree: Node, f: Frame): nat
    decreases |Dirs(tree) - f.ancestors|, f.listing, |f.listing| + 1
  {
    1 + WeightFrom(tree, f, |f.listing|)
  }

  ghost function WeightFrom(tree: Node, f: Frame, n: nat): nat
    requires n <= |f.listing|
    decreases |Dirs(tree) - f.ancestors|, f.listing, n, 1
  {
    if n == 0 then 0 else WeightFrom(tree, f, n - 1) + WeightEntry(tree, f, f.listing[n - 1])
  }

  ghost function WeightEntry(tree: Node, f: Frame, e: Entry): nat
    requires e in f.listing
    decreases |Dirs(tree) - f.ancestors|, f.listing, 0
  {
    if e.node.Dir? then
      AncestorsGrow(tree, f.ancestors, f.at + [e.name]);
      Weight(tree, Opened(tree, f, e))
    else if GoodLink(tree, e.node) && e.node.target.value !in f.ancestors then
      AncestorsGrow(tree, f.ancestors, e.node.target.value);
      Weight(tree, Opened(tree, f, e))
    else 0
  }

  ghost function WeightAll(tree: Node, pending: seq<Frame>): nat {
    if pending == [] then 0
    else WeightAll(tree, pending[..|pending| - 1]) + Weight(tree, pending[|pending| - 1])
  }

  lemma Push(tree: Node, rules: Rules, pending: seq<Frame>, f: Frame)
    ensures ExploreAll(tree, rules, pending + [f]) == Plus(ExploreAll(tree, rules, pending), Explore(tree, rules, f))
    ensures WeightAll(tree, pending + [f]) == WeightAll(tree, pending) + Weight(tree, f)
  {
    assert (pending + [f])[..|pending|] == pending;
  }
}
