/** `walk_files`: the stack loop that lists the regular files below a directory, leaving out
    excluded paths and ignored directories, and its meaning in terms of the tree alone. */
module SourceWalk {
  import opened Text
  import opened DependencyTree

  /** What a walk leaves out: directories by name, and paths outright. */
  datatype Skips = Skips(ignored: set<string>, excluded: set<Location>)

  /** No path on the way down from `top` is excluded, and no directory passed is ignored. */
  predicate Walked(skips: Skips, top: Location, at: Location) {
    && top < at
    && (forall k | |top| < k <= |at| :: at[..k] !in skips.excluded)
    && forall k | |top| <= k < |at| - 1 :: at[k] !in skips.ignored
  }

  /** One name further: the new path must not be excluded, nor the directory it is in ignored. */
  lemma WalkedStep(skips: Skips, top: Location, at: Location, name: string)
    requires top <= at
    ensures Walked(skips, top, at + [name]) <==>
      at + [name] !in skips.excluded && (at == top || (Walked(skips, top, at) && at[|at| - 1] !in skips.ignored))
    ensures Walked(skips, top, at) ==> |top| < |at|
  {
    var next := at + [name];
    assert next[..|next|] == next;
    forall k | 0 <= k <= |at| ensures next[..k] == at[..k] {}
    if Walked(skips, top, next) {
      if at != top {
        forall k | |top| < k <= |at| ensures at[..k] !in skips.excluded { assert next[..k] == at[..k]; }
        forall k | |top| <= k < |at| ensures at[k] !in skips.ignored { assert next[k] == at[k]; }
      }
    } else if at == top || (Walked(skips, top, at) && at[|at| - 1] !in skips.ignored) {
      forall k | |top| < k <= |at| ensures next[..k] !in skips.excluded { assert next[..k] == at[..k]; }
      forall k | |top| <= k < |at| ensures next[k] !in skips.ignored { assert next[k] == at[k]; }
    }
  }

  predicate Seen(tree: Node, skips: Skips, top: Location, at: Location) {
    Walked(skips, top, at) && Lookup(tree, at).Some?
  }

  predicate SeenFile(tree: Node, skips: Skips, top: Location, at: Location) {
    Seen(tree, skips, top, at) && Lookup(tree, at).value.File?
  }

  /** Nothing the walk comes across is a link or a special file. */
  ghost predicate Orderly(tree: Node, skips: Skips, top: Location) {
    forall at | Seen(tree, skips, top, at) :: Lookup(tree, at).value.File? || IsDir(tree, at)
  }

  // ---------------------------------------------------------------- places in a tree

  lemma {:induction false} LookupAppend(tree: Node, a: Location, b: Location)
    ensures Lookup(tree, a + b) == if Lookup(tree, a).Some? then Lookup(Lookup(tree, a).value, b) else None
    decreases |a|
  {
    if a == [] {
      assert a + b == b;
    } else {
      assert (a + b)[1..] == a[1..] + b;
      if tree.Dir? && Find(tree.entries, a[0]).Some? { LookupAppend(Find(tree.entries, a[0]).value, a[1..], b); }
    }
  }

  /** Whatever lies above an entry is a directory. */
  lemma AboveIsDir(tree: Node, a: Location, at: Location)
    requires a < at && Lookup(tree, at).Some?
    ensures IsDir(tree, a)
    ensures Find(Entries(tree, a), at[|a|]).Some?
  {
    var rest := at[|a|..];
    assert at == a + rest;
    LookupAppend(tree, a, rest);
    assert rest[0] == at[|a|];
  }

  // ---------------------------------------------------------------- the size of what is pending

  ghost function Size(node: Node): nat
    decreases node
  {
    if node.Dir? then 1 + SizeIn(node.entries) else 1
  }

  ghost function SizeIn(entries: seq<Entry>): nat
    decreases entries
  {
    if entries == [] then 0 else Size(entries[0].node) + SizeIn(entries[1..])
  }

  ghost function Weight(tree: Node, pending: seq<Location>): nat {
    if pending == [] then 0
    else
      var last := Lookup(tree, pending[|pending| - 1]);
      Weight(tree, pending[..|pending| - 1]) + if last.Some? then Size(last.value) else 0
  }

  lemma Pushed(tree: Node, pending: seq<Location>, at: Location)
    requires Lookup(tree, at).Some?
    ensures Weight(tree, pending + [at]) == Weight(tree, pending) + Size(Lookup(tree, at).value)
  {
    assert (pending + [at])[..|pending|] == pending;
  }

  lemma SizeOfRest(entries: seq<Entry>, i: nat)
    requires i < |entries|
    ensures SizeIn(entries[i..]) == Size(entries[i].node) + SizeIn(entries[i + 1..])
  {
    assert entries[i..][1..] == entries[i + 1..];
  }

  // ---------------------------------------------------------------- what the loop keeps

  predicate Below(pending: seq<Location>, at: Location) { exists p | p in pending :: p < at }

  /** A directory whose contents the walk has to list. */
  predicate Listed(tree: Node, skips: Skips, top: Location, d: Location) {
    && IsDir(tree, d)
    && (d == top || (Walked(skips, top, d) && d[|d| - 1] !in skips.ignored))
  }

  predicate Later(entries: seq<Entry>, i: nat, name: string) {
    exists j | i <= j < |entries| :: entries[j].name == name
  }

  /** `at` is accounted for, lies below a pending directory, or below an entry of `d` not yet listed. */
  ghost predicate Covered(pending: seq<Location>, found: set<Location>, d: Location, entries: seq<Entry>, i: nat, at: Location) {
    at in found || Below(pending, at) || (d < at && Later(entries, i, at[|d|]))
  }

  /** The walk's invariant, with the entries of `d` listed as far as `i`. */
  ghost predicate Underway(tree: Node, skips: Skips, top: Location, pending: seq<Location>, found: set<Location>,
                           d: Location, entries: seq<Entry>, i: nat) {
    && (forall p | p in pending :: Listed(tree, skips, top, p))
    && (forall at | at in found :: SeenFile(tree, skips, top, at))
    && forall at | Seen(tree, skips, top, at) && !Lookup(tree, at).value.Dir? ::
         Covered(pending, found, d, entries, i, at)
  }

  lemma ChildSeen(tree: Node, skips: Skips, top: Location, d: Location, i: nat)
    requires WellFormed(tree) && Listed(tree, skips, top, d) && i < |Entries(tree, d)|
    ensures var e := Entries(tree, d)[i];
      && Lookup(tree, d + [e.name]) == Some(e.node)
      && (d + [e.name] !in skips.excluded ==> Seen(tree, skips, top, d + [e.name]))
  {
    LookupChild(tree, d, i);
    var at := d + [Entries(tree, d)[i].name];
    forall k | |top| < k < |at| ensures at[..k] !in skips.excluded { assert at[..k] == d[..k]; }
    assert at[..|at|] == at;
  }

  /** What was expected below the next entry is accounted for by treating that entry. */
  lemma Treated(tree: Node, skips: Skips, top: Location, d: Location, i: nat, at: Location,
                pending: seq<Location>, found: set<Location>)
    requires WellFormed(tree) && Listed(tree, skips, top, d) && i < |Entries(tree, d)|
    requires Seen(tree, skips, top, at) && !Lookup(tree, at).value.Dir?
    requires d < at && at[|d|] == Entries(tree, d)[i].name
    requires var e := Entries(tree, d)[i]; var child := d + [e.name];
      || child in skips.excluded
      || (e.node.File? && child in found)
      || (e.node.Dir? && (e.name in skips.ignored || child in pending))
    ensures at in found || Below(pending, at)
  {
    var e := Entries(tree, d)[i];
    var child := d + [e.name];
    LookupChild(tree, d, i);
    assert at[..|child|] == child;
    if child != at { AboveIsDir(tree, child, at); }
  }

  lemma Next(tree: Node, skips: Skips, top: Location, d: Location, i: nat,
             pending: seq<Location>, found: set<Location>, pending': seq<Location>, found': set<Location>)
    requires WellFormed(tree) && Listed(tree, skips, top, d) && i < |Entries(tree, d)|
    requires Underway(tree, skips, top, pending, found, d, Entries(tree, d), i)
    requires found <= found' && forall p | p in pending :: p in pending'
    requires forall p | p in pending' :: Listed(tree, skips, top, p)
    requires forall at | at in found' :: SeenFile(tree, skips, top, at)
    requires var e := Entries(tree, d)[i]; var child := d + [e.name];
      || child in skips.excluded
      || (e.node.File? && child in found')
      || (e.node.Dir? && (e.name in skips.ignored || child in pending'))
    ensures Underway(tree, skips, top, pending', found', d, Entries(tree, d), i + 1)
  {
    var entries := Entries(tree, d);
    forall at | Seen(tree, skips, top, at) && !Lookup(tree, at).value.Dir?
      ensures Covered(pending', found', d, entries, i + 1, at)
    {
      assert Covered(pending, found, d, entries, i, at);
      if d < at && at[|d|] == entries[i].name { Treated(tree, skips, top, d, i, at, pending', found'); }
    }
  }

  /** Popping a directory leaves what is below it to the listing of its entries. */
  lemma Popped(tree: Node, skips: Skips, top: Location, pending: seq<Location>, found: set<Location>)
    requires pending != [] && Underway(tree, skips, top, pending, found, top, [], 0)
    ensures Listed(tree, skips, top, pending[|pending| - 1])
    ensures var d := pending[|pending| - 1];
      Underway(tree, skips, top, pending[..|pending| - 1], found, d, Entries(tree, d), 0)
  {
    var d, rest := pending[|pending| - 1], pending[..|pending| - 1];
    assert pending == rest + [d];
    assert d in pending && Listed(tree, skips, top, d);
    forall at | Seen(tree, skips, top, at) && !Lookup(tree, at).value.Dir?
      ensures Covered(rest, found, d, Entries(tree, d), 0, at)
    {
      assert Covered(pending, found, top, [], 0, at);
      if at !in found {
        var p :| p in pending && p < at;
        if p == d {
          AboveIsDir(tree, d, at);
          var j := FindIndex(Entries(tree, d), at[|d|]);
        }
      }
    }
  }

  lemma AllListed(tree: Node, skips: Skips, top: Location, pending: seq<Location>, found: set<Location>,
                  d: Location, entries: seq<Entry>)
    requires Underway(tree, skips, top, pending, found, d, entries, |entries|)
    ensures Underway(tree, skips, top, pending, found, top, [], 0)
  {
    forall at | Seen(tree, skips, top, at) && !Lookup(tree, at).value.Dir?
      ensures Covered(pending, found, top, [], 0, at)
    {
      assert Covered(pending, found, d, entries, |entries|, at);
    }
  }

  lemma Exhausted(tree: Node, skips: Skips, top: Location, found: set<Location>)
    requires Underway(tree, skips, top, [], found, top, [], 0)
    ensures Orderly(tree, skips, top)
    ensures forall at :: at in found <==> SeenFile(tree, skips, top, at)
  {
    forall at | Seen(tree, skips, top, at) && !Lookup(tree, at).value.Dir? ensures at in found {
      assert Covered([], found, top, [], 0, at);
    }
  }

  // ---------------------------------------------------------------- the loops

  /** One entry: a plain file is kept, a directory pushed, anything else an error. */
  method VisitEntry(tree: Node, skips: Skips, top: Location, d: Location, i: nat,
                    before: seq<Location>, kept: set<Location>)
      returns (ok: bool, pending: seq<Location>, found: set<Location>)
    requires WellFormed(tree) && Listed(tree, skips, top, d) && i < |Entries(tree, d)|
    requires Underway(tree, skips, top, before, kept, d, Entries(tree, d), i)
    ensures ok ==> Underway(tree, skips, top, pending, found, d, Entries(tree, d), i + 1)
    ensures ok ==> Weight(tree, pending) <= Weight(tree, before) + Size(Entries(tree, d)[i].node)
    ensures !ok ==> !Orderly(tree, skips, top)
  {
    var e, child := Entries(tree, d)[i], d + [Entries(tree, d)[i].name];
    ok, pending, found := true, before, kept;
    ChildSeen(tree, skips, top, d, i);
    if child !in skips.excluded {
      if e.node.Dir? {
        if e.name !in skips.ignored {
          Pushed(tree, before, child);
          pending := before + [child];
        }
      } else if e.node.File? {
        found := kept + {child};
      } else {
        ok := false;
      }
    }
    if ok { Next(tree, skips, top, d, i, before, kept, pending, found); }
  }

  /** One pass over the entries of a directory. */
  method ListDirectory(tree: Node, skips: Skips, top: Location, d: Location,
                       rest: seq<Location>, before: set<Location>)
      returns (ok: bool, pending: seq<Location>, found: set<Location>)
    requires WellFormed(tree) && Listed(tree, skips, top, d)
    requires Underway(tree, skips, top, rest, before, d, Entries(tree, d), 0)
    ensures ok ==> Underway(tree, skips, top, pending, found, top, [], 0)
    ensures ok ==> Weight(tree, pending) <= Weight(tree, rest) + SizeIn(Entries(tree, d))
    ensures !ok ==> !Orderly(tree, skips, top)
  {
    ok, pending, found := true, rest, before;
    var entries := Entries(tree, d);
    assert entries[0..] == entries;
    for i := 0 to |entries|
      invariant ok
      invariant Underway(tree, skips, top, pending, found, d, entries, i)
      invariant Weight(tree, pending) + SizeIn(entries[i..]) <= Weight(tree, rest) + SizeIn(entries)
    {
      SizeOfRest(entries, i);
      ok, pending, found := VisitEntry(tree, skips, top, d, i, pending, found);
      if !ok { return; }
    }
    AllListed(tree, skips, top, pending, found, d, entries);
  }

  /** `walk_files`, without the final sort. */
  method WalkFiles(tree: Node, skips: Skips, top: Location) returns (r: Result<set<Location>>)
    requires WellFormed(tree) && IsDir(tree, top)
    ensures r.Ok? <==> Orderly(tree, skips, top)
    ensures r.Ok? ==> forall at :: at in r.value <==> SeenFile(tree, skips, top, at)
  {
    var pending, found: set<Location> := [top], {};
    var ok := true;
    assert top in pending;
    while pending != [] && ok
      invariant ok ==> Underway(tree, skips, top, pending, found, top, [], 0)
      invariant !ok ==> !Orderly(tree, skips, top)
      decreases ok, Weight(tree, pending)
    {
      var d, rest := pending[|pending| - 1], pending[..|pending| - 1];
      Popped(tree, skips, top, pending, found);
      ok, pending, found := ListDirectory(tree, skips, top, d, rest, found);
    }
    if ok {
      Exhausted(tree, skips, top, found);
      r := Ok(found);
    } else {
      r := Rejected;
    }
  }
}
