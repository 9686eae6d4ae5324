/** `source_names`: which files of a tree are sources, as the walks of the source trees
    find them. */
module SourceSelection {
  import opened Text
  import opened Reachability
  import opened DependencyTree
  import opened SourceWalk

  /** A directory tree as a file system holds it. */
  type FileTree = t: Node | WellFormed(t) witness File([])

  /** The constants of the selection; `leads` says whether a path through a link exists. */
  datatype Scope = Scope(
    required: set<string>, trees: seq<Location>, skips: Skips,
    metadata: string -> bool, compiled: string -> bool, private: string -> bool,
    leads: (Node, Location) -> bool)

  // ---------------------------------------------------------------- files by name

  /** The bytes of the regular file of that name, reached through plain directories. */
  function FileAt(tree: Node, name: string): Option<Bytes> {
    match Lookup(tree, Split(name, '/'))
    case Some(File(data)) => Some(data)
    case _ => None
  }

  lemma {:induction false} NamesHaveNoSlash(tree: Node, at: Location)
    requires WellFormed(tree) && Lookup(tree, at).Some?
    ensures forall name | name in at :: '/' !in name
    decreases |at|
  {
    if at != [] {
      assert IsDir(tree, []);
      var i := FindIndex(tree.entries, at[0]);
      ChildWellFormed(tree, at[0]);
      NamesHaveNoSlash(Find(tree.entries, at[0]).value, at[1..]);
      assert at == [at[0]] + at[1..];
    }
  }

  /** A place in a tree and its relative path determine each other. */
  lemma PathSplits(tree: Node, at: Location)
    requires WellFormed(tree) && Lookup(tree, at).Some? && at != []
    ensures Split(PathText(at), '/') == at
  {
    NamesHaveNoSlash(tree, at);
    SplitJoin(at, '/');
  }

  predicate BehindLink(tree: Node, at: Location) {
    exists k | 0 <= k <= |at| :: Lookup(tree, at[..k]).Some? && Lookup(tree, at[..k]).value.Link?
  }

  lemma FoundWithoutLink(tree: Node, at: Location)
    requires Lookup(tree, at).Some? && !Lookup(tree, at).value.Link?
    ensures !BehindLink(tree, at)
  {
    forall k | 0 <= k <= |at| ensures Lookup(tree, at[..k]).Some? && !Lookup(tree, at[..k]).value.Link? {
      if k < |at| { AboveIsDir(tree, at[..k], at); } else { assert at[..k] == at; }
    }
  }

  // ---------------------------------------------------------------- the selection

  /** The walk's result is kept: not package metadata, not compiled code. */
  predicate Kept(scope: Scope, top: Location, at: Location) {
    top < at && (forall k | |top| <= k < |at| :: !scope.metadata(at[k])) && !scope.compiled(at[|at| - 1])
  }

  predicate Admissible(scope: Scope, name: string) { !scope.private(name) && SafeRelative(name) }

  /** What `exists()` answers. */
  predicate Present(scope: Scope, tree: Node, at: Location) {
    if BehindLink(tree, at) then scope.leads(tree, at) else Lookup(tree, at).Some?
  }

  predicate ChosenFrom(scope: Scope, tree: Node, top: Location, name: string) {
    SeenFile(tree, scope.skips, top, Split(name, '/')) && Kept(scope, top, Split(name, '/'))
  }

  /** The file is selected: a required input, or kept by the walk of a source tree. */
  predicate Selected(scope: Scope, tree: Node, name: string) {
    name in scope.required || exists top | top in scope.trees :: ChosenFrom(scope, tree, top, name)
  }

  ghost predicate IsSelection(scope: Scope, tree: Node, names: set<string>) {
    forall name :: name in names <==> Selected(scope, tree, name)
  }

  ghost predicate KeptAdmissible(scope: Scope, tree: Node, top: Location) {
    forall at | SeenFile(tree, scope.skips, top, at) && Kept(scope, top, at) :: Admissible(scope, PathText(at))
  }

  /** A source tree that is there is an orderly directory without private or unsafe names. */
  ghost predicate Usable(scope: Scope, tree: Node, top: Location) {
    Present(scope, tree, top) ==>
      IsDir(tree, top) && Orderly(tree, scope.skips, top) && KeptAdmissible(scope, tree, top)
  }

  ghost predicate Selectable(scope: Scope, tree: Node) { forall top | top in scope.trees :: Usable(scope, tree, top) }

  /** Which walked files are sources: those below no metadata directory that are not compiled. */
  lemma ChosenMeans(scope: Scope, tree: FileTree, top: Location, at: Location)
    requires at != [] && forall name | name in at :: '/' !in name
    ensures ChosenFrom(scope, tree, top, Join(at, '/')) <==>
      && Walked(scope.skips, top, at) && Lookup(tree, at).Some? && Lookup(tree, at).value.File?
      && (forall name | name in at[|top|..] :: !scope.metadata(name)) && !scope.compiled(at[|at| - 1])
  {
    SplitJoin(at, '/');
    if top < at { assert forall k | |top| <= k < |at| :: at[|top|..][k - |top|] == at[k]; }
  }

  lemma SafePlace(tree: FileTree, at: Location)
    requires Lookup(tree, at).Some? && at != []
    ensures SafeRelative(Join(at, '/')) <==> forall name | name in at :: SafeSegment(name)
  {
    NamesHaveNoSlash(tree, at);
    SafeBySegments(at);
  }

  /** Under its path a source is neither private nor unsafe anywhere. */
  ghost predicate Harmless(scope: Scope, tree: Node, top: Location) {
    forall at | SeenFile(tree, scope.skips, top, at) && ChosenFrom(scope, tree, top, Join(at, '/')) ::
      !scope.private(Join(at, '/')) && forall name | name in at :: SafeSegment(name)
  }

  lemma KeptHarmless(scope: Scope, tree: FileTree, top: Location)
    ensures KeptAdmissible(scope, tree, top) <==> Harmless(scope, tree, top)
  {
    forall at | SeenFile(tree, scope.skips, top, at)
      ensures Kept(scope, top, at) <==> ChosenFrom(scope, tree, top, Join(at, '/'))
      ensures Admissible(scope, PathText(at)) <==>
                !scope.private(Join(at, '/')) && forall name | name in at :: SafeSegment(name)
    {
      PathSplits(tree, at);
      SafePlace(tree, at);
    }
  }

  /** Which source trees stop the selection: one that is there, or that a link on its path leads
      to, but is no directory; one in which the walk meets anything but files and directories; and
      one with a source whose name is private or not safe everywhere. */
  lemma UsableMeans(scope: Scope, tree: FileTree, top: Location)
    ensures Usable(scope, tree, top) <==>
      || (if exists k | 0 <= k <= |top| :: Lookup(tree, top[..k]).Some? && Lookup(tree, top[..k]).value.Link?
          then !scope.leads(tree, top) else Lookup(tree, top).None?)
      || (&& Lookup(tree, top).Some? && Lookup(tree, top).value.Dir? && Harmless(scope, tree, top)
          && forall at | Walked(scope.skips, top, at) && Lookup(tree, at).Some? ::
               Lookup(tree, at).value.File? || Lookup(tree, at).value.Dir?)
  {
    KeptHarmless(scope, tree, top);
  }

  /** What is selected: the required inputs, and the sources of any of the source trees, none of which
      may stop the selection. */
  lemma SelectedMeans(scope: Scope, tree: FileTree, name: string)
    ensures Selected(scope, tree, name) <==>
      name in scope.required || exists i :: 0 <= i < |scope.trees| && ChosenFrom(scope, tree, scope.trees[i], name)
    ensures Selectable(scope, tree) <==> forall i | 0 <= i < |scope.trees| :: Usable(scope, tree, scope.trees[i])
  {
    if top :| top in scope.trees && ChosenFrom(scope, tree, top, name) {
      var i :| 0 <= i < |scope.trees| && scope.trees[i] == top;
    }
  }

  /** The walked file is kept under this name. */
  predicate KeptAs(scope: Scope, top: Location, at: Location, name: string) {
    Kept(scope, top, at) && PathText(at) == name
  }

  predicate Passes(scope: Scope, top: Location, at: Location) {
    Kept(scope, top, at) ==> Admissible(scope, PathText(at))
  }

  /** The first `n` files have been kept or passed over. */
  ghost predicate KeptFirst(scope: Scope, top: Location, list: seq<Location>, n: nat, before: set<string>, names: set<string>)
    requires n <= |list|
  {
    forall name :: name in names <==> name in before || exists j | 0 <= j < n :: KeptAs(scope, top, list[j], name)
  }

  lemma KeptNext(scope: Scope, top: Location, list: seq<Location>, n: nat, before: set<string>, names: set<string>)
    requires n < |list| && KeptFirst(scope, top, list, n, before, names)
    ensures KeptFirst(scope, top, list, n + 1, before,
                      if Kept(scope, top, list[n]) then names + {PathText(list[n])} else names)
  {
    var more := if Kept(scope, top, list[n]) then names + {PathText(list[n])} else names;
    forall name ensures name in more <==> name in before || exists j | 0 <= j < n + 1 :: KeptAs(scope, top, list[j], name) {
      assert KeptAs(scope, top, list[n], name) <==> Kept(scope, top, list[n]) && PathText(list[n]) == name;
    }
  }

  lemma KeptAll(scope: Scope, top: Location, list: seq<Location>, found: set<Location>, before: set<string>, names: set<string>)
    requires forall at :: at in list <==> at in found
    requires KeptFirst(scope, top, list, |list|, before, names)
    ensures forall name :: name in names <==> name in before || exists at | at in found :: KeptAs(scope, top, at, name)
  {
    forall name ensures name in names <==> name in before || exists at | at in found :: KeptAs(scope, top, at, name) {
      if j :| 0 <= j < |list| && KeptAs(scope, top, list[j], name) { assert list[j] in found; }
      if at :| at in found && KeptAs(scope, top, at, name) { assert at in list; }
    }
  }

  /** The loop over the files of one walk. */
  method KeepFiles(scope: Scope, top: Location, found: set<Location>, before: set<string>)
      returns (ok: bool, names: set<string>)
    ensures ok <==> forall at | at in found :: Passes(scope, top, at)
    ensures ok ==> forall name :: name in names <==> name in before || exists at | at in found :: KeptAs(scope, top, at, name)
  {
    var list := Enumerate(found);
    ok, names := true, before;
    var n := 0;
    while n < |list| && ok
      invariant n <= |list| && KeptFirst(scope, top, list, n, before, names)
      invariant forall j | 0 <= j < n :: Passes(scope, top, list[j])
      invariant !ok ==> n < |list| && !Passes(scope, top, list[n])
      decreases |list| - n, ok
    {
      if Kept(scope, top, list[n]) && !Admissible(scope, PathText(list[n])) {
        ok := false;
      } else {
        KeptNext(scope, top, list, n, before, names);
        if Kept(scope, top, list[n]) { names := names + {PathText(list[n])}; }
        n := n + 1;
      }
    }
    if ok { KeptAll(scope, top, list, found, before, names); } else { assert list[n] in found; }
  }

  lemma FoundIsChosen(scope: Scope, tree: FileTree, top: Location, found: set<Location>, name: string)
    requires forall at :: at in found <==> SeenFile(tree, scope.skips, top, at)
    ensures (exists at | at in found :: KeptAs(scope, top, at, name)) <==> ChosenFrom(scope, tree, top, name)
  {
    if at :| at in found && KeptAs(scope, top, at, name) { PathSplits(tree, at); }
    if ChosenFrom(scope, tree, top, name) {
      JoinSplit(name, '/');
      assert KeptAs(scope, top, Split(name, '/'), name);
    }
  }

  lemma AbsentHoldsNothing(scope: Scope, tree: Node, top: Location)
    requires !Present(scope, tree, top)
    ensures forall name :: !ChosenFrom(scope, tree, top, name)
  {
    forall name ensures !ChosenFrom(scope, tree, top, name) {
      if ChosenFrom(scope, tree, top, name) {
        AboveIsDir(tree, top, Split(name, '/'));
        FoundWithoutLink(tree, top);
      }
    }
  }

  /** One source tree of `source_names`. */
  method TreeNames(scope: Scope, tree: FileTree, top: Location, before: set<string>) returns (ok: bool, names: set<string>)
    ensures ok <==> Usable(scope, tree, top)
    ensures ok ==> forall n :: n in names <==> n in before || ChosenFrom(scope, tree, top, n)
  {
    ok, names := true, before;
    if !Present(scope, tree, top) {
      AbsentHoldsNothing(scope, tree, top);
    } else if BehindLink(tree, top) || !Lookup(tree, top).value.Dir? {
      if IsDir(tree, top) { FoundWithoutLink(tree, top); }
      ok := false;
    } else {
      var r := WalkFiles(tree, scope.skips, top);
      ok := r.Ok?;
      if ok {
        ok, names := KeepFiles(scope, top, r.value, before);
        forall n ensures (exists at | at in r.value :: KeptAs(scope, top, at, n)) <==> ChosenFrom(scope, tree, top, n) {
          FoundIsChosen(scope, tree, top, r.value, n);
        }
      }
    }
  }

  /** `source_names`. */
  method SourceNames(scope: Scope, tree: FileTree) returns (r: Result<set<string>>)
    ensures r.Ok? <==> Selectable(scope, tree)
    ensures r.Ok? ==> IsSelection(scope, tree, r.value)
  {
    var names := scope.required;
    for i := 0 to |scope.trees|
      invariant forall j | 0 <= j < i :: Usable(scope, tree, scope.trees[j])
      invariant forall n :: n in names <==>
        n in scope.required || exists j | 0 <= j < i :: ChosenFrom(scope, tree, scope.trees[j], n)
    {
      var ok;
      ok, names := TreeNames(scope, tree, scope.trees[i], names);
      if !ok { return Rejected; }
    }
    r := Ok(names);
  }

  lemma OneSelection(scope: Scope, tree: Node, names: set<string>, others: set<string>)
    requires IsSelection(scope, tree, names)
    ensures names == others <==> IsSelection(scope, tree, others)
  {
    if IsSelection(scope, tree, others) {
      forall name ensures name in names <==> name in others { assert name in names <==> Selected(scope, tree, name); }
    }
  }

  /** The same files are selected in both trees, with the same bytes. */
  ghost predicate SameSources(scope: Scope, a: Node, b: Node) {
    forall name :: (Selected(scope, a, name) <==> Selected(scope, b, name))
                   && (Selected(scope, a, name) ==> FileAt(a, name) == FileAt(b, name))
  }
}
