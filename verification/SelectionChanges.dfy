/** What the selection does not depend on: a tree rebuilt from the selected files selects the
    same, and so does a tree with other files written into it. */
module SelectionChanges {
  import opened Text
  import opened DependencyTree
  import opened SourceWalk
  import opened TreeWrite
  import opened SourceSelection

  // ---------------------------------------------------------------- rebuilding the selected files

  /** `staged` holds the named files of `tree`, the directories above them, and nothing else. */
  ghost predicate Replica(tree: Node, names: set<string>, staged: Node) {
    && staged.Dir?
    && (forall at | Lookup(staged, at).Some? :: Lookup(staged, at).value.File? || (IsDir(staged, at) && IsDir(tree, at)))
    && forall name :: FileAt(staged, name) == if name in names then FileAt(tree, name) else None
  }

  lemma EmptyReplica(tree: FileTree)
    requires tree.Dir?
    ensures WellFormed(Dir([])) && Replica(tree, {}, Dir([]))
  {
    EmptyWellFormed();
    forall at | Lookup(Dir([]), at).Some? ensures at == [] {}
  }

  lemma ReplicaFile(tree: FileTree, names: set<string>, staged: FileTree, at: Location)
    requires Replica(tree, names, staged) && Lookup(staged, at).Some? && Lookup(staged, at).value.File?
    ensures at != [] && PathText(at) in names && Lookup(tree, at) == Lookup(staged, at)
  {
    PathSplits(staged, at);
    assert FileAt(staged, PathText(at)).Some?;
  }

  /** The next file to copy is not in the way of the earlier ones, nor they of it. */
  lemma PlaceIsFree(tree: FileTree, names: set<string>, staged: FileTree, name: string)
    requires Replica(tree, names, staged) && name !in names && FileAt(tree, name).Some?
    ensures Writable(staged, Split(name, '/')) && Lookup(staged, Split(name, '/')).None?
  {
    var at := Split(name, '/');
    forall k | 0 <= k < |at| ensures Lookup(staged, at[..k]).None? || IsDir(staged, at[..k]) {
      AboveIsDir(tree, at[..k], at);
      if Lookup(staged, at[..k]).Some? && Lookup(staged, at[..k]).value.File? { ReplicaFile(tree, names, staged, at[..k]); }
    }
    assert FileAt(staged, name).None?;
  }

  lemma ReplicaGrows(tree: FileTree, names: set<string>, staged: FileTree, name: string)
    requires Replica(tree, names, staged) && name !in names && FileAt(tree, name).Some?
    ensures var put := Put(staged, Split(name, '/'), FileAt(tree, name).value);
      WellFormed(put) && Replica(tree, names + {name}, put)
  {
    var at, data := Split(name, '/'), FileAt(tree, name).value;
    var put := Put(staged, at, data);
    PlaceIsFree(tree, names, staged, name);
    PutWellFormed(staged, at, data);
    forall x ensures PutAt(staged, put, at, data, x) { LookupPut(staged, at, data, x); }
    forall x | x < at ensures IsDir(tree, x) { AboveIsDir(tree, x, at); }
    forall other ensures FileAt(put, other) == if other in names + {name} then FileAt(tree, other) else None {
      assert PutAt(staged, put, at, data, Split(other, '/'));
      if Split(other, '/') == at { JoinSplit(other, '/'); JoinSplit(name, '/'); }
      if Split(other, '/') < at { AboveIsDir(tree, Split(other, '/'), at); }
      assert FileAt(staged, other) == if other in names then FileAt(tree, other) else None;
    }
    forall x | Lookup(put, x).Some? ensures Lookup(put, x).value.File? || (IsDir(put, x) && IsDir(tree, x)) {
      assert PutAt(staged, put, at, data, x);
    }
    assert PutAt(staged, put, at, data, []);
  }

  lemma StagedTreeUsable(scope: Scope, tree: FileTree, names: set<string>, staged: FileTree, top: Location)
    requires Usable(scope, tree, top)
    requires Replica(tree, names, staged) && forall name | name in names :: FileAt(tree, name).Some?
    ensures Usable(scope, staged, top)
  {
    if Present(scope, staged, top) {
      assert !BehindLink(staged, top);
      if !IsDir(staged, top) { ReplicaFile(tree, names, staged, top); }
      FoundWithoutLink(tree, top);
      forall at | SeenFile(staged, scope.skips, top, at) && Kept(scope, top, at) ensures Admissible(scope, PathText(at)) {
        ReplicaFile(tree, names, staged, at);
        assert SeenFile(tree, scope.skips, top, at);
      }
    }
  }

  /** Selecting from the files that were selected selects the same files: the walk of the
      rebuilt tree neither loses nor gains any, and meets nothing to refuse. */
  lemma SelectionIsFixpoint(scope: Scope, tree: FileTree, names: set<string>, staged: FileTree)
    requires Selectable(scope, tree) && IsSelection(scope, tree, names)
    requires Replica(tree, names, staged) && forall name | name in names :: FileAt(tree, name).Some?
    ensures Selectable(scope, staged) && IsSelection(scope, staged, names)
  {
    forall top | top in scope.trees ensures Usable(scope, staged, top) {
      StagedTreeUsable(scope, tree, names, staged, top);
    }
    forall name ensures Selected(scope, staged, name) <==> name in names {
      assert FileAt(staged, name) == if name in names then FileAt(tree, name) else None;
      assert name in names <==> Selected(scope, tree, name);
      if name in names && name !in scope.required {
        var top :| top in scope.trees && ChosenFrom(scope, tree, top, name);
        assert ChosenFrom(scope, staged, top, name);
      }
    }
  }

  // ---------------------------------------------------------------- files written later

  /** Writing the file neither adds to nor takes from what is selected. */
  predicate Outside(scope: Scope, path: string) {
    && path !in scope.required
    && forall top | top in scope.trees ::
         top != Split(path, '/') && !(Walked(scope.skips, top, Split(path, '/')) && Kept(scope, top, Split(path, '/')))
  }

  /** Links lead where they led. */
  ghost predicate LinksKept(scope: Scope, a: Node, b: Node) {
    forall top | top in scope.trees && BehindLink(a, top) :: scope.leads(a, top) == scope.leads(b, top)
  }

  /** `put` is `tree` with a file of these bytes at the path. */
  ghost predicate Written(tree: Node, put: Node, path: string, data: Bytes) {
    Writable(tree, Split(path, '/')) && forall x :: PutAt(tree, put, Split(path, '/'), data, x)
  }

  lemma WrittenByPut(tree: FileTree, path: string, data: Bytes)
    requires Writable(tree, Split(path, '/'))
    ensures var put := Put(tree, Split(path, '/'), data); WellFormed(put) && Written(tree, put, path, data)
  {
    var at := Split(path, '/');
    PutWellFormed(tree, at, data);
    forall x ensures PutAt(tree, Put(tree, at, data), at, data, x) { LookupPut(tree, at, data, x); }
  }

  lemma WrittenFiles(tree: Node, put: Node, path: string, data: Bytes, name: string)
    requires Written(tree, put, path, data)
    ensures FileAt(put, name) == if name == path then Some(data) else FileAt(tree, name)
  {
    var at, x := Split(path, '/'), Split(name, '/');
    assert PutAt(tree, put, at, data, x);
    if x == at { JoinSplit(name, '/'); JoinSplit(path, '/'); }
    if x < at { assert at[..|x|] == x; }
  }

  lemma WrittenLinks(tree: Node, put: Node, path: string, data: Bytes, at: Location)
    requires Written(tree, put, path, data)
    ensures BehindLink(tree, at) <==> BehindLink(put, at)
  {
    var place := Split(path, '/');
    forall k | 0 <= k <= |at|
      ensures (Lookup(tree, at[..k]).Some? && Lookup(tree, at[..k]).value.Link?)
              <==> (Lookup(put, at[..k]).Some? && Lookup(put, at[..k]).value.Link?)
    {
      assert PutAt(tree, put, place, data, at[..k]);
      if at[..k] < place { assert place[..k] == at[..k]; }
    }
  }

  /** Only the written path and the directories above it look different. */
  lemma WrittenPlace(tree: Node, put: Node, path: string, data: Bytes, x: Location)
    requires Written(tree, put, path, data)
    ensures x < Split(path, '/') ==> IsDir(put, x) && (Lookup(tree, x).None? || IsDir(tree, x))
    ensures x == Split(path, '/') ==> Lookup(put, x) == Some(File(data)) && (Lookup(tree, x).None? || Lookup(tree, x).value.File?)
    ensures !(x <= Split(path, '/')) ==> Lookup(put, x) == Lookup(tree, x)
  {
    var at := Split(path, '/');
    assert PutAt(tree, put, at, data, x);
    if x < at { assert at[..|x|] == x; }
  }

  predicate Offence(tree: Node, skips: Skips, top: Location, x: Location) {
    Seen(tree, skips, top, x) && !(Lookup(tree, x).value.File? || IsDir(tree, x))
  }

  /** A source tree shows the same files and the same offences. */
  lemma WrittenWalk(scope: Scope, tree: Node, put: Node, path: string, data: Bytes, top: Location)
    requires Outside(scope, path) && Written(tree, put, path, data) && top in scope.trees
    ensures Orderly(tree, scope.skips, top) <==> Orderly(put, scope.skips, top)
    ensures forall x | Kept(scope, top, x) :: SeenFile(tree, scope.skips, top, x) <==> SeenFile(put, scope.skips, top, x)
  {
    forall x ensures Offence(tree, scope.skips, top, x) <==> Offence(put, scope.skips, top, x) {
      WrittenPlace(tree, put, path, data, x);
    }
    forall x | Kept(scope, top, x) ensures SeenFile(tree, scope.skips, top, x) <==> SeenFile(put, scope.skips, top, x) {
      WrittenPlace(tree, put, path, data, x);
      if x == Split(path, '/') { assert !Walked(scope.skips, top, x); }
    }
    if Orderly(tree, scope.skips, top) {
      forall x | Seen(put, scope.skips, top, x) ensures Lookup(put, x).value.File? || IsDir(put, x) {
        assert Offence(tree, scope.skips, top, x) <==> Offence(put, scope.skips, top, x);
      }
    }
    if Orderly(put, scope.skips, top) {
      forall x | Seen(tree, scope.skips, top, x) ensures Lookup(tree, x).value.File? || IsDir(tree, x) {
        assert Offence(tree, scope.skips, top, x) <==> Offence(put, scope.skips, top, x);
      }
    }
  }

  /** What one source tree contributes does not change. */
  lemma WrittenOutside(scope: Scope, tree: FileTree, put: FileTree, path: string, data: Bytes, top: Location)
    requires Outside(scope, path) && Written(tree, put, path, data) && top in scope.trees && LinksKept(scope, tree, put)
    ensures Usable(scope, tree, top) <==> Usable(scope, put, top)
    ensures forall name :: ChosenFrom(scope, tree, top, name) <==> ChosenFrom(scope, put, top, name)
  {
    WrittenLinks(tree, put, path, data, top);
    WrittenPlace(tree, put, path, data, top);
    WrittenWalk(scope, tree, put, path, data, top);
    if Lookup(tree, top).None? {
      forall x ensures !Seen(tree, scope.skips, top, x) {
        if Seen(tree, scope.skips, top, x) { AboveIsDir(tree, top, x); }
      }
    }
    if Lookup(put, top).Some? && !Lookup(put, top).value.Link? { FoundWithoutLink(put, top); }
    if Lookup(tree, top).Some? && !Lookup(tree, top).value.Link? { FoundWithoutLink(tree, top); }
    assert KeptAdmissible(scope, tree, top) <==> KeptAdmissible(scope, put, top);
  }

  lemma WrittenSelection(scope: Scope, tree: FileTree, put: FileTree, path: string, data: Bytes, names: set<string>)
    requires Outside(scope, path) && Written(tree, put, path, data) && LinksKept(scope, tree, put)
    ensures Selectable(scope, tree) <==> Selectable(scope, put)
    ensures IsSelection(scope, tree, names) <==> IsSelection(scope, put, names)
    ensures !Selected(scope, put, path)
  {
    forall top | top in scope.trees
      ensures Usable(scope, tree, top) <==> Usable(scope, put, top)
      ensures forall name :: ChosenFrom(scope, tree, top, name) <==> ChosenFrom(scope, put, top, name)
    {
      WrittenOutside(scope, tree, put, path, data, top);
    }
    assert forall name :: Selected(scope, tree, name) <==> Selected(scope, put, name);
  }

  // ---------------------------------------------------------------- files written again

  lemma FileIsWritable(tree: Node, path: string)
    requires FileAt(tree, path).Some?
    ensures Writable(tree, Split(path, '/'))
  {
    var at := Split(path, '/');
    forall k | 0 <= k < |at| ensures IsDir(tree, at[..k]) { AboveIsDir(tree, at[..k], at); }
  }

  predicate SameKind(tree: Node, put: Node, x: Location) {
    && (Lookup(tree, x).Some? <==> Lookup(put, x).Some?)
    && (Lookup(tree, x).Some? ==>
          && (Lookup(tree, x).value.File? <==> Lookup(put, x).value.File?)
          && (Lookup(tree, x).value.Dir? <==> Lookup(put, x).value.Dir?))
  }

  lemma SameShapeUsable(scope: Scope, tree: Node, put: Node, top: Location)
    requires forall x :: SameKind(tree, put, x)
    requires Present(scope, tree, top) <==> Present(scope, put, top)
    requires Usable(scope, tree, top)
    ensures Usable(scope, put, top)
  {
    assert SameKind(tree, put, top);
    forall x | Seen(put, scope.skips, top, x) && Usable(scope, tree, top) && Present(scope, put, top)
      ensures Lookup(put, x).value.File? || IsDir(put, x)
      ensures Lookup(put, x).value.File? && Kept(scope, top, x) ==> Admissible(scope, PathText(x))
    {
      assert SameKind(tree, put, x);
    }
  }

  lemma OverwrittenPlace(tree: Node, put: Node, path: string, data: Bytes, x: Location)
    requires FileAt(tree, path).Some? && Written(tree, put, path, data)
    ensures SameKind(tree, put, x)
  {
    WrittenPlace(tree, put, path, data, x);
    if x < Split(path, '/') { AboveIsDir(tree, x, Split(path, '/')); }
    if x == Split(path, '/') { assert Lookup(put, x) == Some(File(data)); }
  }

  /** Overwriting a file changes neither what is selected nor what is refused. */
  lemma RewrittenSelection(scope: Scope, tree: FileTree, put: FileTree, path: string, data: Bytes, names: set<string>)
    requires FileAt(tree, path).Some? && Written(tree, put, path, data) && LinksKept(scope, tree, put)
    requires Selectable(scope, tree) && IsSelection(scope, tree, names)
    ensures Selectable(scope, put) && IsSelection(scope, put, names)
  {
    forall x ensures SameKind(tree, put, x) { OverwrittenPlace(tree, put, path, data, x); }
    forall top | top in scope.trees ensures Usable(scope, put, top) {
      WrittenLinks(tree, put, path, data, top);
      assert SameKind(tree, put, top);
      SameShapeUsable(scope, tree, put, top);
    }
    forall top, name ensures ChosenFrom(scope, tree, top, name) <==> ChosenFrom(scope, put, top, name) {
      assert SameKind(tree, put, Split(name, '/'));
    }
    forall name ensures name in names <==> Selected(scope, put, name) {
      assert name in names <==> Selected(scope, tree, name);
    }
  }
}
