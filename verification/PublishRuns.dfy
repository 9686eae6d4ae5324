/** Any number of builders over one disk, in any interleaving: what holds in every state of
    every run. */
module PublishRuns {
  import opened Text
  import opened PublishSteps

  datatype System = System(disk: Disk, builders: seq<Builder>)

  datatype Move = Move(who: nat, event: Event)

  function Next(sha: Bytes -> string, s: System, m: Move): (t: System)
    ensures |t.builders| == |s.builders|
  {
    if m.who < |s.builders| && Equipped(s.builders[m.who]) then
      var (d, b) := Act(sha, s.disk, s.builders[m.who], m.event);
      System(d, s.builders[m.who := b])
    else s
  }

  function Run(sha: Bytes -> string, s: System, moves: seq<Move>): (t: System)
    ensures |t.builders| == |s.builders|
  {
    if moves == [] then s else Next(sha, Run(sha, s, moves[..|moves| - 1]), moves[|moves| - 1])
  }

  function Starting(job: Job): Builder {
    Builder(job, MakeZipTemp, false, None, None, false, false, {})
  }

  /** Any disk and any jobs, destinations shared or already taken included. */
  ghost predicate Initial(s: System) {
    && DiskSound(s.disk)
    && forall i | 0 <= i < |s.builders| ::
         s.builders[i] == Starting(s.builders[i].job) && s.builders[i].job.zip != s.builders[i].job.receipt
  }

  ghost predicate Apart(bs: seq<Builder>) {
    forall i, j | 0 <= i < j < |bs| :: Own(bs[i]) !! Own(bs[j])
  }

  ghost predicate Invariant(sha: Bytes -> string, s: System) {
    && Apart(s.builders)
    && DiskSound(s.disk)
    && forall i | 0 <= i < |s.builders| :: Ready(sha, s.disk, s.builders[i])
  }

  /** Another builder's step does not disturb this one. */
  lemma OtherUndisturbed(sha: Bytes -> string, d: Disk, d': Disk, b: Builder, b': Builder, c: Builder)
    requires TouchesOnlyOwn(d, d', b, b') && DiskSound(d) && DiskSound(d')
    requires Ready(sha, d, c) && Own(c) !! Own(b)
    ensures Ready(sha, d', c) && Own(c) !! Own(b')
    ensures ZipVisible(d', c) == ZipVisible(d, c) && ReceiptVisible(d', c) == ReceiptVisible(d, c)
  {
  }

  lemma NextKeepsInvariant(sha: Bytes -> string, s: System, m: Move)
    requires Invariant(sha, s)
    ensures Invariant(sha, Next(sha, s, m))
    ensures m.who < |s.builders| ==>
      TouchesOnlyOwn(s.disk, Next(sha, s, m).disk, s.builders[m.who], Next(sha, s, m).builders[m.who])
  {
    if m.who < |s.builders| {
      var b := s.builders[m.who];
      var (d, b') := Act(sha, s.disk, b, m.event);
      ActKeeps(sha, s.disk, b, m.event);
      forall i | 0 <= i < |s.builders| && i != m.who
        ensures Ready(sha, d, s.builders[i]) && Own(s.builders[i]) !! Own(b')
      {
        OtherUndisturbed(sha, s.disk, d, b, b', s.builders[i]);
      }
    }
  }

  lemma {:induction false} RunKeepsInvariant(sha: Bytes -> string, s: System, moves: seq<Move>)
    requires Initial(s)
    ensures Invariant(sha, Run(sha, s, moves))
  {
    if moves != [] {
      RunKeepsInvariant(sha, s, moves[..|moves| - 1]);
      NextKeepsInvariant(sha, Run(sha, s, moves[..|moves| - 1]), moves[|moves| - 1]);
    }
  }

  // ---------------------------------------------------------------- what holds over all runs

  /** The name still points at the same inode, with the same content. */
  predicate SameFile(d: Disk, d': Disk, p: Place) {
    && p in d.names && p in d'.names && d'.names[p] == d.names[p]
    && d.names[p] in d.data && d.names[p] in d'.data && d'.data[d.names[p]] == d.data[d.names[p]]
  }

  lemma RunStep(sha: Bytes -> string, s: System, moves: seq<Move>, m: Move)
    ensures Run(sha, s, moves + [m]) == Next(sha, Run(sha, s, moves), m)
  {
    assert (moves + [m])[..|moves|] == moves;
  }

  /** No step overwrites or deletes a file that another builder published. */
  lemma OthersPublicationsUntouched(sha: Bytes -> string, s: System, moves: seq<Move>, m: Move, i: nat)
    requires Initial(s) && i < |s.builders| && m.who != i
    ensures var before, after := Run(sha, s, moves), Run(sha, s, moves + [m]);
      && after.builders[i] == before.builders[i]
      && (ZipVisible(before.disk, before.builders[i]) ==> SameFile(before.disk, after.disk, Dest(before.builders[i].job.zip)))
      && (ReceiptVisible(before.disk, before.builders[i]) ==>
            SameFile(before.disk, after.disk, Dest(before.builders[i].job.receipt)))
  {
    RunStep(sha, s, moves, m);
    RunKeepsInvariant(sha, s, moves);
    var before := Run(sha, s, moves);
    NextKeepsInvariant(sha, before, m);
    if m.who < |s.builders| { assert Own(before.builders[i]) !! Own(before.builders[m.who]); }
  }

  /** Files that were there before any builder started are never replaced, removed or changed. */
  lemma {:induction false} PreexistingFilesUntouched(sha: Bytes -> string, s: System, moves: seq<Move>, p: Place)
    requires Initial(s) && p in s.disk.names && s.disk.names[p] in s.disk.data
    ensures var t := Run(sha, s, moves);
      && (forall i | 0 <= i < |t.builders| :: forall k | k in Own(t.builders[i]) :: k >= s.disk.next)
      && t.disk.next >= s.disk.next
      && SameFile(s.disk, t.disk, p)
  {
    if moves != [] {
      var init, m := moves[..|moves| - 1], moves[|moves| - 1];
      PreexistingFilesUntouched(sha, s, init, p);
      RunKeepsInvariant(sha, s, init);
      NextKeepsInvariant(sha, Run(sha, s, init), m);
    }
  }

  /** A destination shows the file of at most one builder. */
  lemma OneOwner(sha: Bytes -> string, s: System, moves: seq<Move>, i: nat, j: nat)
    requires Initial(s) && i < |s.builders| && j < |s.builders| && i != j
    ensures var t := Run(sha, s, moves);
      && !(t.builders[i].job.zip == t.builders[j].job.zip
             && ZipVisible(t.disk, t.builders[i]) && ZipVisible(t.disk, t.builders[j]))
      && !(t.builders[i].job.receipt == t.builders[j].job.receipt
             && ReceiptVisible(t.disk, t.builders[i]) && ReceiptVisible(t.disk, t.builders[j]))
  {
    RunKeepsInvariant(sha, s, moves);
    var t := Run(sha, s, moves);
    var a, b := if i < j then i else j, if i < j then j else i;
    assert Own(t.builders[a]) !! Own(t.builders[b]);
  }

  /** `build` has returned normally. */
  predicate Succeeded(b: Builder) { b.phase.Done? && !b.failing }

  predicate Failed(b: Builder) { b.phase.Done? && b.failing }

  /** Both outputs are visible, the ZIP with the archive and the receipt with its digest. */
  predicate PairPublished(sha: Bytes -> string, d: Disk, b: Builder) {
    && ZipVisible(d, b) && Shows(d, Dest(b.job.zip), Archive(b.job.archive))
    && ReceiptVisible(d, b) && Shows(d, Dest(b.job.receipt), Receipt(sha(b.job.archive)))
  }

  /** A cleanup that was cut short is a failure, and so is a missed flag. */
  lemma NothingKeptOnSuccess(b: Builder)
    requires Coherent(b) && Succeeded(b)
    ensures ZipLeft(b) <==> ZipUnlinkFailed in b.mishaps
    ensures ReceiptLeft(b) <==> ReceiptUnlinkFailed in b.mishaps
  {
  }

  /** Once `build` has returned, its pair stays published whatever the others do, unless it
      was called while an exception was being handled: then its own cleanup has removed the
      pair, but for what could not be unlinked. */
  lemma {:induction false} SuccessIsLasting(sha: Bytes -> string, s: System, moves: seq<Move>, more: seq<Move>, i: nat)
    requires Initial(s) && i < |s.builders| && Succeeded(Run(sha, s, moves).builders[i])
    ensures var b, d := Run(sha, s, moves).builders[i], Run(sha, s, moves + more).disk;
      && Run(sha, s, moves + more).builders[i] == b
      && (!b.job.handling ==> PairPublished(sha, d, b))
      && (b.job.handling ==> (ZipVisible(d, b) <==> ZipUnlinkFailed in b.mishaps)
                             && (ReceiptVisible(d, b) <==> ReceiptUnlinkFailed in b.mishaps))
    decreases |more|
  {
    RunKeepsInvariant(sha, s, moves + more);
    if more == [] {
      assert moves + more == moves;
    } else {
      var init, m := more[..|more| - 1], more[|more| - 1];
      assert moves + more == moves + init + [m];
      SuccessIsLasting(sha, s, moves, init, i);
      RunStep(sha, s, moves + init, m);
    }
    var b := Run(sha, s, moves).builders[i];
    assert Ready(sha, Run(sha, s, moves + more).disk, Run(sha, s, moves + more).builders[i]);
    NothingKeptOnSuccess(b);
  }

  /** In every reachable state a visible receipt carries the digest of the ZIP it was built
      for; that ZIP is missing exactly when a run that undid its work left the receipt behind
      (interrupted between linking and noting it, or its unlink failed) while it did remove
      the ZIP. */
  lemma ReceiptBindsZip(sha: Bytes -> string, s: System, moves: seq<Move>, i: nat)
    requires Initial(s) && i < |s.builders| && ReceiptVisible(Run(sha, s, moves).disk, Run(sha, s, moves).builders[i])
    ensures var t := Run(sha, s, moves); var b := t.builders[i];
      && Shows(t.disk, Dest(b.job.receipt), Receipt(sha(b.job.archive)))
      && (ZipVisible(t.disk, b) ==> Shows(t.disk, Dest(b.job.zip), Archive(b.job.archive)))
      && (!ZipVisible(t.disk, b) <==> b.phase.Done? && Undoes(b) && ReceiptLeft(b) && !ZipLeft(b))
  {
    RunKeepsInvariant(sha, s, moves);
    assert Ready(sha, Run(sha, s, moves).disk, Run(sha, s, moves).builders[i]);
  }

  /** A failed run leaves an output behind exactly when its removal was prevented, and a
      temporary file only when its unlink failed or was never reached. */
  lemma FailureLeaves(sha: Bytes -> string, s: System, moves: seq<Move>, i: nat)
    requires Initial(s) && i < |s.builders| && Failed(Run(sha, s, moves).builders[i])
    ensures var t := Run(sha, s, moves); var b := t.builders[i];
      && (ZipVisible(t.disk, b) <==> ZipLeft(b))
      && (ReceiptVisible(t.disk, b) <==> ReceiptLeft(b))
      && forall k | k in Own(b) && Temp(k) in t.disk.names :: TempLeft(b)
  {
    RunKeepsInvariant(sha, s, moves);
    assert Ready(sha, Run(sha, s, moves).disk, Run(sha, s, moves).builders[i]);
  }

  // ---------------------------------------------------------------- faults alone are harmless

  predicate Unrecoverable(t: System, m: Move, i: nat)
    requires i < |t.builders|
  {
    m.who == i && CanStrand(t.builders[i], m.event)
  }

  /** Builder `i` meets nothing but ordinary faults. */
  ghost predicate OnlyFaults(sha: Bytes -> string, s: System, moves: seq<Move>, i: nat)
    requires i < |s.builders|
  {
    forall n | 0 <= n < |moves| ::
      !Unrecoverable(Run(sha, s, moves[..n]), moves[n], i)
  }

  lemma {:induction false} OnlyFaultsNoMishap(sha: Bytes -> string, s: System, moves: seq<Move>, i: nat)
    requires Initial(s) && i < |s.builders| && OnlyFaults(sha, s, moves, i)
    ensures Run(sha, s, moves).builders[i].mishaps == {}
  {
    if moves != [] {
      var init, m := moves[..|moves| - 1], moves[|moves| - 1];
      forall n | 0 <= n < |init| ensures init[..n] == moves[..n] { }
      OnlyFaultsNoMishap(sha, s, init, i);
      var t := Run(sha, s, init);
      assert !Unrecoverable(t, m, i);
      if m.who == i && Equipped(t.builders[i]) { MishapNeedsCause(sha, t.disk, t.builders[i], m.event); }
    }
  }

  /** With faults at any steps, but cleanup unlinks that succeed and no interrupt at a bad
      moment: a visible receipt always has its ZIP, and a run that undoes its work ends with
      nothing of its own on disk. */
  lemma FaultsRollBack(sha: Bytes -> string, s: System, moves: seq<Move>, i: nat)
    requires Initial(s) && i < |s.builders| && OnlyFaults(sha, s, moves, i)
    ensures var t := Run(sha, s, moves); var b := t.builders[i];
      && (ReceiptVisible(t.disk, b) ==> PairPublished(sha, t.disk, b))
      && (b.phase.Done? && Undoes(b) ==> !ZipVisible(t.disk, b) && !ReceiptVisible(t.disk, b))
      && (b.phase.Done? ==> forall k | k in Own(b) :: Temp(k) !in t.disk.names)
  {
    OnlyFaultsNoMishap(sha, s, moves, i);
    RunKeepsInvariant(sha, s, moves);
    if ReceiptVisible(Run(sha, s, moves).disk, Run(sha, s, moves).builders[i]) { ReceiptBindsZip(sha, s, moves, i); }
    assert Ready(sha, Run(sha, s, moves).disk, Run(sha, s, moves).builders[i]);
  }
}
