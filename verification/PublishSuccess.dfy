/** Success on any disk, among any other builders: a builder that meets no fault and whose
    destinations nobody else has or wants runs through, in any interleaving. */
module PublishSuccess {
  import opened Text
  import opened PublishSteps
  import opened PublishRuns

  /** The number of operations of an undisturbed build. */
  const OPERATIONS: nat := 18

  /** How many operations an undisturbed build has behind it. */
  function Rank(phase: Phase): nat {
    match phase
    case MakeZipTemp => 0
    case MakeReceiptTemp => 1
    case WriteZip => 2
    case VerifyZip => 3
    case WriteReceipt => 4
    case CheckAbsent => 5
    case LinkZip => 6
    case DropZipTemp => 7
    case FlagZip => 8
    case LinkReceipt => 9
    case DropReceiptTemp => 10
    case FlagReceipt => 11
    case VerifyOutZip => 12
    case VerifyOutReceipt => 13
    case CleanZipTemp => 14
    case CleanReceiptTemp => 15
    case CleanReceipt => 16
    case CleanZip => 17
    case _ => 18
  }

  /** Nothing has gone wrong so far: the temporaries are there while they are needed, and the
      destinations are free until the links are made. */
  predicate OnTrack(d: Disk, b: Builder) {
    && !b.failing && b.mishaps == {} && b.phase !in {UndoZip, UndoReceipt}
    && (1 <= Rank(b.phase) <= 7 ==> b.zipTemp.Some? && Temp(b.zipTemp.value) in d.names)
    && (2 <= Rank(b.phase) <= 10 ==> b.receiptTemp.Some? && Temp(b.receiptTemp.value) in d.names)
    && (b.phase.VerifyZip? ==> b.zipTemp.value in d.data && d.data[b.zipTemp.value] == Archive(b.job.archive))
    && (Rank(b.phase) <= 6 ==> Dest(b.job.zip) !in d.names) && (Rank(b.phase) <= 9 ==> Dest(b.job.receipt) !in d.names)
    && (b.job.handling && Rank(b.phase) >= 17 ==> Dest(b.job.receipt) !in d.names)
    && (b.job.handling && Rank(b.phase) >= 18 ==> Dest(b.job.zip) !in d.names)
  }

  function StepOn(sha: Bytes -> string, d: Disk, b: Builder): (Disk, Builder) {
    if Equipped(b) then Act(sha, d, b, Proceed) else (d, b)
  }

  /** The builder's next operation succeeds. */
  ghost predicate Advances(sha: Bytes -> string, d: Disk, b: Builder) {
    var (d', b') := StepOn(sha, d, b);
    OnTrack(d', b') && Rank(b'.phase) == if b.phase.Done? then OPERATIONS else Rank(b.phase) + 1
  }

  lemma StagingAdvances(sha: Bytes -> string, d: Disk, b: Builder)
    requires Ready(sha, d, b) && OnTrack(d, b) && b.phase in {MakeZipTemp, MakeReceiptTemp, WriteZip, VerifyZip}
    ensures Advances(sha, d, b)
  {
  }

  lemma CheckingAdvances(sha: Bytes -> string, d: Disk, b: Builder)
    requires Ready(sha, d, b) && OnTrack(d, b) && b.phase in {WriteReceipt, CheckAbsent, VerifyOutZip, VerifyOutReceipt, Done}
    ensures Advances(sha, d, b)
  {
  }

  lemma ZipAdvances(sha: Bytes -> string, d: Disk, b: Builder)
    requires Ready(sha, d, b) && OnTrack(d, b) && b.phase in {LinkZip, DropZipTemp, FlagZip}
    ensures Advances(sha, d, b)
  {
  }

  lemma ReceiptAdvances(sha: Bytes -> string, d: Disk, b: Builder)
    requires Ready(sha, d, b) && OnTrack(d, b) && b.phase in {LinkReceipt, DropReceiptTemp, FlagReceipt}
    ensures Advances(sha, d, b)
  {
  }

  lemma CleaningAdvances(sha: Bytes -> string, d: Disk, b: Builder)
    requires Ready(sha, d, b) && OnTrack(d, b) && Cleaning(b)
    ensures Advances(sha, d, b)
  {
  }

  lemma OwnStepAdvances(sha: Bytes -> string, d: Disk, b: Builder)
    requires Ready(sha, d, b) && OnTrack(d, b)
    ensures Advances(sha, d, b)
  {
    if b.phase in {MakeZipTemp, MakeReceiptTemp, WriteZip, VerifyZip} {
      StagingAdvances(sha, d, b);
    } else if b.phase in {LinkZip, DropZipTemp, FlagZip} {
      ZipAdvances(sha, d, b);
    } else if b.phase in {LinkReceipt, DropReceiptTemp, FlagReceipt} {
      ReceiptAdvances(sha, d, b);
    } else if Cleaning(b) {
      CleaningAdvances(sha, d, b);
    } else {
      CheckingAdvances(sha, d, b);
    }
  }

  // ---------------------------------------------------------------- the others

  /** A name that a builder may add to the disk. */
  predicate MayAdd(job: Job, p: Place) { p.Temp? || p == Dest(job.zip) || p == Dest(job.receipt) }

  lemma AddsOnlyItsNames(sha: Bytes -> string, d: Disk, b: Builder, e: Event)
    requires Equipped(b)
    ensures forall p | p in Act(sha, d, b, e).0.names && p !in d.names :: MayAdd(b.job, p)
  {
  }

  /** No other builder publishes where `i` does. */
  ghost predicate Unrivalled(bs: seq<Builder>, i: nat) {
    && i < |bs|
    && forall j | 0 <= j < |bs| && j != i :: {bs[j].job.zip, bs[j].job.receipt} !! {bs[i].job.zip, bs[i].job.receipt}
  }

  lemma OthersKeepTrack(sha: Bytes -> string, d: Disk, d': Disk, b: Builder, b': Builder, c: Builder)
    requires TouchesOnlyOwn(d, d', b, b') && Ready(sha, d, c) && OnTrack(d, c) && Own(c) !! Own(b)
    requires forall p | p in d'.names && p !in d.names :: MayAdd(b.job, p)
    requires {b.job.zip, b.job.receipt} !! {c.job.zip, c.job.receipt}
    ensures OnTrack(d', c)
  {
  }

  // ---------------------------------------------------------------- whole runs

  lemma {:induction false} JobsKept(sha: Bytes -> string, s: System, moves: seq<Move>)
    requires Initial(s)
    ensures forall j | 0 <= j < |s.builders| :: Run(sha, s, moves).builders[j].job == s.builders[j].job
  {
    if moves != [] {
      var init, m := moves[..|moves| - 1], moves[|moves| - 1];
      JobsKept(sha, s, init);
      RunKeepsInvariant(sha, s, init);
      NextKeepsInvariant(sha, Run(sha, s, init), m);
    }
  }

  /** How many of the moves are builder `i`'s. */
  function Turns(moves: seq<Move>, i: nat): nat {
    if moves == [] then 0
    else Turns(moves[..|moves| - 1], i) + if moves[|moves| - 1].who == i then 1 else 0
  }

  /** Nobody but the builder itself ever has its destinations, and none of its operations fails. */
  ghost predicate Undisturbed(s: System, moves: seq<Move>, i: nat) {
    && Initial(s) && Unrivalled(s.builders, i)
    && Dest(s.builders[i].job.zip) !in s.disk.names && Dest(s.builders[i].job.receipt) !in s.disk.names
    && forall m | m in moves && m.who == i :: m.event.Proceed?
  }

  lemma OwnMove(sha: Bytes -> string, s: System, m: Move)
    requires Invariant(sha, s) && m.who < |s.builders| && m.event.Proceed? && OnTrack(s.disk, s.builders[m.who])
    ensures var t := Next(sha, s, m); var before, after := s.builders[m.who], t.builders[m.who];
      && OnTrack(t.disk, after)
      && Rank(after.phase) == if before.phase.Done? then OPERATIONS else Rank(before.phase) + 1
  {
    assert Ready(sha, s.disk, s.builders[m.who]);
    OwnStepAdvances(sha, s.disk, s.builders[m.who]);
  }

  lemma ForeignMove(sha: Bytes -> string, s: System, m: Move, i: nat)
    requires Invariant(sha, s) && Unrivalled(s.builders, i) && m.who != i && OnTrack(s.disk, s.builders[i])
    ensures var t := Next(sha, s, m); t.builders[i] == s.builders[i] && OnTrack(t.disk, t.builders[i])
  {
    if m.who < |s.builders| {
      var t, b := Next(sha, s, m), s.builders[m.who];
      NextKeepsInvariant(sha, s, m);
      assert Ready(sha, s.disk, b) && Ready(sha, s.disk, s.builders[i]) && Own(s.builders[i]) !! Own(b);
      AddsOnlyItsNames(sha, s.disk, b, m.event);
      OthersKeepTrack(sha, s.disk, t.disk, b, t.builders[m.who], s.builders[i]);
    }
  }

  /** The builder is on track, with `n` turns behind it. */
  predicate Tracked(s: System, i: nat, n: nat) {
    && i < |s.builders| && OnTrack(s.disk, s.builders[i])
    && Rank(s.builders[i].phase) == if n < OPERATIONS then n else OPERATIONS
  }

  lemma AnyMove(sha: Bytes -> string, s: System, m: Move, i: nat, n: nat)
    requires Invariant(sha, s) && Unrivalled(s.builders, i) && Tracked(s, i, n)
    requires m.who == i ==> m.event.Proceed?
    ensures Tracked(Next(sha, s, m), i, if m.who == i then n + 1 else n)
  {
    if m.who == i { OwnMove(sha, s, m); } else { ForeignMove(sha, s, m, i); }
  }

  lemma StaysUnrivalled(before: seq<Builder>, after: seq<Builder>, i: nat)
    requires Unrivalled(before, i) && |after| == |before| && forall j | 0 <= j < |before| :: after[j].job == before[j].job
    ensures Unrivalled(after, i)
  {
  }

  lemma UndisturbedBefore(s: System, moves: seq<Move>, i: nat)
    requires Undisturbed(s, moves, i) && moves != []
    ensures var m := moves[|moves| - 1]; Undisturbed(s, moves[..|moves| - 1], i) && (m.who == i ==> m.event.Proceed?)
  {
  }

  lemma {:induction false} StaysOnTrack(sha: Bytes -> string, s: System, moves: seq<Move>, i: nat)
    requires Undisturbed(s, moves, i)
    ensures Tracked(Run(sha, s, moves), i, Turns(moves, i))
  {
    if moves != [] {
      var init, m := moves[..|moves| - 1], moves[|moves| - 1];
      UndisturbedBefore(s, moves, i);
      StaysOnTrack(sha, s, init, i);
      RunKeepsInvariant(sha, s, init);
      JobsKept(sha, s, init);
      StaysUnrivalled(s.builders, Run(sha, s, init).builders, i);
      AnyMove(sha, Run(sha, s, init), m, i, Turns(init, i));
    }
  }

  /** That file is at its destination, with that content. */
  predicate Holding(d: Disk, name: string, c: Content) {
    Dest(name) in d.names && d.names[Dest(name)] in d.data && d.data[d.names[Dest(name)]] == c
  }

  /** On any disk and among any other builders, interleaved in any way and failing as they may:
      once it has had its turns, a builder that nothing disturbs has returned normally, with
      its archive and the receipt for it at their destinations. */
  lemma UndisturbedRunSucceeds(sha: Bytes -> string, s: System, moves: seq<Move>, i: nat)
    requires Undisturbed(s, moves, i) && Turns(moves, i) >= OPERATIONS && !s.builders[i].job.handling
    ensures var t, job := Run(sha, s, moves), s.builders[i].job;
      && Succeeded(t.builders[i]) && PairPublished(sha, t.disk, t.builders[i])
      && Holding(t.disk, job.zip, Archive(job.archive)) && Holding(t.disk, job.receipt, Receipt(sha(job.archive)))
      && forall k | k in Own(t.builders[i]) :: Temp(k) !in t.disk.names
  {
    StaysOnTrack(sha, s, moves, i);
    JobsKept(sha, s, moves);
    RunKeepsInvariant(sha, s, moves);
    assert moves + [] == moves;
    SuccessIsLasting(sha, s, moves, [], i);
    assert Ready(sha, Run(sha, s, moves).disk, Run(sha, s, moves).builders[i]);
  }

  /** The same run, called while an exception is being handled: `build` returns its receipt,
      and neither the ZIP nor the receipt is there. */
  lemma HandlingRunUndoesItself(sha: Bytes -> string, s: System, moves: seq<Move>, i: nat)
    requires Undisturbed(s, moves, i) && Turns(moves, i) >= OPERATIONS && s.builders[i].job.handling
    ensures var t, job := Run(sha, s, moves), s.builders[i].job;
      && Succeeded(t.builders[i]) && Dest(job.zip) !in t.disk.names && Dest(job.receipt) !in t.disk.names
      && forall k | k in Own(t.builders[i]) :: Temp(k) !in t.disk.names
  {
    StaysOnTrack(sha, s, moves, i);
    JobsKept(sha, s, moves);
    RunKeepsInvariant(sha, s, moves);
    assert Ready(sha, Run(sha, s, moves).disk, Run(sha, s, moves).builders[i]);
  }

  /** The builder has linked nothing, and has nothing left behind. */
  predicate Unlinked(b: Builder) {
    && b.phase in {MakeZipTemp, MakeReceiptTemp, WriteZip, VerifyZip, WriteReceipt, CheckAbsent,
                   CleanZipTemp, CleanReceiptTemp, CleanReceipt, CleanZip, Done}
    && !b.publishedZip && !b.publishedReceipt && !ZipLeft(b) && !ReceiptLeft(b)
  }

  lemma StaysUnlinked(sha: Bytes -> string, d: Disk, b: Builder, e: Event)
    requires Equipped(b) && Unlinked(b) && (Dest(b.job.zip) in d.names || Dest(b.job.receipt) in d.names)
    ensures Unlinked(Act(sha, d, b, e).1)
  {
  }

  lemma {:induction false} TakenStaysUnlinked(sha: Bytes -> string, s: System, moves: seq<Move>, i: nat, name: string)
    requires Initial(s) && i < |s.builders| && name in {s.builders[i].job.zip, s.builders[i].job.receipt}
    requires Dest(name) in s.disk.names && s.disk.names[Dest(name)] in s.disk.data
    ensures i < |Run(sha, s, moves).builders| && Unlinked(Run(sha, s, moves).builders[i])
  {
    if moves != [] {
      var init, m := moves[..|moves| - 1], moves[|moves| - 1];
      TakenStaysUnlinked(sha, s, init, i, name);
      JobsKept(sha, s, init);
      RunKeepsInvariant(sha, s, init);
      PreexistingFilesUntouched(sha, s, init, Dest(name));
      var t := Run(sha, s, init);
      assert Ready(sha, t.disk, t.builders[i]);
      if m.who == i { StaysUnlinked(sha, t.disk, t.builders[i], m.event); }
    }
  }

  /** A builder one of whose destinations was taken from the start shows neither of its files at
      any time, and never succeeds. */
  lemma TakenDestinationFails(sha: Bytes -> string, s: System, moves: seq<Move>, i: nat, name: string)
    requires Initial(s) && i < |s.builders| && name in {s.builders[i].job.zip, s.builders[i].job.receipt}
    requires Dest(name) in s.disk.names && s.disk.names[Dest(name)] in s.disk.data
    ensures var t := Run(sha, s, moves); i < |t.builders| && !Succeeded(t.builders[i])
    ensures var t := Run(sha, s, moves); !ZipVisible(t.disk, t.builders[i]) && !ReceiptVisible(t.disk, t.builders[i])
  {
    TakenStaysUnlinked(sha, s, moves, i, name);
    RunKeepsInvariant(sha, s, moves);
    var t := Run(sha, s, moves);
    assert Ready(sha, t.disk, t.builders[i]);
  }

  // ---------------------------------------------------------------- no success after a failure

  /** The run can only fail from here. */
  predicate Doomed(b: Builder) { b.failing || b.phase in {UndoZip, UndoReceipt} }

  /** An operation that does something and is not part of the cleanup. */
  predicate Working(b: Builder) { !Finishing(b) && b.phase !in {FlagZip, FlagReceipt} }

  lemma DoomedForGood(sha: Bytes -> string, d: Disk, b: Builder, e: Event)
    requires Equipped(b) && (Doomed(b) || (Working(b) && !e.Proceed?))
    ensures Doomed(Act(sha, d, b, e).1)
  {
  }

  lemma {:induction false} StaysDoomed(sha: Bytes -> string, s: System, moves: seq<Move>, more: seq<Move>, i: nat)
    requires Initial(s) && i < |s.builders| && Doomed(Run(sha, s, moves).builders[i])
    ensures Doomed(Run(sha, s, moves + more).builders[i])
    decreases |more|
  {
    if more == [] {
      assert moves + more == moves;
    } else {
      var init, m := more[..|more| - 1], more[|more| - 1];
      assert moves + more == moves + init + [m];
      StaysDoomed(sha, s, moves, init, i);
      RunStep(sha, s, moves + init, m);
      var t := Run(sha, s, moves + init);
      if m.who == i && Equipped(t.builders[i]) { DoomedForGood(sha, t.disk, t.builders[i], m.event); }
    }
  }

  /** A run in which an operation before the cleanup fails or is interrupted never returns
      normally. */
  lemma FaultFails(sha: Bytes -> string, s: System, moves: seq<Move>, m: Move, more: seq<Move>)
    requires Initial(s) && m.who < |s.builders| && !m.event.Proceed?
    requires Working(Run(sha, s, moves).builders[m.who])
    ensures !Succeeded(Run(sha, s, moves + [m] + more).builders[m.who])
  {
    var t := Run(sha, s, moves);
    RunKeepsInvariant(sha, s, moves);
    assert Ready(sha, t.disk, t.builders[m.who]);
    RunStep(sha, s, moves, m);
    DoomedForGood(sha, t.disk, t.builders[m.who], m.event);
    StaysDoomed(sha, s, moves + [m], more, m.who);
  }
}
