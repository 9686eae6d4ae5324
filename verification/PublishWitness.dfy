/** Concrete runs of one builder: undisturbed it succeeds, and an interrupt at the wrong
    moment strands its receipt. */
module PublishWitness {
  import opened Text
  import opened PublishSteps
  import opened PublishRuns

  const GO: Move := Move(0, Proceed)

  /** One builder, alone on a disk that holds only its own files (inodes 0 and 1). */
  function At(job: Job, names: map<Place, nat>, data: map<nat, Content>, phase: Phase,
              failing: bool, zip: bool, receipt: bool, mishaps: set<Mishap>): System
  {
    System(Disk(names, data, 2), [Builder(job, phase, failing, Some(0), Some(1), zip, receipt, mishaps)])
  }

  function Lone(job: Job): System { System(Disk(map[], map[], 0), [Starting(job)]) }

  function Written(sha: Bytes -> string, job: Job): map<nat, Content> {
    map[0 := Archive(job.archive), 1 := Receipt(sha(job.archive))]
  }

  function BothTemps(): map<Place, nat> { map[Temp(0) := 0, Temp(1) := 1] }

  function Linked(sha: Bytes -> string, job: Job): System {
    At(job, map[Temp(1) := 1, Dest(job.zip) := 0, Dest(job.receipt) := 1], Written(sha, job),
       DropReceiptTemp, false, true, false, {})
  }

  /** Two moves lead from `s` to `t`. */
  predicate Leads(sha: Bytes -> string, s: System, a: Move, b: Move, t: System) {
    Next(sha, Next(sha, s, a), b) == t
  }

  lemma Follow(sha: Bytes -> string, s0: System, moves: seq<Move>, s: System, a: Move, b: Move, t: System)
      returns (more: seq<Move>)
    requires Run(sha, s0, moves) == s && Leads(sha, s, a, b, t)
    ensures Run(sha, s0, more) == t
    ensures forall m | m in more :: m in moves || m == a || m == b
  {
    RunStep(sha, s0, moves, a);
    RunStep(sha, s0, moves + [a], b);
    more := moves + [a] + [b];
  }

  lemma StagingMoves(sha: Bytes -> string, job: Job)
    ensures var blank := map[0 := Blank, 1 := Blank]; var half := map[0 := Archive(job.archive), 1 := Blank];
      && Leads(sha, Lone(job), GO, GO, At(job, BothTemps(), blank, WriteZip, false, false, false, {}))
      && Leads(sha, At(job, BothTemps(), blank, WriteZip, false, false, false, {}), GO, GO,
                    At(job, BothTemps(), half, WriteReceipt, false, false, false, {}))
      && Leads(sha, At(job, BothTemps(), half, WriteReceipt, false, false, false, {}), GO, GO,
                    At(job, BothTemps(), Written(sha, job), LinkZip, false, false, false, {}))
  {
    assert map[Temp(0) := 0][Temp(1) := 1] == BothTemps();
    assert map[0 := Blank][1 := Blank] == map[0 := Blank, 1 := Blank];
    assert map[0 := Blank, 1 := Blank][0 := Archive(job.archive)] == map[0 := Archive(job.archive), 1 := Blank];
    assert map[0 := Archive(job.archive), 1 := Blank][1 := Receipt(sha(job.archive))] == Written(sha, job);
  }

  lemma LinkingMoves(sha: Bytes -> string, job: Job)
    requires job.zip != job.receipt
    ensures var zipOut := map[Temp(1) := 1, Dest(job.zip) := 0];
      && Leads(sha, At(job, BothTemps(), Written(sha, job), LinkZip, false, false, false, {}), GO, GO,
                    At(job, zipOut, Written(sha, job), FlagZip, false, false, false, {}))
      && Leads(sha, At(job, zipOut, Written(sha, job), FlagZip, false, false, false, {}), GO, GO, Linked(sha, job))
  {
    var zip, receipt := Dest(job.zip), Dest(job.receipt);
    assert BothTemps()[zip := 0] - {Temp(0)} == map[Temp(1) := 1, zip := 0];
    assert map[Temp(1) := 1, zip := 0][receipt := 1] == map[Temp(1) := 1, zip := 0, receipt := 1];
  }

  lemma RunsToStaged(sha: Bytes -> string, job: Job) returns (moves: seq<Move>)
    ensures Run(sha, Lone(job), moves) == At(job, BothTemps(), Written(sha, job), LinkZip, false, false, false, {})
    ensures forall m | m in moves :: m == GO
  {
    var blank, half := map[0 := Blank, 1 := Blank], map[0 := Archive(job.archive), 1 := Blank];
    var made := At(job, BothTemps(), blank, WriteZip, false, false, false, {});
    var zipped := At(job, BothTemps(), half, WriteReceipt, false, false, false, {});
    StagingMoves(sha, job);
    moves := Follow(sha, Lone(job), [], Lone(job), GO, GO, made);
    moves := Follow(sha, Lone(job), moves, made, GO, GO, zipped);
    moves := Follow(sha, Lone(job), moves, zipped, GO, GO,
                    At(job, BothTemps(), Written(sha, job), LinkZip, false, false, false, {}));
  }

  lemma RunsToLinked(sha: Bytes -> string, job: Job) returns (moves: seq<Move>)
    requires job.zip != job.receipt
    ensures Run(sha, Lone(job), moves) == Linked(sha, job)
    ensures forall m | m in moves :: m == GO
  {
    var staged := At(job, BothTemps(), Written(sha, job), LinkZip, false, false, false, {});
    var zipOut := At(job, map[Temp(1) := 1, Dest(job.zip) := 0], Written(sha, job), FlagZip, false, false, false, {});
    LinkingMoves(sha, job);
    moves := RunsToStaged(sha, job);
    moves := Follow(sha, Lone(job), moves, staged, GO, GO, zipOut);
    moves := Follow(sha, Lone(job), moves, zipOut, GO, GO, Linked(sha, job));
  }

  lemma OrphaningMove(sha: Bytes -> string, job: Job)
    requires job.zip != job.receipt
    ensures Leads(sha, Linked(sha, job), Move(0, Interrupt), GO,
                  At(job, Linked(sha, job).disk.names, Written(sha, job), CleanReceiptTemp, true, true, false,
                     {InterruptedBeforeReceiptFlag}))
  {
    var names := Linked(sha, job).disk.names;
    assert {} + {InterruptedBeforeReceiptFlag} == {InterruptedBeforeReceiptFlag};
    assert names - {Temp(0)} == names;
  }

  lemma ClearingMoves(sha: Bytes -> string, job: Job)
    requires job.zip != job.receipt
    ensures var lost := {InterruptedBeforeReceiptFlag}; var data := Written(sha, job);
      var both := map[Dest(job.zip) := 0, Dest(job.receipt) := 1];
      Leads(sha, At(job, Linked(sha, job).disk.names, data, CleanReceiptTemp, true, true, false, lost), GO, GO,
            At(job, both, data, CleanZip, true, true, false, lost))
  {
    assert Linked(sha, job).disk.names - {Temp(1)} == map[Dest(job.zip) := 0, Dest(job.receipt) := 1];
  }

  lemma RollbackMoves(sha: Bytes -> string, job: Job)
    requires job.zip != job.receipt
    ensures var lost := {InterruptedBeforeReceiptFlag}; var data := Written(sha, job);
      var both := map[Dest(job.zip) := 0, Dest(job.receipt) := 1];
      && Leads(sha, At(job, both, data, CleanZip, true, true, false, lost), GO, GO,
                    At(job, map[Dest(job.receipt) := 1], data, Done, true, true, false, lost))
  {
    var zip, receipt := Dest(job.zip), Dest(job.receipt);
    assert map[zip := 0, receipt := 1] - {zip} == map[receipt := 1];
  }

  /** An interrupt right after the receipt is linked orphans it: the rollback removes the ZIP
      and leaves a receipt that certifies a file no longer there. */
  lemma InterruptOrphansReceipt(sha: Bytes -> string, job: Job) returns (moves: seq<Move>)
    requires job.zip != job.receipt
    ensures Initial(Lone(job))
    ensures var t := Run(sha, Lone(job), moves);
            && Failed(t.builders[0]) && ReceiptVisible(t.disk, t.builders[0]) && !ZipVisible(t.disk, t.builders[0])
  {
    var lost, data := {InterruptedBeforeReceiptFlag}, Written(sha, job);
    var s1 := At(job, Linked(sha, job).disk.names, data, CleanReceiptTemp, true, true, false, lost);
    var s2 := At(job, map[Dest(job.zip) := 0, Dest(job.receipt) := 1], data, CleanZip, true, true, false, lost);
    var s3 := At(job, map[Dest(job.receipt) := 1], data, Done, true, true, false, lost);
    OrphaningMove(sha, job);
    ClearingMoves(sha, job);
    RollbackMoves(sha, job);
    moves := RunsToLinked(sha, job);
    moves := Follow(sha, Lone(job), moves, Linked(sha, job), Move(0, Interrupt), GO, s1);
    moves := Follow(sha, Lone(job), moves, s1, GO, GO, s2);
    moves := Follow(sha, Lone(job), moves, s2, GO, GO, s3);
  }
}
