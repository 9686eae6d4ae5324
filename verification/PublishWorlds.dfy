/** One builder in a world that others change, and many builders in a run: each builder of a run
    is where its own steps have led it, in the world that the others make for it. */
module PublishWorlds {
  import opened Text
  import opened PublishSteps
  import opened PublishRuns

  /** What happens around the builder: before each operation the others may change the disk,
      and the operation may succeed, fail, or be interrupted. */
  datatype World = World(events: nat -> Event, others: nat -> Disk -> Disk)

  /** One step of a machine, whichever it is. */
  type Stepper = (Disk, Builder, Event) -> (Disk, Builder)

  function StepOf(sha: Bytes -> string, d: Disk, b: Builder, e: Event): (Disk, Builder) {
    if Equipped(b) then Act(sha, d, b, e) else (d, b)
  }

  function Machine(sha: Bytes -> string): Stepper { (d, b, e) => StepOf(sha, d, b, e) }

  /** The builder's state after `n` steps from time `t`. */
  function Steps(act: Stepper, w: World, d: Disk, b: Builder, t: nat, n: nat): (Disk, Builder) {
    if n == 0 then (d, b)
    else
      var (d1, b1) := Steps(act, w, d, b, t, n - 1);
      act(w.others(t + n - 1)(d1), b1, w.events(t + n - 1))
  }

  /** Where the build began. */
  datatype Origin = Origin(job: Job, disk: Disk, clock: nat)

  /** At time `t` the builder and the disk are where its steps have led them. */
  ghost predicate Led(sha: Bytes -> string, w: World, from: Origin, d: Disk, t: nat, b: Builder) {
    from.clock <= t && (d, b) == Steps(Machine(sha), w, from.disk, Starting(from.job), from.clock, t - from.clock)
  }

  lemma LedMore(sha: Bytes -> string, w: World, from: Origin, d: Disk, t: nat, b: Builder)
    requires Led(sha, w, from, d, t, b)
    ensures var (d', b') := StepOf(sha, w.others(t)(d), b, w.events(t)); Led(sha, w, from, d', t + 1, b')
  {
    assert t + 1 - from.clock - 1 == t - from.clock;
  }

  // ---------------------------------------------------------------- interleaved builds are runs

  function NextBy(act: Stepper, s: System, m: Move): (t: System)
    ensures |t.builders| == |s.builders|
  {
    if m.who < |s.builders| then
      var (d, b) := act(s.disk, s.builders[m.who], m.event);
      System(d, s.builders[m.who := b])
    else s
  }

  function RunBy(act: Stepper, s: System, moves: seq<Move>): (t: System)
    ensures |t.builders| == |s.builders|
  {
    if moves == [] then s else NextBy(act, RunBy(act, s, moves[..|moves| - 1]), moves[|moves| - 1])
  }

  lemma NextIsBy(sha: Bytes -> string, s: System, m: Move)
    ensures Next(sha, s, m) == NextBy(Machine(sha), s, m)
  {
    if m.who < |s.builders| && !Equipped(s.builders[m.who]) {
      assert s.builders[m.who := s.builders[m.who]] == s.builders;
    }
  }

  lemma {:induction false} RunIsBy(sha: Bytes -> string, s: System, moves: seq<Move>)
    ensures Run(sha, s, moves) == RunBy(Machine(sha), s, moves)
  {
    if moves != [] {
      RunIsBy(sha, s, moves[..|moves| - 1]);
      NextIsBy(sha, Run(sha, s, moves[..|moves| - 1]), moves[|moves| - 1]);
    }
  }

  /** Where a run's moves of builder `i` stand. */
  function Positions(moves: seq<Move>, i: nat): seq<nat> {
    if moves == [] then []
    else
      var n := |moves| - 1;
      Positions(moves[..n], i) + if moves[n].who == i then [n] else []
  }

  lemma {:induction false} PositionsAre(moves: seq<Move>, i: nat)
    ensures forall k | 0 <= k < |Positions(moves, i)| ::
      Positions(moves, i)[k] < |moves| && moves[Positions(moves, i)[k]].who == i
    ensures forall j, k | 0 <= j < k < |Positions(moves, i)| :: Positions(moves, i)[j] < Positions(moves, i)[k]
    ensures forall m | 0 <= m < |moves| && moves[m].who == i :: m in Positions(moves, i)
  {
    if moves != [] {
      var n := |moves| - 1;
      PositionsAre(moves[..n], i);
      forall m | 0 <= m < n && moves[m].who == i ensures m in Positions(moves[..n], i) { assert moves[..n][m] == moves[m]; }
    }
  }

  /** The world as builder `i` meets it in a run: its own events, and before each of its steps
      the disk that the others have left it. */
  function WorldOf(act: Stepper, s: System, moves: seq<Move>, i: nat): World {
    var at := Positions(moves, i);
    World((k: nat) => if k < |at| && at[k] < |moves| then moves[at[k]].event else Proceed,
          (k: nat) => (d: Disk) => if k < |at| && at[k] < |moves| then RunBy(act, s, moves[..at[k]]).disk else d)
  }

  /** Worlds that agree for a while lead to the same place. */
  lemma {:induction false} StepsAgree(act: Stepper, w: World, v: World, d: Disk, b: Builder, n: nat)
    requires forall k | 0 <= k < n :: w.events(k) == v.events(k) && forall x :: w.others(k)(x) == v.others(k)(x)
    ensures Steps(act, w, d, b, 0, n) == Steps(act, v, d, b, 0, n)
  {
    if n > 0 {
      StepsAgree(act, w, v, d, b, n - 1);
      assert w.events(n - 1) == v.events(n - 1);
    }
  }

  lemma WorldsAgree(act: Stepper, s: System, moves: seq<Move>, i: nat, k: nat)
    requires moves != [] && k < |Positions(moves[..|moves| - 1], i)|
    ensures var w, v := WorldOf(act, s, moves, i), WorldOf(act, s, moves[..|moves| - 1], i);
      w.events(k) == v.events(k) && forall x :: w.others(k)(x) == v.others(k)(x)
  {
    var n := |moves| - 1;
    PositionsAre(moves[..n], i);
    var p := Positions(moves[..n], i)[k];
    assert Positions(moves, i)[k] == p && p < n;
    assert moves[..n][..p] == moves[..p];
  }

  /** Where builder `i`'s own steps have led, in the world of the run. */
  function OwnSteps(act: Stepper, s: System, moves: seq<Move>, i: nat): (Disk, Builder)
    requires i < |s.builders|
  {
    Steps(act, WorldOf(act, s, moves, i), s.disk, s.builders[i], 0, |Positions(moves, i)|)
  }

  lemma OwnMove(act: Stepper, s: System, moves: seq<Move>, i: nat)
    requires i < |s.builders| && moves != [] && moves[|moves| - 1].who == i
    requires var n := |moves| - 1;
      Steps(act, WorldOf(act, s, moves, i), s.disk, s.builders[i], 0, |Positions(moves[..n], i)|).1
      == RunBy(act, s, moves[..n]).builders[i]
    ensures OwnSteps(act, s, moves, i) == (RunBy(act, s, moves).disk, RunBy(act, s, moves).builders[i])
  {
    var n := |moves| - 1;
    var count := |Positions(moves[..n], i)|;
    var w := WorldOf(act, s, moves, i);
    assert Positions(moves, i)[count] == n && |Positions(moves, i)| == count + 1;
    assert w.events(count) == moves[n].event;
    var (d1, b1) := Steps(act, w, s.disk, s.builders[i], 0, count);
    assert w.others(count)(d1) == RunBy(act, s, moves[..n]).disk;
  }

  /** One more move of the run leaves the builder's earlier steps as they were. */
  lemma EarlierSteps(act: Stepper, s: System, moves: seq<Move>, i: nat)
    requires i < |s.builders| && moves != []
    ensures var n := |moves| - 1;
      Steps(act, WorldOf(act, s, moves, i), s.disk, s.builders[i], 0, |Positions(moves[..n], i)|)
      == OwnSteps(act, s, moves[..n], i)
  {
    var n := |moves| - 1;
    var w, v, count := WorldOf(act, s, moves, i), WorldOf(act, s, moves[..n], i), |Positions(moves[..n], i)|;
    forall k | 0 <= k < count ensures w.events(k) == v.events(k) && forall x :: w.others(k)(x) == v.others(k)(x) {
      WorldsAgree(act, s, moves, i, k);
    }
    StepsAgree(act, w, v, s.disk, s.builders[i], count);
  }

  lemma {:induction false} OwnStepsFollowRun(act: Stepper, s: System, moves: seq<Move>, i: nat)
    requires i < |s.builders|
    ensures OwnSteps(act, s, moves, i).1 == RunBy(act, s, moves).builders[i]
    ensures moves != [] && moves[|moves| - 1].who == i ==> OwnSteps(act, s, moves, i).0 == RunBy(act, s, moves).disk
  {
    if moves != [] {
      var n := |moves| - 1;
      OwnStepsFollowRun(act, s, moves[..n], i);
      EarlierSteps(act, s, moves, i);
      if moves[n].who == i { OwnMove(act, s, moves, i); }
    }
  }

  /** In every run of any builders, each one is exactly where its own steps, in the world that
      the others make for it, have led it; right after its own step, so is the disk. */
  lemma RunIsEachBuildersSteps(sha: Bytes -> string, s: System, moves: seq<Move>, i: nat)
    requires i < |s.builders|
    ensures OwnSteps(Machine(sha), s, moves, i).1 == Run(sha, s, moves).builders[i]
    ensures moves != [] && moves[|moves| - 1].who == i ==> OwnSteps(Machine(sha), s, moves, i).0 == Run(sha, s, moves).disk
  {
    OwnStepsFollowRun(Machine(sha), s, moves, i);
    RunIsBy(sha, s, moves);
  }

  /** A build that begins on a run's disk stands, after each of its moves, where the run has it. */
  lemma BuildFollowsRun(sha: Bytes -> string, s: System, moves: seq<Move>, i: nat)
    requires Initial(s) && i < |s.builders| && moves != [] && moves[|moves| - 1].who == i
    ensures Led(sha, WorldOf(Machine(sha), s, moves, i), Origin(s.builders[i].job, s.disk, 0),
                Run(sha, s, moves).disk, |Positions(moves, i)|, Run(sha, s, moves).builders[i])
  {
    RunIsEachBuildersSteps(sha, s, moves, i);
    assert s.builders[i] == Starting(s.builders[i].job);
  }

  /** One builder's events as moves of a system. */
  function Moves(w: World, t: nat, n: nat): seq<Move> {
    if n == 0 then [] else Moves(w, t, n - 1) + [Move(0, w.events(t + n - 1))]
  }

  lemma {:induction false} AloneBy(act: Stepper, w: World, d: Disk, b: Builder, t: nat, n: nat)
    requires forall k: nat, x: Disk :: w.others(k)(x) == x
    ensures RunBy(act, System(d, [b]), Moves(w, t, n))
         == System(Steps(act, w, d, b, t, n).0, [Steps(act, w, d, b, t, n).1])
  {
    if n > 0 {
      AloneBy(act, w, d, b, t, n - 1);
      var moves := Moves(w, t, n);
      assert moves[..|moves| - 1] == Moves(w, t, n - 1);
      var (d1, b1) := Steps(act, w, d, b, t, n - 1);
      var b2 := act(d1, b1, w.events(t + n - 1)).1;
      assert w.others(t + n - 1)(d1) == d1 && [b1][0 := b2] == [b2];
    }
  }

  /** When nobody interferes, the steps are a run of the system with this builder alone. */
  lemma UndisturbedStepsAreARun(sha: Bytes -> string, w: World, d: Disk, b: Builder, t: nat, n: nat)
    requires forall k: nat, x: Disk :: w.others(k)(x) == x
    ensures Run(sha, System(d, [b]), Moves(w, t, n))
         == System(Steps(Machine(sha), w, d, b, t, n).0, [Steps(Machine(sha), w, d, b, t, n).1])
  {
    AloneBy(Machine(sha), w, d, b, t, n);
    RunIsBy(sha, System(d, [b]), Moves(w, t, n));
  }
}
