/** The coverage ratchet: exact-fraction floors per file, and what a chain of accepted
    reports does and does not promise. */
module CoverageFloors {
  import opened Text

  /** Covered and total counts. */
  datatype Count = Count(hit: nat, total: nat)

  predicate Valid(c: Count) { c.hit <= c.total }

  /** `Fraction(hit, total)`. */
  function Fraction(c: Count): real
    requires c.total > 0
  {
    c.hit as real / c.total as real
  }

  /** `_check_fraction`, for counts that may be inconsistent. */
  predicate MeetsFloor(c: Count, floor: Count) {
    && Valid(c) && c.total >= floor.total
    && (floor.total > 0 ==> c.total > 0 && Fraction(c) >= Fraction(floor))
  }

  lemma ScaleReal(u: real, v: real, k: real)
    requires k > 0.0
    ensures u >= v <==> u * k >= v * k
  {
    if u < v { assert (v - u) * k > 0.0; } else { assert (u - v) * k >= 0.0; }
  }

  lemma CrossReal(u: real, v: real, q: real, y: real)
    requires q > 0.0 && y > 0.0
    ensures u >= v <==> u * q * y >= v * y * q
  {
    assert q * y > 0.0;
    assert u * q * y == u * (q * y) && v * y * q == v * (q * y);
    ScaleReal(u, v, q * y);
  }

  /** Comparing fractions is comparing cross products. */
  lemma FractionsCross(a: Count, b: Count)
    requires a.total > 0 && b.total > 0
    ensures Fraction(a) >= Fraction(b) <==> a.hit * b.total >= b.hit * a.total
  {
    var p, q, x, y := a.hit as real, a.total as real, b.hit as real, b.total as real;
    assert p / q * q == p && x / y * y == x;
    CrossReal(p / q, x / y, q, y);
    assert (a.hit * b.total) as real == p * y && (b.hit * a.total) as real == x * q;
  }

  lemma FloorReflexive(a: Count)
    requires Valid(a)
    ensures MeetsFloor(a, a)
  {
  }

  lemma TimesGrows(x: nat, y: nat, k: nat)
    requires k > 0 && x < y
    ensures x * k < y * k
  {
    assert y * k - x * k == (y - x) * k;
  }

  lemma CancelFactor(x: nat, y: nat, k: nat)
    requires k > 0 && x * k == y * k
    ensures x == y
  {
    if x < y {
      TimesGrows(x, y, k);
    } else if y < x {
      TimesGrows(y, x, k);
    }
  }

  lemma FloorAntisymmetric(a: Count, b: Count)
    requires Valid(a) && Valid(b) && MeetsFloor(a, b) && MeetsFloor(b, a)
    ensures a == b
  {
    if a.total > 0 {
      FractionsCross(a, b);
      FractionsCross(b, a);
      CancelFactor(a.hit, b.hit, a.total);
    }
  }

  lemma FloorTransitive(a: Count, b: Count, c: Count)
    requires Valid(a) && Valid(b) && Valid(c) && MeetsFloor(a, b) && MeetsFloor(b, c)
    ensures MeetsFloor(a, c)
  {
  }

  lemma Monotone(k: nat, x: nat, y: nat)
    requires x >= y
    ensures k * x >= k * y
  {
    assert k * x - k * y == k * (x - y);
  }

  /** A count that meets its floor covers at least as much, in absolute numbers. */
  lemma CoveredNeverFalls(a: Count, floor: Count)
    requires Valid(floor) && MeetsFloor(a, floor)
    ensures a.hit >= floor.hit
  {
    if floor.total > 0 {
      FractionsCross(a, floor);
      assert floor.hit * a.total >= floor.hit * floor.total by { Monotone(floor.hit, a.total, floor.total); }
      if a.hit < floor.hit { TimesGrows(a.hit, floor.hit, floor.total); }
    }
  }

  // ---------------------------------------------------------------- profiles and reports

  datatype Floor = Floor(lines: Count, branches: Count, excluded: nat)

  /** A file's summary; `missing` is reported separately and must add up. */
  datatype Summary = Summary(lines: Count, missingLines: nat, branches: Count, missingBranches: nat, excluded: nat)

  type Profile = map<string, Floor>

  predicate ValidFloor(f: Floor) { Valid(f.lines) && Valid(f.branches) }

  predicate FileMeets(s: Summary, f: Floor) {
    && s.lines.hit + s.missingLines == s.lines.total && s.branches.hit + s.missingBranches == s.branches.total
    && ValidFloor(f) && MeetsFloor(s.lines, f.lines) && MeetsFloor(s.branches, f.branches) && s.excluded <= f.excluded
  }

  /** A report lists files under raw paths; normalised, they must stay apart. */
  type Report = seq<(string, Summary)>

  ghost predicate NormalApart(report: Report) {
    forall i, j | 0 <= i < j < |report| :: Slashed(report[i].0) != Slashed(report[j].0)
  }

  function Normal(report: Report): map<string, Summary> {
    if report == [] then map[]
    else
      var (path, summary) := report[|report| - 1];
      Normal(report[..|report| - 1])[Slashed(path) := summary]
  }

  lemma {:induction false} NormalKeys(report: Report)
    ensures forall p :: p in Normal(report) <==> exists i | 0 <= i < |report| :: Slashed(report[i].0) == p
  {
    if report != [] {
      var n := |report| - 1;
      NormalKeys(report[..n]);
      assert forall i | 0 <= i < n :: report[..n][i] == report[i];
      forall p ensures p in Normal(report) <==> exists i | 0 <= i < |report| :: Slashed(report[i].0) == p {
        if p in Normal(report[..n]) {
          var i :| 0 <= i < n && Slashed(report[..n][i].0) == p;
          assert Slashed(report[i].0) == p;
        }
        if i :| 0 <= i < |report| && Slashed(report[i].0) == p {
          if i < n { assert Slashed(report[..n][i].0) == p; }
        }
      }
    }
  }

  /** The files are those of the profile, and each meets its floor. */
  predicate Meets(files: map<string, Summary>, floors: Profile) {
    floors != map[] && floors.Keys == files.Keys && forall p | p in floors :: FileMeets(files[p], floors[p])
  }

  lemma ApartMore(report: Report, i: nat)
    requires i < |report| && NormalApart(report[..i])
    requires forall j | 0 <= j < i :: Slashed(report[..i][j].0) != Slashed(report[i].0)
    ensures NormalApart(report[..i + 1])
  {
    assert forall j | 0 <= j < i :: report[..i + 1][j] == report[..i][j];
  }

  method NormaliseReport(report: Report) returns (ok: bool, files: map<string, Summary>)
    ensures ok <==> NormalApart(report)
    ensures ok ==> files == Normal(report)
  {
    files := map[];
    for i := 0 to |report|
      invariant files == Normal(report[..i]) && NormalApart(report[..i])
    {
      var (path, summary) := report[i];
      NormalKeys(report[..i]);
      assert report[..i + 1][..i] == report[..i];
      if Slashed(path) in files {
        var j :| 0 <= j < i && Slashed(report[..i][j].0) == Slashed(path);
        assert Slashed(report[j].0) == Slashed(report[i].0);
        return false, files;
      }
      files := files[Slashed(path) := summary];
      ApartMore(report, i);
    }
    TakeAll(report);
    ok := true;
  }

  /** Collects identities into a set, refusing a malformed or repeated one: `_expected_cases`, and
      the last loop of `_check_junit`. */
  method CollectCases(cases: seq<string>, identity: string -> bool) returns (ok: bool, found: set<string>)
    ensures ok <==>
      && (forall i | 0 <= i < |cases| :: identity(cases[i]))
      && forall i, j | 0 <= i < j < |cases| :: cases[i] != cases[j]
    ensures ok ==> forall c :: c in found <==> c in cases
  {
    found := {};
    for i := 0 to |cases|
      invariant forall c :: c in found <==> c in cases[..i]
      invariant forall j | 0 <= j < i :: identity(cases[j])
      invariant forall j, k | 0 <= j < k < i :: cases[j] != cases[k]
    {
      TakeOneMore(cases, i);
      if !identity(cases[i]) { return false, found; }
      if cases[i] in found {
        var j :| 0 <= j < i && cases[..i][j] == cases[i];
        assert cases[j] == cases[i];
        return false, found;
      }
      assert forall j | 0 <= j < i :: cases[j] == cases[..i][j];
      found := found + {cases[i]};
    }
    TakeAll(cases);
    ok := true;
  }

  method CheckFloors(files: map<string, Summary>, floors: Profile) returns (ok: bool)
    requires floors.Keys == files.Keys
    ensures ok <==> forall p | p in floors :: FileMeets(files[p], floors[p])
  {
    var rest := floors.Keys;
    while rest != {}
      invariant rest <= floors.Keys && forall p | p in floors && p !in rest :: FileMeets(files[p], floors[p])
      decreases |rest|
    {
      var p :| p in rest;
      if !FileMeets(files[p], floors[p]) { return false; }
      rest := rest - {p};
    }
    ok := true;
  }

  /** `check_coverage`, with the test identities already read from both files. */
  method CheckCoverage(floors: Profile, report: Report, expected: seq<string>, actual: seq<string>, identity: string -> bool)
      returns (ok: bool)
    ensures ok <==>
      && NormalApart(report) && Meets(Normal(report), floors)
      && expected != [] && (forall c | c in expected :: identity(c)) && (forall c :: c in expected <==> c in actual)
      && (forall i, j | 0 <= i < j < |expected| :: expected[i] != expected[j])
      && forall i, j | 0 <= i < j < |actual| :: actual[i] != actual[j]
  {
    ok := false;
    var apart, files := NormaliseReport(report);
    if apart && floors != map[] && floors.Keys == files.Keys {
      var met := CheckFloors(files, floors);
      if met && expected != [] {
        var listed, wanted := CollectCases(expected, identity);
        var named, ran := CollectCases(actual, (c: string) => true);
        ok := listed && named && wanted == ran;
      }
    }
  }

  lemma {:induction false} NormalAt(report: Report, i: nat)
    requires NormalApart(report) && i < |report|
    ensures Slashed(report[i].0) in Normal(report) && Normal(report)[Slashed(report[i].0)] == report[i].1
  {
    var n := |report| - 1;
    if i < n {
      assert forall j | 0 <= j < n :: report[..n][j] == report[j];
      NormalAt(report[..n], i);
      assert Slashed(report[i].0) != Slashed(report[n].0);
    }
  }

  /** A measure of a file next to its floor, in integers: the counts add up, no less is counted
      than before, and what is covered is as large a part of it. */
  ghost predicate NoSmallerPart(now: Count, missing: nat, before: Count) {
    && now.hit + missing == now.total && before.hit <= before.total <= now.total
    && now.hit * before.total >= before.hit * now.total
  }

  ghost predicate KeepsTo(s: Summary, f: Floor) {
    && NoSmallerPart(s.lines, s.missingLines, f.lines)
    && NoSmallerPart(s.branches, s.missingBranches, f.branches) && s.excluded <= f.excluded
  }

  lemma MeetsInIntegers(now: Count, missing: nat, floor: Count)
    ensures now.hit + missing == now.total && Valid(floor) && MeetsFloor(now, floor) <==> NoSmallerPart(now, missing, floor)
  {
    if floor.total > 0 && now.total > 0 { FractionsCross(now, floor); }
  }

  lemma FileKeepsTo(s: Summary, f: Floor)
    ensures FileMeets(s, f) <==> KeepsTo(s, f)
  {
    MeetsInIntegers(s.lines, s.missingLines, f.lines);
    MeetsInIntegers(s.branches, s.missingBranches, f.branches);
  }

  ghost predicate Reported(report: Report, p: string) { exists i :: 0 <= i < |report| && Slashed(report[i].0) == p }

  lemma EachKeepsTo(report: Report, floors: Profile)
    requires NormalApart(report) && floors.Keys == Normal(report).Keys
    ensures (forall p | p in floors :: FileMeets(Normal(report)[p], floors[p])) <==>
              forall i | 0 <= i < |report| :: Slashed(report[i].0) in floors && KeepsTo(report[i].1, floors[Slashed(report[i].0)])
  {
    var files := Normal(report);
    forall i | 0 <= i < |report| ensures Slashed(report[i].0) in files && files[Slashed(report[i].0)] == report[i].1 {
      NormalAt(report, i);
    }
    forall p | p in floors ensures FileMeets(files[p], floors[p]) <==> KeepsTo(files[p], floors[p]) {
      FileKeepsTo(files[p], floors[p]);
    }
    if forall i | 0 <= i < |report| :: Slashed(report[i].0) in floors && KeepsTo(report[i].1, floors[Slashed(report[i].0)]) {
      NormalKeys(report);
      forall p | p in floors ensures FileMeets(files[p], floors[p]) {
        var i :| 0 <= i < |report| && Slashed(report[i].0) == p;
      }
    }
  }

  lemma SameFiles(report: Report, floors: Profile)
    ensures floors.Keys == Normal(report).Keys <==> forall p :: p in floors <==> Reported(report, p)
    ensures floors.Keys == Normal(report).Keys ==> (floors != map[] <==> report != [])
  {
    var files := Normal(report);
    NormalKeys(report);
    assert forall p :: p in files <==> Reported(report, p);
    if report != [] { assert Reported(report, Slashed(report[0].0)); }
  }

  /** Acceptance, file by file and without the normalised table: the report names exactly the files
      of the profile, and each keeps its lines, its branches and its exclusions. */
  lemma AcceptedFileByFile(report: Report, floors: Profile)
    requires NormalApart(report)
    ensures Meets(Normal(report), floors) <==>
      && report != [] && (forall p :: p in floors <==> Reported(report, p))
      && forall i | 0 <= i < |report| :: Slashed(report[i].0) in floors && KeepsTo(report[i].1, floors[Slashed(report[i].0)])
  {
    SameFiles(report, floors);
    if floors.Keys == Normal(report).Keys { EachKeepsTo(report, floors); }
  }

  // ---------------------------------------------------------------- chained ratchets

  /** The floors that a report would set. */
  function Frozen(files: map<string, Summary>): Profile {
    map p | p in files :: Floor(files[p].lines, files[p].branches, files[p].excluded)
  }

  /** A report that meets any floors meets its own. */
  lemma ReportMeetsItself(files: map<string, Summary>, floors: Profile)
    requires Meets(files, floors)
    ensures Meets(files, Frozen(files))
  {
    assert Frozen(files).Keys == files.Keys;
    forall p | p in files ensures FileMeets(files[p], Frozen(files)[p]) {
      assert FileMeets(files[p], floors[p]);
    }
    var q :| q in floors;
    assert q in Frozen(files);
  }

  /** Replacing the floors by an accepted report's own never lets through what they would refuse. */
  lemma RatchetsCompose(floors: Profile, first: map<string, Summary>, second: map<string, Summary>)
    requires Meets(first, floors) && Meets(second, Frozen(first))
    ensures Meets(second, floors)
  {
    assert Frozen(first).Keys == first.Keys == floors.Keys == second.Keys;
    forall p | p in floors ensures FileMeets(second[p], floors[p]) {
      assert FileMeets(first[p], floors[p]) && FileMeets(second[p], Frozen(first)[p]);
      FloorTransitive(second[p].lines, first[p].lines, floors[p].lines);
      FloorTransitive(second[p].branches, first[p].branches, floors[p].branches);
    }
  }

  // ---------------------------------------------------------------- all files together

  /** Lines and branches have floors of their own. */
  datatype Measure = Lines | Branches

  function Taken(s: Summary, m: Measure): Count { if m.Lines? then s.lines else s.branches }

  function Asked(f: Floor, m: Measure): Count { if m.Lines? then f.lines else f.branches }

  function Counts(files: map<string, Summary>, m: Measure): map<string, Count> { map p | p in files :: Taken(files[p], m) }

  function FloorCounts(floors: Profile, m: Measure): map<string, Count> { map p | p in floors :: Asked(floors[p], m) }

  /** The counts of several files together. */
  function AddUp(counts: map<string, Count>, paths: seq<string>): Count
    requires forall p | p in paths :: p in counts
  {
    if paths == [] then Count(0, 0)
    else
      var rest := AddUp(counts, paths[1..]);
      Count(counts[paths[0]].hit + rest.hit, counts[paths[0]].total + rest.total)
  }

  /** Over any files, neither what is covered nor what there is to cover falls in number. */
  lemma {:induction false} SumNeverFalls(files: map<string, Summary>, floors: Profile, m: Measure, paths: seq<string>)
    requires Meets(files, floors) && forall p | p in paths :: p in floors
    ensures var now, before := AddUp(Counts(files, m), paths), AddUp(FloorCounts(floors, m), paths);
      Valid(now) && now.hit >= before.hit && now.total >= before.total
  {
    if paths != [] {
      assert FileMeets(files[paths[0]], floors[paths[0]]);
      CoveredNeverFalls(Taken(files[paths[0]], m), Asked(floors[paths[0]], m));
      SumNeverFalls(files, floors, m, paths[1..]);
    }
  }

  /** More of the same total. */
  lemma MoreCovered(c: Count, d: Count, floor: Count)
    requires MeetsFloor(d, floor) && Valid(c) && c.total == d.total && c.hit >= d.hit
    ensures MeetsFloor(c, floor)
  {
    if floor.total > 0 {
      FractionsCross(c, d);
      Monotone(c.total, c.hit, d.hit);
    }
  }

  /** The least number of hits that meets a floor. */
  function LeastHit(floor: Count, total: nat): nat {
    if floor.total == 0 then 0 else (floor.hit * total + floor.total - 1) / floor.total
  }

  lemma RoundedUp(n: nat, d: nat, k: nat)
    requires d > 0
    ensures k >= (n + d - 1) / d <==> k * d >= n
  {
    var q := (n + d - 1) / d;
    assert q * d <= n + d - 1 < q * d + d;
    if k >= q {
      Monotone(d, k, q);
    } else {
      Monotone(d, q - 1, k);
      assert d * (q - 1) == q * d - d;
    }
  }

  /** And it fits in the total. */
  lemma LeastHitIsLeast(c: Count, floor: Count)
    requires Valid(floor)
    ensures MeetsFloor(c, floor) <==> Valid(c) && c.total >= floor.total && c.hit >= LeastHit(floor, c.total)
    ensures LeastHit(floor, c.total) <= c.total
  {
    if floor.total > 0 {
      RoundedUp(floor.hit * c.total, floor.total, c.hit);
      RoundedUp(floor.hit * c.total, floor.total, c.total);
      Monotone(c.total, floor.total, floor.hit);
      if c.total > 0 { FractionsCross(c, floor); }
    }
  }

  /** As many lines or branches as `totals` says, and the least hits that the floors let through. */
  function LeastCounts(floors: Profile, m: Measure, totals: map<string, nat>): map<string, Count> {
    map p | p in floors && p in totals :: Count(LeastHit(Asked(floors[p], m), totals[p]), totals[p])
  }

  function TotalsOf(files: map<string, Summary>, m: Measure): map<string, nat> { map p | p in files :: Taken(files[p], m).total }

  lemma {:induction false} LeastSum(files: map<string, Summary>, floors: Profile, m: Measure, paths: seq<string>)
    requires Meets(files, floors) && forall p | p in paths :: p in floors
    ensures forall p | p in paths :: p in LeastCounts(floors, m, TotalsOf(files, m))
    ensures var now, least := AddUp(Counts(files, m), paths), AddUp(LeastCounts(floors, m, TotalsOf(files, m)), paths);
      now.total == least.total && now.hit >= least.hit
  {
    if paths != [] {
      assert FileMeets(files[paths[0]], floors[paths[0]]);
      LeastHitIsLeast(Taken(files[paths[0]], m), Asked(floors[paths[0]], m));
      LeastSum(files, floors, m, paths[1..]);
    }
  }

  /** Totals that no floor refuses. */
  predicate Admits(floors: Profile, m: Measure, totals: map<string, nat>) {
    && floors != map[] && totals.Keys == floors.Keys
    && forall p | p in floors :: ValidFloor(floors[p]) && totals[p] >= Asked(floors[p], m).total
  }

  function SummaryOf(lines: Count, branches: Count, excluded: nat): Summary
    requires Valid(lines) && Valid(branches)
  {
    Summary(lines, lines.total - lines.hit, branches, branches.total - branches.hit, excluded)
  }

  /** The worst summary that meets a floor: the least hits in one measure, the floor in the other. */
  function WorstSummary(f: Floor, m: Measure, total: nat): (s: Summary)
    requires ValidFloor(f) && total >= Asked(f, m).total
    ensures FileMeets(s, f) && Taken(s, m) == Count(LeastHit(Asked(f, m), total), total)
  {
    LeastHitIsLeast(Count(LeastHit(Asked(f, m), total), total), Asked(f, m));
    var least := Count(LeastHit(Asked(f, m), total), total);
    FloorReflexive(f.lines);
    FloorReflexive(f.branches);
    if m.Lines? then SummaryOf(least, f.branches, f.excluded) else SummaryOf(f.lines, least, f.excluded)
  }

  function WorstFiles(floors: Profile, m: Measure, totals: map<string, nat>): (files: map<string, Summary>)
    requires Admits(floors, m, totals)
    ensures files.Keys == floors.Keys
  {
    map p | p in floors :: WorstSummary(floors[p], m, totals[p])
  }

  lemma WorstTotals(floors: Profile, m: Measure, totals: map<string, nat>)
    requires Admits(floors, m, totals)
    ensures TotalsOf(WorstFiles(floors, m, totals), m) == totals
  {
    var found := TotalsOf(WorstFiles(floors, m, totals), m);
    assert found.Keys == totals.Keys;
    forall p | p in found ensures found[p] == totals[p] {}
  }

  lemma WorstHits(floors: Profile, m: Measure, totals: map<string, nat>)
    requires Admits(floors, m, totals)
    ensures Counts(WorstFiles(floors, m, totals), m) == LeastCounts(floors, m, totals)
  {
    var found, least := Counts(WorstFiles(floors, m, totals), m), LeastCounts(floors, m, totals);
    assert found.Keys == least.Keys;
    forall p | p in found ensures found[p] == least[p] {}
  }

  lemma WorstCounts(floors: Profile, m: Measure, totals: map<string, nat>)
    requires Admits(floors, m, totals)
    ensures var files := WorstFiles(floors, m, totals);
      TotalsOf(files, m) == totals && Counts(files, m) == LeastCounts(floors, m, totals)
  {
    WorstTotals(floors, m, totals);
    WorstHits(floors, m, totals);
  }

  lemma WorstReport(floors: Profile, m: Measure, totals: map<string, nat>)
    requires Admits(floors, m, totals)
    ensures Meets(WorstFiles(floors, m, totals), floors)
  {
    forall p | p in floors ensures FileMeets(WorstFiles(floors, m, totals)[p], floors[p]) { }
  }

  /** The sums meet the floors' sum. */
  predicate SumMeets(files: map<string, Summary>, floors: Profile, m: Measure, paths: seq<string>)
    requires forall p | p in paths :: p in files && p in floors
  {
    MeetsFloor(AddUp(Counts(files, m), paths), AddUp(FloorCounts(floors, m), paths))
  }

  lemma WorstIsEnough(files: map<string, Summary>, floors: Profile, m: Measure, paths: seq<string>)
    requires Meets(files, floors) && (forall p | p in paths :: p in floors)
    requires forall p | p in paths :: p in LeastCounts(floors, m, TotalsOf(files, m))
    requires MeetsFloor(AddUp(LeastCounts(floors, m, TotalsOf(files, m)), paths), AddUp(FloorCounts(floors, m), paths))
    ensures SumMeets(files, floors, m, paths)
  {
    SumNeverFalls(files, floors, m, paths);
    LeastSum(files, floors, m, paths);
    MoreCovered(AddUp(Counts(files, m), paths), AddUp(LeastCounts(floors, m, TotalsOf(files, m)), paths),
                AddUp(FloorCounts(floors, m), paths));
  }

  /** The ratchet on single files is one on their sum exactly when the least hits it asks for,
      at the given totals, are enough for the sum. */
  lemma AggregateHoldsIff(floors: Profile, m: Measure, totals: map<string, nat>, paths: seq<string>)
    requires Admits(floors, m, totals) && forall p | p in paths :: p in floors
    ensures (forall files | Meets(files, floors) && TotalsOf(files, m) == totals :: SumMeets(files, floors, m, paths))
       <==> MeetsFloor(AddUp(LeastCounts(floors, m, totals), paths), AddUp(FloorCounts(floors, m), paths))
  {
    if MeetsFloor(AddUp(LeastCounts(floors, m, totals), paths), AddUp(FloorCounts(floors, m), paths)) {
      forall files | Meets(files, floors) && TotalsOf(files, m) == totals ensures SumMeets(files, floors, m, paths) {
        WorstIsEnough(files, floors, m, paths);
      }
    } else {
      WorstReport(floors, m, totals);
      WorstCounts(floors, m, totals);
      assert !SumMeets(WorstFiles(floors, m, totals), floors, m, paths);
    }
  }

  /** In particular it holds while the totals together stay put. */
  lemma AggregateHoldsOnEqualTotals(files: map<string, Summary>, floors: Profile, m: Measure, paths: seq<string>)
    requires Meets(files, floors) && forall p | p in paths :: p in floors
    requires AddUp(FloorCounts(floors, m), paths).total == AddUp(Counts(files, m), paths).total
    ensures SumMeets(files, floors, m, paths)
  {
    var now, before := AddUp(Counts(files, m), paths), AddUp(FloorCounts(floors, m), paths);
    SumNeverFalls(files, floors, m, paths);
    if now.total > 0 {
      FractionsCross(now, before);
      Monotone(now.total, now.hit, before.hit);
    }
  }

  lemma AddTwo(counts: map<string, Count>, p: string, q: string)
    requires p in counts && q in counts
    ensures AddUp(counts, [p, q]) == Count(counts[p].hit + counts[q].hit, counts[p].total + counts[q].total)
  {
    assert [p, q][1..] == [q] && [q][1..] == [];
    assert AddUp(counts, [q]) == counts[q];
  }

  /** But it may fall when a poorly covered file grows: every file meets its floor while the
      overall fraction drops from a half to a third. */
  lemma AggregateMayFall() returns (floors: Profile, files: map<string, Summary>, paths: seq<string>)
    ensures Meets(files, floors) && forall p | p in paths :: p in floors
    ensures AddUp(Counts(files, Lines), paths) == Count(1, 3) && AddUp(FloorCounts(floors, Lines), paths) == Count(1, 2)
    ensures Fraction(Count(1, 3)) < Fraction(Count(1, 2)) && !SumMeets(files, floors, Lines, paths)
  {
    var none := Count(0, 0);
    floors := map["a" := Floor(Count(1, 1), none, 0), "b" := Floor(Count(0, 1), none, 0)];
    files := map["a" := Summary(Count(1, 1), 0, none, 0, 0), "b" := Summary(Count(0, 2), 2, none, 0, 0)];
    paths := ["a", "b"];
    assert FileMeets(files["a"], floors["a"]) && FileMeets(files["b"], floors["b"]);
    AddTwo(Counts(files, Lines), "a", "b");
    AddTwo(FloorCounts(floors, Lines), "a", "b");
    FractionsCross(Count(1, 3), Count(1, 2));
  }
}
