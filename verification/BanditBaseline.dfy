/** The scanner baseline: findings are compared as multisets of fingerprints that forget
    report order and line numbers. */
module BanditBaseline {
  import opened Text
  import opened Sorting
  import opened Json

  /** A finding with its fields already typed; the snippet is given line by line. */
  datatype Finding = Finding(
    filename: string, severity: string, confidence: string, cwe: Json, text: string,
    testId: string, testName: string, code: seq<string>, line: int)

  datatype Report = Report(errors: nat, results: seq<Finding>)

  datatype Baseline = Baseline(headerHolds: bool, report: Report, findingsSha256: string)

  /** What the scanner's text rules and the hashing are, left open. */
  datatype Rules = Rules(
    space: char -> bool, digit: char -> bool,
    sha: string -> string, resultsText: seq<Finding> -> string, order: Finding -> string)

  predicate Blank(s: string, rules: Rules) { forall i | 0 <= i < |s| :: rules.space(s[i]) }

  predicate Normalisable(f: Finding, rules: Rules) { !Blank(f.filename, rules) }

  /** `_normalize_finding`: slashes in the path. */
  function Normal(f: Finding): Finding { f.(filename := Slashed(f.filename)) }

  function AllNormal(results: seq<Finding>): seq<Finding> {
    seq(|results|, i requires 0 <= i < |results| => Normal(results[i]))
  }

  function DigitRun(s: string, rules: Rules): (n: nat)
    ensures n <= |s| && forall i | 0 <= i < n :: rules.digit(s[i])
    ensures n < |s| ==> !rules.digit(s[n])
  {
    if s == [] || !rules.digit(s[0]) then 0 else 1 + DigitRun(s[1..], rules)
  }

  /** `re.sub(r"^\d+[ \t]", "", line)`. */
  function StripNumber(line: string, rules: Rules): string {
    var n := DigitRun(line, rules);
    if 0 < n < |line| && line[n] in " \t" then line[n + 1..] else line
  }

  function StripAll(code: seq<string>, rules: Rules): seq<string> {
    seq(|code|, i requires 0 <= i < |code| => StripNumber(code[i], rules))
  }

  predicate HasCode(f: Finding, rules: Rules) { exists i | 0 <= i < |f.code| :: !Blank(f.code[i], rules) }

  /** The stable identity, keys in order: everything but the line numbers. */
  function Identity(f: Finding, rules: Rules): Json {
    Object([
      Member("code", Str(Join(StripAll(f.code, rules), '\n'))),
      Member("filename", Str(f.filename)),
      Member("issue_confidence", Str(f.confidence)),
      Member("issue_cwe", f.cwe),
      Member("issue_severity", Str(f.severity)),
      Member("issue_text", Str(f.text)),
      Member("test_id", Str(f.testId)),
      Member("test_name", Str(f.testName))])
  }

  function Fingerprint(f: Finding, rules: Rules): string { rules.sha(Render(Identity(f, rules))) }

  /** The fingerprints of the normalised findings, with multiplicity. */
  function Counts(results: seq<Finding>, rules: Rules): multiset<string> {
    if results == [] then multiset{}
    else multiset{Fingerprint(Normal(results[0]), rules)} + Counts(results[1..], rules)
  }

  // ---------------------------------------------------------------- what fingerprints remember

  /** Hash collisions apart, equal fingerprints mean equal identities. */
  lemma FingerprintIdentifies(a: Finding, b: Finding, rules: Rules)
    requires Injective(rules.sha)
    ensures Fingerprint(a, rules) == Fingerprint(b, rules) <==> Identity(a, rules) == Identity(b, rules)
  {
    if Fingerprint(a, rules) == Fingerprint(b, rules) { RenderInjective(Identity(a, rules), Identity(b, rules)); }
  }

  /** What two findings with one fingerprint share: every field of the identity, and the snippet
      once the line numbers are gone; what the line field says plays no part. */
  lemma SharedIdentity(a: Finding, b: Finding, rules: Rules)
    requires Injective(rules.sha)
    ensures Fingerprint(a, rules) == Fingerprint(b, rules) <==>
      && a.filename == b.filename && a.severity == b.severity && a.confidence == b.confidence && a.cwe == b.cwe
      && a.text == b.text && a.testId == b.testId && a.testName == b.testName
      && Join(seq(|a.code|, i requires 0 <= i < |a.code| => StripNumber(a.code[i], rules)), '\n')
      == Join(seq(|b.code|, i requires 0 <= i < |b.code| => StripNumber(b.code[i], rules)), '\n')
  {
    FingerprintIdentifies(a, b, rules);
    assert StripAll(a.code, rules) == seq(|a.code|, i requires 0 <= i < |a.code| => StripNumber(a.code[i], rules));
    assert StripAll(b.code, rules) == seq(|b.code|, i requires 0 <= i < |b.code| => StripNumber(b.code[i], rules));
    var x, y := Identity(a, rules).members, Identity(b, rules).members;
    if x == y {
      assert x[0] == y[0] && x[1] == y[1] && x[2] == y[2] && x[3] == y[3];
      assert x[4] == y[4] && x[5] == y[5] && x[6] == y[6] && x[7] == y[7];
    }
  }

  lemma {:induction false} DigitRunIs(s: string, n: nat, rules: Rules)
    requires n <= |s| && (n < |s| ==> !rules.digit(s[n])) && forall i | 0 <= i < n :: rules.digit(s[i])
    ensures DigitRun(s, rules) == n
  {
    if n > 0 { DigitRunIs(s[1..], n - 1, rules); }
  }

  /** What is taken off a snippet line: one or more leading digits and the blank or tab behind
      them, and nothing from any other line. */
  lemma NumberTakenOff(line: string, n: nat, rules: Rules)
    requires n <= |line| && (forall i | 0 <= i < n :: rules.digit(line[i])) && (n < |line| ==> !rules.digit(line[n]))
    ensures StripNumber(line, rules)
         == if 0 < n < |line| && (line[n] == ' ' || line[n] == '\t') then line[n + 1..] else line
  {
    DigitRunIs(line, n, rules);
  }

  /** A numbered snippet line: digits, one blank, the source text. */
  predicate Numbered(line: string, source: string, rules: Rules) {
    exists n | 0 < n < |line| :: line[n..] == " " + source && forall i | 0 <= i < n :: rules.digit(line[i])
  }

  lemma NumberIsStripped(line: string, source: string, rules: Rules)
    requires Numbered(line, source, rules) && !rules.digit(' ')
    ensures StripNumber(line, rules) == source
  {
    var n :| 0 < n < |line| && line[n..] == " " + source && forall i | 0 <= i < n :: rules.digit(line[i]);
    assert line[n] == line[n..][0] == ' ';
    DigitRunIs(line, n, rules);
    assert line[n + 1..] == line[n..][1..] == source;
  }

  /** The same snippet under other line numbers. */
  predicate Renumbered(a: Finding, b: Finding, source: seq<string>, rules: Rules) {
    && b == a.(code := b.code, line := b.line) && |a.code| == |b.code| == |source|
    && forall i | 0 <= i < |source| :: Numbered(a.code[i], source[i], rules) && Numbered(b.code[i], source[i], rules)
  }

  lemma RenumberingKeepsFingerprint(a: Finding, b: Finding, source: seq<string>, rules: Rules)
    requires Renumbered(a, b, source, rules) && !rules.digit(' ')
    ensures Fingerprint(a, rules) == Fingerprint(b, rules)
  {
    forall i | 0 <= i < |source| ensures StripNumber(a.code[i], rules) == StripNumber(b.code[i], rules) {
      NumberIsStripped(a.code[i], source[i], rules);
      NumberIsStripped(b.code[i], source[i], rules);
    }
    assert StripAll(a.code, rules) == StripAll(b.code, rules);
  }

  lemma {:induction false} CountsSize(results: seq<Finding>, rules: Rules)
    ensures |Counts(results, rules)| == |results|
  {
    if results != [] { CountsSize(results[1..], rules); }
  }

  lemma {:induction false} CountsPlus(a: seq<Finding>, b: seq<Finding>, rules: Rules)
    ensures Counts(a + b, rules) == Counts(a, rules) + Counts(b, rules)
  {
    if a == [] {
      assert [] + b == b;
    } else {
      assert (a + b)[1..] == a[1..] + b;
      CountsPlus(a[1..], b, rules);
    }
  }

  lemma CountsFirst(f: Finding, rest: seq<Finding>, rules: Rules)
    ensures Counts([f] + rest, rules) == multiset{Fingerprint(Normal(f), rules)} + Counts(rest, rules)
  {
    assert ([f] + rest)[1..] == rest;
  }

  /** A fingerprint counts once for each finding that has it when the slashes of its path are turned. */
  lemma {:induction false} CountsByFinding(results: seq<Finding>, rules: Rules)
    ensures Counts(results, rules) == multiset(seq(|results|, i requires 0 <= i < |results| =>
              Fingerprint(results[i].(filename := Slashed(results[i].filename)), rules)))
  {
    var prints := seq(|results|, i requires 0 <= i < |results| =>
      Fingerprint(results[i].(filename := Slashed(results[i].filename)), rules));
    if results == [] {
      assert prints == [];
    } else {
      var rest := results[1..];
      CountsByFinding(rest, rules);
      assert prints[1..] == seq(|rest|, i requires 0 <= i < |rest| =>
        Fingerprint(rest[i].(filename := Slashed(rest[i].filename)), rules));
      RestCounts(prints);
    }
  }

  lemma SplitAround<T>(s: seq<T>, k: nat)
    requires k < |s|
    ensures s == s[..k] + ([s[k]] + s[k + 1..])
  {
  }

  lemma CountsWithout(s: seq<Finding>, k: nat, rules: Rules)
    requires k < |s|
    ensures Counts(s, rules) == multiset{Fingerprint(Normal(s[k]), rules)} + Counts(s[..k] + s[k + 1..], rules)
  {
    SplitAround(s, k);
    CountsPlus(s[..k], [s[k]] + s[k + 1..], rules);
    CountsFirst(s[k], s[k + 1..], rules);
    CountsPlus(s[..k], s[k + 1..], rules);
  }

  /** The order of the findings does not matter. */
  lemma {:induction false} CountsIgnoreOrder(a: seq<Finding>, b: seq<Finding>, rules: Rules)
    requires multiset(a) == multiset(b)
    ensures Counts(a, rules) == Counts(b, rules)
  {
    if a == [] {
      assert |multiset(b)| == 0 && |b| == 0;
    } else {
      var k := WithoutOne(a, b);
      CountsWithout(b, k, rules);
      CountsIgnoreOrder(a[1..], b[..k] + b[k + 1..], rules);
    }
  }

  lemma NormalTwice(f: Finding)
    ensures Normal(Normal(f)) == Normal(f)
  {
  }

  lemma {:induction false} CountsOfNormal(results: seq<Finding>, rules: Rules)
    ensures Counts(AllNormal(results), rules) == Counts(results, rules)
  {
    if results != [] {
      NormalTwice(results[0]);
      assert AllNormal(results)[1..] == AllNormal(results[1..]);
      CountsOfNormal(results[1..], rules);
    }
  }

  /** Findings whose snippets are renumbered, one by one, count the same. */
  lemma {:induction false} CountsIgnoreNumbers(a: seq<Finding>, b: seq<Finding>, sources: seq<seq<string>>, rules: Rules)
    requires |a| == |b| == |sources| && !rules.digit(' ')
    requires forall i | 0 <= i < |a| :: Renumbered(a[i], b[i], sources[i], rules)
    ensures Counts(a, rules) == Counts(b, rules)
  {
    if a != [] {
      assert Renumbered(Normal(a[0]), Normal(b[0]), sources[0], rules);
      RenumberingKeepsFingerprint(Normal(a[0]), Normal(b[0]), sources[0], rules);
      CountsIgnoreNumbers(a[1..], b[1..], sources[1..], rules);
    }
  }

  // ---------------------------------------------------------------- freezing and checking

  predicate Low(f: Finding, rules: Rules) { Normalisable(f, rules) && f.severity == "LOW" && HasCode(f, rules) }

  /** A clean scan of low findings whose snippets can be fingerprinted. */
  predicate LowOnly(report: Report, rules: Rules) { report.errors == 0 && forall f | f in report.results :: Low(f, rules) }

  /** What may be frozen from a report: its normalised findings in order, with their digest. */
  ghost predicate Freezes(report: Report, b: Baseline, rules: Rules) {
    && b.headerHolds && b.report.errors == 0
    && multiset(b.report.results) == multiset(AllNormal(report.results))
    && OrderedBy(b.report.results, rules.order)
    && b.findingsSha256 == rules.sha(rules.resultsText(b.report.results))
  }

  predicate ValidBaseline(b: Baseline, rules: Rules) {
    && b.headerHolds && LowOnly(b.report, rules)
    && b.findingsSha256 == rules.sha(rules.resultsText(AllNormal(b.report.results)))
  }

  datatype Verdict = Verdict(baselineLow: nat, currentLow: nat, resolvedLow: int)

  /** The counter arithmetic of the comparison. */
  function Judge(current: multiset<string>, currentLow: nat, baseline: multiset<string>, baselineLow: nat): Result<Verdict> {
    if |current - baseline| > 0 then Rejected
    else Ok(Verdict(baselineLow, currentLow, baselineLow - |current * baseline|))
  }

  /** `compare_report_to_baseline`. */
  function CompareReport(report: Report, b: Baseline, rules: Rules): Result<Verdict> {
    if !ValidBaseline(b, rules) || !LowOnly(report, rules) then Rejected
    else
      Judge(Counts(report.results, rules), |report.results|, Counts(b.report.results, rules), |b.report.results|)
  }

  /** `_normalized_results`: the first finding that cannot be normalised ends the run. */
  method NormalizeResults(report: Report, rules: Rules) returns (r: Result<seq<Finding>>)
    ensures r.Ok? <==> report.errors == 0 && forall f | f in report.results :: Normalisable(f, rules)
    ensures r.Ok? ==> r.value == AllNormal(report.results)
  {
    if report.errors != 0 { return Rejected; }
    var results: seq<Finding> := [];
    for i := 0 to |report.results|
      invariant results == AllNormal(report.results[..i])
      invariant forall f | f in report.results[..i] :: Normalisable(f, rules)
    {
      var f := report.results[i];
      TakeOneMore(report.results, i);
      if !Normalisable(f, rules) { return Rejected; }
      results := results + [Normal(f)];
    }
    TakeAll(report.results);
    r := Ok(results);
  }

  /** Only low severity; anything else, spelled in any way, is refused. */
  predicate AllLow(results: seq<Finding>) { forall i | 0 <= i < |results| :: results[i].severity == "LOW" }

  /** `Counter(_stable_fingerprint(item) for item in results)`: a finding without code has no
      fingerprint. */
  method CountFingerprints(results: seq<Finding>, rules: Rules) returns (r: Result<multiset<string>>)
    requires forall f | f in results :: Normal(f) == f
    ensures r.Ok? <==> forall f | f in results :: HasCode(f, rules)
    ensures r.Ok? ==> r.value == Counts(results, rules)
  {
    var counts: multiset<string> := multiset{};
    for i := 0 to |results|
      invariant counts == Counts(results[..i], rules)
      invariant forall f | f in results[..i] :: HasCode(f, rules)
    {
      TakeOneMore(results, i);
      if !HasCode(results[i], rules) { return Rejected; }
      CountsPlus(results[..i], [results[i]], rules);
      assert [results[i]][1..] == [];
      counts := counts + multiset{Fingerprint(results[i], rules)};
    }
    TakeAll(results);
    r := Ok(counts);
  }

  lemma NormalOf(results: seq<Finding>, f: Finding)
    requires f in AllNormal(results)
    ensures Normal(f) == f
  {
    var i :| 0 <= i < |results| && AllNormal(results)[i] == f;
    NormalTwice(results[i]);
  }

  lemma NormalKeeps(results: seq<Finding>, rules: Rules)
    ensures forall f | f in AllNormal(results) :: Normal(f) == f
    ensures AllLow(AllNormal(results)) <==> forall f | f in results :: f.severity == "LOW"
    ensures (forall f | f in AllNormal(results) :: HasCode(f, rules)) <==> forall f | f in results :: HasCode(f, rules)
  {
    var normal := AllNormal(results);
    forall f | f in normal ensures Normal(f) == f { NormalOf(results, f); }
    forall f | f in results ensures Normal(f) in normal && HasCode(Normal(f), rules) == HasCode(f, rules) {
      var i :| 0 <= i < |results| && results[i] == f;
      assert normal[i] == Normal(f);
    }
    forall i | 0 <= i < |normal| ensures normal[i] == Normal(results[i]) && results[i] in results {}
  }

  /** `build_baseline`; sorting by fingerprint and line is sorting by one text. */
  method BuildBaseline(report: Report, rules: Rules) returns (r: Result<Baseline>)
    ensures r.Ok? <==> LowOnly(report, rules)
    ensures r.Ok? ==> Freezes(report, r.value, rules)
  {
    r := Rejected;
    var normal := NormalizeResults(report, rules);
    if normal.Ok? {
      NormalKeeps(report.results, rules);
      if AllLow(normal.value) {
        var counts := CountFingerprints(normal.value, rules);
        if counts.Ok? {
          var results := Sorted(normal.value, rules.order);
          SortedOrdered(normal.value, rules.order);
          r := Ok(Baseline(true, Report(0, results), rules.sha(rules.resultsText(results))));
        }
      }
    }
  }

  /** The normalised findings of a low-only report and their fingerprint counts. */
  method LowFindings(report: Report, rules: Rules) returns (ok: bool, results: seq<Finding>, counts: multiset<string>)
    ensures ok <==> LowOnly(report, rules)
    ensures ok ==> results == AllNormal(report.results) && counts == Counts(report.results, rules)
  {
    ok, results, counts := false, [], multiset{};
    var normal := NormalizeResults(report, rules);
    if normal.Ok? {
      results := normal.value;
      NormalKeeps(report.results, rules);
      if AllLow(results) {
        var counted := CountFingerprints(results, rules);
        if counted.Ok? {
          CountsOfNormal(report.results, rules);
          ok, counts := true, counted.value;
        }
      }
    }
  }

  /** `compare_report_to_baseline`, step by step. */
  method CompareToBaseline(report: Report, b: Baseline, rules: Rules) returns (r: Result<Verdict>)
    ensures r == CompareReport(report, b, rules)
  {
    r := Rejected;
    if b.headerHolds {
      var baselineOk, baseline, baselineCounts := LowFindings(b.report, rules);
      if baselineOk && b.findingsSha256 == rules.sha(rules.resultsText(baseline)) {
        var currentOk, current, currentCounts := LowFindings(report, rules);
        if currentOk { r := Judge(currentCounts, |current|, baselineCounts, |baseline|); }
      }
    }
  }

  ghost predicate Inked(s: string, rules: Rules) { exists k :: 0 <= k < |s| && !rules.space(s[k]) }

  /** Without scan errors, every finding is of low severity, names a file and shows code. */
  ghost predicate Tolerable(report: Report, rules: Rules) {
    && report.errors == 0
    && forall i | 0 <= i < |report.results| ::
         var f := report.results[i];
         && f.severity == "LOW" && Inked(f.filename, rules)
         && exists j :: 0 <= j < |f.code| && Inked(f.code[j], rules)
  }

  lemma TolerableFinding(f: Finding, rules: Rules)
    ensures Low(f, rules) <==>
      && f.severity == "LOW" && Inked(f.filename, rules)
      && exists j :: 0 <= j < |f.code| && Inked(f.code[j], rules)
  {
    forall j | 0 <= j < |f.code| ensures Blank(f.code[j], rules) <==> !Inked(f.code[j], rules) {}
    if HasCode(f, rules) {
      var j :| 0 <= j < |f.code| && !Blank(f.code[j], rules);
      assert Inked(f.code[j], rules);
    }
  }

  lemma LowByIndex(report: Report, rules: Rules)
    ensures LowOnly(report, rules) <==>
              report.errors == 0 && forall i | 0 <= i < |report.results| :: Low(report.results[i], rules)
  {
  }

  lemma LowOnlyTolerable(report: Report, rules: Rules)
    ensures LowOnly(report, rules) <==> Tolerable(report, rules)
  {
    forall i | 0 <= i < |report.results| { TolerableFinding(report.results[i], rules); }
    LowByIndex(report, rules);
  }

  ghost predicate Included(report: Report, b: Baseline, rules: Rules) {
    && Tolerable(report, rules) && Tolerable(b.report, rules)
    && b.headerHolds && b.findingsSha256 == rules.sha(rules.resultsText(AllNormal(b.report.results)))
    && Counts(report.results, rules) <= Counts(b.report.results, rules)
  }

  lemma InclusionBySize(a: multiset<string>, b: multiset<string>)
    ensures |a - b| == 0 <==> a <= b
    ensures a <= b ==> a * b == a && |a| <= |b|
  {
    if |a - b| == 0 {
      assert a - b == multiset{};
      forall x | x in a ensures a[x] <= b[x] { assert (a - b)[x] == 0; }
    }
    if a <= b {
      assert a * b == a;
      assert b == a + (b - a);
      assert a - b == multiset{};
    }
  }

  /** Acceptance is inclusion, and the baseline is what is still there and what was resolved. */
  lemma CheckIsInclusion(report: Report, b: Baseline, rules: Rules)
    ensures CompareReport(report, b, rules).Ok? <==> Included(report, b, rules)
    ensures CompareReport(report, b, rules).Ok? ==>
      var v := CompareReport(report, b, rules).value;
      v.baselineLow == v.currentLow + v.resolvedLow && v.currentLow == |report.results| && v.resolvedLow >= 0
  {
    CountsSize(b.report.results, rules);
    CountsSize(report.results, rules);
    InclusionBySize(Counts(report.results, rules), Counts(b.report.results, rules));
    LowOnlyTolerable(report, rules);
    LowOnlyTolerable(b.report, rules);
  }

  /** Neither a slash nor a digit is white space, and a blank is no digit. */
  ghost predicate Sane(rules: Rules) {
    !rules.space('/') && !rules.digit(' ') && forall c | rules.digit(c) :: !rules.space(c)
  }

  lemma NormalStaysLow(f: Finding, rules: Rules)
    requires Sane(rules) && Low(f, rules)
    ensures Low(Normal(f), rules)
  {
    var i :| 0 <= i < |f.filename| && !rules.space(f.filename[i]);
    SlashedAt(f.filename, i);
  }

  lemma SameFindings(a: seq<Finding>, c: seq<Finding>)
    requires multiset(a) == multiset(c)
    ensures |a| == |c| && forall f :: f in a <==> f in c
  {
    assert |a| == |multiset(a)| == |multiset(c)| == |c|;
    assert forall f :: f in a <==> f in multiset(a);
    assert forall f :: f in c <==> f in multiset(c);
  }

  /** A freshly built baseline is valid, and counts what its report counts. */
  lemma FreshBaseline(report: Report, b: Baseline, rules: Rules)
    requires Sane(rules) && LowOnly(report, rules) && Freezes(report, b, rules)
    ensures ValidBaseline(b, rules) && |b.report.results| == |report.results|
    ensures Counts(b.report.results, rules) == Counts(report.results, rules)
  {
    var normal, results := AllNormal(report.results), b.report.results;
    SameFindings(results, normal);
    forall f | f in results ensures Low(f, rules) && Normal(f) == f {
      var i :| 0 <= i < |normal| && normal[i] == f;
      assert report.results[i] in report.results;
      NormalStaysLow(report.results[i], rules);
      NormalTwice(report.results[i]);
    }
    assert AllNormal(results) == results;
    CountsIgnoreOrder(normal, results, rules);
    CountsOfNormal(report.results, rules);
  }

  /** A report checked against a baseline frozen from it passes, with nothing resolved. */
  lemma FreezeThenCheck(report: Report, b: Baseline, rules: Rules)
    requires Sane(rules) && LowOnly(report, rules) && Freezes(report, b, rules)
    ensures CompareReport(report, b, rules) == Ok(Verdict(|report.results|, |report.results|, 0))
  {
    FreshBaseline(report, b, rules);
    CheckIsInclusion(report, b, rules);
  }

  /** After an accepted report the baseline can be refrozen from it, and nothing that the old
      baseline would refuse gets past the new one. */
  lemma RefreezingOnlyTightens(first: Report, second: Report, b: Baseline, next: Baseline, rules: Rules)
    requires Sane(rules) && CompareReport(first, b, rules).Ok? && Freezes(first, next, rules)
    ensures LowOnly(first, rules) && ValidBaseline(next, rules)
    ensures CompareReport(second, next, rules).Ok? ==> CompareReport(second, b, rules).Ok?
  {
    CheckIsInclusion(first, b, rules);
    FreshBaseline(first, next, rules);
    CheckIsInclusion(second, next, rules);
    CheckIsInclusion(second, b, rules);
  }

  lemma SameVerdict(a: Report, c: Report, b: Baseline, rules: Rules)
    requires (LowOnly(a, rules) <==> LowOnly(c, rules)) && |a.results| == |c.results|
    requires Counts(a.results, rules) == Counts(c.results, rules)
    ensures CompareReport(a, b, rules) == CompareReport(c, b, rules)
  {
  }

  /** The verdict does not depend on the order of the findings. */
  lemma VerdictIgnoresOrder(a: Report, c: Report, b: Baseline, rules: Rules)
    requires a.errors == c.errors && multiset(a.results) == multiset(c.results)
    ensures CompareReport(a, b, rules) == CompareReport(c, b, rules)
  {
    CountsIgnoreOrder(a.results, c.results, rules);
    SameFindings(a.results, c.results);
    SameVerdict(a, c, b, rules);
  }

  lemma NumberedIsNotBlank(line: string, source: string, rules: Rules)
    requires Sane(rules) && Numbered(line, source, rules)
    ensures !Blank(line, rules)
  {
    assert rules.digit(line[0]);
  }

  /** Renumbered snippets are low findings alike: a numbered line is never blank. */
  lemma NumbersKeepLow(a: Finding, c: Finding, source: seq<string>, rules: Rules)
    requires Sane(rules) && Renumbered(a, c, source, rules)
    ensures Low(a, rules) <==> Low(c, rules)
  {
    forall i | 0 <= i < |source| ensures !Blank(a.code[i], rules) && !Blank(c.code[i], rules) {
      NumberedIsNotBlank(a.code[i], source[i], rules);
      NumberedIsNotBlank(c.code[i], source[i], rules);
    }
  }

  /** Nor on the line numbers of the snippets, whatever the severities. */
  lemma VerdictIgnoresNumbers(a: Report, c: Report, sources: seq<seq<string>>, b: Baseline, rules: Rules)
    requires a.errors == c.errors && Sane(rules) && |a.results| == |c.results| == |sources|
    requires forall i | 0 <= i < |sources| :: Renumbered(a.results[i], c.results[i], sources[i], rules)
    ensures CompareReport(a, b, rules) == CompareReport(c, b, rules)
  {
    CountsIgnoreNumbers(a.results, c.results, sources, rules);
    forall i | 0 <= i < |sources| ensures Low(a.results[i], rules) <==> Low(c.results[i], rules) {
      NumbersKeepLow(a.results[i], c.results[i], sources[i], rules);
    }
    LowByIndex(a, rules);
    LowByIndex(c, rules);
    SameVerdict(a, c, b, rules);
  }
}
