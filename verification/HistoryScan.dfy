/** Scanning every object of the history: one batch answer per requested object, and every
    path of every blob either examined or reported. */
module HistoryScan {
  import opened Text
  import opened CatFile

  const BLOB: Bytes := [98, 108, 111, 98]
  const HISTORY_PATH_UNAVAILABLE: string := "<git-object-without-tree-path>"

  datatype Object = Object(id: Bytes, paths: seq<string>)

  datatype Finding = Finding(rule: string, path: string, objectId: Bytes)

  /** The content and path rules are not modelled: any function of what they are given. */
  datatype Rules = Rules(
    content: (Bytes, string, Bytes) -> seq<Finding>,
    policy: (string, Bytes) -> seq<Finding>,
    reported: (string, Bytes) -> string)

  function Oversize(path: string, id: Bytes, rules: Rules): Finding {
    Finding("unscanned-oversize-history-blob", rules.reported(path, id), id)
  }

  function Pathless(id: Bytes): Finding {
    Finding("history-blob-without-tree-path", HISTORY_PATH_UNAVAILABLE, id)
  }

  /** What each item contributes, one after another. */
  function Collected<A>(items: seq<A>, from: A -> seq<Finding>): seq<Finding> {
    if items == [] then [] else Collected(items[..|items| - 1], from) + from(items[|items| - 1])
  }

  lemma {:induction false} CollectedMore<A>(items: seq<A>, from: A -> seq<Finding>, n: nat)
    requires n < |items|
    ensures Collected(items[..n + 1], from) == Collected(items[..n], from) + from(items[n])
  {
    assert items[..n + 1][..n] == items[..n];
  }

  /** Nothing is lost and nothing is made up. */
  lemma {:induction false} CollectedExactly<A(!new)>(items: seq<A>, from: A -> seq<Finding>, f: Finding)
    ensures f in Collected(items, from) <==> exists i | 0 <= i < |items| :: f in from(items[i])
  {
    if items != [] {
      var n := |items| - 1;
      CollectedExactly(items[..n], from, f);
      assert forall i | 0 <= i < n :: items[..n][i] == items[i];
    }
  }

  function PathFindings(id: Bytes, path: string, contents: Option<Bytes>, rules: Rules): seq<Finding> {
    if contents.None? then rules.policy(path, id) + [Oversize(path, id, rules)]
    else rules.content(contents.value, path, id)
  }

  function ObjectFindings(o: Object, answer: Answer, rules: Rules): seq<Finding> {
    if answer.kind != BLOB then []
    else
      (if HISTORY_PATH_UNAVAILABLE in o.paths then [Pathless(o.id)] else [])
      + Collected(o.paths, path => PathFindings(o.id, path, answer.contents, rules))
  }

  /** The whole report: answers are matched with objects by position alone. */
  function Report(objects: seq<Object>, answers: seq<Answer>, rules: Rules): seq<Finding>
    requires |objects| == |answers|
  {
    var pairs := seq(|objects|, i requires 0 <= i < |objects| => (objects[i], answers[i]));
    Collected(pairs, (p: (Object, Answer)) => ObjectFindings(p.0, p.1, rules))
  }

  lemma ReportMore(objects: seq<Object>, answers: seq<Answer>, answer: Answer, rules: Rules)
    requires |answers| < |objects|
    ensures Report(objects[..|answers| + 1], answers + [answer], rules)
         == Report(objects[..|answers|], answers, rules) + ObjectFindings(objects[|answers|], answer, rules)
  {
    var n := |answers|;
    var taken := objects[..n + 1];
    var grown := answers + [answer];
    var pairs := seq(n + 1, i requires 0 <= i < n + 1 => (taken[i], grown[i]));
    assert pairs[..n] == seq(n, i requires 0 <= i < n => (objects[..n][i], answers[i]));
    assert pairs[n] == (objects[n], answer);
  }

  method ExaminePaths(o: Object, contents: Option<Bytes>, rules: Rules) returns (found: seq<Finding>)
    ensures found == Collected(o.paths, path => PathFindings(o.id, path, contents, rules))
  {
    ghost var from := path => PathFindings(o.id, path, contents, rules);
    found := [];
    for i := 0 to |o.paths|
      invariant found == Collected(o.paths[..i], from)
    {
      CollectedMore(o.paths, from, i);
      if contents.None? {
        found := found + (rules.policy(o.paths[i], o.id) + [Oversize(o.paths[i], o.id, rules)]);
      } else {
        found := found + rules.content(contents.value, o.paths[i], o.id);
      }
    }
    TakeAll(o.paths);
  }

  method ReportObject(o: Object, answer: Answer, rules: Rules) returns (found: seq<Finding>)
    ensures found == ObjectFindings(o, answer, rules)
  {
    if answer.kind != BLOB { return []; }
    found := if HISTORY_PATH_UNAVAILABLE in o.paths then [Pathless(o.id)] else [];
    var examined := ExaminePaths(o, answer.contents, rules);
    found := found + examined;
  }

  /** The loop's state after `i` passes over a stream that began with `start`. */
  predicate Scanned(objects: seq<Object>, i: nat, start: Bytes, at: Bytes, answers: seq<Answer>, found: seq<Finding>, rules: Rules) {
    && i <= |objects| && |answers| == i && Answers(i, start) == Ok((answers, at))
    && found == Report(objects[..i], answers, rules)
  }

  lemma NextOfAnswers(i: nat, start: Bytes, answers: seq<Answer>, at: Bytes, answer: Answer, rest: Bytes)
    requires Answers(i, start) == Ok((answers, at)) && NextAnswer(at) == Ok((answer, rest))
    ensures Answers(i + 1, start) == Ok((answers + [answer], rest))
  {
    OneMoreAnswer(i + 1, start, answers, at, answer, rest);
  }

  lemma ScannedMore(objects: seq<Object>, i: nat, start: Bytes, at: Bytes, answers: seq<Answer>, found: seq<Finding>, rules: Rules,
                    answer: Answer, rest: Bytes)
    requires i < |objects| && Scanned(objects, i, start, at, answers, found, rules)
    requires NextAnswer(at) == Ok((answer, rest))
    ensures Scanned(objects, i + 1, start, rest, answers + [answer], found + ObjectFindings(objects[i], answer, rules), rules)
  {
    NextOfAnswers(i, start, answers, at, answer, rest);
    ReportMore(objects, answers, answer, rules);
  }

  lemma ScanStops(objects: seq<Object>, i: nat, start: Bytes, at: Bytes, answers: seq<Answer>, found: seq<Finding>, rules: Rules)
    requires i < |objects| && Scanned(objects, i, start, at, answers, found, rules) && NextAnswer(at).Rejected?
    ensures Answers(|objects|, start).Rejected?
  {
    RefusalIsFinal(i + 1, |objects|, start);
  }

  /** `_scan_history_blobs`; `status` is what the git process ends with. */
  method ScanHistoryBlobs(objects: seq<Object>, stream: Stream, status: int, rules: Rules)
      returns (r: Result<seq<Finding>>, ghost answers: seq<Answer>)
    requires stream.Valid()
    modifies stream
    ensures stream.Valid()
    ensures r.Ok? <==> Answers(|objects|, old(stream.Left())).Ok? && status == 0
    ensures r.Ok? ==> Scanned(objects, |objects|, old(stream.Left()), stream.Left(), answers, r.value, rules)
  {
    var violations: seq<Finding> := [];
    ghost var start := stream.Left();
    answers := [];
    for i := 0 to |objects|
      invariant stream.Valid() && Scanned(objects, i, start, stream.Left(), answers, violations, rules)
    {
      ghost var at := stream.Left();
      var answer := ReadAnswer(stream);
      if answer.Rejected? {
        ScanStops(objects, i, start, at, answers, violations, rules);
        return Rejected, answers;
      }
      ScannedMore(objects, i, start, at, answers, violations, rules, answer.value, stream.Left());
      var found := ReportObject(objects[i], answer.value, rules);
      violations, answers := violations + found, answers + [answer.value];
    }
    r := if status == 0 then Ok(violations) else Rejected;
  }

  predicate ExplainedAt(id: Bytes, path: string, payload: Bytes, rules: Rules, f: Finding) {
    if |payload| <= 16 * 1024 * 1024 then f in rules.content(payload, path, id)
    else f in rules.policy(path, id) || f == Finding("unscanned-oversize-history-blob", rules.reported(path, id), id)
  }

  /** Why a finding about one object is in the report: a blob recorded without a path, or one of
      its paths with findings on the contents or, if they are too large, on the name and on that. */
  predicate Explained(o: Object, sent: Sent, rules: Rules, f: Finding) {
    && sent.kind == [98, 108, 111, 98]
    && (|| (HISTORY_PATH_UNAVAILABLE in o.paths
            && f == Finding("history-blob-without-tree-path", "<git-object-without-tree-path>", o.id))
        || exists path | path in o.paths :: ExplainedAt(o.id, path, sent.payload, rules, f))
  }

  lemma PathExplained(id: Bytes, path: string, sent: Sent, rules: Rules, f: Finding)
    ensures f in PathFindings(id, path, Received(sent).contents, rules) <==> ExplainedAt(id, path, sent.payload, rules, f)
  {
  }

  lemma ObjectExplained(o: Object, sent: Sent, rules: Rules, f: Finding)
    ensures f in ObjectFindings(o, Received(sent), rules) <==> Explained(o, sent, rules, f)
  {
    var from := path => PathFindings(o.id, path, Received(sent).contents, rules);
    CollectedExactly(o.paths, from, f);
    forall path ensures f in from(path) <==> ExplainedAt(o.id, path, sent.payload, rules, f) {
      PathExplained(o.id, path, sent, rules, f);
    }
    if path :| path in o.paths && ExplainedAt(o.id, path, sent.payload, rules, f) {
      var i :| 0 <= i < |o.paths| && o.paths[i] == path;
      assert f in from(o.paths[i]);
    }
  }

  ghost predicate SomeExplains(objects: seq<Object>, sent: seq<Sent>, rules: Rules, f: Finding)
    requires |objects| == |sent|
  {
    exists i | 0 <= i < |sent| :: Explained(objects[i], sent[i], rules, f)
  }

  lemma ReportExplained(objects: seq<Object>, sent: seq<Sent>, rules: Rules, f: Finding)
    requires |objects| == |sent|
    ensures f in Report(objects, AllReceived(sent), rules) <==> SomeExplains(objects, sent, rules, f)
  {
    var answers := AllReceived(sent);
    var pairs := seq(|objects|, i requires 0 <= i < |objects| => (objects[i], answers[i]));
    var from := (p: (Object, Answer)) => ObjectFindings(p.0, p.1, rules);
    CollectedExactly(pairs, from, f);
    forall i | 0 <= i < |sent| ensures f in from(pairs[i]) <==> Explained(objects[i], sent[i], rules, f) {
      ObjectExplained(objects[i], sent[i], rules, f);
    }
  }

  /** On a stream of the objects' records the scan reads every record, and reports on them. */
  lemma RecordsAreScanned(objects: seq<Object>, sent: seq<Sent>, rest: Bytes)
    requires |objects| == |sent| && AllSendable(sent)
    ensures Answers(|objects|, WireAll(sent) + rest) == Ok((AllReceived(sent), rest))
  {
    PassesKeepStep(sent, rest, |sent|);
    TakeAll(sent);
    assert WireAll(sent[|sent|..]) + rest == rest;
  }

  /** Whatever the scan of such a stream returns, a finding is in it exactly when one of the
      requested blobs explains it. */
  lemma FindingsAreExplained(objects: seq<Object>, sent: seq<Sent>, rest: Bytes, at: Bytes, answers: seq<Answer>,
                             found: seq<Finding>, rules: Rules, f: Finding)
    requires |objects| == |sent| && AllSendable(sent)
    requires Scanned(objects, |objects|, WireAll(sent) + rest, at, answers, found, rules)
    ensures f in found <==> SomeExplains(objects, sent, rules, f)
  {
    RecordsAreScanned(objects, sent, rest);
    TakeAll(objects);
    ReportExplained(objects, sent, rules, f);
  }

  /** So each path of each blob has the findings on the blob's contents in it, or that it was too
      large to be looked at. */
  lemma EveryPathIsExaminedOrReported(objects: seq<Object>, sent: seq<Sent>, rest: Bytes, at: Bytes, answers: seq<Answer>,
                                      found: seq<Finding>, rules: Rules, i: nat, path: string)
    requires |objects| == |sent| && AllSendable(sent)
    requires Scanned(objects, |objects|, WireAll(sent) + rest, at, answers, found, rules)
    requires i < |sent| && sent[i].kind == BLOB && path in objects[i].paths
    ensures |sent[i].payload| <= MAX_SCANNED_BLOB_BYTES ==>
              forall f | f in rules.content(sent[i].payload, path, objects[i].id) :: f in found
    ensures |sent[i].payload| > MAX_SCANNED_BLOB_BYTES ==> Oversize(path, objects[i].id, rules) in found
    ensures path == HISTORY_PATH_UNAVAILABLE ==> Pathless(objects[i].id) in found
  {
    forall f | Explained(objects[i], sent[i], rules, f) ensures f in found {
      FindingsAreExplained(objects, sent, rest, at, answers, found, rules, f);
    }
  }
}
