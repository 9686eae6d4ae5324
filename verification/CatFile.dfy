/** Reading `git cat-file --batch`: headers, payloads and terminators on one byte stream. */
module CatFile {
  import opened Text
  import opened Words

  const MAX_SCANNED_BLOB_BYTES: nat := 16 * 1024 * 1024
  const CHUNK: nat := 1024 * 1024

  /** Up to and including the first newline, or everything when there is none. */
  function FirstLine(s: Bytes): (line: Bytes)
    ensures line <= s
  {
    if s == [] then []
    else if s[0] == NEWLINE then [NEWLINE]
    else [s[0]] + FirstLine(s[1..])
  }

  lemma {:induction false} FirstLineEnds(s: Bytes, n: nat)
    requires n <= |s| && NEWLINE !in s[..n]
    requires n < |s| ==> s[n] == NEWLINE
    ensures FirstLine(s) == if n < |s| then s[..n + 1] else s
  {
    if n > 0 {
      FirstThenTake(s, n - 1);
      FirstLineEnds(s[1..], n - 1);
      if n < |s| { FirstThenTake(s, n); }
      assert s == [s[0]] + s[1..];
    }
  }

  /** The read end of a pipe: everything the writer will ever send, and how far it was read. */
  class Stream {
    const data: Bytes
    var pos: nat

    ghost predicate Valid() reads this { pos <= |data| }

    ghost function Left(): Bytes reads this requires Valid() { data[pos..] }

    constructor (data: Bytes)
      ensures Valid() && this.data == data && Left() == data
    {
      this.data := data;
      pos := 0;
    }

    /** A buffered read: `n` bytes unless the stream ends first. */
    method Read(n: nat) returns (chunk: Bytes)
      requires Valid()
      modifies this
      ensures Valid()
      ensures chunk == if n <= |old(Left())| then old(Left())[..n] else old(Left())
      ensures Left() == old(Left())[|chunk|..]
    {
      var end := if pos + n <= |data| then pos + n else |data|;
      chunk := data[pos..end];
      pos := end;
    }

    /** A read that may come back short, but only comes back empty at the end. */
    method ReadSome(n: nat) returns (chunk: Bytes)
      requires Valid() && n > 0
      modifies this
      ensures Valid()
      ensures |chunk| <= n && chunk <= old(Left())
      ensures chunk == [] <==> old(Left()) == []
      ensures Left() == old(Left())[|chunk|..]
    {
      if pos == |data| { return []; }
      var k: nat :| 1 <= k <= n && pos + k <= |data|;
      chunk := data[pos..pos + k];
      pos := pos + k;
    }

    method ReadLine() returns (line: Bytes)
      requires Valid()
      modifies this
      ensures Valid()
      ensures line == FirstLine(old(Left()))
      ensures Left() == old(Left())[|line|..]
    {
      var left, n := data[pos..], 0;
      while n < |left| && left[n] != NEWLINE
        invariant pos == old(pos) && 0 <= n <= |left| && NEWLINE !in left[..n]
      {
        TakeOneMore(left, n);
        n := n + 1;
      }
      FirstLineEnds(left, n);
      line := if n < |left| then left[..n + 1] else left;
      DropTwice(data, pos, |line|);
      pos := pos + |line|;
    }
  }

  /** What one answer holds: the object's kind, and its contents unless they were too large to keep. */
  datatype Answer = Answer(kind: Bytes, contents: Option<Bytes>)

  datatype Header = Header(kind: Bytes, size: nat)

  /** Three words, the last a number.  A negative size is read as a header too, but no payload
      is ever accepted for it: the read it asks for takes everything, or is an error. */
  function ReadHeader(line: Bytes): Result<Header> {
    var parts := WordsOf(line, b => TextSpace(b));
    if |parts| != 3 then Rejected
    else
      match Number(parts[2])
      case None => Rejected
      case Some(size) => if size < 0 then Rejected else Ok(Header(parts[1], size))
  }

  /** A payload of `size` bytes and its newline: both ways of reading it frame it alike. */
  predicate Framed(left: Bytes, size: nat) { size < |left| && left[size] == NEWLINE }

  function Contents(left: Bytes, size: nat): Option<Bytes>
    requires Framed(left, size)
  {
    if size > MAX_SCANNED_BLOB_BYTES then None else Some(left[..size])
  }

  /** What reading one byte after `size` bytes says about the framing. */
  lemma TerminatorTells(left: Bytes, size: nat, rest: Bytes)
    requires size <= |left| && rest == left[size..]
    ensures rest != [] ==> rest[..1] == [left[size]] && rest[1..] == left[size + 1..]
    ensures Framed(left, size) <==> rest != [] && rest[..1] == [NEWLINE]
  {
  }

  /** `_read_cat_file_payload`: the oversized branch drains chunk by chunk. */
  method ReadPayload(stream: Stream, size: nat) returns (r: Result<Option<Bytes>>)
    requires stream.Valid()
    modifies stream
    ensures stream.Valid()
    ensures r.Ok? <==> Framed(old(stream.Left()), size)
    ensures r.Ok? ==> r.value == Contents(old(stream.Left()), size)
    ensures r.Ok? ==> stream.Left() == old(stream.Left())[size + 1..]
  {
    if size > MAX_SCANNED_BLOB_BYTES {
      var remaining := size;
      while remaining > 0
        invariant stream.Valid() && 0 <= remaining <= size
        invariant size - remaining <= |old(stream.Left())|
        invariant stream.Left() == old(stream.Left())[size - remaining..]
      {
        var chunk := stream.ReadSome(if remaining < CHUNK then remaining else CHUNK);
        if chunk == [] { return Rejected; }
        remaining := remaining - |chunk|;
      }
      TerminatorTells(old(stream.Left()), size, stream.Left());
      var terminator := stream.Read(1);
      if terminator != [NEWLINE] { return Rejected; }
      return Ok(None);
    }
    var data := stream.Read(size);
    assert stream.Left() == old(stream.Left())[|data|..];
    if |data| == size { TerminatorTells(old(stream.Left()), size, stream.Left()); }
    var terminator := stream.Read(1);
    if |data| != size || terminator != [NEWLINE] { return Rejected; }
    return Ok(Some(data));
  }

  /** The answer with that header at the front of `body`, and what follows it. */
  function AnswerIn(header: Result<Header>, body: Bytes): Result<(Answer, Bytes)> {
    if header.Rejected? then Rejected
    else
      var size := header.value.size;
      if !Framed(body, size) then Rejected
      else Ok((Answer(header.value.kind, Contents(body, size)), body[size + 1..]))
  }

  /** One pass of the batch loop on what is left of the stream. */
  function NextAnswer(left: Bytes): Result<(Answer, Bytes)> {
    AnswerIn(ReadHeader(FirstLine(left)), left[|FirstLine(left)|..])
  }

  method ReadAnswer(stream: Stream) returns (r: Result<Answer>)
    requires stream.Valid()
    modifies stream
    ensures stream.Valid()
    ensures r.Ok? == NextAnswer(old(stream.Left())).Ok?
    ensures r.Ok? ==> NextAnswer(old(stream.Left())) == Ok((r.value, stream.Left()))
  {
    var line := stream.ReadLine();
    var header := ReadHeader(line);
    if header.Rejected? { return Rejected; }
    var contents := ReadPayload(stream, header.value.size);
    if contents.Rejected? { return Rejected; }
    return Ok(Answer(header.value.kind, contents.value));
  }

  /** An object as git writes it; the payload may hold newlines or look like a header. */
  datatype Sent = Sent(id: Bytes, kind: Bytes, payload: Bytes)

  /** A word as git writes it: it holds no white space, control separators included. */
  ghost predicate Word(s: Bytes) { s != [] && forall b | b in s :: b != 32 && !(9 <= b <= 13) && !(28 <= b <= 31) }

  ghost predicate Sendable(o: Sent) { Word(o.id) && Word(o.kind) }

  // On the wire a newline, byte 10, ends the header and the payload.
  function HeaderLine(o: Sent): Bytes { Spaced([o.id, o.kind, Decimal(|o.payload|)]) + [10] }

  function Wire(o: Sent): Bytes { HeaderLine(o) + o.payload + [10] }

  function Received(o: Sent): Answer {
    Answer(o.kind, if |o.payload| > MAX_SCANNED_BLOB_BYTES then None else Some(o.payload))
  }

  lemma HeaderWords(o: Sent)
    requires Sendable(o)
    ensures ReadHeader(HeaderLine(o)) == Ok(Header(o.kind, |o.payload|))
  {
    var size := Decimal(|o.payload|);
    NumberOfDecimal(|o.payload|);
    assert Solid(size, b => TextSpace(b)) && Solid(o.id, b => TextSpace(b)) && Solid(o.kind, b => TextSpace(b));
    WordsOfSpaced([o.id, o.kind, size], [NEWLINE], b => TextSpace(b));
  }

  lemma HeaderHasNoNewline(o: Sent)
    requires Sendable(o)
    ensures NEWLINE !in Spaced([o.id, o.kind, Decimal(|o.payload|)])
  {
    var size := Decimal(|o.payload|);
    var words := [o.id, o.kind, size];
    assert Spaced(words) == o.id + [SPACE] + Spaced([o.kind, size]) by { assert words[1..] == [o.kind, size]; }
    assert Spaced([o.kind, size]) == o.kind + [SPACE] + size by {
      assert [o.kind, size][1..] == [size] && Spaced([size]) == size;
    }
  }

  lemma HeaderLineIsRead(o: Sent, rest: Bytes)
    requires Sendable(o)
    ensures FirstLine(HeaderLine(o) + rest) == HeaderLine(o)
    ensures ReadHeader(HeaderLine(o)) == Ok(Header(o.kind, |o.payload|))
  {
    HeaderWords(o);
    HeaderHasNoNewline(o);
    var text := Spaced([o.id, o.kind, Decimal(|o.payload|)]);
    var s := HeaderLine(o) + rest;
    assert s[..|text|] == text;
    FirstLineEnds(s, |text|);
    assert s[..|HeaderLine(o)|] == HeaderLine(o);
  }

  lemma HeaderThenBody(o: Sent, body: Bytes)
    requires Sendable(o)
    ensures var left := HeaderLine(o) + body;
      FirstLine(left) == HeaderLine(o) && left[|HeaderLine(o)|..] == body
  {
    HeaderLineIsRead(o, body);
  }

  lemma BodyIsTaken(o: Sent, rest: Bytes)
    ensures AnswerIn(Ok(Header(o.kind, |o.payload|)), o.payload + [NEWLINE] + rest) == Ok((Received(o), rest))
  {
    var body := o.payload + [NEWLINE] + rest;
    assert body[..|o.payload|] == o.payload;
    assert body[|o.payload| + 1..] == rest;
  }

  lemma WireThenRest(o: Sent, rest: Bytes)
    ensures Wire(o) + rest == HeaderLine(o) + (o.payload + [NEWLINE] + rest)
  {
  }

  /** A pass takes exactly one answer off the stream, whatever follows it. */
  lemma PassTakesOneAnswer(o: Sent, rest: Bytes)
    requires Sendable(o)
    ensures NextAnswer(Wire(o) + rest) == Ok((Received(o), rest))
  {
    WireThenRest(o, rest);
    HeaderThenBody(o, o.payload + [NEWLINE] + rest);
    HeaderWords(o);
    BodyIsTaken(o, rest);
  }

  /** `n` items taken off the stream one after another, and where that leaves it. */
  function Repeated<A>(next: Bytes -> Result<(A, Bytes)>, n: nat, left: Bytes): (r: Result<(seq<A>, Bytes)>)
    ensures r.Ok? ==> |r.value.0| == n
  {
    if n == 0 then Ok(([], left))
    else
      var before := Repeated(next, n - 1, left);
      if before.Rejected? || next(before.value.1).Rejected? then Rejected
      else
        var taken := next(before.value.1).value;
        Ok((before.value.0 + [taken.0], taken.1))
  }

  lemma {:induction false} RepeatedStops<A>(next: Bytes -> Result<(A, Bytes)>, i: nat, n: nat, left: Bytes)
    requires i <= n && Repeated(next, i, left).Rejected?
    ensures Repeated(next, n, left).Rejected?
    decreases n
  {
    if i < n { RepeatedStops(next, i, n - 1, left); }
  }

  /** `n` answers taken off the stream. */
  function Answers(n: nat, left: Bytes): (r: Result<(seq<Answer>, Bytes)>)
    ensures r.Ok? ==> |r.value.0| == n
  {
    Repeated(s => NextAnswer(s), n, left)
  }

  lemma RefusalIsFinal(i: nat, n: nat, left: Bytes)
    requires i <= n && Answers(i, left).Rejected?
    ensures Answers(n, left).Rejected?
  {
    RepeatedStops(s => NextAnswer(s), i, n, left);
  }

  lemma OneMoreAnswer(n: nat, left: Bytes, got: seq<Answer>, at: Bytes, answer: Answer, rest: Bytes)
    requires n > 0 && Answers(n - 1, left) == Ok((got, at)) && NextAnswer(at) == Ok((answer, rest))
    ensures Answers(n, left) == Ok((got + [answer], rest))
  {
  }

  function WireAll(sent: seq<Sent>): Bytes { if sent == [] then [] else Wire(sent[0]) + WireAll(sent[1..]) }

  ghost predicate AllSendable(sent: seq<Sent>) { forall i | 0 <= i < |sent| :: Sendable(sent[i]) }

  function AllReceived(sent: seq<Sent>): seq<Answer> { seq(|sent|, i requires 0 <= i < |sent| => Received(sent[i])) }

  lemma ReceivedMore(sent: seq<Sent>, n: nat)
    requires 0 < n <= |sent|
    ensures AllReceived(sent[..n]) == AllReceived(sent[..n - 1]) + [Received(sent[n - 1])]
  {
  }

  lemma WireFrom(sent: seq<Sent>, i: nat, rest: Bytes)
    requires 0 < i <= |sent|
    ensures WireAll(sent[i - 1..]) + rest == Wire(sent[i - 1]) + (WireAll(sent[i..]) + rest)
  {
    assert sent[i - 1..][1..] == sent[i..];
  }

  /** After `i` passes the reader has the first `i` objects and stands at the next one. */
  predicate InStep(sent: seq<Sent>, rest: Bytes, i: nat)
    requires i <= |sent|
  {
    Answers(i, WireAll(sent) + rest) == Ok((AllReceived(sent[..i]), WireAll(sent[i..]) + rest))
  }

  lemma StartsInStep(sent: seq<Sent>, rest: Bytes)
    ensures InStep(sent, rest, 0)
  {
    assert sent[0..] == sent && AllReceived(sent[..0]) == [];
  }

  lemma StaysInStep(sent: seq<Sent>, rest: Bytes, i: nat)
    requires 0 < i <= |sent| && AllSendable(sent) && InStep(sent, rest, i - 1)
    ensures InStep(sent, rest, i)
  {
    var o, start, next := sent[i - 1], WireAll(sent) + rest, WireAll(sent[i..]) + rest;
    WireFrom(sent, i, rest);
    PassTakesOneAnswer(o, next);
    OneMoreAnswer(i, start, AllReceived(sent[..i - 1]), Wire(o) + next, Received(o), next);
    ReceivedMore(sent, i);
  }

  /** Pass `i` begins exactly where record `i` begins, whatever the payloads look like. */
  lemma {:induction false} PassesKeepStep(sent: seq<Sent>, rest: Bytes, i: nat)
    requires i <= |sent| && AllSendable(sent)
    ensures InStep(sent, rest, i)
  {
    if i == 0 {
      StartsInStep(sent, rest);
    } else {
      PassesKeepStep(sent, rest, i - 1);
      StaysInStep(sent, rest, i);
    }
  }

  /** In a text that is its own first line, a newline can only be the last byte. */
  lemma {:induction false} FirstLineIsFirst(line: Bytes)
    requires FirstLine(line) == line
    ensures forall k | 0 <= k < |line| - 1 :: line[k] != NEWLINE
  {
    if line != [] && line[0] != NEWLINE {
      assert [line[0]] + FirstLine(line[1..]) == [line[0]] + line[1..];
      FirstLineIsFirst(line[1..]);
      forall k | 0 <= k < |line| - 1 ensures line[k] != NEWLINE {
        if k > 0 { assert line[k] == line[1..][k - 1]; }
      }
    }
  }

  lemma CutHeader(o: Sent, left: Bytes)
    requires Sendable(o) && left < HeaderLine(o)
    ensures FirstLine(left) == left
  {
    var line := HeaderLine(o);
    HeaderLineIsRead(o, []);
    assert line + [] == line;
    FirstLineIsFirst(line);
    TakeAll(left);
    FirstLineEnds(left, |left|);
  }

  /** An answer cut short is refused, wherever the cut falls. */
  lemma CutAnswerIsRefused(o: Sent, left: Bytes)
    requires Sendable(o) && left < Wire(o)
    ensures NextAnswer(left).Rejected?
  {
    var line := HeaderLine(o);
    assert Wire(o) == line + (o.payload + [NEWLINE]);
    if |left| < |line| {
      assert left == line[..|left|];
      CutHeader(o, left);
    } else {
      var body := left[|line|..];
      assert left == line + body;
      HeaderLineIsRead(o, body);
      assert |body| <= |o.payload|;
    }
  }

  lemma CutBehindRecord(o: Sent, rest: Bytes, after: Bytes)
    requires Sendable(o) && after < rest
    ensures NextAnswer(Wire(o) + after).Ok? ==> NextAnswer(Wire(o) + after).value.1 < rest
  {
    PassTakesOneAnswer(o, after);
  }

  lemma CutParts<T>(first: seq<T>, rest: seq<T>, left: seq<T>)
    requires left < first + rest
    ensures |left| < |first| ==> left < first
    ensures |left| >= |first| ==> left == first + left[|first|..] && left[|first|..] < rest
  {
    if |left| < |first| {
      assert left == (first + rest)[..|left|] == first[..|left|];
    } else {
      var after := left[|first|..];
      assert left == (first + rest)[..|left|];
      assert after == rest[..|after|];
    }
  }

  lemma CutRecord(o: Sent, rest: Bytes, left: Bytes)
    requires Sendable(o) && left < Wire(o) + rest
    ensures NextAnswer(left).Ok? ==> NextAnswer(left).value.1 < rest
  {
    CutParts(Wire(o), rest, left);
    if |left| < |Wire(o)| {
      CutAnswerIsRefused(o, left);
    } else {
      CutBehindRecord(o, rest, left[|Wire(o)|..]);
    }
  }

  /** While a cut stream is not refused, it has only lost something further on. */
  lemma {:induction false} CutStaysAhead(sent: seq<Sent>, left: Bytes, i: nat)
    requires i <= |sent| && AllSendable(sent) && left < WireAll(sent)
    ensures Answers(i, left).Ok? ==> Answers(i, left).value.1 < WireAll(sent[i..])
  {
    if i == 0 {
      assert sent[0..] == sent;
    } else {
      CutStaysAhead(sent, left, i - 1);
      if Answers(i - 1, left).Ok? {
        WireFrom(sent, i, []);
        CutRecord(sent[i - 1], WireAll(sent[i..]), Answers(i - 1, left).value.1);
      }
    }
  }

  /** A stream that ends anywhere before its last byte is refused as a whole. */
  lemma TruncatedStreamIsRefused(sent: seq<Sent>, left: Bytes)
    requires AllSendable(sent) && left < WireAll(sent)
    ensures Answers(|sent|, left).Rejected?
  {
    CutStaysAhead(sent, left, |sent|);
  }
}
