/** Canonical JSON text, as `json.dumps(value, ensure_ascii=False, sort_keys=True,
    separators=(",", ":"))` writes it, and the proof that the text determines the value. */
module Json {
  import opened Text
  import Words

  datatype Json =
    | Null
    | Bool(truth: bool)
    | Int(number: int)
    | Str(text: string)
    | Array(items: seq<Json>)
    | Object(members: seq<Member>)

  /** An object's members stand in the order of their keys. */
  datatype Member = Member(key: string, value: Json)

  const HEX: string := "0123456789abcdef"

  function Escape(c: char): string {
    if c == '"' then "\\\""
    else if c == '\\' then "\\\\"
    else if c == '\n' then "\\n"
    else if c == '\r' then "\\r"
    else if c == '\t' then "\\t"
    else if c == 12 as char then "\\f"
    else if c == 8 as char then "\\b"
    else if c < ' ' then "\\u00" + [HEX[c as int / 16], HEX[c as int % 16]]
    else [c]
  }

  function Escaped(s: string): string { if s == [] then [] else Escape(s[0]) + Escaped(s[1..]) }

  function Quoted(s: string): string { "\"" + Escaped(s) + "\"" }

  predicate AllDigits(s: string) { forall i | 0 <= i < |s| :: '0' <= s[i] <= '9' }

  function Digits(n: nat): (s: string)
    ensures s != [] && AllDigits(s)
  {
    var d := Words.Decimal(n);
    assert forall i | 0 <= i < |d| :: d[i] in d;
    seq(|d|, i requires 0 <= i < |d| => d[i] as int as char)
  }

  function Number(n: int): string { if n < 0 then "-" + Digits(-n) else Digits(n) }

  function Render(v: Json): string
    decreases v
  {
    match v
    case Null => "null"
    case Bool(b) => if b then "true" else "false"
    case Int(n) => Number(n)
    case Str(s) => Quoted(s)
    case Array(items) => "[" + if items == [] then "]" else Render(items[0]) + MoreItems(items[1..])
    case Object(members) => "{" + if members == [] then "}" else RenderMember(members[0]) + MoreMembers(members[1..])
  }

  function MoreItems(items: seq<Json>): string
    decreases items
  {
    if items == [] then "]" else "," + (Render(items[0]) + MoreItems(items[1..]))
  }

  function RenderMember(m: Member): string
    decreases m
  {
    Quoted(m.key) + (":" + Render(m.value))
  }

  function MoreMembers(members: seq<Member>): string
    decreases members
  {
    if members == [] then "}" else "," + (RenderMember(members[0]) + MoreMembers(members[1..]))
  }

  function Rendered(items: seq<Json>): seq<string> {
    seq(|items|, i requires 0 <= i < |items| => Render(items[i]))
  }

  /** Keys and values with a colon between. */
  function RenderedMembers(members: seq<Member>): seq<string> {
    seq(|members|, i requires 0 <= i < |members| => Quoted(members[i].key) + ":" + Render(members[i].value))
  }

  lemma JoinMore(first: string, texts: seq<string>)
    ensures Join([first] + texts, ',') == if texts == [] then first else first + [','] + Join(texts, ',')
  {
    assert ([first] + texts)[1..] == texts;
  }

  lemma AfterComma(first: string, more: string, joined: string, end: string)
    requires more == joined + end
    ensures first + ("," + more) == first + [','] + joined + end
  {
  }

  lemma RenderedFirst(items: seq<Json>)
    requires items != []
    ensures Rendered(items) == [Render(items[0])] + Rendered(items[1..])
  {
  }

  lemma MemberColon(m: Member)
    ensures RenderMember(m) == Quoted(m.key) + ":" + Render(m.value)
  {
  }

  lemma RenderedFirstMember(members: seq<Member>)
    requires members != []
    ensures RenderedMembers(members) == [RenderMember(members[0])] + RenderedMembers(members[1..])
  {
    MemberColon(members[0]);
  }

  lemma {:induction false} MoreItemsJoined(items: seq<Json>, first: string)
    ensures first + MoreItems(items) == Join([first] + Rendered(items), ',') + "]"
    decreases |items|
  {
    JoinMore(first, Rendered(items));
    if items != [] {
      MoreItemsJoined(items[1..], Render(items[0]));
      RenderedFirst(items);
      AfterComma(first, Render(items[0]) + MoreItems(items[1..]), Join(Rendered(items), ','), "]");
    }
  }

  lemma {:induction false} MoreMembersJoined(members: seq<Member>, first: string)
    ensures first + MoreMembers(members) == Join([first] + RenderedMembers(members), ',') + "}"
    decreases |members|
  {
    JoinMore(first, RenderedMembers(members));
    if members != [] {
      MoreMembersJoined(members[1..], RenderMember(members[0]));
      RenderedFirstMember(members);
      AfterComma(first, RenderMember(members[0]) + MoreMembers(members[1..]), Join(RenderedMembers(members), ','), "}");
    }
  }

  /** Literals by name, strings escaped between quotes, arrays as their items between brackets and
      objects as their members between braces, with commas between them and nothing else. */
  lemma RenderJoins(items: seq<Json>, members: seq<Member>, text: string)
    ensures Render(Null) == "null" && Render(Bool(true)) == "true" && Render(Bool(false)) == "false"
    ensures Render(Str(text)) == "\"" + Escaped(text) + "\""
    ensures Render(Array(items)) == "[" + (Join(Rendered(items), ',') + "]")
    ensures Render(Object(members)) == "{" + (Join(RenderedMembers(members), ',') + "}")
  {
    if items != [] {
      MoreItemsJoined(items[1..], Render(items[0]));
      RenderedFirst(items);
    }
    if members != [] {
      MoreMembersJoined(members[1..], RenderMember(members[0]));
      RenderedFirstMember(members);
    }
  }

  /** Only quotes, backslashes and control characters are escaped. */
  lemma EscapesAre(c: char)
    ensures c >= ' ' && c != '"' && c != '\\' ==> Escape(c) == [c]
    ensures Escape('"') == "\\\"" && Escape('\\') == "\\\\" && Escape('\n') == "\\n" && Escape('\r') == "\\r"
    ensures Escape('\t') == "\\t" && Escape(12 as char) == "\\f" && Escape(8 as char) == "\\b"
    ensures c < ' ' && c as int !in {8, 9, 10, 12, 13} ==>
      Escape(c) == "\\u00" + [if c as int < 16 then '0' else '1', "0123456789abcdef"[c as int % 16]]
  {
  }

  /** What can follow a value inside a text. */
  predicate Ends(s: string) { s == [] || s[0] in ",]}" }

  /** How long an escape is shows in its first two characters. */
  lemma EscapeShape(c: char, s: string)
    ensures Escape(c) != [] && Escape(c)[0] != '"'
    ensures |Escape(c)| == if (Escape(c) + s)[0] != '\\' then 1 else if (Escape(c) + s)[1] != 'u' then 2 else 6
  {
  }

  lemma HexDigit(a: nat, b: nat)
    requires a < 16 && b < 16 && HEX[a] == HEX[b]
    ensures a == b
  {
  }

  lemma EscapeInjective(c: char, d: char)
    requires Escape(c) == Escape(d)
    ensures c == d
  {
    if |Escape(c)| == 6 {
      assert Escape(c)[4] == HEX[c as int / 16] && Escape(d)[4] == HEX[d as int / 16];
      assert Escape(c)[5] == HEX[c as int % 16] && Escape(d)[5] == HEX[d as int % 16];
      HexDigit(c as int / 16, d as int / 16);
      HexDigit(c as int % 16, d as int % 16);
    }
  }

  lemma EscapeDecodes(c: char, d: char, s: string, t: string)
    requires Escape(c) + s == Escape(d) + t
    ensures c == d && s == t
  {
    EscapeShape(c, s);
    EscapeShape(d, t);
    SameLengthSplit(Escape(c), Escape(d), s, t);
    EscapeInjective(c, d);
  }

  predicate Closes(s: string) { s != [] && s[0] == '"' }

  lemma EscapedStart(a: string, s: string)
    requires Closes(s)
    ensures Closes(Escaped(a) + s) <==> a == []
  {
    if a != [] { EscapeShape(a[0], []); }
  }

  lemma {:induction false} EscapedDecodes(a: string, b: string, s: string, t: string)
    requires Escaped(a) + s == Escaped(b) + t && Closes(s) && Closes(t)
    ensures a == b && s == t
  {
    EscapedStart(a, s);
    EscapedStart(b, t);
    if a == [] {
      SameLengthSplit(Escaped(a), Escaped(b), s, t);
    } else {
      Regroup(Escape(a[0]), Escaped(a[1..]), s);
      Regroup(Escape(b[0]), Escaped(b[1..]), t);
      EscapeDecodes(a[0], b[0], Escaped(a[1..]) + s, Escaped(b[1..]) + t);
      EscapedDecodes(a[1..], b[1..], s, t);
      FirstAndRest(a);
      FirstAndRest(b);
    }
  }

  lemma QuotedText(a: string, s: string)
    ensures Quoted(a) + s == "\"" + (Escaped(a) + ("\"" + s))
  {
    Regroup("\"" + Escaped(a), "\"", s);
    Regroup("\"", Escaped(a), "\"" + s);
  }

  lemma QuotedDecodes(a: string, b: string, s: string, t: string)
    requires Quoted(a) + s == Quoted(b) + t
    ensures a == b && s == t
  {
    QuotedText(a, s);
    QuotedText(b, t);
    SameLengthSplit("\"", "\"", Escaped(a) + ("\"" + s), Escaped(b) + ("\"" + t));
    EscapedDecodes(a, b, "\"" + s, "\"" + t);
    SameLengthSplit("\"", "\"", s, t);
  }

  lemma DigitsStart(a: string, s: string)
    requires AllDigits(a) && Ends(s)
    ensures a + s != [] && '0' <= (a + s)[0] <= '9' <==> a != []
  {
  }

  lemma {:induction false} DigitRunDecodes(a: string, b: string, s: string, t: string)
    requires AllDigits(a) && AllDigits(b) && Ends(s) && Ends(t)
    requires a + s == b + t
    ensures a == b && s == t
  {
    DigitsStart(a, s);
    DigitsStart(b, t);
    if a == [] {
      SameLengthSplit(a, b, s, t);
    } else {
      FirstAndRest(a);
      FirstAndRest(b);
      Regroup([a[0]], a[1..], s);
      Regroup([b[0]], b[1..], t);
      SameLengthSplit([a[0]], [b[0]], a[1..] + s, b[1..] + t);
      DigitRunDecodes(a[1..], b[1..], s, t);
    }
  }

  lemma DigitsDecode(m: nat, n: nat)
    requires Digits(m) == Digits(n)
    ensures m == n
  {
    var d, e := Words.Decimal(m), Words.Decimal(n);
    assert |d| == |Digits(m)| == |e|;
    forall i | 0 <= i < |d| ensures d[i] == e[i] {
      assert d[i] in d && e[i] in e;
      assert d[i] as int as char == Digits(m)[i] == Digits(n)[i] == e[i] as int as char;
    }
    assert d == e;
    Words.NumberOfDecimal(m);
    Words.NumberOfDecimal(n);
  }

  lemma NumberStart(n: int)
    ensures Number(n) != [] && (Number(n)[0] == '-' <==> n < 0)
  {
  }

  lemma NumberDecodes(m: int, n: int, s: string, t: string)
    requires Number(m) + s == Number(n) + t && Ends(s) && Ends(t)
    ensures m == n && s == t
  {
    NumberStart(m);
    NumberStart(n);
    SameStart(Number(m), Number(n), s, t);
    if m < 0 {
      Regroup("-", Digits(-m), s);
      Regroup("-", Digits(-n), t);
      SameLengthSplit("-", "-", Digits(-m) + s, Digits(-n) + t);
      DigitRunDecodes(Digits(-m), Digits(-n), s, t);
      DigitsDecode(-m, -n);
    } else {
      DigitRunDecodes(Digits(m), Digits(n), s, t);
      DigitsDecode(m, n);
    }
  }

  datatype Kind = Word | Numeral | Text | List | Record

  function KindOf(v: Json): Kind {
    match v
    case Null => Word
    case Bool(_) => Word
    case Int(_) => Numeral
    case Str(_) => Text
    case Array(_) => List
    case Object(_) => Record
  }

  function KindOfChar(c: char): Kind {
    if c == '[' then List else if c == '{' then Record else if c == '"' then Text
    else if c == '-' || '0' <= c <= '9' then Numeral else Word
  }

  /** The first character tells what kind of value follows. */
  lemma FirstChar(v: Json)
    ensures Render(v) != [] && KindOfChar(Render(v)[0]) == KindOf(v) && Render(v)[0] !in ",]}"
  {
    if v.Int? { NumberStart(v.number); }
  }

  lemma WordDecodes(v: Json, w: Json, s: string, t: string)
    requires KindOf(v) == Word && KindOf(w) == Word && Render(v) + s == Render(w) + t
    ensures v == w && s == t
  {
    SameStart(Render(v), Render(w), s, t);
    SameLengthSplit(Render(v), Render(w), s, t);
  }

  function ItemsText(items: seq<Json>): string { if items == [] then "]" else Render(items[0]) + MoreItems(items[1..]) }

  function MembersText(members: seq<Member>): string {
    if members == [] then "}" else RenderMember(members[0]) + MoreMembers(members[1..])
  }

  lemma BracketsDecode(open: string, a: string, b: string, s: string, t: string)
    requires open + a + s == open + b + t
    ensures a + s == b + t
  {
    Regroup(open, a, s);
    Regroup(open, b, t);
    SameLengthSplit(open, open, a + s, b + t);
  }

  /** A value's text is told apart from any other's, whatever follows. */
  lemma {:induction false} RenderDecodes(v: Json, w: Json, s: string, t: string)
    requires Render(v) + s == Render(w) + t && Ends(s) && Ends(t)
    ensures v == w && s == t
    decreases v
  {
    FirstChar(v);
    FirstChar(w);
    SameStart(Render(v), Render(w), s, t);
    match v
    case Int(m) => NumberDecodes(m, w.number, s, t);
    case Str(a) => QuotedDecodes(a, w.text, s, t);
    case Array(a) =>
      BracketsDecode("[", ItemsText(a), ItemsText(w.items), s, t);
      ArrayDecodes(a, w.items, s, t);
    case Object(a) =>
      BracketsDecode("{", MembersText(a), MembersText(w.members), s, t);
      ObjectDecodes(a, w.members, s, t);
    case _ =>
      WordDecodes(v, w, s, t);
  }

  lemma {:induction false} ArrayDecodes(a: seq<Json>, b: seq<Json>, s: string, t: string)
    requires ItemsText(a) + s == ItemsText(b) + t && Ends(s) && Ends(t)
    ensures a == b && s == t
    decreases a
  {
    if a != [] { FirstChar(a[0]); }
    if b != [] { FirstChar(b[0]); }
    SameStart(ItemsText(a), ItemsText(b), s, t);
    if a == [] {
      SameLengthSplit("]", "]", s, t);
    } else {
      Regroup(Render(a[0]), MoreItems(a[1..]), s);
      Regroup(Render(b[0]), MoreItems(b[1..]), t);
      RenderDecodes(a[0], b[0], MoreItems(a[1..]) + s, MoreItems(b[1..]) + t);
      MoreItemsDecode(a[1..], b[1..], s, t);
      FirstAndRest(a);
      FirstAndRest(b);
    }
  }

  lemma {:induction false} MoreItemsDecode(a: seq<Json>, b: seq<Json>, s: string, t: string)
    requires MoreItems(a) + s == MoreItems(b) + t && Ends(s) && Ends(t)
    ensures a == b && s == t
    decreases a
  {
    SameStart(MoreItems(a), MoreItems(b), s, t);
    if a == [] {
      SameLengthSplit("]", "]", s, t);
    } else {
      BracketsDecode(",", Render(a[0]) + MoreItems(a[1..]), Render(b[0]) + MoreItems(b[1..]), s, t);
      Regroup(Render(a[0]), MoreItems(a[1..]), s);
      Regroup(Render(b[0]), MoreItems(b[1..]), t);
      RenderDecodes(a[0], b[0], MoreItems(a[1..]) + s, MoreItems(b[1..]) + t);
      MoreItemsDecode(a[1..], b[1..], s, t);
      FirstAndRest(a);
      FirstAndRest(b);
    }
  }

  lemma {:induction false} MemberDecodes(m: Member, n: Member, s: string, t: string)
    requires RenderMember(m) + s == RenderMember(n) + t && Ends(s) && Ends(t)
    ensures m == n && s == t
    decreases m
  {
    Regroup(Quoted(m.key), ":" + Render(m.value), s);
    Regroup(Quoted(n.key), ":" + Render(n.value), t);
    QuotedDecodes(m.key, n.key, ":" + Render(m.value) + s, ":" + Render(n.value) + t);
    BracketsDecode(":", Render(m.value), Render(n.value), s, t);
    RenderDecodes(m.value, n.value, s, t);
  }

  lemma {:induction false} ObjectDecodes(a: seq<Member>, b: seq<Member>, s: string, t: string)
    requires MembersText(a) + s == MembersText(b) + t && Ends(s) && Ends(t)
    ensures a == b && s == t
    decreases a
  {
    SameStart(MembersText(a), MembersText(b), s, t);
    if a == [] {
      SameLengthSplit("}", "}", s, t);
    } else {
      Regroup(RenderMember(a[0]), MoreMembers(a[1..]), s);
      Regroup(RenderMember(b[0]), MoreMembers(b[1..]), t);
      MemberDecodes(a[0], b[0], MoreMembers(a[1..]) + s, MoreMembers(b[1..]) + t);
      MoreMembersDecode(a[1..], b[1..], s, t);
      FirstAndRest(a);
      FirstAndRest(b);
    }
  }

  lemma {:induction false} MoreMembersDecode(a: seq<Member>, b: seq<Member>, s: string, t: string)
    requires MoreMembers(a) + s == MoreMembers(b) + t && Ends(s) && Ends(t)
    ensures a == b && s == t
    decreases a
  {
    SameStart(MoreMembers(a), MoreMembers(b), s, t);
    if a == [] {
      SameLengthSplit("}", "}", s, t);
    } else {
      BracketsDecode(",", RenderMember(a[0]) + MoreMembers(a[1..]), RenderMember(b[0]) + MoreMembers(b[1..]), s, t);
      Regroup(RenderMember(a[0]), MoreMembers(a[1..]), s);
      Regroup(RenderMember(b[0]), MoreMembers(b[1..]), t);
      MemberDecodes(a[0], b[0], MoreMembers(a[1..]) + s, MoreMembers(b[1..]) + t);
      MoreMembersDecode(a[1..], b[1..], s, t);
      FirstAndRest(a);
      FirstAndRest(b);
    }
  }

  /** Canonical text determines the value it was written from. */
  lemma RenderInjective(v: Json, w: Json)
    requires Render(v) == Render(w)
    ensures v == w
  {
    assert Render(v) + [] == Render(w) + [];
    RenderDecodes(v, w, [], []);
  }
}
