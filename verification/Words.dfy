/** Whitespace-separated words and decimal numbers in byte strings, as Python reads them. */
module Words {
  import opened Text

  const NUL: byte := 0
  const NEWLINE: byte := 10
  const SPACE: byte := 32

  /** What `bytes.split()` treats as a separator. */
  predicate BytesSpace(b: byte) { b == SPACE || 9 <= b <= 13 }

  /** What `str.split()` treats as a separator, among the ASCII characters. */
  predicate TextSpace(b: byte) { BytesSpace(b) || 28 <= b <= 31 }

  ghost predicate Solid(s: Bytes, space: byte -> bool) { s != [] && forall b | b in s :: !space(b) }

  /** The length of the word that `s` starts with. */
  function WordLength(s: Bytes, space: byte -> bool): (n: nat)
    ensures n <= |s|
    ensures forall i | 0 <= i < n :: !space(s[i])
    ensures n < |s| ==> space(s[n])
  {
    if s == [] || space(s[0]) then 0 else 1 + WordLength(s[1..], space)
  }

  /** Python's argument-less `split()`. */
  function WordsOf(s: Bytes, space: byte -> bool): seq<Bytes> {
    if s == [] then []
    else if space(s[0]) then WordsOf(s[1..], space)
    else
      var n := WordLength(s, space);
      [s[..n]] + WordsOf(s[n..], space)
  }

  lemma {:induction false} WordLengthOf(word: Bytes, rest: Bytes, space: byte -> bool)
    requires forall b | b in word :: !space(b)
    requires rest != [] ==> space(rest[0])
    ensures WordLength(word + rest, space) == |word|
  {
    if word == [] {
      assert word + rest == rest;
    } else {
      assert word[0] in word;
      assert (word + rest)[1..] == word[1..] + rest;
      WordLengthOf(word[1..], rest, space);
    }
  }

  /** A solid word that ends the text or stands before a separator is the next word. */
  lemma NextWord(word: Bytes, rest: Bytes, space: byte -> bool)
    requires Solid(word, space)
    requires rest != [] ==> space(rest[0])
    ensures WordsOf(word + rest, space) == [word] + WordsOf(rest, space)
  {
    var s := word + rest;
    WordLengthOf(word, rest, space);
    assert s[0] == word[0] && word[0] in word;
    assert s[..|word|] == word && s[|word|..] == rest;
  }

  /** One word after another, separated by single spaces. */
  function Spaced(words: seq<Bytes>): Bytes { Join(words, SPACE) }

  lemma {:induction false} OnlySpace(s: Bytes, space: byte -> bool)
    requires forall b | b in s :: space(b)
    ensures WordsOf(s, space) == []
  {
    if s != [] { assert s[0] in s; OnlySpace(s[1..], space); }
  }

  lemma {:induction false} WordsOfSpaced(words: seq<Bytes>, tail: Bytes, space: byte -> bool)
    requires words != [] && forall w | w in words :: Solid(w, space)
    requires space(SPACE) && forall b | b in tail :: space(b)
    ensures WordsOf(Spaced(words) + tail, space) == words
  {
    if |words| == 1 {
      NextWord(words[0], tail, space);
      OnlySpace(tail, space);
    } else {
      var rest := Spaced(words[1..]) + tail;
      assert Spaced(words) + tail == words[0] + ([SPACE] + rest);
      NextWord(words[0], [SPACE] + rest, space);
      assert ([SPACE] + rest)[1..] == rest;
      WordsOfSpaced(words[1..], tail, space);
    }
  }

  predicate Digit(b: byte) { 48 <= b <= 57 }

  function Decimal(n: nat): (s: Bytes)
    ensures s != [] && forall b | b in s :: Digit(b)
  {
    if n < 10 then [(48 + n) as byte] else Decimal(n / 10) + [(48 + n % 10) as byte]
  }

  function Value(s: Bytes): nat
    requires forall b | b in s :: Digit(b)
  {
    if s == [] then 0
    else
      var last := s[|s| - 1];
      assert last in s && Digit(last);
      10 * Value(s[..|s| - 1]) + (last as int - 48)
  }

  const UNDERSCORE: byte := 95
  const PLUS: byte := 43
  const MINUS: byte := 45

  /** Digits, with single underscores between them. */
  predicate Numeral(s: Bytes) {
    && s != [] && Digit(s[0]) && Digit(s[|s| - 1])
    && (forall b | b in s :: Digit(b) || b == UNDERSCORE)
    && forall i | 0 <= i < |s| - 1 :: s[i] != UNDERSCORE || s[i + 1] != UNDERSCORE
  }

  function DigitsOf(s: Bytes): (r: Bytes)
    ensures forall b | b in r :: b in s && b != UNDERSCORE
  {
    if s == [] then [] else (if s[0] == UNDERSCORE then [] else [s[0]]) + DigitsOf(s[1..])
  }

  /** Python's `int(text)` on ASCII texts: a sign, and a numeral. */
  function Number(s: Bytes): Option<int> {
    var signed := s != [] && s[0] in {PLUS, MINUS};
    var numeral := if signed then s[1..] else s;
    if !Numeral(numeral) then None
    else
      var size: int := Value(DigitsOf(numeral));
      Some(if signed && s[0] == MINUS then -size else size)
  }

  lemma {:induction false} DigitsOfDigits(s: Bytes)
    requires forall b | b in s :: Digit(b)
    ensures DigitsOf(s) == s
  {
    if s != [] {
      DigitsOfDigits(s[1..]);
      FirstAndRest(s);
      assert Digit(s[0]);
    }
  }

  lemma {:induction false} ValueOfDecimal(n: nat)
    ensures Value(Decimal(n)) == n
  {
    var s := Decimal(n);
    if n < 10 {
      assert s[..|s| - 1] == [] && s[|s| - 1] as int == 48 + n;
      assert Value(s) == 10 * Value([]) + n;
    } else {
      ValueOfDecimal(n / 10);
      assert s[..|s| - 1] == Decimal(n / 10);
    }
  }

  /** What is written in decimal is read back. */
  lemma NumberOfDecimal(n: nat)
    ensures Number(Decimal(n)) == Some(n)
  {
    var s := Decimal(n);
    assert Digit(s[0]) && s[0] in s && s[|s| - 1] in s;
    DigitsOfDigits(s);
    ValueOfDecimal(n);
    assert forall i | 0 <= i < |s| :: s[i] in s;
  }

  /** Digits with single underscores between them. */
  ghost predicate Grouped(s: Bytes) {
    && s != [] && 48 <= s[0] <= 57 && 48 <= s[|s| - 1] <= 57
    && (forall i | 0 <= i < |s| :: 48 <= s[i] <= 57 || s[i] == 95)
    && forall i | 0 <= i < |s| - 1 :: !(s[i] == 95 && s[i + 1] == 95)
  }

  lemma NumeralIsGrouped(s: Bytes)
    ensures Numeral(s) <==> Grouped(s)
  {
    if Numeral(s) { assert forall i | 0 <= i < |s| :: s[i] in s; }
  }

  /** Which texts are numbers: an optional plus or minus sign, then grouped digits. */
  lemma NumberMeans(s: Bytes)
    ensures Number(s).Some? <==> s != [] && Grouped(if s[0] == 43 || s[0] == 45 then s[1..] else s)
  {
    if s != [] { NumeralIsGrouped(if s[0] == 43 || s[0] == 45 then s[1..] else s); }
  }

  /** A sign before the digits decides the sign of the number. */
  lemma SignDecides(s: Bytes, sign: byte)
    requires s != [] && Digit(s[0]) && (sign == 43 || sign == 45)
    ensures Number([sign] + s).Some? <==> Number(s).Some?
    ensures Number(s).Some? ==> Number([sign] + s).value == if sign == 45 then -Number(s).value else Number(s).value
  {
    assert ([sign] + s)[1..] == s;
  }

  /** An underscore makes no difference to the value. */
  lemma {:induction false} UnderscoreDropped(s: Bytes, t: Bytes)
    ensures DigitsOf(s + [95] + t) == DigitsOf(s + t)
  {
    if s == [] {
      assert ([] + [95] + t)[1..] == t && [] + t == t;
    } else {
      assert (s + [95] + t)[1..] == s[1..] + [95] + t && (s + t)[1..] == s[1..] + t;
      UnderscoreDropped(s[1..], t);
    }
  }
}
