/** The canonical encoding of compiled code, by which a frozen program is compared with its
    staged source: equal digests mean equal code at every nesting level. */
module CodeValue {
  import opened Text
  import opened Sorting
  import DependencyTree
  import opened Json

  /** A constant of compiled code. A float is represented by its hexadecimal spelling, a
      frozen set by its members in some iteration order; anything else is unsupported. */
  datatype Const =
    | Code(filename: string, fields: seq<Const>)
    | ByteString(bytes: Bytes)
    | Tuple(items: seq<Const>)
    | Listing(items: seq<Const>)
    | FrozenSet(items: seq<Const>)
    | Float(hex: string)
    | Complex(re: string, im: string)
    | Ellipsis
    | Nothing
    | Text(text: string)
    | Integer(number: int)
    | Truth(truth: bool)
    | Unsupported

  /** The fields of a code object that are compared, in key order: all but the file name. */
  const FIELDS: seq<string> := [
    "co_argcount", "co_cellvars", "co_code", "co_consts", "co_exceptiontable", "co_firstlineno",
    "co_flags", "co_freevars", "co_kwonlyargcount", "co_linetable", "co_name", "co_names", "co_nlocals",
    "co_posonlyargcount", "co_qualname", "co_stacksize", "co_varnames"]

  /** The constants `_code_value` accepts, all the way down. */
  predicate Supported(c: Const)
    decreases c
  {
    match c
    case Code(_, fields) => |fields| == |FIELDS| && AllSupported(fields)
    case Tuple(items) => AllSupported(items)
    case Listing(items) => AllSupported(items)
    case FrozenSet(items) => AllSupported(items)
    case _ => c != Unsupported
  }

  predicate AllSupported(items: seq<Const>)
    decreases items
  {
    forall i | 0 <= i < |items| :: Supported(items[i])
  }

  function Hex(bytes: Bytes): string {
    if bytes == [] then [] else [HEX[bytes[0] as int / 16], HEX[bytes[0] as int % 16]] + Hex(bytes[1..])
  }

  function Tagged(key: string, value: Json): Json { Object([Member(key, value)]) }

  function Canonical(v: Json): string { Render(v) }

  function EncodeAll(items: seq<Const>): (r: seq<Json>)
    requires AllSupported(items)
    ensures |r| == |items| && forall i | 0 <= i < |r| :: r[i] == Encode(items[i])
    decreases items
  {
    seq(|items|, i requires 0 <= i < |items| => Encode(items[i]))
  }

  function FieldMembers(values: seq<Json>): seq<Member>
    requires |values| == |FIELDS|
  {
    seq(|FIELDS|, i requires 0 <= i < |FIELDS| => Member(FIELDS[i], values[i]))
  }

  /** `_code_value` on supported constants. */
  function Encode(c: Const): Json
    requires Supported(c)
    decreases c
  {
    match c
    case Code(_, fields) => Object(FieldMembers(EncodeAll(fields)))
    case ByteString(bytes) => Tagged("bytes", Str(Hex(bytes)))
    case Tuple(items) => Array(EncodeAll(items))
    case Listing(items) => Array(EncodeAll(items))
    case FrozenSet(items) => Tagged("frozenset", Array(Sorted(EncodeAll(items), v => Canonical(v))))
    case Float(hex) => Tagged("float", Str(hex))
    case Complex(re, im) => Tagged("complex", Array([Str(re), Str(im)]))
    case Ellipsis => Tagged("ellipsis", Bool(true))
    case Nothing => Null
    case Text(text) => Str(text)
    case Integer(number) => Int(number)
    case Truth(truth) => Bool(truth)
  }

  function AsArray(values: Result<seq<Json>>): Result<Json> { if values.Ok? then Ok(Array(values.value)) else Rejected }

  /** `_code_value`: an unsupported constant is found on the way down and fails the whole value. */
  function CodeValueOf(c: Const): Result<Json>
    decreases c
  {
    match c
    case Code(_, fields) =>
      if |fields| != |FIELDS| then Rejected
      else
        (match ValuesOf(fields)
         case Ok(values) => if |values| == |FIELDS| then Ok(Object(FieldMembers(values))) else Rejected
         case Rejected => Rejected)
    case ByteString(bytes) => Ok(Tagged("bytes", Str(Hex(bytes))))
    case Tuple(items) => AsArray(ValuesOf(items))
    case Listing(items) => AsArray(ValuesOf(items))
    case FrozenSet(items) =>
      (match ValuesOf(items)
       case Ok(values) => Ok(Tagged("frozenset", Array(Sorted(values, v => Canonical(v)))))
       case Rejected => Rejected)
    case Float(hex) => Ok(Tagged("float", Str(hex)))
    case Complex(re, im) => Ok(Tagged("complex", Array([Str(re), Str(im)])))
    case Ellipsis => Ok(Tagged("ellipsis", Bool(true)))
    case Nothing => Ok(Null)
    case Text(text) => Ok(Str(text))
    case Integer(number) => Ok(Int(number))
    case Truth(truth) => Ok(Bool(truth))
    case Unsupported => Rejected
  }

  /** The values of the items in turn, up to the first failure. */
  function ValuesOf(items: seq<Const>): Result<seq<Json>>
    decreases items
  {
    if items == [] then Ok([])
    else
      match CodeValueOf(items[0])
      case Rejected => Rejected
      case Ok(first) =>
        match ValuesOf(items[1..])
        case Rejected => Rejected
        case Ok(rest) => Ok([first] + rest)
  }

  /** The encoding fails exactly on constants that hold an unsupported one somewhere. */
  lemma {:induction false} ValueIffSupported(c: Const)
    ensures CodeValueOf(c).Ok? <==> Supported(c)
    ensures Supported(c) ==> CodeValueOf(c) == Ok(Encode(c))
    decreases c
  {
    match c
    case Code(_, fields) => ValuesIffSupported(fields);
    case Tuple(items) => ValuesIffSupported(items);
    case Listing(items) => ValuesIffSupported(items);
    case FrozenSet(items) => ValuesIffSupported(items);
    case _ =>
  }

  lemma SupportedFirst(items: seq<Const>)
    requires items != []
    ensures AllSupported(items) <==> Supported(items[0]) && AllSupported(items[1..])
    ensures AllSupported(items) ==> EncodeAll(items) == [Encode(items[0])] + EncodeAll(items[1..])
  {
    forall i | 0 <= i < |items| ensures items[i] == if i == 0 then items[0] else items[1..][i - 1] {}
    if AllSupported(items[1..]) && Supported(items[0]) {
      forall i | 0 <= i < |items| ensures Supported(items[i]) {
        if i > 0 { assert Supported(items[1..][i - 1]); }
      }
    }
  }

  lemma {:induction false} ValuesIffSupported(items: seq<Const>)
    ensures ValuesOf(items).Ok? <==> AllSupported(items)
    ensures AllSupported(items) ==> ValuesOf(items) == Ok(EncodeAll(items))
    decreases items
  {
    if items != [] {
      ValueIffSupported(items[0]);
      ValuesIffSupported(items[1..]);
      SupportedFirst(items);
    }
  }

  /** `canonical(_code_value(c))`. */
  function CodeText(c: Const): Result<string> {
    match CodeValueOf(c)
    case Ok(value) => Ok(Canonical(value))
    case Rejected => Rejected
  }

  predicate IsSequence(c: Const) { c.Tuple? || c.Listing? }

  /** Equal code: field by field and member by member, ignoring file names, the difference
      between tuples and lists, and the order in which a frozen set is iterated. */
  ghost predicate Same(a: Const, b: Const)
    decreases a
  {
    match a
    case Code(_, fields) =>
      b.Code? && |fields| == |b.fields| && forall i | 0 <= i < |fields| :: Same(fields[i], b.fields[i])
    case Tuple(items) =>
      IsSequence(b) && |items| == |b.items| && forall i | 0 <= i < |items| :: Same(items[i], b.items[i])
    case Listing(items) =>
      IsSequence(b) && |items| == |b.items| && forall i | 0 <= i < |items| :: Same(items[i], b.items[i])
    case FrozenSet(items) => b.FrozenSet? && PairOff(items, b.items)
    case _ => a == b
  }

  function Without<T>(s: seq<T>, k: nat): seq<T>
    requires k < |s|
  {
    s[..k] + s[k + 1..]
  }

  /** The members can be paired off, each with a member equal to it. */
  ghost predicate PairOff(a: seq<Const>, b: seq<Const>)
    decreases a
  {
    if a == [] then b == []
    else exists k | 0 <= k < |b| :: Same(a[0], b[k]) && PairOff(a[1..], Without(b, k))
  }

  lemma WithoutAt<T>(s: seq<T>, k: nat, j: nat)
    requires k < |s| && j < |s| - 1
    ensures |Without(s, k)| == |s| - 1 && Without(s, k)[j] == s[if j < k then j else j + 1]
  {
  }

  lemma SupportedWithout(items: seq<Const>, k: nat)
    requires AllSupported(items) && k < |items|
    ensures AllSupported(Without(items, k))
  {
  }

  lemma EncodedWithout(items: seq<Const>, k: nat)
    requires k < |items| && AllSupported(items) && AllSupported(Without(items, k))
    ensures EncodeAll(Without(items, k)) == Without(EncodeAll(items), k)
  {
    var fewer, encoded := Without(items, k), EncodeAll(items);
    var encodedFewer := EncodeAll(fewer);
    forall j | 0 <= j < |items| - 1 ensures encodedFewer[j] == Without(encoded, k)[j] {
      WithoutAt(items, k, j);
      WithoutAt(encoded, k, j);
    }
  }

  lemma {:induction false} HexInjective(a: Bytes, b: Bytes)
    requires Hex(a) == Hex(b)
    ensures a == b
  {
    if a != [] && b != [] {
      assert Hex(a)[0] == HEX[a[0] as int / 16] && Hex(b)[0] == HEX[b[0] as int / 16];
      assert Hex(a)[1] == HEX[a[0] as int % 16] && Hex(b)[1] == HEX[b[0] as int % 16];
      HexDigit(a[0] as int / 16, b[0] as int / 16);
      HexDigit(a[0] as int % 16, b[0] as int % 16);
      assert a[0] == b[0];
      assert Hex(a)[2..] == Hex(a[1..]) && Hex(b)[2..] == Hex(b[1..]);
      HexInjective(a[1..], b[1..]);
      FirstAndRest(a);
      FirstAndRest(b);
    }
  }

  lemma WithoutCounts<T>(s: seq<T>, k: nat)
    requires k < |s|
    ensures multiset(s) == multiset{s[k]} + multiset(Without(s, k))
  {
    assert s == s[..k] + [s[k]] + s[k + 1..];
  }

  lemma FirstCounts<T>(s: seq<T>)
    requires s != []
    ensures multiset(s) == multiset{s[0]} + multiset(s[1..])
  {
    FirstAndRest(s);
  }

  lemma MemberListsAgree(a: seq<Json>, b: seq<Json>)
    requires |a| == |b| == |FIELDS|
    ensures FieldMembers(a) == FieldMembers(b) ==> a == b
  {
    if FieldMembers(a) == FieldMembers(b) {
      forall i | 0 <= i < |a| ensures a[i] == b[i] {
        assert FieldMembers(a)[i].value == FieldMembers(b)[i].value;
      }
    }
  }

  /** Sorted by canonical text, two collections look alike exactly when they hold the same values. */
  lemma SortedAlike(a: seq<Json>, b: seq<Json>)
    ensures Sorted(a, v => Canonical(v)) == Sorted(b, v => Canonical(v)) <==> multiset(a) == multiset(b)
  {
    var key := v => Canonical(v);
    assert multiset(Sorted(a, key)) == multiset(a) && multiset(Sorted(b, key)) == multiset(b);
    if multiset(a) == multiset(b) {
      forall i, j | 0 <= i < |a| && 0 <= j < |a| && key(a[i]) == key(a[j]) ensures a[i] == a[j] {
        RenderInjective(a[i], a[j]);
      }
      SortedIgnoresArrival(a, b, key);
    }
  }

  lemma {:induction false} EncodesEach(a: seq<Const>, b: seq<Const>)
    requires AllSupported(a) && AllSupported(b)
    ensures EncodeAll(a) == EncodeAll(b) <==>
              |a| == |b| && forall i | 0 <= i < |a| :: Same(a[i], b[i])
    decreases a
  {
    if |a| == |b| {
      forall i | 0 <= i < |a| ensures EncodeAll(a)[i] == EncodeAll(b)[i] <==> Same(a[i], b[i]) {
        EncodesSame(a[i], b[i]);
      }
    }
  }

  lemma Cancel<T>(x: T, a: multiset<T>, b: multiset<T>)
    ensures multiset{x} + a == multiset{x} + b <==> a == b
  {
    if multiset{x} + a == multiset{x} + b {
      assert a == multiset{x} + a - multiset{x} && b == multiset{x} + b - multiset{x};
    }
  }

  /** Pairing the first item off with an equal one leaves the question for the rest. */
  lemma PairingCounts<T>(a: seq<T>, b: seq<T>, k: nat)
    requires a != [] && k < |b| && a[0] == b[k]
    ensures multiset(a[1..]) == multiset(Without(b, k)) <==> multiset(a) == multiset(b)
  {
    FirstCounts(a);
    WithoutCounts(b, k);
    Cancel(a[0], multiset(a[1..]), multiset(Without(b, k)));
  }

  lemma SomewhereIn<T>(x: T, s: seq<T>) returns (k: nat)
    requires x in multiset(s)
    ensures k < |s| && s[k] == x
  {
    k :| k < |s| && s[k] == x;
  }

  lemma EncodedRest(items: seq<Const>)
    requires AllSupported(items) && items != []
    ensures AllSupported(items[1..]) && EncodeAll(items)[1..] == EncodeAll(items[1..])
  {
  }

  lemma {:induction false} PairsOffExactly(a: seq<Const>, b: seq<Const>)
    requires AllSupported(a) && AllSupported(b)
    ensures PairOff(a, b) <==> multiset(EncodeAll(a)) == multiset(EncodeAll(b))
    decreases a
  {
    if a == [] {
      if b != [] { assert EncodeAll(b)[0] in multiset(EncodeAll(b)); }
    } else {
      EncodedRest(a);
      forall k | 0 <= k < |b| && Same(a[0], b[k])
        ensures PairOff(a[1..], Without(b, k)) <==> multiset(EncodeAll(a)) == multiset(EncodeAll(b))
      {
        PairOffFirst(a, b, k);
      }
      if multiset(EncodeAll(a)) == multiset(EncodeAll(b)) {
        assert EncodeAll(a)[0] in multiset(EncodeAll(a));
        var k := SomewhereIn(EncodeAll(a)[0], EncodeAll(b));
        EncodesSame(a[0], b[k]);
      }
    }
  }

  lemma {:induction false} PairOffFirst(a: seq<Const>, b: seq<Const>, k: nat)
    requires AllSupported(a) && AllSupported(b) && a != [] && k < |b| && Same(a[0], b[k])
    ensures PairOff(a[1..], Without(b, k)) <==> multiset(EncodeAll(a)) == multiset(EncodeAll(b))
    decreases a, 0
  {
    EncodesSame(a[0], b[k]);
    SupportedWithout(b, k);
    EncodedWithout(b, k);
    EncodedRest(a);
    PairsOffExactly(a[1..], Without(b, k));
    PairingCounts(EncodeAll(a), EncodeAll(b), k);
  }

  /** What an encoding reveals about the kind of constant: its first key, or its kind of value. */
  function Tag(v: Json): string {
    match v
    case Object(members) => if members == [] then "" else members[0].key
    case Array(_) => "["
    case Null => "n"
    case Bool(_) => "b"
    case Int(_) => "i"
    case Str(_) => "s"
  }

  function ConstTag(c: Const): string {
    match c
    case Code(_, _) => "co_argcount"
    case ByteString(_) => "bytes"
    case Tuple(_) => "["
    case Listing(_) => "["
    case FrozenSet(_) => "frozenset"
    case Float(_) => "float"
    case Complex(_, _) => "complex"
    case Ellipsis => "ellipsis"
    case Nothing => "n"
    case Text(_) => "s"
    case Integer(_) => "i"
    case Truth(_) => "b"
    case Unsupported => ""
  }

  lemma FirstKey(values: seq<Json>)
    requires |values| == |FIELDS|
    ensures FieldMembers(values) != [] && FieldMembers(values)[0].key == "co_argcount"
  {
  }

  lemma TagTells(c: Const)
    requires Supported(c)
    ensures Tag(Encode(c)) == ConstTag(c)
  {
    if c.Code? { FirstKey(EncodeAll(c.fields)); }
  }

  lemma SameTag(a: Const, b: Const)
    requires Same(a, b)
    ensures ConstTag(a) == ConstTag(b)
  {
  }

  lemma TagKinds(a: Const, b: Const)
    requires ConstTag(a) == ConstTag(b)
    ensures IsSequence(a) <==> IsSequence(b)
    ensures !IsSequence(a) ==> (a.Code? <==> b.Code?) && (a.FrozenSet? <==> b.FrozenSet?)
    ensures (a.ByteString? <==> b.ByteString?) && (a.Float? <==> b.Float?) && (a.Complex? <==> b.Complex?)
    ensures (a.Text? <==> b.Text?) && (a.Integer? <==> b.Integer?) && (a.Truth? <==> b.Truth?)
    ensures (a.Ellipsis? <==> b.Ellipsis?) && (a.Nothing? <==> b.Nothing?)
  {
  }

  lemma SimpleEncodesSame(a: Const, b: Const)
    requires Supported(a) && Supported(b) && ConstTag(a) == ConstTag(b)
    requires !a.Code? && !IsSequence(a) && !a.FrozenSet?
    ensures Encode(a) == Encode(b) <==> Same(a, b)
  {
    TagKinds(a, b);
    if a.ByteString? && Hex(a.bytes) == Hex(b.bytes) { HexInjective(a.bytes, b.bytes); }
    if a.Complex? { assert [Str(a.re), Str(a.im)][0] == Str(a.re) && [Str(a.re), Str(a.im)][1] == Str(a.im); }
  }

  lemma CodeEncodes(a: Const, b: Const)
    requires Supported(a) && Supported(b) && a.Code? && b.Code?
    ensures Encode(a) == Encode(b) <==> EncodeAll(a.fields) == EncodeAll(b.fields)
  {
    MemberListsAgree(EncodeAll(a.fields), EncodeAll(b.fields));
  }

  lemma FrozenSetEncodes(a: Const, b: Const)
    requires Supported(a) && Supported(b) && a.FrozenSet? && b.FrozenSet?
    ensures Encode(a) == Encode(b) <==> multiset(EncodeAll(a.items)) == multiset(EncodeAll(b.items))
  {
    SortedAlike(EncodeAll(a.items), EncodeAll(b.items));
  }

  /** Constants of one kind that hold others. */
  lemma {:induction false} ItemsEncodeSame(a: Const, b: Const)
    requires Supported(a) && Supported(b) && (a.Code? || IsSequence(a) || a.FrozenSet?)
    requires (a.Code? <==> b.Code?) && (IsSequence(a) <==> IsSequence(b)) && (a.FrozenSet? <==> b.FrozenSet?)
    ensures Encode(a) == Encode(b) <==> Same(a, b)
    decreases a, 0
  {
    if a.Code? {
      EncodesEach(a.fields, b.fields);
      CodeEncodes(a, b);
    } else if a.FrozenSet? {
      PairsOffExactly(a.items, b.items);
      FrozenSetEncodes(a, b);
    } else {
      EncodesEach(a.items, b.items);
    }
  }

  /** Two constants have the same encoding exactly when they are the same code. */
  lemma {:induction false} EncodesSame(a: Const, b: Const)
    requires Supported(a) && Supported(b)
    ensures Encode(a) == Encode(b) <==> Same(a, b)
    decreases a, 1
  {
    TagTells(a);
    TagTells(b);
    if ConstTag(a) != ConstTag(b) {
      if Same(a, b) { SameTag(a, b); }
    } else {
      TagKinds(a, b);
      if a.Code? || IsSequence(a) || a.FrozenSet? { ItemsEncodeSame(a, b); } else { SimpleEncodesSame(a, b); }
    }
  }

  /** Texts are equal exactly for equal code; unsupported constants have none. */
  lemma TextsAgree(a: Const, b: Const)
    requires Supported(a) && Supported(b)
    ensures CodeText(a).Ok? && CodeText(b).Ok?
    ensures CodeText(a) == CodeText(b) <==> Same(a, b)
  {
    ValueIffSupported(a);
    ValueIffSupported(b);
    EncodesSame(a, b);
    if CodeText(a) == CodeText(b) { RenderInjective(Encode(a), Encode(b)); }
  }

  // ---------------------------------------------------------------- what is supported and what is the same

  /** The constants directly inside one. */
  function Parts(c: Const): seq<Const> {
    match c
    case Code(_, fields) => fields
    case Tuple(items) => items
    case Listing(items) => items
    case FrozenSet(items) => items
    case _ => []
  }

  /** `d` is `c` or somewhere inside it. */
  ghost predicate Inside(d: Const, c: Const)
    decreases c
  {
    d == c || exists i | 0 <= i < |Parts(c)| :: Inside(d, Parts(c)[i])
  }

  /** Code has seventeen fields that are compared, and nothing else is refused but what
      `_code_value` does not know. */
  predicate Known(d: Const) { d != Unsupported && (d.Code? ==> |d.fields| == 17) }

  lemma SupportedParts(c: Const)
    ensures Supported(c) <==> Known(c) && forall i | 0 <= i < |Parts(c)| :: Supported(Parts(c)[i])
  {
    assert |FIELDS| == 17;
    assert AllSupported(Parts(c)) <==> forall i | 0 <= i < |Parts(c)| :: Supported(Parts(c)[i]);
  }

  /** A constant is supported exactly when it and everything inside it is known. */
  lemma {:induction false} SupportedMeans(c: Const)
    ensures Supported(c) <==> forall d | Inside(d, c) :: Known(d)
    decreases c
  {
    SupportedParts(c);
    assert Inside(c, c);
    forall i | 0 <= i < |Parts(c)|
      ensures Supported(Parts(c)[i]) <==> forall d | Inside(d, Parts(c)[i]) :: Known(d)
    {
      SupportedMeans(Parts(c)[i]);
    }
    if forall d | Inside(d, c) :: Known(d) {
      forall i, d | 0 <= i < |Parts(c)| && Inside(d, Parts(c)[i]) ensures Known(d) { assert Inside(d, c); }
    }
  }

  lemma {:induction false} SameReflexive(c: Const)
    ensures Same(c, c)
    decreases c
  {
    match c
    case Code(_, fields) => forall i | 0 <= i < |fields| { SameReflexive(fields[i]); }
    case Tuple(items) => forall i | 0 <= i < |items| { SameReflexive(items[i]); }
    case Listing(items) => forall i | 0 <= i < |items| { SameReflexive(items[i]); }
    case FrozenSet(items) => ReorderedPairOff(items, items);
    case _ =>
  }

  lemma {:induction false} ReorderedPairOff(a: seq<Const>, b: seq<Const>)
    requires multiset(a) == multiset(b)
    ensures PairOff(a, b)
    decreases a
  {
    if a == [] {
      assert |multiset(b)| == 0 && |b| == 0;
    } else {
      FirstCounts(a);
      var k := SomewhereIn(a[0], b);
      SameReflexive(a[0]);
      PairingCounts(a, b, k);
      ReorderedPairOff(a[1..], Without(b, k));
      assert Same(a[0], b[k]) && PairOff(a[1..], Without(b, k));
    }
  }

  /** What is not looked at: the file name, whether items are a tuple or a list, and in what order
      the members of a frozen set come. */
  lemma SameWhatever(name: string, other: string, fields: seq<Const>, items: seq<Const>, reordered: seq<Const>)
    requires multiset(items) == multiset(reordered)
    ensures Same(Code(name, fields), Code(other, fields))
    ensures Same(Tuple(items), Listing(items)) && Same(Listing(items), Tuple(items))
    ensures Same(FrozenSet(items), FrozenSet(reordered))
  {
    forall i | 0 <= i < |fields| { SameReflexive(fields[i]); }
    forall i | 0 <= i < |items| { SameReflexive(items[i]); }
    ReorderedPairOff(items, reordered);
  }

  /** Without lists, frozen sets and file names there is nothing of that kind. */
  predicate Plain(c: Const)
    decreases c
  {
    match c
    case Code(name, fields) => name == "" && forall i | 0 <= i < |fields| :: Plain(fields[i])
    case Tuple(items) => forall i | 0 <= i < |items| :: Plain(items[i])
    case Listing(_) => false
    case FrozenSet(_) => false
    case _ => true
  }

  /** And then the same code is equal code. */
  lemma {:induction false} SameIsEqual(a: Const, b: Const)
    requires Plain(a) && Plain(b)
    ensures Same(a, b) <==> a == b
    decreases a
  {
    if Same(a, b) {
      match a
      case Code(_, fields) => forall i | 0 <= i < |fields| { SameIsEqual(fields[i], b.fields[i]); }
      case Tuple(items) => forall i | 0 <= i < |items| { SameIsEqual(items[i], b.items[i]); }
      case _ =>
    } else {
      SameReflexive(a);
    }
  }

  /** What the file system says: the staged source lies below the source root, and which
      absolute file names do. */
  datatype Disk = Disk(sourceInside: bool, absolute: string -> bool, inside: string -> bool)

  /** The recorded file name: below the source root, or a safe relative path once its
      backslashes are turned. */
  predicate FilenameAccepted(filename: string, disk: Disk) {
    if disk.absolute(filename) then disk.inside(filename) else DependencyTree.SafeRelative(Slashed(filename))
  }

  /** Which recorded names are accepted: an absolute one below the source root; a relative one by
      its segments, however its slashes are written. */
  lemma FilenameBySegments(filename: string, disk: Disk, parts: seq<string>)
    requires parts != [] && Slashed(filename) == Join(parts, '/') && forall part | part in parts :: '/' !in part
    ensures disk.absolute(filename) ==> (FilenameAccepted(filename, disk) <==> disk.inside(filename))
    ensures !disk.absolute(filename) ==>
              (FilenameAccepted(filename, disk) <==> forall part | part in parts :: DependencyTree.SafeSegment(part))
  {
    DependencyTree.SafeBySegments(parts);
  }

  /** `verify_compiled_source`: the two digests are compared. */
  function VerifyCompiledSource(code: Const, expected: Const, disk: Disk, sha: string -> string): Result<string> {
    if !code.Code? || !disk.sourceInside || !FilenameAccepted(code.filename, disk) then Rejected
    else if CodeText(code).Rejected? || CodeText(expected).Rejected? then Rejected
    else if sha(CodeText(code).value) != sha(CodeText(expected).value) then Rejected
    else Ok(sha(CodeText(code).value))
  }

  /** Compiled code is accepted exactly when it is the code its staged source compiles to. */
  lemma AcceptedIffSameCode(code: Const, expected: Const, disk: Disk, sha: string -> string)
    requires Injective(sha)
    ensures VerifyCompiledSource(code, expected, disk, sha).Ok? <==>
              && code.Code? && disk.sourceInside && FilenameAccepted(code.filename, disk)
              && Supported(code) && Supported(expected) && Same(code, expected)
  {
    ValueIffSupported(code);
    ValueIffSupported(expected);
    if Supported(code) && Supported(expected) {
      TextsAgree(code, expected);
    }
  }
}
