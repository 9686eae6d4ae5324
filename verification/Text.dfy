/** Shared vocabulary: outcomes, byte strings, and the text operations (ordering by code
    point, splitting and joining on a separator) that the build tools use. */
module Text {

  datatype Option<+T> = None | Some(value: T) {
    function GetOr(default: T): T { if Some? then value else default }
  }

  /** The tools raise many error codes; a caller only sees that a step was refused. */
  datatype Result<+T> = Ok(value: T) | Rejected

  /** No two arguments give the same value, as the tools take of their hashes. */
  ghost predicate Injective<T(!new), U(!new)>(f: T -> U) { forall x, y :: f(x) == f(y) ==> x == y }

  newtype byte = x: int | 0 <= x < 256
  type Bytes = seq<byte>

  lemma TakeOneMore<T>(s: seq<T>, n: nat)
    requires n < |s|
    ensures s[..n + 1] == s[..n] + [s[n]]
  {
  }

  lemma TakeAll<T>(s: seq<T>)
    ensures s[..|s|] == s
  {
  }

  lemma DropTwice<T>(s: seq<T>, a: nat, b: nat)
    requires a + b <= |s|
    ensures s[a..][b..] == s[a + b..]
  {
  }

  lemma FirstThenTake<T>(s: seq<T>, n: nat)
    requires n < |s|
    ensures [s[0]] + s[1..][..n] == s[..n + 1]
  {
  }

  lemma Regroup<T>(a: seq<T>, b: seq<T>, c: seq<T>)
    ensures a + b + c == a + (b + c)
  {
  }

  lemma SameLengthSplit<T>(a: seq<T>, b: seq<T>, s: seq<T>, t: seq<T>)
    requires |a| == |b| && a + s == b + t
    ensures a == b && s == t
  {
    assert a == (a + s)[..|a|] && b == (b + t)[..|b|];
    assert s == (a + s)[|a|..] && t == (b + t)[|b|..];
  }

  /** Texts that agree begin alike. */
  lemma SameStart<T>(a: seq<T>, b: seq<T>, s: seq<T>, t: seq<T>)
    requires a != [] && b != [] && a + s == b + t
    ensures a[0] == b[0]
  {
    assert (a + s)[0] == a[0] && (b + t)[0] == b[0];
  }

  lemma FirstAndRest<T>(s: seq<T>)
    requires s != []
    ensures s == [s[0]] + s[1..]
  {
  }

  /** Python's `<=` on `str`: lexicographic by code point. */
  predicate StrLe(a: string, b: string) {
    a == [] || (b != [] && (a[0] < b[0] || (a[0] == b[0] && StrLe(a[1..], b[1..]))))
  }

  /** One text is a prefix of the other, or has the smaller character where they first differ. */
  lemma {:induction false} StrLeIsLexicographic(a: string, b: string)
    ensures StrLe(a, b) <==> a <= b || exists i :: 0 <= i < |a| && i < |b| && a[..i] == b[..i] && a[i] < b[i]
  {
    if a != [] && b != [] {
      FirstAndRest(a);
      FirstAndRest(b);
      if a[0] == b[0] {
        StrLeIsLexicographic(a[1..], b[1..]);
        assert a <= b <==> a[1..] <= b[1..];
        if StrLe(a, b) && !(a <= b) {
          var i :| 0 <= i < |a[1..]| && i < |b[1..]| && a[1..][..i] == b[1..][..i] && a[1..][i] < b[1..][i];
          FirstThenTake(a, i);
          FirstThenTake(b, i);
          assert a[..i + 1] == b[..i + 1] && a[i + 1] < b[i + 1];
        }
        if i :| 0 <= i < |a| && i < |b| && a[..i] == b[..i] && a[i] < b[i] {
          assert i > 0;
          assert a[..i][1..] == a[1..][..i - 1] && b[..i][1..] == b[1..][..i - 1];
          assert a[1..][i - 1] < b[1..][i - 1];
        }
      } else if a[0] < b[0] {
        assert a[..0] == b[..0];
      } else {
        forall i | 0 <= i < |a| && i < |b| && a[i] < b[i] ensures a[..i] != b[..i] {
          assert i > 0 && a[..i][0] != b[..i][0];
        }
      }
    }
  }

  lemma {:induction false} StrLeTotal(a: string, b: string)
    ensures StrLe(a, b) || StrLe(b, a)
  {
    if a != [] && b != [] && a[0] == b[0] {
      StrLeTotal(a[1..], b[1..]);
    }
  }

  lemma {:induction false} StrLeAntisymmetric(a: string, b: string)
    requires StrLe(a, b) && StrLe(b, a)
    ensures a == b
  {
    if a != [] && b != [] {
      StrLeAntisymmetric(a[1..], b[1..]);
      assert a == [a[0]] + a[1..] && b == [b[0]] + b[1..];
    }
  }

  lemma {:induction false} StrLeTransitive(a: string, b: string, c: string)
    requires StrLe(a, b) && StrLe(b, c)
    ensures StrLe(a, c)
  {
    if a != [] && a[0] == b[0] && b[0] == c[0] {
      StrLeTransitive(a[1..], b[1..], c[1..]);
    }
  }

  lemma {:induction false} StrLeReflexive(a: string)
    ensures StrLe(a, a)
  {
    if a != [] { StrLeReflexive(a[1..]); }
  }

  /** Python's `s.split(sep)` for a one-character separator: never empty. */
  function Split<T(==)>(s: seq<T>, sep: T): (parts: seq<seq<T>>)
    ensures |parts| > 0
    ensures forall i :: 0 <= i < |parts| ==> sep !in parts[i]
  {
    if s == [] then [[]]
    else
      var rest := Split(s[1..], sep);
      if s[0] == sep then [[]] + rest else [[s[0]] + rest[0]] + rest[1..]
  }

  /** Python's `sep.join(parts)`. */
  function Join<T>(parts: seq<seq<T>>, sep: T): seq<T> {
    if parts == [] then []
    else if |parts| == 1 then parts[0]
    else parts[0] + [sep] + Join(parts[1..], sep)
  }

  /** Splitting a text that starts with a separator-free field followed by a separator. */
  lemma {:induction false} SplitField<T>(field: seq<T>, sep: T, rest: seq<T>)
    requires sep !in field
    ensures Split(field + [sep] + rest, sep) == [field] + Split(rest, sep)
  {
    var s := field + [sep] + rest;
    if field == [] {
      assert s[1..] == rest;
    } else {
      assert s[1..] == field[1..] + [sep] + rest;
      SplitField(field[1..], sep, rest);
      assert field == [field[0]] + field[1..];
    }
  }

  lemma {:induction false} SplitWhole<T>(field: seq<T>, sep: T)
    requires sep !in field
    ensures Split(field, sep) == [field]
  {
    if field != [] { SplitWhole(field[1..], sep); assert field == [field[0]] + field[1..]; }
  }

  /** Splitting inverts joining, so joined paths determine their segments. */
  lemma {:induction false} SplitJoin<T>(parts: seq<seq<T>>, sep: T)
    requires parts != [] && forall p :: p in parts ==> sep !in p
    ensures Split(Join(parts, sep), sep) == parts
  {
    if |parts| == 1 {
      SplitWhole(parts[0], sep);
    } else {
      SplitField(parts[0], sep, Join(parts[1..], sep));
      SplitJoin(parts[1..], sep);
    }
  }

  lemma {:induction false} JoinSplit<T>(s: seq<T>, sep: T)
    ensures Join(Split(s, sep), sep) == s
  {
    if s != [] {
      JoinSplit(s[1..], sep);
      FirstAndRest(s);
    }
  }

  /** A joined text has the characters of its parts, and separators when there are several. */
  lemma {:induction false} JoinedCharacters<T>(parts: seq<seq<T>>, sep: T)
    ensures forall c :: c in Join(parts, sep) <==> (exists part :: part in parts && c in part) || (c == sep && |parts| > 1)
  {
    if |parts| == 1 {
      assert forall part :: part in parts <==> part == parts[0];
    } else if parts != [] {
      JoinedCharacters(parts[1..], sep);
      FirstAndRest(parts);
      assert forall part :: part in parts <==> part == parts[0] || part in parts[1..];
    }
  }

  lemma JoinInjective<T>(a: seq<seq<T>>, b: seq<seq<T>>, sep: T)
    requires a != [] && forall p :: p in a ==> sep !in p
    requires b != [] && forall p :: p in b ==> sep !in p
    requires Join(a, sep) == Join(b, sep)
    ensures a == b
  {
    SplitJoin(a, sep);
    SplitJoin(b, sep);
  }

  /** `path.replace("\\", "/")`. */
  function Slashed(path: string): (r: string)
    ensures |r| == |path| && '\\' !in r
    ensures r == path <==> '\\' !in path
  {
    if path == [] then []
    else
      assert path == [path[0]] + path[1..];
      [if path[0] == '\\' then '/' else path[0]] + Slashed(path[1..])
  }

  lemma {:induction false} SlashedAt(path: string, i: nat)
    requires i < |path|
    ensures Slashed(path)[i] == if path[i] == '\\' then '/' else path[i]
  {
    if i > 0 { SlashedAt(path[1..], i - 1); }
  }

  /** Fields that each end with the separator, as `-z` output writes them. */
  function Terminated<T>(fields: seq<seq<T>>, sep: T): seq<T> {
    if fields == [] then [] else fields[0] + [sep] + Terminated(fields[1..], sep)
  }

  lemma TerminatedFirst<T>(fields: seq<seq<T>>, rest: seq<T>, sep: T)
    requires fields != []
    ensures Terminated(fields, sep) + rest == fields[0] + [sep] + (Terminated(fields[1..], sep) + rest)
  {
    Regroup(fields[0] + [sep], Terminated(fields[1..], sep), rest);
  }

  lemma FirstAndRestOf<T>(s: seq<T>, t: seq<T>)
    requires s != []
    ensures [s[0]] + (s[1..] + t) == s + t
  {
  }

  /** Splitting gives back terminated fields, then whatever the rest splits into. */
  lemma {:induction false} SplitTerminated<T>(fields: seq<seq<T>>, rest: seq<T>, sep: T)
    requires forall f | f in fields :: sep !in f
    ensures Split(Terminated(fields, sep) + rest, sep) == fields + Split(rest, sep)
  {
    if fields == [] {
      assert [] + rest == rest;
      assert fields + Split(rest, sep) == Split(rest, sep);
    } else {
      TerminatedFirst(fields, rest, sep);
      SplitField(fields[0], sep, Terminated(fields[1..], sep) + rest);
      SplitTerminated(fields[1..], rest, sep);
      FirstAndRestOf(fields, Split(rest, sep));
    }
  }
}
