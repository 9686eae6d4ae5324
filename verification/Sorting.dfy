/** Python's `sorted(items, key=...)` with text keys, and the facts the tools rely on:
    it permutes, it orders, and with distinct keys the order is the only one possible. */
module Sorting {
  import opened Text

  /** The key of texts that are sorted as they are. */
  function Self(name: string): string { name }

  ghost predicate OrderedBy<T(!new)>(s: seq<T>, key: T -> string) {
    forall i, j :: 0 <= i < j < |s| ==> StrLe(key(s[i]), key(s[j]))
  }

  ghost predicate DistinctKeys<T(!new)>(s: seq<T>, key: T -> string) {
    forall i, j :: 0 <= i < j < |s| ==> key(s[i]) != key(s[j])
  }

  /** Equal keys mean equal items: weaker than distinct keys, as an item may occur twice. */
  ghost predicate KeysIdentify<T(!new)>(s: seq<T>, key: T -> string) {
    forall i, j :: 0 <= i < |s| && 0 <= j < |s| && key(s[i]) == key(s[j]) ==> s[i] == s[j]
  }

  function Insert<T>(x: T, s: seq<T>, key: T -> string): (r: seq<T>)
    ensures multiset(r) == multiset{x} + multiset(s)
  {
    if s == [] then [x]
    else if StrLe(key(x), key(s[0])) then [x] + s
    else
      assert s == [s[0]] + s[1..];
      [s[0]] + Insert(x, s[1..], key)
  }

  /** Stable, because equal keys keep their order: the new head goes before its equals. */
  function Sorted<T>(s: seq<T>, key: T -> string): (r: seq<T>)
    ensures multiset(r) == multiset(s)
    ensures |r| == |s|
  {
    if s == [] then []
    else
      assert s == [s[0]] + s[1..];
      var r := Insert(s[0], Sorted(s[1..], key), key);
      assert |r| == |multiset(r)| && |s| == |multiset(s)|;
      r
  }

  lemma DistinctKeysMore<T(!new)>(s: seq<T>, x: T, key: T -> string)
    requires DistinctKeys(s, key) && forall y | y in s :: key(y) != key(x)
    ensures DistinctKeys(s + [x], key)
    ensures forall y :: y in s + [x] <==> y in s || y == x
  {
    var more := s + [x];
    forall i, j | 0 <= i < j < |more| ensures key(more[i]) != key(more[j]) {
      assert more[i] == s[i] && s[i] in s;
    }
  }

  lemma SortedMembers<T>(s: seq<T>, key: T -> string)
    ensures forall x :: x in Sorted(s, key) <==> x in s
  {
    var r := Sorted(s, key);
    assert forall x :: x in r <==> x in multiset(r);
    assert forall x :: x in s <==> x in multiset(s);
  }

  lemma {:induction false} InsertOrdered<T(!new)>(x: T, s: seq<T>, key: T -> string)
    requires OrderedBy(s, key)
    ensures OrderedBy(Insert(x, s, key), key)
  {
    if s == [] {
    } else if StrLe(key(x), key(s[0])) {
      forall j | 0 <= j < |s| ensures StrLe(key(x), key(s[j])) {
        if j > 0 { StrLeTransitive(key(x), key(s[0]), key(s[j])); }
      }
    } else {
      InsertOrdered(x, s[1..], key);
      StrLeTotal(key(x), key(s[0]));
      var rest := Insert(x, s[1..], key);
      forall j | 0 <= j < |rest| ensures StrLe(key(s[0]), key(rest[j])) {
        assert rest[j] in multiset(rest);
        assert rest[j] == x || rest[j] in s[1..];
      }
    }
  }

  lemma {:induction false} SortedOrdered<T(!new)>(s: seq<T>, key: T -> string)
    ensures OrderedBy(Sorted(s, key), key)
  {
    if s != [] {
      SortedOrdered(s[1..], key);
      InsertOrdered(s[0], Sorted(s[1..], key), key);
    }
  }

  lemma {:induction false} DistinctKeysOnce<T(!new)>(s: seq<T>, key: T -> string)
    requires DistinctKeys(s, key)
    ensures forall x :: x in s ==> multiset(s)[x] == 1
  {
    if s != [] {
      DistinctKeysOnce(s[1..], key);
      assert s == [s[0]] + s[1..];
      assert s[0] !in s[1..];
    }
  }

  lemma TwoPlaces<T>(t: seq<T>, i: nat, j: nat)
    requires i < j < |t|
    ensures multiset(t) >= multiset{t[i], t[j]}
  {
    assert t == t[..i] + [t[i]] + t[i+1..j] + [t[j]] + t[j+1..];
  }

  lemma DistinctKeysPermute<T(!new)>(s: seq<T>, t: seq<T>, key: T -> string)
    requires multiset(s) == multiset(t) && DistinctKeys(s, key)
    ensures DistinctKeys(t, key)
  {
    DistinctKeysOnce(s, key);
    forall i, j | 0 <= i < j < |t| ensures key(t[i]) != key(t[j]) {
      assert t[i] in multiset(s) && t[j] in multiset(s);
      assert t[i] != t[j] by { TwoPlaces(t, i, j); }
      var a :| 0 <= a < |s| && s[a] == t[i];
      var b :| 0 <= b < |s| && s[b] == t[j];
    }
  }

  /** An item that is first in one ordered arrangement cannot come later in another. */
  lemma SameFirst<T(!new)>(s: seq<T>, t: seq<T>, key: T -> string)
    requires multiset(s) == multiset(t) && s != []
    requires OrderedBy(s, key) && OrderedBy(t, key) && KeysIdentify(s, key)
    ensures t != [] && s[0] == t[0]
  {
    assert s[0] in multiset(t);
    assert t[0] in multiset(s);
    var a :| 0 <= a < |t| && t[a] == s[0];
    var b :| 0 <= b < |s| && s[b] == t[0];
    StrLeReflexive(key(s[0]));
    assert StrLe(key(s[0]), key(s[b])) && StrLe(key(t[0]), key(t[a]));
    StrLeAntisymmetric(key(s[0]), key(t[0]));
  }

  lemma RestCounts<T>(s: seq<T>)
    requires s != []
    ensures s == [s[0]] + s[1..] && multiset(s[1..]) == multiset(s) - multiset{s[0]}
  {
    assert s == [s[0]] + s[1..];
  }

  /** The first of some items is found among them in another order. */
  lemma WithoutOne<T>(a: seq<T>, b: seq<T>) returns (k: nat)
    requires multiset(a) == multiset(b) && a != []
    ensures k < |b| && b[k] == a[0] && multiset(a[1..]) == multiset(b[..k] + b[k + 1..])
  {
    assert a[0] in multiset(b);
    k :| 0 <= k < |b| && b[k] == a[0];
    RestCounts(a);
    assert b == b[..k] + [b[k]] + b[k + 1..];
  }

  /** Only one arrangement of items identified by their keys is in order. */
  lemma {:induction false} OrderIsUnique<T(!new)>(s: seq<T>, t: seq<T>, key: T -> string)
    requires multiset(s) == multiset(t)
    requires OrderedBy(s, key) && OrderedBy(t, key) && KeysIdentify(s, key)
    ensures s == t
  {
    assert |s| == |multiset(s)| == |multiset(t)| == |t|;
    if s != [] {
      SameFirst(s, t, key);
      RestCounts(s);
      RestCounts(t);
      OrderIsUnique(s[1..], t[1..], key);
    }
  }

  lemma PermutedKeysIdentify<T(!new)>(s: seq<T>, t: seq<T>, key: T -> string)
    requires multiset(s) == multiset(t) && KeysIdentify(s, key)
    ensures KeysIdentify(t, key)
  {
    forall i, j | 0 <= i < |t| && 0 <= j < |t| && key(t[i]) == key(t[j]) ensures t[i] == t[j] {
      assert t[i] in multiset(s) && t[j] in multiset(s);
    }
  }

  /** The order in which items arrive does not matter once they are sorted. */
  lemma SortedIgnoresArrival<T(!new)>(s: seq<T>, t: seq<T>, key: T -> string)
    requires multiset(s) == multiset(t) && KeysIdentify(s, key)
    ensures Sorted(s, key) == Sorted(t, key)
  {
    SortedOrdered(s, key);
    SortedOrdered(t, key);
    PermutedKeysIdentify(s, Sorted(s, key), key);
    OrderIsUnique(Sorted(s, key), Sorted(t, key), key);
  }
}
