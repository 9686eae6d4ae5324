/** Adding up a size over a sequence, in any order. */
module Sums {
  import opened Sorting

  function Sum<T>(s: seq<T>, size: T -> nat): nat {
    if s == [] then 0 else size(s[0]) + Sum(s[1..], size)
  }

  lemma {:induction false} SumPlus<T>(a: seq<T>, b: seq<T>, size: T -> nat)
    ensures Sum(a + b, size) == Sum(a, size) + Sum(b, size)
  {
    if a == [] {
      assert a + b == b;
    } else {
      assert (a + b)[1..] == a[1..] + b;
      SumPlus(a[1..], b, size);
    }
  }

  lemma SumAround<T>(s: seq<T>, k: nat, size: T -> nat)
    requires k < |s|
    ensures Sum(s, size) == size(s[k]) + Sum(s[..k] + s[k + 1..], size)
  {
    assert s == s[..k] + ([s[k]] + s[k + 1..]);
    SumPlus(s[..k], [s[k]] + s[k + 1..], size);
    assert ([s[k]] + s[k + 1..])[1..] == s[k + 1..];
    SumPlus(s[..k], s[k + 1..], size);
  }

  /** The order does not matter. */
  lemma {:induction false} SumPermutes<T>(a: seq<T>, b: seq<T>, size: T -> nat)
    requires multiset(a) == multiset(b)
    ensures Sum(a, size) == Sum(b, size)
  {
    assert |multiset(a)| == |a| && |multiset(b)| == |b|;
    if a != [] {
      var k := WithoutOne(a, b);
      SumAround(b, k, size);
      SumPermutes(a[1..], b[..k] + b[k + 1..], size);
    }
  }

  lemma SumLast<T>(s: seq<T>, n: nat, size: T -> nat)
    requires n < |s|
    ensures Sum(s[..n + 1], size) == Sum(s[..n], size) + size(s[n])
  {
    assert s[..n + 1] == s[..n] + [s[n]];
    SumPlus(s[..n], [s[n]], size);
    assert [s[n]][1..] == [];
  }
}
