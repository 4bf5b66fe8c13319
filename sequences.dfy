/**
 * Removal by identity from an ordered list: what `array_diff($list, array($x))`
 * is used for on lists of objects.
 */
module Sequences {

  /** `s` with every occurrence of `x` taken out, the rest in their original order. */
  function Without<T(==)>(s: seq<T>, x: T): (r: seq<T>)
    ensures x !in r
    ensures |r| <= |s|
  {
    if s == [] then []
    else (if s[0] == x then [] else [s[0]]) + Without(s[1..], x)
  }

  /** Every other element keeps its number of occurrences; `x` has none left. */
  lemma {:induction false} WithoutCounts<T>(s: seq<T>, x: T)
    ensures multiset(Without(s, x)) == multiset(s)[x := 0]
  {
    if s != [] {
      WithoutCounts(s[1..], x);
      assert s == [s[0]] + s[1..];
    }
  }

  /** Removal distributes over concatenation: the relative order of the kept elements is unchanged. */
  lemma {:induction false} WithoutConcat<T>(a: seq<T>, b: seq<T>, x: T)
    ensures Without(a + b, x) == Without(a, x) + Without(b, x)
  {
    if a == [] {
      assert a + b == b;
    } else {
      assert (a + b)[1..] == a[1..] + b;
      WithoutConcat(a[1..], b, x);
    }
  }

  /** Removing an element that is not there changes nothing. */
  lemma {:induction false} WithoutAbsent<T>(s: seq<T>, x: T)
    requires x !in s
    ensures Without(s, x) == s
  {
    if s != [] {
      WithoutAbsent(s[1..], x);
    }
  }

  /** Removing the same element twice is the same as removing it once. */
  lemma WithoutIdempotent<T>(s: seq<T>, x: T)
    ensures Without(Without(s, x), x) == Without(s, x)
  {
    WithoutAbsent(Without(s, x), x);
  }

  /** Removing one element never removes another: every other element keeps its count. */
  lemma WithoutKeepsOthers<T>(s: seq<T>, x: T, y: T)
    requires y != x
    ensures multiset(Without(s, x))[y] == multiset(s)[y]
    ensures y in Without(s, x) <==> y in s
  {
    WithoutCounts(s, x);
  }
}
