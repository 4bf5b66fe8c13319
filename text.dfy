/**
 * The PHP string primitives the rule matcher relies on, modelled on byte
 * strings as `seq<char>`: binary-safe `strncmp` and `substr` with a single
 * (possibly negative) offset, as PHP 8 defines them.
 */
module Text {

  function Min(a: int, b: int): int { if a <= b then a else b }

  /** `p` is an initial segment of `s`. */
  predicate IsPrefix(p: string, s: string) {
    |p| <= |s| && s[..|p|] == p
  }

  /** `t` is a final segment of `s`. */
  predicate IsSuffix(t: string, s: string) {
    |t| <= |s| && s[|s| - |t|..] == t
  }

  /**
   * `strncmp(a, b, n)`: compares at most the first `n` characters of both
   * strings, character by character, and never reads past either string.
   * When the compared characters agree, the result is decided by which of
   * the two strings ran out first within the first `n` characters.
   * Only the sign of the result is modelled.
   */
  function Strncmp(a: string, b: string, n: nat): (r: int)
    ensures -1 <= r <= 1
    ensures r == 0 <==> Min(n, |a|) == Min(n, |b|) && a[..Min(n, |a|)] == b[..Min(n, |b|)]
    decreases n
  {
    if n == 0 || (a == [] && b == []) then 0
    else if a == [] then -1
    else if b == [] then 1
    else if a[0] != b[0] then (if a[0] < b[0] then -1 else 1)
    else
      var r := Strncmp(a[1..], b[1..], n - 1);
      assert r == 0 ==> a[..Min(n, |a|)] == [a[0]] + a[1..][..Min(n - 1, |a| - 1)];
      assert a[..Min(n, |a|)] == b[..Min(n, |b|)] ==> a[1..][..Min(n - 1, |a| - 1)] == a[..Min(n, |a|)][1..];
      r
  }

  /**
   * `substr(s, offset)` without a length: a non-negative offset skips that
   * many characters (past the end gives ""); a negative offset keeps the last
   * `-offset` characters (the whole string when it is shorter than that).
   * An offset of 0, which is what `-$length` is for `$length == 0`, keeps
   * the whole string.
   */
  function Substr(s: string, offset: int): (r: string)
    ensures |r| <= |s| && r == s[|s| - |r|..]
    ensures 0 <= offset <= |s| ==> |r| == |s| - offset
    ensures offset < 0 && -offset <= |s| ==> |r| == -offset
    ensures offset > |s| ==> r == ""
    ensures -offset > |s| ==> r == s
  {
    if offset >= 0 then (if offset > |s| then "" else s[offset..])
    else if -offset > |s| then s
    else s[|s| + offset..]
  }

  /** A prefix test through `strncmp` over the prefix's own length is a plain prefix test. */
  lemma StrncmpOverPrefixLength(p: string, s: string)
    ensures Strncmp(p, s, |p|) == 0 <==> IsPrefix(p, s)
  {
  }

  /** `strncmp` over length 0 succeeds for every pair of strings. */
  lemma StrncmpEmptyLength(a: string, b: string)
    ensures Strncmp(a, b, 0) == 0
  {
  }

  /**
   * The suffix test `strlen(c) >= strlen(t) && substr(c, -strlen(t)) == t`:
   * for a non-empty `t` it is exactly "c ends with t"; for the empty `t` the
   * `substr` call keeps the whole of `c`, so it holds only for the empty `c`.
   */
  lemma SubstrSuffixTest(c: string, t: string)
    ensures (|c| >= |t| && Substr(c, -|t|) == t) <==> (if t == "" then c == "" else IsSuffix(t, c))
  {
  }
}
