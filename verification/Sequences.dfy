/** Slices of slices, and slices side by side. */
module Sequences {

  lemma Join<T>(s: seq<T>, a: nat, b: nat, c: nat)
    requires a <= b <= c <= |s|
    ensures s[a..b] + s[b..c] == s[a..c]
  {
  }

  lemma Subslice<T>(s: seq<T>, i: nat, j: nat, a: nat, b: nat)
    requires i <= j <= |s| && a <= b <= j - i
    ensures s[i..j][a..b] == s[i + a..i + b]
  {
    var t := s[i..j];
    assert forall k | a <= k < b :: t[k] == s[i + k];
  }

  lemma Front<T>(a: seq<T>, b: seq<T>, c: seq<T>)
    ensures (a + b + c)[..|a| + |b|] == a + b
  {
  }

  // A prefix of `s` behind `a`, made longer.
  lemma Extend<T>(a: seq<T>, s: seq<T>, k: nat, n: nat)
    requires k + n <= |s|
    ensures (a + s[..k]) + s[k..k + n] == a + s[..k + n]
  {
  }

  // The same, in the words of a loop over `s`.
  lemma ExtendBy<T>(done: seq<T>, a: seq<T>, s: seq<T>, k: nat, n: nat)
    requires k + n <= |s| && done == a + s[..k]
    ensures done + s[k..][..n] == a + s[..k + n]
  {
    assert s[k..][..n] == s[k..k + n];
    Extend(a, s, k, n);
  }
}
