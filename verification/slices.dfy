/** Where the parts of a concatenated string lie. */
module Slices {
  /** The two halves of a concatenation. */
  lemma Split(a: string, b: string)
    ensures (a + b)[..|a|] == a && (a + b)[|a|..] == b
  {
  }

  /** A string whose suffix from i is m + q holds m at i and q after it. */
  lemma Step(s: string, i: nat, m: string, q: string)
    requires i <= |s| && s[i..] == m + q
    ensures i + |m| <= |s| && s[i..i + |m|] == m && s[i + |m|..] == q
  {
    assert s[i..i + |m|] == s[i..][..|m|];
    assert s[i + |m|..] == s[i..][|m|..];
  }

  /** A slice inside the first part of a concatenation is a slice of that part. */
  lemma Prefix(a: string, b: string, i: nat, j: nat)
    requires i <= j <= |a|
    ensures (a + b)[i..j] == a[i..j]
  {
  }
}
