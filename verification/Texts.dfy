/** Reading a text at a position. */
module Texts {

  /** The char at a position; past the end the NUL that terminates every C string. */
  function At(s: string, p: nat): char {
    if p < |s| then s[p] else '\0'
  }

  /** t stands in s at position p. */
  predicate Follows(s: string, p: nat, t: string) {
    p + |t| <= |s| && s[p..p + |t|] == t
  }

  lemma FollowsSplit(s: string, p: nat, a: string, b: string)
    requires Follows(s, p, a + b)
    ensures Follows(s, p, a) && Follows(s, p + |a|, b)
  {
    assert s[p..p + |a|] == (a + b)[..|a|];
    assert s[p + |a|..p + |a| + |b|] == (a + b)[|a|..];
  }

  lemma FollowsAt(s: string, p: nat, t: string, k: nat)
    requires Follows(s, p, t) && k < |t|
    ensures p + k < |s| && s[p + k] == t[k] == At(s, p + k)
  {
    assert s[p..p + |t|][k] == t[k];
  }
}
