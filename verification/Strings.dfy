/** First occurrences in strings, as the source's string library reports them. */
module Strings {
  predicate At(s: string, sub: string, i: nat) {
    i + |sub| <= |s| && s[i..i + |sub|] == sub
  }

  /** The first occurrence of sub at or after i, or -1. */
  function IndexFrom(s: string, sub: string, i: nat): (r: int)
    requires i <= |s|
    ensures r == -1 || (i <= r && At(s, sub, r))
    ensures forall j: nat :: i <= j && (r == -1 || j < r) ==> !At(s, sub, j)
    decreases |s| - i
  {
    if At(s, sub, i) then i
    else if i == |s| then -1
    else IndexFrom(s, sub, i + 1)
  }

  function Index(s: string, sub: string): (r: int)
    ensures r == -1 || (0 <= r && At(s, sub, r))
    ensures forall j: nat :: r == -1 || j < r ==> !At(s, sub, j)
  {
    IndexFrom(s, sub, 0)
  }

  /** An occurrence with none before it is the first. */
  lemma {:induction false} FirstIs(s: string, sub: string, i: nat)
    requires At(s, sub, i) && forall j: nat :: j < i ==> !At(s, sub, j)
    ensures Index(s, sub) == i
  {}

  /** An occurrence shows its characters in place. */
  lemma {:induction false} AtShows(s: string, sub: string, i: nat, k: nat)
    requires At(s, sub, i) && k < |sub|
    ensures s[i + k] == sub[k]
  {
    assert s[i..i + |sub|][k] == sub[k];
  }
}
