/** Order-preservation facts about sequences. */
module Sequences {

  /** `sub` is obtained from `s` by dropping elements: every element of `sub` occurs in
      `s`, and in the same relative order. */
  ghost predicate IsSubsequence<T>(sub: seq<T>, s: seq<T>)
    decreases |s|
  {
    if |sub| == 0 then true
    else if |s| == 0 then false
    else (sub[0] == s[0] && IsSubsequence(sub[1..], s[1..])) || IsSubsequence(sub, s[1..])
  }

  /** No element occurs twice. */
  predicate Distinct<T(==)>(s: seq<T>) {
    forall i, j :: 0 <= i < j < |s| ==> s[i] != s[j]
  }

  /** A sequence in which every element occurs at most once is duplicate-free. */
  lemma CountsAtMostOneIsDistinct(s: seq<int>)
    requires forall x :: multiset(s)[x] <= 1
    ensures Distinct(s)
  {
    forall i, j | 0 <= i < j < |s|
      ensures s[i] != s[j]
    {
      var x := s[j];
      assert s == s[..j] + s[j..];
      assert multiset(s) == multiset(s[..j]) + multiset(s[j..]);
      assert x in multiset(s[j..]);
      assert multiset(s)[x] <= 1;
      assert multiset(s[..j])[x] == 0;
      assert s[i] in multiset(s[..j]);
    }
  }
}
