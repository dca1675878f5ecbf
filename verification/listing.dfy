/** The `findMany({ orderBy: { createdAt: "desc" } })` listing over a keyed store. */
module Listing {
  import opened Sequences

  /** Every key is stored, and the records they name have non-increasing creation times. */
  predicate NewestFirst<R>(ks: seq<int>, m: map<int, R>, created: R -> int) {
    && (forall i :: 0 <= i < |ks| ==> ks[i] in m)
    && (forall i, j :: 0 <= i < j < |ks| ==> created(m[ks[i]]) >= created(m[ks[j]]))
  }

  /** A key whose record is at least as new as every listed one may go in front. */
  lemma PrependNewest<R>(k: int, ks: seq<int>, m: map<int, R>, created: R -> int)
    requires k in m
    requires NewestFirst(ks, m, created)
    requires forall i :: 0 <= i < |ks| ==> created(m[k]) >= created(m[ks[i]])
    ensures NewestFirst([k] + ks, m, created)
  {
    var r := [k] + ks;
    forall i, j | 0 <= i < j < |r|
      ensures created(m[r[i]]) >= created(m[r[j]])
    {
      if i > 0 {
        assert r[i] == ks[i - 1] && r[j] == ks[j - 1];
      } else {
        assert r[j] == ks[j - 1];
      }
    }
  }

  /** Inserts key `k` into an ordered key list, before every record that is not newer. */
  function InsertNewest<R>(ks: seq<int>, k: int, m: map<int, R>, created: R -> int): (r: seq<int>)
    requires k in m
    requires NewestFirst(ks, m, created)
    ensures NewestFirst(r, m, created)
    ensures multiset(r) == multiset(ks) + multiset{k}
    ensures |r| == |ks| + 1
  {
    if |ks| == 0 || created(m[k]) >= created(m[ks[0]]) then
      PrependNewest(k, ks, m, created);
      [k] + ks
    else
      var rest := InsertNewest(ks[1..], k, m, created);
      assert ks == [ks[0]] + ks[1..];
      InsertedStaysBelow(ks, k, rest, m, created);
      PrependNewest(ks[0], rest, m, created);
      [ks[0]] + rest
  }

  /** Every element of the tail after insertion is a tail element or `k`, so none is
      newer than the head. */
  lemma InsertedStaysBelow<R>(ks: seq<int>, k: int, rest: seq<int>, m: map<int, R>, created: R -> int)
    requires k in m && |ks| > 0
    requires NewestFirst(ks, m, created)
    requires created(m[k]) < created(m[ks[0]])
    requires multiset(rest) == multiset(ks[1..]) + multiset{k}
    ensures forall i :: 0 <= i < |rest| ==> rest[i] in m && created(m[ks[0]]) >= created(m[rest[i]])
  {
    forall i | 0 <= i < |rest|
      ensures rest[i] in m && created(m[ks[0]]) >= created(m[rest[i]])
    {
      assert rest[i] in multiset(rest);
      if rest[i] != k {
        assert rest[i] in multiset(ks[1..]);
        var j :| 0 <= j < |ks[1..]| && ks[1..][j] == rest[i];
        assert ks[j + 1] == rest[i];
      }
    }
  }

  /** The keys of `m`, each exactly once, newest record first. */
  method NewestFirstKeys<R>(m: map<int, R>, created: R -> int) returns (ks: seq<int>)
    ensures NewestFirst(ks, m, created)
    ensures forall k :: multiset(ks)[k] == if k in m then 1 else 0
    ensures Distinct(ks)
  {
    ks := [];
    var rest := m.Keys;
    while exists k :: k in rest
      invariant rest <= m.Keys
      invariant NewestFirst(ks, m, created)
      invariant forall k :: multiset(ks)[k] == if k in m && k !in rest then 1 else 0
      decreases |rest|
    {
      var key :| key in rest;
      ks := InsertNewest(ks, key, m, created);
      rest := rest - {key};
    }
    assert forall k :: k !in rest;
    assert forall k :: multiset(ks)[k] <= 1 by {
      forall k ensures multiset(ks)[k] <= 1 {
        assert multiset(ks)[k] == if k in m && k !in rest then 1 else 0;
      }
    }
    CountsAtMostOneIsDistinct(ks);
  }

  /** The records of `m`, one per key, newest first; `ks[i]` is the key of `r[i]`. */
  method NewestFirstRecords<R>(m: map<int, R>, created: R -> int) returns (r: seq<R>, ks: seq<int>)
    ensures |r| == |ks| && Distinct(ks)
    ensures forall i :: 0 <= i < |r| ==> ks[i] in m && r[i] == m[ks[i]]
    ensures forall k :: k in m ==> exists i :: 0 <= i < |ks| && ks[i] == k
    ensures forall i, j :: 0 <= i < j < |r| ==> created(r[i]) >= created(r[j])
  {
    ks := NewestFirstKeys(m, created);
    r := [];
    var n := 0;
    while n < |ks|
      invariant n <= |ks|
      invariant |r| == n
      invariant forall i :: 0 <= i < n ==> r[i] == m[ks[i]]
    {
      r := r + [m[ks[n]]];
      n := n + 1;
    }
    forall k | k in m
      ensures exists i :: 0 <= i < |ks| && ks[i] == k
    {
      assert k in multiset(ks);
    }
  }
}
