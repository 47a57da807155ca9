// Sums over the values of a finite map, and counting by injection.
module Sums {

  ghost function Total<K(!new)>(m: map<K, real>): real
    decreases |m|
  {
    if m == map[] then 0.0
    else
      var k :| k in m;
      m[k] + Total(m - {k})
  }

  // The sum does not depend on which entry is taken out first.
  lemma {:induction false} TotalTake<K(!new)>(m: map<K, real>, k: K)
    requires k in m
    ensures Total(m) == m[k] + Total(m - {k})
    decreases |m|
  {
    var j :| j in m && Total(m) == m[j] + Total(m - {j});
    if j != k {
      TotalTake(m - {j}, k);
      TotalTake(m - {k}, j);
      assert m - {j} - {k} == m - {k} - {j};
    }
  }

  // Replacing, adding or dropping one entry moves the sum by the difference of that entry.
  lemma TotalPut<K(!new)>(m: map<K, real>, k: K, v: real)
    ensures Total(m[k := v]) == Total(m - {k}) + v
    ensures Total(m) == Total(m - {k}) + (if k in m then m[k] else 0.0)
  {
    var n := m[k := v];
    TotalTake(n, k);
    assert n - {k} == m - {k};
    if k in m {
      TotalTake(m, k);
    } else {
      assert m - {k} == m;
    }
  }

  // The built-in sum over a dictionary's values, in whatever order.
  method Sum<K(==, !new)>(m: map<K, real>) returns (s: real)
    ensures s == Total(m)
  {
    s := 0.0;
    var rest := m;
    while rest != map[]
      invariant s + Total(rest) == Total(m)
      decreases |rest|
    {
      var k :| k in rest;
      TotalTake(rest, k);
      s := s + rest[k];
      rest := rest - {k};
    }
  }

  ghost function Copies(n: nat, x: real): real {
    n as real * x
  }

  lemma {:induction false} TotalWithin<K(!new)>(m: map<K, real>, lo: real, hi: real)
    requires forall k :: k in m ==> lo <= m[k] <= hi
    ensures Copies(|m|, lo) <= Total(m) <= Copies(|m|, hi)
    decreases |m|
  {
    hide Copies;
    OneMoreCopy(|m|, lo);
    OneMoreCopy(|m|, hi);
    if m != map[] {
      var k :| k in m;
      TotalTake(m, k);
      TotalWithin(m - {k}, lo, hi);
      assert (m - {k}).Keys == m.Keys - {k};
      assert |m - {k}| == |(m - {k}).Keys| == |m.Keys| - 1;
    }
  }

  lemma OneMoreCopy(n: nat, x: real)
    ensures n == 0 ==> Copies(n, x) == 0.0
    ensures n > 0 ==> Copies(n, x) == Copies(n - 1, x) + x
  {
    if n > 0 {
      assert n as real == (n - 1) as real + 1.0;
    }
  }

  // Entries of zero do not matter.
  lemma {:induction false} TotalSkipsZeros<K(!new)>(m: map<K, real>, n: map<K, real>)
    requires n.Keys <= m.Keys
    requires forall k :: k in m ==> m[k] == if k in n then n[k] else 0.0
    ensures Total(m) == Total(n)
    decreases |m|
  {
    if m == map[] {
      assert n == map[];
    } else {
      var k :| k in m;
      TotalTake(m, k);
      if k in n {
        TotalTake(n, k);
        TotalSkipsZeros(m - {k}, n - {k});
      } else {
        TotalSkipsZeros(m - {k}, n);
      }
    }
  }

  lemma {:induction false} TotalOfGains<K(!new)>(m: map<K, real>)
    requires forall k :: k in m ==> m[k] >= 0.0
    ensures Total(m) >= 0.0
    ensures Total(m) == 0.0 <==> forall k :: k in m ==> m[k] == 0.0
    decreases |m|
  {
    if m != map[] {
      var k :| k in m;
      TotalTake(m, k);
      TotalOfGains(m - {k});
      forall j | j in m && j != k
        ensures j in m - {k}
      {}
    }
  }

  // Sums of two maps over the same keys add up entry by entry.
  lemma {:induction false} TotalAdds<K(!new)>(m: map<K, real>, n: map<K, real>, s: map<K, real>)
    requires m.Keys == n.Keys == s.Keys && forall k :: k in s ==> s[k] == m[k] + n[k]
    ensures Total(s) == Total(m) + Total(n)
    decreases |m|
  {
    if s != map[] {
      var k :| k in s;
      TotalTake(m, k);
      TotalTake(n, k);
      TotalTake(s, k);
      assert (m - {k}).Keys == m.Keys - {k} && (n - {k}).Keys == n.Keys - {k} && (s - {k}).Keys == s.Keys - {k};
      TotalAdds(m - {k}, n - {k}, s - {k});
    } else {
      assert m == map[] && n == map[];
    }
  }

  // A duplicate-free list of indices below n has at most n elements.
  lemma {:induction false} Pigeonhole(idx: seq<nat>, n: nat)
    requires forall i :: 0 <= i < |idx| ==> idx[i] < n
    requires forall i, j :: 0 <= i < j < |idx| ==> idx[i] != idx[j]
    ensures |idx| <= n
    decreases n
  {
    if idx != [] {
      assert idx[0] < n;
      if k :| 0 <= k < |idx| && idx[k] == n - 1 {
        var rest := idx[..k] + idx[k + 1..];
        assert forall i :: 0 <= i < |rest| ==> rest[i] == idx[if i < k then i else i + 1];
        Pigeonhole(rest, n - 1);
      } else {
        Pigeonhole(idx, n - 1);
      }
    }
  }
}
