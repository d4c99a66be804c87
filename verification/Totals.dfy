/** Sums of the values of a map, and how they move when single entries move. */
module Totals {

  ghost function Total<K(!new)>(m: map<K, nat>): nat
    decreases |m|
  {
    if m == map[] then 0
    else
      var k :| k in m;
      m[k] + Total(m - {k})
  }

  /** A total does not depend on which entry is taken out first. */
  lemma {:induction false} TotalSplit<K(!new)>(m: map<K, nat>, k: K)
    requires k in m
    ensures Total(m) == m[k] + Total(m - {k})
    decreases |m|
  {
    var j :| j in m && Total(m) == m[j] + Total(m - {j});
    if j != k {
      TotalSplit(m - {j}, k);
      TotalSplit(m - {k}, j);
      assert m - {j} - {k} == m - {k} - {j};
    }
  }

  lemma {:induction false} TotalMonotone<K(!new)>(a: map<K, nat>, b: map<K, nat>)
    requires a.Keys == b.Keys
    requires forall k :: k in a ==> a[k] <= b[k]
    ensures Total(a) <= Total(b)
    decreases |a|
  {
    if a == map[] {
      assert b == map[];
    } else {
      var k :| k in a;
      TotalSplit(a, k);
      TotalSplit(b, k);
      TotalMonotone(a - {k}, b - {k});
    }
  }

  /** If no entry grows and one shrinks by at least `amount`, so does the total. */
  lemma TotalDrops<K(!new)>(a: map<K, nat>, b: map<K, nat>, k: K, amount: nat)
    requires a.Keys == b.Keys
    requires forall j :: j in a ==> a[j] <= b[j]
    requires k in a && a[k] + amount <= b[k]
    ensures Total(a) + amount <= Total(b)
  {
    TotalSplit(a, k);
    TotalSplit(b, k);
    TotalMonotone(a - {k}, b - {k});
  }

  lemma {:induction false} TotalIgnoresZeros<K(!new)>(padded: map<K, nat>, m: map<K, nat>)
    requires m.Keys <= padded.Keys
    requires forall k :: k in padded ==> padded[k] == if k in m then m[k] else 0
    ensures Total(padded) == Total(m)
    decreases |padded|
  {
    if padded == map[] {
      assert m == map[];
    } else {
      var k :| k in padded;
      TotalSplit(padded, k);
      if k in m {
        TotalSplit(m, k);
        TotalIgnoresZeros(padded - {k}, m - {k});
      } else {
        TotalIgnoresZeros(padded - {k}, m);
      }
    }
  }
}
