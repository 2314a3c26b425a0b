/** Sums over all entries of a map, in whatever order. */
module Totals {

  ghost function Total<K>(balances: map<K, nat>): nat
    decreases |balances|
  {
    if balances == map[] then 0
    else
      var k :| k in balances;
      balances[k] + Total(balances - {k})
  }

  lemma {:induction false} TotalWithout<K>(balances: map<K, nat>, k: K)
    requires k in balances
    ensures Total(balances) == balances[k] + Total(balances - {k})
    decreases |balances|
  {
    var p :| p in balances && Total(balances) == balances[p] + Total(balances - {p});
    if p != k {
      TotalWithout(balances - {p}, k);
      TotalWithout(balances - {k}, p);
      assert (balances - {p}) - {k} == (balances - {k}) - {p};
    }
  }

  /** One entry more, or one entry raised. */
  lemma {:induction false} TotalRaised<K>(balances: map<K, nat>, k: K, amount: nat)
    ensures Total(balances[k := (if k in balances then balances[k] else 0) + amount]) == Total(balances) + amount
  {
    var b := balances[k := (if k in balances then balances[k] else 0) + amount];
    TotalWithout(b, k);
    if k in balances {
      TotalWithout(balances, k);
      assert b - {k} == balances - {k};
    } else {
      assert b - {k} == balances;
    }
  }
}
