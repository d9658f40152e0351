/** Sums over the amounts a map holds. */
module Sums {
  ghost function Sum(m: map<nat, nat>): nat
    decreases |m|
  {
    if m == map[] then 0
    else
      var k :| k in m;
      m[k] + Sum(m - {k})
  }

  /** Any key may be taken out of the sum. */
  lemma {:induction false} SumWithout(m: map<nat, nat>, k: nat)
    requires k in m
    ensures Sum(m) == m[k] + Sum(m - {k})
    decreases |m|
  {
    var first :| first in m && Sum(m) == m[first] + Sum(m - {first});
    if k != first {
      SumWithout(m - {first}, k);
      SumWithout(m - {k}, first);
      assert m - {first} - {k} == m - {k} - {first};
    }
  }

  lemma SumWith(m: map<nat, nat>, k: nat, amount: nat)
    requires k !in m
    ensures Sum(m[k := amount]) == Sum(m) + amount
  {
    SumWithout(m[k := amount], k);
    assert m[k := amount] - {k} == m;
  }

  lemma SumChanged(m: map<nat, nat>, k: nat, amount: nat)
    requires k in m
    ensures Sum(m[k := amount]) == Sum(m) - m[k] + amount
  {
    SumWithout(m, k);
    SumWith(m - {k}, k, amount);
    assert (m - {k})[k := amount] == m[k := amount];
  }

  function Times(n: nat, bound: nat): nat {
    if n == 0 then 0 else bound + Times(n - 1, bound)
  }

  lemma {:induction false} TimesIsProduct(n: nat, bound: nat)
    ensures Times(n, bound) == n * bound
  {
    if n > 0 {
      TimesIsProduct(n - 1, bound);
    }
  }

  lemma {:induction false} SumAtMostTimes(m: map<nat, nat>, bound: nat)
    requires forall k :: k in m ==> m[k] <= bound
    ensures Sum(m) <= Times(|m|, bound)
    decreases |m|
  {
    if m != map[] {
      var k :| k in m;
      var rest := m - {k};
      SumWithout(m, k);
      assert m.Keys == rest.Keys + {k};
      SumAtMostTimes(rest, bound);
    }
  }

  lemma SumBounded(m: map<nat, nat>, bound: nat)
    requires forall k :: k in m ==> m[k] <= bound
    ensures Sum(m) <= |m| * bound
  {
    SumAtMostTimes(m, bound);
    TimesIsProduct(|m|, bound);
  }
}
