/** Sums over finite maps: the total of all open and settled amounts of a ledger. */
module Sums {

  /** The sum of all values of `m`. */
  ghost function Sum<K>(m: map<K, int>): int {
    if m == map[] then 0
    else
      var k :| k in m;
      m[k] + Sum(m - {k})
  }

  /** The sum does not depend on the order in which keys are taken. */
  lemma {:induction false} SumTake<K>(m: map<K, int>, k: K)
    requires k in m
    ensures Sum(m) == m[k] + Sum(m - {k})
    decreases |m|
  {
    var j :| j in m && Sum(m) == m[j] + Sum(m - {j});
    if j != k {
      SumTake(m - {j}, k);
      SumTake(m - {k}, j);
      assert m - {j} - {k} == m - {k} - {j};
    }
  }

  /** Writing `v` at `k` changes the sum by `v` minus what `k` held before. */
  lemma SumUpdate<K>(m: map<K, int>, k: K, v: int)
    ensures Sum(m[k := v]) == Sum(m) + v - (if k in m then m[k] else 0)
  {
    SumTake(m[k := v], k);
    assert m[k := v] - {k} == m - {k};
    if k in m {
      SumTake(m, k);
    } else {
      assert m - {k} == m;
    }
  }

  /** Removing `k` lowers the sum by what `k` held. */
  lemma SumRemove<K>(m: map<K, int>, k: K)
    ensures Sum(m - {k}) == Sum(m) - (if k in m then m[k] else 0)
  {
    if k in m {
      SumTake(m, k);
    } else {
      assert m - {k} == m;
    }
  }

  /** The sum of real values, as above. */
  ghost function RealSum<K>(m: map<K, real>): real {
    if m == map[] then 0.0
    else
      var k :| k in m;
      m[k] + RealSum(m - {k})
  }

  lemma {:induction false} RealSumTake<K>(m: map<K, real>, k: K)
    requires k in m
    ensures RealSum(m) == m[k] + RealSum(m - {k})
    decreases |m|
  {
    var j :| j in m && RealSum(m) == m[j] + RealSum(m - {j});
    if j != k {
      RealSumTake(m - {j}, k);
      RealSumTake(m - {k}, j);
      assert m - {j} - {k} == m - {k} - {j};
    }
  }

  /**
   Amounts that each fall short of an exact value by less than their weight, or equal it where
   they weigh nothing, fall short in total by less than the total weight.
   */
  lemma {:induction false} Shortfall<K>(amounts: map<K, int>, exact: map<K, real>, weights: map<K, int>)
    requires amounts.Keys == exact.Keys == weights.Keys
    requires forall k <- amounts :: weights[k] >= 0 && amounts[k] as real <= exact[k]
    requires forall k <- amounts ::
               exact[k] < (amounts[k] + weights[k]) as real || (weights[k] == 0 && exact[k] == amounts[k] as real)
    ensures Sum(weights) >= 0 && Sum(amounts) as real <= RealSum(exact)
    ensures RealSum(exact) < (Sum(amounts) + Sum(weights)) as real
            || (Sum(weights) == 0 && RealSum(exact) == Sum(amounts) as real)
    decreases |amounts|
  {
    if amounts != map[] {
      var k :| k in amounts;
      Shortfall(amounts - {k}, exact - {k}, weights - {k});
      SumTake(amounts, k);
      SumTake(weights, k);
      RealSumTake(exact, k);
    }
  }
}
