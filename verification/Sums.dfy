/** Sums over finite maps, and a fact about multiples. */
module Sums {

  ghost function Pick<K>(m: map<K, int>): K
    requires m != map[]
    ensures Pick(m) in m
  {
    var k :| k in m;
    k
  }

  ghost function SumValues<K>(m: map<K, int>): int
    decreases |m|
  {
    if m == map[] then 0 else m[Pick(m)] + SumValues(m - {Pick(m)})
  }

  function Get<K>(m: map<K, int>, k: K): int {
    if k in m then m[k] else 0
  }

  /** Any key can be split off. */
  lemma {:induction false} SumSplit<K>(m: map<K, int>, k: K)
    requires k in m
    ensures SumValues(m) == m[k] + SumValues(m - {k})
    decreases |m|
  {
    var p := Pick(m);
    if p != k {
      SumSplit(m - {p}, k);
      SumSplit(m - {k}, p);
      assert m - {p} - {k} == m - {k} - {p};
    }
  }

  lemma SumUpdate<K>(m: map<K, int>, k: K, v: int)
    ensures SumValues(m[k := v]) == SumValues(m) - Get(m, k) + v
  {
    SumSplit(m[k := v], k);
    if k in m {
      SumSplit(m, k);
      assert m[k := v] - {k} == m - {k};
    } else {
      assert m[k := v] - {k} == m;
    }
  }

  lemma {:induction false} SumNonNegative<K>(m: map<K, int>)
    requires forall x :: x in m ==> m[x] >= 0
    ensures SumValues(m) >= 0
    decreases |m|
  {
    if m != map[] { SumNonNegative(m - {Pick(m)}); }
  }

  /** Neighbouring multiples are a whole factor apart. */
  lemma MulStep(c: nat, a: int, b: int)
    ensures a < b ==> c * a + c <= c * b
  {
    if a < b {
      var d := b - a - 1;
      assert c * b == c * a + c + c * d;
    }
  }
}
