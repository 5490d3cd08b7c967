/** Refund shares: per-epoch allocation of prepaid amounts, then scaling of each
    epoch to its on-chain pool, all in wei. */
module Apportionment {
  import opened Sums

  /** A knowledge collection with its prepaid amount; epochs `startEpoch` to `endEpoch`. */
  datatype Collection = Collection(startEpoch: int, endEpoch: int, tokenAmount: nat, publisher: string)

  type Shares = map<string, int>

  type Allocation = map<int, Shares>

  function MaxEpoch(a: int, b: int): int { if a >= b then a else b }

  function PerEpoch(kc: Collection): nat
    requires kc.endEpoch > kc.startEpoch
  {
    kc.tokenAmount / (kc.endEpoch - kc.startEpoch)
  }

  function FirstRefund(kc: Collection, current: int): int { MaxEpoch(kc.startEpoch, current) }

  /** What one collection gives one publisher in one epoch. */
  function ShareOf(kc: Collection, current: int, epoch: int, publisher: string): nat {
    if kc.endEpoch > kc.startEpoch && kc.publisher == publisher && FirstRefund(kc, current) <= epoch <= kc.endEpoch
    then PerEpoch(kc) else 0
  }

  function SharesOf(kcs: seq<Collection>, current: int, epoch: int, publisher: string): nat {
    if kcs == [] then 0
    else SharesOf(kcs[..|kcs| - 1], current, epoch, publisher) + ShareOf(kcs[|kcs| - 1], current, epoch, publisher)
  }

  /** What one collection gives in all: one full share per epoch, both ends included. */
  function TotalOf(kc: Collection, current: int): nat {
    if kc.endEpoch > kc.startEpoch && FirstRefund(kc, current) <= kc.endEpoch
    then (kc.endEpoch - FirstRefund(kc, current) + 1) * PerEpoch(kc) else 0
  }

  function TotalsOf(kcs: seq<Collection>, current: int): nat {
    if kcs == [] then 0 else TotalsOf(kcs[..|kcs| - 1], current) + TotalOf(kcs[|kcs| - 1], current)
  }

  function Cell(a: Allocation, epoch: int, publisher: string): int {
    if epoch in a then Get(a[epoch], publisher) else 0
  }

  ghost function EpochTotals(a: Allocation): map<int, int> {
    map e | e in a :: SumValues(a[e])
  }

  ghost function GrandTotal(a: Allocation): int {
    SumValues(EpochTotals(a))
  }

  function AddShare(a: Allocation, epoch: int, publisher: string, wei: int): Allocation {
    var shares := if epoch in a then a[epoch] else map[];
    a[epoch := shares[publisher := Get(shares, publisher) + wei]]
  }

  lemma AddShareTotal(a: Allocation, epoch: int, publisher: string, wei: int)
    ensures GrandTotal(AddShare(a, epoch, publisher, wei)) == GrandTotal(a) + wei
  {
    var shares := if epoch in a then a[epoch] else map[];
    var more := shares[publisher := Get(shares, publisher) + wei];
    SumUpdate(shares, publisher, Get(shares, publisher) + wei);
    var a' := AddShare(a, epoch, publisher, wei);
    assert EpochTotals(a') == EpochTotals(a)[epoch := SumValues(more)];
    SumUpdate(EpochTotals(a), epoch, SumValues(more));
  }

  /** Spreads one collection over its epochs. */
  method AllocateOne(a: Allocation, kc: Collection, current: int) returns (r: Allocation)
    ensures forall e, p :: Cell(r, e, p) == Cell(a, e, p) + ShareOf(kc, current, e, p)
    ensures GrandTotal(r) == GrandTotal(a) + TotalOf(kc, current)
  {
    r := a;
    var epochs := kc.endEpoch - kc.startEpoch;
    if epochs <= 0 { return; }
    var perFullEpochWei := kc.tokenAmount / epochs;
    var first := MaxEpoch(kc.startEpoch, current);
    var epoch := first;
    while epoch <= kc.endEpoch
      invariant first <= epoch && (epoch <= kc.endEpoch + 1 || epoch == first)
      invariant forall e, p :: Cell(r, e, p) == Cell(a, e, p) + if e < epoch then ShareOf(kc, current, e, p) else 0
      invariant GrandTotal(r) == GrandTotal(a) + (epoch - first) * perFullEpochWei
      decreases kc.endEpoch - epoch
    {
      AddShareTotal(r, epoch, kc.publisher, perFullEpochWei);
      r := AddShare(r, epoch, kc.publisher, perFullEpochWei);
      assert (epoch + 1 - first) * perFullEpochWei == (epoch - first) * perFullEpochWei + perFullEpochWei;
      epoch := epoch + 1;
    }
  }

  /** Phase 2: every cell is the sum of the shares due in it, and the grand total
      is, over the collections, the number of refundable epochs times the
      floored share. */
  method Allocate(kcs: seq<Collection>, current: int) returns (a: Allocation)
    ensures forall e, p :: Cell(a, e, p) == SharesOf(kcs, current, e, p)
    ensures GrandTotal(a) == TotalsOf(kcs, current)
  {
    a := map[];
    assert EpochTotals(a) == map[];
    for i := 0 to |kcs|
      invariant forall e, p :: Cell(a, e, p) == SharesOf(kcs[..i], current, e, p)
      invariant GrandTotal(a) == TotalsOf(kcs[..i], current)
    {
      assert kcs[..i + 1][..i] == kcs[..i];
      a := AllocateOne(a, kcs[i], current);
    }
    assert kcs[..|kcs|] == kcs;
  }

  /** What one collection gives in an epoch, in plain inequalities: a share of the
      prepaid amount to its publisher in every epoch of its own that is not past. */
  lemma ShareMeans(kc: Collection, current: int, epoch: int, publisher: string)
    ensures ShareOf(kc, current, epoch, publisher) ==
            if kc.startEpoch < kc.endEpoch && publisher == kc.publisher
               && kc.startEpoch <= epoch && current <= epoch && epoch <= kc.endEpoch
            then kc.tokenAmount / (kc.endEpoch - kc.startEpoch) else 0
  {
  }

  /** Nothing is refunded for past epochs, nor to anyone without a collection that
      covers the epoch. */
  lemma {:induction false} NothingForPastEpochs(kcs: seq<Collection>, current: int, epoch: int, publisher: string)
    requires epoch < current || forall i :: 0 <= i < |kcs| && kcs[i].publisher == publisher ==>
               epoch < kcs[i].startEpoch || kcs[i].endEpoch < epoch
    ensures SharesOf(kcs, current, epoch, publisher) == 0
  {
    if kcs != [] {
      var n := |kcs| - 1;
      NothingForPastEpochs(kcs[..n], current, epoch, publisher);
      ShareMeans(kcs[n], current, epoch, publisher);
    }
  }

  /** A running collection is refunded for the current epoch and each one up to its
      end; one that has not started for each of its own; one that is over for none. */
  lemma TotalMeans(kc: Collection, current: int)
    requires kc.startEpoch < kc.endEpoch
    ensures var share := kc.tokenAmount / (kc.endEpoch - kc.startEpoch);
            && (kc.startEpoch < current <= kc.endEpoch ==> TotalOf(kc, current) == (kc.endEpoch - current + 1) * share)
            && (current <= kc.startEpoch ==> TotalOf(kc, current) == (kc.endEpoch - kc.startEpoch + 1) * share)
            && (kc.endEpoch < current ==> TotalOf(kc, current) == 0)
  {
  }

  /** A collection that has not started yet is given one share more than it has
      epochs: more than was prepaid exactly when a share exceeds the remainder,
      which is why Phase 3 scales to the pool. */
  lemma NewCollectionOverallocates(kc: Collection, current: int)
    requires kc.endEpoch > kc.startEpoch >= current
    ensures var n := kc.endEpoch - kc.startEpoch;
            && TotalOf(kc, current) == kc.tokenAmount - kc.tokenAmount % n + PerEpoch(kc)
            && (TotalOf(kc, current) > kc.tokenAmount <==> PerEpoch(kc) > kc.tokenAmount % n)
  {
    var n, share := kc.endEpoch - kc.startEpoch, PerEpoch(kc);
    assert kc.tokenAmount == n * share + kc.tokenAmount % n;
    assert (n + 1) * share == n * share + share;
  }

  // ----- Phase 3 ---------------------------------------------------------------------------

  predicate NonNegative(m: Shares) {
    forall k :: k in m ==> m[k] >= 0
  }

  function Scaled(wei: nat, pool: nat, total: nat): nat
    requires total > 0
  {
    wei * pool / total
  }

  function NeedsScaling(pool: nat, total: int): bool {
    pool > 0 && total > 0 && total != pool
  }

  function FinalWei(wei: nat, pool: nat, total: nat): nat {
    if NeedsScaling(pool, total) then Scaled(wei, pool, total) else wei
  }

  method AddUp(shares: Shares) returns (computed: int)
    ensures computed == SumValues(shares)
  {
    computed := 0;
    var rest := shares;
    while rest != map[]
      invariant SumValues(shares) == computed + SumValues(rest)
      decreases |rest|
    {
      var k :| k in rest;
      SumSplit(rest, k);
      computed := computed + rest[k];
      rest := rest - {k};
    }
  }

  /** Scales one epoch entry by entry and adds up the result. */
  method ScaleEpoch(shares: Shares, pool: nat) returns (final: Shares, scaledTotal: int)
    requires NonNegative(shares)
    ensures final.Keys == shares.Keys && NonNegative(final)
    ensures SumValues(shares) >= 0 && forall k :: k in shares ==>
            final[k] == FinalWei(shares[k], pool, SumValues(shares))
    ensures scaledTotal == SumValues(final)
    ensures pool > 0 && SumValues(shares) > 0 ==> scaledTotal <= pool < scaledTotal + |shares|
  {
    hide FinalWei, SumValues;
    SumNonNegative(shares);
    var computed := AddUp(shares);
    final, scaledTotal := map[], 0;
    NoShares();
    var todo := shares.Keys;
    while todo != {}
      invariant todo <= shares.Keys && final.Keys == shares.Keys - todo
      invariant forall k :: k in final ==> final[k] == FinalWei(shares[k], pool, computed)
      invariant scaledTotal == SumValues(final)
    {
      var k :| k in todo;
      var finalWei := FinalWei(shares[k], pool, computed);
      SumUpdate(final, k, finalWei);
      final := final[k := finalWei];
      scaledTotal := scaledTotal + finalWei;
      todo := todo - {k};
    }
    if pool > 0 && computed > 0 { ScalingFillsPool(shares, final, pool); }
  }

  lemma NoShares()
    ensures SumValues<string>(map[]) == 0
  {
  }

  lemma FloorBounds(x: nat, c: nat)
    requires c > 0
    ensures c * (x / c) <= x < c * (x / c) + c
  {
  }

  lemma DivMonotone(x: nat, y: nat, c: nat)
    requires c > 0 && x <= y
    ensures x / c <= y / c
  {
    FloorBounds(x, c);
    FloorBounds(y, c);
    MulStep(c, y / c, x / c);
  }

  /** `finalSum` is `pool * sum / total` up to less than one unit for each of `n` floors. */
  ghost predicate WithinFloors(pool: nat, total: nat, sum: int, finalSum: int, n: nat) {
    total * finalSum <= pool * sum <= total * finalSum + n * (total - 1)
  }

  /** One share more: exact arithmetic of the two running bounds. */
  lemma FloorStep(pool: nat, total: nat, wei: nat, q: nat, sum: int, finalSum: int, n: nat)
    requires total > 0 && q == Scaled(wei, pool, total) && WithinFloors(pool, total, sum, finalSum, n)
    ensures WithinFloors(pool, total, wei + sum, q + finalSum, n + 1)
  {
    FloorBounds(wei * pool, total);
    assert total * (q + finalSum) == total * q + total * finalSum;
    assert pool * (wei + sum) == wei * pool + pool * sum;
    assert (n + 1) * (total - 1) == n * (total - 1) + (total - 1);
  }

  lemma NoFloors(pool: nat, total: nat)
    ensures WithinFloors(pool, total, 0, 0, 0)
  {
  }

  /** Sum of floors, multiplied out. */
  lemma {:induction false} FloorSum(shares: Shares, final: Shares, pool: nat, total: nat)
    requires total > 0 && NonNegative(shares) && final.Keys == shares.Keys
    requires forall k :: k in shares ==> final[k] == Scaled(shares[k], pool, total)
    ensures WithinFloors(pool, total, SumValues(shares), SumValues(final), |shares|)
    decreases |shares|
  {
    hide WithinFloors, Scaled;
    if shares == map[] {
      assert final == map[];
      NoFloors(pool, total);
    } else {
      var k := Pick(shares);
      SumSplit(shares, k);
      SumSplit(final, k);
      FloorSum(shares - {k}, final - {k}, pool, total);
      assert |shares - {k}| == |shares| - 1;
      FloorStep(pool, total, shares[k], final[k], SumValues(shares - {k}), SumValues(final - {k}), |shares| - 1);
    }
  }

  /** Phase 3: with a positive pool and a positive computed total, the final
      shares sum to at most the pool, fall short by less than the number of
      publishers, and keep the publishers' order. */
  lemma ScalingFillsPool(shares: Shares, final: Shares, pool: nat)
    requires NonNegative(shares) && pool > 0 && SumValues(shares) > 0
    requires final.Keys == shares.Keys
    requires forall k :: k in shares ==>
               final[k] == FinalWei(shares[k], pool, SumValues(shares))
    ensures SumValues(final) <= pool < SumValues(final) + |shares|
    ensures forall a, b :: a in shares && b in shares && shares[a] <= shares[b] ==> final[a] <= final[b]
  {
    var total := SumValues(shares);
    assert shares != map[];
    if NeedsScaling(pool, total) {
      hide Scaled, WithinFloors;
      FloorSum(shares, final, pool, total);
      PoolBounds(SumValues(final), pool, total, |shares|);
      forall a, b | a in shares && b in shares && shares[a] <= shares[b] ensures final[a] <= final[b] {
        ScaledMonotone(shares[a], shares[b], pool, total);
      }
    } else {
      assert final == shares;
      assert |shares| > 0;
    }
  }

  lemma ScaledMonotone(a: nat, b: nat, pool: nat, total: nat)
    requires total > 0 && a <= b
    ensures Scaled(a, pool, total) <= Scaled(b, pool, total)
  {
    assert a * pool <= b * pool;
    DivMonotone(a * pool, b * pool, total);
  }

  lemma PoolBounds(sum: int, pool: nat, total: nat, n: nat)
    requires total > 0 && n > 0
    requires WithinFloors(pool, total, total, sum, n)
    ensures sum <= pool < sum + n
  {
    MulStep(total, pool, sum);
    MulStep(total, sum + n - 1, pool);
    assert total * (sum + n - 1) == total * sum + total * n - total;
    assert n * (total - 1) == total * n - n;
  }
}
