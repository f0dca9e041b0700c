/** The fee thresholds that decide whether an order should be placed: the node's
    fold over its transaction pool (template/node/src/service.rs) and the runtime's
    saturating sum (pallets/on-demand/src/lib.rs). */
module FeeCriteria {
  import opened Wrappers

  const BALANCE_MAX: nat := 0xFFFF_FFFF_FFFF_FFFF_FFFF_FFFF_FFFF_FFFF

  type Balance = n: int | 0 <= n <= 0xFFFF_FFFF_FFFF_FFFF_FFFF_FFFF_FFFF_FFFF

  /** The smaller of an exact amount and the largest balance. */
  function Capped(n: nat): (b: Balance)
    ensures b <= n && (b == n || b == BALANCE_MAX)
  {
    if n <= BALANCE_MAX then n else BALANCE_MAX
  }

  function SaturatingAdd(a: Balance, b: Balance): (c: Balance) { Capped(a + b) }

  // --------------------------------------------------------- the node's fold

  /** The exact sum of the fees that could be queried. */
  function FeeSum(pool: seq<Option<Balance>>): (n: nat) {
    if pool == [] then 0 else FeeSum(pool[..|pool| - 1]) + FeeOf(pool[|pool| - 1])
  }

  function FeeOf(fee: Option<Balance>): (n: nat) { if fee.Some? then fee.value else 0 }

  /** `pool` holds, per ready transaction, its fee if the query succeeded;
      `threshold` is the runtime's parameter if it could be read. */
  method ShouldPlaceOrder(pool: seq<Option<Balance>>, threshold: Option<Balance>)
    returns (place: bool, totalFees: Balance)
    ensures totalFees == Capped(FeeSum(pool))
    ensures place <==> threshold.Some? && FeeSum(pool) >= threshold.value
  {
    totalFees := 0;
    for k := 0 to |pool|
      invariant totalFees == Capped(FeeSum(pool[..k]))
    {
      assert pool[..k + 1][..k] == pool[..k];
      if pool[k].Some? {
        totalFees := SaturatingAdd(totalFees, pool[k].value);
      }
    }
    assert pool[..|pool|] == pool;
    if threshold.None? {
      return false, totalFees;
    }
    return totalFees >= threshold.value, totalFees;
  }

  lemma {:induction false} FeeSumAppend(a: seq<Option<Balance>>, b: seq<Option<Balance>>)
    ensures FeeSum(a + b) == FeeSum(a) + FeeSum(b)
    decreases |b|
  {
    if b == [] {
      assert a + b == a;
    } else {
      FeeSumAppend(a, b[..|b| - 1]);
      assert (a + b)[..|a + b| - 1] == a + b[..|b| - 1];
    }
  }

  /** What is summed: every fee that could be queried, in full and once, wherever it
      stands in the pool; a transaction without one adds nothing. */
  lemma FeeSumAddsEachFee(a: seq<Option<Balance>>, f: Balance, b: seq<Option<Balance>>)
    ensures FeeSum([]) == 0
    ensures FeeSum(a + [Some(f)] + b) == FeeSum(a + b) + f
    ensures FeeSum(a + [None] + b) == FeeSum(a + b)
  {
    FeeSumAppend(a + [Some(f)], b);
    FeeSumAppend(a, [Some(f)]);
    FeeSumAppend(a + [None], b);
    FeeSumAppend(a, [None]);
    FeeSumAppend(a, b);
    assert FeeSum([Some(f)]) == f && FeeSum([None]) == 0;
  }

  lemma CancelOne(a: multiset<Option<Balance>>, b: multiset<Option<Balance>>, x: Option<Balance>)
    requires a + multiset{x} <= b + multiset{x}
    ensures a <= b
  {
    forall t ensures a[t] <= b[t] {
      assert (a + multiset{x})[t] <= (b + multiset{x})[t];
    }
  }

  /** Taking one occurrence of `x` out of a pool takes out exactly its fee. */
  lemma TakeOut(pool: seq<Option<Balance>>, x: Option<Balance>) returns (rest: seq<Option<Balance>>)
    requires x in pool
    ensures multiset(pool) == multiset(rest) + multiset{x}
    ensures FeeSum(pool) == FeeSum(rest) + FeeOf(x)
  {
    var k :| 0 <= k < |pool| && pool[k] == x;
    rest := pool[..k] + pool[k + 1..];
    assert pool == pool[..k] + [x] + pool[k + 1..];
    FeeSumAppend(pool[..k] + [x], pool[k + 1..]);
    FeeSumAppend(pool[..k], [x]);
    FeeSumAppend(pool[..k], pool[k + 1..]);
    assert FeeSum([x]) == FeeOf(x);
  }

  /** A pool that contains another, in whatever order, has at least its fees. */
  lemma {:induction false} FeeSumMonotone(a: seq<Option<Balance>>, b: seq<Option<Balance>>)
    requires multiset(a) <= multiset(b)
    ensures FeeSum(a) <= FeeSum(b)
    decreases |a|
  {
    if a != [] {
      var x, front := a[|a| - 1], a[..|a| - 1];
      assert a == front + [x];
      assert multiset(a) == multiset(front) + multiset{x};
      assert x in multiset(a);
      var rest := TakeOut(b, x);
      CancelOne(multiset(front), multiset(rest), x);
      FeeSumMonotone(front, rest);
    }
  }

  /** What the fold decides, without the fold. */
  predicate PoolReaches(pool: seq<Option<Balance>>, threshold: Option<Balance>) {
    threshold.Some? && FeeSum(pool) >= threshold.value
  }

  /** The decision does not depend on the order in which the pool is walked. */
  lemma DecisionIgnoresOrder(a: seq<Option<Balance>>, b: seq<Option<Balance>>, threshold: Option<Balance>)
    requires multiset(a) == multiset(b)
    ensures PoolReaches(a, threshold) <==> PoolReaches(b, threshold)
  {
    FeeSumMonotone(a, b);
    FeeSumMonotone(b, a);
  }

  /** More transactions, wherever they enter, never turn the decision off; a zero
      threshold is always reached, and a threshold that cannot be read never is. */
  lemma DecisionIsMonotone(a: seq<Option<Balance>>, b: seq<Option<Balance>>, threshold: Option<Balance>)
    requires multiset(a) <= multiset(b)
    ensures PoolReaches(a, threshold) ==> PoolReaches(b, threshold)
    ensures PoolReaches(a, Some(0)) && !PoolReaches(a, None)
  {
    FeeSumMonotone(a, b);
  }

  // ---------------------------------------------------- the runtime's criterion

  datatype Weight = Weight(refTime: nat, proofSize: nat)

  /** The fee conversions the runtime is configured with. */
  datatype FeeSchedule = FeeSchedule(
    weightToFee: Weight -> Balance,
    lengthToFee: nat -> Balance,
    baseWeight: Weight)

  /** What the criterion reads from the block being executed. */
  datatype BlockUsage = BlockUsage(weight: Weight, multiplier: nat, extrinsicsLength: nat)

  /** `FixedU128` keeps eighteen decimal places. */
  const FIXED_DIV: nat := 1_000_000_000_000_000_000

  /** `multiplier.saturating_mul_int(amount)`. */
  function SaturatingMulInt(multiplier: nat, amount: Balance): (b: Balance) {
    Capped((multiplier * amount) / FIXED_DIV)
  }

  function TotalFees(s: FeeSchedule, u: BlockUsage): (b: Balance) {
    var adjusted := SaturatingMulInt(u.multiplier, s.weightToFee(u.weight));
    SaturatingAdd(SaturatingAdd(s.weightToFee(s.baseWeight), adjusted), s.lengthToFee(u.extrinsicsLength))
  }

  predicate RuntimeCriterion(s: FeeSchedule, u: BlockUsage, threshold: Balance) {
    TotalFees(s, u) >= threshold
  }

  predicate NoMore(a: BlockUsage, b: BlockUsage) {
    && a.weight.refTime <= b.weight.refTime && a.weight.proofSize <= b.weight.proofSize
    && a.multiplier <= b.multiplier
    && a.extrinsicsLength <= b.extrinsicsLength
  }

  ghost predicate MonotoneSchedule(s: FeeSchedule) {
    && (forall v: Weight, w: Weight ::
          v.refTime <= w.refTime && v.proofSize <= w.proofSize ==> s.weightToFee(v) <= s.weightToFee(w))
    && (forall m, n :: m <= n ==> s.lengthToFee(m) <= s.lengthToFee(n))
  }

  /** The chained saturating sum is the exact sum, capped once. */
  lemma TotalIsCappedSum(s: FeeSchedule, u: BlockUsage)
    ensures TotalFees(s, u)
            == Capped(s.weightToFee(s.baseWeight)
                      + (u.multiplier * s.weightToFee(u.weight)) / FIXED_DIV
                      + s.lengthToFee(u.extrinsicsLength))
  {
    var product := u.multiplier * s.weightToFee(u.weight);
    assert 0 <= product / FIXED_DIV;
  }

  /** Saturation never changes the decision: it is that of the exact sum. */
  lemma CriterionIsExact(s: FeeSchedule, u: BlockUsage, threshold: Balance)
    ensures RuntimeCriterion(s, u, threshold) <==>
            s.weightToFee(s.baseWeight)
            + (u.multiplier * s.weightToFee(u.weight)) / FIXED_DIV
            + s.lengthToFee(u.extrinsicsLength) >= threshold
  {
    TotalIsCappedSum(s, u);
  }

  lemma ProductMonotone(a: nat, b: nat, c: nat, d: nat)
    requires a <= c && b <= d
    ensures a * b <= c * d
  {
    assert c * d == a * b + a * (d - b) + (c - a) * d;
  }

  lemma QuotientMonotone(a: nat, b: nat)
    requires a <= b
    ensures 0 <= a / FIXED_DIV <= b / FIXED_DIV
  {
  }

  /** A fuller block, a larger multiplier or a lower threshold never turn the
      criterion from met to unmet. */
  lemma CriterionIsMonotone(s: FeeSchedule, a: BlockUsage, b: BlockUsage, low: Balance, high: Balance)
    requires MonotoneSchedule(s) && NoMore(a, b) && low <= high
    ensures RuntimeCriterion(s, a, high) ==> RuntimeCriterion(s, b, low)
  {
    assert s.weightToFee(a.weight) <= s.weightToFee(b.weight);
    assert s.lengthToFee(a.extrinsicsLength) <= s.lengthToFee(b.extrinsicsLength);
    ProductMonotone(a.multiplier, s.weightToFee(a.weight), b.multiplier, s.weightToFee(b.weight));
    QuotientMonotone(a.multiplier * s.weightToFee(a.weight), b.multiplier * s.weightToFee(b.weight));
    TotalIsCappedSum(s, a);
    TotalIsCappedSum(s, b);
  }
}
