/** Fee formulas: the base fee of EIP-1559 with a floor of 1 gwei, and the blob gas price of EIP-4844. */
module BaseFee {

  const MAX_CHANGE_DENOMINATOR: int := 8
  const MIN_BASE_FEE: int := 1_000_000_000

  function Target(gasLimit: int): int
    requires gasLimit > 0
  {
    gasLimit * 50 / 100
  }

  /** An eighth of the fee, scaled by the distance from the target. */
  function Change(fee: nat, delta: nat, target: nat): nat
    requires target > 0
  {
    fee * delta / target / MAX_CHANGE_DENOMINATOR
  }

  function FeeAt(fee: nat, gasUsed: nat, target: nat): int
    requires target > 0
  {
    if gasUsed == target then fee
    else if gasUsed > target then
      var increase := Change(fee, gasUsed - target, target);
      fee + (if increase > 0 then increase else 1)
    else
      var newFee := fee - Change(fee, target - gasUsed, target);
      if newFee > MIN_BASE_FEE then newFee else MIN_BASE_FEE
  }

  function Clamped(gasUsed: nat, gasLimit: int): nat
    requires gasLimit > 0
  {
    if gasUsed > gasLimit then gasLimit else gasUsed
  }

  function CalculateBaseFee(parentBaseFee: nat, parentGasUsed: nat, gasLimit: int): int {
    if gasLimit <= 0 || Target(gasLimit) == 0 then parentBaseFee
    else FeeAt(parentBaseFee, Clamped(parentGasUsed, gasLimit), Target(gasLimit))
  }

  // ----- arithmetic used below

  lemma MulMonotone(a: nat, b: nat, x: nat)
    requires a <= b
    ensures x * a <= x * b
  {
  }

  lemma MulCancelLess(d: nat, x: nat, y: nat)
    requires d * x < d * y
    ensures x < y
  {
    if x >= y {
      MulMonotone(y, x, d);
    }
  }

  lemma Quotient(n: nat, d: nat)
    requires d > 0
    ensures d * (n / d) <= n < d * (n / d + 1)
  {
    assert n == d * (n / d) + n % d;
    assert d * (n / d + 1) == d * (n / d) + d;
  }

  lemma QuotientsOrdered(a: nat, b: nat, d: nat, q: nat, r: nat)
    requires d * q <= a <= b < d * (r + 1)
    ensures q <= r
  {
    MulCancelLess(d, q, r + 1);
  }

  lemma QuotientIs(x: nat, d: nat, q: nat)
    requires d * q <= x * d < d * (q + 1)
    ensures q == x
  {
    assert d * (x + 1) == x * d + d && x * d == d * x;
    MulCancelLess(d, x, q + 1);
    if d > 0 {
      MulCancelLess(d, q, x + 1);
    }
  }

  lemma DivMonotone(a: nat, b: nat, d: nat)
    requires a <= b && d > 0
    ensures a / d <= b / d
  {
    var q, r := a / d, b / d;
    assert d * q <= a by { Quotient(a, d); }
    assert b < d * (r + 1) by { Quotient(b, d); }
    QuotientsOrdered(a, b, d, q, r);
  }

  lemma DivExact(x: nat, d: nat)
    requires d > 0
    ensures x * d / d == x
  {
    var q := x * d / d;
    assert d * q <= x * d < d * (q + 1) by { Quotient(x * d, d); }
    QuotientIs(x, d, q);
  }

  // ----- properties of the base fee

  lemma ChangeMonotone(fee: nat, d1: nat, d2: nat, target: nat)
    requires target > 0 && d1 <= d2
    ensures Change(fee, d1, target) <= Change(fee, d2, target)
  {
    MulMonotone(d1, d2, fee);
    DivMonotone(fee * d1, fee * d2, target);
    DivMonotone(fee * d1 / target, fee * d2 / target, 8);
  }

  lemma ChangeAtMostEighth(fee: nat, delta: nat, target: nat)
    requires target > 0 && delta <= target
    ensures Change(fee, delta, target) <= fee / 8
  {
    ChangeMonotone(fee, delta, target, target);
    DivExact(fee, target);
  }

  /** `d` is `fee * part / (8 * target)`, rounded down. */
  ghost predicate EighthOf(d: nat, fee: nat, part: nat, target: nat) {
    8 * target * d <= fee * part < 8 * target * (d + 1)
  }

  /** The two divisions round down like one by eight times the target. */
  lemma ChangeExactly(fee: nat, delta: nat, target: nat)
    requires target > 0
    ensures EighthOf(Change(fee, delta, target), fee, delta, target)
  {
    var x := fee * delta;
    var q := x / target;
    var c := q / 8;
    Quotient(x, target);
    assert 8 * c <= q < 8 * (c + 1);
    MulMonotone(8 * c, q, target);
    MulMonotone(q + 1, 8 * (c + 1), target);
    Regroup(target, c);
    Regroup(target, c + 1);
  }

  lemma Regroup(t: nat, c: nat)
    ensures t * (8 * c) == 8 * t * c
  {
  }

  /**
   * What the next base fee is, for a target of half the gas limit, rounded down: it moves by an eighth of the fee times
   * the relative distance from the target, up by at least 1, down to no less than 1 gwei.
   */
  lemma FeeExactly(fee: nat, gasUsed: nat, gasLimit: int, target: nat) returns (d: nat)
    requires 2 * target <= gasLimit < 2 * target + 2 || (gasLimit < 0 && target == 0)
    ensures var used := if gasUsed < gasLimit then gasUsed else gasLimit;
            var next := CalculateBaseFee(fee, gasUsed, gasLimit);
            if target == 0 || used == target then next == fee
            else if used > target then EighthOf(d, fee, used - target, target) && next == fee + if d > 0 then d else 1
            else EighthOf(d, fee, target - used, target)
                 && next == if fee - d > 1_000_000_000 then fee - d else 1_000_000_000
  {
    d := 0;
    if target > 0 {
      assert Target(gasLimit) == target;
      var delta := AbsDiff(Clamped(gasUsed, gasLimit), target);
      d := Change(fee, delta, target);
      ChangeExactly(fee, delta, target);
    }
  }

  function AbsDiff(a: int, b: int): nat { if a < b then b - a else a - b }

  /** Never below the floor once at or above it. */
  lemma StaysAboveFloor(fee: nat, gasUsed: nat, gasLimit: int)
    requires fee >= MIN_BASE_FEE
    ensures CalculateBaseFee(fee, gasUsed, gasLimit) >= MIN_BASE_FEE
  {
  }

  lemma MovesAtMostEighth(fee: nat, gasUsed: nat, gasLimit: int)
    requires fee >= MIN_BASE_FEE && (gasLimit <= 1 || gasLimit % 2 == 0)
    ensures 8 * AbsDiff(CalculateBaseFee(fee, gasUsed, gasLimit), fee) <= fee
  {
    if gasLimit > 1 {
      var used := Clamped(gasUsed, gasLimit);
      var target := Target(gasLimit);
      assert target == gasLimit / 2 && 2 * target == gasLimit;
      ChangeAtMostEighth(fee, AbsDiff(used, target), target);
    }
  }

  /** On an odd gas limit above 1 a full block can move the fee further. */
  lemma OddLimitMovesMore(gasLimit: int)
    requires gasLimit > 1 && gasLimit % 2 == 1
    ensures var fee := 8 * MIN_BASE_FEE * (gasLimit / 2);
            fee >= MIN_BASE_FEE && 8 * AbsDiff(CalculateBaseFee(fee, gasLimit, gasLimit), fee) > fee
  {
    var t := gasLimit / 2;
    var fee := 8 * MIN_BASE_FEE * t;
    assert Target(gasLimit) == t && gasLimit - t == t + 1;
    assert fee * (t + 1) == (8 * MIN_BASE_FEE * (t + 1)) * t;
    DivExact(8 * MIN_BASE_FEE * (t + 1), t);
    assert Change(fee, t + 1, t) == MIN_BASE_FEE * (t + 1);
    assert fee / 8 == MIN_BASE_FEE * t;
  }

  ghost predicate AlwaysWithinEighth(gasLimit: int) {
    forall fee: nat, used: nat :: fee >= MIN_BASE_FEE ==>
      8 * AbsDiff(CalculateBaseFee(fee, used, gasLimit), fee) <= fee
  }

  /**
   * The bound of an eighth per block holds for all fees from the floor up
   * exactly when the gas limit is even, or at most 1.
   */
  lemma WithinEighthExactly(gasLimit: int)
    ensures AlwaysWithinEighth(gasLimit) <==> gasLimit <= 1 || gasLimit % 2 == 0
  {
    if gasLimit <= 1 || gasLimit % 2 == 0 {
      forall fee: nat, used: nat | fee >= MIN_BASE_FEE
        ensures 8 * AbsDiff(CalculateBaseFee(fee, used, gasLimit), fee) <= fee
      {
        MovesAtMostEighth(fee, used, gasLimit);
      }
    } else {
      OddLimitMovesMore(gasLimit);
      var fee := 8 * MIN_BASE_FEE * (gasLimit / 2);
      assert 8 * AbsDiff(CalculateBaseFee(fee, gasLimit, gasLimit), fee) > fee;
    }
  }

  /** More gas used never means a lower fee. */
  lemma MonotoneInGasUsed(fee: nat, used1: nat, used2: nat, gasLimit: int)
    requires fee >= MIN_BASE_FEE && used1 <= used2
    ensures CalculateBaseFee(fee, used1, gasLimit) <= CalculateBaseFee(fee, used2, gasLimit)
  {
    if gasLimit > 0 && Target(gasLimit) > 0 {
      FeeAtMonotone(fee, Clamped(used1, gasLimit), Clamped(used2, gasLimit), Target(gasLimit));
    }
  }

  lemma FeeAtMonotone(fee: nat, u1: nat, u2: nat, target: nat)
    requires fee >= MIN_BASE_FEE && u1 <= u2 && target > 0
    ensures FeeAt(fee, u1, target) <= FeeAt(fee, u2, target)
  {
    if u1 > target {
      ChangeMonotone(fee, u1 - target, u2 - target, target);
    } else if u2 < target {
      ChangeMonotone(fee, target - u2, target - u1, target);
    }
  }

  function AfterEmptyBlocks(fee: nat, n: nat, gasLimit: int): int
    decreases n
  {
    if n == 0 then fee
    else
      var f := AfterEmptyBlocks(fee, n - 1, gasLimit);
      if f < 0 then f else CalculateBaseFee(f, 0, gasLimit)
  }

  lemma EmptyBlockLowers(fee: nat, gasLimit: int)
    requires fee >= MIN_BASE_FEE && gasLimit > 1
    ensures var next := CalculateBaseFee(fee, 0, gasLimit);
            MIN_BASE_FEE <= next && (next == MIN_BASE_FEE || next <= fee - fee / 8)
  {
    var target := Target(gasLimit);
    DivExact(fee, target);
    assert Change(fee, target, target) == fee / 8;
  }

  /** Empty blocks bring any fee down to the floor and keep it there. */
  lemma {:induction false} ReachesFloor(fee: nat, n: nat, gasLimit: int)
    requires fee >= MIN_BASE_FEE && gasLimit > 1
    ensures AfterEmptyBlocks(fee, n, gasLimit) >= MIN_BASE_FEE
    ensures AfterEmptyBlocks(fee, n, gasLimit) == MIN_BASE_FEE
            || AfterEmptyBlocks(fee, n, gasLimit) <= fee - n * (MIN_BASE_FEE / 8)
    ensures n * (MIN_BASE_FEE / 8) >= fee ==> AfterEmptyBlocks(fee, n, gasLimit) == MIN_BASE_FEE
  {
    if n > 0 {
      ReachesFloor(fee, n - 1, gasLimit);
      var f := AfterEmptyBlocks(fee, n - 1, gasLimit);
      EmptyBlockLowers(f, gasLimit);
      assert f / 8 >= MIN_BASE_FEE / 8;
    }
  }

  // ----- blob gas

  const TARGET_BLOB_GAS_PER_BLOCK: int := 393_216
  const BLOB_GAS_PRICE_UPDATE_FRACTION: nat := 3_338_477
  const MIN_BLOB_GAS_PRICE: nat := 1

  function CalculateExcessBlobGas(parentExcess: nat, parentUsed: nat): nat {
    if parentExcess + parentUsed < TARGET_BLOB_GAS_PER_BLOCK then 0
    else parentExcess + parentUsed - TARGET_BLOB_GAS_PER_BLOCK
  }

  /** How far `i` is from making the factor numerator / (denominator * i) smaller than one. */
  function Gap(numerator: nat, denominator: nat, i: nat): nat {
    if denominator * i <= numerator then numerator - denominator * i + 1 else 0
  }

  function NextTerm(acc: nat, numerator: nat, denominator: nat, i: nat): nat
    requires denominator > 0 && i > 0
  {
    MulMonotone(1, i, denominator);
    acc * numerator / (denominator * i)
  }

  /** Each term is the one before times numerator / (denominator * i), rounded down. */
  lemma TermExactly(acc: nat, numerator: nat, denominator: nat, i: nat)
    requires denominator > 0 && i > 0
    ensures var t := NextTerm(acc, numerator, denominator, i);
            (denominator * i) * t <= acc * numerator < (denominator * i) * (t + 1)
  {
    MulMonotone(1, i, denominator);
    Quotient(acc * numerator, denominator * i);
  }

  lemma TermShrinks(acc: nat, numerator: nat, denominator: nat, i: nat)
    requires acc > 0 && denominator > 0 && i > 0
    ensures Gap(numerator, denominator, i + 1) < Gap(numerator, denominator, i)
            || (Gap(numerator, denominator, i + 1) == Gap(numerator, denominator, i)
                && NextTerm(acc, numerator, denominator, i) < acc)
  {
    assert denominator * (i + 1) == denominator * i + denominator;
    MulMonotone(1, i, denominator);
    var d := denominator * i;
    if d > numerator {
      MulMonotone(numerator + 1, d, acc);
      assert acc * (numerator + 1) == acc * numerator + acc && acc * d == d * acc;
      Quotient(acc * numerator, d);
      MulCancelLess(d, NextTerm(acc, numerator, denominator, i), acc);
    }
  }

  /** The sum of the series from term `i` on, whose value is `acc`; terms may grow before they vanish. */
  function SeriesFrom(acc: nat, numerator: nat, denominator: nat, i: nat): nat
    requires denominator > 0 && i > 0
    decreases Gap(numerator, denominator, i), acc
  {
    if acc == 0 then 0
    else
      TermShrinks(acc, numerator, denominator, i);
      acc + SeriesFrom(NextTerm(acc, numerator, denominator, i), numerator, denominator, i + 1)
  }

  lemma SeriesUnfolds(acc: nat, next: nat, numerator: nat, denominator: nat, i: nat)
    requires denominator > 0 && i > 0 && acc > 0 && next == NextTerm(acc, numerator, denominator, i)
    ensures SeriesFrom(acc, numerator, denominator, i) == acc + SeriesFrom(next, numerator, denominator, i + 1)
    ensures Gap(numerator, denominator, i + 1) < Gap(numerator, denominator, i)
            || (Gap(numerator, denominator, i + 1) == Gap(numerator, denominator, i) && next < acc)
  {
    TermShrinks(acc, numerator, denominator, i);
  }

  method FakeExponential(factor: nat, numerator: nat, denominator: nat) returns (r: nat)
    requires denominator > 0
    ensures r == SeriesFrom(factor * denominator, numerator, denominator, 1) / denominator
  {
    var i: nat, output: nat, acc: nat := 1, 0, factor * denominator;
    ghost var total := SeriesFrom(acc, numerator, denominator, 1);
    while acc > 0
      invariant i > 0 && output + SeriesFrom(acc, numerator, denominator, i) == total
      decreases Gap(numerator, denominator, i), acc
    {
      var next := NextTerm(acc, numerator, denominator, i);
      SeriesUnfolds(acc, next, numerator, denominator, i);
      output, acc, i := output + acc, next, i + 1;
    }
    return output / denominator;
  }

  function BlobGasPrice(excess: nat): nat {
    SeriesFrom(MIN_BLOB_GAS_PRICE * BLOB_GAS_PRICE_UPDATE_FRACTION, excess, BLOB_GAS_PRICE_UPDATE_FRACTION, 1)
    / BLOB_GAS_PRICE_UPDATE_FRACTION
  }

  lemma NextTermMonotone(a1: nat, a2: nat, n1: nat, n2: nat, denominator: nat, i: nat)
    requires denominator > 0 && i > 0 && a1 <= a2 && n1 <= n2
    ensures NextTerm(a1, n1, denominator, i) <= NextTerm(a2, n2, denominator, i)
  {
    MulMonotone(1, i, denominator);
    MulMonotone(a1, a2, n1);
    MulMonotone(n1, n2, a2);
    assert a1 * n1 == n1 * a1 && n1 * a2 == a2 * n1;
    DivMonotone(a1 * n1, a2 * n2, denominator * i);
  }

  lemma {:induction false} SeriesMonotone(a1: nat, a2: nat, n1: nat, n2: nat, denominator: nat, i: nat)
    requires denominator > 0 && i > 0 && a1 <= a2 && n1 <= n2
    ensures SeriesFrom(a1, n1, denominator, i) <= SeriesFrom(a2, n2, denominator, i)
    decreases Gap(n1, denominator, i), a1
  {
    if a1 > 0 {
      TermShrinks(a1, n1, denominator, i);
      TermShrinks(a2, n2, denominator, i);
      NextTermMonotone(a1, a2, n1, n2, denominator, i);
      SeriesMonotone(NextTerm(a1, n1, denominator, i), NextTerm(a2, n2, denominator, i), n1, n2, denominator, i + 1);
    }
  }

  /** The result is at least the factor and grows with the numerator and with the factor. */
  lemma ExponentialBounds(f1: nat, f2: nat, n1: nat, n2: nat, denominator: nat)
    requires denominator > 0 && f1 <= f2 && n1 <= n2
    ensures SeriesFrom(f1 * denominator, n1, denominator, 1) / denominator >= f1
    ensures SeriesFrom(f1 * denominator, n1, denominator, 1) / denominator
            <= SeriesFrom(f2 * denominator, n2, denominator, 1) / denominator
  {
    assert SeriesFrom(f1 * denominator, n1, denominator, 1) >= f1 * denominator;
    DivMonotone(f1 * denominator, SeriesFrom(f1 * denominator, n1, denominator, 1), denominator);
    DivExact(f1, denominator);
    MulMonotone(f1, f2, denominator);
    SeriesMonotone(f1 * denominator, f2 * denominator, n1, n2, denominator, 1);
    DivMonotone(SeriesFrom(f1 * denominator, n1, denominator, 1), SeriesFrom(f2 * denominator, n2, denominator, 1),
                denominator);
  }

  /** The excess is what both blocks used above 393216, if anything. */
  lemma ExcessExactly(parentExcess: nat, parentUsed: nat)
    ensures var e := CalculateExcessBlobGas(parentExcess, parentUsed);
            if parentExcess + parentUsed >= 393_216 then e + 393_216 == parentExcess + parentUsed else e == 0
  {
  }

  /** The series starts with the factor and then the factor times numerator / denominator. */
  lemma FirstTerms(factor: nat, numerator: nat, denominator: nat)
    requires denominator > 0 && factor > 0 && numerator > 0
    ensures SeriesFrom(factor * denominator, numerator, denominator, 1)
            == factor * denominator + SeriesFrom(factor * numerator, numerator, denominator, 2)
    ensures SeriesFrom(factor * denominator, numerator, denominator, 1) >= factor * denominator + factor * numerator
  {
    var acc := factor * denominator;
    MulMonotone(1, factor, denominator);
    MulMonotone(1, factor, numerator);
    assert acc * numerator == (factor * numerator) * denominator;
    DivExact(factor * numerator, denominator);
    assert denominator * 1 == denominator;
    assert NextTerm(acc, numerator, denominator, 1) == factor * numerator;
    SeriesUnfolds(acc, factor * numerator, numerator, denominator, 1);
    assert SeriesFrom(factor * numerator, numerator, denominator, 2) >= factor * numerator;
  }

  /** The blob price is that series for a factor of 1 and a denominator of 3338477. */
  lemma BlobPriceAtLeast(excess: nat)
    ensures BlobGasPrice(excess) >= (3_338_477 + excess) / 3_338_477
    ensures 3_338_477 * BlobGasPrice(excess) <= SeriesFrom(3_338_477, excess, 3_338_477, 1)
  {
    if excess > 0 {
      FirstTerms(1, excess, 3_338_477);
    } else {
      ExponentialBounds(1, 1, 0, 0, 3_338_477);
    }
    DivMonotone(3_338_477 + excess, SeriesFrom(3_338_477, excess, 3_338_477, 1), 3_338_477);
    Quotient(SeriesFrom(3_338_477, excess, 3_338_477, 1), 3_338_477);
  }

  // ----- the series stays below the exponential

  ghost function ExpNext(x: real, term: real, i: nat): real
    requires i > 0
  {
    term * (x / i as real)
  }

  /** `k` terms of the exponential series of `x`, from one whose value is `term` and whose successor is the `i`th. */
  ghost function ExpTerms(x: real, term: real, i: nat, k: nat): real
    requires i > 0
    decreases k
  {
    if k == 0 then 0.0 else term + ExpTerms(x, ExpNext(x, term, i), i + 1, k - 1)
  }

  lemma TimesMonotone(a: real, b: real, c: real)
    requires a <= b && c >= 0.0
    ensures a * c <= b * c
  {
  }

  lemma {:induction false} ExpTermsMonotone(x: real, a: real, b: real, i: nat, k: nat)
    requires i > 0 && x >= 0.0 && a <= b
    ensures ExpTerms(x, a, i, k) <= ExpTerms(x, b, i, k)
    decreases k
  {
    if k > 0 {
      TimesMonotone(a, b, x / i as real);
      ExpTermsMonotone(x, ExpNext(x, a, i), ExpNext(x, b, i), i + 1, k - 1);
    }
  }

  lemma TermBelow(acc: nat, numerator: nat, denominator: nat, i: nat, x: real)
    requires denominator > 0 && i > 0 && x == numerator as real / denominator as real
    ensures NextTerm(acc, numerator, denominator, i) as real <= ExpNext(x, acc as real, i)
  {
    var t := NextTerm(acc, numerator, denominator, i);
    TermExactly(acc, numerator, denominator, i);
    var d, n, a, j, u := denominator as real, numerator as real, acc as real, i as real, t as real;
    assert ((denominator * i) * t) as real == d * j * u && (acc * numerator) as real == a * n;
    assert x * d == n;
    assert u * j * d <= a * x * d;
    assert u * j <= a * x;
    var y := x / j;
    assert y * j == x;
    assert u * j <= (a * y) * j;
  }

  lemma NextSum(acc: nat, next: nat, sum: nat, x: real, i: nat, k: nat)
    requires i > 0 && x >= 0.0 && next as real <= ExpNext(x, acc as real, i)
    requires sum as real <= ExpTerms(x, next as real, i + 1, k)
    ensures (acc + sum) as real <= ExpTerms(x, acc as real, i, k + 1)
  {
    ExpTermsMonotone(x, next as real, ExpNext(x, acc as real, i), i + 1, k);
  }

  /** Rounded down at every step, the sum of the terms is at most that of as many terms of the exponential series. */
  lemma {:induction false} SeriesBelow(acc: nat, numerator: nat, denominator: nat, i: nat, x: real) returns (k: nat)
    requires denominator > 0 && i > 0 && x == numerator as real / denominator as real && x >= 0.0
    ensures SeriesFrom(acc, numerator, denominator, i) as real <= ExpTerms(x, acc as real, i, k)
    decreases Gap(numerator, denominator, i), acc
  {
    if acc == 0 {
      k := 0;
    } else {
      TermShrinks(acc, numerator, denominator, i);
      var next := NextTerm(acc, numerator, denominator, i);
      var rest := SeriesBelow(next, numerator, denominator, i + 1, x);
      TermBelow(acc, numerator, denominator, i, x);
      NextSum(acc, next, SeriesFrom(next, numerator, denominator, i + 1), x, i, rest);
      k := rest + 1;
    }
  }

  /** Without excess the price is the minimum; more excess, or more blob gas used by the parent, never lowers it. */
  lemma BlobPriceMonotone(excess: nat, used1: nat, used2: nat)
    requires used1 <= used2
    ensures BlobGasPrice(CalculateExcessBlobGas(excess, used1)) <= BlobGasPrice(CalculateExcessBlobGas(excess, used2))
    ensures BlobGasPrice(0) == MIN_BLOB_GAS_PRICE
  {
    ExponentialBounds(MIN_BLOB_GAS_PRICE, MIN_BLOB_GAS_PRICE, CalculateExcessBlobGas(excess, used1),
                      CalculateExcessBlobGas(excess, used2),
                      BLOB_GAS_PRICE_UPDATE_FRACTION);
    var f := BLOB_GAS_PRICE_UPDATE_FRACTION;
    assert NextTerm(f, 0, f, 1) == 0;
    DivExact(1, f);
  }
}
