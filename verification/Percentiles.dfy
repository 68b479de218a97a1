/**
 * The floating-point product by which the calibration finds 95 % of the calls: for all sums that counters come to in
 * practice it is the exact one, rounded down.
 */
module Percentiles {
  import opened Calibration
  import opened Sums
  import opened Converter

  /** A double has 53 bits. */
  const MANTISSA := 9007199254740992

  predicate Represents(m: nat, k: nat, x: real) {
    m < MANTISSA && (x * Pow2(k) as real == m as real || x == (m * Pow2(k)) as real)
  }

  /** A number that is not negative and is a double, without a bound on its exponent. */
  ghost predicate IsDouble(x: real) {
    exists m: nat, k: nat :: Represents(m, k, x)
  }

  function Distance(x: real, y: real): real {
    if x < y then y - x else x - y
  }

  /** A nearest double; which one if there are two is left open. */
  ghost predicate RoundsTo(p: real, x: real) {
    IsDouble(x) && forall y :: IsDouble(y) ==> Distance(x, p) <= Distance(y, p)
  }

  /** The constant 0.95 as a double. */
  const PERCENT: real := 8556839292003942.0 / 9007199254740992.0

  lemma NaturalIsDouble(n: nat)
    requires n < MANTISSA
    ensures IsDouble(n as real)
  {
    assert Represents(n, 0, n as real);
  }

  lemma Pow2Ten()
    ensures Pow2(10) == 1024
  {
    assert Pow2(5) == 32;
  }

  /** Near every number that is not too large there is a double with ten binary places. */
  lemma NearDouble(p: real) returns (y: real)
    requires 0.0 <= p <= 1099511627776.0
    ensures IsDouble(y) && y <= p && p - y < 0.001
  {
    var m := (p * 1024.0).Floor;
    y := m as real / 1024.0;
    Pow2Ten();
    assert Represents(m, 10, y);
  }

  lemma Distribute(a: real, b: real, c: real)
    ensures (a - b) * c == a * c - b * c
    ensures a > b && c > 0.0 ==> (a - b) * c > 0.0
  {}

  /** A fraction of `k` parts below a whole number is at least one part below it. */
  lemma WholeParts(n: nat, x: real, k: nat, m: nat)
    requires x < n as real && x * k as real == m as real && k > 0
    ensures (n as real - x) * k as real >= 1.0
  {
    Distribute(n as real, x, k as real);
    var d := n * k - m;
    assert d as real == n as real * k as real - m as real;
    if d <= 0 {
      InOrder(d, 0);
    } else {
      InOrder(1, d);
    }
  }

  lemma InOrder(a: int, b: int)
    requires a <= b
    ensures a as real <= b as real
  {}

  lemma FloorIs(x: real, n: nat)
    requires n as real <= x < n as real + 1.0
    ensures x.Floor == n
  {}

  lemma GapTimes(x: real, gap: real, k: real, m: real)
    requires 0.0 < x && 0.0 < gap && x * k == m && m < MANTISSA as real && gap * k >= 1.0
    ensures x < gap * MANTISSA as real
  {
    assert x * (gap * k) == gap * m;
    assert x <= x * (gap * k);
  }

  /** A double below a whole number is at least its own last place below it. */
  lemma DoubleGap(n: nat, x: real)
    requires IsDouble(x) && n as real - 1.0 < x < n as real && 0.0 < x
    ensures x < (n as real - x) * MANTISSA as real
  {
    hide Pow2;
    var m: nat, k: nat :| Represents(m, k, x);
    if x * Pow2(k) as real == m as real {
      WholeParts(n, x, Pow2(k), m);
      GapTimes(x, n as real - x, Pow2(k) as real, m as real);
    } else {
      NotBetween(n, x, m * Pow2(k));
    }
  }

  lemma NotBetween(n: nat, x: real, m: nat)
    requires n as real - 1.0 < x < n as real
    ensures x != m as real
  {
    if m < n {
      InOrder(m, n - 1);
    } else {
      InOrder(n, m);
    }
  }

  /** How far the product with the rounded constant is off. */
  function Offset(total: nat): real {
    0.4 * total as real / MANTISSA as real
  }

  lemma ProductOff(total: nat)
    requires total <= 1099511627776
    ensures total as real * PERCENT == 0.95 * total as real - Offset(total)
    ensures 0.0 <= Offset(total) < 0.0001
    ensures Offset(total) * MANTISSA as real == 0.4 * total as real
  {}

  lemma Hundredths(total: nat)
    ensures var n := Percentile(total);
            if 95 * total % 100 == 0 then 0.95 * total as real == n as real
            else n as real + 0.05 <= 0.95 * total as real <= n as real + 0.95
  {
    var n, q := Percentile(total), 95 * total;
    assert q % 5 == 0 && 100 * n <= q < 100 * n + 100;
    assert 0.95 * total as real == q as real / 100.0;
    if q % 100 == 0 {
      assert q == 100 * n;
    } else {
      assert 100 * n + 5 <= q <= 100 * n + 95;
      InOrder(100 * n + 5, q);
      InOrder(q, 100 * n + 95);
    }
  }

  /** If 95 % is no whole number, the product is far enough from one. */
  lemma BetweenWholes(total: nat, x: real)
    requires total <= 1099511627776 && RoundsTo(total as real * PERCENT, x) && 95 * total % 100 != 0
    ensures x.Floor == Percentile(total)
  {
    hide Percentile, Offset, Represents, IsDouble;
    var p := total as real * PERCENT;
    ProductOff(total);
    Hundredths(total);
    InOrder(total, 1099511627776);
    var y := NearDouble(p);
    assert Distance(x, p) <= Distance(y, p) < 0.001;
    FloorIs(x, Percentile(total));
  }

  /** No double lies between a whole 95 % and the product. */
  lemma NoDoubleBelow(total: nat, n: nat, x: real)
    requires total <= 1099511627776 && n as real == 0.95 * total as real && 0 < n
    requires IsDouble(x) && n as real - 2.0 * Offset(total) <= x
    ensures n as real <= x
  {
    hide IsDouble;
    ProductOff(total);
    InOrder(1, n);
    if x < n as real {
      DoubleGap(n, x);
    }
  }

  /** If it is a whole number, the product is rounded to that number. */
  lemma AtWhole(total: nat, x: real)
    requires total <= 1099511627776 && RoundsTo(total as real * PERCENT, x) && 95 * total % 100 == 0
    ensures x.Floor == Percentile(total)
  {
    hide Offset, IsDouble;
    var n, p := Percentile(total), total as real * PERCENT;
    ProductOff(total);
    Hundredths(total);
    NaturalIsDouble(n);
    assert Distance(x, p) <= Distance(n as real, p) == Offset(total);
    if n > 0 {
      NoDoubleBelow(total, n, x);
    }
    FloorIs(x, n);
  }

  /** The product, rounded to a double and then down, is the exact 95 % rounded down. */
  lemma FloatPercentile(total: nat, x: real)
    requires total <= 1099511627776 && RoundsTo(total as real * PERCENT, x)
    ensures x.Floor == 95 * total / 100
  {
    if 95 * total % 100 != 0 {
      BetweenWholes(total, x);
    } else {
      AtWhole(total, x);
    }
  }

  // --------------------------------------------------------------------------------- the constant

  lemma {:induction false} Pow2Splits(a: nat, b: nat)
    ensures Pow2(a + b) == Pow2(a) * Pow2(b)
    decreases a
  {
    if a > 0 {
      Pow2Splits(a - 1, b);
    }
  }

  lemma Pow2Mantissa()
    ensures Pow2(53) == MANTISSA
  {
    Pow2Ten();
    Pow2Splits(10, 10);
    Pow2Splits(20, 20);
    Pow2Splits(40, 10);
    Pow2Splits(50, 3);
    assert Pow2(3) == 8;
  }

  lemma ManyPlaces(k: nat)
    requires k > 53
    ensures Pow2(k) as real >= 2.0 * MANTISSA as real
  {
    Pow2Mantissa();
    Pow2Splits(53, k - 53);
    assert Pow2(k - 53) == 2 * Pow2(k - 54);
    InOrder(2 * MANTISSA, Pow2(k));
  }

  lemma HalfTimes(y: real, k: real)
    requires y > 0.5 && k > 0.0
    ensures y * k > 0.5 * k
  {}

  lemma FewPlaces(y: real, k: nat, m: nat)
    requires 0.5 < y && y * Pow2(k) as real == m as real && m < MANTISSA
    ensures k <= 53
  {
    hide Pow2;
    InOrder(m, MANTISSA);
    HalfTimes(y, Pow2(k) as real);
    if k > 53 {
      ManyPlaces(k);
    }
  }

  /** Between one half and one, a double has at most 53 binary places. */
  lemma FiftyThreePlaces(y: real) returns (m: nat)
    requires IsDouble(y) && 0.5 < y < 1.0
    ensures y * MANTISSA as real == m as real
  {
    hide Pow2;
    var m0: nat, k: nat :| Represents(m0, k, y);
    m := 0;
    Pow2Mantissa();
    if y * Pow2(k) as real == m0 as real {
      FewPlaces(y, k, m0);
      Pow2Splits(k, 53 - k);
      m := m0 * Pow2(53 - k);
      assert MANTISSA as real == Pow2(k) as real * Pow2(53 - k) as real;
      assert y * (Pow2(k) as real * Pow2(53 - k) as real) == m0 as real * Pow2(53 - k) as real;
    } else {
      NotBetween(1, y, m0 * Pow2(k));
    }
  }

  /** The constant is the double next to 0.95. */
  lemma PercentIsNearest()
    ensures RoundsTo(0.95, PERCENT)
  {
    Pow2Mantissa();
    assert Represents(8556839292003942, 53, PERCENT);
    forall y | IsDouble(y) ensures Distance(PERCENT, 0.95) <= Distance(y, 0.95) {
      if 0.5 < y < 1.0 {
        var m := FiftyThreePlaces(y);
        if m <= 8556839292003942 {
          InOrder(m, 8556839292003942);
        } else {
          InOrder(8556839292003943, m);
        }
      }
    }
  }

  /** The sum of a histogram at the threshold, as a pool used by one goroutine has it. */
  lemma {:induction false} SequentialTotal(classes: seq<CallSize>)
    requires forall i :: 0 <= i < |classes| ==> classes[i].calls <= THRESHOLD + 1
    ensures Total(classes) <= (THRESHOLD + 1) * |classes|
  {
    if classes != [] {
      SequentialTotal(classes[..|classes| - 1]);
    }
  }

  /** So in a pool used by one goroutine the product is always the exact one. */
  lemma SequentialPercentile(counts: seq<nat>, x: real)
    requires |counts| == STEPS && forall i :: 0 <= i < |counts| ==> counts[i] <= 42001
    requires RoundsTo(Total(Classes(counts)) as real * PERCENT, x)
    ensures x.Floor == 95 * Total(Classes(counts)) / 100
  {
    SequentialTotal(Classes(counts));
    FloatPercentile(Total(Classes(counts)), x);
  }
}
