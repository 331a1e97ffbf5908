/** Time limits on their way from a request to the deadline: seconds are stored as whole milliseconds,
    read back as 32-bit floating-point seconds, and turned into whole microseconds
    (app/src/services/ProblemService.cpp, app/src/Application.cpp, judge/src/actuators/Actuator.cpp). */
module Limits {

  /** Conversion to an unsigned integer cuts off the fraction. */
  function Truncate(x: real): (n: int)
    requires x >= 0.0
    ensures n as real <= x < n as real + 1.0
  {
    x.Floor
  }

  /** Whole milliseconds, as stored. */
  function Stored(seconds: real): int
    requires seconds >= 0.0
  {
    Truncate(seconds * 1000.0)
  }

  /** The deadline in microseconds rebuilt from stored milliseconds, without rounding. */
  function Rebuilt(ms: int): int
    requires ms >= 0
  {
    Truncate(ms as real / 1000.0 * 1_000_000.0)
  }

  lemma RebuiltIsExact(ms: int)
    requires ms >= 0
    ensures Rebuilt(ms) == 1000 * ms
  {
    assert ms as real / 1000.0 * 1_000_000.0 == (1000 * ms) as real;
  }

  lemma StoredAgain(ms: int)
    requires ms >= 0
    ensures Stored(ms as real / 1000.0) == ms
  {
    assert ms as real / 1000.0 * 1000.0 == ms as real;
  }

  /** Without rounding, one pass loses less than a millisecond, and a second pass loses nothing. */
  lemma OnePassLosesLessThanAMillisecond(seconds: real)
    requires seconds >= 0.0
    ensures Stored(seconds) >= 0
    ensures var lost := seconds * 1_000_000.0 - Rebuilt(Stored(seconds)) as real; 0.0 <= lost < 1000.0
    ensures Stored(Stored(seconds) as real / 1000.0) == Stored(seconds)
  {
    RebuiltIsExact(Stored(seconds));
    StoredAgain(Stored(seconds));
  }

  /** The relative error of one binary32 operation, 2^-24 (section 4.3.1 of IEEE 754-2019). */
  const UNIT: real := 1.0 / 16_777_216.0

  predicate Rounding(d: real) { -UNIT <= d <= UNIT }

  function Cube(x: real): real { x * x * x }

  lemma Scale(low: real, high: real, x: real)
    requires low <= high && x >= 0.0
    ensures low * x <= high * x
  {}

  lemma MultiplyBounds(lx: real, x: real, hx: real, ly: real, y: real, hy: real)
    requires 0.0 <= lx <= x <= hx && 0.0 <= ly <= y <= hy
    ensures 0.0 <= lx * ly
    ensures lx * ly <= x * y
    ensures x * y <= hx * hy
  {
    calc {
      lx * ly;
    <= { Scale(lx, x, ly); }
      x * ly;
      ly * x;
    <= { Scale(ly, y, x); }
      y * x;
    }
    calc {
      x * y;
    <= { Scale(x, hx, y); }
      hx * y;
      y * hx;
    <= { Scale(y, hy, hx); }
      hy * hx;
    }
  }

  /** Three roundings together stay within the cube of the largest factor, in both directions. */
  lemma ThreeRoundings(d1: real, d2: real, d3: real)
    requires Rounding(d1) && Rounding(d2) && Rounding(d3)
    ensures var product := (1.0 + d1) * (1.0 + d2) * (1.0 + d3);
      0.0 <= 2.0 - Cube(1.0 + UNIT) <= product <= Cube(1.0 + UNIT)
  {
    var low, high := 1.0 - UNIT, 1.0 + UNIT;
    MultiplyBounds(low, 1.0 + d1, high, low, 1.0 + d2, high);
    MultiplyBounds(low * low, (1.0 + d1) * (1.0 + d2), high * high, low, 1.0 + d3, high);
  }

  /** The product before truncation, when the conversion to binary32, the division by 1000 and the
      multiplication by a million each round with a relative error of their own. */
  function Microseconds(ms: int, d1: real, d2: real, d3: real): real
  {
    ms as real * (1.0 + d1) / 1000.0 * (1.0 + d2) * 1_000_000.0 * (1.0 + d3)
  }

  /** Each rounding contributes its own factor. */
  lemma RoundingsMultiply(ms: int, d1: real, d2: real, d3: real)
    ensures Microseconds(ms, d1, d2, d3) == (1.0 + d1) * (1.0 + d2) * (1.0 + d3) * (1000.0 * ms as real)
  {}

  lemma MicrosecondsIsScaled(ms: int, d1: real, d2: real, d3: real) returns (product: real)
    requires Rounding(d1) && Rounding(d2) && Rounding(d3)
    ensures Microseconds(ms, d1, d2, d3) == product * (1000.0 * ms as real)
    ensures 0.0 <= 2.0 - Cube(1.0 + UNIT) <= product <= Cube(1.0 + UNIT)
  {
    product := (1.0 + d1) * (1.0 + d2) * (1.0 + d3);
    ThreeRoundings(d1, d2, d3);
  }

  lemma ScaledNearOne(exact: real, product: real, most: real)
    requires exact >= 0.0 && 0.0 <= 2.0 - most <= product <= most
    ensures 0.0 <= exact - exact * (most - 1.0) <= product * exact <= exact + exact * (most - 1.0)
  {
    calc {
      exact - exact * (most - 1.0);
      (2.0 - most) * exact;
    <= { Scale(2.0 - most, product, exact); }
      product * exact;
    <= { Scale(product, most, exact); }
      most * exact;
      exact + exact * (most - 1.0);
    }
    Scale(0.0, 2.0 - most, exact);
  }

  /** Rounding and truncation move the wall deadline by at most the compounded error plus one microsecond. */
  lemma DeadlineErrorIsBounded(ms: int, d1: real, d2: real, d3: real)
    requires ms >= 0 && Rounding(d1) && Rounding(d2) && Rounding(d3)
    ensures Microseconds(ms, d1, d2, d3) >= 0.0
    ensures var error := Truncate(Microseconds(ms, d1, d2, d3)) as real - 1000.0 * ms as real;
      var bound := 1000.0 * ms as real * (Cube(1.0 + UNIT) - 1.0) + 1.0;
      -bound <= error <= bound
  {
    var product := MicrosecondsIsScaled(ms, d1, d2, d3);
    ScaledNearOne(1000.0 * ms as real, product, Cube(1.0 + UNIT));
  }
}
