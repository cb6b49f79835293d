/** Integer and rounding vocabulary shared by the models. */
module Numeric {

  function Min(a: int, b: int): int {
    if a < b then a else b
  }

  function Max(a: int, b: int): int {
    if a > b then a else b
  }

  function MinR(a: real, b: real): real {
    if a < b then a else b
  }

  function MaxR(a: real, b: real): real {
    if a > b then a else b
  }

  function AbsR(a: real): real {
    if a < 0.0 then -a else a
  }

  function ClampR(v: real, lo: real, hi: real): real {
    if v < lo then lo else if v > hi then hi else v
  }

  /** clamp01f of the firmware. */
  function Clamp01(x: real): real {
    ClampR(x, 0.0, 1.0)
  }

  /** `1u << n`. */
  function Pow2(n: nat): (p: nat)
    ensures p >= 1
    ensures n > 0 ==> p % 2 == 0
  {
    if n == 0 then 1 else 2 * Pow2(n - 1)
  }

  /** lroundf: nearest integer, halves away from zero. */
  function Round(x: real): int {
    if x >= 0.0 then (x + 0.5).Floor else -((0.5 - x).Floor)
  }

  /** k is the whole number nearest to x, the greater one where two are. */
  predicate IsNearest(k: int, x: real) {
    -0.5 < k as real - x <= 0.5
  }

  /** What lroundf promises of a number that is not negative; no other whole number does. */
  lemma RoundIsNearest(x: real, k: int)
    requires 0.0 <= x
    ensures IsNearest(k, x) <==> k == Round(x)
  {
  }

  lemma RoundOfInt(k: int)
    ensures Round(k as real) == k
  {
    if k >= 0 {
      assert (k as real + 0.5).Floor == k;
    } else {
      assert (0.5 - k as real).Floor == -k;
    }
  }

  lemma RoundRange(x: real, hi: nat)
    requires 0.0 <= x <= hi as real
    ensures 0 <= Round(x) <= hi
  {
  }

  lemma ProductNonNegative(x: real, y: real)
    requires 0.0 <= x && 0.0 <= y
    ensures 0.0 <= x * y
  {
  }

  lemma ProductPositive(x: real, y: real)
    requires 0.0 < x && 0.0 < y
    ensures 0.0 < x * y
  {
  }

  /** A fraction of a block never leaves the block. */
  lemma FractionRange(f: real, n: nat)
    requires 0.0 <= f <= 1.0
    ensures 0.0 <= f * n as real <= n as real
    ensures 0 <= Round(f * n as real) <= n
  {
    ProductNonNegative(f, n as real);
    ProductNonNegative(1.0 - f, n as real);
    assert (1.0 - f) * n as real == n as real - f * n as real;
    RoundRange(f * n as real, n);
  }

  /** A fraction of n ticks. */
  function Part(f: real, n: nat): real {
    f * n as real
  }

  /** lroundf of it. */
  function NearestPart(f: real, n: nat): (k: nat)
    requires 0.0 <= f <= 1.0
    ensures k <= n
  {
    FractionRange(f, n);
    Round(Part(f, n))
  }

  lemma PartIsNearest(f: real, n: nat, k: int)
    requires 0.0 <= f <= 1.0
    ensures IsNearest(k, Part(f, n)) <==> k == NearestPart(f, n)
  {
    ProductNonNegative(f, n as real);
    RoundIsNearest(Part(f, n), k);
    hide Round, IsNearest;
  }

  lemma WholeParts(n: nat)
    ensures NearestPart(0.0, n) == 0 && NearestPart(1.0, n) == n
  {
    RoundOfInt(0);
    RoundOfInt(n);
    hide Round;
  }

  lemma DoubleProduct(x: int, y: int)
    ensures 2 * (x * y) == (2 * x) * y
  {
  }

  lemma {:induction false} Pow2Add(a: nat, b: nat)
    ensures Pow2(a + b) == Pow2(a) * Pow2(b)
    decreases a
  {
    if a == 0 {
    } else {
      Pow2Add(a - 1, b);
      assert Pow2(a + b) == 2 * Pow2(a - 1 + b);
      DoubleProduct(Pow2(a - 1), Pow2(b));
    }
  }

  lemma {:induction false} Pow2Monotone(a: nat, b: nat)
    requires a <= b
    ensures Pow2(a) <= Pow2(b)
  {
    if a < b {
      Pow2Monotone(a, b - 1);
    }
  }

  lemma MultipleAtLeast(k: int, b: int)
    requires b > 0 && k >= 1
    ensures k * b >= b
  {
  }

  /** The only multiple of b strictly between -b and b is zero. */
  lemma SmallMultiple(k: int, b: int)
    requires b > 0 && -b < k * b < b
    ensures k == 0
  {
    if k >= 1 {
      MultipleAtLeast(k, b);
    } else if k <= -1 {
      MultipleAtLeast(-k, b);
    }
  }

  lemma DivModExact(x: int, b: int)
    requires b > 0
    ensures x == (x / b) * b + x % b && 0 <= x % b < b
  {
  }

  /** Division with remainder is unique. */
  lemma DivModUnique(x: int, q: int, r: int, b: int)
    requires b > 0 && 0 <= r < b && x == q * b + r
    ensures x / b == q && x % b == r
  {
    DivModExact(x, b);
    DivModUniqueParts(q, r, x / b, x % b, b);
  }

  lemma DivModUniqueParts(q: int, r: int, q2: int, r2: int, b: int)
    requires b > 0 && 0 <= r < b && 0 <= r2 < b && q * b + r == q2 * b + r2
    ensures q == q2 && r == r2
  {
    assert (q - q2) * b == r2 - r;
    SmallMultiple(q - q2, b);
  }

  /** Adding whole multiples of the modulus changes nothing. */
  lemma ModShift(x: int, k: int, b: int)
    requires b > 0
    ensures (x + k * b) % b == x % b
  {
    var q, r := x / b, x % b;
    assert x + k * b == (q + k) * b + r;
    DivModUnique(x + k * b, q + k, r, b);
  }

  /** One step forward in a cyclic counter. */
  lemma ModSucc(x: int, b: int)
    requires b > 1
    ensures (x + 1) % b == if x % b == b - 1 then 0 else x % b + 1
  {
    var q, r := x / b, x % b;
    if r == b - 1 {
      assert x + 1 == (q + 1) * b + 0;
      DivModUnique(x + 1, q + 1, 0, b);
    } else {
      DivModUnique(x + 1, q, r + 1, b);
    }
  }

  /** x - a is congruent to d exactly when x is congruent to a + d. */
  lemma ModDifference(x: int, a: int, d: int, b: int)
    requires b > 0 && 0 <= d < b
    ensures (x - a) % b == d <==> x % b == (a + d) % b
  {
    if (x - a) % b == d {
      var q := (x - a) / b;
      assert x == (a + d) + q * b;
      ModShift(a + d, q, b);
    }
    if x % b == (a + d) % b {
      var q := x / b - (a + d) / b;
      assert x == (a + d) + q * b by {
        assert x == (x / b) * b + x % b;
        assert a + d == ((a + d) / b) * b + (a + d) % b;
        assert (x / b - (a + d) / b) * b == (x / b) * b - ((a + d) / b) * b;
      }
      assert x - a == q * b + d;
      DivModUnique(x - a, q, d, b);
    }
  }
}
