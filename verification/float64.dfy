/** Integer model of the IEEE 754 binary64 ("double") arithmetic behind
    Python's `int(x * 1.1)` and `int(x / 1.1)`: the exact rational result is
    rounded to a 53-bit significand, ties to even, and `int()` then truncates
    it toward zero. Only non-negative results below 2^53 are modelled, where
    every integer is itself a double. */
module Float64 {
  import opened IntMath

  /** A binary64 significand has 53 bits: it lies in [2^52, 2^53). */
  const TWO52: nat := 0x10_0000_0000_0000
  const TWO53: nat := 0x20_0000_0000_0000

  /** a / b rounded to the nearest integer, ties to the even neighbour
      (the IEEE 754 default rounding). */
  function RoundHalfEven(a: nat, b: nat): (n: nat)
    requires b > 0
    ensures 2 * (n * b) <= 2 * a + b
    ensures 2 * a <= 2 * (n * b) + b
    ensures 2 * (n * b) == 2 * a + b || 2 * a == 2 * (n * b) + b ==> n % 2 == 0
  {
    var f := a / b;
    var r := a % b;
    var n := if 2 * r > b then f + 1
             else if 2 * r < b then f
             else if f % 2 == 0 then f
             else f + 1;
    NearestNeighbour(a, b, f, r, n);
    n
  }

  /** The choice made by `RoundHalfEven` between the two neighbours f and
      f + 1 of a / b meets its contract. */
  lemma NearestNeighbour(a: nat, b: nat, f: nat, r: nat, n: nat)
    requires b > 0 && f == a / b && r == a % b
    requires 2 * r > b ==> n == f + 1
    requires 2 * r < b ==> n == f
    requires 2 * r == b ==> n == (if f % 2 == 0 then f else f + 1)
    ensures 2 * (n * b) <= 2 * a + b
    ensures 2 * a <= 2 * (n * b) + b
    ensures 2 * (n * b) == 2 * a + b || 2 * a == 2 * (n * b) + b ==> n % 2 == 0
  {
    var fb := f * b;
    assert a == fb + r;
    assert (f + 1) * b == fb + b;
  }

  /** The power of two T (a multiple t * 2^k of the start value t) that
      brings a * T / b into the significand range [2^52, 2^53): the binary
      exponent of the double nearest to a / b is -log2(T). The search moves
      by a factor of 256 while the target is at least that far away. */
  function Scale(a: nat, b: nat, t: nat): (T: nat)
    requires a > 0 && b > 0 && t >= 1
    ensures T >= t
    ensures TWO52 * b <= a * T
    ensures T == t || a * T < TWO53 * b
    decreases if TWO52 * b <= a * t then 0 else TWO52 * b - a * t
  {
    assert a * (128 * t) == 128 * (a * t);
    assert a * (256 * t) == 256 * (a * t);
    assert a * (2 * t) == 2 * (a * t);
    assert a * t >= 1 by { MulLe(1, a, t); }
    if TWO52 * b <= a * t then t
    else if a * (128 * t) < TWO52 * b then Scale(a, b, 256 * t)
    else Scale(a, b, 2 * t)
  }

  /** `int()` of the double nearest to the exact quotient a / b, for
      0 <= a / b < 2^53. The result is never below the exact floor (every
      integer below 2^53 is a double, so rounding cannot cross one) and
      exceeds the exact quotient by a relative error of at most 2^-53. */
  function TruncRounded(a: nat, b: nat): (r: nat)
    requires b > 0 && a < TWO53 * b
    ensures a / b <= r
    ensures r * b * TWO53 <= a * (TWO53 + 1)
  {
    if a == 0 then 0
    else
      var T := Scale(a, b, 1);
      var n := RoundHalfEven(a * T, b);
      RoundingBounds(a, b, T, n);
      n / T
  }

  /** The two bounds of `TruncRounded`, for a significand n of a * T / b. */
  lemma RoundingBounds(a: nat, b: nat, T: nat, n: nat)
    requires b > 0 && T >= 1
    requires TWO52 * b <= a * T
    requires 2 * (n * b) <= 2 * (a * T) + b
    requires 2 * (a * T) <= 2 * (n * b) + b
    ensures a / b <= n / T
    ensures (n / T) * b * TWO53 <= a * (TWO53 + 1)
  {
    RoundingLower(a, b, T, n);
    RoundingUpper(a, b, T, n);
  }

  lemma RoundingLower(a: nat, b: nat, T: nat, n: nat)
    requires b > 0 && T >= 1
    requires 2 * (a * T) <= 2 * (n * b) + b
    ensures a / b <= n / T
  {
    var k := a / b;
    assert k * b <= a;
    var kT := k * T;
    assert kT * b <= a * T by {
      MulLe(k * b, a, T);
      MulComm3(k, b, T);
    }
    assert kT <= n by {
      if n < kT {
        MulLe(n + 1, kT, b);
      }
    }
    DivAtLeast(n, T, k);
  }

  /** k * T <= n implies k <= n / T. */
  lemma DivAtLeast(n: nat, T: nat, k: nat)
    requires T >= 1 && k * T <= n
    ensures k <= n / T
  {
    var q := n / T;
    assert n == q * T + n % T;
    if q < k {
      MulLe(q + 1, k, T);
    }
  }

  lemma RoundingUpper(a: nat, b: nat, T: nat, n: nat)
    requires b > 0 && T >= 1
    requires TWO52 * b <= a * T
    requires 2 * (n * b) <= 2 * (a * T) + b
    ensures (n / T) * b * TWO53 <= a * (TWO53 + 1)
  {
    RelativeError(a, b, T, n, TWO52);
  }

  /** The relative-error step of `RoundingUpper` with the significand bound
      2^52 abstracted as K. */
  lemma RelativeError(a: nat, b: nat, T: nat, n: nat, K: nat)
    requires b > 0 && T >= 1
    requires K * b <= a * T
    requires 2 * (n * b) <= 2 * (a * T) + b
    ensures (n / T) * b * (2 * K) <= a * (2 * K + 1)
  {
    var r := n / T;
    FloorTimes(n, T);
    var x := r * b * (2 * K);
    var y := a * (2 * K + 1);
    TruncatedSignificand(r, T, n, b * (2 * K));
    assert x * T <= n * b * (2 * K);
    HalfUnitBound(n * b, a * T, b, K);
    assert y * T == a * T * (2 * K + 1) by { MulComm3(a, 2 * K + 1, T); }
    MulLeCancel(x, y, T);
  }

  lemma FloorTimes(n: nat, T: nat)
    requires T >= 1
    ensures (n / T) * T <= n
  {
    assert n == (n / T) * T + n % T;
  }

  lemma TruncatedSignificand(r: nat, T: nat, n: nat, c: nat)
    requires r * T <= n
    ensures r * c * T <= n * c
  {
    MulLe(r * T, n, c);
    MulComm3(r, T, c);
  }

  /** 2 nb <= 2 aT + b and K b <= aT give nb * 2K <= aT * (2K + 1). */
  lemma HalfUnitBound(nb: nat, aT: nat, b: nat, K: nat)
    requires K * b <= aT
    requires 2 * nb <= 2 * aT + b
    ensures nb * (2 * K) <= aT * (2 * K + 1)
  {
    MulLe(2 * nb, 2 * aT + b, K);
    assert (2 * aT + b) * K == aT * (2 * K) + K * b;
  }

  lemma MulComm3(x: int, y: int, z: int)
    ensures x * y * z == x * z * y
  {
  }

  lemma MulLeCancel(x: nat, y: nat, z: nat)
    requires z > 0 && x * z <= y * z
    ensures x <= y
  {
    if x > y {
      MulLe(y + 1, x, z);
    }
  }
}
