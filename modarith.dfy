/** Integer arithmetic modulo n for the SM2 signature equations: the
    congruence rules the signing and verification formulas rest on, the
    greatest common divisor, and the modular inverse by the extended
    Euclidean algorithm. */
module ModArith {

  // ---------------------------------------------------------------------
  // Euclidean division
  // ---------------------------------------------------------------------

  /** The quotient and remainder of a by n are the only ones with the
      remainder in [0, n). */
  lemma DivModUnique(a: int, n: int, q: int, r: int)
    requires n > 0 && a == q * n + r && 0 <= r < n
    ensures a / n == q && a % n == r
  {
    var q0, r0 := a / n, a % n;
    assert a == q0 * n + r0;
    assert (q - q0) * n == r0 - r;
    if q > q0 {
      MulAtLeast(q - q0, n);
    } else if q < q0 {
      MulAtLeast(q0 - q, n);
    }
  }

  lemma MulAtLeast(m: int, n: int)
    requires m >= 1 && n > 0
    ensures m * n >= n
  {
    assert m * n == (m - 1) * n + n;
  }

  /** Adding a multiple of n leaves the remainder unchanged. */
  lemma ModAddMultiple(a: int, m: int, n: int)
    requires n > 0
    ensures (a + m * n) % n == a % n
  {
    assert a == (a / n) * n + a % n;
    assert a + m * n == (a / n + m) * n + a % n;
    DivModUnique(a + m * n, n, a / n + m, a % n);
  }

  /** The remainder of a sum depends only on the remainders of its terms. */
  lemma ModAdd(a: int, b: int, n: int)
    requires n > 0
    ensures (a + b) % n == (a % n + b) % n
  {
    assert a == (a / n) * n + a % n;
    ModAddMultiple(a % n + b, a / n, n);
    assert a % n + b + (a / n) * n == a + b;
  }

  /** The remainder of a product depends only on the remainder of a factor. */
  lemma ModMul(a: int, b: int, n: int)
    requires n > 0
    ensures (a * b) % n == ((a % n) * b) % n
  {
    assert a == (a / n) * n + a % n;
    assert a * b == (a % n) * b + ((a / n) * b) * n by {
      assert a * b == ((a / n) * n + a % n) * b;
    }
    ModAddMultiple((a % n) * b, (a / n) * b, n);
  }

  lemma ModOfMod(a: int, n: int)
    requires n > 0
    ensures (a % n) % n == a % n
  {
    DivModUnique(a % n, n, 0, a % n);
  }

  // ---------------------------------------------------------------------
  // Greatest common divisor and the modular inverse
  // ---------------------------------------------------------------------

  /** Euclid's algorithm. */
  function Gcd(a: nat, b: nat): (g: nat)
    decreases b
  {
    if b == 0 then a else Gcd(b, a % b)
  }

  /** The Bezout coefficients of the extended Euclidean algorithm, from which
      this model computes the inverse: a * x + b * y == Gcd(a, b). How the
      big-number library computes its inverse is not part of this model. */
  function Bezout(a: nat, b: nat): (xy: (int, int))
    ensures a * xy.0 + b * xy.1 == Gcd(a, b)
    decreases b
  {
    if b == 0 then (1, 0)
    else
      var (x, y) := Bezout(b, a % b);
      BezoutStep(a, b, x, y);
      (y, x - (a / b) * y)
  }

  /** The step of Bezout: coefficients for b and a % b give coefficients for a and b. */
  lemma BezoutStep(a: nat, b: nat, x: int, y: int)
    requires b > 0
    ensures a * y + b * (x - (a / b) * y) == b * x + (a % b) * y
  {
    assert a == (a / b) * b + a % b;
    assert a * y == ((a / b) * b) * y + (a % b) * y by {
      assert a * y == ((a / b) * b + a % b) * y;
    }
    assert b * (x - (a / b) * y) == b * x - ((a / b) * b) * y;
  }

  /** The inverse of a modulo n, in [0, n). */
  function Inverse(a: nat, n: nat): (v: nat)
    requires n > 1
    ensures v < n
  {
    Bezout(a % n, n).0 % n
  }

  /** When a and n have no common factor, Inverse is the inverse of a modulo n. */
  lemma InverseCorrect(a: nat, n: nat)
    requires n > 1 && Gcd(a % n, n) == 1
    ensures (a * Inverse(a, n)) % n == 1
  {
    var (x, y) := Bezout(a % n, n);
    var v := Inverse(a, n);
    assert v == x % n;
    ModMul(x, a, n);
    assert (a * v) % n == (a * x) % n by {
      assert v * a == a * v && x * a == a * x;
    }
    ModMul(a, x, n);
    assert (a % n) * x == 1 + (-y) * n;
    ModAddMultiple(1, -y, n);
    DivModUnique(1, n, 0, 1);
    assert ((a % n) * x) % n == 1;
  }

  ghost predicate Prime(n: nat)
  {
    n > 1 && forall d: nat :: 1 < d < n ==> n % d != 0
  }

  /** A prime shares no factor with a number strictly between 0 and itself. */
  lemma PrimeCoprime(a: nat, n: nat)
    requires Prime(n) && 0 < a < n
    ensures Gcd(a % n, n) == 1
  {
    DivModUnique(a, n, 0, a);
    var g := Gcd(a, n);
    var qa, qn := GcdFactors(a, n);
    GcdPositive(a, n);
    if g >= n {
      PositiveFactor(qa, g);
      MulAtLeast(qa, g);
    } else if g > 1 {
      DivModUnique(n, g, qn, 0);
    }
  }

  lemma PositiveFactor(m: int, n: int)
    requires n > 0 && m * n > 0
    ensures m >= 1
  {
  }

  lemma GcdPositive(a: nat, b: nat)
    requires a > 0 || b > 0
    ensures Gcd(a, b) > 0
    decreases b
  {
    if b > 0 {
      GcdPositive(b, a % b);
    }
  }

  /** The greatest common divisor divides both numbers: the quotients. */
  lemma {:induction false} GcdFactors(a: nat, b: nat) returns (qa: int, qb: int)
    ensures a == qa * Gcd(a, b) && b == qb * Gcd(a, b)
    decreases b
  {
    var g := Gcd(a, b);
    if b == 0 {
      qa, qb := 1, 0;
    } else {
      var q1, q2 := GcdFactors(b, a % b);
      FactorStep(a, b, g, q1, q2);
      qa, qb := (a / b) * q1 + q2, q1;
    }
  }

  /** The step of GcdFactors: g divides a when it divides b and a % b. */
  lemma FactorStep(a: nat, b: nat, g: int, q1: int, q2: int)
    requires b > 0 && b == q1 * g && a % b == q2 * g
    ensures a == ((a / b) * q1 + q2) * g
  {
    assert a == (a / b) * b + a % b;
    assert (a / b) * b == ((a / b) * q1) * g;
  }
}
