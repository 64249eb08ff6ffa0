/**
 * The Python integer operators the driver relies on, on unbounded integers.
 *
 * Python integers never overflow, `x >> k` rounds towards minus infinity,
 * `x << k` multiplies by 2^k, `//` is floor division for either sign of the
 * divisor, and `|` / `&` act on the infinite two's-complement expansion, so
 * that they are defined for negative operands too.  Dafny's `/` and `%` are
 * Euclidean, which agrees with Python only for a positive divisor; the
 * functions below make the difference explicit.
 */
module PyInt {

  function Abs(x: int): nat
  {
    if x < 0 then -x else x
  }

  /** 2^k, that is `1 << k`. */
  function Pow2(k: nat): (r: nat)
    ensures r >= 1
  {
    if k == 0 then 1 else 2 * Pow2(k - 1)
  }

  lemma {:induction false} Pow2Add(a: nat, b: nat)
    ensures Pow2(a + b) == Pow2(a) * Pow2(b)
  {
    if b > 0 {
      Pow2Add(a, b - 1);
      assert Pow2(a + b) == 2 * Pow2(a + b - 1);
    }
  }

  /** Larger shift counts give strictly larger powers of two. */
  lemma {:induction false} Pow2Strict(i: nat, j: nat)
    requires i < j
    ensures Pow2(i) < Pow2(j)
  {
    if i + 1 < j {
      Pow2Strict(i, j - 1);
    }
  }

  /** `x << k` */
  function Shl(x: int, k: nat): int
  {
    x * Pow2(k)
  }

  /** `x >> k`: the floor of x / 2^k, also for negative x. */
  function Shr(x: int, k: nat): (r: int)
    ensures Pow2(k) * r <= x < Pow2(k) * r + Pow2(k)
  {
    x / Pow2(k)
  }

  /** Division with remainder is unique for a positive divisor. */
  lemma DivModUnique(a: int, d: int, q: int, r: int)
    requires d > 0 && 0 <= r < d && a == d * q + r
    ensures a / d == q && a % d == r
  {
    var q', r' := a / d, a % d;
    assert d * q' + r' == d * q + r;
    if q' > q {
      assert d * (q' - q) == d * q' - d * q;
      MulAtLeast(d, q' - q);
    } else if q' < q {
      assert d * (q - q') == d * q - d * q';
      MulAtLeast(d, q - q');
    }
  }

  lemma {:induction false} MulAtLeast(d: int, n: int)
    requires d > 0 && n >= 1
    ensures d * n >= d
    decreases n
  {
    if n > 1 {
      MulAtLeast(d, n - 1);
      assert d * n == d * (n - 1) + d;
    }
  }

  /**
   * Python's `a // b`: the floor of the real quotient a / b, which for a
   * negative divisor is not Dafny's Euclidean `/`.
   */
  function FloorDiv(a: int, b: int): (q: int)
    requires b != 0
    ensures b > 0 ==> b * q <= a < b * q + b
    ensures b < 0 ==> b * q + b < a <= b * q
  {
    if b > 0 then a / b
    else
      var q := (-a) / (-b);
      assert (-b) * q <= -a < (-b) * q + (-b);
      assert (-b) * q == -(b * q);
      q
  }

  /** Python's `a | b` on the infinite two's-complement expansions. */
  function Or(a: int, b: int): int
    decreases Abs(a) + Abs(b)
  {
    if a == 0 then b
    else if b == 0 then a
    else if a == -1 || b == -1 then -1
    else 2 * Or(a / 2, b / 2) + (if a % 2 == 1 || b % 2 == 1 then 1 else 0)
  }

  /** Python's `a & b` on the infinite two's-complement expansions. */
  function And(a: int, b: int): int
    decreases Abs(a) + Abs(b)
  {
    if a == 0 || b == 0 then 0
    else if a == -1 then b
    else if b == -1 then a
    else 2 * And(a / 2, b / 2) + (if a % 2 == 1 && b % 2 == 1 then 1 else 0)
  }

  lemma HalfOfShl(a: int, k: nat)
    requires k > 0
    ensures Shl(a, k) / 2 == Shl(a, k - 1) && Shl(a, k) % 2 == 0
  {
    DivModUnique(Shl(a, k), 2, Shl(a, k - 1), 0);
  }

  /**
   * OR-ing a value below 2^k into a value shifted left by k is addition:
   * `(a << k) | b == (a << k) + b`, whatever the sign of a.
   */
  lemma {:induction false} OrShiftedLow(a: int, b: int, k: nat)
    requires 0 <= b < Pow2(k)
    ensures Or(Shl(a, k), b) == Shl(a, k) + b
  {
    var x := Shl(a, k);
    if k == 0 {
      assert b == 0;
    } else if x != 0 && b != 0 {
      HalfOfShl(a, k);
      assert x != -1;
      OrShiftedLow(a, b / 2, k - 1);
      assert Or(x, b) == 2 * Or(x / 2, b / 2) + b % 2;
    }
  }

  /** a % (2 * p) splits into the lowest bit and the remainder of a / 2. */
  lemma ModDouble(a: int, p: int)
    requires p > 0
    ensures a % (2 * p) == 2 * ((a / 2) % p) + a % 2
    ensures a / (2 * p) == (a / 2) / p
  {
    var q1, r1 := a / 2, a % 2;
    var q2, r2 := q1 / p, q1 % p;
    assert a == 2 * q1 + r1;
    assert q1 == p * q2 + r2;
    assert a == (2 * p) * q2 + (2 * r2 + r1);
    DivModUnique(a, 2 * p, q2, 2 * r2 + r1);
  }

  /** `a & (2^k - 1)` keeps the k low bits: it is a mod 2^k. */
  lemma {:induction false} AndLowMask(a: int, k: nat)
    ensures And(a, Pow2(k) - 1) == a % Pow2(k)
    decreases k
  {
    var m := Pow2(k) - 1;
    if k > 0 && a != 0 && a != -1 {
      var p := Pow2(k - 1);
      assert m == 2 * (p - 1) + 1;
      DivModUnique(m, 2, p - 1, 1);
      assert And(a, m) == 2 * And(a / 2, p - 1) + a % 2;
      AndLowMask(a / 2, k - 1);
      ModDouble(a, p);
    } else if k > 0 && a == -1 {
      DivModUnique(-1, Pow2(k), -1, m);
    }
  }

  /** `a & 2^k` is 2^k exactly when bit k of a is set. */
  lemma {:induction false} AndSingleBit(a: int, k: nat)
    ensures And(a, Pow2(k)) == Pow2(k) * ((a / Pow2(k)) % 2)
    decreases k
  {
    var m := Pow2(k);
    if a == 0 {
    } else if a == -1 {
      DivModUnique(-1, m, -1, m - 1);
    } else if k == 0 {
      assert And(a, 1) == 2 * And(a / 2, 0) + (if a % 2 == 1 then 1 else 0);
    } else {
      var p := Pow2(k - 1);
      assert m == 2 * p;
      DivModUnique(m, 2, p, 0);
      assert And(a, m) == 2 * And(a / 2, p);
      AndSingleBit(a / 2, k - 1);
      ModDouble(a, p);
      assert a / m == (a / 2) / p;
    }
  }
}
