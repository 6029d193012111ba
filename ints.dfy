// Python's integer division: `divmod(a, b)`, `a // b` and `a % b` floor
// the quotient, so the remainder takes the sign of the divisor.
module Ints {

  /** `divmod(a, m)` for a positive divisor, by repeated subtraction or addition of `m`. */
  function DivModPos(a: int, m: nat): (int, int)
    decreases if a < 0 then m - a else a
  {
    if m == 0 || 0 <= a < m then (0, a)
    else if a >= m then
      var qr := DivModPos(a - m, m);
      (qr.0 + 1, qr.1)
    else
      var qr := DivModPos(a + m, m);
      (qr.0 - 1, qr.1)
  }

  /**
   * `divmod(a, b)`: the floored quotient and the remainder `a - b * q`,
   * which lies in `[0, b)` for a positive divisor and in `(b, 0]` for a
   * negative one.  Python rejects a zero divisor; the callers check for it,
   * and here it leaves `a` as it is.
   */
  function DivMod(a: int, b: int): (int, int)
  {
    if b > 0 then DivModPos(a, b)
    else if b < 0 then
      var qr := DivModPos(-a, -b);
      (qr.0, -qr.1)
    else (0, a)
  }

  /** The remainder range Python's `%` gives for divisor `b`. */
  predicate InRemainderRange(r: int, b: int) {
    (b > 0 ==> 0 <= r < b) && (b < 0 ==> b < r <= 0)
  }

  lemma {:induction false} DivModPosMeaning(a: int, m: nat)
    requires m > 0
    ensures 0 <= DivModPos(a, m).1 < m
    ensures a == DivModPos(a, m).0 * m + DivModPos(a, m).1
    decreases if a < 0 then m - a else a
  {
    if a >= m {
      DivModPosMeaning(a - m, m);
    } else if a < 0 {
      DivModPosMeaning(a + m, m);
    }
  }

  /** `a == (a // b) * b + a % b`, with the remainder in Python's range. */
  lemma DivModMeaning(a: int, b: int)
    requires b != 0
    ensures a == DivMod(a, b).0 * b + DivMod(a, b).1
    ensures InRemainderRange(DivMod(a, b).1, b)
  {
    if b > 0 {
      DivModPosMeaning(a, b);
    } else {
      DivModPosMeaning(-a, -b);
      var qr := DivModPos(-a, -b);
      assert -a == qr.0 * (-b) + qr.1;
    }
  }

  /** For a positive divisor Python's `//` and `%` are Dafny's `/` and `%`. */
  lemma DivModPositive(a: int, b: int)
    requires b > 0
    ensures DivMod(a, b).0 == a / b && DivMod(a, b).1 == a % b
    ensures 0 <= DivMod(a, b).1 < b && a == DivMod(a, b).0 * b + DivMod(a, b).1
  {
    DivModMeaning(a, b);
    DivUnique(a, b, a / b, a % b);
  }

  /** A quotient and a remainder in Python's range are the ones `divmod` gives. */
  lemma DivUnique(a: int, b: int, q: int, r: int)
    requires b != 0 && a == q * b + r && InRemainderRange(r, b)
    ensures DivMod(a, b) == (q, r)
  {
    DivModMeaning(a, b);
    var qr := DivMod(a, b);
    var d := q - qr.0;
    assert d * b == qr.1 - r;
    if b > 0 {
      MulBound(d, b);
    } else {
      assert (-d) * (-b) == qr.1 - r;
      MulBound(-d, -b);
    }
  }

  lemma {:induction false} MulBound(d: int, m: nat)
    ensures d > 0 ==> d * m >= m
    ensures d < 0 ==> d * m + m <= 0
    decreases if d < 0 then -d else d
  {
    if d > 1 {
      MulBound(d - 1, m);
    } else if d < -1 {
      MulBound(d + 1, m);
    }
  }

  /** Adding a multiple of the divisor leaves the remainder as it is. */
  lemma RemainderShift(a: int, c: int, b: int)
    requires b != 0
    ensures DivMod(a + c * b, b).1 == DivMod(a, b).1
  {
    DivModMeaning(a, b);
    var qr := DivMod(a, b);
    assert a + c * b == (qr.0 + c) * b + qr.1;
    DivUnique(a + c * b, b, qr.0 + c, qr.1);
  }

  /** `a % t == 0` for a nonzero divisor `t`. */
  predicate Divides(t: int, a: int) { t != 0 && DivMod(a, t).1 == 0 }

  /** What `t` divides is a multiple of `t`, and every multiple of `t` is divided by it. */
  lemma DividesMeaning(t: int, a: int, k: int)
    requires t != 0
    ensures Divides(t, a) ==> a == DivMod(a, t).0 * t
    ensures a == k * t ==> Divides(t, a)
  {
    DivModMeaning(a, t);
    if a == k * t {
      DivUnique(a, t, k, 0);
    }
  }

  /** `a % m == b % m`. */
  predicate Congruent(a: int, b: int, m: int) { DivMod(a, m).1 == DivMod(b, m).1 }

  /** Congruent numbers differ by a multiple of the modulus. */
  lemma CongruentDiff(a: int, b: int, m: int)
    requires m != 0 && Congruent(a, b, m)
    ensures a == b + (DivMod(a, m).0 - DivMod(b, m).0) * m
  {
    DivModMeaning(a, m);
    DivModMeaning(b, m);
  }

  /** Numbers that differ by a multiple of the modulus are congruent. */
  lemma CongruentShift(b: int, k: int, m: int)
    requires m != 0
    ensures Congruent(b + k * m, b, m)
  {
    RemainderShift(b, k, m);
  }

  /** `a % m` is congruent to `a`. */
  lemma ReduceCongruent(a: int, m: int)
    requires m != 0
    ensures Congruent(DivMod(a, m).1, a, m)
  {
    DivModMeaning(a, m);
    var qr := DivMod(a, m);
    RemainderShift(qr.1, qr.0, m);
    assert qr.1 + qr.0 * m == a;
  }

  lemma CongruentAdd(a: int, b: int, c: int, d: int, m: int)
    requires m != 0 && Congruent(a, b, m) && Congruent(c, d, m)
    ensures Congruent(a + c, b + d, m)
  {
    CongruentDiff(a, b, m);
    CongruentDiff(c, d, m);
    var k1 := DivMod(a, m).0 - DivMod(b, m).0;
    var k2 := DivMod(c, m).0 - DivMod(d, m).0;
    assert a + c == (b + d) + (k1 + k2) * m;
    CongruentShift(b + d, k1 + k2, m);
  }

  lemma CongruentMul(a: int, b: int, c: int, d: int, m: int)
    requires m != 0 && Congruent(a, b, m) && Congruent(c, d, m)
    ensures Congruent(a * c, b * d, m)
  {
    CongruentDiff(a, b, m);
    CongruentDiff(c, d, m);
    var k1 := DivMod(a, m).0 - DivMod(b, m).0;
    var k2 := DivMod(c, m).0 - DivMod(d, m).0;
    var k := k1 * d + b * k2 + k1 * k2 * m;
    calc {
      a * c;
      (b + k1 * m) * (d + k2 * m);
      b * d + (k1 * d + b * k2 + k1 * k2 * m) * m;
    }
    CongruentShift(b * d, k, m);
  }

  /** Congruence modulo `m` carries over to every divisor `t` of `m`. */
  lemma CongruentDivisor(a: int, b: int, m: int, t: int)
    requires m != 0 && Divides(t, m) && Congruent(a, b, m)
    ensures Congruent(a, b, t)
  {
    CongruentDiff(a, b, m);
    DividesMeaning(t, m, 0);
    var k := DivMod(a, m).0 - DivMod(b, m).0;
    var j := DivMod(m, t).0;
    assert a == b + k * (j * t);
    assert a == b + (k * j) * t;
    CongruentShift(b, k * j, t);
  }
}
