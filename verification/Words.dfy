/** Machine words, explicit wrap-around, and the few division facts the proofs lean on. */
module Words {

  const TWO32: int := 0x1_0000_0000
  const TWO64: int := 0x1_0000_0000_0000_0000

  type u32 = x: int | 0 <= x < TWO32
  type u64 = x: int | 0 <= x < TWO64

  /** Reduction modulo 2^64, as every unsigned 64-bit operation of the dataplane performs it. */
  function Wrap(x: int): (r: u64)
    ensures 0 <= x ==> r <= x
    ensures 0 <= x < TWO64 ==> r == x
  {
    x % TWO64
  }

  function Max(a: int, b: int): int {
    if a < b then b else a
  }

  /** How far `now` is past `last`; nothing if it is not. */
  function Gap(last: nat, now: nat): (e: nat)
    ensures last + e == Max(last, now)
  {
    if now > last then now - last else 0
  }

  lemma {:induction false} MulLe(a: int, b: int, c: int)
    requires a <= b && 0 <= c
    ensures a * c <= b * c
  {
  }

  /** Multiples of d lie d apart. */
  lemma {:induction false} Cancel(a: int, b: int, d: int)
    requires 0 < d
    requires a * d < b * d + d
    ensures a <= b
  {
    if b < a {
      MulLe(b + 1, a, d);
      assert false;
    }
  }

  lemma {:induction false} QuotientBound(x: int, d: int)
    requires 0 < d
    ensures (x / d) * d <= x < (x / d) * d + d
  {
  }

  /** The quotient of a division is determined by its remainder bound. */
  lemma {:induction false} QuotientIs(x: int, d: int, q: int)
    requires 0 < d
    requires q * d <= x < q * d + d
    ensures x / d == q
  {
    QuotientBound(x, d);
    Cancel(x / d, q, d);
    Cancel(q, x / d, d);
  }

  lemma {:induction false} DivLe(x: nat, d: nat)
    requires 0 < d
    ensures 0 <= x / d <= x
  {
    QuotientBound(x, d);
    Cancel(-1, x / d, d);
    MulLe(1, d, x / d);
  }

  // ---------------------------------------------------------------- multiplication, unfolded

  /** r * n. Defined by recursion, so that proofs about long runs stay in linear arithmetic. */
  function Times(r: nat, n: nat): nat {
    if n == 0 then 0 else Times(r, n - 1) + r
  }

  lemma {:induction false} TimesIsProduct(r: nat, n: nat)
    ensures Times(r, n) == r * n
  {
    if n > 0 {
      TimesIsProduct(r, n - 1);
      assert r * n == r * (n - 1) + r;
    }
  }

  lemma {:induction false} TimesAdd(r: nat, a: nat, b: nat)
    ensures Times(r, a + b) == Times(r, a) + Times(r, b)
  {
    if b > 0 {
      TimesAdd(r, a, b - 1);
    }
  }

  // ---------------------------------------------------------------- shifts of unbounded words

  /** x * 2^e. */
  function ShiftLeft(x: nat, e: nat): (r: nat)
    ensures x <= r
  {
    if e == 0 then x else 2 * ShiftLeft(x, e - 1)
  }

  /** floor(x / 2^e). */
  function ShiftRight(x: nat, e: nat): (r: nat)
    ensures r <= x
  {
    if e == 0 then x else ShiftRight(x, e - 1) / 2
  }

  function Pow2(e: nat): nat {
    ShiftLeft(1, e)
  }

  lemma {:induction false} ShiftLeftIsProduct(x: nat, e: nat)
    ensures ShiftLeft(x, e) == x * Pow2(e)
  {
    if e > 0 {
      ShiftLeftIsProduct(x, e - 1);
      assert x * (2 * Pow2(e - 1)) == 2 * (x * Pow2(e - 1));
    }
  }

  lemma {:induction false} ShiftRightBounds(x: nat, e: nat)
    ensures ShiftLeft(ShiftRight(x, e), e) <= x < ShiftLeft(ShiftRight(x, e) + 1, e)
  {
    if e > 0 {
      var q, p := ShiftRight(x, e), ShiftRight(x, e - 1);
      ShiftRightBounds(x, e - 1);
      Doubled(q, e - 1);
      Doubled(q + 1, e - 1);
      ShiftLeftMonotone(2 * q, p, e - 1);
      ShiftLeftMonotone(p + 1, 2 * (q + 1), e - 1);
    }
  }

  /** The right shift is integer division by 2^e. */
  lemma {:induction false} ShiftRightIsQuotient(x: nat, e: nat)
    ensures 0 < Pow2(e) && ShiftRight(x, e) == x / Pow2(e)
  {
    var q := ShiftRight(x, e);
    ShiftRightBounds(x, e);
    ShiftLeftIsProduct(q, e);
    ShiftLeftAdd(q, 1, e);
    QuotientIs(x, Pow2(e), q);
  }

  lemma {:induction false} Doubled(x: nat, e: nat)
    ensures ShiftLeft(2 * x, e) == 2 * ShiftLeft(x, e)
  {
    if e > 0 {
      Doubled(x, e - 1);
    }
  }

  lemma {:induction false} ShiftLeftAdd(x: nat, y: nat, e: nat)
    ensures ShiftLeft(x + y, e) == ShiftLeft(x, e) + ShiftLeft(y, e)
  {
    if e > 0 {
      ShiftLeftAdd(x, y, e - 1);
    }
  }

  lemma {:induction false} ShiftLeftTwice(x: nat, a: nat, b: nat)
    ensures ShiftLeft(ShiftLeft(x, a), b) == ShiftLeft(x, a + b)
  {
    if b > 0 {
      ShiftLeftTwice(x, a, b - 1);
    }
  }

  lemma {:induction false} ShiftLeftMonotone(x: nat, y: nat, e: nat)
    requires x <= y
    ensures ShiftLeft(x, e) <= ShiftLeft(y, e)
  {
    if e > 0 {
      ShiftLeftMonotone(x, y, e - 1);
    }
  }

  lemma {:induction false} ShiftLeftCancel(x: nat, y: nat, e: nat)
    requires ShiftLeft(x, e) < ShiftLeft(y, e)
    ensures x < y
  {
    if e > 0 {
      ShiftLeftCancel(x, y, e - 1);
    }
  }

  lemma {:induction false} ShiftLeftWider(x: nat, a: nat, b: nat)
    requires a <= b
    ensures ShiftLeft(x, a) <= ShiftLeft(x, b)
  {
    ShiftLeftTwice(x, a, b - a);
  }

  lemma {:induction false} ShiftRightTwice(x: nat, a: nat, b: nat)
    ensures ShiftRight(ShiftRight(x, a), b) == ShiftRight(x, a + b)
  {
    if b > 0 {
      ShiftRightTwice(x, a, b - 1);
    }
  }

  lemma {:induction false} ShiftRightMonotone(x: nat, y: nat, e: nat)
    requires x <= y
    ensures ShiftRight(x, e) <= ShiftRight(y, e)
  {
    if e > 0 {
      ShiftRightMonotone(x, y, e - 1);
    }
  }

  /** The shift is pinned down by its two bounds. */
  lemma {:induction false} ShiftRightIs(x: nat, e: nat, q: nat)
    requires ShiftLeft(q, e) <= x < ShiftLeft(q + 1, e)
    ensures ShiftRight(x, e) == q
  {
    ShiftRightBounds(x, e);
    ShiftLeftCancel(q, ShiftRight(x, e) + 1, e);
    ShiftLeftCancel(ShiftRight(x, e), q + 1, e);
  }

  lemma {:induction false} ShiftRightPlus(n: nat, b: nat, e: nat)
    ensures ShiftRight(n + ShiftLeft(b, e), e) == ShiftRight(n, e) + b
  {
    var q := ShiftRight(n, e);
    ShiftRightBounds(n, e);
    ShiftLeftAdd(q, b, e);
    ShiftLeftAdd(q + 1, b, e);
    ShiftRightIs(n + ShiftLeft(b, e), e, q + b);
  }

  /** Two shifted values are compared by cross-multiplying. */
  lemma {:induction false} ShiftRightCross(x: nat, b: nat, y: nat, a: nat)
    requires ShiftLeft(x, a) <= ShiftLeft(y, b)
    ensures ShiftRight(x, b) <= ShiftRight(y, a)
  {
    var q, p := ShiftRight(x, b), ShiftRight(y, a);
    ShiftRightBounds(x, b);
    ShiftRightBounds(y, a);
    ShiftLeftMonotone(ShiftLeft(q, b), x, a);
    ShiftLeftTwice(q, b, a);
    ShiftLeftTwice(q, a, b);
    if p < q {
      ShiftLeftMonotone(p + 1, q, a);
      ShiftLeftMonotone(y + 1, ShiftLeft(q, a), b);
      ShiftLeftAdd(y, 1, b);
      assert false;
    }
  }

  lemma {:induction false} Pow2At64()
    ensures Pow2(64) == TWO64
  {
    assert ShiftLeft(1, 8) == 256;
    assert ShiftLeft(256, 8) == 65536;
    ShiftLeftTwice(1, 8, 8);
    assert ShiftLeft(65536, 8) == 0x100_0000;
    ShiftLeftTwice(1, 16, 8);
    assert ShiftLeft(0x100_0000, 8) == TWO32;
    ShiftLeftTwice(1, 24, 8);
    assert ShiftLeft(TWO32, 8) == 0x100_0000_0000;
    ShiftLeftTwice(1, 32, 8);
    assert ShiftLeft(0x100_0000_0000, 8) == 0x1_0000_0000_0000;
    ShiftLeftTwice(1, 40, 8);
    assert ShiftLeft(0x1_0000_0000_0000, 8) == 0x100_0000_0000_0000;
    ShiftLeftTwice(1, 48, 8);
    assert ShiftLeft(0x100_0000_0000_0000, 8) == TWO64;
    ShiftLeftTwice(1, 56, 8);
  }

  /** A right shift of 64 or more leaves nothing of a 64-bit word. */
  lemma {:induction false} ShiftedOut(x: u64, e: nat)
    requires 64 <= e
    ensures ShiftRight(x, e) == 0
  {
    Pow2At64();
    ShiftLeftWider(1, 64, e);
    ShiftLeftWider(0, 0, e);
    ZeroShift(e);
    ShiftRightIs(x, e, 0);
  }

  lemma {:induction false} ZeroShift(e: nat)
    ensures ShiftLeft(0, e) == 0 && ShiftRight(0, e) == 0
  {
    if e > 0 {
      ZeroShift(e - 1);
    }
  }
}
