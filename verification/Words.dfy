/** 32-bit words as the sources use them: unsigned integers that wrap, with shifts and a bitwise `&`. */
module Words {

  const TWO32: int := 0x1_0000_0000

  type uint32 = x: int | 0 <= x < 0x1_0000_0000

  function Pow2(e: nat): (r: nat)
    ensures 0 < r
  {
    if e == 0 then 1 else 2 * Pow2(e - 1)
  }

  /** `x << k` on a 32-bit word. */
  function Shl(x: uint32, k: nat): uint32 {
    (x * Pow2(k)) % TWO32
  }

  /** Unsigned division. */
  function Div(a: nat, b: nat): (q: nat)
    requires 0 < b
    ensures q <= a
  {
    DivideBounds(a, b);
    a / b
  }

  /** `x >> k` on a 32-bit word. */
  function Shr(x: uint32, k: nat): uint32 {
    Div(x, Pow2(k))
  }

  /** Bitwise `a & b`, from the lowest bit up. */
  function And(a: int, b: int): int
    decreases if a < 0 then 0 else a
  {
    if a <= 0 || b <= 0 then 0
    else 2 * And(a / 2, b / 2) + (a % 2) * (b % 2)
  }

  /** Multiplication by a non-negative factor keeps order. */
  lemma MulLe(d: int, a: int, b: int)
    ensures 0 <= d && a <= b ==> d * a <= d * b
  {
    if 0 <= d && a <= b {
      assert d * b - d * a == d * (b - a);
    }
  }

  lemma DivideBounds(x: nat, d: nat)
    requires 0 < d
    ensures 0 <= x / d <= x
  {
    var q := x / d;
    assert x == d * q + x % d;
    MulLe(q, 1, d);
  }

  lemma {:induction false} Pow2Adds(a: nat, b: nat)
    ensures Pow2(a + b) == Pow2(a) * Pow2(b)
  {
    if a == 0 {
    } else {
      Pow2Adds(a - 1, b);
      assert a + b - 1 == (a - 1) + b;
      assert Pow2(a) * Pow2(b) == 2 * (Pow2(a - 1) * Pow2(b));
    }
  }

  lemma {:induction false} Pow2Of32()
    ensures Pow2(32) == TWO32
  {
    assert Pow2(8) == 256;
    Pow2Adds(8, 8);
    Pow2Adds(16, 16);
  }

  /** Masking with m ones keeps every value of at most m bits. */
  lemma {:induction false} AndOnes(x: nat, m: nat)
    requires x < Pow2(m)
    ensures And(x, Pow2(m) - 1) == x
  {
    if m == 0 {
    } else {
      AndOnes(x / 2, m - 1);
      assert (Pow2(m) - 1) / 2 == Pow2(m - 1) - 1;
      assert (Pow2(m) - 1) % 2 == 1;
    }
  }

  lemma DoubleMod(x: nat, d: nat)
    requires 0 < d
    ensures x % (2 * d) == 2 * (x / 2 % d) + x % 2
  {
    var q, r := x / 2 / d, x / 2 % d;
    assert x == 2 * (x / 2) + x % 2;
    assert x / 2 == d * q + r;
    assert x == (2 * d) * q + (2 * r + x % 2);
    QuotientUnique(x, 2 * d, q, 2 * r + x % 2);
  }

  /** Division with remainder has one answer. */
  lemma QuotientUnique(x: int, d: int, q: int, r: int)
    requires 0 < d && x == d * q + r && 0 <= r < d
    ensures x / d == q && x % d == r
  {
    var q', r' := x / d, x % d;
    assert x == d * q' + r' && 0 <= r' < d;
    MulLe(d, q + 1, q');
    MulLe(d, q' + 1, q);
  }

  /** A mask of m ones above e zeros clears exactly the low e bits. */
  lemma {:induction false} AndHighOnes(x: nat, m: nat, e: nat)
    requires x < Pow2(e + m)
    ensures And(x, (Pow2(m) - 1) * Pow2(e)) == x - x % Pow2(e)
  {
    if e == 0 {
      AndOnes(x, m);
      assert (Pow2(m) - 1) * Pow2(e) == Pow2(m) - 1;
    } else {
      AndHighOnes(x / 2, m, e - 1);
      DoubleMod(x, Pow2(e - 1));
      DoubleMask(x, Pow2(m) - 1, Pow2(e - 1));
    }
  }

  lemma {:induction false} DoubleMask(x: nat, ones: nat, low: nat)
    ensures And(x, ones * (2 * low)) == 2 * And(x / 2, ones * low)
  {
    var m := ones * low;
    TwiceProduct(ones, low);
    AndDouble(x, m);
  }

  lemma TwiceProduct(a: nat, b: nat)
    ensures a * (2 * b) == 2 * (a * b) && 0 <= a * b
  {
  }

  lemma {:induction false} AndDouble(x: nat, mask: nat)
    ensures And(x, 2 * mask) == 2 * And(x / 2, mask)
  {
    assert (2 * mask) / 2 == mask && (2 * mask) % 2 == 0;
    if x == 0 || mask == 0 {
      assert And(x, 2 * mask) == 0;
    } else {
      assert And(x, 2 * mask) == 2 * And(x / 2, (2 * mask) / 2);
    }
  }
}
