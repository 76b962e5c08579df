/** Operations on concrete words, worked out: what these lemmas require is plain arithmetic on the numbers given. */
module WordValues {
  import opened W = Words
  import opened BitWords

  // Exclusive or, from the highest digit down.

  lemma ZeroXor(a: nat)
    ensures Xor(a, 0) == a && Xor(0, a) == a
  {
    hide Xor, Or;
    XorZero(a);
    XorCommutes(a, 0);
  }

  lemma XorBit(a: nat, b: nat, c: nat, x: nat, y: nat, z: nat)
    requires Xor(a, b) == c && x < 2 && y < 2 && z < 2 && (x == y <==> z == 0)
    ensures Xor(2 * a + x, 2 * b + y) == 2 * c + z
  {
    hide Xor;
    XorStep(2 * a + x, 2 * b + y);
    assert (2 * a + x) / 2 == a && (2 * b + y) / 2 == b;
  }

  /** Four bits more. */
  lemma XorFour(a: nat, b: nat, c: nat, x: Bits, y: Bits, z: Bits)
    requires Xor(a, b) == c && x.Valid() && y.Valid() && z.Valid()
    requires (x.b3 == y.b3 <==> z.b3 == 0) && (x.b2 == y.b2 <==> z.b2 == 0)
    requires (x.b1 == y.b1 <==> z.b1 == 0) && (x.b0 == y.b0 <==> z.b0 == 0)
    ensures Xor(16 * a + x.Value(), 16 * b + y.Value()) == 16 * c + z.Value()
  {
    hide Xor;
    XorBit(a, b, c, x.b3, y.b3, z.b3);
    XorBit(2 * a + x.b3, 2 * b + y.b3, 2 * c + z.b3, x.b2, y.b2, z.b2);
    XorBit(4 * a + 2 * x.b3 + x.b2, 4 * b + 2 * y.b3 + y.b2, 4 * c + 2 * z.b3 + z.b2, x.b1, y.b1, z.b1);
    XorBit(8 * a + 4 * x.b3 + 2 * x.b2 + x.b1, 8 * b + 4 * y.b3 + 2 * y.b2 + y.b1,
           8 * c + 4 * z.b3 + 2 * z.b2 + z.b1, x.b0, y.b0, z.b0);
  }

  /** The bits of a hexadecimal digit. */
  datatype Bits = Bits(b3: nat, b2: nat, b1: nat, b0: nat) {
    predicate Valid() {
      b3 < 2 && b2 < 2 && b1 < 2 && b0 < 2
    }

    function Value(): nat {
      8 * b3 + 4 * b2 + 2 * b1 + b0
    }
  }

  function BitsOf(x: nat): Bits {
    Bits(x / 8 % 2, x / 4 % 2, x / 2 % 2, x % 2)
  }

  lemma BitsOfDigit(x: nat)
    requires x < 16
    ensures BitsOf(x).Valid() && BitsOf(x).Value() == x
  {
    var b := BitsOf(x);
    Nonnegative(x);
    HighHalf(x);
    Low(x);
    Rejoin(x, b.b3, b.b2, b.b1, b.b0, x % 4);
  }

  lemma Nonnegative(x: nat)
    ensures BitsOf(x).Valid()
  {
  }

  lemma Rejoin(x: nat, b3: nat, b2: nat, b1: nat, b0: nat, r: nat)
    requires 8 * b3 + 4 * b2 + r == x && 2 * b1 + b0 == r
    ensures 8 * b3 + 4 * b2 + 2 * b1 + b0 == x
  {
  }

  lemma HighHalf(x: nat)
    requires x < 16
    ensures 8 * (x / 8 % 2) + 4 * (x / 4 % 2) + x % 4 == x
  {
    var q, r := x / 4, x % 4;
    assert x == 4 * q + r;
    HalfOfFour(q, x);
  }

  lemma Low(x: nat)
    requires x < 16
    ensures 2 * (x / 2 % 2) + x % 2 == x % 4
  {
    var q, r := x / 4, x % 4;
    assert x == 4 * q + r;
    LowHalf(x, q, r);
  }

  lemma HalfOfFour(q: nat, x: nat)
    requires q < 4 && 4 * q <= x < 4 * q + 4
    ensures x / 4 == q && q == 2 * (x / 8) + q % 2 && x / 8 < 2
  {
    QuotientUnique(x, 4, q, x - 4 * q);
    QuotientUnique(x, 8, if q < 2 then 0 else 1, if q < 2 then x else x - 8);
  }

  lemma LowHalf(x: nat, q: nat, r: nat)
    requires x == 4 * q + r && r < 4
    ensures r == 2 * (x / 2 % 2) + x % 2
  {
    QuotientUnique(x, 2, 2 * q + if r < 2 then 0 else 1, if r < 2 then r else r - 2);
  }

  /** A hexadecimal digit more. */
  lemma XorDigit(a: nat, b: nat, c: nat, x: nat, y: nat, z: nat)
    requires Xor(a, b) == c
    requires x < 16 && y < 16 && z < 16
    requires (x / 8 % 2 == y / 8 % 2 <==> z / 8 % 2 == 0) && (x / 4 % 2 == y / 4 % 2 <==> z / 4 % 2 == 0)
    requires (x / 2 % 2 == y / 2 % 2 <==> z / 2 % 2 == 0) && (x % 2 == y % 2 <==> z % 2 == 0)
    ensures Xor(16 * a + x, 16 * b + y) == 16 * c + z
  {
    hide Xor;
    BitsOfDigit(x); BitsOfDigit(y); BitsOfDigit(z);
    XorFour(a, b, c, BitsOf(x), BitsOf(y), BitsOf(z));
  }

  lemma XorTwoDigits(a: nat, b: nat, c: nat, x1: nat, x0: nat, y1: nat, y0: nat, z1: nat, z0: nat)
    requires Xor(a, b) == c
    requires x1 < 16 && y1 < 16 && z1 < 16
    requires (x1 / 8 % 2 == y1 / 8 % 2 <==> z1 / 8 % 2 == 0) && (x1 / 4 % 2 == y1 / 4 % 2 <==> z1 / 4 % 2 == 0)
    requires (x1 / 2 % 2 == y1 / 2 % 2 <==> z1 / 2 % 2 == 0) && (x1 % 2 == y1 % 2 <==> z1 % 2 == 0)
    requires x0 < 16 && y0 < 16 && z0 < 16
    requires (x0 / 8 % 2 == y0 / 8 % 2 <==> z0 / 8 % 2 == 0) && (x0 / 4 % 2 == y0 / 4 % 2 <==> z0 / 4 % 2 == 0)
    requires (x0 / 2 % 2 == y0 / 2 % 2 <==> z0 / 2 % 2 == 0) && (x0 % 2 == y0 % 2 <==> z0 % 2 == 0)
    ensures Xor(0x100 * a + 0x10 * x1 + x0, 0x100 * b + 0x10 * y1 + y0) == 0x100 * c + 0x10 * z1 + z0
  {
    hide Xor;
    XorDigit(a, b, c, x1, y1, z1);
    XorDigit(0x10 * a + x1, 0x10 * b + y1, 0x10 * c + z1, x0, y0, z0);
  }

  /** Four hexadecimal digits more. */
  lemma XorDigits(a: nat, b: nat, c: nat, x3: nat, x2: nat, x1: nat, x0: nat, y3: nat, y2: nat, y1: nat, y0: nat,
                  z3: nat, z2: nat, z1: nat, z0: nat)
    requires Xor(a, b) == c
    requires x3 < 16 && y3 < 16 && z3 < 16
    requires (x3 / 8 % 2 == y3 / 8 % 2 <==> z3 / 8 % 2 == 0) && (x3 / 4 % 2 == y3 / 4 % 2 <==> z3 / 4 % 2 == 0)
    requires (x3 / 2 % 2 == y3 / 2 % 2 <==> z3 / 2 % 2 == 0) && (x3 % 2 == y3 % 2 <==> z3 % 2 == 0)
    requires x2 < 16 && y2 < 16 && z2 < 16
    requires (x2 / 8 % 2 == y2 / 8 % 2 <==> z2 / 8 % 2 == 0) && (x2 / 4 % 2 == y2 / 4 % 2 <==> z2 / 4 % 2 == 0)
    requires (x2 / 2 % 2 == y2 / 2 % 2 <==> z2 / 2 % 2 == 0) && (x2 % 2 == y2 % 2 <==> z2 % 2 == 0)
    requires x1 < 16 && y1 < 16 && z1 < 16
    requires (x1 / 8 % 2 == y1 / 8 % 2 <==> z1 / 8 % 2 == 0) && (x1 / 4 % 2 == y1 / 4 % 2 <==> z1 / 4 % 2 == 0)
    requires (x1 / 2 % 2 == y1 / 2 % 2 <==> z1 / 2 % 2 == 0) && (x1 % 2 == y1 % 2 <==> z1 % 2 == 0)
    requires x0 < 16 && y0 < 16 && z0 < 16
    requires (x0 / 8 % 2 == y0 / 8 % 2 <==> z0 / 8 % 2 == 0) && (x0 / 4 % 2 == y0 / 4 % 2 <==> z0 / 4 % 2 == 0)
    requires (x0 / 2 % 2 == y0 / 2 % 2 <==> z0 / 2 % 2 == 0) && (x0 % 2 == y0 % 2 <==> z0 % 2 == 0)
    ensures Xor(0x1_0000 * a + 0x1000 * x3 + 0x100 * x2 + 0x10 * x1 + x0,
                0x1_0000 * b + 0x1000 * y3 + 0x100 * y2 + 0x10 * y1 + y0)
            == 0x1_0000 * c + 0x1000 * z3 + 0x100 * z2 + 0x10 * z1 + z0
  {
    hide Xor;
    XorTwoDigits(a, b, c, x3, x2, y3, y2, z3, z2);
    XorTwoDigits(0x100 * a + 0x10 * x3 + x2, 0x100 * b + 0x10 * y3 + y2, 0x100 * c + 0x10 * z3 + z2,
                 x1, x0, y1, y0, z1, z0);
  }

  // Rotation, as the sum of its two parts.

  lemma Rotl32By13(x: nat)
    requires x < 0x1_0000_0000
    ensures Rotl(32, x, 13) == x % 0x8_0000 * 0x2000 + x / 0x8_0000
  {
    hide Rotl;
    Powers();
    RotlParts(32, x, 13);
  }

  lemma Rotl32By15(x: nat)
    requires x < 0x1_0000_0000
    ensures Rotl(32, x, 15) == x % 0x2_0000 * 0x8000 + x / 0x2_0000
  {
    hide Rotl;
    Powers();
    RotlParts(32, x, 15);
  }

  lemma Rotl64By27(x: nat)
    requires x < 0x1_0000_0000_0000_0000
    ensures Rotl(64, x, 27) == x % 0x20_0000_0000 * 0x800_0000 + x / 0x20_0000_0000
  {
    hide Rotl;
    Powers();
    RotlParts(64, x, 27);
  }

  lemma Rotl64By31(x: nat)
    requires x < 0x1_0000_0000_0000_0000
    ensures Rotl(64, x, 31) == x % 0x2_0000_0000 * 0x8000_0000 + x / 0x2_0000_0000
  {
    hide Rotl;
    Powers();
    RotlParts(64, x, 31);
  }

  lemma Rotl64By33(x: nat)
    requires x < 0x1_0000_0000_0000_0000
    ensures Rotl(64, x, 33) == x % 0x8000_0000 * 0x2_0000_0000 + x / 0x8000_0000
  {
    hide Rotl;
    Powers();
    RotlParts(64, x, 33);
  }

  lemma Powers()
    ensures Pow2(13) == 0x2000 && Pow2(15) == 0x8000 && Pow2(16) == 0x1_0000 && Pow2(17) == 0x2_0000
    ensures Pow2(19) == 0x8_0000 && Pow2(27) == 0x800_0000 && Pow2(31) == 0x8000_0000 && Pow2(32) == 0x1_0000_0000
    ensures Pow2(33) == 0x2_0000_0000 && Pow2(37) == 0x20_0000_0000 && Pow2(64) == 0x1_0000_0000_0000_0000
  {
    hide Pow2;
    SmallPowers();
    Pow2Adds(8, 5); Pow2Adds(8, 7); Pow2Adds(8, 8); Pow2Adds(16, 1); Pow2Adds(16, 3); Pow2Adds(19, 8);
    Pow2Adds(16, 15); Pow2Adds(16, 16); Pow2Adds(32, 1); Pow2Adds(32, 5); Pow2Adds(32, 32);
  }

  lemma SmallPowers()
    ensures Pow2(1) == 2 && Pow2(3) == 8 && Pow2(5) == 32 && Pow2(7) == 128 && Pow2(8) == 256
  {
  }
}
