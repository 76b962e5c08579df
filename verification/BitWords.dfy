/** Words of any width: the operations hash functions are made of, and why each of them can be undone. */
module BitWords {
  import opened W = Words

  /** x fits into w bits. */
  predicate Word(w: nat, x: int) {
    0 <= x < Pow2(w)
  }

  /** Bitwise `a ^ b`. */
  function Xor(a: nat, b: nat): nat
    decreases a + b
  {
    if a == 0 && b == 0 then 0 else (a + b) % 2 + 2 * Xor(a / 2, b / 2)
  }

  /** Bitwise `a | b`. */
  function Or(a: nat, b: nat): nat
    decreases a + b
  {
    if a == 0 && b == 0 then 0 else (if a % 2 == 0 && b % 2 == 0 then 0 else 1) + 2 * Or(a / 2, b / 2)
  }

  /** x * c, wrapping. */
  function Times(w: nat, x: nat, c: nat): (y: nat)
    ensures Word(w, y)
  {
    (x * c) % Pow2(w)
  }

  /** x + c, wrapping. */
  function Plus(w: nat, x: nat, c: nat): (y: nat)
    ensures Word(w, y)
  {
    (x + c) % Pow2(w)
  }

  /** x >> k. */
  function Down(x: nat, k: nat): nat {
    Div(x, Pow2(k))
  }

  /** (x << r) | (x >> (w - r)). */
  function Rotl(w: nat, x: nat, r: nat): nat
    requires r <= w
  {
    Or((x * Pow2(r)) % Pow2(w), Down(x, w - r))
  }

  /** x ^ (x >> k). */
  function Fold(x: nat, k: nat): nat {
    Xor(x, Down(x, k))
  }

  // Exclusive or.

  lemma {:induction false} XorTwice(a: nat, b: nat)
    ensures Xor(Xor(a, b), b) == a
    decreases a + b
  {
    hide Xor;
    if a == 0 && b == 0 {
      XorZero(0);
    } else {
      var x := Xor(a, b);
      XorTwice(a / 2, b / 2);
      XorHalves(a, b);
      XorStep(x, b);
      Parity(a, b, x);
    }
  }

  lemma {:induction false} XorCommutes(a: nat, b: nat)
    ensures Xor(a, b) == Xor(b, a)
    decreases a + b
  {
    if a != 0 || b != 0 { XorCommutes(a / 2, b / 2); }
  }

  lemma Parity(a: nat, b: nat, x: nat)
    requires x % 2 == (a + b) % 2
    ensures (x + b) % 2 + 2 * (a / 2) == a
  {
    assert (x + b) % 2 == a % 2;
  }

  lemma {:induction false} XorHalves(a: nat, b: nat)
    ensures Xor(a, b) / 2 == Xor(a / 2, b / 2) && Xor(a, b) % 2 == (a + b) % 2
  {
    XorStep(a, b);
    BitAndHalf((a + b) % 2, Xor(a / 2, b / 2));
  }

  lemma {:induction false} XorStep(a: nat, b: nat)
    ensures Xor(a, b) == (a + b) % 2 + 2 * Xor(a / 2, b / 2)
  {
  }

  lemma BitAndHalf(bit: nat, h: nat)
    requires bit < 2
    ensures (bit + 2 * h) / 2 == h && (bit + 2 * h) % 2 == bit
  {
  }

  lemma XorCancels(a: nat, b: nat, a': nat, b': nat)
    requires Xor(a, b) == Xor(a', b')
    ensures a == a' <==> b == b'
  {
    hide Xor;
    XorTwice(a, b); XorTwice(a', b');
    XorTwice(b, a); XorTwice(b', a');
    XorCommutes(a, b); XorCommutes(a', b');
  }

  lemma {:induction false} XorWord(w: nat, a: nat, b: nat)
    requires Word(w, a) && Word(w, b)
    ensures Word(w, Xor(a, b))
  {
    if w > 0 {
      XorWord(w - 1, a / 2, b / 2);
      XorHalves(a, b);
    }
  }

  lemma {:induction false} XorDown(a: nat, b: nat, k: nat)
    ensures Down(Xor(a, b), k) == Xor(Down(a, k), Down(b, k))
  {
    hide Down, Xor;
    if k == 0 {
      DownZero(a); DownZero(b); DownZero(Xor(a, b));
    } else {
      XorHalves(a, b);
      XorDown(a / 2, b / 2, k - 1);
      DownHalf(a, k); DownHalf(b, k); DownHalf(Xor(a, b), k);
    }
  }

  lemma DownZero(x: nat)
    ensures Down(x, 0) == x
  {
    assert Pow2(0) == 1;
  }

  lemma {:induction false} DownHalf(x: nat, k: nat)
    requires 0 < k
    ensures Down(x, k) == Down(x / 2, k - 1)
  {
    var d, y := Pow2(k - 1), x / 2;
    var q, r := y / d, y % d;
    assert y == d * q + r;
    assert x == (2 * d) * q + (2 * r + x % 2);
    QuotientUnique(x, 2 * d, q, 2 * r + x % 2);
  }

  /** Values without a common bit: or and exclusive or are both the sum. */
  lemma {:induction false} Disjoint(m: nat, a: nat, b: nat)
    requires a % Pow2(m) == 0 && b < Pow2(m)
    ensures Xor(a, b) == a + b && Or(a, b) == a + b
    decreases m
  {
    hide Xor, Or;
    if m == 0 {
      XorZero(a);
    } else {
      DoubleMod(a, Pow2(m - 1));
      Disjoint(m - 1, a / 2, b / 2);
      XorStep(a, b); OrStep(a, b);
      EvenSum(a, b);
    }
  }

  lemma EvenSum(a: nat, b: nat)
    requires a % 2 == 0
    ensures (a + b) % 2 + 2 * (a / 2 + b / 2) == a + b && (a + b) % 2 == b % 2
  {
  }

  lemma {:induction false} OrStep(a: nat, b: nat)
    ensures Or(a, b) == (if a % 2 == 0 && b % 2 == 0 then 0 else 1) + 2 * Or(a / 2, b / 2)
  {
  }

  lemma {:induction false} XorZero(a: nat)
    ensures Xor(a, 0) == a && Or(a, 0) == a
  {
    if a > 0 { XorZero(a / 2); }
  }

  // One-to-one operations on words.

  lemma {:induction false} FoldInjective(w: nat, x: nat, y: nat, k: nat)
    requires Word(w, x) && Word(w, y) && 0 < k && Fold(x, k) == Fold(y, k)
    ensures x == y
  {
    FoldFrom(w, x, y, k, 0);
    assert Pow2(0) == 1;
  }

  /** The bits from j up agree: those from j + k up do, and the rest follows from the folded value. */
  lemma {:induction false} FoldFrom(w: nat, x: nat, y: nat, k: nat, j: nat)
    requires Word(w, x) && Word(w, y) && 0 < k && Fold(x, k) == Fold(y, k)
    ensures Down(x, j) == Down(y, j)
    decreases if j < w then w - j else 0
  {
    if w <= j {
      DownAll(w, x, j); DownAll(w, y, j);
    } else {
      FoldFrom(w, x, y, k, j + k);
      DownTwice(x, k, j); DownTwice(y, k, j);
      XorDown(x, Down(x, k), j); XorDown(y, Down(y, k), j);
      XorCancels(Down(x, j), Down(x, j + k), Down(y, j), Down(y, j + k));
    }
  }

  lemma {:induction false} DownAll(w: nat, x: nat, j: nat)
    requires Word(w, x) && w <= j
    ensures Down(x, j) == 0
  {
    Pow2Adds(w, j - w);
    MulLe(Pow2(w), 1, Pow2(j - w));
    QuotientUnique(x, Pow2(j), 0, x);
  }

  lemma {:induction false} DownTwice(x: nat, k: nat, j: nat)
    ensures Down(Down(x, k), j) == Down(x, j + k)
    decreases k
  {
    if k > 0 {
      DownHalf(x, k);
      DownTwice(x / 2, k - 1, j);
      DownHalf(x, j + k);
    }
  }

  lemma PlusInjective(w: nat, x: nat, y: nat, c: nat)
    requires Word(w, x) && Word(w, y) && Plus(w, x, c) == Plus(w, y, c)
    ensures x == y
  {
    SameResidue(x + c, y + c, Pow2(w));
  }

  /** Equal residues of numbers less than a period apart. */
  lemma SameResidue(a: int, b: int, d: int)
    requires 0 < d && -d < a - b < d && a % d == b % d
    ensures a == b
  {
    var p, q := a / d, b / d;
    assert a - b == d * (p - q);
    MulLe(d, 1, p - q);
    MulLe(d, p - q, -1);
  }

  lemma TimesInjective(w: nat, x: nat, y: nat, c: nat)
    requires Word(w, x) && Word(w, y) && c % 2 == 1 && Times(w, x, c) == Times(w, y, c)
    ensures x == y
  {
    if x <= y { OddDifference(w, y, x, c); } else { OddDifference(w, x, y, c); }
  }

  lemma OddDifference(w: nat, x: nat, y: nat, c: nat)
    requires y <= x < Pow2(w) && c % 2 == 1 && (x * c) % Pow2(w) == (y * c) % Pow2(w)
    ensures x == y
  {
    Distribute(x, y, c);
    DifferenceOfResidues(x * c, y * c, Pow2(w));
    OddFactor(w, x - y, c);
    QuotientUnique(x - y, Pow2(w), 0, x - y);
  }

  lemma Distribute(x: int, y: int, c: int)
    ensures (x - y) * c == x * c - y * c
  {
  }

  lemma DifferenceOfResidues(a: int, b: int, d: int)
    requires 0 < d && a % d == b % d
    ensures (a - b) % d == 0
  {
    var p, q := a / d, b / d;
    assert a == d * p + a % d && b == d * q + b % d;
    assert a - b == d * (p - q);
    QuotientUnique(a - b, d, p - q, 0);
  }

  /** An odd factor does not help to make a multiple of a power of two. */
  lemma {:induction false} OddFactor(w: nat, z: nat, c: nat)
    requires c % 2 == 1 && (z * c) % Pow2(w) == 0
    ensures z % Pow2(w) == 0
  {
    if w > 0 {
      DoubleMod(z * c, Pow2(w - 1));
      EvenProduct(z, c);
      var h := z / 2;
      assert (z * c) / 2 == h * c by { assert z * c == 2 * (h * c); }
      OddFactor(w - 1, h, c);
      DoubleMod(z, Pow2(w - 1));
    }
  }

  lemma EvenProduct(z: nat, c: nat)
    requires c % 2 == 1 && (z * c) % 2 == 0
    ensures z % 2 == 0
  {
    var a, b := z / 2, c / 2;
    assert z * c == 2 * (a * c + (z % 2) * b) + z % 2 by {
      assert z == 2 * a + z % 2 && c == 2 * b + 1;
    }
  }

  /** The rotated word: the low w - r bits on top of the high r bits. */
  lemma RotlParts(w: nat, x: nat, r: nat)
    requires Word(w, x) && r <= w
    ensures Word(w, Rotl(w, x, r))
    ensures Rotl(w, x, r) / Pow2(r) == x % Pow2(w - r) && Rotl(w, x, r) % Pow2(r) == x / Pow2(w - r)
  {
    hide Or, Xor, Pow2;
    var p, q := Pow2(r), Pow2(w - r);
    var s, t := x / q, x % q;
    Pow2Adds(r, w - r);
    HighPart(x, p, q);
    TopOfProduct(x, p, q, s, t);
    MultipleOf(p, t);
    Disjoint(r, p * t, s);
    MulLe(p, t + 1, q);
    QuotientUnique(p * t + s, p, t, s);
  }

  lemma HighPart(x: nat, p: nat, q: nat)
    requires 0 < q && x < p * q
    ensures 0 <= x / q < p && 0 <= x % q < q && x == q * (x / q) + x % q
  {
    MulLe(q, p, x / q);
  }

  lemma TopOfProduct(x: nat, p: nat, q: nat, s: nat, t: nat)
    requires 0 < p && 0 < q && x == q * s + t && t < q
    ensures (x * p) % (p * q) == p * t
  {
    ProductOfSum(p, q, s, t);
    MulLe(p, t + 1, q);
    MulLe(p, 0, t);
    QuotientUnique(x * p, p * q, s, p * t);
  }

  lemma ProductOfSum(p: nat, q: nat, s: nat, t: nat)
    ensures (q * s + t) * p == (p * q) * s + p * t && p * (t + 1) == p * t + p
  {
    assert (q * s) * p == (p * q) * s;
  }

  lemma MultipleOf(p: nat, t: nat)
    requires 0 < p
    ensures (p * t) % p == 0
  {
    QuotientUnique(p * t, p, t, 0);
  }

  lemma RotlInjective(w: nat, x: nat, y: nat, r: nat)
    requires Word(w, x) && Word(w, y) && r <= w && Rotl(w, x, r) == Rotl(w, y, r)
    ensures x == y
  {
    hide Rotl;
    RotlParts(w, x, r); RotlParts(w, y, r);
    SamePart(x, y, Pow2(w - r));
  }

  lemma SamePart(x: nat, y: nat, q: nat)
    requires 0 < q && x / q == y / q && x % q == y % q
    ensures x == y
  {
    assert x == q * (x / q) + x % q && y == q * (y / q) + y % q;
  }
}
