/** The size arithmetic of the memory pool: rounding to a slot, slot indices and page sizes, in 32-bit words. */
module SlotMath {
  import opened Words

  /** roundup_to_the_next_highest_multiple_of_exponent2. */
  function RoundUp(n: uint32, exponent: nat): uint32
    requires 1 <= exponent <= 31
  {
    if Shl(n, 32 - exponent) == 0 then n
    else
      var multipleBase := Shl(2, exponent - 1);
      var mask := Shl(Shr(0xFFFF_FFFF, exponent), exponent);
      (And(n, mask) + multipleBase) % TWO32
  }

  /** convert_slot_obj_size_to_slot_idx. */
  function SlotIdx(size: uint32, footstep: uint32): uint32
    requires 0 < footstep
  {
    Div(size, footstep)
  }

  /** The value gen_expand_slot_page_size computes. */
  function ExpandSize(objSize: uint32, factor: uint32, pageSize: uint32): uint32
    requires 0 < pageSize
  {
    var wanted := (objSize * factor) % TWO32;
    ((Div(wanted, pageSize) + if wanted % pageSize != 0 then 1 else 0) * pageSize) % TWO32
  }

  method GenExpandSlotPageSize(objSize: uint32, factor: uint32, pageSize: uint32) returns (size: uint32)
    requires 0 < pageSize
    ensures size == ExpandSize(objSize, factor, pageSize)
  {
    var expandCalSize := (objSize * factor) % TWO32;
    var pageCnt := Div(expandCalSize, pageSize);
    if expandCalSize % pageSize != 0 {
      pageCnt := pageCnt + 1;
    }
    size := (pageCnt * pageSize) % TWO32;
  }

  lemma ScaledRemainder(n: nat, d: nat, k: nat)
    requires 0 < d && 0 < k
    ensures 0 < d * k && (n * k) % (d * k) == (n % d) * k
  {
    var q, r := n / d, n % d;
    assert n == d * q + r;
    assert n * k == (d * k) * q + r * k;
    MulLe(k, r + 1, d);
    MulLe(k, 1, d);
    MulLe(k, 0, r);
    QuotientUnique(n * k, d * k, q, r * k);
  }

  /** The shift test of the source is a divisibility test. */
  lemma ShiftTestsDivisibility(n: uint32, d: nat, k: nat)
    requires 0 < d && 0 < k && d * k == TWO32
    ensures (n * k) % TWO32 == 0 <==> n % d == 0
  {
    ScaledRemainder(n, d, k);
    MulLe(k, 1, n % d);
  }

  lemma HighOnes(d: nat, k: nat)
    requires 2 <= d && 2 <= k && d * k == TWO32
    ensures d <= 0x8000_0000
    ensures Div(0xFFFF_FFFF, d) == k - 1
    ensures ((k - 1) * d) % TWO32 == (k - 1) * d
  {
    MulLe(d, 2, k);
    assert 0xFFFF_FFFF == d * (k - 1) + (d - 1);
    QuotientUnique(0xFFFF_FFFF, d, k - 1, d - 1);
    MulLe(d, 0, k - 1);
    assert (k - 1) * d == TWO32 - d;
  }

  lemma Pow2Factors(e: nat)
    requires 1 <= e <= 31
    ensures 2 <= Pow2(e) && 2 <= Pow2(32 - e) && Pow2(e) * Pow2(32 - e) == TWO32
  {
    Pow2Adds(e, 32 - e);
    Pow2Of32();
  }

  lemma MaskedWord(n: uint32, e: nat)
    requires 1 <= e <= 31
    ensures And(n, (Pow2(32 - e) - 1) * Pow2(e)) == n - n % Pow2(e)
  {
    assert e + (32 - e) == 32;
    Pow2Of32();
    AndHighOnes(n, 32 - e, e);
  }

  lemma RoundUpMask(e: nat)
    requires 1 <= e <= 31
    ensures Shl(2, e - 1) == Pow2(e)
    ensures Shl(Shr(0xFFFF_FFFF, e), e) == (Pow2(32 - e) - 1) * Pow2(e)
  {
    Pow2Factors(e);
    HighOnes(Pow2(e), Pow2(32 - e));
  }

  lemma RoundUpValue(n: uint32, e: nat)
    requires 1 <= e <= 31
    ensures n % Pow2(e) == 0 ==> RoundUp(n, e) == n
    ensures n % Pow2(e) != 0 ==> RoundUp(n, e) == (n - n % Pow2(e) + Pow2(e)) % TWO32
  {
    Pow2Factors(e);
    ShiftTestsDivisibility(n, Pow2(e), Pow2(32 - e));
    RoundUpMask(e);
    MaskedWord(n, e);
  }

  lemma MultipleBetween(d: int, m: int, n: int)
    requires 0 < d && m % d == 0 && n % d == 0 && n < m
    ensures n + d <= m
  {
    var a, b := m / d, n / d;
    assert m == d * a && n == d * b;
    MulLe(d, a, b);
    MulLe(d, b + 1, a);
  }

  lemma MultipleMinusRemainder(n: int, d: int)
    requires 0 < d
    ensures (n - n % d) % d == 0 && (n - n % d + d) % d == 0
  {
    var q := n / d;
    assert n - n % d == d * q;
    QuotientUnique(d * q, d, q, 0);
    assert d * q + d == d * (q + 1);
    QuotientUnique(d * (q + 1), d, q + 1, 0);
  }

  /** n - n % d + d is the least multiple of d above an n that is not one itself. */
  lemma NextMultiple(n: nat, d: nat)
    requires 0 < d && n % d != 0
    ensures (n - n % d + d) % d == 0 && n < n - n % d + d
    ensures forall m: nat :: m % d == 0 && n <= m ==> n - n % d + d <= m
  {
    MultipleMinusRemainder(n, d);
    forall m: nat | m % d == 0 && n <= m
      ensures n - n % d + d <= m
    {
      MultipleBetween(d, m, n - n % d);
    }
  }

  /** Up to one multiple below the top the next multiple still fits; above that it is the top itself. */
  lemma NextMultipleFits(n: nat, d: nat, k: nat)
    requires 0 < d && n < d * k
    ensures n <= d * k - d && n % d != 0 ==> n - n % d + d < d * k
    ensures n > d * k - d ==> n % d != 0 && n - n % d + d == d * k
  {
    var q, r := n / d, n % d;
    assert n == d * q + r;
    MulLe(d, k, q + 1);
    MulLe(d, q + 1, k);
    MulLe(d, q + 1, k - 1);
    MulLe(d, k, q);
  }

  ghost predicate IsLeastMultiple(r: nat, n: nat, d: nat)
    requires 0 < d
  {
    r % d == 0 && n <= r && forall m: nat :: m % d == 0 && n <= m ==> r <= m
  }

  /** Rounding yields the least multiple at or above the request exactly when that multiple fits a word;
      otherwise the result has wrapped to zero. */
  lemma RoundUpIsLeast(n: uint32, e: nat)
    requires 1 <= e <= 31
    ensures n <= TWO32 - Pow2(e) <==> IsLeastMultiple(RoundUp(n, e), n, Pow2(e))
    ensures n > TWO32 - Pow2(e) ==> RoundUp(n, e) == 0
  {
    hide IsLeastMultiple, RoundUp, Pow2;
    Pow2Factors(e);
    RoundUpValue(n, e);
    RoundedIsLeast(n, Pow2(e), Pow2(32 - e), RoundUp(n, e));
  }

  lemma RoundedIsLeast(n: uint32, d: nat, k: nat, r: nat)
    requires 2 <= d && 2 <= k && d * k == TWO32
    requires n % d == 0 ==> r == n
    requires n % d != 0 ==> r == (n - n % d + d) % TWO32
    ensures n <= TWO32 - d <==> IsLeastMultiple(r, n, d)
    ensures n > TWO32 - d ==> r == 0
  {
    NextMultipleFits(n, d, k);
    MulLe(d, 2, k);
    if n % d != 0 {
      NextMultiple(n, d);
    }
  }

  /** The page handed out is the least number of whole system pages that covers factor objects. */
  lemma ExpandSizeIsLeast(objSize: uint32, factor: uint32, pageSize: uint32)
    requires 0 < pageSize
    requires objSize * factor + pageSize <= TWO32
    ensures 0 <= objSize * factor && IsLeastMultiple(ExpandSize(objSize, factor, pageSize), objSize * factor, pageSize)
  {
    hide IsLeastMultiple;
    MulLe(objSize, 0, factor);
    var w: nat := objSize * factor;
    QuotientUnique(w, TWO32, 0, w);
    WholePages(w, pageSize);
    var up := if w % pageSize != 0 then w - w % pageSize + pageSize else w;
    QuotientUnique(up, TWO32, 0, up);
  }

  lemma OneMore(q: nat, d: nat)
    ensures (q + 1) * d == q * d + d && q * d == d * q
  {
  }

  /** The least multiple of the page size at or above w, as the code computes it. */
  lemma WholePages(w: nat, pageSize: nat)
    requires 0 < pageSize
    ensures var up := if w % pageSize != 0 then w - w % pageSize + pageSize else w;
      0 <= w % pageSize < pageSize && IsLeastMultiple(up, w, pageSize)
      && (Div(w, pageSize) + if w % pageSize != 0 then 1 else 0) * pageSize == up
  {
    MultipleMinusRemainder(w, pageSize);
    OneMore(Div(w, pageSize), pageSize);
    assert w == pageSize * (w / pageSize) + w % pageSize;
    if w % pageSize != 0 { NextMultiple(w, pageSize); }
  }

  /** An exact multiple of the system page needs no rounding. */
  lemma ExpandSizeExact(objSize: uint32, factor: uint32, pageSize: uint32)
    requires 0 < pageSize && objSize % pageSize == 0
    requires objSize * factor + pageSize <= TWO32
    ensures ExpandSize(objSize, factor, pageSize) == objSize * factor
  {
    var q := objSize / pageSize;
    assert objSize == pageSize * q;
    assert objSize * factor == pageSize * (q * factor) by {
      assert (pageSize * q) * factor == pageSize * (q * factor);
    }
    QuotientUnique(objSize * factor, pageSize, q * factor, 0);
    ExpandSizeIsLeast(objSize, factor, pageSize);
  }
}
