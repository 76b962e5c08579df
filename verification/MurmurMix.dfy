/** What the MurmurHash3 variants share: reading words, scrambling a block word, and the final mix. */
module MurmurMix {
  import opened W = Words
  import opened BitWords
  import C = Codec

  type byte = C.byte

  // Words from bytes.

  /** The number with these bytes, the first one lowest. */
  function Little(t: seq<byte>): nat {
    if t == [] then 0 else t[0] + 256 * Little(t[1..])
  }

  /** getblock: the host loads the word in its own byte order. */
  function Load(host: C.Host, t: seq<byte>): nat {
    if host == C.LittleEndianHost then Little(t) else C.Value(t)
  }

  function At(t: seq<byte>, i: nat): nat {
    if i < |t| then t[i] else 0
  }

  /** Words of up to four bytes, spelt out. */
  lemma LittleOf(t: seq<byte>, n: nat)
    requires |t| <= 4
    requires n == At(t, 0) + 0x100 * At(t, 1) + 0x1_0000 * At(t, 2) + 0x100_0000 * At(t, 3)
    ensures Little(t) == n
  {
    if |t| > 0 { assert Little(t) == t[0] + 256 * Little(t[1..]); }
    if |t| > 1 { assert Little(t[1..]) == t[1] + 256 * Little(t[2..]); }
    if |t| > 2 { assert Little(t[2..]) == t[2] + 256 * Little(t[3..]); }
    if |t| > 3 { assert Little(t[3..]) == t[3] + 256 * Little(t[4..]); }
  }

  lemma LittleHalves(t: seq<byte>)
    requires 4 <= |t|
    ensures Little(t) == Little(t[..4]) + 0x1_0000_0000 * Little(t[4..])
  {
    LittleOf(t[..4], At(t, 0) + 0x100 * At(t, 1) + 0x1_0000 * At(t, 2) + 0x100_0000 * At(t, 3));
    assert Little(t) == t[0] + 256 * Little(t[1..]);
    assert Little(t[1..]) == t[1] + 256 * Little(t[2..]);
    assert Little(t[2..]) == t[2] + 256 * Little(t[3..]);
    assert Little(t[3..]) == t[3] + 256 * Little(t[4..]);
  }

  lemma ValueOf(t: seq<byte>, n: nat)
    requires |t| == 4 && n == 0x100_0000 * At(t, 0) + 0x1_0000 * At(t, 1) + 0x100 * At(t, 2) + At(t, 3)
    ensures C.Value(t) == n
  {
    C.ValueStep(t, 0); C.ValueStep(t, 1); C.ValueStep(t, 2); C.ValueStep(t, 3);
    assert t[..4] == t;
  }

  lemma {:induction false} LittleWord(t: seq<byte>)
    ensures Word(8 * |t|, Little(t))
  {
    if t != [] {
      LittleWord(t[1..]);
      EightMore(8 * |t[1..]|);
    }
  }

  lemma EightMore(n: nat)
    ensures Pow2(n + 8) == 256 * Pow2(n)
  {
    Pow2Adds(n, 8);
    assert Pow2(8) == 256;
  }

  lemma {:induction false} ValueWord(t: seq<byte>)
    ensures Word(8 * |t|, C.Value(t))
  {
    if t != [] {
      ValueWord(t[..|t| - 1]);
      EightMore(8 * (|t| - 1));
    }
  }

  lemma LoadWord(host: C.Host, t: seq<byte>)
    ensures Word(8 * |t|, Load(host, t))
  {
    LittleWord(t);
    ValueWord(t);
  }

  lemma {:induction false} LittleInjective(t: seq<byte>, t': seq<byte>)
    requires |t| == |t'| && Little(t) == Little(t')
    ensures t == t'
  {
    if t != [] {
      SplitByte(t[0], Little(t[1..]), t'[0], Little(t'[1..]));
      LittleInjective(t[1..], t'[1..]);
      assert t == [t[0]] + t[1..] && t' == [t'[0]] + t'[1..];
    }
  }

  lemma SplitByte(a: nat, b: nat, a': nat, b': nat)
    requires a < 256 && a' < 256 && a + 256 * b == a' + 256 * b'
    ensures a == a' && b == b'
  {
  }

  lemma LoadInjective(host: C.Host, t: seq<byte>, t': seq<byte>)
    requires |t| == |t'| && Load(host, t) == Load(host, t')
    ensures t == t'
  {
    if host == C.LittleEndianHost {
      LittleInjective(t, t');
    } else {
      C.ReadThenWrite(t);
      C.ReadThenWrite(t');
    }
  }

  // Zero bytes at the end of a word.

  function Zeros(n: nat): (z: seq<byte>)
    ensures |z| == n
  {
    seq(n, _ => 0)
  }

  lemma {:induction false} LittleOfZeros(n: nat)
    ensures Little(Zeros(n)) == 0
  {
    if n > 0 {
      assert Zeros(n)[1..] == Zeros(n - 1);
      LittleOfZeros(n - 1);
    }
  }

  lemma {:induction false} LittlePadded(t: seq<byte>, n: nat)
    ensures Little(t + Zeros(n)) == Little(t)
  {
    if t == [] {
      assert t + Zeros(n) == Zeros(n);
      LittleOfZeros(n);
    } else {
      assert (t + Zeros(n))[1..] == t[1..] + Zeros(n);
      LittlePadded(t[1..], n);
    }
  }

  // The switch on the length of the tail.

  /** The bytes of t from m on are in place, those below are still clear. */
  ghost predicate From(k: nat, t: seq<byte>, m: nat) {
    k == if m < |t| then Pow2(8 * m) * Little(t[m..]) else 0
  }

  /** `case i + 1: k ^= t[i] << 8 * i`, entered when the tail reaches that far. */
  method Case(k: nat, t: seq<byte>, i: nat) returns (k': nat)
    requires From(k, t, i + 1)
    ensures From(k', t, i)
  {
    k' := k;
    if i < |t| {
      ByteBelow(k, t, i);
      k' := Xor(k, t[i] * Pow2(8 * i));
    }
  }

  lemma ByteBelow(k: nat, t: seq<byte>, i: nat)
    requires i < |t| && From(k, t, i + 1)
    ensures Xor(k, t[i] * Pow2(8 * i)) == Pow2(8 * i) * Little(t[i..])
  {
    hide Xor, Pow2;
    var p, v := Pow2(8 * i), Little(t[i + 1..]);
    assert t[i..][1..] == t[i + 1..];
    EightMore(8 * i);
    ByteSum(k, t[i], p, v);
    Disjoint(8 * i + 8, k, t[i] * p);
  }

  lemma ByteSum(k: nat, b: nat, p: nat, v: nat)
    requires b < 256 && 0 < p && k == (256 * p) * v
    ensures k % (256 * p) == 0 && 0 <= b * p < 256 * p && k + b * p == p * (b + 256 * v)
  {
    QuotientUnique(k, 256 * p, v, 0);
    MulLe(p, b + 1, 256);
    MulLe(p, 0, b);
    assert (256 * p) * v == p * (256 * v);
  }

  lemma FromStart(k: nat, t: seq<byte>)
    requires From(k, t, 0)
    ensures k == Little(t)
  {
    assert Pow2(0) == 1;
    assert t[0..] == t;
  }

  // Mixing.

  /** k *= c1; k = rotl(k, r); k *= c2. */
  function Scramble(w: nat, k: nat, c1: nat, r: nat, c2: nat): nat
    requires r <= w
  {
    Times(w, Rotl(w, Times(w, k, c1), r), c2)
  }

  lemma ScrambleInjective(w: nat, k: nat, k': nat, c1: nat, r: nat, c2: nat)
    requires Word(w, k) && Word(w, k') && r <= w && c1 % 2 == 1 && c2 % 2 == 1
    requires Scramble(w, k, c1, r, c2) == Scramble(w, k', c1, r, c2)
    ensures k == k'
  {
    hide Times, Rotl, Word;
    var a, a' := Times(w, k, c1), Times(w, k', c1);
    RotlParts(w, a, r); RotlParts(w, a', r);
    TimesInjective(w, Rotl(w, a, r), Rotl(w, a', r), c2);
    RotlInjective(w, a, a', r);
    TimesInjective(w, k, k', c1);
  }

  /** fmix32 and fmix64: h ^= h >> s1; h *= f1; h ^= h >> s2; h *= f2; h ^= h >> s3. */
  function FinalMix(w: nat, h: nat, s1: nat, f1: nat, s2: nat, f2: nat, s3: nat): nat {
    Fold(Times(w, Fold(Times(w, Fold(h, s1), f1), s2), f2), s3)
  }

  lemma FoldWord(w: nat, x: nat, k: nat)
    requires Word(w, x)
    ensures Word(w, Fold(x, k))
  {
    DivideBounds(x, Pow2(k));
    XorWord(w, x, Down(x, k));
  }

  lemma FinalMixInjective(w: nat, h: nat, h': nat, s1: nat, f1: nat, s2: nat, f2: nat, s3: nat)
    requires Word(w, h) && Word(w, h') && 0 < s1 && 0 < s2 && 0 < s3 && f1 % 2 == 1 && f2 % 2 == 1
    requires FinalMix(w, h, s1, f1, s2, f2, s3) == FinalMix(w, h', s1, f1, s2, f2, s3)
    ensures h == h'
  {
    hide Times, Fold, Word;
    var a, a' := Fold(h, s1), Fold(h', s1);
    var b, b' := Times(w, a, f1), Times(w, a', f1);
    var c, c' := Fold(b, s2), Fold(b', s2);
    FoldWord(w, h, s1); FoldWord(w, h', s1);
    FoldWord(w, b, s2); FoldWord(w, b', s2);
    FoldInjective(w, Times(w, c, f2), Times(w, c', f2), s3);
    TimesInjective(w, c, c', f2);
    FoldInjective(w, b, b', s2);
    TimesInjective(w, a, a', f1);
    FoldInjective(w, h, h', s1);
  }

  lemma FinalMixWord(w: nat, h: nat, s1: nat, f1: nat, s2: nat, f2: nat, s3: nat)
    ensures Word(w, FinalMix(w, h, s1, f1, s2, f2, s3))
  {
    hide Times, Fold, Word;
    FoldWord(w, Times(w, Fold(Times(w, Fold(h, s1), f1), s2), f2), s3);
  }

  // Keys.

  /** Equal but for the bytes of the j-th block of b bytes. */
  predicate DifferInBlock(x: seq<byte>, y: seq<byte>, b: nat, j: nat) {
    && |x| == |y| && b * (j + 1) <= |x|
    && x[..b * j] == y[..b * j] && x[b * (j + 1)..] == y[b * (j + 1)..]
    && x[b * j..b * (j + 1)] != y[b * j..b * (j + 1)]
  }

  /** Equal but for the bytes behind the last whole block of b bytes. */
  predicate DifferInTail(x: seq<byte>, y: seq<byte>, b: nat)
    requires 0 < b
  {
    && |x| == |y| && x != y
    && x[..|x| - |x| % b] == y[..|x| - |x| % b]
  }

  lemma SameWithin(x: seq<byte>, y: seq<byte>, m: nat, a: nat, b: nat)
    requires a <= b <= m <= |x| == |y| && x[..m] == y[..m]
    ensures x[a..b] == y[a..b] && (a == 0 ==> x[..b] == y[..b])
  {
    forall i | 0 <= i < b
      ensures x[i] == y[i]
    {
      assert x[..m][i] == x[i] && y[..m][i] == y[i];
    }
  }

  lemma SameBehind(x: seq<byte>, y: seq<byte>, m: nat, a: nat, b: nat)
    requires m <= a <= b <= |x| == |y| && x[m..] == y[m..]
    ensures x[a..b] == y[a..b]
  {
    forall i | a <= i < b
      ensures x[i] == y[i]
    {
      assert x[m..][i - m] == x[i] && y[m..][i - m] == y[i];
    }
  }

  lemma WordGrows(a: nat, b: nat, x: nat)
    requires a <= b && Word(a, x)
    ensures Word(b, x)
  {
    hide Pow2;
    Pow2Adds(a, b - a);
    MulLe(Pow2(a), 1, Pow2(b - a));
  }
}
