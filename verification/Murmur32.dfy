/** MurmurHash3_x86_32: keys of equal length that differ in one block, or only in the tail, never collide. */
module Murmur32 {
  import opened W = Words
  import opened BitWords
  import opened MurmurMix
  import opened WordValues
  import C = Codec

  const C1: nat := 0xcc9e2d51
  const C2: nat := 0x1b873593

  function Mixed(k: nat): nat {
    Scramble(32, k, C1, 15, C2)
  }

  /** One block into the state. */
  function Step(h: nat, k: nat): nat {
    Plus(32, Times(32, Rotl(32, Xor(h, Mixed(k)), 13), 5), 0xe6546b64)
  }

  function Fmix(h: nat): nat {
    FinalMix(32, h, 16, 0x85ebca6b, 13, 0xc2b2ae35, 16)
  }

  function Block(key: seq<byte>, j: nat): (t: seq<byte>)
    requires 4 * (j + 1) <= |key|
    ensures |t| == 4
  {
    key[4 * j..4 * (j + 1)]
  }

  /** The state after the first n blocks. */
  function Body(host: C.Host, key: seq<byte>, seed: nat, n: nat): nat
    requires 4 * n <= |key|
  {
    if n == 0 then seed else Step(Body(host, key, seed, n - 1), Load(host, Block(key, n - 1)))
  }

  /** The bytes behind the last whole block. */
  function Tail(key: seq<byte>): (t: seq<byte>)
    ensures |t| == |key| % 4
  {
    key[4 * (|key| / 4)..]
  }

  function Absorb(h: nat, t: seq<byte>): nat {
    if t == [] then h else Xor(h, Mixed(Little(t)))
  }

  function Hash(host: C.Host, key: seq<byte>, seed: nat): nat {
    Fmix(Xor(Absorb(Body(host, key, seed, |key| / 4), Tail(key)), |key|))
  }

  // The code.

  method Mix(k: nat) returns (k1: nat)
    ensures k1 == Mixed(k)
  {
    hide Times, Rotl;
    k1 := Times(32, k, C1);
    k1 := Rotl(32, k1, 15);
    k1 := Times(32, k1, C2);
  }

  method Fmix32(x: nat) returns (h: nat)
    ensures h == Fmix(x)
  {
    hide Times, Fold;
    h := Fold(x, 16);
    h := Times(32, h, 0x85ebca6b);
    h := Fold(h, 13);
    h := Times(32, h, 0xc2b2ae35);
    h := Fold(h, 16);
  }

  /** The switch with its fall-through, up to the mixing. */
  method TailWord(t: seq<byte>) returns (k1: nat)
    requires |t| < 4
    ensures k1 == Little(t)
  {
    k1 := 0;
    k1 := Case(k1, t, 2);
    k1 := Case(k1, t, 1);
    k1 := Case(k1, t, 0);
    FromStart(k1, t);
  }

  method MurmurHash3_x86_32(host: C.Host, data: array<byte>, seed: C.uint32) returns (out: C.uint32)
    requires data.Length < 0x8000_0000
    ensures out == Hash(host, data[..], seed)
    ensures data.Length == 0 && seed == 1 ==> out == 0x514e28b7
    ensures data[..] == ABC && seed == 0 ==> out == 0xb3dd93fa
    ensures data[..] == HELLO && seed == 0 ==> out == if host == C.LittleEndianHost then 0x248bfa47 else 0x84c85fd5
  {
    hide Times, Rotl, Plus, Xor, Mixed, Fmix, Load, Hash;
    ghost var key := data[..];
    var len := data.Length;
    var nblocks := len / 4;
    var h1: nat := seed;
    var i := -nblocks;
    while i != 0
      invariant -nblocks <= i <= 0
      invariant h1 == Body(host, data[..], seed, nblocks + i)
      decreases -i
    {
      var at := 4 * (nblocks + i);
      var t := data[at..at + 4];
      assert t == Block(data[..], nblocks + i);
      var k1 := Load(host, t);
      k1 := Mix(k1);
      h1 := Xor(h1, k1);
      h1 := Rotl(32, h1, 13);
      h1 := Plus(32, Times(32, h1, 5), 0xe6546b64);
      i := i + 1;
    }
    var tail := data[4 * nblocks..];
    assert tail == Tail(data[..]);
    var k1 := TailWord(tail);
    if len % 4 >= 1 {
      k1 := Mix(k1);
      h1 := Xor(h1, k1);
    }
    h1 := Xor(h1, len);
    var h := Fmix32(h1);
    FmixFits(h1);
    HashIs(host, key, seed);
    out := h;
    KnownAnswers(host);
    assert data.Length == 0 ==> key == [];
  }

  lemma HashIs(host: C.Host, key: seq<byte>, seed: nat)
    ensures Hash(host, key, seed) == Fmix(Xor(Absorb(Body(host, key, seed, |key| / 4), Tail(key)), |key|))
  {
  }

  // Known answers: the constants, the rotations, the order of the bytes and the place of the length.

  /** The ASCII bytes of "abc" and "hello". */
  const ABC: seq<byte> := [97, 98, 99]
  const HELLO: seq<byte> := [104, 101, 108, 108, 111]

  lemma KnownAnswers(host: C.Host)
    ensures Hash(host, [], 1) == 0x514e28b7
    ensures Hash(host, ABC, 0) == 0xb3dd93fa
    ensures Hash(host, HELLO, 0) == if host == C.LittleEndianHost then 0x248bfa47 else 0x84c85fd5
  {
    hide Hash;
    EmptyAnswer(host);
    AbcAnswer(host);
    if host == C.LittleEndianHost { HelloAnswer(host); } else { HelloBigAnswer(host); }
  }

  lemma MixedIs(k: nat, a: nat, b: nat, m: nat)
    requires k < 0x1_0000_0000 && a == k * 0xcc9e2d51 % 0x1_0000_0000
    requires b == a % 0x2_0000 * 0x8000 + a / 0x2_0000 && m == b * 0x1b873593 % 0x1_0000_0000
    ensures Mixed(k) == m
  {
    hide Rotl;
    Powers();
    Rotl32By15(a);
  }

  lemma StepIs(h: nat, k: nat, m: nat, x: nat, r: nat, s: nat)
    requires Mixed(k) == m && Xor(h, m) == x && x < 0x1_0000_0000
    requires r == x % 0x8_0000 * 0x2000 + x / 0x8_0000
    requires s == (r * 5 % 0x1_0000_0000 + 0xe6546b64) % 0x1_0000_0000
    ensures Step(h, k) == s
  {
    hide Rotl, Mixed, Xor;
    Powers();
    Rotl32By13(x);
  }

  lemma FmixIs(h: nat, a: nat, b: nat, d: nat, e: nat, f: nat)
    requires Xor(h, h / 0x1_0000) == a && b == a * 0x85ebca6b % 0x1_0000_0000
    requires Xor(b, b / 0x2000) == d && e == d * 0xc2b2ae35 % 0x1_0000_0000 && Xor(e, e / 0x1_0000) == f
    ensures Fmix(h) == f
  {
    hide Xor;
    Powers();
  }

  lemma OneBlock(host: C.Host, key: seq<byte>, seed: nat)
    requires 4 <= |key| < 8
    ensures Hash(host, key, seed) == Fmix(Xor(Absorb(Step(seed, Load(host, key[..4])), key[4..]), |key|))
  {
    hide Fmix, Xor, Absorb, Step, Load;
    assert Block(key, 0) == key[..4] && Tail(key) == key[4..];
    assert Body(host, key, seed, 0) == seed;
    assert Body(host, key, seed, 1) == Step(seed, Load(host, key[..4]));
  }

  lemma NoBlock(host: C.Host, key: seq<byte>, seed: nat)
    requires |key| < 4
    ensures Hash(host, key, seed) == Fmix(Xor(Absorb(seed, key), |key|))
  {
    hide Fmix, Xor, Absorb;
    assert Tail(key) == key;
  }

  lemma EmptyFinal()
    ensures Fmix(1) == 0x514e28b7
  {
    hide Xor, Or, Fmix;
    ZeroXor(1);
    ZeroXor(0);
    XorDigits(0, 0, 0, 8, 5, 0xe, 0xb, 0, 0, 0, 4, 8, 5, 0xe, 0xf);
    XorDigits(0x85eb, 4, 0x85ef, 0xc, 0xa, 6, 0xb, 2, 0xf, 5, 0xe, 0xe, 5, 3, 5);
    XorDigits(0, 0, 0, 5, 1, 4, 0xe, 0, 0, 0, 0, 5, 1, 4, 0xe);
    XorDigits(0x514e, 0, 0x514e, 7, 9, 0xf, 9, 5, 1, 4, 0xe, 2, 8, 0xb, 7);
    FmixIs(1, 1, 0x85ebca6b, 0x85efe535, 0x514e79f9, 0x514e28b7);
  }

  lemma EmptyAnswer(host: C.Host)
    ensures Hash(host, [], 1) == 0x514e28b7
  {
    hide Xor, Or, Mixed, Fmix, Step, Hash;
    NoBlock(host, [], 1);
    ZeroXor(1);
    EmptyFinal();
  }

  lemma AbcTail()
    ensures Xor(Xor(0, Mixed(0x636261)), 3) == 0xa7349db4
  {
    hide Xor, Or, Mixed;
    MixedIs(0x636261, 0x9b9b2db1, 0x96d8cdcd, 0xa7349db7);
    ZeroXor(0xa7349db7);
    ZeroXor(0);
    XorDigits(0, 0, 0, 0xa, 7, 3, 4, 0, 0, 0, 0, 0xa, 7, 3, 4);
    XorDigits(0xa734, 0, 0xa734, 9, 0xd, 0xb, 7, 0, 0, 0, 3, 9, 0xd, 0xb, 4);
  }

  lemma AbcFinal()
    ensures Fmix(0xa7349db4) == 0xb3dd93fa
  {
    hide Xor, Or, Fmix;
    ZeroXor(0);
    XorDigits(0, 0, 0, 0xa, 7, 3, 4, 0, 0, 0, 0, 0xa, 7, 3, 4);
    XorDigits(0xa734, 0, 0xa734, 9, 0xd, 0xb, 4, 0xa, 7, 3, 4, 3, 0xa, 8, 0);
    XorDigits(0, 0, 0, 4, 0xc, 7, 0xd, 0, 0, 0, 2, 4, 0xc, 7, 0xf);
    XorDigits(0x4c7d, 2, 0x4c7f, 7, 3, 8, 0, 6, 3, 0xe, 0xb, 1, 0, 6, 0xb);
    XorDigits(0, 0, 0, 0xb, 3, 0xd, 0xd, 0, 0, 0, 0, 0xb, 3, 0xd, 0xd);
    XorDigits(0xb3dd, 0, 0xb3dd, 2, 0, 2, 7, 0xb, 3, 0xd, 0xd, 9, 3, 0xf, 0xa);
    FmixIs(0xa7349db4, 0xa7343a80, 0x4c7d7380, 0x4c7f106b, 0xb3dd2027, 0xb3dd93fa);
  }

  lemma AbcAnswer(host: C.Host)
    ensures Hash(host, ABC, 0) == 0xb3dd93fa
  {
    hide Xor, Or, Mixed, Fmix, Step, Hash;
    NoBlock(host, ABC, 0);
    LittleOf(ABC, 0x636261);
    AbcTail();
    AbcFinal();
  }

  lemma HelloStep()
    ensures Step(0, 0x6c6c6568) == 0xef13efcd
  {
    hide Xor, Or, Mixed, Step;
    MixedIs(0x6c6c6568, 0xd24f5de8, 0xaef46927, 0xa0ae7465);
    ZeroXor(0xa0ae7465);
    StepIs(0, 0x6c6c6568, 0xa0ae7465, 0xa0ae7465, 0xce8cb415, 0xef13efcd);
  }

  lemma HelloTail()
    ensures Xor(Xor(0xef13efcd, Mixed(0x6f)), 5) == 0x9caf3fb6
  {
    hide Xor, Or, Mixed;
    MixedIs(0x6f, 0xb895a61f, 0xd30fdc4a, 0x73bcd07e);
    ZeroXor(0);
    XorDigits(0, 0, 0, 0xe, 0xf, 1, 3, 7, 3, 0xb, 0xc, 9, 0xc, 0xa, 0xf);
    XorDigits(0xef13, 0x73bc, 0x9caf, 0xe, 0xf, 0xc, 0xd, 0xd, 0, 7, 0xe, 3, 0xf, 0xb, 3);
    XorDigits(0, 0, 0, 9, 0xc, 0xa, 0xf, 0, 0, 0, 0, 9, 0xc, 0xa, 0xf);
    XorDigits(0x9caf, 0, 0x9caf, 3, 0xf, 0xb, 3, 0, 0, 0, 5, 3, 0xf, 0xb, 6);
  }

  lemma HelloFinal()
    ensures Fmix(0x9caf3fb6) == 0x248bfa47
  {
    hide Xor, Or, Fmix;
    ZeroXor(0);
    XorDigits(0, 0, 0, 9, 0xc, 0xa, 0xf, 0, 0, 0, 0, 9, 0xc, 0xa, 0xf);
    XorDigits(0x9caf, 0, 0x9caf, 3, 0xf, 0xb, 6, 9, 0xc, 0xa, 0xf, 0xa, 3, 1, 9);
    XorDigits(0, 0, 0, 0xc, 9, 0, 0xd, 0, 0, 0, 6, 0xc, 9, 0, 0xb);
    XorDigits(0xc90d, 6, 0xc90b, 0xe, 5, 7, 3, 4, 8, 6, 0xf, 0xa, 0xd, 1, 0xc);
    XorDigits(0, 0, 0, 2, 4, 8, 0xb, 0, 0, 0, 0, 2, 4, 8, 0xb);
    XorDigits(0x248b, 0, 0x248b, 0xd, 0xe, 0xc, 0xc, 2, 4, 8, 0xb, 0xf, 0xa, 4, 7);
    FmixIs(0x9caf3fb6, 0x9cafa319, 0xc90de573, 0xc90bad1c, 0x248bdecc, 0x248bfa47);
  }

  lemma HelloAnswer(host: C.Host)
    requires host == C.LittleEndianHost
    ensures Hash(host, HELLO, 0) == 0x248bfa47
  {
    hide Xor, Or, Mixed, Fmix, Step, Hash;
    OneBlock(host, HELLO, 0);
    LittleOf(HELLO[..4], 0x6c6c6568);
    HelloStep();
    LittleOf(HELLO[4..], 0x6f);
    HelloTail();
    HelloFinal();
  }

  lemma HelloBigStep()
    ensures Step(0, 0x68656c6c) == 0x5cbd1a5
  {
    hide Xor, Or, Mixed, Step;
    MixedIs(0x68656c6c, 0xd6ce4a2c, 0x25166b67, 0x706cff25);
    ZeroXor(0x706cff25);
    StepIs(0, 0x68656c6c, 0x706cff25, 0x706cff25, 0x9fe4ae0d, 0x5cbd1a5);
  }

  lemma HelloBigTail()
    ensures Xor(Xor(0x5cbd1a5, Mixed(0x6f)), 5) == 0x767701de
  {
    hide Xor, Or, Mixed;
    MixedIs(0x6f, 0xb895a61f, 0xd30fdc4a, 0x73bcd07e);
    ZeroXor(0);
    XorDigits(0, 0, 0, 0, 5, 0xc, 0xb, 7, 3, 0xb, 0xc, 7, 6, 7, 7);
    XorDigits(0x5cb, 0x73bc, 0x7677, 0xd, 1, 0xa, 5, 0xd, 0, 7, 0xe, 0, 1, 0xd, 0xb);
    XorDigits(0, 0, 0, 7, 6, 7, 7, 0, 0, 0, 0, 7, 6, 7, 7);
    XorDigits(0x7677, 0, 0x7677, 0, 1, 0xd, 0xb, 0, 0, 0, 5, 0, 1, 0xd, 0xe);
  }

  lemma HelloBigFinal()
    ensures Fmix(0x767701de) == 0x84c85fd5
  {
    hide Xor, Or, Fmix;
    ZeroXor(0);
    XorDigits(0, 0, 0, 7, 6, 7, 7, 0, 0, 0, 0, 7, 6, 7, 7);
    XorDigits(0x7677, 0, 0x7677, 0, 1, 0xd, 0xe, 7, 6, 7, 7, 7, 7, 0xa, 9);
    XorDigits(0, 0, 0, 6, 0xd, 7, 0xd, 0, 0, 0, 3, 6, 0xd, 7, 0xe);
    XorDigits(0x6d7d, 3, 0x6d7e, 5, 0xd, 0xa, 3, 6, 0xb, 0xe, 0xa, 3, 6, 4, 9);
    XorDigits(0, 0, 0, 8, 4, 0xc, 8, 0, 0, 0, 0, 8, 4, 0xc, 8);
    XorDigits(0x84c8, 0, 0x84c8, 0xd, 0xb, 1, 0xd, 8, 4, 0xc, 8, 5, 0xf, 0xd, 5);
    FmixIs(0x767701de, 0x767777a9, 0x6d7d5da3, 0x6d7e3649, 0x84c8db1d, 0x84c85fd5);
  }

  lemma HelloBigAnswer(host: C.Host)
    requires host == C.BigEndianHost
    ensures Hash(host, HELLO, 0) == 0x84c85fd5
  {
    hide Xor, Or, Mixed, Fmix, Step, Hash;
    OneBlock(host, HELLO, 0);
    ValueOf(HELLO[..4], 0x68656c6c);
    HelloBigStep();
    LittleOf(HELLO[4..], 0x6f);
    HelloBigTail();
    HelloBigFinal();
  }

  lemma FmixFits(h: nat)
    ensures 0 <= Fmix(h) < 0x1_0000_0000
  {
    FinalMixWord(32, h, 16, 0x85ebca6b, 13, 0xc2b2ae35, 16);
    Pow2Of32();
  }

  // Every step is one-to-one.

  lemma MixedInjective(k: nat, k': nat)
    requires Word(32, k) && Word(32, k') && Mixed(k) == Mixed(k')
    ensures k == k'
  {
    hide Scramble, Word;
    ScrambleInjective(32, k, k', C1, 15, C2);
  }

  lemma MixedWord(k: nat)
    ensures Word(32, Mixed(k))
  {
    hide Word, Rotl;
    assert Word(32, Times(32, Rotl(32, Times(32, k, C1), 15), C2));
  }

  lemma StepInjective(h: nat, k: nat, h': nat, k': nat)
    requires Word(32, h) && Word(32, k) && Word(32, h') && Word(32, k') && Step(h, k) == Step(h', k')
    ensures h == h' <==> k == k'
  {
    hide Times, Rotl, Plus, Xor, Mixed, Word;
    var a, a' := Xor(h, Mixed(k)), Xor(h', Mixed(k'));
    MixedWord(k); MixedWord(k');
    XorWord(32, h, Mixed(k)); XorWord(32, h', Mixed(k'));
    RotlParts(32, a, 13); RotlParts(32, a', 13);
    PlusInjective(32, Times(32, Rotl(32, a, 13), 5), Times(32, Rotl(32, a', 13), 5), 0xe6546b64);
    TimesInjective(32, Rotl(32, a, 13), Rotl(32, a', 13), 5);
    RotlInjective(32, a, a', 13);
    XorCancels(h, Mixed(k), h', Mixed(k'));
    if h == h' { MixedInjective(k, k'); }
  }

  lemma {:induction false} BodyWord(host: C.Host, key: seq<byte>, seed: nat, n: nat)
    requires 4 * n <= |key| && Word(32, seed)
    ensures Word(32, Body(host, key, seed, n))
  {
  }

  /** Seeds or blocks: once two states differ, equal blocks never make them meet again. */
  lemma {:induction false} StaysApart(host: C.Host, x: seq<byte>, y: seq<byte>, s: nat, s': nat, m: nat, n: nat)
    requires m <= n && 4 * n <= |x| == |y| && Word(32, s) && Word(32, s')
    requires Body(host, x, s, m) != Body(host, y, s', m)
    requires forall j: nat :: m <= j < n ==> Block(x, j) == Block(y, j)
    ensures Body(host, x, s, n) != Body(host, y, s', n)
    decreases n
  {
    hide Step, Load, Word;
    if m < n {
      StaysApart(host, x, y, s, s', m, n - 1);
      BodyWord(host, x, s, n - 1); BodyWord(host, y, s', n - 1);
      LoadWord(host, Block(x, n - 1));
      Bytes4(host, Block(x, n - 1));
      if Body(host, x, s, n) == Body(host, y, s', n) {
        StepInjective(Body(host, x, s, n - 1), Load(host, Block(x, n - 1)), Body(host, y, s', n - 1),
                      Load(host, Block(y, n - 1)));
      }
    }
  }

  lemma Bytes4(host: C.Host, t: seq<byte>)
    requires |t| == 4
    ensures Word(32, Load(host, t))
  {
    LoadWord(host, t);
  }

  lemma {:induction false} SameBody(host: C.Host, x: seq<byte>, y: seq<byte>, s: nat, n: nat)
    requires 4 * n <= |x| == |y| && x[..4 * n] == y[..4 * n]
    ensures Body(host, x, s, n) == Body(host, y, s, n)
  {
    hide Step, Load;
    if n > 0 {
      SameWithin(x, y, 4 * n, 0, 4 * (n - 1));
      SameBody(host, x, y, s, n - 1);
      SameWithin(x, y, 4 * n, 4 * (n - 1), 4 * n);
    }
  }

  lemma AbsorbInjective(h: nat, t: seq<byte>, h': nat, t': seq<byte>)
    requires Word(32, h) && Word(32, h') && |t| == |t'| < 4 && Absorb(h, t) == Absorb(h', t')
    ensures h == h' <==> t == t'
  {
    hide Xor, Mixed, Word;
    if t != [] {
      XorCancels(h, Mixed(Little(t)), h', Mixed(Little(t')));
      if h == h' {
        TailFits(t); TailFits(t');
        MixedInjective(Little(t), Little(t'));
        LittleInjective(t, t');
      }
    }
  }

  lemma TailFits(t: seq<byte>)
    requires |t| < 4
    ensures Word(32, Little(t))
  {
    LittleWord(t);
    WordGrows(8 * |t|, 32, Little(t));
  }

  lemma AbsorbWord(h: nat, t: seq<byte>)
    requires Word(32, h)
    ensures Word(32, Absorb(h, t))
  {
    hide Word, Mixed, Xor;
    MixedWord(Little(t));
    XorWord(32, h, Mixed(Little(t)));
  }

  /** Equal hashes of keys of one length: the states before the tail agree exactly when the tails do. */
  lemma HashInjective(host: C.Host, x: seq<byte>, y: seq<byte>, s: C.uint32, s': C.uint32)
    requires |x| == |y| < 0x8000_0000 && Hash(host, x, s) == Hash(host, y, s')
    ensures Body(host, x, s, |x| / 4) == Body(host, y, s', |y| / 4) <==> Tail(x) == Tail(y)
  {
    hide FinalMix, Absorb, Xor, Word, Body;
    var h, h' := Body(host, x, s, |x| / 4), Body(host, y, s', |y| / 4);
    var a, a' := Absorb(h, Tail(x)), Absorb(h', Tail(y));
    Is32(s); Is32(s'); Is32(|x|);
    BodyWord(host, x, s, |x| / 4); BodyWord(host, y, s', |y| / 4);
    AbsorbWord(h, Tail(x)); AbsorbWord(h', Tail(y));
    XorWord(32, a, |x|); XorWord(32, a', |y|);
    FinalMixInjective(32, Xor(a, |x|), Xor(a', |y|), 16, 0x85ebca6b, 13, 0xc2b2ae35, 16);
    XorCancels(a, |x|, a', |y|);
    AbsorbInjective(h, Tail(x), h', Tail(y));
  }

  lemma Is32(x: nat)
    requires x < 0x1_0000_0000
    ensures Word(32, x)
  {
    Pow2Of32();
  }

  /** Main result: for every seed, length and host, keys that differ in one block, or only in the tail, have
      different hashes. */
  lemma NoCollision(host: C.Host, x: seq<byte>, y: seq<byte>, seed: C.uint32)
    requires |x| == |y| < 0x8000_0000
    requires DifferInTail(x, y, 4) || exists j: nat :: DifferInBlock(x, y, 4, j)
    ensures Hash(host, x, seed) != Hash(host, y, seed)
  {
    if DifferInTail(x, y, 4) {
      SameBody(host, x, y, seed, |x| / 4);
      TailsDiffer(x, y);
    } else {
      var j: nat :| DifferInBlock(x, y, 4, j);
      BlockSetsApart(host, x, y, seed, j);
    }
    if Hash(host, x, seed) == Hash(host, y, seed) {
      HashInjective(host, x, y, seed, seed);
    }
  }

  lemma TailsDiffer(x: seq<byte>, y: seq<byte>)
    requires DifferInTail(x, y, 4)
    ensures Tail(x) != Tail(y) && x[..4 * (|x| / 4)] == y[..4 * (|y| / 4)]
  {
    assert x == x[..|x| - |x| % 4] + Tail(x);
    assert y == y[..|y| - |y| % 4] + Tail(y);
  }

  lemma BlockSetsApart(host: C.Host, x: seq<byte>, y: seq<byte>, seed: C.uint32, j: nat)
    requires DifferInBlock(x, y, 4, j)
    ensures Tail(x) == Tail(y) && Body(host, x, seed, |x| / 4) != Body(host, y, seed, |y| / 4)
  {
    hide Body, Block, Word;
    Is32(seed);
    SameBody(host, x, y, seed, j);
    BlockFlips(host, x, y, seed, j);
    LaterBlocks(x, y, j);
    StaysApart(host, x, y, seed, seed, j + 1, |x| / 4);
  }

  lemma LaterBlocks(x: seq<byte>, y: seq<byte>, j: nat)
    requires DifferInBlock(x, y, 4, j)
    ensures Tail(x) == Tail(y) && forall i: nat :: j + 1 <= i < |x| / 4 ==> Block(x, i) == Block(y, i)
  {
    forall i: nat | j + 1 <= i < |x| / 4
      ensures Block(x, i) == Block(y, i)
    {
      SameBehind(x, y, 4 * (j + 1), 4 * i, 4 * (i + 1));
    }
    SameBehind(x, y, 4 * (j + 1), 4 * (|x| / 4), |x|);
  }

  lemma BlockFlips(host: C.Host, x: seq<byte>, y: seq<byte>, seed: nat, j: nat)
    requires Word(32, seed) && DifferInBlock(x, y, 4, j) && Body(host, x, seed, j) == Body(host, y, seed, j)
    ensures Body(host, x, seed, j + 1) != Body(host, y, seed, j + 1)
  {
    hide Step, Load, Word;
    var k, k' := Load(host, Block(x, j)), Load(host, Block(y, j));
    BodyWord(host, x, seed, j); BodyWord(host, y, seed, j);
    Bytes4(host, Block(x, j)); Bytes4(host, Block(y, j));
    if Step(Body(host, x, seed, j), k) == Step(Body(host, y, seed, j), k') {
      StepInjective(Body(host, x, seed, j), k, Body(host, y, seed, j), k');
      LoadInjective(host, Block(x, j), Block(y, j));
    }
  }

  /** One key under two seeds never collides either. */
  lemma SeedsNeverCollide(host: C.Host, key: seq<byte>, s: C.uint32, s': C.uint32)
    requires |key| < 0x8000_0000 && s != s'
    ensures Hash(host, key, s) != Hash(host, key, s')
  {
    Is32(s); Is32(s');
    StaysApart(host, key, key, s, s', 0, |key| / 4);
    if Hash(host, key, s) == Hash(host, key, s') {
      HashInjective(host, key, key, s, s');
    }
  }

  // Across lengths.

  lemma {:induction false} BodyOfPrefix(host: C.Host, key: seq<byte>, z: seq<byte>, seed: nat, n: nat)
    requires 4 * n <= |key|
    ensures Body(host, key + z, seed, n) == Body(host, key, seed, n)
  {
    hide Step, Load;
    if n > 0 {
      assert Block(key + z, n - 1) == Block(key, n - 1);
      BodyOfPrefix(host, key, z, seed, n - 1);
    }
  }

  lemma MixedOfZero()
    ensures Mixed(0) == 0
  {
    MixedIs(0, 0, 0, 0);
  }

  lemma AbsorbPadded(h: nat, t: seq<byte>, n: nat)
    ensures Absorb(h, t + Zeros(n)) == Absorb(h, t)
  {
    hide Mixed, Xor, Little, Or;
    LittlePadded(t, n);
    if t == [] {
      MixedOfZero();
      ZeroXor(h);
      LittleOfZeros(0);
    }
  }

  /** The length counts: for every key, seed and host, zero bytes appended within its last word change the hash. */
  lemma PaddingShows(host: C.Host, key: seq<byte>, n: nat, seed: C.uint32)
    requires 0 < n && |key| % 4 + n < 4 && |key| + n < 0x8000_0000
    ensures Hash(host, key + Zeros(n), seed) != Hash(host, key, seed)
  {
    hide FinalMix, Absorb, Xor, Word, Body;
    var h := Body(host, key, seed, |key| / 4);
    var a := Absorb(h, Tail(key));
    BodyOfPrefix(host, key, Zeros(n), seed, |key| / 4);
    assert Tail(key + Zeros(n)) == Tail(key) + Zeros(n);
    AbsorbPadded(h, Tail(key), n);
    Is32(seed); Is32(|key|); Is32(|key| + n);
    BodyWord(host, key, seed, |key| / 4);
    AbsorbWord(h, Tail(key));
    XorWord(32, a, |key|); XorWord(32, a, |key| + n);
    if Hash(host, key + Zeros(n), seed) == Hash(host, key, seed) {
      FinalMixInjective(32, Xor(a, |key| + n), Xor(a, |key|), 16, 0x85ebca6b, 13, 0xc2b2ae35, 16);
      XorCancels(a, |key| + n, a, |key|);
    }
  }

  /** Keys of fewer than four zero bytes have different hashes for different lengths. */
  lemma ZerosApart(host: C.Host, m: nat, n: nat, seed: C.uint32)
    requires m < 4 && n < 4 && m != n
    ensures Hash(host, Zeros(m), seed) != Hash(host, Zeros(n), seed)
  {
    hide Hash;
    var a, b := if m < n then m else n, if m < n then n else m;
    assert Zeros(a) + Zeros(b - a) == Zeros(b);
    PaddingShows(host, Zeros(a), b - a, seed);
  }
}
