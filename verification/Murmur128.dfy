/** MurmurHash3_x64_128: keys of equal length that differ in one 16-byte block, or only in the tail, never collide. */
module Murmur128 {
  import opened W = Words
  import opened BitWords
  import opened MurmurMix
  import opened WordValues
  import C = Codec

  const C1: nat := 0x87c37b91114253d5
  const C2: nat := 0x4cf5ad432745937f

  datatype State = State(h1: nat, h2: nat)

  datatype Pair = Pair(k1: nat, k2: nat)

  function Mixed1(k: nat): nat {
    Scramble(64, k, C1, 31, C2)
  }

  function Mixed2(k: nat): nat {
    Scramble(64, k, C2, 33, C1)
  }

  /** h ^= m; h = rotl(h, r); h += other; h = h * 5 + c. */
  function Half(h: nat, m: nat, r: nat, other: nat, c: nat): nat
    requires r <= 64
  {
    Plus(64, Times(64, Plus(64, Rotl(64, Xor(h, m), r), other), 5), c)
  }

  /** One block into the state: the second half is stirred with the new first one. */
  function Step(s: State, k: Pair): State {
    var h1 := Half(s.h1, Mixed1(k.k1), 27, s.h2, 0x52dce729);
    State(h1, Half(s.h2, Mixed2(k.k2), 31, h1, 0x38495ab5))
  }

  function Fmix(h: nat): nat {
    FinalMix(64, h, 33, 0xff51afd7ed558ccd, 33, 0xc4ceb9fe1a85ec53, 33)
  }

  /** h1 += h2; h2 += h1. */
  function Sums(s: State): State {
    var h1 := Plus(64, s.h1, s.h2);
    State(h1, Plus(64, s.h2, h1))
  }

  function Finish(s: State, len: nat): State {
    var t := Sums(State(Xor(s.h1, len), Xor(s.h2, len)));
    Sums(State(Fmix(t.h1), Fmix(t.h2)))
  }

  function Block(key: seq<byte>, j: nat): (t: seq<byte>)
    requires 16 * (j + 1) <= |key|
    ensures |t| == 16
  {
    key[16 * j..16 * (j + 1)]
  }

  function LoadPair(host: C.Host, t: seq<byte>): Pair
    requires |t| == 16
  {
    Pair(Load(host, t[..8]), Load(host, t[8..]))
  }

  /** The state after the first n blocks. */
  function Body(host: C.Host, key: seq<byte>, s: State, n: nat): State
    requires 16 * n <= |key|
  {
    if n == 0 then s else Step(Body(host, key, s, n - 1), LoadPair(host, Block(key, n - 1)))
  }

  /** The bytes behind the last whole block. */
  function Tail(key: seq<byte>): (t: seq<byte>)
    ensures |t| == |key| % 16
  {
    key[16 * (|key| / 16)..]
  }

  /** The tail bytes that go into k1, and those that go into k2. */
  function First(t: seq<byte>): (r: seq<byte>)
    ensures |r| == if |t| < 8 then |t| else 8
  {
    if |t| < 8 then t else t[..8]
  }

  function Second(t: seq<byte>): (r: seq<byte>)
    ensures |r| == if |t| < 8 then 0 else |t| - 8
  {
    if |t| < 8 then [] else t[8..]
  }

  function Absorb1(h: nat, t: seq<byte>): nat {
    if t == [] then h else Xor(h, Mixed1(Little(t)))
  }

  function Absorb2(h: nat, t: seq<byte>): nat {
    if t == [] then h else Xor(h, Mixed2(Little(t)))
  }

  function Absorb(s: State, t: seq<byte>): State {
    State(Absorb1(s.h1, First(t)), Absorb2(s.h2, Second(t)))
  }

  function Hash(host: C.Host, key: seq<byte>, seed: nat): State {
    Finish(Absorb(Body(host, key, State(seed, seed), |key| / 16), Tail(key)), |key|)
  }

  // The code.

  method Mix1(k: nat) returns (k1: nat)
    ensures k1 == Mixed1(k)
  {
    hide Times, Rotl;
    k1 := Times(64, k, C1);
    k1 := Rotl(64, k1, 31);
    k1 := Times(64, k1, C2);
  }

  method Mix2(k: nat) returns (k2: nat)
    ensures k2 == Mixed2(k)
  {
    hide Times, Rotl;
    k2 := Times(64, k, C2);
    k2 := Rotl(64, k2, 33);
    k2 := Times(64, k2, C1);
  }

  method Fmix64(x: nat) returns (k: nat)
    ensures k == Fmix(x)
  {
    hide Times, Fold;
    k := Fold(x, 33);
    k := Times(64, k, 0xff51afd7ed558ccd);
    k := Fold(k, 33);
    k := Times(64, k, 0xc4ceb9fe1a85ec53);
    k := Fold(k, 33);
  }

  /** The body of the block loop. */
  method MixBlock(s: State, k: Pair) returns (s': State)
    ensures s' == Step(s, k)
  {
    hide Times, Rotl, Plus, Xor, Mixed1, Mixed2;
    var h1, h2 := s.h1, s.h2;
    var k1 := Mix1(k.k1);
    h1 := Xor(h1, k1);
    h1 := Rotl(64, h1, 27);
    h1 := Plus(64, h1, h2);
    h1 := Plus(64, Times(64, h1, 5), 0x52dce729);
    var k2 := Mix2(k.k2);
    h2 := Xor(h2, k2);
    h2 := Rotl(64, h2, 31);
    h2 := Plus(64, h2, h1);
    h2 := Plus(64, Times(64, h2, 5), 0x38495ab5);
    s' := State(h1, h2);
  }

  /** Cases 15 to 9 of the switch. */
  method SecondWord(t: seq<byte>) returns (k2: nat)
    requires |t| < 8
    ensures k2 == Little(t)
  {
    k2 := 0;
    k2 := Case(k2, t, 6);
    k2 := Case(k2, t, 5);
    k2 := Case(k2, t, 4);
    k2 := Case(k2, t, 3);
    k2 := Case(k2, t, 2);
    k2 := Case(k2, t, 1);
    k2 := Case(k2, t, 0);
    FromStart(k2, t);
  }

  /** Cases 8 to 1. */
  method FirstWord(t: seq<byte>) returns (k1: nat)
    requires |t| <= 8
    ensures k1 == Little(t)
  {
    k1 := 0;
    k1 := Case(k1, t, 7);
    k1 := Case(k1, t, 6);
    k1 := Case(k1, t, 5);
    k1 := Case(k1, t, 4);
    k1 := Case(k1, t, 3);
    k1 := Case(k1, t, 2);
    k1 := Case(k1, t, 1);
    k1 := Case(k1, t, 0);
    FromStart(k1, t);
  }

  /** The switch: k2 is mixed before the cases of k1 begin. */
  method MixTail(s: State, t: seq<byte>) returns (s': State)
    requires |t| < 16
    ensures s' == Absorb(s, t)
  {
    hide Mixed1, Mixed2, Xor, Little;
    s' := s;
    if |t| >= 9 {
      var k2 := SecondWord(t[8..]);
      k2 := Mix2(k2);
      s' := s'.(h2 := Xor(s'.h2, k2));
    }
    if |t| >= 1 {
      var k1 := FirstWord(First(t));
      k1 := Mix1(k1);
      s' := s'.(h1 := Xor(s'.h1, k1));
    }
  }

  method Finalise(s: State, len: nat) returns (out: State)
    ensures out == Finish(s, len)
  {
    hide Xor, Plus, Fmix;
    var h1, h2 := Xor(s.h1, len), Xor(s.h2, len);
    h1 := Plus(64, h1, h2);
    h2 := Plus(64, h2, h1);
    h1 := Fmix64(h1);
    h2 := Fmix64(h2);
    h1 := Plus(64, h1, h2);
    h2 := Plus(64, h2, h1);
    out := State(h1, h2);
  }

  method MurmurHash3_x64_128(host: C.Host, data: array<byte>, seed: C.uint32) returns (out: State)
    requires data.Length < 0x8000_0000
    ensures out == Hash(host, data[..], seed)
    ensures data.Length == 0 && seed == 1 ==> out == State(0x4610abe56eff5cb5, 0x51622daa78f83583)
    ensures data[..] == HELLO && seed == 0 ==> out == State(0xcbd8a7b341bd9b02, 0x5b1e906a48ae1d19)
    ensures data[..] == ALPHABET && seed == 0 && host == C.LittleEndianHost ==>
              out == State(0x749c9d7e516f4aa9, 0xe9ad9c89b6a7d529)
  {
    hide Step, Absorb, Finish, Load, Hash;
    ghost var key := data[..];
    var len := data.Length;
    var nblocks := len / 16;
    var s := State(seed, seed);
    for i := 0 to nblocks
      invariant s == Body(host, data[..], State(seed, seed), i)
    {
      var at := 16 * i;
      var t := data[at..at + 16];
      assert t == Block(data[..], i);
      s := MixBlock(s, LoadPair(host, t));
    }
    var tail := data[16 * nblocks..];
    assert tail == Tail(data[..]);
    s := MixTail(s, tail);
    out := Finalise(s, len);
    HashIs(host, key, seed);
    KnownAnswers(host);
    assert data.Length == 0 ==> key == [];
  }

  lemma HashIs(host: C.Host, key: seq<byte>, seed: nat)
    ensures Hash(host, key, seed)
            == Finish(Absorb(Body(host, key, State(seed, seed), |key| / 16), Tail(key)), |key|)
  {
  }

  // Known answers: the constants, the rotations, the order of the bytes and of the halves, the place of the length.

  /** The ASCII bytes of "hello", and those of a to z. */
  const HELLO: seq<byte> := [104, 101, 108, 108, 111]
  const ALPHABET: seq<byte> := seq(26, i requires 0 <= i < 26 => 97 + i)

  lemma KnownAnswers(host: C.Host)
    ensures Hash(host, [], 1) == State(0x4610abe56eff5cb5, 0x51622daa78f83583)
    ensures Hash(host, HELLO, 0) == State(0xcbd8a7b341bd9b02, 0x5b1e906a48ae1d19)
    ensures host == C.LittleEndianHost ==> Hash(host, ALPHABET, 0) == State(0x749c9d7e516f4aa9, 0xe9ad9c89b6a7d529)
  {
    hide Hash;
    EmptyAnswer(host);
    HelloAnswer(host);
    if host == C.LittleEndianHost { AlphabetAnswer(host); }
  }

  lemma Mixed1Is(k: nat, a: nat, b: nat, m: nat)
    requires a == k * 0x87c37b91114253d5 % 0x1_0000_0000_0000_0000
    requires b == a % 0x2_0000_0000 * 0x8000_0000 + a / 0x2_0000_0000
    requires m == b * 0x4cf5ad432745937f % 0x1_0000_0000_0000_0000
    ensures Mixed1(k) == m
  {
    hide Rotl;
    Powers();
    Rotl64By31(a);
  }

  lemma Mixed2Is(k: nat, a: nat, b: nat, m: nat)
    requires a == k * 0x4cf5ad432745937f % 0x1_0000_0000_0000_0000
    requires b == a % 0x8000_0000 * 0x2_0000_0000 + a / 0x8000_0000
    requires m == b * 0x87c37b91114253d5 % 0x1_0000_0000_0000_0000
    ensures Mixed2(k) == m
  {
    hide Rotl;
    Powers();
    Rotl64By33(a);
  }

  lemma HalfIs27(h: nat, m: nat, other: nat, c: nat, x: nat, y: nat, z: nat, w: nat)
    requires Xor(h, m) == x && x < 0x1_0000_0000_0000_0000
    requires y == x % 0x20_0000_0000 * 0x800_0000 + x / 0x20_0000_0000
    requires z == (y + other) % 0x1_0000_0000_0000_0000
    requires w == (z * 5 % 0x1_0000_0000_0000_0000 + c) % 0x1_0000_0000_0000_0000
    ensures Half(h, m, 27, other, c) == w
  {
    hide Rotl, Xor;
    Powers();
    Rotl64By27(x);
  }

  lemma HalfIs31(h: nat, m: nat, other: nat, c: nat, x: nat, y: nat, z: nat, w: nat)
    requires Xor(h, m) == x && x < 0x1_0000_0000_0000_0000
    requires y == x % 0x2_0000_0000 * 0x8000_0000 + x / 0x2_0000_0000
    requires z == (y + other) % 0x1_0000_0000_0000_0000
    requires w == (z * 5 % 0x1_0000_0000_0000_0000 + c) % 0x1_0000_0000_0000_0000
    ensures Half(h, m, 31, other, c) == w
  {
    hide Rotl, Xor;
    Powers();
    Rotl64By31(x);
  }

  lemma FmixIs(h: nat, a: nat, b: nat, d: nat, e: nat, f: nat)
    requires Xor(h, h / 0x2_0000_0000) == a && b == a * 0xff51afd7ed558ccd % 0x1_0000_0000_0000_0000
    requires Xor(b, b / 0x2_0000_0000) == d && e == d * 0xc4ceb9fe1a85ec53 % 0x1_0000_0000_0000_0000
    requires Xor(e, e / 0x2_0000_0000) == f
    ensures Fmix(h) == f
  {
    hide Xor;
    Powers();
  }

  lemma FinishIs(h1: nat, h2: nat, len: nat, x1: nat, x2: nat, t1: nat, t2: nat, f1: nat, f2: nat)
    requires Xor(h1, len) == x1 && Xor(h2, len) == x2
    requires t1 == (x1 + x2) % 0x1_0000_0000_0000_0000 && t2 == (x2 + t1) % 0x1_0000_0000_0000_0000
    requires Fmix(t1) == f1 && Fmix(t2) == f2
    ensures var o1 := (f1 + f2) % 0x1_0000_0000_0000_0000;
            Finish(State(h1, h2), len) == State(o1, (f2 + o1) % 0x1_0000_0000_0000_0000)
  {
    hide Xor, Fmix;
    Powers();
  }

  lemma EmptyLength()
    ensures Xor(1, 0) == 1 && Xor(1, 0) == 1
  {
    hide Xor, Or;
    ZeroXor(1);
    ZeroXor(1);
  }

  lemma EmptyFinal1()
    ensures Fmix(2) == 0x3abf2a20650683e7
  {
    hide Xor, Or, Fmix;
    ZeroXor(2);
    ZeroXor(0);
    XorDigits(0, 0, 0, 0xf, 0xe, 0xa, 3, 0, 0, 0, 0, 0xf, 0xe, 0xa, 3);
    XorDigits(0xfea3, 0, 0xfea3, 5, 0xf, 0xa, 0xf, 0, 0, 0, 0, 5, 0xf, 0xa, 0xf);
    XorDigits(0xfea35faf, 0, 0xfea35faf, 0xd, 0xa, 0xa, 0xb, 7, 0xf, 5, 1, 0xa, 5, 0xf, 0xa);
    XorDigits(0xfea35fafdaab, 0x7f51, 0xfea35fafa5fa, 1, 9, 9, 0xa, 0xa, 0xf, 0xd, 7, 0xb, 6, 4, 0xd);
    XorDigits(0, 0, 0, 3, 0xa, 0xb, 0xf, 0, 0, 0, 0, 3, 0xa, 0xb, 0xf);
    XorDigits(0x3abf, 0, 0x3abf, 2, 0xa, 2, 0, 0, 0, 0, 0, 2, 0xa, 2, 0);
    XorDigits(0x3abf2a20, 0, 0x3abf2a20, 7, 8, 5, 9, 1, 0xd, 5, 0xf, 6, 5, 0, 6);
    XorDigits(0x3abf2a207859, 0x1d5f, 0x3abf2a206506, 1, 6, 0xf, 7, 9, 5, 1, 0, 8, 3, 0xe, 7);
    FmixIs(2, 2, 0xfea35fafdaab199a, 0xfea35fafa5fab64d, 0x3abf2a20785916f7, 0x3abf2a20650683e7);
  }

  lemma EmptyFinal2()
    ensures Fmix(3) == 0xb5181c509f8d8ce
  {
    hide Xor, Or, Fmix;
    ZeroXor(3);
    ZeroXor(0);
    XorDigits(0, 0, 0, 0xf, 0xd, 0xf, 5, 0, 0, 0, 0, 0xf, 0xd, 0xf, 5);
    XorDigits(0xfdf5, 0, 0xfdf5, 0, 0xf, 8, 7, 0, 0, 0, 0, 0, 0xf, 8, 7);
    XorDigits(0xfdf50f87, 0, 0xfdf50f87, 0xc, 8, 0, 0, 7, 0xe, 0xf, 0xa, 0xb, 6, 0xf, 0xa);
    XorDigits(0xfdf50f87c800, 0x7efa, 0xfdf50f87b6fa, 0xa, 6, 6, 7, 8, 7, 0xc, 3, 2, 1, 0xa, 4);
    XorDigits(0, 0, 0, 0, 0xb, 5, 1, 0, 0, 0, 0, 0, 0xb, 5, 1);
    XorDigits(0xb51, 0, 0xb51, 8, 1, 0xc, 5, 0, 0, 0, 0, 8, 1, 0xc, 5);
    XorDigits(0xb5181c5, 0, 0xb5181c5, 0, 0xc, 5, 0, 0, 5, 0xa, 8, 0, 9, 0xf, 8);
    XorDigits(0xb5181c50c50, 0x5a8, 0xb5181c509f8, 1, 8, 2, 0xc, 0xc, 0, 0xe, 2, 0xd, 8, 0xc, 0xe);
    FmixIs(3, 3, 0xfdf50f87c800a667, 0xfdf50f87b6fa21a4, 0xb5181c50c50182c, 0xb5181c509f8d8ce);
  }

  lemma EmptyFinish()
    ensures Finish(State(1, 1), 0) == State(0x4610abe56eff5cb5, 0x51622daa78f83583)
  {
    hide Xor, Or, Fmix, Finish;
    EmptyLength();
    EmptyFinal1();
    EmptyFinal2();
    FinishIs(1, 1, 0, 1, 1, 2, 3, 0x3abf2a20650683e7, 0xb5181c509f8d8ce);
  }

  lemma EmptyAnswer(host: C.Host)
    ensures Hash(host, [], 1) == State(0x4610abe56eff5cb5, 0x51622daa78f83583)
  {
    hide Finish;
    assert Tail([]) == [];
    EmptyFinish();
  }

  lemma HelloTail()
    ensures Xor(0, Mixed1(0x6f6c6c6568)) == 0x8c3f01c9e77511c7
  {
    hide Xor, Or, Mixed1;
    Mixed1Is(0x6f6c6c6568, 0x17680b7267e11788, 0x33f08bc40bb405b9, 0x8c3f01c9e77511c7);
    ZeroXor(0x8c3f01c9e77511c7);
  }

  lemma HelloLength()
    ensures Xor(0x8c3f01c9e77511c7, 5) == 0x8c3f01c9e77511c2 && Xor(0, 5) == 5
  {
    hide Xor, Or;
    ZeroXor(0);
    XorDigits(0, 0, 0, 8, 0xc, 3, 0xf, 0, 0, 0, 0, 8, 0xc, 3, 0xf);
    XorDigits(0x8c3f, 0, 0x8c3f, 0, 1, 0xc, 9, 0, 0, 0, 0, 0, 1, 0xc, 9);
    XorDigits(0x8c3f01c9, 0, 0x8c3f01c9, 0xe, 7, 7, 5, 0, 0, 0, 0, 0xe, 7, 7, 5);
    XorDigits(0x8c3f01c9e775, 0, 0x8c3f01c9e775, 1, 1, 0xc, 7, 0, 0, 0, 5, 1, 1, 0xc, 2);
    ZeroXor(5);
  }

  lemma HelloFinal1()
    ensures Fmix(0x8c3f01c9e77511c7) == 0x3c92befc3acd18eb
  {
    hide Xor, Or, Fmix;
    ZeroXor(0);
    XorDigits(0, 0, 0, 8, 0xc, 3, 0xf, 0, 0, 0, 0, 8, 0xc, 3, 0xf);
    XorDigits(0x8c3f, 0, 0x8c3f, 0, 1, 0xc, 9, 0, 0, 0, 0, 0, 1, 0xc, 9);
    XorDigits(0x8c3f01c9, 0, 0x8c3f01c9, 0xe, 7, 7, 5, 4, 6, 1, 0xf, 0xa, 1, 6, 0xa);
    XorDigits(0x8c3f01c9e775, 0x461f, 0x8c3f01c9a16a, 1, 1, 0xc, 7, 8, 0, 0xe, 4, 9, 1, 2, 3);
    XorDigits(0, 0, 0, 3, 8, 9, 0xa, 0, 0, 0, 0, 3, 8, 9, 0xa);
    XorDigits(0x389a, 0, 0x389a, 0xc, 4, 0xe, 1, 0, 0, 0, 0, 0xc, 4, 0xe, 1);
    XorDigits(0x389ac4e1, 0, 0x389ac4e1, 2, 1, 5, 4, 1, 0xc, 4, 0xd, 3, 0xd, 1, 9);
    XorDigits(0x389ac4e12154, 0x1c4d, 0x389ac4e13d19, 5, 0xd, 0, 7, 6, 2, 7, 0, 3, 0xf, 7, 7);
    XorDigits(0, 0, 0, 3, 0xc, 9, 2, 0, 0, 0, 0, 3, 0xc, 9, 2);
    XorDigits(0x3c92, 0, 0x3c92, 0xb, 0xe, 0xf, 0xc, 0, 0, 0, 0, 0xb, 0xe, 0xf, 0xc);
    XorDigits(0x3c92befc, 0, 0x3c92befc, 2, 4, 8, 4, 1, 0xe, 4, 9, 3, 0xa, 0xc, 0xd);
    XorDigits(0x3c92befc2484, 0x1e49, 0x3c92befc3acd, 4, 7, 9, 5, 5, 0xf, 7, 0xe, 1, 8, 0xe, 0xb);
    FmixIs(0x8c3f01c9e77511c7, 0x8c3f01c9a16a9123, 0x389ac4e121545d07, 0x389ac4e13d193f77, 0x3c92befc24844795,
           0x3c92befc3acd18eb);
  }

  lemma HelloFinal2()
    ensures Fmix(0x8c3f01c9e77511cc) == 0x8f45e8b706f08217
  {
    hide Xor, Or, Fmix;
    ZeroXor(0);
    XorDigits(0, 0, 0, 8, 0xc, 3, 0xf, 0, 0, 0, 0, 8, 0xc, 3, 0xf);
    XorDigits(0x8c3f, 0, 0x8c3f, 0, 1, 0xc, 9, 0, 0, 0, 0, 0, 1, 0xc, 9);
    XorDigits(0x8c3f01c9, 0, 0x8c3f01c9, 0xe, 7, 7, 5, 4, 6, 1, 0xf, 0xa, 1, 6, 0xa);
    XorDigits(0x8c3f01c9e775, 0x461f, 0x8c3f01c9a16a, 1, 1, 0xc, 0xc, 8, 0, 0xe, 4, 9, 1, 2, 8);
    XorDigits(0, 0, 0, 3, 5, 3, 3, 0, 0, 0, 0, 3, 5, 3, 3);
    XorDigits(0x3533, 0, 0x3533, 3, 4, 1, 8, 0, 0, 0, 0, 3, 4, 1, 8);
    XorDigits(0x35333418, 0, 0x35333418, 0xc, 4, 0, 0, 1, 0xa, 9, 9, 0xd, 0xe, 9, 9);
    XorDigits(0x35333418c400, 0x1a99, 0x35333418de99, 1, 0xd, 0, 8, 9, 0xa, 0, 0xc, 8, 7, 0, 4);
    XorDigits(0, 0, 0, 8, 0xf, 4, 5, 0, 0, 0, 0, 8, 0xf, 4, 5);
    XorDigits(0x8f45, 0, 0x8f45, 0xe, 8, 0xb, 7, 0, 0, 0, 0, 0xe, 8, 0xb, 7);
    XorDigits(0x8f45e8b7, 0, 0x8f45e8b7, 4, 1, 5, 2, 4, 7, 0xa, 2, 0, 6, 0xf, 0);
    XorDigits(0x8f45e8b74152, 0x47a2, 0x8f45e8b706f0, 7, 6, 4, 0xc, 0xf, 4, 5, 0xb, 8, 2, 1, 7);
    FmixIs(0x8c3f01c9e77511cc, 0x8c3f01c9a16a9128, 0x35333418c4001d08, 0x35333418de998704, 0x8f45e8b74152764c,
           0x8f45e8b706f08217);
  }

  lemma HelloFinish()
    ensures Finish(State(0x8c3f01c9e77511c7, 0), 5) == State(0xcbd8a7b341bd9b02, 0x5b1e906a48ae1d19)
  {
    hide Xor, Or, Fmix, Finish;
    HelloLength();
    HelloFinal1();
    HelloFinal2();
    FinishIs(0x8c3f01c9e77511c7, 0, 5, 0x8c3f01c9e77511c2, 5, 0x8c3f01c9e77511c7, 0x8c3f01c9e77511cc,
             0x3c92befc3acd18eb, 0x8f45e8b706f08217);
  }

  lemma HelloWord()
    ensures Little(HELLO) == 0x6f6c6c6568
  {
    hide Little;
    LittleOf(HELLO[..4], 0x6c6c6568);
    LittleOf(HELLO[4..], 0x6f);
    LittleHalves(HELLO);
  }

  lemma ShortKey(host: C.Host, key: seq<byte>, seed: nat)
    requires 0 < |key| < 8
    ensures Hash(host, key, seed) == Finish(State(Xor(seed, Mixed1(Little(key))), seed), |key|)
  {
    hide Finish, Xor, Mixed1, Little;
    assert Tail(key) == key;
  }

  lemma HelloAnswer(host: C.Host)
    ensures Hash(host, HELLO, 0) == State(0xcbd8a7b341bd9b02, 0x5b1e906a48ae1d19)
  {
    hide Hash, Finish, Xor, Mixed1, Little;
    ShortKey(host, HELLO, 0);
    HelloWord();
    HelloTail();
    HelloFinish();
  }

  lemma AlphabetHalf1()
    ensures Half(0, Mixed1(0x6867666564636261), 27, 0, 0x52dce729) == 0x95e9186c59c1f877
  {
    hide Xor, Or, Mixed1, Mixed2, Half;
    Mixed1Is(0x6867666564636261, 0x397be1018d984db5, 0xc6cc26da9cbdf080, 0x2c206eca25d3cf80);
    ZeroXor(0x2c206eca25d3cf80);
    HalfIs27(0, 0x2c206eca25d3cf80, 0, 0x52dce729, 0x2c206eca25d3cf80, 0x512e9e7c01610376, 0x512e9e7c01610376,
             0x95e9186c59c1f877);
  }

  lemma AlphabetHalf2()
    ensures Half(0, Mixed2(0x706f6e6d6c6b6a69), 31, 0x95e9186c59c1f877, 0x38495ab5) == 0xd35cc0a6c2b58789
  {
    hide Xor, Or, Mixed1, Mixed2, Half;
    Mixed2Is(0x706f6e6d6c6b6a69, 0x2c36022f24b11517, 0x49622a2e586c045e, 0xb70dba9bf5861c36);
    ZeroXor(0xb70dba9bf5861c36);
    HalfIs31(0, 0xb70dba9bf5861c36, 0x95e9186c59c1f877, 0x38495ab5, 0xb70dba9bf5861c36, 0xfac30e1b5b86dd4d,
             0x90ac2687b548d5c4, 0xd35cc0a6c2b58789);
  }

  lemma AlphabetStep()
    ensures Step(State(0, 0), Pair(0x6867666564636261, 0x706f6e6d6c6b6a69))
            == State(0x95e9186c59c1f877, 0xd35cc0a6c2b58789)
  {
    hide Half, Mixed1, Mixed2;
    AlphabetHalf1();
    AlphabetHalf2();
  }

  lemma AlphabetTail1()
    ensures Xor(0x95e9186c59c1f877, Mixed1(0x7877767574737271)) == 0x93fe9c2a9d843963
  {
    hide Xor, Or, Mixed1;
    Mixed1Is(0x7877767574737271, 0x7e4471d9544adb05, 0xaa256d82bf2238ec, 0x6178446c445c114);
    ZeroXor(0);
    XorDigits(0, 0, 0, 9, 5, 0xe, 9, 0, 6, 1, 7, 9, 3, 0xf, 0xe);
    XorDigits(0x95e9, 0x617, 0x93fe, 1, 8, 6, 0xc, 8, 4, 4, 6, 9, 0xc, 2, 0xa);
    XorDigits(0x95e9186c, 0x6178446, 0x93fe9c2a, 5, 9, 0xc, 1, 0xc, 4, 4, 5, 9, 0xd, 8, 4);
    XorDigits(0x95e9186c59c1, 0x6178446c445, 0x93fe9c2a9d84, 0xf, 8, 7, 7, 0xc, 1, 1, 4, 3, 9, 6, 3);
  }

  lemma AlphabetTail2()
    ensures Xor(0xd35cc0a6c2b58789, Mixed2(0x7a79)) == 0x32d22e1d6e8cd954
  {
    hide Xor, Or, Mixed2;
    Mixed2Is(0x7a79, 0x74b0e574b82d3d07, 0x705a7a0ee961cae9, 0xe18eeebbac395edd);
    ZeroXor(0);
    XorDigits(0, 0, 0, 0xd, 3, 5, 0xc, 0xe, 1, 8, 0xe, 3, 2, 0xd, 2);
    XorDigits(0xd35c, 0xe18e, 0x32d2, 0xc, 0, 0xa, 6, 0xe, 0xe, 0xb, 0xb, 2, 0xe, 1, 0xd);
    XorDigits(0xd35cc0a6, 0xe18eeebb, 0x32d22e1d, 0xc, 2, 0xb, 5, 0xa, 0xc, 3, 9, 6, 0xe, 8, 0xc);
    XorDigits(0xd35cc0a6c2b5, 0xe18eeebbac39, 0x32d22e1d6e8c, 8, 7, 8, 9, 5, 0xe, 0xd, 0xd, 0xd, 9, 5, 4);
  }

  lemma AlphabetLength()
    ensures Xor(0x93fe9c2a9d843963, 26) == 0x93fe9c2a9d843979 && Xor(0x32d22e1d6e8cd954, 26) == 0x32d22e1d6e8cd94e
  {
    hide Xor, Or;
    ZeroXor(0);
    XorDigits(0, 0, 0, 9, 3, 0xf, 0xe, 0, 0, 0, 0, 9, 3, 0xf, 0xe);
    XorDigits(0x93fe, 0, 0x93fe, 9, 0xc, 2, 0xa, 0, 0, 0, 0, 9, 0xc, 2, 0xa);
    XorDigits(0x93fe9c2a, 0, 0x93fe9c2a, 9, 0xd, 8, 4, 0, 0, 0, 0, 9, 0xd, 8, 4);
    XorDigits(0x93fe9c2a9d84, 0, 0x93fe9c2a9d84, 3, 9, 6, 3, 0, 0, 1, 0xa, 3, 9, 7, 9);
    XorDigits(0, 0, 0, 3, 2, 0xd, 2, 0, 0, 0, 0, 3, 2, 0xd, 2);
    XorDigits(0x32d2, 0, 0x32d2, 2, 0xe, 1, 0xd, 0, 0, 0, 0, 2, 0xe, 1, 0xd);
    XorDigits(0x32d22e1d, 0, 0x32d22e1d, 6, 0xe, 8, 0xc, 0, 0, 0, 0, 6, 0xe, 8, 0xc);
    XorDigits(0x32d22e1d6e8c, 0, 0x32d22e1d6e8c, 0xd, 9, 5, 4, 0, 0, 1, 0xa, 0xd, 9, 4, 0xe);
  }

  lemma AlphabetFinal1()
    ensures Fmix(0xc6d0ca480c1112c7) == 0xff8b9e72ec36c029
  {
    hide Xor, Or, Fmix;
    ZeroXor(0);
    XorDigits(0, 0, 0, 0xc, 6, 0xd, 0, 0, 0, 0, 0, 0xc, 6, 0xd, 0);
    XorDigits(0xc6d0, 0, 0xc6d0, 0xc, 0xa, 4, 8, 0, 0, 0, 0, 0xc, 0xa, 4, 8);
    XorDigits(0xc6d0ca48, 0, 0xc6d0ca48, 0, 0xc, 1, 1, 6, 3, 6, 8, 6, 0xf, 7, 9);
    XorDigits(0xc6d0ca480c11, 0x6368, 0xc6d0ca486f79, 1, 2, 0xc, 7, 6, 5, 2, 4, 7, 7, 0xe, 3);
    XorDigits(0, 0, 0, 5, 0, 0xd, 0xc, 0, 0, 0, 0, 5, 0, 0xd, 0xc);
    XorDigits(0x50dc, 0, 0x50dc, 0xe, 0xc, 0xe, 0xe, 0, 0, 0, 0, 0xe, 0xc, 0xe, 0xe);
    XorDigits(0x50dcecee, 0, 0x50dcecee, 0xa, 7, 3, 4, 2, 8, 6, 0xe, 8, 0xf, 5, 0xa);
    XorDigits(0x50dceceea734, 0x286e, 0x50dcecee8f5a, 2, 4, 0xc, 7, 7, 6, 7, 7, 5, 2, 0xb, 0);
    XorDigits(0, 0, 0, 0xf, 0xf, 8, 0xb, 0, 0, 0, 0, 0xf, 0xf, 8, 0xb);
    XorDigits(0xff8b, 0, 0xff8b, 9, 0xe, 7, 2, 0, 0, 0, 0, 9, 0xe, 7, 2);
    XorDigits(0xff8b9e72, 0, 0xff8b9e72, 9, 3, 0xf, 3, 7, 0xf, 0xc, 5, 0xe, 0xc, 3, 6);
    XorDigits(0xff8b9e7293f3, 0x7fc5, 0xff8b9e72ec36, 0, 0xf, 1, 0, 0xc, 0xf, 3, 9, 0xc, 0, 2, 9);
    FmixIs(0xc6d0ca480c1112c7, 0xc6d0ca486f7977e3, 0x50dceceea73424c7, 0x50dcecee8f5a52b0, 0xff8b9e7293f30f10,
           0xff8b9e72ec36c029);
  }

  lemma AlphabetFinal2()
    ensures Fmix(0xf9a2f8657a9dec15) == 0x7510ff0b65388a80
  {
    hide Xor, Or, Fmix;
    ZeroXor(0);
    XorDigits(0, 0, 0, 0xf, 9, 0xa, 2, 0, 0, 0, 0, 0xf, 9, 0xa, 2);
    XorDigits(0xf9a2, 0, 0xf9a2, 0xf, 8, 6, 5, 0, 0, 0, 0, 0xf, 8, 6, 5);
    XorDigits(0xf9a2f865, 0, 0xf9a2f865, 7, 0xa, 9, 0xd, 7, 0xc, 0xd, 1, 0, 6, 4, 0xc);
    XorDigits(0xf9a2f8657a9d, 0x7cd1, 0xf9a2f865064c, 0xe, 0xc, 1, 5, 7, 0xc, 3, 2, 9, 0, 2, 7);
    XorDigits(0, 0, 0, 1, 0xd, 0xe, 6, 0, 0, 0, 0, 1, 0xd, 0xe, 6);
    XorDigits(0x1de6, 0, 0x1de6, 0xd, 0xa, 0xf, 8, 0, 0, 0, 0, 0xd, 0xa, 0xf, 8);
    XorDigits(0x1de6daf8, 0, 0x1de6daf8, 0xe, 2, 1, 7, 0, 0xe, 0xf, 3, 0xe, 0xc, 0xe, 4);
    XorDigits(0x1de6daf8e217, 0xef3, 0x1de6daf8ece4, 0xc, 3, 3, 0xb, 6, 0xd, 7, 0xc, 0xa, 0xe, 4, 7);
    XorDigits(0, 0, 0, 7, 5, 1, 0, 0, 0, 0, 0, 7, 5, 1, 0);
    XorDigits(0x7510, 0, 0x7510, 0xf, 0xf, 0, 0xb, 0, 0, 0, 0, 0xf, 0xf, 0, 0xb);
    XorDigits(0x7510ff0b, 0, 0x7510ff0b, 5, 0xf, 0xb, 0, 3, 0xa, 8, 8, 6, 5, 3, 8);
    XorDigits(0x7510ff0b5fb0, 0x3a88, 0x7510ff0b6538, 0xf, 5, 0, 5, 7, 0xf, 8, 5, 8, 0xa, 8, 0);
    FmixIs(0xf9a2f8657a9dec15, 0xf9a2f865064c9027, 0x1de6daf8e217c33b, 0x1de6daf8ece4ae47, 0x7510ff0b5fb0f505,
           0x7510ff0b65388a80);
  }

  lemma AlphabetFinish()
    ensures Finish(State(0x93fe9c2a9d843963, 0x32d22e1d6e8cd954), 26) == State(0x749c9d7e516f4aa9, 0xe9ad9c89b6a7d529)
  {
    hide Xor, Or, Fmix, Finish;
    AlphabetLength();
    AlphabetFinal1();
    AlphabetFinal2();
    FinishIs(0x93fe9c2a9d843963, 0x32d22e1d6e8cd954, 26, 0x93fe9c2a9d843979, 0x32d22e1d6e8cd94e, 0xc6d0ca480c1112c7,
             0xf9a2f8657a9dec15, 0xff8b9e72ec36c029, 0x7510ff0b65388a80);
  }

  lemma AlphabetBlock(host: C.Host)
    requires host == C.LittleEndianHost
    ensures LoadPair(host, Block(ALPHABET, 0)) == Pair(0x6867666564636261, 0x706f6e6d6c6b6a69)
  {
    hide Little;
    var t := Block(ALPHABET, 0);
    assert t == [97, 98, 99, 100, 101, 102, 103, 104, 105, 106, 107, 108, 109, 110, 111, 112];
    LittleOf(t[..8][..4], 0x64636261);
    LittleOf(t[..8][4..], 0x68676665);
    LittleHalves(t[..8]);
    LittleOf(t[8..][..4], 0x6c6b6a69);
    LittleOf(t[8..][4..], 0x706f6e6d);
    LittleHalves(t[8..]);
  }

  lemma AlphabetRest()
    ensures Little(First(Tail(ALPHABET))) == 0x7877767574737271 && Little(Second(Tail(ALPHABET))) == 0x7a79
  {
    hide Little;
    var t := Tail(ALPHABET);
    assert t == [113, 114, 115, 116, 117, 118, 119, 120, 121, 122];
    LittleOf(First(t)[..4], 0x74737271);
    LittleOf(First(t)[4..], 0x78777675);
    LittleHalves(First(t));
    LittleOf(Second(t), 0x7a79);
  }

  lemma AlphabetAnswer(host: C.Host)
    requires host == C.LittleEndianHost
    ensures Hash(host, ALPHABET, 0) == State(0x749c9d7e516f4aa9, 0xe9ad9c89b6a7d529)
  {
    hide Finish, Xor, Mixed1, Mixed2, Little, Step, LoadPair;
    assert |Tail(ALPHABET)| == 10;
    AlphabetBlock(host);
    AlphabetStep();
    assert Body(host, ALPHABET, State(0, 0), 0) == State(0, 0);
    assert Body(host, ALPHABET, State(0, 0), 1) == Step(State(0, 0), LoadPair(host, Block(ALPHABET, 0)));
    AlphabetRest();
    AlphabetTail1();
    AlphabetTail2();
    AlphabetFinish();
  }

  // Every step is one-to-one.

  predicate Words(s: State) {
    Word(64, s.h1) && Word(64, s.h2)
  }

  lemma MixedWord(k: nat)
    ensures Word(64, Mixed1(k)) && Word(64, Mixed2(k))
  {
    hide Word, Rotl;
    assert Word(64, Times(64, Rotl(64, Times(64, k, C1), 31), C2));
    assert Word(64, Times(64, Rotl(64, Times(64, k, C2), 33), C1));
  }

  lemma Mixed1Injective(k: nat, k': nat)
    requires Word(64, k) && Word(64, k') && Mixed1(k) == Mixed1(k')
    ensures k == k'
  {
    hide Scramble, Word;
    ScrambleInjective(64, k, k', C1, 31, C2);
  }

  lemma Mixed2Injective(k: nat, k': nat)
    requires Word(64, k) && Word(64, k') && Mixed2(k) == Mixed2(k')
    ensures k == k'
  {
    hide Scramble, Word;
    ScrambleInjective(64, k, k', C2, 33, C1);
  }

  lemma HalfInjective(h: nat, m: nat, h': nat, m': nat, r: nat, other: nat, c: nat)
    requires Word(64, h) && Word(64, m) && Word(64, h') && Word(64, m') && r <= 64
    requires Half(h, m, r, other, c) == Half(h', m', r, other, c)
    ensures h == h' <==> m == m'
  {
    hide Times, Rotl, Plus, Xor, Word;
    var a, a' := Xor(h, m), Xor(h', m');
    XorWord(64, h, m); XorWord(64, h', m');
    RotlParts(64, a, r); RotlParts(64, a', r);
    var b, b' := Plus(64, Rotl(64, a, r), other), Plus(64, Rotl(64, a', r), other);
    PlusInjective(64, Times(64, b, 5), Times(64, b', 5), c);
    TimesInjective(64, b, b', 5);
    PlusInjective(64, Rotl(64, a, r), Rotl(64, a', r), other);
    RotlInjective(64, a, a', r);
    XorCancels(h, m, h', m');
  }

  lemma StepInjective(s: State, k: Pair, s': State, k': Pair)
    requires Words(s) && Words(s') && Word(64, k.k1) && Word(64, k.k2) && Word(64, k'.k1) && Word(64, k'.k2)
    requires Step(s, k) == Step(s', k')
    ensures s == s' <==> k == k'
  {
    hide Half, Mixed1, Mixed2, Word;
    MixedWord(k.k1); MixedWord(k'.k1); MixedWord(k.k2); MixedWord(k'.k2);
    HalfInjective(s.h2, Mixed2(k.k2), s'.h2, Mixed2(k'.k2), 31, Step(s, k).h1, 0x38495ab5);
    if s == s' || k == k' {
      assert s.h2 == s'.h2;
      Mixed2Injective(k.k2, k'.k2);
      HalfInjective(s.h1, Mixed1(k.k1), s'.h1, Mixed1(k'.k1), 27, s.h2, 0x52dce729);
      if s == s' { Mixed1Injective(k.k1, k'.k1); }
    }
  }

  lemma SumsInjective(s: State, s': State)
    requires Words(s) && Words(s') && Sums(s) == Sums(s')
    ensures s == s'
  {
    hide Plus, Word;
    PlusInjective(64, s.h2, s'.h2, Sums(s).h1);
    PlusInjective(64, s.h1, s'.h1, s.h2);
  }

  lemma FinishInjective(s: State, s': State, len: nat)
    requires Words(s) && Words(s') && Word(64, len) && Finish(s, len) == Finish(s', len)
    ensures s == s'
  {
    hide Plus, Word, Xor, FinalMix, Sums;
    var a, a' := State(Xor(s.h1, len), Xor(s.h2, len)), State(Xor(s'.h1, len), Xor(s'.h2, len));
    XorWord(64, s.h1, len); XorWord(64, s.h2, len); XorWord(64, s'.h1, len); XorWord(64, s'.h2, len);
    SumsWords(a); SumsWords(a');
    FmixWord(Sums(a).h1); FmixWord(Sums(a).h2); FmixWord(Sums(a').h1); FmixWord(Sums(a').h2);
    SumsInjective(State(Fmix(Sums(a).h1), Fmix(Sums(a).h2)), State(Fmix(Sums(a').h1), Fmix(Sums(a').h2)));
    FmixInjective(Sums(a).h1, Sums(a').h1);
    FmixInjective(Sums(a).h2, Sums(a').h2);
    SumsInjective(a, a');
    XorCancels(s.h1, len, s'.h1, len);
    XorCancels(s.h2, len, s'.h2, len);
  }

  lemma SumsWords(s: State)
    ensures Words(Sums(s))
  {
    hide Word;
  }

  lemma FmixWord(h: nat)
    ensures Word(64, Fmix(h))
  {
    hide Word;
    FinalMixWord(64, h, 33, 0xff51afd7ed558ccd, 33, 0xc4ceb9fe1a85ec53, 33);
  }

  lemma FmixInjective(h: nat, h': nat)
    requires Word(64, h) && Word(64, h') && Fmix(h) == Fmix(h')
    ensures h == h'
  {
    hide Word, FinalMix;
    FinalMixInjective(64, h, h', 33, 0xff51afd7ed558ccd, 33, 0xc4ceb9fe1a85ec53, 33);
  }

  lemma LoadPairFits(host: C.Host, t: seq<byte>)
    requires |t| == 16
    ensures Word(64, LoadPair(host, t).k1) && Word(64, LoadPair(host, t).k2)
  {
    LoadWord(host, t[..8]);
    LoadWord(host, t[8..]);
  }

  lemma LoadPairInjective(host: C.Host, t: seq<byte>, t': seq<byte>)
    requires |t| == |t'| == 16 && LoadPair(host, t) == LoadPair(host, t')
    ensures t == t'
  {
    LoadInjective(host, t[..8], t'[..8]);
    LoadInjective(host, t[8..], t'[8..]);
    assert t == t[..8] + t[8..] && t' == t'[..8] + t'[8..];
  }

  lemma {:induction false} BodyWords(host: C.Host, key: seq<byte>, s: State, n: nat)
    requires 16 * n <= |key| && Words(s)
    ensures Words(Body(host, key, s, n))
  {
  }

  lemma {:induction false} SameBody(host: C.Host, x: seq<byte>, y: seq<byte>, s: State, n: nat)
    requires 16 * n <= |x| == |y| && x[..16 * n] == y[..16 * n]
    ensures Body(host, x, s, n) == Body(host, y, s, n)
  {
    hide Step, LoadPair;
    if n > 0 {
      SameWithin(x, y, 16 * n, 0, 16 * (n - 1));
      SameBody(host, x, y, s, n - 1);
      SameWithin(x, y, 16 * n, 16 * (n - 1), 16 * n);
    }
  }

  /** Once two states differ, equal blocks never make them meet again. */
  lemma {:induction false} StaysApart(host: C.Host, x: seq<byte>, y: seq<byte>, s: State, s': State, m: nat, n: nat)
    requires m <= n && 16 * n <= |x| == |y| && Words(s) && Words(s')
    requires Body(host, x, s, m) != Body(host, y, s', m)
    requires forall j: nat :: m <= j < n ==> Block(x, j) == Block(y, j)
    ensures Body(host, x, s, n) != Body(host, y, s', n)
    decreases n
  {
    hide Step, LoadPair, Words, Word;
    if m < n {
      StaysApart(host, x, y, s, s', m, n - 1);
      BodyWords(host, x, s, n - 1); BodyWords(host, y, s', n - 1);
      LoadPairFits(host, Block(x, n - 1));
      if Body(host, x, s, n) == Body(host, y, s', n) {
        StepInjective(Body(host, x, s, n - 1), LoadPair(host, Block(x, n - 1)), Body(host, y, s', n - 1),
                      LoadPair(host, Block(y, n - 1)));
      }
    }
  }

  lemma BlockFlips(host: C.Host, x: seq<byte>, y: seq<byte>, s: State, j: nat)
    requires Words(s) && DifferInBlock(x, y, 16, j) && Body(host, x, s, j) == Body(host, y, s, j)
    ensures Body(host, x, s, j + 1) != Body(host, y, s, j + 1)
  {
    hide Step, LoadPair, Words, Word;
    var k, k' := LoadPair(host, Block(x, j)), LoadPair(host, Block(y, j));
    BodyWords(host, x, s, j); BodyWords(host, y, s, j);
    LoadPairFits(host, Block(x, j)); LoadPairFits(host, Block(y, j));
    if Step(Body(host, x, s, j), k) == Step(Body(host, y, s, j), k') {
      StepInjective(Body(host, x, s, j), k, Body(host, y, s, j), k');
      LoadPairInjective(host, Block(x, j), Block(y, j));
    }
  }

  lemma LaterBlocks(x: seq<byte>, y: seq<byte>, j: nat)
    requires DifferInBlock(x, y, 16, j)
    ensures Tail(x) == Tail(y) && forall i: nat :: j + 1 <= i < |x| / 16 ==> Block(x, i) == Block(y, i)
  {
    forall i: nat | j + 1 <= i < |x| / 16
      ensures Block(x, i) == Block(y, i)
    {
      SameBehind(x, y, 16 * (j + 1), 16 * i, 16 * (i + 1));
    }
    SameBehind(x, y, 16 * (j + 1), 16 * (|x| / 16), |x|);
  }

  lemma TailFits(t: seq<byte>)
    requires |t| <= 8
    ensures Word(64, Little(t))
  {
    LittleWord(t);
    WordGrows(8 * |t|, 64, Little(t));
  }

  lemma AbsorbInjective(s: State, t: seq<byte>, s': State, t': seq<byte>)
    requires |t| == |t'| < 16 && Absorb(s, t) == Absorb(s', t')
    ensures s == s' <==> t == t'
  {
    var a, a', b, b' := First(t), First(t'), Second(t), Second(t');
    assert t == a + b && t' == a' + b';
    Absorb1Injective(s.h1, a, s'.h1, a');
    Absorb2Injective(s.h2, b, s'.h2, b');
  }

  lemma Absorb1Injective(h: nat, t: seq<byte>, h': nat, t': seq<byte>)
    requires |t| == |t'| <= 8 && Absorb1(h, t) == Absorb1(h', t')
    ensures h == h' <==> t == t'
  {
    hide Xor, Mixed1, Word;
    if t != [] {
      XorCancels(h, Mixed1(Little(t)), h', Mixed1(Little(t')));
      if h == h' {
        TailFits(t); TailFits(t');
        Mixed1Injective(Little(t), Little(t'));
        LittleInjective(t, t');
      }
    }
  }

  lemma Absorb2Injective(h: nat, t: seq<byte>, h': nat, t': seq<byte>)
    requires |t| == |t'| <= 8 && Absorb2(h, t) == Absorb2(h', t')
    ensures h == h' <==> t == t'
  {
    hide Xor, Mixed2, Word;
    if t != [] {
      XorCancels(h, Mixed2(Little(t)), h', Mixed2(Little(t')));
      if h == h' {
        TailFits(t); TailFits(t');
        Mixed2Injective(Little(t), Little(t'));
        LittleInjective(t, t');
      }
    }
  }

  lemma AbsorbWords(s: State, t: seq<byte>)
    requires Words(s)
    ensures Words(Absorb(s, t))
  {
    hide Word, Mixed1, Mixed2, Xor;
    MixedWord(Little(First(t))); MixedWord(Little(Second(t)));
    XorWord(64, s.h1, Mixed1(Little(First(t))));
    XorWord(64, s.h2, Mixed2(Little(Second(t))));
  }

  lemma Is64(x: nat)
    requires x < 0x1_0000_0000
    ensures Word(64, x)
  {
    Pow2Of32();
    WordGrows(32, 64, x);
  }

  /** Equal hashes of keys of one length: the states before the tail agree exactly when the tails do. */
  lemma HashInjective(host: C.Host, x: seq<byte>, y: seq<byte>, seed: C.uint32, seed': C.uint32)
    requires |x| == |y| < 0x8000_0000 && Hash(host, x, seed) == Hash(host, y, seed')
    ensures Body(host, x, State(seed, seed), |x| / 16) == Body(host, y, State(seed', seed'), |y| / 16)
            <==> Tail(x) == Tail(y)
  {
    hide Finish, Absorb, Words, Word, Body;
    var s, s' := Body(host, x, State(seed, seed), |x| / 16), Body(host, y, State(seed', seed'), |y| / 16);
    SeedWords(seed); SeedWords(seed'); Is64(|x|);
    BodyWords(host, x, State(seed, seed), |x| / 16); BodyWords(host, y, State(seed', seed'), |y| / 16);
    AbsorbWords(s, Tail(x)); AbsorbWords(s', Tail(y));
    FinishInjective(Absorb(s, Tail(x)), Absorb(s', Tail(y)), |x|);
    AbsorbInjective(s, Tail(x), s', Tail(y));
  }

  lemma SeedWords(seed: C.uint32)
    ensures Words(State(seed, seed))
  {
    Is64(seed);
  }

  /** Main result: for every seed, length and host, keys that differ in one 16-byte block, or only in the tail, have
      different hashes. */
  lemma NoCollision(host: C.Host, x: seq<byte>, y: seq<byte>, seed: C.uint32)
    requires |x| == |y| < 0x8000_0000
    requires DifferInTail(x, y, 16) || exists j: nat :: DifferInBlock(x, y, 16, j)
    ensures Hash(host, x, seed) != Hash(host, y, seed)
  {
    hide Hash, Body, Words, Word;
    if DifferInTail(x, y, 16) {
      SameBody(host, x, y, State(seed, seed), |x| / 16);
      TailsDiffer(x, y);
    } else {
      var j: nat :| DifferInBlock(x, y, 16, j);
      BlockSetsApart(host, x, y, seed, j);
    }
    if Hash(host, x, seed) == Hash(host, y, seed) {
      HashInjective(host, x, y, seed, seed);
    }
  }

  lemma TailsDiffer(x: seq<byte>, y: seq<byte>)
    requires DifferInTail(x, y, 16)
    ensures Tail(x) != Tail(y) && x[..16 * (|x| / 16)] == y[..16 * (|y| / 16)]
  {
    assert x == x[..|x| - |x| % 16] + Tail(x);
    assert y == y[..|y| - |y| % 16] + Tail(y);
  }

  lemma BlockSetsApart(host: C.Host, x: seq<byte>, y: seq<byte>, seed: C.uint32, j: nat)
    requires DifferInBlock(x, y, 16, j)
    ensures Tail(x) == Tail(y)
    ensures Body(host, x, State(seed, seed), |x| / 16) != Body(host, y, State(seed, seed), |y| / 16)
  {
    hide Body, Block, Words;
    var s := State(seed, seed);
    SeedWords(seed);
    SameBody(host, x, y, s, j);
    BlockFlips(host, x, y, s, j);
    LaterBlocks(x, y, j);
    StaysApart(host, x, y, s, s, j + 1, |x| / 16);
  }

  /** One key under two seeds never collides either. */
  lemma SeedsNeverCollide(host: C.Host, key: seq<byte>, seed: C.uint32, seed': C.uint32)
    requires |key| < 0x8000_0000 && seed != seed'
    ensures Hash(host, key, seed) != Hash(host, key, seed')
  {
    hide Hash, Words;
    SeedWords(seed); SeedWords(seed');
    StaysApart(host, key, key, State(seed, seed), State(seed', seed'), 0, |key| / 16);
    if Hash(host, key, seed) == Hash(host, key, seed') {
      HashInjective(host, key, key, seed, seed');
    }
  }

  // Across lengths.

  lemma {:induction false} BodyOfPrefix(host: C.Host, key: seq<byte>, z: seq<byte>, s: State, n: nat)
    requires 16 * n <= |key|
    ensures Body(host, key + z, s, n) == Body(host, key, s, n)
  {
    hide Step, LoadPair;
    if n > 0 {
      assert Block(key + z, n - 1) == Block(key, n - 1);
      BodyOfPrefix(host, key, z, s, n - 1);
    }
  }

  lemma MixedOfZero()
    ensures Mixed1(0) == 0 && Mixed2(0) == 0
  {
    hide Mixed1, Mixed2;
    Mixed1Is(0, 0, 0, 0);
    Mixed2Is(0, 0, 0, 0);
  }

  lemma AbsorbPadded(s: State, t: seq<byte>, n: nat)
    requires |t| + n < 16
    ensures Absorb(s, t + Zeros(n)) == Absorb(s, t)
  {
    hide Mixed1, Mixed2, Xor, Little, Or;
    var m := if |t| < 8 then (if |t| + n < 8 then n else 8 - |t|) else 0;
    assert Zeros(n)[..m] == Zeros(m) && Zeros(n)[m..] == Zeros(n - m);
    assert First(t + Zeros(n)) == First(t) + Zeros(m);
    assert Second(t + Zeros(n)) == Second(t) + if |t| + n < 8 then [] else Zeros(n - m);
    LittlePadded(First(t), m);
    LittlePadded(Second(t), n - m);
    MixedOfZero();
    ZeroXor(s.h1); ZeroXor(s.h2);
    LittleOfZeros(0);
    assert Zeros(0) == [];
  }

  /** Equal results for one state mean equal lengths. */
  lemma FinishLength(s: State, len: nat, len': nat)
    requires Words(s) && Word(64, len) && Word(64, len') && Finish(s, len) == Finish(s, len')
    ensures len == len'
  {
    hide Plus, Word, Xor, FinalMix, Sums;
    var a, a' := State(Xor(s.h1, len), Xor(s.h2, len)), State(Xor(s.h1, len'), Xor(s.h2, len'));
    XorWord(64, s.h1, len); XorWord(64, s.h2, len); XorWord(64, s.h1, len'); XorWord(64, s.h2, len');
    SumsWords(a); SumsWords(a');
    FmixWord(Sums(a).h1); FmixWord(Sums(a).h2); FmixWord(Sums(a').h1); FmixWord(Sums(a').h2);
    SumsInjective(State(Fmix(Sums(a).h1), Fmix(Sums(a).h2)), State(Fmix(Sums(a').h1), Fmix(Sums(a').h2)));
    FmixInjective(Sums(a).h1, Sums(a').h1);
    FmixInjective(Sums(a).h2, Sums(a').h2);
    SumsInjective(a, a');
    XorCancels(s.h1, len, s.h1, len');
  }

  /** The length counts: for every key, seed and host, zero bytes appended within its last block change the hash. */
  lemma PaddingShows(host: C.Host, key: seq<byte>, n: nat, seed: C.uint32)
    requires 0 < n && |key| % 16 + n < 16 && |key| + n < 0x8000_0000
    ensures Hash(host, key + Zeros(n), seed) != Hash(host, key, seed)
  {
    hide Finish, Absorb, Words, Word, Body;
    var s := Body(host, key, State(seed, seed), |key| / 16);
    BodyOfPrefix(host, key, Zeros(n), State(seed, seed), |key| / 16);
    assert Tail(key + Zeros(n)) == Tail(key) + Zeros(n);
    AbsorbPadded(s, Tail(key), n);
    SeedWords(seed); Is64(|key|); Is64(|key| + n);
    BodyWords(host, key, State(seed, seed), |key| / 16);
    AbsorbWords(s, Tail(key));
    if Hash(host, key + Zeros(n), seed) == Hash(host, key, seed) {
      FinishLength(Absorb(s, Tail(key)), |key| + n, |key|);
    }
  }
}
