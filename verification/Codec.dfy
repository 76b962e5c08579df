/** Byte order: the codec of little-endian hosts computes with shifts, the one of big-endian hosts copies memory. */
module Codec {
  import W = Words

  type byte = x: int | 0 <= x < 256
  type uint16 = x: int | 0 <= x < 0x1_0000
  type uint32 = W.uint32
  type uint64 = x: int | 0 <= x < 0x1_0000_0000_0000_0000

  /** (uint32_t)n. */
  function Truncated(n: int): (r: uint32)
    ensures 0 <= n < 0x1_0000_0000 ==> r == n
  {
    n % 0x1_0000_0000
  }

  /** n >>= 8, k times. */
  function Shift8(n: nat, k: nat): nat {
    if k == 0 then n else Shift8(n, k - 1) / 256
  }

  /** The low width bytes of n, most significant first: network order, and a word in a big-endian memory. */
  function Bytes(n: nat, width: nat): (s: seq<byte>)
    ensures |s| == width
  {
    seq(width, i requires 0 <= i < width => Shift8(n, width - 1 - i) % 256)
  }

  /** The number whose network-order bytes are s. */
  function Value(s: seq<byte>): nat {
    if s == [] then 0 else Value(s[..|s| - 1]) * 256 + s[|s| - 1]
  }

  function Range(width: nat): (r: nat)
    ensures 0 < r
  {
    if width == 0 then 1 else 256 * Range(width - 1)
  }

  lemma {:induction false} ShiftFirst(n: nat, k: nat)
    ensures Shift8(n / 256, k) == Shift8(n, k + 1)
  {
    if k > 0 { ShiftFirst(n, k - 1); }
  }

  lemma BytesSplit(n: nat, width: nat)
    requires 0 < width
    ensures Bytes(n, width) == Bytes(n / 256, width - 1) + [n % 256]
  {
    forall i | 0 <= i < width - 1
      ensures Bytes(n, width)[i] == Bytes(n / 256, width - 1)[i]
    {
      ShiftFirst(n, width - 2 - i);
    }
    assert Bytes(n, width)[width - 1] == Shift8(n, 0) % 256;
    assert Bytes(n, width) == Bytes(n, width)[..width - 1] + [n % 256];
  }

  /** Reading back what was written, for every value of the width. */
  lemma {:induction false} WriteThenRead(n: nat, width: nat)
    requires n < Range(width)
    ensures Value(Bytes(n, width)) == n
  {
    if width > 0 {
      BytesSplit(n, width);
      WriteThenRead(n / 256, width - 1);
      assert Bytes(n, width)[..width - 1] == Bytes(n / 256, width - 1);
    }
  }

  /** Writing back what was read, for every byte string. */
  lemma {:induction false} ReadThenWrite(s: seq<byte>)
    ensures Value(s) < Range(|s|) && Bytes(Value(s), |s|) == s
  {
    if s != [] {
      ReadThenWrite(s[..|s| - 1]);
      BytesSplit(Value(s), |s|);
    }
  }

  lemma ValueStep(s: seq<byte>, i: nat)
    requires i < |s|
    ensures Value(s[..i + 1]) == Value(s[..i]) * 256 + s[i]
  {
    assert s[..i + 1][..i] == s[..i];
  }

  lemma Ranges()
    ensures Range(2) == 0x1_0000 && Range(4) == 0x1_0000_0000 && Range(8) == 0x1_0000_0000_0000_0000
  {
    assert Range(6) == 0x1_0000 * Range(4);
  }

  // Words spelt out, most significant byte first.

  function ByteAt(s: seq<byte>, i: nat): nat
    requires i < |s|
  {
    s[i]
  }

  /** The number of the two bytes at i. */
  function Pair(s: seq<byte>, i: nat): nat
    requires i + 2 <= |s|
  {
    0x100 * ByteAt(s, i) + ByteAt(s, i + 1)
  }

  /** The number of the four bytes at i. */
  function Quad(s: seq<byte>, i: nat): nat
    requires i + 4 <= |s|
  {
    0x100_0000 * ByteAt(s, i) + 0x1_0000 * ByteAt(s, i + 1) + 0x100 * ByteAt(s, i + 2) + ByteAt(s, i + 3)
  }

  lemma PairOf(s: seq<byte>, i: nat)
    requires i + 2 <= |s|
    ensures Value(s[i..i + 2]) == Pair(s, i)
  {
    var t := s[i..i + 2];
    ValueStep(t, 0); ValueStep(t, 1);
    assert t[..2] == t;
  }

  lemma QuadOf(s: seq<byte>, i: nat)
    requires i + 4 <= |s|
    ensures Value(s[i..i + 4]) == Quad(s, i)
  {
    var t := s[i..i + 4];
    ValueStep(t, 0); ValueStep(t, 1); ValueStep(t, 2); ValueStep(t, 3);
    assert t[..4] == t;
  }

  /** The array outside [at, at + |s|) is untouched and the window holds s. */
  ghost predicate Wrote(before: seq<byte>, after: seq<byte>, at: nat, s: seq<byte>) {
    at + |s| <= |before| && after == before[..at] + s + before[at + |s|..]
  }

  // LittleEndianCodecUtils.

  /** The k lowest bytes of n are in place, the rest of the array is as before. */
  ghost predicate LowBytesIn(before: seq<byte>, after: seq<byte>, at: nat, n: nat, width: nat, k: nat) {
    && k <= width && at + width <= |before| == |after|
    && (forall i :: 0 <= i < |before| && !(at + width - k <= i < at + width) ==> after[i] == before[i])
    && (forall i :: width - k <= i < width ==> after[at + i] == Bytes(n, width)[i])
  }

  lemma AllBytesIn(before: seq<byte>, after: seq<byte>, at: nat, n: nat, width: nat)
    requires LowBytesIn(before, after, at, n, width, width)
    ensures Wrote(before, after, at, Bytes(n, width))
  {
    assert after == before[..at] + Bytes(n, width) + before[at + width..];
  }

  /** buf[width - 1 - k] = (uchar)m; m >>= 8. */
  method PutLow(buf: array<byte>, at: nat, m: nat, k: nat, width: nat, ghost before: seq<byte>, ghost n: nat)
    returns (m': nat)
    requires at + width <= buf.Length && k < width && m == Shift8(n, k)
    requires LowBytesIn(before, buf[..], at, n, width, k)
    modifies buf
    ensures m' == Shift8(n, k + 1) && LowBytesIn(before, buf[..], at, n, width, k + 1)
  {
    buf[at + (width - 1 - k)] := m % 256;
    m' := m / 256;
  }

  method LittleWriteUInt16(buf: array<byte>, at: nat, n: uint16)
    requires at + 2 <= buf.Length
    modifies buf
    ensures Wrote(old(buf[..]), buf[..], at, Bytes(n, 2))
  {
    ghost var before := buf[..];
    var m := PutLow(buf, at, n, 0, 2, before, n);
    m := PutLow(buf, at, m, 1, 2, before, n);
    AllBytesIn(before, buf[..], at, n, 2);
  }

  method LittleWriteUInt32(buf: array<byte>, at: nat, n: uint32)
    requires at + 4 <= buf.Length
    modifies buf
    ensures Wrote(old(buf[..]), buf[..], at, Bytes(n, 4))
  {
    ghost var before := buf[..];
    var m := PutLow(buf, at, n, 0, 4, before, n);
    m := PutLow(buf, at, m, 1, 4, before, n);
    m := PutLow(buf, at, m, 2, 4, before, n);
    m := PutLow(buf, at, m, 3, 4, before, n);
    AllBytesIn(before, buf[..], at, n, 4);
  }

  method LittleWriteUInt64(buf: array<byte>, at: nat, n: uint64)
    requires at + 8 <= buf.Length
    modifies buf
    ensures Wrote(old(buf[..]), buf[..], at, Bytes(n, 8))
  {
    ghost var before := buf[..];
    var m := PutLow(buf, at, n, 0, 8, before, n);
    m := PutLow(buf, at, m, 1, 8, before, n);
    m := PutLow(buf, at, m, 2, 8, before, n);
    m := PutLow(buf, at, m, 3, 8, before, n);
    m := PutLow(buf, at, m, 4, 8, before, n);
    m := PutLow(buf, at, m, 5, 8, before, n);
    m := PutLow(buf, at, m, 6, 8, before, n);
    m := PutLow(buf, at, m, 7, 8, before, n);
    AllBytesIn(before, buf[..], at, n, 8);
  }

  /** n <<= 8; n |= b in a word of `width` bytes. The shift leaves the low byte clear, so the `or` adds b. */
  method ShiftIn(n: nat, b: byte, width: nat, ghost s: seq<byte>, ghost i: nat) returns (r: nat)
    requires i < |s| <= width && n == Value(s[..i]) && b == s[i]
    ensures r == Value(s[..i + 1]) && r < Range(width)
  {
    ValueStep(s, i);
    ReadThenWrite(s[..i + 1]);
    RangeGrows(i + 1, width);
    W.QuotientUnique(n * 256, Range(width), 0, n * 256);
    r := (n * 256) % Range(width) + b;
  }

  lemma {:induction false} RangeGrows(a: nat, b: nat)
    requires a <= b
    ensures Range(a) <= Range(b)
  {
    if a < b { RangeGrows(a, b - 1); }
  }

  method LittleReadUInt16(buf: array<byte>, at: nat) returns (n: uint16)
    requires at + 2 <= buf.Length
    ensures n == Value(buf[at..at + 2])
  {
    Ranges();
    ghost var s := buf[at..at + 2];
    ValueStep(s, 0);
    var r := ShiftIn(buf[at], buf[at + 1], 2, s, 1);
    assert s[..2] == s;
    n := r;
  }

  method LittleReadUInt32(buf: array<byte>, at: nat) returns (n: uint32)
    requires at + 4 <= buf.Length
    ensures n == Value(buf[at..at + 4])
  {
    Ranges();
    ghost var s := buf[at..at + 4];
    ValueStep(s, 0);
    var r := ShiftIn(buf[at], buf[at + 1], 4, s, 1);
    r := ShiftIn(r, buf[at + 2], 4, s, 2);
    r := ShiftIn(r, buf[at + 3], 4, s, 3);
    assert s[..4] == s;
    n := r;
  }

  method LittleReadUInt64(buf: array<byte>, at: nat) returns (n: uint64)
    requires at + 8 <= buf.Length
    ensures n == Value(buf[at..at + 8])
  {
    Ranges();
    ghost var s := buf[at..at + 8];
    ValueStep(s, 0);
    var r := ShiftIn(buf[at], buf[at + 1], 8, s, 1);
    r := ShiftIn(r, buf[at + 2], 8, s, 2);
    r := ShiftIn(r, buf[at + 3], 8, s, 3);
    r := ShiftIn(r, buf[at + 4], 8, s, 4);
    r := ShiftIn(r, buf[at + 5], 8, s, 5);
    r := ShiftIn(r, buf[at + 6], 8, s, 6);
    r := ShiftIn(r, buf[at + 7], 8, s, 7);
    assert s[..8] == s;
    n := r;
  }

  // BigEndianCodecUtils, which only big-endian hosts use: the bytes of a word in memory are copied as they are.

  /** ((uchar*)(&n))[i] for a word of `width` bytes on a big-endian host. */
  function MemoryByte(n: nat, width: nat, i: nat): byte
    requires i < width
  {
    (n / Range(width - 1 - i)) % 256
  }

  /** A big-endian memory holds a word as its network-order bytes. */
  lemma MemoryIsNetworkOrder(n: nat, width: nat, i: nat)
    requires i < width
    ensures MemoryByte(n, width, i) == Bytes(n, width)[i]
  {
    ShiftDivides(n, width - 1 - i);
  }

  lemma {:induction false} ShiftDivides(n: nat, k: nat)
    ensures Shift8(n, k) == n / Range(k)
  {
    if k > 0 {
      ShiftDivides(n, k - 1);
      DivideTwice(n, Range(k - 1));
    }
  }

  lemma DivideTwice(n: nat, d: nat)
    requires 0 < d
    ensures n / d / 256 == n / (256 * d)
  {
    var q, r := n / d, n % d;
    assert n == d * q + r;
    var a, b := q / 256, q % 256;
    assert q == 256 * a + b;
    assert n == (256 * d) * a + (d * b + r);
    W.MulLe(d, b + 1, 256);
    W.MulLe(d, 0, b);
    W.QuotientUnique(n, 256 * d, a, d * b + r);
  }

  method BigWriteUInt16(buf: array<byte>, at: nat, n: uint16)
    requires at + 2 <= buf.Length
    modifies buf
    ensures Wrote(old(buf[..]), buf[..], at, Bytes(n, 2))
  {
    ghost var before := buf[..];
    forall i: nat | i < 2 ensures MemoryByte(n, 2, i) == Bytes(n, 2)[i] { MemoryIsNetworkOrder(n, 2, i); }
    buf[at], buf[at + 1] := MemoryByte(n, 2, 0), MemoryByte(n, 2, 1);
    AllBytesIn(before, buf[..], at, n, 2);
  }

  method BigWriteUInt32(buf: array<byte>, at: nat, n: uint32)
    requires at + 4 <= buf.Length
    modifies buf
    ensures Wrote(old(buf[..]), buf[..], at, Bytes(n, 4))
  {
    ghost var before := buf[..];
    forall i: nat | i < 4 ensures MemoryByte(n, 4, i) == Bytes(n, 4)[i] { MemoryIsNetworkOrder(n, 4, i); }
    buf[at], buf[at + 1] := MemoryByte(n, 4, 0), MemoryByte(n, 4, 1);
    buf[at + 2], buf[at + 3] := MemoryByte(n, 4, 2), MemoryByte(n, 4, 3);
    AllBytesIn(before, buf[..], at, n, 4);
  }

  method BigWriteUInt64(buf: array<byte>, at: nat, n: uint64)
    requires at + 8 <= buf.Length
    modifies buf
    ensures Wrote(old(buf[..]), buf[..], at, Bytes(n, 8))
  {
    ghost var before := buf[..];
    forall i: nat | i < 8 ensures MemoryByte(n, 8, i) == Bytes(n, 8)[i] { MemoryIsNetworkOrder(n, 8, i); }
    buf[at], buf[at + 1] := MemoryByte(n, 8, 0), MemoryByte(n, 8, 1);
    buf[at + 2], buf[at + 3] := MemoryByte(n, 8, 2), MemoryByte(n, 8, 3);
    buf[at + 4], buf[at + 5] := MemoryByte(n, 8, 4), MemoryByte(n, 8, 5);
    buf[at + 6], buf[at + 7] := MemoryByte(n, 8, 6), MemoryByte(n, 8, 7);
    AllBytesIn(before, buf[..], at, n, 8);
  }

  /** The word a big-endian host loads from memory bytes s is the one number whose memory image is s. */
  lemma LoadIsValue(s: seq<byte>, n: nat)
    ensures n == Value(s) <==> n < Range(|s|) && forall i: nat :: i < |s| ==> s[i] == MemoryByte(n, |s|, i)
  {
    forall i: nat | i < |s|
      ensures MemoryByte(n, |s|, i) == Bytes(n, |s|)[i]
    {
      MemoryIsNetworkOrder(n, |s|, i);
    }
    ReadThenWrite(s);
    if n < Range(|s|) && forall i: nat :: i < |s| ==> s[i] == MemoryByte(n, |s|, i) {
      assert s == Bytes(n, |s|);
      WriteThenRead(n, |s|);
    }
  }

  /** *((uint16_t*)buf) on a big-endian host: the first byte in memory is the most significant one. */
  method BigReadUInt16(buf: array<byte>, at: nat) returns (n: uint16)
    requires at + 2 <= buf.Length
    ensures n == Value(buf[at..at + 2])
  {
    n := Load(buf, at, 2);
  }

  method BigReadUInt32(buf: array<byte>, at: nat) returns (n: uint32)
    requires at + 4 <= buf.Length
    ensures n == Value(buf[at..at + 4])
  {
    n := Load(buf, at, 4);
  }

  method BigReadUInt64(buf: array<byte>, at: nat) returns (n: uint64)
    requires at + 8 <= buf.Length
    ensures n == Value(buf[at..at + 8])
  {
    n := Load(buf, at, 8);
  }

  /** A load of `width` bytes: the word with this memory image. */
  method Load(buf: array<byte>, at: nat, width: nat) returns (n: nat)
    requires at + width <= buf.Length
    ensures n == Value(buf[at..at + width]) && n < Range(width)
    ensures width == 2 ==> n < 0x1_0000
    ensures width == 4 ==> n < 0x1_0000_0000
    ensures width == 8 ==> n < 0x1_0000_0000_0000_0000
  {
    ghost var s := buf[at..at + width];
    ReadThenWrite(s);
    LoadIsValue(s, Value(s));
    n :| 0 <= n < Range(width) && forall i: nat :: i < width ==> buf[at + i] == MemoryByte(n, width, i);
    LoadIsValue(s, n);
    Ranges();
  }

  // ByteOrderUtils: each host uses the codec of its own byte order.

  datatype Host = LittleEndianHost | BigEndianHost

  method WriteUInt16(host: Host, buf: array<byte>, at: nat, n: uint16)
    requires at + 2 <= buf.Length
    modifies buf
    ensures Wrote(old(buf[..]), buf[..], at, Bytes(n, 2))
  {
    if host == LittleEndianHost { LittleWriteUInt16(buf, at, n); } else { BigWriteUInt16(buf, at, n); }
  }

  method WriteUInt32(host: Host, buf: array<byte>, at: nat, n: uint32)
    requires at + 4 <= buf.Length
    modifies buf
    ensures Wrote(old(buf[..]), buf[..], at, Bytes(n, 4))
  {
    if host == LittleEndianHost { LittleWriteUInt32(buf, at, n); } else { BigWriteUInt32(buf, at, n); }
  }

  method ReadUInt16(host: Host, buf: array<byte>, at: nat) returns (n: uint16)
    requires at + 2 <= buf.Length
    ensures n == Value(buf[at..at + 2])
  {
    if host == LittleEndianHost { n := LittleReadUInt16(buf, at); } else { n := BigReadUInt16(buf, at); }
  }

  method ReadUInt32(host: Host, buf: array<byte>, at: nat) returns (n: uint32)
    requires at + 4 <= buf.Length
    ensures n == Value(buf[at..at + 4])
  {
    if host == LittleEndianHost { n := LittleReadUInt32(buf, at); } else { n := BigReadUInt32(buf, at); }
  }
}
