/** The one-shot parser inverts encoding, loses no byte, and may be fed in pieces. */
module WireLemmas {
  import opened Codec
  import opened Wire

  /** A sendable message in front of a stream is recognised. */
  lemma FrontOfFrame(m: Message, rest: seq<byte>)
    requires Sendable(m)
    ensures FrontOf(Frame(m) + rest) == Whole(m, rest)
  {
    var s := Frame(m) + rest;
    assert s[..HEADER_SIZE] == HeaderBytes(HeaderOf(m));
    DecodeEncoded(HeaderOf(m));
    assert s[HEADER_SIZE..HEADER_SIZE + |m.payload|] == m.payload;
    assert s[HEADER_SIZE + |m.payload|..] == rest;
  }

  /** What is recognised is the frame it was sent as. */
  lemma FrontIsFrame(s: seq<byte>)
    ensures FrontOf(s).Whole? ==> Sendable(FrontOf(s).m) && s == Frame(FrontOf(s).m) + FrontOf(s).rest
  {
    if FrontOf(s).Whole? {
      var h := Decode(s[..HEADER_SIZE]).value;
      EncodeDecoded(s[..HEADER_SIZE]);
      assert HeaderOf(FrontOf(s).m) == h;
      assert s == s[..HEADER_SIZE] + s[HEADER_SIZE..HEADER_SIZE + h.len] + s[HEADER_SIZE + h.len..];
    }
  }

  /** A proper prefix of a frame is incomplete. */
  lemma FrontOfPrefix(m: Message, s: seq<byte>)
    requires Sendable(m) && |s| < |Frame(m)| && s <= Frame(m)
    ensures FrontOf(s) == Incomplete
  {
    if HEADER_SIZE <= |s| {
      DecodeEncoded(HeaderOf(m));
      assert s[..HEADER_SIZE] == Frame(m)[..HEADER_SIZE] == HeaderBytes(HeaderOf(m));
    }
  }

  lemma ParseStep(s: seq<byte>, f: Front)
    requires f == FrontOf(s)
    ensures f.Whole? ==> |f.rest| < |s| && Parse(s) == Prepend([f.m], Parse(f.rest))
    ensures f == Incomplete ==> Parse(s) == Parsed([], s, More)
    ensures f == BadHeader ==> Parse(s) == Parsed([], s, Refused)
    ensures f == Zero ==> Parse(s) == Parsed([], s, Abort)
  {
  }

  lemma {:induction false} ParseFrames(ms: seq<Message>, rest: seq<byte>)
    requires forall m :: m in ms ==> Sendable(m)
    ensures Parse(Frames(ms) + rest) == Prepend(ms, Parse(rest))
  {
    if ms == [] {
      assert Frames(ms) + rest == rest;
      assert ms + Parse(rest).msgs == Parse(rest).msgs;
    } else {
      ParseFrames(ms[1..], rest);
      FramesCons(ms[0], ms[1..]);
      assert ms == [ms[0]] + ms[1..];
      Associative(Frame(ms[0]), Frames(ms[1..]), rest);
      ParseOneFrame(ms[0], Frames(ms[1..]) + rest);
      PrependTwice(ms, Parse(rest));
    }
  }

  lemma ParseOneFrame(m: Message, rest: seq<byte>)
    requires Sendable(m)
    ensures Parse(Frame(m) + rest) == Prepend([m], Parse(rest))
  {
    FrontOfFrame(m, rest);
    ParseStep(Frame(m) + rest, Whole(m, rest));
  }

  lemma PrependTwice(ms: seq<Message>, p: Parsed)
    requires ms != []
    ensures Prepend([ms[0]], Prepend(ms[1..], p)) == Prepend(ms, p)
  {
    assert [ms[0]] + (ms[1..] + p.msgs) == ms + p.msgs;
  }

  lemma Associative(a: seq<byte>, b: seq<byte>, c: seq<byte>)
    ensures (a + b) + c == a + (b + c)
  {
  }

  lemma {:induction false} FramesAppend(a: seq<Message>, b: seq<Message>)
    ensures Frames(a + b) == Frames(a) + Frames(b)
  {
    if a == [] {
      assert a + b == b;
    } else {
      FramesAppend(a[1..], b);
      FramesCons(a[0], a[1..]);
      FramesCons(a[0], a[1..] + b);
      assert a == [a[0]] + a[1..] && a + b == [a[0]] + (a[1..] + b);
      Associative(Frame(a[0]), Frames(a[1..]), Frames(b));
    }
  }

  lemma FramesCons(m: Message, ms: seq<Message>)
    ensures Frames([m] + ms) == Frame(m) + Frames(ms)
  {
    assert ([m] + ms)[1..] == ms;
  }

  lemma FramesOne(m: Message)
    ensures Frames([m]) == Frame(m)
  {
    assert [m][1..] == [];
  }

  /** Parsing loses no byte: the stream is the frames of the messages found, then the rest; and the rest alone
      holds no further message. */
  lemma {:induction false} ParseConserves(s: seq<byte>)
    ensures s == Frames(Parse(s).msgs) + Parse(s).rest
    ensures forall m :: m in Parse(s).msgs ==> Sendable(m)
    ensures Parse(Parse(s).rest) == Parsed([], Parse(s).rest, Parse(s).status)
    decreases |s|
  {
    var f := FrontOf(s);
    ParseStep(s, f);
    if f.Whole? {
      FrontIsFrame(s);
      ParseConserves(f.rest);
      var tail := Parse(f.rest);
      FramesCons(f.m, tail.msgs);
      Associative(Frame(f.m), Frames(tail.msgs), tail.rest);
    }
  }

  /** Feeding a stream in two pieces gives the messages of the whole, wherever it is cut. */
  lemma ParseAppend(s: seq<byte>, t: seq<byte>)
    ensures Parse(s + t) == Prepend(Parse(s).msgs, Parse(Parse(s).rest + t))
  {
    hide Parse, Frames;
    var p := Parse(s);
    ParseConserves(s);
    ParseFrames(p.msgs, p.rest + t);
    assert s + t == Frames(p.msgs) + (p.rest + t);
  }

  /** Any prefix of a stream of sendable messages parses without complaint, to a prefix of the messages. */
  lemma {:induction false} ParsePrefix(ms: seq<Message>, s: seq<byte>)
    requires (forall m :: m in ms ==> Sendable(m)) && s <= Frames(ms)
    ensures Parse(s).status == More && Parse(s).msgs <= ms
    ensures s == Frames(ms) ==> Parse(s) == Parsed(ms, [], More)
  {
    if ms == [] {
      ParseStep(s, Incomplete);
    } else {
      var f := Frame(ms[0]);
      if |f| <= |s| {
        var s' := s[|f|..];
        PrefixSplit(f, Frames(ms[1..]), s);
        ParsePrefix(ms[1..], s');
        FrontOfFrame(ms[0], s');
        ParseStep(s, Whole(ms[0], s'));
        assert ms == [ms[0]] + ms[1..];
      } else {
        assert s <= f by { assert f == Frames(ms)[..|f|]; }
        FrontOfPrefix(ms[0], s);
        ParseStep(s, Incomplete);
      }
    }
  }

  lemma PrefixSplit(a: seq<byte>, b: seq<byte>, s: seq<byte>)
    requires s <= a + b && |a| <= |s|
    ensures s == a + s[|a|..] && s[|a|..] <= b
    ensures s == a + b ==> s[|a|..] == b
  {
    assert a + b == s + (a + b)[|s|..];
    assert a == (a + b)[..|a|];
    assert b == (a + b)[|a|..];
  }

  /** Frames are uniquely decodable: a stream determines the messages it was made from. */
  lemma FramesUnique(a: seq<Message>, b: seq<Message>)
    requires (forall m :: m in a ==> Sendable(m)) && (forall m :: m in b ==> Sendable(m))
    requires Frames(a) == Frames(b)
    ensures a == b
  {
    ParsePrefix(a, Frames(a));
    ParsePrefix(b, Frames(b));
  }
}
