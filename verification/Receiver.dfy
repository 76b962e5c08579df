/** The incremental parser Recv, in connected state, over a socket that yields any part of what is asked for. */
module Receiver {
  import opened Codec
  import opened Buffers
  import opened Wire
  import opened WireLemmas

  /** One answer of read(2): some bytes (none at the end of the stream), would block, or an error. */
  datatype ReadEvent = Chunk(bytes: seq<byte>) | WouldBlock | ReadError

  /** How many more answers a script can give. */
  function Answers(script: seq<ReadEvent>): nat {
    if script == [] then 0
    else Answers(script[1..]) + 1 + if script[0].Chunk? then |script[0].bytes| else 0
  }

  /** What read(2) last said: all that was asked for, less, the end, EAGAIN or another error. */
  datatype ReadAnswer = Full | Short | Closed | Again | Failed

  class ReadSocket {
    var script: seq<ReadEvent>
    ghost var consumed: seq<byte>
    ghost var answer: ReadAnswer

    constructor (script: seq<ReadEvent>)
      ensures this.script == script && consumed == []
    {
      this.script := script;
      consumed, answer := [], Full;
    }

    /** Read at least one byte within the buffer: n < 0 is an error, which `again` tells apart from EAGAIN. */
    method Read(buf: array<byte>, at: nat, nbytes: nat) returns (n: int, again: bool)
      requires 0 < nbytes && at + nbytes <= buf.Length
      modifies this, buf
      ensures -1 <= n <= nbytes
      ensures buf[..at] == old(buf[..at])
      ensures consumed == old(consumed) + if 0 < n then buf[at..at + n] else []
      ensures if old(script) == [] then n < 0 && script == [] else Answers(script) < Answers(old(script))
      ensures answer == if n == nbytes then Full else if 0 < n then Short
                        else if n == 0 then Closed else if again then Again else Failed
    {
      n, again := -1, true;
      if script != [] {
        match script[0] {
          case Chunk(bytes) =>
            n := if |bytes| < nbytes then |bytes| else nbytes;
            forall i | 0 <= i < n {
              buf[at + i] := bytes[i];
            }
            script := if n < |bytes| then [Chunk(bytes[n..])] + script[1..] else script[1..];
            Shorter(old(script), n);
          case WouldBlock =>
            script := script[1..];
          case ReadError =>
            again := false;
            script := script[1..];
        }
      }
      consumed := consumed + if 0 < n then buf[at..at + n] else [];
      answer := if n == nbytes then Full else if 0 < n then Short
                else if n == 0 then Closed else if again then Again else Failed;
    }
  }

  lemma Shorter(script: seq<ReadEvent>, n: nat)
    requires script != [] && script[0].Chunk? && n <= |script[0].bytes|
    ensures 0 < n < |script[0].bytes| ==> Answers([Chunk(script[0].bytes[n..])] + script[1..]) < Answers(script)
    ensures Answers(script[1..]) < Answers(script)
  {
    assert ([Chunk(script[0].bytes[n..])] + script[1..])[1..] == script[1..];
  }

  datatype State = StartToRcvHeader | RcvingHeader | StartToRcvPayload | RcvingPayload

  /** Where Recv stands: in its loop; returned true; returned false because the peer closed, on an error, or on a
      header that does not decode; or stopped by the memory pool's assertion on a zero-length request. */
  datatype RecvOutcome = Going | Interrupted | PeerClosed | Broken | HeaderRefused | Aborted

  /** What the outcome says about the bytes read so far. */
  function StatusOf(out: RecvOutcome): Status {
    if out == HeaderRefused then Refused else if out == Aborted then Abort else More
  }

  /** Recv stops for the reason the socket gave; it stops early only when a message was all that was asked for. */
  predicate AsAnswered(out: RecvOutcome, answer: ReadAnswer, early: bool) {
    && (out == PeerClosed ==> answer == Closed)
    && (out == Broken ==> answer == Failed)
    && (out == Interrupted && !early ==> answer == Again || answer == Short)
  }

  /** The first k bytes of the storage are in use. */
  ghost predicate Filled(b: Buffer, k: nat)
    reads b
  {
    if k == 0 then b.Empty() else b.Window(0, k)
  }

  /** CheckAndInitBufferPos, then MoveTailBack. */
  method Extend(b: Buffer, n: nat, ghost k: nat)
    requires Filled(b, k) && 0 < n && k + n <= b.data.Length
    modifies b
    ensures Filled(b, k + n)
  {
    if b.pos == Null {
      b.SetPos(Off(0));
    }
    b.MoveTailBack(n);
  }

  /** DecodeMsgHeader fills the caller's header as far as it gets. */
  method DecodeMsgHeader(host: Host, b: Buffer, header: Header) returns (rc: bool, h: Header)
    requires b.Window(0, b.data.Length) && b.data.Length == HEADER_SIZE
    ensures Decode(b.data[..]) == if rc then Some(h) else None
    ensures rc <==> b.data[..4] == [0xde, 0xad, 0xbe, 0xef] && Quad(b.data[..], 8) <= 0x400_0000
    ensures rc ==> h == Header(0xdeadbeef, Quad(b.data[..], 4), Quad(b.data[..], 8))
  {
    DecodeLayout(b.data[..]);
    assert b.data[..4] == b.data[..][..4];
    h := header;
    if b.AvailableLength() < HEADER_SIZE {
      return false, h;
    }
    var offset := b.pos.off;
    var magic := ReadUInt32(host, b.data, offset);
    h := h.(magic := magic);
    assert b.data[0..4] == b.data[..][0..4];
    if magic != MESSAGE_MAGIC_NO {
      return false, h;
    }
    var id := ReadUInt32(host, b.data, offset + 4);
    var len := ReadUInt32(host, b.data, offset + 8);
    assert b.data[4..8] == b.data[..][4..8] && b.data[8..12] == b.data[..][8..12];
    h := h.(id := id, len := len);
    rc := h.len <= MAX_MSG_PAYLOAD_SIZE;
  }

  class MessageReceiver {
    const host: Host
    const socket: ReadSocket
    const headerBuffer: Buffer
    var state: State
    var header: Header
    var payloadBuffer: Buffer?
    var delivered: seq<Message>
    /** The bytes read that belong to no delivered message yet. */
    ghost var pending: seq<byte>

    constructor (host: Host, script: seq<ReadEvent>)
      ensures Valid() && this.host == host && delivered == [] && socket.consumed == [] && socket.script == script
    {
      this.host := host;
      socket := new ReadSocket(script);
      headerBuffer := new Buffer(HEADER_SIZE);
      state, header, payloadBuffer, delivered := StartToRcvHeader, Header(0, 0, 0), null, [];
      pending := [];
    }

    /** The pending bytes are where the state says. */
    ghost predicate Placed()
      reads `state, `header, `payloadBuffer, `pending
      reads headerBuffer, headerBuffer.data, payloadBuffer, if payloadBuffer != null then {payloadBuffer.data} else {}
    {
      match state
      case StartToRcvHeader => pending == []
      case RcvingHeader =>
        && 0 < |pending| < HEADER_SIZE
        && headerBuffer.Window(0, |pending|)
        && pending == headerBuffer.data[..|pending|]
      case StartToRcvPayload =>
        Accepted() && pending == HeaderBytes(header)
      case RcvingPayload =>
        && Accepted() && payloadBuffer != null && payloadBuffer.data.Length == header.len
        && HEADER_SIZE < |pending| < HEADER_SIZE + header.len
        && payloadBuffer.Window(0, |pending| - HEADER_SIZE)
        && pending == HeaderBytes(header) + payloadBuffer.data[..|pending| - HEADER_SIZE]
    }

    /** The header is one the receiver lets through. */
    predicate Accepted()
      reads `header
    {
      header.magic == MESSAGE_MAGIC_NO && header.len <= MAX_MSG_PAYLOAD_SIZE
    }

    /** Every byte read is in a delivered message or pending. */
    ghost predicate Accounted()
      reads `delivered, `pending, socket
    {
      && socket.consumed == Frames(delivered) + pending
      && (forall m :: m in delivered ==> Sendable(m))
    }

    ghost predicate Valid()
      reads `state, `header, `payloadBuffer, `pending, `delivered, socket
      reads headerBuffer, headerBuffer.data, payloadBuffer, if payloadBuffer != null then {payloadBuffer.data} else {}
    {
      headerBuffer.data.Length == HEADER_SIZE && Placed() && Accounted()
    }

    /** ProcessAfterRcvHeader, with ParseHeader. */
    method AfterHeader(n: int, again: bool) returns (out: RecvOutcome)
      requires headerBuffer.data.Length == HEADER_SIZE && n <= HEADER_SIZE - |pending|
      requires state == (if pending == [] then StartToRcvHeader else RcvingHeader)
      requires |pending| < HEADER_SIZE && Filled(headerBuffer, |pending|) && pending == headerBuffer.data[..|pending|]
      requires forall m :: m in delivered ==> Sendable(m)
      requires socket.consumed
               == Frames(delivered) + pending + if 0 < n then headerBuffer.data[|pending|..|pending| + n] else []
      modifies `state, `header, `pending, headerBuffer
      ensures Accounted()
      ensures if out == HeaderRefused then |pending| == HEADER_SIZE && Decode(pending) == None else Placed()
      ensures n < 0 ==> out == if again then Interrupted else Broken
      ensures n == 0 ==> out == PeerClosed
      ensures 0 < n ==>
                if n < HEADER_SIZE - old(|pending|) then out == Interrupted else out == Going || out == HeaderRefused
      ensures out == Going <==> state == StartToRcvPayload
    {
      out := Going;
      if n == 0 {
        out := PeerClosed;
      } else if 0 < n {
        ghost var k := |pending|;
        Extend(headerBuffer, n, k);
        Joined(Frames(delivered), headerBuffer.data[..], k, k + n);
        pending := headerBuffer.data[..k + n];
        if headerBuffer.AvailableLength() == headerBuffer.TotalLength() {
          assert pending == headerBuffer.data[..];
          var rc, h := DecodeMsgHeader(host, headerBuffer, header);
          header := h;
          if !rc {
            out := HeaderRefused;
          } else {
            EncodeDecoded(pending);
            state := StartToRcvPayload;
          }
        } else {
          out := Interrupted;
          state := RcvingHeader;
        }
      } else {
        out := if again then Interrupted else Broken;
      }
    }

    /** The cases StartToRcvHeader and RcvingHeader of Recv. */
    method RecvHeader() returns (out: RecvOutcome)
      requires Valid() && (state == StartToRcvHeader || state == RcvingHeader)
      modifies `state, `header, `pending, socket, headerBuffer, headerBuffer.data
      ensures headerBuffer.data.Length == HEADER_SIZE && Accounted()
      ensures if out == HeaderRefused then |pending| == HEADER_SIZE && Decode(pending) == None else Placed()
      ensures out != Aborted && AsAnswered(out, socket.answer, false)
      ensures out == Going <==> state == StartToRcvPayload
      ensures Spent(out)
    {
      var n, again;
      if state == StartToRcvHeader {
        headerBuffer.BZero();
        n, again := socket.Read(headerBuffer.data, 0, headerBuffer.TotalLength());
      } else {
        var pos := if headerBuffer.last.Off? then headerBuffer.last.off + 1 else 0;
        n, again := socket.Read(headerBuffer.data, pos, headerBuffer.UnusedSize());
      }
      out := AfterHeader(n, again);
    }

    /** CheckPayload on a full payload: the message is handed over. */
    method Deliver()
      requires Accepted() && Accounted() && payloadBuffer != null && 0 < header.len
      requires payloadBuffer.data.Length == header.len && pending == HeaderBytes(header) + payloadBuffer.data[..]
      modifies `state, `payloadBuffer, `delivered, `pending
      ensures Placed() && Accounted() && state == StartToRcvHeader && payloadBuffer == null
      ensures |delivered| == |old(delivered)| + 1 && old(delivered) <= delivered
    {
      var m := Message(header.id, payloadBuffer.data[..]);
      assert HeaderOf(m) == header;
      DeliverOne(delivered, m);
      state := StartToRcvHeader;
      delivered := delivered + [m];
      payloadBuffer, pending := null, [];
    }

    /** ProcessAfterRcvPayload, with CheckPayload; k bytes of the payload are there already. */
    method AfterPayload(n: int, again: bool, breakWhenRecvOne: bool, ghost k: nat) returns (out: RecvOutcome)
      requires Accepted() && payloadBuffer != null && payloadBuffer.data.Length == header.len
      requires k < header.len && n <= header.len - k && Filled(payloadBuffer, k)
      requires state == (if k == 0 then StartToRcvPayload else RcvingPayload)
      requires pending == HeaderBytes(header) + payloadBuffer.data[..k]
      requires forall m :: m in delivered ==> Sendable(m)
      requires socket.consumed == Frames(delivered) + pending + if 0 < n then payloadBuffer.data[k..k + n] else []
      modifies `state, `payloadBuffer, `pending, `delivered, payloadBuffer
      ensures Placed() && Accounted()
      ensures n < 0 ==> out == if again then Interrupted else Broken
      ensures n == 0 ==> out == PeerClosed
      ensures 0 < n ==>
                if n < header.len - k then out == Interrupted
                else out == if breakWhenRecvOne then Interrupted else Going
      ensures out == Interrupted && 0 < n == header.len - k ==> delivered != old(delivered)
      ensures Handed(breakWhenRecvOne) && (payloadBuffer == null || payloadBuffer == old(payloadBuffer))
    {
      out := Going;
      if n == 0 {
        out := PeerClosed;
      } else if 0 < n {
        Extend(payloadBuffer, n, k);
        JoinedBehind(Frames(delivered), HeaderBytes(header), payloadBuffer.data[..], k, k + n);
        pending := HeaderBytes(header) + payloadBuffer.data[..k + n];
        if Truncated(payloadBuffer.AvailableLength()) == header.len {
          if breakWhenRecvOne {
            out := Interrupted;
          }
          assert payloadBuffer.data[..k + n] == payloadBuffer.data[..];
          Deliver();
        } else {
          state := RcvingPayload;
          out := Interrupted;
        }
      } else {
        out := if again then Interrupted else Broken;
      }
    }

    /** Every turn that asks the socket uses up some of its answers. */
    twostate predicate Spent(out: RecvOutcome)
      reads socket
    {
      old(socket.consumed) <= socket.consumed &&
      if old(socket.script) == [] then out != Going && socket.script == []
      else
        || Answers(socket.script) < old(Answers(socket.script))
        || (out == Aborted && socket.script == old(socket.script))
    }

    twostate predicate PayloadKept()
      reads `payloadBuffer
    {
      || payloadBuffer == null || payloadBuffer == old(payloadBuffer)
      || (fresh(payloadBuffer) && fresh(payloadBuffer.data))
    }

    /** About to ask the memory pool for nothing, which its assertion forbids. */
    predicate AtZero()
      reads `state, `header
    {
      state == StartToRcvPayload && header.len == 0
    }

    /** Messages are only ever added, and one at most when the caller asked for one. */
    twostate predicate Handed(breakWhenRecvOne: bool)
      reads `delivered
    {
      old(delivered) <= delivered && (breakWhenRecvOne ==> |delivered| <= |old(delivered)| + 1)
    }

    /** The cases StartToRcvPayload and RcvingPayload of Recv. */
    method RecvPayload(breakWhenRecvOne: bool) returns (out: RecvOutcome)
      requires Valid() && (state == StartToRcvPayload || state == RcvingPayload)
      modifies `state, `payloadBuffer, `pending, `delivered, socket
      modifies payloadBuffer, if payloadBuffer != null then {payloadBuffer.data} else {}
      ensures Valid() && PayloadKept()
      ensures out == Aborted <==> AtZero()
      ensures out != HeaderRefused && AsAnswered(out, socket.answer, breakWhenRecvOne && delivered != old(delivered))
      ensures Spent(out)
      ensures out == Going ==> !breakWhenRecvOne
      ensures Handed(breakWhenRecvOne)
    {
      var n, again;
      ghost var k := |pending| - HEADER_SIZE;
      if state == StartToRcvPayload {
        if header.len == 0 {
          return Aborted;
        }
        payloadBuffer := new Buffer(header.len);
        n, again := socket.Read(payloadBuffer.data, 0, payloadBuffer.TotalLength());
      } else {
        var pos := if payloadBuffer.last.Off? then payloadBuffer.last.off + 1 else 0;
        n, again := socket.Read(payloadBuffer.data, pos, payloadBuffer.UnusedSize());
      }
      out := AfterPayload(n, again, breakWhenRecvOne, k);
    }

    /** One turn of the loop in Recv. */
    method Turn(breakWhenRecvOne: bool) returns (out: RecvOutcome)
      requires Valid()
      modifies this, socket, headerBuffer, headerBuffer.data
      modifies payloadBuffer, if payloadBuffer != null then {payloadBuffer.data} else {}
      ensures headerBuffer.data.Length == HEADER_SIZE && Accounted() && PayloadKept()
      ensures if out == HeaderRefused then |pending| == HEADER_SIZE && Decode(pending) == None else Placed()
      ensures out != Going ==> (out == Aborted <==> AtZero())
      ensures AsAnswered(out, socket.answer, breakWhenRecvOne && delivered != old(delivered))
      ensures Spent(out)
      ensures Handed(breakWhenRecvOne) && (out == Going && breakWhenRecvOne ==> delivered == old(delivered))
    {
      match state {
        case StartToRcvHeader => out := RecvHeader();
        case RcvingHeader => out := RecvHeader();
        case StartToRcvPayload => out := RecvPayload(breakWhenRecvOne);
        case RcvingPayload => out := RecvPayload(breakWhenRecvOne);
      }
    }

    /** Recv. Whatever the pieces in which the bytes came, the messages delivered since the connection was made and
        the bytes kept are those of the one-shot parser on all bytes read. */
    method Recv(breakWhenRecvOne: bool) returns (out: RecvOutcome)
      requires Valid()
      modifies this, socket, headerBuffer, headerBuffer.data
      modifies payloadBuffer, if payloadBuffer != null then {payloadBuffer.data} else {}
      ensures out != Going && (out != HeaderRefused ==> Valid()) && PayloadKept()
      ensures Parse(socket.consumed) == Parsed(delivered, pending, StatusOf(out))
      ensures AsAnswered(out, socket.answer, breakWhenRecvOne && delivered != old(delivered))
      ensures Spent(out)
      ensures Handed(breakWhenRecvOne)
    {
      out := Going;
      while out == Going
        invariant headerBuffer.data.Length == HEADER_SIZE && Accounted() && PayloadKept()
        invariant if out == HeaderRefused then |pending| == HEADER_SIZE && Decode(pending) == None else Placed()
        invariant out != Going ==> (out == Aborted <==> AtZero())
        invariant AsAnswered(out, socket.answer, breakWhenRecvOne && delivered != old(delivered))
        invariant || Spent(out)
                  || (out == Going && socket.script == old(socket.script) && socket.consumed == old(socket.consumed)
                      && delivered == old(delivered))
        invariant Handed(breakWhenRecvOne) && (out == Going && breakWhenRecvOne ==> delivered == old(delivered))
        decreases out == Going, Answers(socket.script)
      {
        out := Turn(breakWhenRecvOne);
      }
      PendingParse(out);
      ParseFrames(delivered, pending);
    }

    /** The pending bytes hold no whole message, and show why Recv stopped. */
    lemma PendingParse(out: RecvOutcome)
      requires if out == HeaderRefused then |pending| == HEADER_SIZE && Decode(pending) == None else Placed()
      requires out != Going && (out == Aborted <==> AtZero())
      ensures Prepend(delivered, Parse(pending)) == Parsed(delivered, pending, StatusOf(out))
    {
      assert delivered + [] == delivered;
      if out == HeaderRefused {
        assert pending[..HEADER_SIZE] == pending;
        ParseStep(pending, BadHeader);
      } else if HEADER_SIZE <= |pending| {
        DecodeEncoded(header);
        assert pending[..HEADER_SIZE] == HeaderBytes(header);
        ParseStep(pending, if AtZero() then Zero else Incomplete);
      } else {
        ParseStep(pending, Incomplete);
      }
    }
  }

  lemma Joined(f: seq<byte>, s: seq<byte>, k: nat, l: nat)
    requires k <= l <= |s|
    ensures f + s[..k] + s[k..l] == f + s[..l]
  {
    assert s[..k] + s[k..l] == s[..l];
    Associative(f, s[..k], s[k..l]);
  }

  lemma JoinedBehind(f: seq<byte>, h: seq<byte>, s: seq<byte>, k: nat, l: nat)
    requires k <= l <= |s|
    ensures f + (h + s[..k]) + s[k..l] == f + (h + s[..l])
  {
    Joined(h, s, k, l);
    Associative(f, h + s[..k], s[k..l]);
  }

  lemma DeliverOne(ms: seq<Message>, m: Message)
    ensures Frames(ms + [m]) + [] == Frames(ms) + Frame(m)
  {
    FramesAppend(ms, [m]);
    FramesOne(m);
  }
}
