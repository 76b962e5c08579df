/** SndMessage::Encode and the Send loop over a socket that takes any part of what it is offered. */
module Sender {
  import opened Codec
  import opened Buffers
  import opened Wire
  import opened WireLemmas

  /** One answer of write(2): some bytes taken, would block, or an error. */
  datatype WriteEvent = Takes(n: nat) | WouldBlock | WriteError

  /** What write(2) last said. */
  datatype WriteAnswer = Took | Closed | Again | Failed

  class WriteSocket {
    var script: seq<WriteEvent>
    ghost var written: seq<byte>
    ghost var answer: WriteAnswer

    constructor (script: seq<WriteEvent>)
      ensures this.script == script && written == []
    {
      this.script := script;
      written, answer := [], Took;
    }

    /** Write: n < 0 is an error, which `again` tells apart from EAGAIN. A script that ran out would block. */
    method Write(buf: array<byte>, at: nat, nbytes: nat) returns (n: int, again: bool)
      requires 0 < nbytes && at + nbytes <= buf.Length
      modifies this
      ensures -1 <= n <= nbytes
      ensures written == old(written) + if 0 < n then buf[at..at + n] else []
      ensures 0 <= n ==> |script| < |old(script)|
      ensures n < 0 ==> |script| <= |old(script)|
      ensures answer == if 0 < n then Took else if n == 0 then Closed else if again then Again else Failed
    {
      n, again := -1, true;
      if script != [] {
        match script[0] {
          case Takes(k) => n := if k < nbytes then k else nbytes;
          case WouldBlock =>
          case WriteError => again := false;
        }
        script := script[1..];
      }
      written := written + if 0 < n then buf[at..at + n] else [];
      answer := if 0 < n then Took else if n == 0 then Closed else if again then Again else Failed;
    }
  }

  /** Where Send stands: in its loop; returned true with nothing left or because the socket would block; returned
      false because the peer closed or on an error; or left by the exception Encode throws. */
  datatype SendOutcome = Going | Idle | Blocked | PeerClosed | Broken | Threw

  /** Send returned true. */
  predicate Succeeded(out: SendOutcome) {
    out == Idle || out == Blocked
  }

  /** Send stops for the reason the socket gave. */
  predicate AsAnswered(out: SendOutcome, answer: WriteAnswer) {
    && (out == Blocked ==> answer == Again)
    && (out == PeerClosed ==> answer == Closed)
    && (out == Broken ==> answer == Failed)
  }

  /** Write the header where the buffer's head is, moving the head along. */
  method EncodeHeader(host: Host, b: Buffer, h: Header)
    requires b.Window(0, b.data.Length) && HEADER_SIZE < b.data.Length
    modifies b, b.data
    ensures b.Window(HEADER_SIZE, b.data.Length)
    ensures b.data[..HEADER_SIZE] == HeaderBytes(h)
    ensures Quad(b.data[..], 0) == h.magic && Quad(b.data[..], 4) == h.id && Quad(b.data[..], 8) == h.len
  {
    WriteUInt32(host, b.data, b.pos.off, h.magic);
    b.MoveHeadBack(4);
    assert b.data[..4] == Bytes(h.magic, 4);
    WriteUInt32(host, b.data, b.pos.off, h.id);
    b.MoveHeadBack(4);
    assert b.data[..8] == Bytes(h.magic, 4) + Bytes(h.id, 4);
    WriteUInt32(host, b.data, b.pos.off, h.len);
    b.MoveHeadBack(4);
    assert b.data[..12] == Bytes(h.magic, 4) + Bytes(h.id, 4) + Bytes(h.len, 4);
    HeaderWords(b.data[..], h);
  }

  /** The three words at the front of a buffer that begins with the header. */
  lemma HeaderWords(s: seq<byte>, h: Header)
    requires HEADER_SIZE <= |s| && s[..HEADER_SIZE] == HeaderBytes(h)
    ensures Quad(s, 0) == h.magic && Quad(s, 4) == h.id && Quad(s, 8) == h.len
  {
    HeaderLayout(h);
    SameQuad(s, HeaderBytes(h), 0);
    SameQuad(s, HeaderBytes(h), 4);
    SameQuad(s, HeaderBytes(h), 8);
  }

  lemma FrameInBuffer(s: seq<byte>, m: Message)
    requires s == Frame(m) && 1 <= |m.payload| <= 0x400_0000
    ensures |s| == 12 + |m.payload| && s[..4] == [0xde, 0xad, 0xbe, 0xef] && s[12..] == m.payload
    ensures Quad(s, 4) == m.id && Quad(s, 8) == |m.payload|
  {
    FrameLayout(m);
  }

  /** Encode. Null stands for the exception on an empty or oversized payload. */
  method Encode(host: Host, m: Message) returns (buf: Buffer?)
    ensures buf == null <==> !(1 <= |m.payload| <= 0x400_0000)
    ensures buf != null ==> buf.data.Length == 12 + |m.payload| && buf.data[..4] == [0xde, 0xad, 0xbe, 0xef]
    ensures buf != null ==> Quad(buf.data[..], 4) == m.id && Quad(buf.data[..], 8) == |m.payload|
    ensures buf != null ==> buf.data[12..] == m.payload
    ensures buf != null ==> fresh(buf) && fresh(buf.data) && buf.Window(0, buf.data.Length) && buf.data[..] == Frame(m)
  {
    hide Quad, HeaderBytes;
    buf := null;
    var deriveBufferSize := |m.payload|;
    if deriveBufferSize <= 0 {
      return;
    }
    if deriveBufferSize > MAX_MSG_PAYLOAD_SIZE {
      return;
    }
    var totalBufferSize := HEADER_SIZE + deriveBufferSize;
    var b := new Buffer.Available(totalBufferSize);
    EncodeHeader(host, b, Header(MESSAGE_MAGIC_NO, m.id, deriveBufferSize));
    EncodeDerive(b, m.payload);
    b.SetPos(Off(0));
    assert b.data[..] == b.data[..HEADER_SIZE] + b.data[HEADER_SIZE..];
    FrameInBuffer(b.data[..], m);
    assert b.data[..4] == b.data[..][..4] && b.data[12..] == b.data[..][12..];
    buf := b;
  }

  /** EncodeDerive of the message class: the payload goes behind the header. */
  method EncodeDerive(b: Buffer, payload: seq<byte>)
    requires b.Window(HEADER_SIZE, HEADER_SIZE + |payload|) && b.data.Length == HEADER_SIZE + |payload|
    modifies b.data
    ensures b.data[HEADER_SIZE..] == payload && b.data[..HEADER_SIZE] == old(b.data[..HEADER_SIZE])
  {
    for i := 0 to |payload|
      invariant b.data[HEADER_SIZE..HEADER_SIZE + i] == payload[..i]
      invariant b.data[..HEADER_SIZE] == old(b.data[..HEADER_SIZE])
    {
      b.data[HEADER_SIZE + i] := payload[i];
    }
  }

  class MessageSender {
    const host: Host
    const socket: WriteSocket
    var messages: seq<Message>
    var sendingBuffer: Buffer?
    ghost var unsent: seq<byte>

    constructor (host: Host, socket: WriteSocket)
      ensures this.host == host && this.socket == socket && messages == [] && sendingBuffer == null && Valid()
    {
      this.host, this.socket := host, socket;
      messages, sendingBuffer, unsent := [], null, [];
    }

    /** The buffer being sent holds at most one frame and always has something left: the unsent bytes. */
    ghost predicate Valid()
      reads this, sendingBuffer, if sendingBuffer != null then {sendingBuffer.data} else {}
    {
      if sendingBuffer == null then unsent == []
      else
        && sendingBuffer.data.Length <= HEADER_SIZE + MAX_MSG_PAYLOAD_SIZE
        && sendingBuffer.pos.Off? && 0 <= sendingBuffer.pos.off
        && sendingBuffer.Window(sendingBuffer.pos.off, sendingBuffer.data.Length)
        && unsent == sendingBuffer.data[sendingBuffer.pos.off..]
    }

    /** Everything still to be written: the rest of the current frame, then the frames of the queue. */
    ghost function Backlog(): seq<byte>
      reads `unsent, `messages
    {
      unsent + Frames(messages)
    }

    /** SendMessage and InsertMessage on the unbounded queue. */
    method Push(m: Message)
      modifies `messages
      ensures messages == old(messages) + [m]
    {
      messages := messages + [m];
    }

    /** The fields that say what Send has in hand, apart from the socket: null, as before, or fresh. */
    twostate predicate BufferKept()
      reads this
    {
      sendingBuffer == null || sendingBuffer == old(sendingBuffer) || fresh(sendingBuffer)
    }

    /** The socket took n bytes: move the head on, and give the buffer back when nothing is left. */
    method Advance(n: nat)
      requires Valid() && sendingBuffer != null && 0 < n <= |unsent|
      modifies `sendingBuffer, `unsent, sendingBuffer
      ensures Valid() && (sendingBuffer == null || sendingBuffer == old(sendingBuffer))
      ensures unsent == old(unsent)[n..]
    {
      sendingBuffer.MoveHeadBack(Truncated(n));
      unsent := unsent[n..];
      if sendingBuffer.AvailableLength() <= 0 {
        sendingBuffer := null;
      }
    }

    /** Put_Send_Buffer when the connection is over: the rest of the frame is lost. */
    method PutSendBuffer() returns (ghost dropped: seq<byte>)
      modifies `sendingBuffer, `unsent
      ensures Valid() && sendingBuffer == null && unsent == [] && dropped == old(unsent)
    {
      dropped := unsent;
      sendingBuffer, unsent := null, [];
    }

    /** Offer the current frame to the socket once. */
    method WriteOnce() returns (out: SendOutcome, ghost dropped: seq<byte>)
      requires Valid() && sendingBuffer != null
      modifies `sendingBuffer, `unsent, socket, sendingBuffer
      ensures Valid() && BufferKept()
      ensures out != Idle && out != Threw
      ensures out == Going ==> |socket.script| < |old(socket.script)|
      ensures old(socket.written) <= socket.written
      ensures old(socket.written) + old(unsent) == socket.written + dropped + unsent
      ensures out == Going || out == Blocked ==> dropped == []
      ensures AsAnswered(out, socket.answer)
    {
      out, dropped := Going, [];
      ghost var all := unsent;
      var n, again := socket.Write(sendingBuffer.data, sendingBuffer.pos.off, sendingBuffer.AvailableLength());
      TakenSplits(old(socket.written), all, n, socket.written);
      if n == 0 {
        dropped := PutSendBuffer();
        out := PeerClosed;
      } else if 0 < n {
        Advance(n);
      } else {
        out := Blocked;
        if !again {
          dropped := PutSendBuffer();
          out := Broken;
        }
      }
    }

    /** Pop the next message and encode it. */
    method TakeNext() returns (out: SendOutcome, ghost dropped: seq<byte>)
      requires Valid() && sendingBuffer == null
      modifies `messages, `sendingBuffer, `unsent
      ensures Valid() && (sendingBuffer == null || fresh(sendingBuffer))
      ensures out == Going || out == Idle || out == Threw
      ensures out == Going ==> |messages| < |old(messages)|
      ensures forall m :: m in messages ==> m in old(messages)
      ensures out == Idle ==> Backlog() == []
      ensures old(Backlog()) == dropped + Backlog()
      ensures out != Threw ==> dropped == []
      ensures out == Threw ==> exists m :: m in old(messages) && !Sendable(m) && dropped == Frame(m)
    {
      dropped := [];
      if messages == [] {
        out := Idle;
      } else {
        var sm := messages[0];
        messages := messages[1..];
        sendingBuffer := Encode(host, sm);
        out := Going;
        unsent := if sendingBuffer == null then [] else Frame(sm);
        if sendingBuffer == null {
          out, dropped := Threw, Frame(sm);
        }
      }
    }

    /** A failing call loses the frame in hand, and an exception the frame of the message it rejects. */
    twostate predicate Lost(out: SendOutcome, dropped: seq<byte>)
      reads this
    {
      && (out == Going || Succeeded(out) ==> dropped == [])
      && (out == Threw ==> exists m :: m in old(messages) && !Sendable(m) && dropped == Frame(m))
    }

    /** One turn of the loop in Send. */
    method Turn() returns (out: SendOutcome, ghost dropped: seq<byte>)
      requires Valid()
      modifies `messages, `sendingBuffer, `unsent, socket, if sendingBuffer != null then {sendingBuffer} else {}
      ensures Valid() && BufferKept()
      ensures old(socket.written) <= socket.written
      ensures old(socket.written) + old(Backlog()) == socket.written + dropped + Backlog()
      ensures Lost(out, dropped)
      ensures out == Idle ==> Backlog() == []
      ensures AsAnswered(out, socket.answer)
      ensures forall m :: m in messages ==> m in old(messages)
      ensures out == Going ==> |socket.script| + |messages| < old(|socket.script| + |messages|)
    {
      ghost var w, u, f := socket.written, unsent, Frames(messages);
      if sendingBuffer != null {
        out, dropped := WriteOnce();
        Regroup(w, u, f, socket.written, dropped, unsent);
      } else {
        out, dropped := TakeNext();
        Associative(w, dropped, Backlog());
      }
    }

    /** Send. No byte is duplicated, reordered or lost, but for the frame in hand when the call fails. */
    method Send() returns (out: SendOutcome, ghost dropped: seq<byte>)
      requires Valid()
      modifies `messages, `sendingBuffer, `unsent, socket, if sendingBuffer != null then {sendingBuffer} else {}
      ensures Valid() && BufferKept()
      ensures out != Going
      ensures old(socket.written) <= socket.written
      ensures old(socket.written) + old(Backlog()) == socket.written + dropped + Backlog()
      ensures Lost(out, dropped)
      ensures out == Idle ==> Backlog() == []
      ensures AsAnswered(out, socket.answer)
    {
      out, dropped := Going, [];
      while out == Going
        invariant Valid() && BufferKept()
        invariant forall m :: m in messages ==> m in old(messages)
        invariant Lost(out, dropped) && AsAnswered(out, socket.answer)
        invariant out == Idle ==> Backlog() == []
        invariant old(socket.written) <= socket.written
        invariant old(socket.written) + old(Backlog()) == socket.written + dropped + Backlog()
        decreases out == Going, |socket.script| + |messages|
      {
        out, dropped := Turn();
      }
    }
  }

  lemma TakenSplits(w: seq<byte>, all: seq<byte>, n: int, w': seq<byte>)
    requires n <= |all| && w' == w + if 0 < n then all[..n] else []
    ensures if 0 < n then w + all == w' + [] + all[n..] else w + all == w' + all + [] == w' + [] + all
  {
    if 0 < n { assert all == all[..n] + all[n..]; }
  }

  lemma Regroup(w: seq<byte>, u: seq<byte>, f: seq<byte>, w': seq<byte>, d: seq<byte>, u': seq<byte>)
    requires w + u == w' + d + u'
    ensures w + (u + f) == w' + d + (u' + f)
  {
    assert w + (u + f) == (w + u) + f;
    assert w' + d + (u' + f) == (w' + d + u') + f;
  }
}
