/** One direction of a connection from queue to delivery, over every run of the two ends. */
module Pipeline {
  import opened Codec
  import opened Wire
  import opened WireLemmas
  import S = Sender
  import R = Receiver

  /** Everything queued, written, lost by a failing Send and left to send; and everything read, delivered and kept. */
  datatype Link = Link(queued: seq<Message>, written: seq<byte>, lost: seq<byte>, backlog: seq<byte>, sendUp: bool,
                       consumed: seq<byte>, delivered: seq<Message>, pending: seq<byte>, status: Status, recvUp: bool)

  const Start: Link := Link([], [], [], [], true, [], [], [], More, true)

  datatype Event = Enqueue(m: Message) | SendCall | RecvCall

  /** Push, or a message queued on a connection that is already down. */
  ghost predicate Enqueues(l: Link, l': Link, m: Message) {
    l' == l.(queued := l.queued + [m], backlog := l.backlog + Frame(m))
  }

  /** One call of Send; after one that returned false there is no other. */
  ghost predicate Sends(l: Link, l': Link) {
    && l.sendUp
    && l' == l.(written := l'.written, lost := l'.lost, backlog := l'.backlog, sendUp := l'.sendUp)
    && l.written + l.backlog == l'.written + l'.lost + l'.backlog
    && l.written <= l'.written
    && (l'.sendUp ==> l'.lost == [])
  }

  /** One call of Recv on a reliable stream: what is read is what was written, as far as it has come. */
  ghost predicate Receives(l: Link, l': Link) {
    && l.recvUp
    && l' == l.(consumed := l'.consumed, delivered := l'.delivered, pending := l'.pending, status := l'.status,
                recvUp := l'.recvUp)
    && l.consumed <= l'.consumed <= l.written
    && Parse(l'.consumed) == Parsed(l'.delivered, l'.pending, l'.status)
    && l.delivered <= l'.delivered
    && (l'.recvUp ==> l'.status == More)
  }

  ghost predicate Step(l: Link, e: Event, l': Link) {
    match e
    case Enqueue(m) => Sendable(m) && Enqueues(l, l', m)
    case SendCall => Sends(l, l')
    case RecvCall => Receives(l, l')
  }

  ghost predicate IsRun(ls: seq<Link>, es: seq<Event>) {
    && |ls| == |es| + 1 && ls[0] == Start
    && forall i :: 0 <= i < |es| ==> Step(ls[i], es[i], ls[i + 1])
  }

  /** Every byte of every queued frame is written, lost with the connection, or still to be sent, in order; and the
      bytes read are a prefix of those written, cut as the one-shot parser cuts them. */
  ghost predicate Inv(l: Link) {
    && (forall m :: m in l.queued ==> Sendable(m))
    && l.written + l.lost + l.backlog == Frames(l.queued)
    && (l.sendUp ==> l.lost == [])
    && l.consumed <= l.written
    && Parse(l.consumed) == Parsed(l.delivered, l.pending, l.status)
  }

  lemma StepKeeps(l: Link, e: Event, l': Link)
    requires Inv(l) && Step(l, e, l')
    ensures Inv(l')
  {
    match e
    case Enqueue(m) =>
      FramesAppend(l.queued, [m]);
      FramesOne(m);
      Associative(l.written + l.lost, l.backlog, Frame(m));
    case SendCall =>
      assert l.written + l.lost + l.backlog == l.written + l.backlog;
    case RecvCall =>
  }

  lemma {:induction false} RunKeeps(ls: seq<Link>, es: seq<Event>)
    requires IsRun(ls, es)
    ensures Inv(ls[|es|])
  {
    if es == [] {
      ParseStep([], Incomplete);
    } else {
      var n := |es| - 1;
      RunKeeps(ls[..|es|], es[..n]);
      StepKeeps(ls[n], es[n], ls[|es|]);
    }
  }

  /** Main result: at every point of every run the messages delivered are a prefix, in order and byte for byte, of
      the messages queued; the receiver has refused nothing; and once all bytes have crossed it is all of them. */
  lemma DeliveredIsPrefix(ls: seq<Link>, es: seq<Event>)
    requires IsRun(ls, es)
    ensures var l := ls[|es|];
      && l.delivered <= l.queued
      && l.status == More
      && (l.consumed == Frames(l.queued) <==> l.delivered == l.queued)
      && (l.sendUp && l.backlog == [] && l.consumed == l.written ==> l.delivered == l.queued && l.pending == [])
  {
    var l := ls[|es|];
    RunKeeps(ls, es);
    assert l.consumed <= Frames(l.queued) by {
      Associative(l.written, l.lost, l.backlog);
    }
    ParsePrefix(l.queued, l.consumed);
    ParseConserves(l.consumed);
    if l.delivered == l.queued {
      assert l.consumed == Frames(l.queued) + l.pending;
      assert |l.pending| == 0;
    }
    if l.sendUp && l.backlog == [] {
      assert l.written + l.lost + l.backlog == l.written;
    }
  }

  // The two classes take these steps.

  ghost predicate SenderAs(s: S.MessageSender, l: Link)
    reads s, s.socket, s.sendingBuffer, if s.sendingBuffer != null then {s.sendingBuffer.data} else {}
  {
    s.Valid() && s.socket.written == l.written && s.Backlog() == l.backlog
  }

  ghost predicate ReceiverAs(r: R.MessageReceiver, l: Link)
    reads r, r.socket, r.headerBuffer, r.headerBuffer.data
    reads r.payloadBuffer, if r.payloadBuffer != null then {r.payloadBuffer.data} else {}
  {
    r.Valid() && r.socket.consumed == l.consumed && r.delivered == l.delivered && r.pending == l.pending
  }

  /** MessageSender.Push is an Enqueue. */
  method PushStep(s: S.MessageSender, m: Message, ghost l: Link) returns (ghost l': Link)
    requires SenderAs(s, l)
    modifies s`messages
    ensures SenderAs(s, l') && Enqueues(l, l', m)
  {
    FramesAppend(s.messages, [m]);
    FramesOne(m);
    Associative(s.unsent, Frames(s.messages), Frame(m));
    s.Push(m);
    l' := l.(queued := l.queued + [m], backlog := l.backlog + Frame(m));
  }

  /** MessageSender.Send is a SendCall. */
  method SendStep(s: S.MessageSender, ghost l: Link) returns (out: S.SendOutcome, ghost l': Link)
    requires SenderAs(s, l) && l.sendUp
    modifies s`messages, s`sendingBuffer, s`unsent, s.socket, if s.sendingBuffer != null then {s.sendingBuffer} else {}
    ensures SenderAs(s, l') && Sends(l, l') && l'.sendUp == S.Succeeded(out)
  {
    ghost var dropped;
    out, dropped := s.Send();
    l' := l.(written := s.socket.written, lost := dropped, backlog := s.Backlog(), sendUp := S.Succeeded(out));
  }

  /** MessageReceiver.Recv is a RecvCall, when the socket hands out what was written. */
  method RecvStep(r: R.MessageReceiver, ghost l: Link) returns (out: R.RecvOutcome, ghost l': Link)
    requires ReceiverAs(r, l) && l.recvUp
    modifies r, r.socket, r.headerBuffer, r.headerBuffer.data
    modifies r.payloadBuffer, if r.payloadBuffer != null then {r.payloadBuffer.data} else {}
    ensures r.socket.consumed <= l.written ==> Receives(l, l')
    ensures out == R.Interrupted ==> ReceiverAs(r, l') && l'.recvUp
  {
    out := r.Recv(false);
    l' := l.(consumed := r.socket.consumed, delivered := r.delivered, pending := r.pending, status := R.StatusOf(out),
             recvUp := out == R.Interrupted);
  }
}
