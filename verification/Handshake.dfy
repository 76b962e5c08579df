/** The logic-connect handshake: how each role reacts to a message, and the nested Recv and handshake calls of one
    end. */
module Handshake {
  import opened Codec
  import opened Wire

  /** A frame carries at least one byte. */
  type Payload = s: seq<byte> | s != [] witness [0]

  const OK: uint16 := 0
  const ERROR: uint16 := 1

  datatype ConnectionState = Connecting | ConnectSe | ConnectingRe | WaitLastACK | Connected

  /** uint16_t to the int16_t of the request message's constructor, and back when it is encoded. */
  function ToInt16(p: uint16): int {
    if p < 0x8000 then p else p - 0x1_0000
  }

  function ToUInt16(i: int): uint16 {
    i % 0x1_0000
  }

  /** ConnectRequestMessage: the logic port. */
  function Request(port: uint16): Payload {
    Bytes(ToUInt16(ToInt16(port)), 2)
  }

  /** ConnectResponseMessage: the status, then a text. */
  function Response(status: uint16, what: seq<byte>): Payload {
    Bytes(status, 2) + what
  }

  /** ReadUInt16 at the start of a payload; behind a payload of one byte lies some other byte. */
  function FirstTwo(p: Payload, stray: byte): uint16 {
    ReadThenWrite([p[0], if 1 < |p| then p[1] else stray]); Ranges();
    Value([p[0], if 1 < |p| then p[1] else stray])
  }

  /** All 65536 ports survive the two casts and the wire, and fill exactly the two bytes the server insists on. */
  lemma PortRoundTrip(port: uint16, stray: byte)
    ensures |Request(port)| == 2 && FirstTwo(Request(port), stray) == port
  {
    assert ToUInt16(ToInt16(port)) == port;
    TwoBytes(port, [], stray);
  }

  // The bytes on the wire.

  lemma RequestBytes(port: uint16)
    ensures Pair(Request(port), 0) == port && |Request(port)| == 2
  {
    PortRoundTrip(port, 0);
    FirstTwoBytes(Request(port), 0);
  }

  lemma ResponseBytes(what: seq<byte>)
    ensures Response(OK, what) == [0, 0] + what && Response(ERROR, what) == [0, 1] + what
  {
    SmallWord(0);
    SmallWord(1);
  }

  lemma SmallWord(n: byte)
    ensures Bytes(n, 2) == [0, n]
  {
    assert Shift8(n, 0) == n && Shift8(n, 1) == 0;
  }

  lemma FirstTwoBytes(p: Payload, stray: byte)
    ensures 2 <= |p| ==> FirstTwo(p, stray) == Pair(p, 0)
  {
    if 2 <= |p| {
      assert p[0..2] == [p[0], p[1]];
      PairOf(p, 0);
    }
  }

  lemma StatusRoundTrip(status: uint16, what: seq<byte>, stray: byte)
    ensures FirstTwo(Response(status, what), stray) == status
  {
    TwoBytes(status, what, stray);
  }

  lemma TwoBytes(n: uint16, what: seq<byte>, stray: byte)
    ensures var p := Bytes(n, 2) + what; FirstTwo(p, stray) == n
  {
    var p := Bytes(n, 2) + what;
    assert [p[0], p[1]] == Bytes(n, 2);
    Ranges();
    WriteThenRead(n, 2);
  }

  /** What m_onLogicConnect answered, if it was asked. */
  datatype Verdict = Unasked | Agreed | Declined

  function Answered(accept: bool): Verdict {
    if accept then Agreed else Declined
  }

  /** One end: its state, whether the completed flag is set, the port it recorded for its peer, and the verdict. */
  datatype End = End(conn: ConnectionState, completed: bool, peerPort: Option<uint16>, verdict: Verdict)

  const Fresh: End := End(Connecting, false, None, Unasked)

  /** What the surroundings decide while a message is handled. */
  datatype Choice = Choice(sendOk: bool, accept: bool, stray: byte)

  /** The end after a message, what it handed to Send, and whether it calls Recv again. */
  datatype Reaction = Reaction(end: End, sent: seq<Payload>, again: bool)

  /** The text sent on a message in an unexpected state, byte by byte. */
  function Ascii(s: string): (r: seq<byte>)
    ensures |r| == |s|
  {
    seq(|s|, i requires 0 <= i < |s| => (s[i] as int) % 256)
  }

  /** handshake, up to the nested call of Recv. */
  function React(e: End, p: Payload, c: Choice): Reaction {
    match e.conn
    case ConnectSe =>
      if FirstTwo(p, c.stray) != OK then Reaction(e.(completed := true), [], false)
      else if c.sendOk then Reaction(e.(conn := WaitLastACK), [Response(OK, [])], true)
      else Reaction(e.(completed := true), [Response(OK, [])], false)
    case WaitLastACK =>
      if FirstTwo(p, c.stray) != OK then Reaction(e.(completed := true), [], false)
      else if c.accept then Reaction(e.(conn := Connected, completed := true, verdict := Agreed), [], false)
      else Reaction(e.(completed := true, verdict := Declined), [], false)
    case Connecting =>
      if |p| != 2 then Reaction(e.(completed := true), [Response(ERROR, [])], false)
      else
        var e' := e.(peerPort := Some(FirstTwo(p, c.stray)));
        if c.sendOk then Reaction(e'.(conn := ConnectingRe), [Response(OK, [])], true)
        else Reaction(e'.(completed := true), [Response(OK, [])], false)
    case ConnectingRe =>
      var e' := e.(verdict := Answered(c.accept), completed := true);
      Reaction(if c.accept && c.sendOk then e'.(conn := Connected) else e',
               [Response(if c.accept then OK else ERROR, [])], false)
    case Connected =>
      Reaction(e.(completed := true), [Response(ERROR, Ascii("handshake recv unexpected state."))], false)
  }

  /** What one Recv(true) meets: a whole message, an error or the end of the stream, or only a part of a message. */
  datatype Input = Arrives(p: Payload, c: Choice) | Fails | Partial

  /** How often handshake can still call Recv. */
  function Rank(s: ConnectionState): nat {
    match s
    case Connecting => 2
    case ConnectSe => 2
    case ConnectingRe => 1
    case WaitLastACK => 1
    case Connected => 0
  }

  datatype Received = Received(end: End, rc: bool, rest: seq<Input>, sent: seq<Payload>)

  /** Recv(true) with the handshake it runs; a stream without further input has failed. */
  function Receive(e: End, inputs: seq<Input>): Received
    decreases Rank(e.conn)
  {
    if inputs == [] then Received(e, false, [], [])
    else if inputs[0] == Fails then Received(e, false, inputs[1..], [])
    else if inputs[0] == Partial || e.conn == Connected then Received(e, true, inputs[1..], [])
    else
      var r := React(e, inputs[0].p, inputs[0].c);
      if !r.again then Received(r.end, true, inputs[1..], r.sent)
      else
        var n := Receive(r.end, inputs[1..]);
        Received(if n.rc then n.end else n.end.(completed := true), true, n.rest, r.sent + n.sent)
  }

  /** The inputs a call of Receive used up. */
  function Used(e: End, inputs: seq<Input>): (used: seq<Input>)
    ensures used + Receive(e, inputs).rest == inputs
  {
    RestIsSuffix(e, inputs);
    inputs[..|inputs| - |Receive(e, inputs).rest|]
  }

  lemma {:induction false} RestIsSuffix(e: End, inputs: seq<Input>)
    ensures var rest := Receive(e, inputs).rest;
      |rest| <= |inputs| && rest == inputs[|inputs| - |rest|..] && (inputs != [] ==> |rest| < |inputs|)
    decreases Rank(e.conn)
  {
    hide FirstTwo, Response;
    if inputs != [] && inputs[0].Arrives? && e.conn != Connected {
      var r := React(e, inputs[0].p, inputs[0].c);
      if r.again { RestIsSuffix(r.end, inputs[1..]); }
    }
  }

  /** The nested calls end either with a failed first read or with the completed flag set, unless one of the reads
      stopped inside a message. */
  lemma {:induction false} Completes(e: End, inputs: seq<Input>)
    requires e.conn != Connected && !e.completed
    ensures var r := Receive(e, inputs);
      && (!r.rc <==> inputs == [] || inputs[0] == Fails)
      && (!r.rc ==> r.end == e)
      && (r.rc ==> (r.end.completed <==> Partial !in Used(e, inputs)))
      && (r.end.conn == Connected ==> r.rc && r.end.completed)
    decreases Rank(e.conn)
  {
    RestIsSuffix(e, inputs);
    if inputs != [] && inputs[0].Arrives? {
      var r := React(e, inputs[0].p, inputs[0].c);
      if r.again {
        Completes(r.end, inputs[1..]);
        assert Used(e, inputs) == [inputs[0]] + Used(r.end, inputs[1..]);
      } else {
        assert Used(e, inputs) == [inputs[0]];
      }
    } else if inputs != [] {
      assert Used(e, inputs) == [inputs[0]];
    }
  }

  /** Initialize returns, or waits for a flag nobody will set. */
  datatype Outcome = Returned(ok: bool) | WaitsForever

  /** Initialize of the client or the server. */
  function Initialized(client: bool, sendOk: bool, inputs: seq<Input>): (End, Outcome) {
    if client && !sendOk then (Fresh, Returned(false))
    else
      var r := Receive(if client then Fresh.(conn := ConnectSe) else Fresh, inputs);
      (r.end,
       if !r.rc then Returned(false)
       else if !r.end.completed then WaitsForever
       else Returned(r.end.conn == Connected))
  }

  /** Main result on completion: Initialize waits forever exactly when a read it needed came back with part of a
      message, and it returns true exactly when the state is Connected. */
  lemma InitializeCompletes(client: bool, sendOk: bool, inputs: seq<Input>)
    ensures var start := if client then Fresh.(conn := ConnectSe) else Fresh;
      var r := Initialized(client, sendOk, inputs);
      && (r.1 == WaitsForever <==> (client ==> sendOk) && Partial in Used(start, inputs))
      && (Partial !in inputs ==> r.1.Returned?)
      && (r.1 == Returned(true) <==> r.0.conn == Connected)
  {
    var start := if client then Fresh.(conn := ConnectSe) else Fresh;
    Completes(start, inputs);
    assert forall x :: x in Used(start, inputs) ==> x in inputs by {
      assert Used(start, inputs) + Receive(start, inputs).rest == inputs;
    }
    if inputs != [] && inputs[0] == Fails {
      assert Used(start, inputs) == [Fails];
    }
  }

  /** When the client succeeds: both answers say OK, its own send succeeds, and m_onLogicConnect agrees. */
  lemma ClientSucceedsIff(sendOk: bool, inputs: seq<Input>)
    ensures Initialized(true, sendOk, inputs).1 == Returned(true) <==>
      && sendOk && 2 <= |inputs| && inputs[0].Arrives? && inputs[1].Arrives?
      && FirstTwo(inputs[0].p, inputs[0].c.stray) == OK && inputs[0].c.sendOk
      && FirstTwo(inputs[1].p, inputs[1].c.stray) == OK && inputs[1].c.accept
  {
  }

  /** When the server succeeds: a request of two bytes, any acknowledgement, agreement, and both sends succeed. */
  lemma ServerSucceedsIff(sendOk: bool, inputs: seq<Input>)
    ensures Initialized(false, sendOk, inputs).1 == Returned(true) <==>
      && 2 <= |inputs| && inputs[0].Arrives? && inputs[1].Arrives?
      && |inputs[0].p| == 2 && inputs[0].c.sendOk
      && inputs[1].c.accept && inputs[1].c.sendOk
  {
  }

  /** What the client answers: OK once, to a response that says OK. */
  lemma ClientSends(inputs: seq<Input>)
    ensures Receive(Fresh.(conn := ConnectSe), inputs).sent ==
      if inputs != [] && inputs[0].Arrives? && FirstTwo(inputs[0].p, inputs[0].c.stray) == 0 then [[0, 0]] else []
  {
    ResponseBytes([]);
    assert [0, 0] + [] == [0, 0];
  }

  /** What the server answers: OK to a request of two bytes, else ERROR; and to what comes next, if its first answer
      was sent, its verdict. */
  lemma ServerSends(inputs: seq<Input>)
    ensures Receive(Fresh, inputs).sent ==
      if inputs == [] || !inputs[0].Arrives? then []
      else if |inputs[0].p| != 2 then [[0, 1]]
      else if !inputs[0].c.sendOk || |inputs| == 1 || !inputs[1].Arrives? then [[0, 0]]
      else [[0, 0], if inputs[1].c.accept then [0, 0] else [0, 1]]
  {
    ResponseBytes([]);
    assert [0, 0] + [] == [0, 0] && [0, 1] + [] == [0, 1];
  }

  /** When an end fails although m_onLogicConnect took its handler: only at a server whose last send fails. Its caller
      deletes the handler, which is still registered with the manager. */
  lemma FailsRegisteredIff(client: bool, sendOk: bool, inputs: seq<Input>)
    ensures var r := Initialized(client, sendOk, inputs);
      && (r.0.verdict == Agreed && r.1 != Returned(true) <==>
            && !client && 2 <= |inputs| && inputs[0].Arrives? && inputs[1].Arrives?
            && |inputs[0].p| == 2 && inputs[0].c.sendOk
            && inputs[1].c.accept && !inputs[1].c.sendOk)
      && (r.0.verdict == Agreed ==> r.1.Returned?)
      && (r.1 == Returned(true) ==> r.0.verdict == Agreed)
  {
  }

  /** The messages of one end, as calls that nest: PosixTcpNetStackWorker while it shakes hands. */
  class Worker {
    const client: bool
    const logicPort: uint16
    var conn: ConnectionState
    var completed: bool
    var peerPort: Option<uint16>
    var verdict: Verdict
    var inputs: seq<Input>
    ghost var sent: seq<Payload>

    constructor (client: bool, logicPort: uint16, inputs: seq<Input>)
      ensures this.client == client && this.logicPort == logicPort && this.inputs == inputs
      ensures View() == Fresh && sent == []
    {
      this.client, this.logicPort, this.inputs := client, logicPort, inputs;
      conn, completed, peerPort, verdict := Connecting, false, None, Unasked;
      sent := [];
    }

    function View(): End
      reads `conn, `completed, `peerPort, `verdict
    {
      End(conn, completed, peerPort, verdict)
    }

    /** InsertMessage and Send; the surroundings decide whether they succeed. */
    method Transmit(p: Payload, sendOk: bool) returns (ok: bool)
      modifies `sent
      ensures ok == sendOk && sent == old(sent) + [p]
    {
      sent := sent + [p];
      ok := sendOk;
    }

    method OnLogicConnect(accept: bool) returns (ok: bool)
      modifies `verdict
      ensures ok == accept && verdict == Answered(accept)
    {
      verdict := Answered(accept);
      ok := accept;
    }

    /** Recv(true). */
    method Recv() returns (rc: bool)
      modifies this
      ensures var r := Receive(old(View()), old(inputs));
        View() == r.end && rc == r.rc && inputs == r.rest && sent == old(sent) + r.sent
      decreases Rank(conn), 1
    {
      if inputs == [] {
        return false;
      }
      var input := inputs[0];
      inputs := inputs[1..];
      match input {
        case Fails => rc := false;
        case Partial => rc := true;
        case Arrives(p, c) =>
          rc := true;
          if conn != Connected {
            Handshake(p, c);
          }
      }
    }

    /** The tail that ConnectSe and Connecting share: answer OK, advance and read on. */
    method AnswerAndRead(next: ConnectionState, sendOk: bool)
      modifies this
      ensures var n := Receive(old(View()).(conn := next), old(inputs));
        if sendOk then
          View() == (if n.rc then n.end else n.end.(completed := true)) && inputs == n.rest
          && sent == old(sent) + ([Response(OK, [])] + n.sent)
        else
          View() == old(View()).(completed := true) && inputs == old(inputs) && sent == old(sent) + [Response(OK, [])]
      decreases Rank(next), 2
    {
      var ok := Transmit(Response(OK, []), sendOk);
      if !ok {
        completed := true;
      } else {
        conn := next;
        var rc := Recv();
        if !rc {
          completed := true;
        }
      }
    }

    method Handshake(p: Payload, c: Choice)
      requires conn != Connected
      modifies this
      ensures var r := Receive(old(View()), [Arrives(p, c)] + old(inputs));
        View() == r.end && r.rc && inputs == r.rest && sent == old(sent) + r.sent
      decreases Rank(conn), 0
    {
      ghost var e, all := View(), [Arrives(p, c)] + inputs;
      assert all[1..] == inputs;
      match conn {
        case ConnectSe =>
          if FirstTwo(p, c.stray) != OK {
            completed := true;
          } else {
            AnswerAndRead(WaitLastACK, c.sendOk);
          }
        case WaitLastACK =>
          if FirstTwo(p, c.stray) == OK {
            var accept := OnLogicConnect(c.accept);
            if accept {
              conn := Connected;
            }
          }
          completed := true;
        case Connecting =>
          if |p| != 2 {
            var _ := Transmit(Response(ERROR, []), c.sendOk);
            completed := true;
          } else {
            peerPort := Some(FirstTwo(p, c.stray));
            AnswerAndRead(ConnectingRe, c.sendOk);
          }
        case ConnectingRe =>
          var accept := OnLogicConnect(c.accept);
          var ok := Transmit(Response(if accept then OK else ERROR, []), c.sendOk);
          if accept && ok {
            conn := Connected;
          }
          completed := true;
      }
    }

    method Initialize(sendOk: bool) returns (out: Outcome)
      requires View() == Fresh && sent == []
      modifies this
      ensures (View(), out) == Initialized(client, sendOk, old(inputs))
      ensures client ==>
                sent == [Request(logicPort)]
                        + if sendOk then Receive(Fresh.(conn := ConnectSe), old(inputs)).sent else []
      ensures !client ==> sent == Receive(Fresh, old(inputs)).sent
    {
      conn := Connecting;
      if client {
        var ok := Transmit(Request(logicPort), sendOk);
        if !ok {
          return Returned(false);
        }
        conn := ConnectSe;
      }
      var rc := Recv();
      if !rc {
        return Returned(false);
      }
      if !completed {
        return WaitsForever;
      }
      out := Returned(conn == Connected);
    }
  }
}
