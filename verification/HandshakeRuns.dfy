/** A client and a server shaking hands over two first-in first-out channels, failures included. */
module HandshakeRuns {
  import opened Codec
  import opened Wire
  import opened Handshake

  /** One direction: what entered it, and how much of that its reader took. */
  datatype Channel = Channel(sent: seq<Payload>, got: nat)

  /** One end of the connection; `reading` while a Recv of its handshake waits for a message. */
  datatype Party = Party(end: End, reading: bool)

  /** `answering` while the server's m_onLogicConnect has decided and the answer is not sent yet. */
  datatype World = World(port: uint16, started: bool, client: Party, server: Party, answering: bool,
                         toServer: Channel, toClient: Channel)

  /** The client has not called Initialize; the server waits for the request. */
  function Start(port: uint16): World {
    World(port, false, Party(Fresh, false), Party(Fresh, true), false, Channel([], 0), Channel([], 0))
  }

  /** A failed Send may still have got its message through: `slips`. */
  datatype Event =
    | ClientStarts(sendOk: bool, slips: bool)
    | ClientReads(c: Choice, slips: bool)
    | ClientReadFails
    | ServerReads(c: Choice, slips: bool)
    | ServerAnswers(sendOk: bool, slips: bool)
    | ServerReadFails
    | ClientPosts(p: Payload)
    | ServerPosts(p: Payload)

  function Put(ch: Channel, ps: seq<Payload>, through: bool): Channel {
    if through then ch.(sent := ch.sent + ps) else ch
  }

  function Take(ch: Channel): Channel {
    ch.(got := ch.got + 1)
  }

  /** A failed read ends the handshake; a nested one sets the flag. */
  function Stop(p: Party): Party {
    Party(p.end.(completed := p.end.conn == WaitLastACK || p.end.conn == ConnectingRe || p.end.completed), false)
  }

  /** The first half of the server's last step: m_onLogicConnect decides. */
  function Decided(e: End, accept: bool): End {
    e.(verdict := Answered(accept))
  }

  /** The second half: the answer is sent. */
  function Answer(e: End, sendOk: bool): Reaction {
    var agreed := e.verdict == Agreed;
    Reaction(e.(conn := if agreed && sendOk then Connected else e.conn, completed := true),
             [Response(if agreed then OK else ERROR, [])], false)
  }

  /** With nothing in between, the two halves are the whole step. */
  lemma DecideThenAnswer(e: End, p: Payload, c: Choice)
    requires e.conn == ConnectingRe
    ensures React(e, p, c) == Answer(Decided(e, c.accept), c.sendOk)
  {
  }

  predicate Enabled(w: World, e: Event) {
    match e
    case ClientStarts(_, _) => !w.started
    case ClientReads(_, _) => w.client.reading && w.toClient.got < |w.toClient.sent|
    case ClientReadFails => w.client.reading
    case ServerReads(_, _) => w.server.reading && w.toServer.got < |w.toServer.sent|
    case ServerAnswers(_, _) => w.answering
    case ServerReadFails => w.server.reading
    // Once m_onLogicConnect has agreed, the handler is found by other threads, which may queue messages at once.
    case ClientPosts(_) => w.client.end.verdict == Agreed
    case ServerPosts(_) => w.server.end.verdict == Agreed
  }

  function Next(w: World, e: Event): World
    requires Enabled(w, e)
  {
    match e
    case ClientStarts(sendOk, slips) =>
      w.(started := true,
         client := if sendOk then Party(w.client.end.(conn := ConnectSe), true) else w.client,
         toServer := Put(w.toServer, [Request(w.port)], sendOk || slips))
    case ClientReads(c, slips) =>
      var r := React(w.client.end, w.toClient.sent[w.toClient.got], c);
      w.(client := Party(r.end, r.again), toClient := Take(w.toClient),
         toServer := Put(w.toServer, r.sent, c.sendOk || slips))
    case ClientReadFails => w.(client := Stop(w.client))
    case ServerReads(c, slips) =>
      if w.server.end.conn == ConnectingRe
      then w.(server := Party(Decided(w.server.end, c.accept), false), answering := true, toServer := Take(w.toServer))
      else
      var r := React(w.server.end, w.toServer.sent[w.toServer.got], c);
      w.(server := Party(r.end, r.again), toServer := Take(w.toServer),
         toClient := Put(w.toClient, r.sent, c.sendOk || slips))
    case ServerAnswers(sendOk, slips) =>
      var r := Answer(w.server.end, sendOk);
      w.(server := Party(r.end, false), answering := false, toClient := Put(w.toClient, r.sent, sendOk || slips))
    case ServerReadFails => w.(server := Stop(w.server))
    case ClientPosts(p) => w.(toServer := Put(w.toServer, [p], true))
    case ServerPosts(p) => w.(toClient := Put(w.toClient, [p], true))
  }

  ghost predicate IsRun(ws: seq<World>, es: seq<Event>) {
    && |ws| == |es| + 1 && ws[0] == Start(ws[0].port)
    && forall i :: 0 <= i < |es| ==> Enabled(ws[i], es[i]) && ws[i + 1] == Next(ws[i], es[i])
  }

  /** What the server has put into its channel: nothing before the request, one answer to it, and anything but a
      refusal only after m_onLogicConnect agreed. Its last answer may come behind messages of the application. */
  predicate ServerInv(w: World) {
    var s, sent := w.server.end, w.toClient.sent;
    && (s.conn in {Connecting, ConnectingRe, Connected})
    && (w.server.reading ==> s.verdict == Unasked && (s.conn == Connecting || s.conn == ConnectingRe))
    && (w.server.reading && s.conn == Connecting ==> sent == [] && w.toServer.got == 0)
    && (s.verdict == Unasked ==> |sent| <= 1)
    && (w.answering ==> s.conn == ConnectingRe && s.verdict != Unasked)
    && (w.answering && s.verdict == Declined ==> |sent| <= 1)
    && (s.verdict == Declined ==> |sent| <= 2 && (|sent| == 2 ==> sent[1] == Response(ERROR, [])))
    && (s.conn == Connected ==> s.verdict == Agreed)
    && (s.conn == ConnectingRe || s.verdict != Unasked ==> s.peerPort.Some?)
    && (s.peerPort.Some? ==> s.peerPort == Some(w.port))
  }

  /** What the client has read and sent. */
  predicate ClientInv(w: World) {
    var c, sent := w.client.end, w.toServer.sent;
    && (c.conn in {Connecting, ConnectSe, WaitLastACK, Connected})
    && w.toClient.got <= |w.toClient.sent| && w.toServer.got <= |sent|
    && (!w.started ==> w.client == Party(Fresh, false) && sent == [] && w.toClient.got == 0)
    && (sent != [] ==> sent[0] == Request(w.port))
    && (w.client.reading ==> c.verdict == Unasked && (c.conn == ConnectSe || c.conn == WaitLastACK) && sent != [])
    && (c.conn == Connecting ==> c.verdict == Unasked)
    && (w.client.reading && c.conn == ConnectSe ==> w.toClient.got == 0)
    && (w.client.reading && c.conn == WaitLastACK ==> w.toClient.got == 1)
    && (c.verdict != Unasked ==> c.conn == Connected || c.verdict == Declined)
    && (c.conn == Connected ==> c.verdict == Agreed && w.server.end.verdict == Agreed && sent != [])
  }

  predicate Inv(w: World) {
    ServerInv(w) && ClientInv(w)
  }

  lemma ClientReadsKeeps(w: World, c: Choice, slips: bool)
    requires Inv(w) && Enabled(w, ClientReads(c, slips))
    ensures Inv(Next(w, ClientReads(c, slips)))
  {
    StatusRoundTrip(ERROR, [], c.stray);
  }

  lemma ServerReadsKeeps(w: World, c: Choice, slips: bool)
    requires Inv(w) && Enabled(w, ServerReads(c, slips))
    ensures Inv(Next(w, ServerReads(c, slips)))
  {
    PortRoundTrip(w.port, c.stray);
  }

  lemma StepKeeps(w: World, e: Event)
    requires Inv(w) && Enabled(w, e)
    ensures Inv(Next(w, e))
  {
    match e
    case ClientReads(c, slips) => ClientReadsKeeps(w, c, slips);
    case ServerReads(c, slips) => ServerReadsKeeps(w, c, slips);
    case _ =>
  }

  lemma {:induction false} RunKeeps(ws: seq<World>, es: seq<Event>)
    requires IsRun(ws, es)
    ensures Inv(ws[|es|]) && ws[|es|].port == ws[0].port
  {
    if es != [] {
      var n := |es| - 1;
      RunKeeps(ws[..|es|], es[..n]);
      StepKeeps(ws[n], es[n]);
    }
  }

  /** Main result on agreement: in every run, failures included, a connected client means that the server's
      m_onLogicConnect agreed and that the server recorded the client's own logic port; and no server ever records
      another port or connects without having agreed. */
  lemma Agreement(ws: seq<World>, es: seq<Event>)
    requires IsRun(ws, es)
    ensures var w := ws[|es|];
      && (w.client.end.conn == Connected ==>
            && w.client.end.verdict == Agreed && w.server.end.verdict == Agreed
            && w.server.end.peerPort == Some(ws[0].port))
      && (w.server.end.peerPort.Some? ==> w.server.end.peerPort == Some(ws[0].port))
      && (w.server.end.conn == Connected ==> w.server.end.verdict == Agreed && w.server.end.peerPort.Some?)
  {
    RunKeeps(ws, es);
  }

  /** One edge of a role's path. */
  predicate Edge(client: bool, a: ConnectionState, b: ConnectionState) {
    if client then (a, b) in {(Connecting, ConnectSe), (ConnectSe, WaitLastACK), (WaitLastACK, Connected)}
    else (a, b) in {(Connecting, ConnectingRe), (ConnectingRe, Connected)}
  }

  /** States only advance, one edge at a time, and verdicts and ports are never taken back. */
  lemma PathsOnly(ws: seq<World>, es: seq<Event>)
    requires IsRun(ws, es) && es != []
    ensures var w, w' := ws[|es| - 1], ws[|es|];
      && (w'.client.end.conn == w.client.end.conn || Edge(true, w.client.end.conn, w'.client.end.conn))
      && (w'.server.end.conn == w.server.end.conn || Edge(false, w.server.end.conn, w'.server.end.conn))
      && (w.server.end.peerPort.Some? ==> w'.server.end.peerPort == w.server.end.peerPort)
      && (w.client.end.verdict != Unasked ==> w'.client.end.verdict == w.client.end.verdict)
      && (w.server.end.verdict != Unasked ==> w'.server.end.verdict == w.server.end.verdict)
  {
    RunKeeps(ws[..|es|], es[..|es| - 1]);
    RunKeeps(ws, es);
  }

  /** Agreement is one-way: the server can be connected although the client's own m_onLogicConnect declined. */
  lemma ServerAlone(port: uint16) returns (ws: seq<World>, es: seq<Event>)
    ensures IsRun(ws, es) && ws[0].port == port
    ensures ws[|es|].server.end.conn == Connected && ws[|es|].client.end.completed
            && ws[|es|].client.end.conn == WaitLastACK
  {
    var yes, no := Choice(true, true, 0), Choice(true, false, 0);
    PortRoundTrip(port, 0);
    StatusRoundTrip(OK, [], 0);
    var w0 := Start(port);
    var w1 := Next(w0, ClientStarts(true, false));
    var w2 := Next(w1, ServerReads(yes, false));
    var w3 := Next(w2, ClientReads(yes, false));
    var w4 := Next(w3, ServerReads(yes, false));
    var w5 := Next(w4, ServerAnswers(true, false));
    var w6 := Next(w5, ClientReads(no, false));
    ws := [w0, w1, w2, w3, w4, w5, w6];
    es := [ClientStarts(true, false), ServerReads(yes, false), ClientReads(yes, false), ServerReads(yes, false),
           ServerAnswers(true, false), ClientReads(no, false)];
  }

  /** An application message queued between the server's verdict and its answer overtakes the answer: the client takes
      its first two bytes for the status, and connects exactly if they read OK. */
  lemma PostOvertakes(port: uint16, p: Payload, stray: byte) returns (ws: seq<World>, es: seq<Event>)
    ensures IsRun(ws, es) && ws[0].port == port
    ensures ws[|es|].server.end.conn == Connected && ws[|es|].client.end.completed
    ensures ws[|es|].toClient.sent == [Response(OK, []), p, Response(OK, [])]
    ensures ws[|es|].client.end.conn == Connected <==> FirstTwo(p, stray) == OK
  {
    var yes := Choice(true, true, stray);
    PortRoundTrip(port, stray);
    StatusRoundTrip(OK, [], stray);
    var w0 := Start(port);
    var w1 := Next(w0, ClientStarts(true, false));
    var w2 := Next(w1, ServerReads(yes, false));
    var w3 := Next(w2, ClientReads(yes, false));
    var w4 := Next(w3, ServerReads(yes, false));
    var w5 := Next(w4, ServerPosts(p));
    var w6 := Next(w5, ServerAnswers(true, false));
    var w7 := Next(w6, ClientReads(yes, false));
    ws := [w0, w1, w2, w3, w4, w5, w6, w7];
    es := [ClientStarts(true, false), ServerReads(yes, false), ClientReads(yes, false), ServerReads(yes, false),
           ServerPosts(p), ServerAnswers(true, false), ClientReads(yes, false)];
  }
}
