/** Which connection serves a logic peer: UniqueWorkerManager, and the service that registers and releases handlers. */
module WorkerManager {
  import opened Wire

  datatype Protocol = NoProtocol | Tcp | Udp

  datatype Peer = Peer(addr: string, port: nat, sp: Protocol)

  /** A handler as the manager sees it: its address, and the peers of its socket descriptor. */
  datatype Handler = Handler(address: nat, logicPeer: Peer, realPeer: Peer)

  /** m_hmap_workers, m_hmap_rp_lp and m_hmap_handler_rp. */
  datatype Maps = Maps(workers: map<Peer, Handler>, rpLp: map<Peer, Peer>, handlerRp: map<nat, Peer>)

  const NoHandlers: Maps := Maps(map[], map[], map[])

  predicate Registered(m: Maps, h: Handler) {
    h.logicPeer in m.workers && m.workers[h.logicPeer] == h
  }

  /** Logic peers and real peers of the registered handlers are in bijection, and every handler's real peer is on
      file. */
  predicate Bijective(m: Maps) {
    && (forall l <- m.workers :: OnFile(m, l))
    && (forall r <- m.rpLp :: m.rpLp[r] in m.workers && m.workers[m.rpLp[r]].realPeer == r)
  }

  predicate OnFile(m: Maps, l: Peer)
    requires l in m.workers
  {
    var h := m.workers[l];
    && h.logicPeer == l
    && h.realPeer in m.rpLp && m.rpLp[h.realPeer] == l
    && h.address in m.handlerRp && m.handlerRp[h.address] == h.realPeer
  }

  /** PutWorkerEventHandler. */
  function Put(m: Maps, h: Handler): (Maps, bool) {
    if h.logicPeer in m.workers then (m, false)
    else (Maps(m.workers[h.logicPeer := h], m.rpLp[h.realPeer := h.logicPeer], m.handlerRp[h.address := h.realPeer]),
          true)
  }

  /** RemoveWorkerEventHandler(logicNpt, realNpt), which leaves m_hmap_handler_rp as it is. */
  function RemoveBoth(m: Maps, logic: Peer, realPeer: Peer): (Maps, Option<Handler>) {
    if realPeer !in m.rpLp then (m, None)
    else
      var m' := m.(rpLp := m.rpLp - {realPeer});
      if logic in m.workers then (m'.(workers := m.workers - {logic}), Some(m.workers[logic])) else (m', None)
  }

  /** RemoveWorkerEventHandler(logicNpt); an address that is not on file reads as the default peer. */
  function Remove(m: Maps, logic: Peer): (Maps, Option<Handler>) {
    if logic !in m.workers then (m, None)
    else
      var h := m.workers[logic];
      var realPeer := if h.address in m.handlerRp then m.handlerRp[h.address] else Peer("", 0, NoProtocol);
      (Maps(m.workers - {logic}, m.rpLp - {realPeer}, m.handlerRp - {h.address}), Some(h))
  }

  class UniqueWorkerManager {
    var workers: map<Peer, Handler>
    var rpLp: map<Peer, Peer>
    var handlerRp: map<nat, Peer>

    constructor ()
      ensures View() == NoHandlers
    {
      workers, rpLp, handlerRp := map[], map[], map[];
    }

    function View(): Maps
      reads this
    {
      Maps(workers, rpLp, handlerRp)
    }

    method LookupWorker(logic: Peer) returns (h: Option<Handler>)
      ensures h == if logic in workers then Some(workers[logic]) else None
    {
      h := None;
      if logic in workers {
        h := Some(workers[logic]);
      }
    }

    method PutWorkerEventHandler(h: Handler) returns (res: bool)
      modifies this
      ensures (View(), res) == Put(old(View()), h)
    {
      var handler := LookupWorker(h.logicPeer);
      if handler.Some? {
        res := false;
      } else {
        workers := workers[h.logicPeer := h];
        rpLp := rpLp[h.realPeer := h.logicPeer];
        handlerRp := handlerRp[h.address := h.realPeer];
        res := true;
      }
    }

    method RemoveByPeers(logic: Peer, realPeer: Peer) returns (h: Option<Handler>)
      modifies this
      ensures (View(), h) == RemoveBoth(old(View()), logic, realPeer)
    {
      if realPeer !in rpLp {
        return None;
      }
      rpLp := rpLp - {realPeer};
      h := LookupWorker(logic);
      if h.Some? {
        workers := workers - {logic};
      }
    }

    method RemoveByLogic(logic: Peer) returns (h: Option<Handler>)
      modifies this
      ensures (View(), h) == Remove(old(View()), logic)
    {
      h := LookupWorker(logic);
      if h.Some? {
        workers := workers - {logic};
        var realPeer := if h.value.address in handlerRp then handlerRp[h.value.address] else Peer("", 0, NoProtocol);
        handlerRp := handlerRp - {h.value.address};
        rpLp := rpLp - {realPeer};
      }
    }
  }

  /** NBSocketService, as far as handlers enter and leave the manager; `released` logs the calls of Release. */
  class NBSocketService {
    const manager: UniqueWorkerManager
    var stopped: bool
    var released: seq<Handler>

    constructor ()
      ensures fresh(manager) && manager.View() == NoHandlers && !stopped && released == []
    {
      manager := new UniqueWorkerManager();
      stopped, released := false, [];
    }

    method OnLogicConnect(h: Handler) returns (res: bool)
      modifies manager
      ensures (manager.View(), res) == if stopped then (old(manager.View()), false) else Put(old(manager.View()), h)
    {
      if stopped {
        return false;
      }
      res := manager.PutWorkerEventHandler(h);
    }

    method Disconnect(peer: Peer) returns (res: bool)
      modifies manager, `released
      ensures res == (peer.sp == Tcp && !stopped)
      ensures var (m, h) := if res then Remove(old(manager.View()), peer) else (old(manager.View()), None);
        manager.View() == m && released == old(released) + if h.Some? then [h.value] else []
    {
      if peer.sp != Tcp {
        return false;
      }
      if stopped {
        return false;
      }
      var handler := manager.RemoveByLogic(peer);
      if handler.None? {
        return true;
      }
      released := released + [handler.value];
      return true;
    }

    /** The handler that came out of the maps only tells that there was one: what is released is the one finishing. */
    method OnFinish(h: Handler)
      modifies manager, `released
      ensures var (m, g) := if stopped then (old(manager.View()), None)
                            else RemoveBoth(old(manager.View()), h.logicPeer, h.realPeer);
        manager.View() == m && released == old(released) + if g.Some? then [h] else []
    {
      if stopped {
        return;
      }
      var handler := manager.RemoveByPeers(h.logicPeer, h.realPeer);
      if handler.None? {
        return;
      }
      released := released + [h];
    }

    method Stop()
      modifies `stopped
      ensures stopped
    {
      stopped := true;
    }
  }

  // What single operations keep, and exactly when.

  /** No other registered handler has this handler's real peer. */
  predicate RealApart(m: Maps, h: Handler) {
    forall l <- m.workers :: m.workers[l] != h ==> m.workers[l].realPeer != h.realPeer
  }

  /** Nor its address: it is a live object of its own. */
  predicate Apart(m: Maps, h: Handler) {
    RealApart(m, h) && forall l <- m.workers :: m.workers[l] != h ==> m.workers[l].address != h.address
  }

  /** A successful put keeps the bijection exactly for a handler apart from the registered ones; a rejected put
      changes nothing, so the earliest one wins. */
  lemma PutKeepsIff(m: Maps, h: Handler)
    requires Bijective(m)
    ensures Bijective(Put(m, h).0) <==> h.logicPeer in m.workers || Apart(m, h)
    ensures Put(m, h).1 <==> h.logicPeer !in m.workers
    ensures if Put(m, h).1 then Registered(Put(m, h).0, h) else Put(m, h).0 == m
  {
    if h.logicPeer !in m.workers {
      var m' := Put(m, h).0;
      assert forall l <- m.workers :: m'.workers[l] == m.workers[l];
      if Apart(m, h) {
        forall r <- m'.rpLp
          ensures m'.rpLp[r] in m'.workers && m'.workers[m'.rpLp[r]].realPeer == r
        {
        }
      } else {
        var l :| l in m.workers && m.workers[l] != h
          && (m.workers[l].realPeer == h.realPeer || m.workers[l].address == h.address);
        assert l != h.logicPeer && m'.workers[l] == m.workers[l];
        assert !OnFile(m', l);
      }
    }
  }

  /** A successful put registers its handler beside those that were. */
  lemma PutAdds(m: Maps, h: Handler)
    requires h.logicPeer !in m.workers
    ensures forall g: Handler :: Registered(Put(m, h).0, g) <==> Registered(m, g) || g == h
  {
  }

  /** The handlers other than h are registered as before, and the maps agree. */
  ghost predicate OthersSafe(m: Maps, m': Maps, h: Handler) {
    Bijective(m') && forall g: Handler :: g != h ==> (Registered(m', g) <==> Registered(m, g))
  }

  /** on_finish leaves the other connections alone exactly when none of them has the finished handler's real peer;
      then it takes out and returns that handler, if it is registered at all. */
  lemma FinishSafeIff(m: Maps, h: Handler)
    requires Bijective(m)
    ensures var r := RemoveBoth(m, h.logicPeer, h.realPeer);
      && (OthersSafe(m, r.0, h) <==> RealApart(m, h))
      && r.0.handlerRp == m.handlerRp
      && (RealApart(m, h) ==> r.1 == (if Registered(m, h) then Some(h) else None) && !Registered(r.0, h))
  {
    var r := RemoveBoth(m, h.logicPeer, h.realPeer);
    if RealApart(m, h) {
      if h.realPeer in m.rpLp {
        assert m.workers[m.rpLp[h.realPeer]] == h;
      } else if h.logicPeer in m.workers {
        assert OnFile(m, h.logicPeer);
      }
    } else {
      var l :| l in m.workers && m.workers[l] != h && m.workers[l].realPeer == h.realPeer;
      assert OnFile(m, l);
      var g := m.workers[l];
      assert Registered(m, g) && g.realPeer !in r.0.rpLp;
      assert Registered(r.0, g) ==> !OnFile(r.0, l);
    }
  }

  /** Disconnect always takes out the one handler of that logic peer and no other. */
  lemma DisconnectSafe(m: Maps, logic: Peer)
    requires Bijective(m)
    ensures var r := Remove(m, logic);
      && Bijective(r.0) && logic !in r.0.workers
      && r.1 == (if logic in m.workers then Some(m.workers[logic]) else None)
      && (forall g: Handler :: Registered(r.0, g) <==> Registered(m, g) && r.1 != Some(g))
      && (r.1.Some? ==> r.1.value.realPeer !in r.0.rpLp && r.0.handlerRp == m.handlerRp - {r.1.value.address})
  {
  }
}
