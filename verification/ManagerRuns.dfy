/** Every run of connections that come, are disconnected by the user, or finish on their own. */
module ManagerRuns {
  import opened Wire
  import opened WorkerManager

  /** The service, with the successful puts and the releases counted by handler. */
  datatype World = World(maps: Maps, stopped: bool, puts: multiset<Handler>, releases: multiset<Handler>)

  const Start: World := World(NoHandlers, false, multiset{}, multiset{})

  datatype Event = Connects(h: Handler) | Disconnects(peer: Peer) | Finishes(h: Handler) | Stops

  function Release(w: World, maps: Maps, h: Option<Handler>): World {
    w.(maps := maps, releases := w.releases + if h.Some? then multiset{h.value} else multiset{})
  }

  /** What OnLogicConnect, Disconnect, OnFinish and Stop do. */
  function Next(w: World, e: Event): World {
    match e
    case Connects(h) =>
      if w.stopped then w
      else
        var r := Put(w.maps, h);
        w.(maps := r.0, puts := w.puts + if r.1 then multiset{h} else multiset{})
    case Disconnects(peer) =>
      if peer.sp != Tcp || w.stopped then w
      else
        var r := Remove(w.maps, peer);
        Release(w, r.0, r.1)
    case Finishes(h) =>
      if w.stopped then w
      else
        var r := RemoveBoth(w.maps, h.logicPeer, h.realPeer);
        Release(w, r.0, if r.1.Some? then Some(h) else None)
    case Stops => w.(stopped := true)
  }

  /** Live handlers have addresses and real peers of their own. */
  predicate Distinct(w: World, e: Event) {
    match e
    case Connects(h) => Apart(w.maps, h)
    case Finishes(h) => RealApart(w.maps, h)
    case _ => true
  }

  ghost predicate IsRun(ws: seq<World>, es: seq<Event>) {
    && |ws| == |es| + 1 && ws[0] == Start
    && forall i :: 0 <= i < |es| ==> Distinct(ws[i], es[i]) && ws[i + 1] == Next(ws[i], es[i])
  }

  /** Each successful put is matched by one release or by the handler being registered. */
  ghost predicate Balanced(w: World) {
    forall h :: w.puts[h] == w.releases[h] + if Registered(w.maps, h) then 1 else 0
  }

  lemma ConnectsKeeps(w: World, h: Handler)
    requires Bijective(w.maps) && Balanced(w) && Apart(w.maps, h)
    ensures Bijective(Next(w, Connects(h)).maps) && Balanced(Next(w, Connects(h)))
  {
    PutKeepsIff(w.maps, h);
    if h.logicPeer !in w.maps.workers && !w.stopped {
      PutAdds(w.maps, h);
      Put1(w, Next(w, Connects(h)), h);
    }
  }

  lemma Put1(w: World, w': World, h: Handler)
    requires Balanced(w) && !Registered(w.maps, h)
    requires w'.puts == w.puts + multiset{h} && w'.releases == w.releases
    requires forall g: Handler :: Registered(w'.maps, g) <==> Registered(w.maps, g) || g == h
    ensures Balanced(w')
  {
  }

  lemma Release1(w: World, w': World, h: Option<Handler>)
    requires Balanced(w) && (h.Some? ==> Registered(w.maps, h.value))
    requires w'.puts == w.puts && w'.releases == w.releases + if h.Some? then multiset{h.value} else multiset{}
    requires forall g: Handler :: Registered(w'.maps, g) <==> Registered(w.maps, g) && h != Some(g)
    ensures Balanced(w')
  {
  }

  lemma DisconnectsKeeps(w: World, peer: Peer)
    requires Bijective(w.maps) && Balanced(w)
    ensures Bijective(Next(w, Disconnects(peer)).maps) && Balanced(Next(w, Disconnects(peer)))
  {
    DisconnectSafe(w.maps, peer);
    if peer.sp == Tcp && !w.stopped {
      assert peer in w.maps.workers ==> OnFile(w.maps, peer);
      Release1(w, Next(w, Disconnects(peer)), Remove(w.maps, peer).1);
    }
  }

  lemma FinishesKeeps(w: World, h: Handler)
    requires Bijective(w.maps) && Balanced(w) && RealApart(w.maps, h)
    ensures Bijective(Next(w, Finishes(h)).maps) && Balanced(Next(w, Finishes(h)))
  {
    FinishSafeIff(w.maps, h);
    if !w.stopped {
      Release1(w, Next(w, Finishes(h)), RemoveBoth(w.maps, h.logicPeer, h.realPeer).1);
    }
  }

  lemma StepKeeps(w: World, e: Event)
    requires Bijective(w.maps) && Balanced(w) && Distinct(w, e)
    ensures Bijective(Next(w, e).maps) && Balanced(Next(w, e))
  {
    match e
    case Connects(h) => ConnectsKeeps(w, h);
    case Disconnects(peer) => DisconnectsKeeps(w, peer);
    case Finishes(h) => FinishesKeeps(w, h);
    case Stops => assert Balanced(w.(stopped := true));
  }

  /** Main result: in every run logic and real peers stay in bijection, and no handler is released more often than it
      was put: exactly as often, once it is no longer registered. */
  lemma {:induction false} RunKeeps(ws: seq<World>, es: seq<Event>)
    requires IsRun(ws, es)
    ensures Bijective(ws[|es|].maps) && Balanced(ws[|es|])
  {
    if es != [] {
      var n := |es| - 1;
      RunKeeps(ws[..|es|], es[..n]);
      StepKeeps(ws[n], es[n]);
    }
  }

  /** A connection for this logic peer changes nothing. */
  ghost predicate TurnsAway(w: World, e: Event, w': World, logic: Peer) {
    e.Connects? && e.h.logicPeer == logic ==> w' == w
  }

  lemma StaysRegistered(w: World, e: Event, h: Handler)
    requires Bijective(w.maps) && Distinct(w, e) && Registered(w.maps, h)
    requires e != Disconnects(h.logicPeer) && e != Finishes(h)
    ensures Registered(Next(w, e).maps, h)
    ensures TurnsAway(w, e, Next(w, e), h.logicPeer)
  {
  }

  lemma BijectiveAt(ws: seq<World>, es: seq<Event>, i: nat)
    requires IsRun(ws, es) && i <= |es|
    ensures Bijective(ws[i].maps)
  {
    RunKeeps(ws[..i + 1], es[..i]);
  }

  /** Nothing but its own end or a disconnect of its logic peer takes a handler out; until then every other handler
      for that peer is turned away. */
  lemma {:induction false} EarliestWins(ws: seq<World>, es: seq<Event>, i: nat, j: nat, h: Handler)
    requires IsRun(ws, es) && i <= j <= |es|
    requires Registered(ws[i].maps, h)
    requires forall k :: i <= k < j ==> es[k] != Disconnects(h.logicPeer) && es[k] != Finishes(h)
    ensures Registered(ws[j].maps, h)
    ensures forall k :: i <= k < j ==> TurnsAway(ws[k], es[k], ws[k + 1], h.logicPeer)
    decreases j
  {
    if i < j {
      EarliestWins(ws, es, i, j - 1, h);
      BijectiveAt(ws, es, j - 1);
      StaysRegistered(ws[j - 1], es[j - 1], h);
    }
  }

  // Without peers of their own.

  function Run(es: seq<Event>): World {
    if es == [] then Start else Next(Run(es[..|es| - 1]), es[|es| - 1])
  }

  /** Exactly which ends keep the balance: those of handlers whose real peer no other registered handler has. */
  lemma FinishBalancedIff(w: World, h: Handler)
    requires Bijective(w.maps) && Balanced(w) && !w.stopped
    ensures Bijective(Next(w, Finishes(h)).maps) && Balanced(Next(w, Finishes(h))) <==> RealApart(w.maps, h)
  {
    if RealApart(w.maps, h) {
      FinishesKeeps(w, h);
    } else {
      var l :| l in w.maps.workers && w.maps.workers[l] != h && w.maps.workers[l].realPeer == h.realPeer;
      assert OnFile(w.maps, l);
      EvictedUnbalanced(w, h, w.maps.workers[l]);
    }
  }

  lemma EvictedUnbalanced(w: World, h: Handler, g: Handler)
    requires Bijective(w.maps) && Balanced(w) && !w.stopped
    requires Registered(w.maps, g) && g != h && g.realPeer == h.realPeer
    ensures !(Bijective(Next(w, Finishes(h)).maps) && Balanced(Next(w, Finishes(h))))
  {
    var w' := Next(w, Finishes(h));
    assert OnFile(w.maps, g.logicPeer);
    if g.logicPeer == h.logicPeer {
      assert w.puts[g] == w.releases[g] + 1;
      assert w'.releases[g] == w.releases[g] && !Registered(w'.maps, g);
    } else {
      assert w'.maps.workers[g.logicPeer] == g && !OnFile(w'.maps, g.logicPeer);
    }
  }

  /** A reachable run in which two handlers have the same peers, one after the other: the user disconnects the first,
      whose end is still under way when the second registers. The first is released twice; the second is taken out
      of the maps and never released. */
  lemma LateEndEvicts(first: Handler, second: Handler)
    requires first.logicPeer.sp == Tcp && first != second
    requires first.logicPeer == second.logicPeer && first.realPeer == second.realPeer
    ensures var w := Run([Connects(first), Disconnects(first.logicPeer), Connects(second), Finishes(first)]);
      && w.puts == multiset{first, second} && w.releases == multiset{first, first}
      && !Registered(w.maps, second)
  {
    hide Next, Run;
    var e1, e2, e3, e4 := Connects(first), Disconnects(first.logicPeer), Connects(second), Finishes(first);
    FourSteps(e1, e2, e3, e4);
    ComeAndGo(Start, first);
    LateEnd(Next(Next(Start, e1), e2), first, second);
  }

  lemma FourSteps(e1: Event, e2: Event, e3: Event, e4: Event)
    ensures Run([e1, e2, e3, e4]) == Next(Next(Next(Next(Start, e1), e2), e3), e4)
  {
    hide Next, Run;
    RunOf([], e1);
    RunOf([e1], e2);
    RunOf([e1, e2], e3);
    RunOf([e1, e2, e3], e4);
    assert [] + [e1] == [e1] && [e1] + [e2] == [e1, e2] && [e1, e2] + [e3] == [e1, e2, e3];
    assert [e1, e2, e3] + [e4] == [e1, e2, e3, e4];
    RunOfNone();
  }

  lemma RunOfNone()
    ensures Run([]) == Start
  {
  }

  lemma RunOf(es: seq<Event>, e: Event)
    ensures Run(es + [e]) == Next(Run(es), e)
  {
    assert (es + [e])[..|es|] == es;
  }

  lemma ComeAndGo(w: World, h: Handler)
    requires w.maps == NoHandlers && !w.stopped && h.logicPeer.sp == Tcp
    ensures Next(Next(w, Connects(h)), Disconnects(h.logicPeer))
            == World(NoHandlers, false, w.puts + multiset{h}, w.releases + multiset{h})
  {
    var maps := Next(Next(w, Connects(h)), Disconnects(h.logicPeer)).maps;
    assert maps.workers == map[] && maps.rpLp == map[] && maps.handlerRp == map[];
  }

  lemma LateEnd(w: World, h: Handler, second: Handler)
    requires w.maps == NoHandlers && !w.stopped && h.logicPeer == second.logicPeer && h.realPeer == second.realPeer
    ensures var w' := Next(Next(w, Connects(second)), Finishes(h));
      w'.puts == w.puts + multiset{second} && w'.releases == w.releases + multiset{h} && w'.maps.workers == map[]
  {
    assert Next(Next(w, Connects(second)), Finishes(h)).maps.workers == map[];
  }
}
