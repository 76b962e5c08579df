/** EventWorker and one pass of worker_loop as code, with the producers interfering before every access. */
module EventWorkers {
  import opened EventLoop

  class EventWorker {
    var addEpExtEvents: seq<Handler>
    var delEpExtEvents: set<Handler>
    var rwOpExtEvents: seq<Handler>
    /** What the event driver watches. */
    var driver: set<Handler>
    /** The handlers process_event was called on, in order. */
    var dispatched: seq<Handler>
    /** What the driver will report, call by call, and what the producers do, access by access. */
    var reports: seq<seq<Handler>>
    var others: seq<seq<Event>>
    /** The same as a state of the step model, from which the other threads see what their rules allow. */
    var now: State

    constructor (reports: seq<seq<Handler>>, others: seq<seq<Event>>)
      ensures Valid() && now == Start && dispatched == []
    {
      dispatched := [];
      addEpExtEvents, delEpExtEvents, rwOpExtEvents, driver := [], {}, [], {};
      this.reports, this.others := reports, others;
      now := Start;
    }

    ghost predicate Valid()
      reads this
    {
      && addEpExtEvents == now.addQ && delEpExtEvents == now.delQ && rwOpExtEvents == now.rwQ
      && driver == now.registered
      && Inv(now)
    }

    // Producers.

    method AddExternalEpAddEvent(h: Handler)
      requires Valid() && Enabled(now, Add(h))
      modifies `addEpExtEvents, `now
      ensures Valid() && now == Next(old(now), Add(h))
    {
      StepKeeps(now, Add(h));
      addEpExtEvents := addEpExtEvents + [h];
      now := Next(now, Add(h));
    }

    method AddExternalRWOpEvent(h: Handler)
      requires Valid() && Enabled(now, QueueRW(h))
      modifies `rwOpExtEvents, `now
      ensures Valid() && now == Next(old(now), QueueRW(h))
    {
      StepKeeps(now, QueueRW(h));
      rwOpExtEvents := rwOpExtEvents + [h];
      now := Next(now, QueueRW(h));
    }

    method AddExternalEpDelEvent(h: Handler)
      requires Valid() && Enabled(now, Release(h))
      modifies `delEpExtEvents, `now
      ensures Valid() && now == Next(old(now), Release(h))
    {
      StepKeeps(now, Release(h));
      delEpExtEvents := delEpExtEvents + {h};
      now := Next(now, Release(h));
    }

    /** The producers have added to the queues; the loop's own state is as it was. */
    static ghost predicate Interfered(s: State, s': State) {
      && s'.at == s.at && s'.pending == s.pending && s'.deleted == s.deleted
      && s'.registered == s.registered && s'.handled == s.handled
      && s.addQ <= s'.addQ && s.rwQ <= s'.rwQ && s.delQ <= s'.delQ && s.queued <= s'.queued
    }

    /** Whatever other threads, or the handlers the loop calls, do in between: any steps their rules allow. */
    method Others()
      requires Valid()
      modifies `addEpExtEvents, `rwOpExtEvents, `delEpExtEvents, `others, `now
      ensures Valid() && Interfered(old(now), now)
    {
      if others == [] {
        return;
      }
      var steps := others[0];
      others := others[1..];
      for i := 0 to |steps|
        invariant Valid() && Interfered(old(now), now)
      {
        ghost var before := now;
        OneOther(steps[i]);
        InterferedTwice(old(now), before, now);
      }
    }

    method OneOther(e: Event)
      requires Valid()
      modifies `addEpExtEvents, `rwOpExtEvents, `delEpExtEvents, `now
      ensures Valid() && Interfered(old(now), now)
    {
      if Enabled(now, e) {
        match e {
          case Add(h) => AddExternalEpAddEvent(h);
          case QueueRW(h) => AddExternalRWOpEvent(h);
          case Release(h) => AddExternalEpDelEvent(h);
          case _ =>
        }
      }
    }

    // The loop's own accesses, each a step.

    method GetInternalEvent() returns (events: seq<Handler>)
      requires Valid() && now.at == Adding([])
      modifies `reports, `now
      ensures Valid() && now == Next(old(now), EventWait(events))
      ensures events == Reported(old(reports), old(driver))
    {
      events := [];
      if reports != [] {
        events := Watched(reports[0]);
        reports := reports[1..];
      }
      StepKeeps(now, EventWait(events));
      now := Next(now, EventWait(events));
    }

    /** The driver reports only what it watches. */
    method Watched(report: seq<Handler>) returns (events: seq<Handler>)
      ensures events == Within(report, driver)
      ensures forall h :: h in events ==> h in driver
    {
      events := [];
      for i := 0 to |report|
        invariant events == Within(report[..i], driver)
        invariant forall h :: h in events ==> h in driver
      {
        assert report[..i + 1][..i] == report[..i];
        if report[i] in driver {
          events := events + [report[i]];
        }
      }
      assert report[..|report|] == report;
    }

    method GetExternalEpDelEvents() returns (tmp: set<Handler>)
      requires Valid() && now.at.Ready?
      modifies `delEpExtEvents, `now
      ensures Valid() && now == Next(old(now), SwapDel) && tmp == old(now).delQ
    {
      StepKeeps(now, SwapDel);
      tmp, delEpExtEvents := delEpExtEvents, {};
      now := Next(now, SwapDel);
    }

    method GetExternalRWOpEvents() returns (tmp: seq<Handler>)
      requires Valid() && now.at == Internal([])
      modifies `rwOpExtEvents, `now
      ensures Valid() && now == Next(old(now), SwapRW) && tmp == old(now).rwQ
    {
      StepKeeps(now, SwapRW);
      tmp, rwOpExtEvents := rwOpExtEvents, [];
      now := Next(now, SwapRW);
    }

    method GetExternalEpAddEvents() returns (tmp: seq<Handler>)
      requires Valid() && now.at == External([]) && now.pending == {}
      modifies `addEpExtEvents, `now
      ensures Valid() && now == Next(old(now), SwapAdd) && tmp == old(now).addQ
    {
      StepKeeps(now, SwapAdd);
      tmp, addEpExtEvents := addEpExtEvents, [];
      now := Next(now, SwapAdd);
    }

    method DeleteHandler(h: Handler)
      requires Valid() && h !in now.deleted
      requires now.at.Unregistering? && h in now.at.left
      modifies `driver, `now
      ensures Valid() && now == Next(old(now), Unregister(h))
    {
      StepKeeps(now, Unregister(h));
      driver := driver - {h};
      now := Next(now, Unregister(h));
    }

    method AddEvent(h: Handler)
      requires Valid() && h !in now.deleted
      requires now.at.Adding? && now.at.adds != [] && now.at.adds[0] == h
      modifies `driver, `now
      ensures Valid() && now == Next(old(now), Register)
    {
      StepKeeps(now, Register);
      driver := driver + {h};
      now := Next(now, Register);
    }

    /** An event is worked off, or a handler's memory given back: steps that touch no queue. */
    method Done(e: Event)
      requires Valid() && Enabled(now, e) && (e == HandleInternal || e == HandleExternal || e.Delete?)
      modifies `now
      ensures Valid() && now == Next(old(now), e)
    {
      StepKeeps(now, e);
      now := Next(now, e);
    }

    /** process_event on a live handler, which may in turn queue, release or finish. */
    method ProcessEvent(h: Handler)
      requires Valid() && h !in now.deleted
      modifies this
      ensures Valid() && Interfered(old(now), now) && dispatched == old(dispatched) + [h]
    {
      dispatched := dispatched + [h];
      Others();
    }

    /** DELETE_PTR on a handler that is still there. */
    method DeletePtr(h: Handler)
      requires Valid() && h !in now.deleted && now.at == External([]) && h in now.pending
      modifies `now
      ensures Valid() && now == Next(old(now), Delete(h))
    {
      Done(Delete(h));
    }

    // worker_loop, loop by loop.

    /** for (de : pendingDeleteEventHandlers) DeleteHandler(de). */
    method UnregisterAll(events: seq<Handler>, pending: set<Handler>)
      requires Valid() && now.at == ToUnregister(events, pending) && now.pending == pending
      modifies `addEpExtEvents, `rwOpExtEvents, `delEpExtEvents, `driver, `others, `now
      ensures Valid() && now.at == Internal(events) && Kept(old(now), now)
    {
      var left := pending;
      while left != {}
        invariant Valid() && now.at == ToUnregister(events, left) && Kept(old(now), now)
        decreases left
      {
        Others();
        var de :| de in left;
        DeleteHandler(de);
        left := left - {de};
      }
    }

    /** The internal events but those of pending handlers. */
    method HandleInternals(events: seq<Handler>, pending: set<Handler>)
      requires Valid() && now.at == Internal(events) && now.pending == pending
      modifies this
      ensures Valid() && now.at == Internal([]) && Kept(old(now), now)
      ensures dispatched == old(dispatched) + Live(events, pending)
    {
      for i := 0 to |events|
        invariant Valid() && now.at == Internal(events[i..]) && Kept(old(now), now)
        invariant dispatched == old(dispatched) + Live(events[..i], pending)
      {
        LiveNext(events, pending, i);
        assert now.at.events[0] == events[i];
        if events[i] !in pending {
          ProcessEvent(events[i]);
        }
        Done(HandleInternal);
        assert events[i..][1..] == events[i + 1..];
      }
      assert events[..|events|] == events;
    }

    /** The read/write events but those of pending handlers. */
    method HandleExternals(events: seq<Handler>, pending: set<Handler>)
      requires Valid() && now.at == External(events) && now.pending == pending
      modifies this
      ensures Valid() && now.at == External([]) && Kept(old(now), now)
      ensures |now.handled| == |old(now).handled| + |events|
      ensures dispatched == old(dispatched) + Live(events, pending)
    {
      for i := 0 to |events|
        invariant Valid() && now.at == External(events[i..]) && Kept(old(now), now)
        invariant |now.handled| == |old(now).handled| + i
        invariant dispatched == old(dispatched) + Live(events[..i], pending)
      {
        LiveNext(events, pending, i);
        assert now.at.events[0] == events[i];
        if events[i] !in pending {
          ProcessEvent(events[i]);
        }
        Done(HandleExternal);
        assert events[i..][1..] == events[i + 1..];
      }
      assert events[..|events|] == events;
    }

    /** for (h : pendingDeleteEventHandlers) DELETE_PTR(h). */
    method DeleteAll(pending: set<Handler>)
      requires Valid() && now.at == External([]) && now.pending == pending
      modifies `addEpExtEvents, `rwOpExtEvents, `delEpExtEvents, `driver, `others, `now
      ensures Valid() && now.at == External([]) && now.pending == {}
      ensures now.deleted == old(now).deleted + pending
      ensures old(now).addQ <= now.addQ && |now.handled| == |old(now).handled|
    {
      var left := pending;
      while left != {}
        invariant Valid() && now.at == External([]) && now.pending == left
        invariant left <= pending && now.deleted == old(now).deleted + (pending - left)
        invariant old(now).addQ <= now.addQ && |now.handled| == |old(now).handled|
        decreases left
      {
        Others();
        var h :| h in left;
        DeletePtr(h);
        left := left - {h};
      }
    }

    /** for (addEv : addEvs) AddEvent(addEv). */
    method AddAll(adds: seq<Handler>)
      requires Valid() && now.at == Adding(adds)
      modifies `addEpExtEvents, `rwOpExtEvents, `delEpExtEvents, `driver, `others, `now
      ensures Valid() && now.at == Adding([])
      ensures now.deleted == old(now).deleted && |now.handled| == |old(now).handled|
      ensures forall h :: h in adds ==> h in now.registered
    {
      for i := 0 to |adds|
        invariant Valid() && now.at == Adding(adds[i..])
        invariant now.deleted == old(now).deleted && |now.handled| == |old(now).handled|
        invariant forall h :: h in adds[..i] ==> h in now.registered
      {
        Others();
        assert now.at.adds[0] == adds[i];
        AddEvent(adds[i]);
        assert adds[i..][1..] == adds[i + 1..];
      }
    }

    /** From the wait to the last event the driver reported. */
    method HandleReported() returns (pending: set<Handler>)
      requires Valid() && now.at == Adding([])
      modifies this
      ensures Valid() && now.at == Internal([]) && now.pending == pending
      ensures old(now).delQ <= pending && old(now).addQ <= now.addQ && old(now).queued <= now.queued
      ensures old(now).rwQ <= now.rwQ
      ensures dispatched == old(dispatched) + Live(Reported(old(reports), old(driver)), pending)
    {
      var events := GetInternalEvent();
      Others();
      pending := GetExternalEpDelEvents();
      UnregisterAll(events, pending);
      HandleInternals(events, pending);
    }

    /** From the wait to the last event. */
    method HandleAll() returns (pending: set<Handler>, ghost external: seq<Handler>)
      requires Valid() && now.at == Adding([])
      modifies this
      ensures Valid() && now.at == External([]) && now.pending == pending
      ensures old(now).delQ <= pending && old(now).addQ <= now.addQ
      ensures |old(now).queued| <= |now.handled|
      ensures old(now).rwQ <= external
      ensures dispatched
              == old(dispatched) + Live(Reported(old(reports), old(driver)), pending) + Live(external, pending)
    {
      pending := HandleReported();
      Others();
      ghost var before := now;
      var events := GetExternalRWOpEvents();
      AllTaken(before);
      external := events;
      HandleExternals(events, pending);
    }

    /** The body of worker_loop. By the end of it every release requested before is carried out. Every event the driver
        reported of a handler it watches, and after those every read/write event queued before, is dispatched unless
        its handler is deleted, and every handler added before is watched. */
    method LoopPass() returns (ghost pending: set<Handler>, ghost external: seq<Handler>)
      requires Valid() && now.at == Adding([])
      modifies this
      ensures Valid() && now.at == Adding([])
      ensures old(delEpExtEvents) <= now.deleted
      ensures |old(now).queued| <= |now.handled|
      ensures old(delEpExtEvents) <= pending <= now.deleted && old(rwOpExtEvents) <= external
      ensures dispatched
              == old(dispatched) + Live(Reported(old(reports), old(driver)), pending) + Live(external, pending)
      ensures old(reports) != [] ==> forall h :: h in old(reports)[0] && h in old(driver) ==>
                h in now.deleted || h in dispatched[|old(dispatched)|..]
      ensures forall h :: h in old(rwOpExtEvents) ==> h in now.deleted || h in dispatched[|old(dispatched)|..]
      ensures forall h :: h in old(addEpExtEvents) ==> h in driver
    {
      var toDelete;
      hide Live, Reported, Inv;
      toDelete, external := HandleAll();
      pending := toDelete;
      PassReaches(old(dispatched), dispatched, old(reports), old(driver), external, pending);
      DeleteAll(toDelete);
      Others();
      var adds := GetExternalEpAddEvents();
      AddAll(adds);
    }

    /** Between two swaps: the queues only grow, and nothing is deleted. */
    static ghost predicate Kept(s: State, s': State) {
      && s'.pending == s.pending && s'.deleted == s.deleted
      && s.addQ <= s'.addQ && s.delQ <= s'.delQ && s.rwQ <= s'.rwQ && s.queued <= s'.queued
      && |s.handled| <= |s'.handled|
    }
  }

  /** The events of handlers in the set. */
  function Within(events: seq<Handler>, some: set<Handler>): seq<Handler> {
    if events == [] then []
    else Within(events[..|events| - 1], some) + if events[|events| - 1] in some then [events[|events| - 1]] else []
  }

  lemma {:induction false} WithinHas(events: seq<Handler>, some: set<Handler>)
    ensures forall h :: h in Within(events, some) <==> h in events && h in some
  {
    if events != [] { WithinHas(events[..|events| - 1], some); }
  }

  /** What the driver reports next. */
  function Reported(reports: seq<seq<Handler>>, driver: set<Handler>): seq<Handler> {
    if reports == [] then [] else Within(reports[0], driver)
  }

  /** The events that are dispatched: those of handlers that are not pending. */
  function Live(events: seq<Handler>, pending: set<Handler>): seq<Handler> {
    if events == [] then []
    else Live(events[..|events| - 1], pending) + if events[|events| - 1] in pending then [] else [events[|events| - 1]]
  }

  lemma {:induction false} LiveHas(events: seq<Handler>, pending: set<Handler>, h: Handler)
    requires h in events && h !in pending
    ensures h in Live(events, pending)
  {
    if events[|events| - 1] != h {
      LiveHas(events[..|events| - 1], pending, h);
    }
  }

  /** Order: what is dispatched of two lists, one after the other, is what is dispatched of each. */
  lemma {:induction false} LiveInOrder(a: seq<Handler>, b: seq<Handler>, pending: set<Handler>)
    ensures Live(a + b, pending) == Live(a, pending) + Live(b, pending)
    decreases |b|
  {
    if b == [] {
      assert a + b == a;
    } else {
      var n := |b| - 1;
      assert (a + b)[..|a + b| - 1] == a + b[..n];
      LiveInOrder(a, b[..n], pending);
    }
  }

  lemma Reached(before: seq<Handler>, after: seq<Handler>, a: seq<Handler>, b: seq<Handler>, pending: set<Handler>)
    requires after == before + Live(a, pending) + Live(b, pending)
    ensures forall h :: h in a || h in b ==> h in pending || h in after[|before|..]
  {
    assert after[|before|..] == Live(a, pending) + Live(b, pending);
    forall h | (h in a || h in b) && h !in pending
      ensures h in after[|before|..]
    {
      if h in a { LiveHas(a, pending, h); } else { LiveHas(b, pending, h); }
    }
  }

  lemma PassReaches(before: seq<Handler>, after: seq<Handler>, reports: seq<seq<Handler>>, driver: set<Handler>,
                    external: seq<Handler>, pending: set<Handler>)
    requires after == before + Live(Reported(reports, driver), pending) + Live(external, pending)
    ensures reports != [] ==>
              forall h :: h in reports[0] && h in driver ==> h in pending || h in after[|before|..]
    ensures forall h :: h in external ==> h in pending || h in after[|before|..]
  {
    hide Live;
    Reached(before, after, Reported(reports, driver), external, pending);
    if reports != [] { WithinHas(reports[0], driver); }
  }

  lemma LiveNext(events: seq<Handler>, pending: set<Handler>, i: nat)
    requires i < |events|
    ensures Live(events[..i + 1], pending)
            == Live(events[..i], pending) + if events[i] in pending then [] else [events[i]]
  {
    assert events[..i + 1][..i] == events[..i];
  }

  /** At the swap all events queued so far are handled or taken. */
  lemma AllTaken(s: State)
    requires Inv(s) && s.at == Internal([])
    ensures |s.queued| == |s.handled| + |s.rwQ|
  {
  }

  lemma InterferedTwice(a: State, b: State, c: State)
    requires EventWorker.Interfered(a, b) && EventWorker.Interfered(b, c)
    ensures EventWorker.Interfered(a, c)
  {
  }
}
