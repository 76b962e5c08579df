/** One worker thread's event loop among producers, as atomic steps: each access to a shared queue, to the driver or to
    a handler is one step. */
module EventLoop {
  /** A handler's address. */
  type Handler = nat

  /** Where worker_loop stands, with what it has taken and not yet worked off. */
  datatype Place =
    | Ready(events: seq<Handler>)
    | Unregistering(events: seq<Handler>, left: set<Handler>)
    | Internal(events: seq<Handler>)
    | External(events: seq<Handler>)
    | Adding(adds: seq<Handler>)

  /** The three external queues, the driver's registrations, the loop's place and pending-delete set; then history:
      who was added, released and deleted, which read/write events were queued and handled (true: dispatched), and
      which events the driver reported and the loop served. */
  datatype State = State(addQ: seq<Handler>, delQ: set<Handler>, rwQ: seq<Handler>, registered: set<Handler>,
                         at: Place, pending: set<Handler>,
                         added: set<Handler>, released: set<Handler>, deleted: set<Handler>,
                         queued: seq<Handler>, handled: seq<(Handler, bool)>,
                         reported: seq<Handler>, served: seq<(Handler, bool)>)

  const Start: State := State([], {}, [], {}, Adding([]), {}, {}, {}, {}, [], [], [], [])

  datatype Event =
    // Producers: AddExternalEpAddEvent, AddExternalRWOpEvent, and Release with AddExternalEpDelEvent.
    | Add(h: Handler)
    | QueueRW(h: Handler)
    | Release(h: Handler)
    // The loop, in the order of its text.
    | EventWait(events: seq<Handler>)
    | SwapDel
    | Unregister(h: Handler)
    | HandleInternal
    | SwapRW
    | HandleExternal
    | Delete(h: Handler)
    | SwapAdd
    | Register

  function Adds(p: Place): seq<Handler> {
    if p.Adding? then p.adds else []
  }

  /** The loop has put the handler into the driver. */
  predicate Drained(s: State, h: Handler) {
    h in s.added && h !in s.addQ && h !in Adds(s.at)
  }

  /** Too early to release: the loop would take the delete request before it takes the add. */
  predicate Early(s: State, h: Handler) {
    h in s.addQ && (s.at.Adding? || s.at.Ready?)
  }

  /** Too late to queue a read/write event: the handler is deleted, or will be before the queue is looked at again. */
  predicate Late(s: State, h: Handler) {
    h in s.deleted || (s.at.External? && h in s.pending)
  }

  /** A handler is added once. A second release does no harm while the first still waits in its set. */
  predicate Enabled(s: State, e: Event) {
    match e
    case Add(h) => h !in s.added
    case QueueRW(h) => h in s.added && !Late(s, h)
    case Release(h) => h in s.added && !Early(s, h) && (h in s.released ==> h in s.delQ)
    case _ => LoopEnabled(s, e)
  }

  predicate LoopEnabled(s: State, e: Event) {
    match e
    // The driver reports only what is registered: no event after a delete.
    case EventWait(events) => s.at == Adding([]) && forall h :: h in events ==> h in s.registered
    case SwapDel => s.at.Ready?
    case Unregister(h) => s.at.Unregistering? && h in s.at.left
    case HandleInternal => s.at.Internal? && s.at.events != []
    case SwapRW => s.at == Internal([])
    case HandleExternal => s.at.External? && s.at.events != []
    case Delete(h) => s.at == External([]) && h in s.pending
    case SwapAdd => s.at == External([]) && s.pending == {}
    case Register => s.at.Adding? && s.at.adds != []
    case _ => false
  }

  /** DeleteHandler is called for every pending handler before the first event is handled. */
  function ToUnregister(events: seq<Handler>, left: set<Handler>): Place {
    if left == {} then Internal(events) else Unregistering(events, left)
  }

  function Next(s: State, e: Event): State {
    match e
    case Add(h) => s.(addQ := s.addQ + [h], added := s.added + {h})
    case QueueRW(h) => s.(rwQ := s.rwQ + [h], queued := s.queued + [h])
    case Release(h) => s.(delQ := s.delQ + {h}, released := s.released + {h})
    case _ => LoopNext(s, e)
  }

  function LoopNext(s: State, e: Event): State {
    match e
    case EventWait(events) => s.(at := Ready(events), reported := s.reported + events)
    case SwapDel =>
      if s.at.Ready? then s.(delQ := {}, pending := s.delQ, at := ToUnregister(s.at.events, s.delQ)) else s
    case Unregister(h) =>
      if s.at.Unregistering?
      then s.(registered := s.registered - {h}, at := ToUnregister(s.at.events, s.at.left - {h}))
      else s
    case HandleInternal =>
      if s.at.Internal? && s.at.events != []
      then s.(at := Internal(s.at.events[1..]), served := s.served + [(s.at.events[0], s.at.events[0] !in s.pending)])
      else s
    case SwapRW => s.(rwQ := [], at := External(s.rwQ))
    case HandleExternal =>
      if s.at.External? && s.at.events != []
      then s.(at := External(s.at.events[1..]), handled := s.handled + [(s.at.events[0], s.at.events[0] !in s.pending)])
      else s
    case Delete(h) => s.(deleted := s.deleted + {h}, pending := s.pending - {h})
    case SwapAdd => s.(addQ := [], at := Adding(s.addQ))
    case Register =>
      if s.at.Adding? && s.at.adds != []
      then s.(registered := s.registered + {s.at.adds[0]}, at := Adding(s.at.adds[1..]))
      else s
    case _ => s
  }

  /** The handlers a step touches as live objects: dispatched to, put into or out of the driver, or deleted. */
  function Touched(s: State, e: Event): set<Handler> {
    match e
    case Unregister(h) => {h}
    case HandleInternal =>
      if s.at.Internal? && s.at.events != [] && s.at.events[0] !in s.pending then {s.at.events[0]} else {}
    case HandleExternal =>
      if s.at.External? && s.at.events != [] && s.at.events[0] !in s.pending then {s.at.events[0]} else {}
    case Delete(h) => {h}
    case Register => if s.at.Adding? && s.at.adds != [] then {s.at.adds[0]} else {}
    case _ => {}
  }

  /** Each released handler is in exactly one of three places, and was added before. */
  predicate Releases(s: State) {
    && s.released == s.delQ + s.pending + s.deleted
    && s.delQ !! s.pending && s.delQ !! s.deleted && s.pending !! s.deleted
    && s.released <= s.added
    && (forall h :: h in s.pending ==> Drained(s, h))
    && (forall h :: h in s.deleted ==> Drained(s, h))
    && (forall h :: h in s.delQ ==> !Early(s, h))
  }

  /** The driver holds no deleted handler, and no pending one once the loop has unregistered them. */
  predicate Registrations(s: State) {
    && (forall h :: h in s.addQ + Adds(s.at) ==> h in s.added)
    && (forall h :: h in s.registered ==> h in s.added && h !in s.deleted)
    && (match s.at
        case Ready(_) => s.pending == {}
        case Adding(_) => s.pending == {}
        case Unregistering(_, left) =>
          left != {} && left <= s.pending && forall h :: h in s.registered && h in s.pending ==> h in left
        case _ => s.registered !! s.pending)
  }

  /** Events on their way are for handlers that still exist. */
  predicate Events(s: State) {
    && (s.at.Ready? || s.at.Unregistering? || s.at.Internal? ==>
          forall h :: h in s.at.events ==> h in s.added && h !in s.deleted)
    && (s.at.External? ==> forall h :: h in s.at.events ==> h !in s.deleted)
    && (forall h :: h in s.rwQ ==> !Late(s, h))
  }

  function InHand(p: Place): seq<Handler> {
    if p.External? then p.events else []
  }

  function Firsts(hs: seq<(Handler, bool)>): (r: seq<Handler>)
    ensures |r| == |hs|
  {
    seq(|hs|, i requires 0 <= i < |hs| => hs[i].0)
  }

  /** No read/write event is lost or reordered, and only one for a released handler goes undispatched. */
  predicate Handled(s: State) {
    && s.queued == Firsts(s.handled) + InHand(s.at) + s.rwQ
    && (forall i :: 0 <= i < |s.handled| && !s.handled[i].1 ==> s.handled[i].0 in s.released)
  }

  function Unserved(p: Place): seq<Handler> {
    if p.Ready? || p.Unregistering? || p.Internal? then p.events else []
  }

  /** Nor is any event the driver reported. */
  predicate Served(s: State) {
    && s.reported == Firsts(s.served) + Unserved(s.at)
    && (forall i :: 0 <= i < |s.served| && !s.served[i].1 ==> s.served[i].0 in s.released)
  }

  predicate Inv(s: State) {
    Releases(s) && Registrations(s) && Events(s) && Handled(s) && Served(s)
  }

  /** Every step of the loop and of the producers keeps the invariant and touches no deleted handler. */
  lemma StepKeeps(s: State, e: Event)
    requires Inv(s) && Enabled(s, e)
    ensures Inv(Next(s, e))
    ensures Touched(s, e) !! s.deleted
  {
    ReleasesKept(s, e);
    RegistrationsKept(s, e);
    EventsKept(s, e);
    HandledKept(s, e);
    ServedKept(s, e);
  }

  lemma ReleasesKept(s: State, e: Event)
    requires Inv(s) && Enabled(s, e)
    ensures Releases(Next(s, e))
  {
  }

  lemma RegistrationsKept(s: State, e: Event)
    requires Inv(s) && Enabled(s, e)
    ensures Registrations(Next(s, e))
  {
  }

  lemma EventsKept(s: State, e: Event)
    requires Inv(s) && Enabled(s, e)
    ensures Events(Next(s, e))
  {
  }

  lemma HandledKept(s: State, e: Event)
    requires Inv(s) && Enabled(s, e)
    ensures Handled(Next(s, e))
  {
  }

  lemma ServedKept(s: State, e: Event)
    requires Inv(s) && Enabled(s, e)
    ensures Served(Next(s, e))
  {
    hide Handled, Events, Registrations;
  }

  /** A run in which the producers keep their rules. */
  ghost predicate IsRun(ss: seq<State>, es: seq<Event>) {
    && |ss| == |es| + 1 && ss[0] == Start
    && forall i :: 0 <= i < |es| ==> Enabled(ss[i], es[i]) && ss[i + 1] == Next(ss[i], es[i])
  }

  lemma {:induction false} RunKeeps(ss: seq<State>, es: seq<Event>)
    requires IsRun(ss, es)
    ensures Inv(ss[|es|])
  {
    if es != [] {
      var n := |es| - 1;
      RunKeeps(ss[..|es|], es[..n]);
      StepKeeps(ss[n], es[n]);
    }
  }

  /** Main result: in every interleaving no handler is dispatched to, or put into or out of the driver, after it was
      deleted, and none is deleted twice. */
  lemma HandlersOutliveTheirEvents(ss: seq<State>, es: seq<Event>, i: nat)
    requires IsRun(ss, es) && i < |es|
    ensures Touched(ss[i], es[i]) !! ss[i].deleted
  {
    RunKeeps(ss[..i + 1], es[..i]);
    StepKeeps(ss[i], es[i]);
  }

  lemma DeletedOnce(ss: seq<State>, es: seq<Event>, i: nat, j: nat, h: Handler)
    requires IsRun(ss, es) && i < j < |es| && es[i] == Delete(h)
    ensures es[j] != Delete(h)
  {
    StaysDeleted(ss, es, i + 1, j, h);
    HandlersOutliveTheirEvents(ss, es, j);
  }

  lemma {:induction false} StaysDeleted(ss: seq<State>, es: seq<Event>, i: nat, j: nat, h: Handler)
    requires IsRun(ss, es) && i <= j <= |es| && h in ss[i].deleted
    ensures h in ss[j].deleted
    decreases j
  {
    if i < j { StaysDeleted(ss, es, i, j - 1, h); }
  }

  /** When the loop is back at its wait, every release request it has seen is carried out, and every event the driver
      reported, and every read/write event it has taken, is worked off: in the order reported or queued, each
      dispatched unless its handler was released. */
  lemma PassIsComplete(ss: seq<State>, es: seq<Event>)
    requires IsRun(ss, es) && ss[|es|].at.Adding?
    ensures var s := ss[|es|];
      && s.released == s.delQ + s.deleted
      && s.queued == Firsts(s.handled) + s.rwQ
      && (forall i :: 0 <= i < |s.handled| && !s.handled[i].1 ==> s.handled[i].0 in s.released)
      && s.reported == Firsts(s.served)
      && forall i :: 0 <= i < |s.served| && !s.served[i].1 ==> s.served[i].0 in s.released
  {
    RunKeeps(ss, es);
  }

  // The producers' rules are exact: a step that breaks one lets the loop, on its own, touch a deleted handler.

  /** These steps of the loop alone end with one that touches a deleted handler. */
  ghost predicate TouchesDeleted(s: State, es: seq<Event>)
    decreases |es|
  {
    && es != [] && LoopEnabled(s, es[0])
    && if |es| == 1 then Touched(s, es[0]) * s.deleted != {} else TouchesDeleted(Next(s, es[0]), es[1..])
  }

  ghost predicate LoopSafe(s: State) {
    forall es :: !TouchesDeleted(s, es)
  }

  lemma {:induction false} NeverAlone(s: State, es: seq<Event>)
    requires Inv(s)
    ensures !TouchesDeleted(s, es)
    decreases |es|
  {
    if es != [] && LoopEnabled(s, es[0]) {
      StepKeeps(s, es[0]);
      NeverAlone(Next(s, es[0]), es[1..]);
    }
  }

  /** The loop will touch the deleted h before it waits again. */
  predicate DoomedNow(s: State, h: Handler) {
    || (h in s.deleted && h !in s.pending && h !in s.delQ && h in s.rwQ
        && (s.at.Ready? || s.at.Unregistering? || s.at.Internal?))
    || (h in s.deleted && h !in s.pending && s.at.External? && h in s.at.events)
    || (h in s.deleted && s.at.Ready? && h in s.delQ)
    || (h in s.deleted && s.at.Unregistering? && h in s.at.left)
    || (s.at.Ready? && h in s.delQ && h in s.addQ)
    || (h in s.pending && h in s.addQ && (s.at.Unregistering? || s.at.Internal? || s.at.External?))
    || (h in s.deleted && h in s.addQ && s.at.External?)
    || (h in s.deleted && h in Adds(s.at))
  }

  /** It will do so in the pass after this one. */
  predicate DoomedNext(s: State, h: Handler) {
    || (h in s.rwQ && h in s.pending && h !in s.delQ && h !in s.deleted && s.at.External?)
    || (h in s.rwQ && h in s.deleted && h !in s.pending && h !in s.delQ && (s.at.External? || s.at.Adding?))
    || (h in s.delQ && (h in s.pending || h in s.deleted) && !s.at.Ready?)
    || (h in s.delQ && h in s.addQ && s.at.Adding?)
  }

  predicate Shape(s: State) {
    && (s.at.Ready? || s.at.Adding? ==> s.pending == {})
    && (s.at.Unregistering? ==> s.at.left != {} && s.at.left <= s.pending)
  }

  function Phase(p: Place): nat {
    match p
    case Ready(_) => 5
    case Unregistering(_, _) => 4
    case Internal(_) => 3
    case External(_) => 2
    case Adding(_) => 1
  }

  /** What is left to do in this phase. */
  function Work(s: State): nat {
    match s.at
    case Ready(_) => 0
    case Unregistering(_, left) => |left|
    case Internal(events) => |events|
    case External(events) => |events| + |s.pending|
    case Adding(adds) => |adds|
  }

  /** The loop's next step, when the driver has nothing to report. */
  lemma Advance(s: State) returns (e: Event)
    requires Shape(s)
    ensures LoopEnabled(s, e) && Shape(Next(s, e))
    ensures s.at == Adding([]) ==> e == EventWait([])
    ensures s.at != Adding([]) ==>
              || Phase(Next(s, e).at) < Phase(s.at)
              || (Phase(Next(s, e).at) == Phase(s.at) && Work(Next(s, e)) < Work(s))
  {
    match s.at
    case Ready(_) => e := SwapDel;
    case Unregistering(_, left) =>
      var h :| h in left;
      e := Unregister(h);
      assert |left - {h}| < |left|;
    case Internal(events) => e := if events == [] then SwapRW else HandleInternal;
    case External(events) =>
      if events != [] {
        e := HandleExternal;
      } else if s.pending == {} {
        e := SwapAdd;
      } else {
        var h :| h in s.pending;
        e := Delete(h);
        assert |s.pending - {h}| < |s.pending|;
      }
    case Adding(adds) => e := if adds == [] then EventWait([]) else Register;
  }

  lemma DoomStays(s: State, e: Event, h: Handler)
    requires Shape(s) && LoopEnabled(s, e) && (DoomedNow(s, h) || DoomedNext(s, h))
    requires e.EventWait? ==> e.events == []
    ensures DoomedNow(s, h) ==> Touched(s, e) * s.deleted != {} || (DoomedNow(Next(s, e), h) && s.at != Adding([]))
    ensures !DoomedNow(s, h) ==>
      Touched(s, e) * s.deleted != {} || DoomedNow(Next(s, e), h) || (DoomedNext(Next(s, e), h) && s.at != Adding([]))
  {
    if h in Touched(s, e) && h in s.deleted {
      assert h in Touched(s, e) * s.deleted;
    }
    if s.at.External? && h in s.at.events {
      assert h == s.at.events[0] || h in s.at.events[1..];
    }
    if h in Adds(s.at) {
      assert h == s.at.adds[0] || h in s.at.adds[1..];
    }
  }

  lemma {:induction false} Doom(s: State, h: Handler) returns (es: seq<Event>)
    requires Shape(s) && (DoomedNow(s, h) || DoomedNext(s, h))
    ensures TouchesDeleted(s, es)
    decreases if DoomedNow(s, h) then 0 else 1, Phase(s.at), Work(s)
  {
    var e := Advance(s);
    DoomStays(s, e, h);
    if Touched(s, e) * s.deleted != {} {
      es := [e];
    } else {
      var rest := Doom(Next(s, e), h);
      es := [e] + rest;
      assert es[1..] == rest;
    }
  }

  /** Main result on the rules: queueing a read/write event or a release for an added handler is safe, in the sense
      that the loop alone can never touch a deleted handler, exactly when the rule allows it. */
  lemma RulesAreExact(s: State, e: Event)
    requires Inv(s) && (e.QueueRW? || e.Release?) && e.h in s.added
    ensures Enabled(s, e) <==> LoopSafe(Next(s, e))
  {
    if Enabled(s, e) {
      StepKeeps(s, e);
      forall es ensures !TouchesDeleted(Next(s, e), es) { NeverAlone(Next(s, e), es); }
    } else {
      var es := Doom(Next(s, e), e.h);
      assert TouchesDeleted(Next(s, e), es);
    }
  }
}
