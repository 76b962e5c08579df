/** ThreadPool: its workers, and the shutdown in its destructor. */
module ThreadPools {
  import opened BlockingQueues

  /** A task; an empty one has no action. */
  datatype Task = NoTask | Action(id: nat)

  /** A worker is about to call Pop, inside it (asleep or woken up), holding what it popped, busy with an action, or
      has left its loop. */
  datatype Status = Ready | InPop | Holding(t: Task) | Busy(t: Task) | Gone

  /** `empties` counts the empty tasks the destructor has pushed; `ran` are the actions begun, `dropped` the tasks
      popped and not run. */
  datatype Pool = Pool(q: Queue<Task>, threads: seq<Status>, stopping: bool, empties: nat, ran: seq<Task>,
                       dropped: seq<Task>)

  function Start(n: nat): Pool {
    Pool(Empty(), seq(n, _ => Ready), false, 0, [], [])
  }

  datatype PoolEvent =
    | AddTask(t: Task)
    | Stop
    | AddEmpty
    | Notifies(w: Id)
    | NotifiesNobody
    | WakesUp(w: Id)
    | Pops(w: Id)
    | Rechecks(w: Id)
    /** After Pop: leave if the pool is stopping, else run the action, if there is one. */
    | Looks(w: Id)
    | Finishes(w: Id)

  predicate PoolEnabled(p: Pool, e: PoolEvent) {
    match e
    // Nobody adds tasks to a pool that is being destroyed.
    case AddTask(_) => !p.stopping
    case Stop => !p.stopping
    case AddEmpty => p.stopping && p.empties < |p.threads|
    case Notifies(w) => Enabled(p.q, Notify(w))
    case NotifiesNobody => Enabled(p.q, NotifyNobody)
    case WakesUp(w) => Enabled(p.q, Spurious(w))
    case Pops(w) => w < |p.threads| && p.threads[w] == Ready && Enabled(p.q, Pop(w))
    case Rechecks(w) => w < |p.threads| && Enabled(p.q, Recheck(w))
    case Looks(w) => w < |p.threads| && p.threads[w].Holding?
    case Finishes(w) => w < |p.threads| && p.threads[w].Busy?
  }

  /** The thread took the front of the queue, or it sleeps. */
  function Popped(p: Pool, e: Event<Task>, w: Id): Pool
    requires Enabled(p.q, e) && w < |p.threads|
  {
    p.(q := Next(p.q, e), threads := p.threads[w := if p.q.items != [] then Holding(p.q.items[0]) else InPop])
  }

  function PoolNext(p: Pool, e: PoolEvent): Pool
    requires PoolEnabled(p, e)
  {
    match e
    case AddTask(t) => p.(q := Next(p.q, Push(t)))
    case Stop => p.(stopping := true)
    case AddEmpty => p.(q := Next(p.q, Push(NoTask)), empties := p.empties + 1)
    case Notifies(w) => p.(q := Next(p.q, Notify(w)))
    case NotifiesNobody => p.(q := Next(p.q, NotifyNobody))
    case WakesUp(w) => p.(q := Next(p.q, Spurious(w)))
    case Pops(w) => Popped(p, Pop(w), w)
    case Rechecks(w) => Popped(p, Recheck(w), w)
    case Looks(w) =>
      var t := p.threads[w].t;
      if p.stopping then p.(threads := p.threads[w := Gone], dropped := p.dropped + [t])
      else if t.Action? then p.(threads := p.threads[w := Busy(t)], ran := p.ran + [t])
      else p.(threads := p.threads[w := Ready], dropped := p.dropped + [t])
    case Finishes(w) => p.(threads := p.threads[w := Ready])
  }

  /** The queue's sleepers are the threads inside Pop. */
  predicate Places(p: Pool) {
    && (forall w :: w in p.q.waiting ==> w < |p.threads| && p.threads[w] == InPop)
    && (forall w :: w in p.q.woken ==> w < |p.threads| && p.threads[w] == InPop)
    && (forall w :: 0 <= w < |p.threads| && p.threads[w] == InPop ==> w in p.q.waiting || w in p.q.woken)
  }

  predicate Out(s: Status) {
    s.Holding? || s == Gone
  }

  /** How many threads hold a task or have left. */
  function Outs(ts: seq<Status>): (n: nat)
    ensures n <= |ts|
  {
    if ts == [] then 0 else (if Out(ts[0]) then 1 else 0) + Outs(ts[1..])
  }

  /** While the pool stops, every empty task pushed is still queued, or a thread has popped or left in its place. */
  predicate Enough(p: Pool) {
    && p.empties <= |p.threads|
    && (p.empties > 0 ==> p.stopping)
    && (!p.stopping ==> forall w :: 0 <= w < |p.threads| ==> p.threads[w] != Gone)
    && p.empties <= |p.q.items| + Outs(p.threads)
  }

  /** How many threads hold this task, popped and not yet looked at. */
  function Held(ts: seq<Status>, t: Task): nat {
    if ts == [] then 0 else (if ts[0] == Holding(t) then 1 else 0) + Held(ts[1..], t)
  }

  /** Every task popped is held by a thread, was run once, or was dropped. */
  ghost predicate Balanced(p: Pool, t: Task) {
    multiset(p.q.popped)[t] == multiset(p.ran)[t] + multiset(p.dropped)[t] + Held(p.threads, t)
  }

  /** And only a stopping pool drops an action. */
  ghost predicate Accounted(p: Pool) {
    && (forall t :: Balanced(p, t))
    && (!p.stopping ==> forall t :: t in p.dropped ==> t == NoTask)
  }

  ghost predicate PoolInv(p: Pool) {
    Inv(p.q) && Places(p) && Enough(p) && Accounted(p)
  }

  lemma {:induction false} HeldUpdate(ts: seq<Status>, w: nat, s: Status, t: Task)
    requires w < |ts|
    ensures Held(ts[w := s], t)
            == Held(ts, t) + (if s == Holding(t) then 1 else 0) - (if ts[w] == Holding(t) then 1 else 0)
  {
    if w == 0 {
      assert ts[w := s][1..] == ts[1..];
    } else {
      HeldUpdate(ts[1..], w - 1, s, t);
      assert ts[w := s][1..] == ts[1..][w - 1 := s];
    }
  }

  lemma {:induction false} OutsUpdate(ts: seq<Status>, w: nat, s: Status)
    requires w < |ts|
    ensures Outs(ts[w := s]) == Outs(ts) + (if Out(s) then 1 else 0) - (if Out(ts[w]) then 1 else 0)
  {
    if w == 0 {
      assert ts[w := s][1..] == ts[1..];
    } else {
      OutsUpdate(ts[1..], w - 1, s);
      assert ts[w := s][1..] == ts[1..][w - 1 := s];
    }
  }

  lemma Asleep(q: Queue<Task>)
    requires Inv(q)
    ensures q.waiting !! q.woken
  {
  }

  lemma InPopHolds(p: Pool, w: Id)
    requires Places(p) && w in p.q.woken
    ensures w < |p.threads| && p.threads[w] == InPop
  {
  }

  lemma PlacesKept(p: Pool, e: PoolEvent)
    requires PoolInv(p) && PoolEnabled(p, e)
    ensures Places(PoolNext(p, e))
  {
    Asleep(p.q);
    hide Inv, Enough, Accounted;
    match e
    case Notifies(w) => PlacesWoken(p, w, e);
    case WakesUp(w) => PlacesWoken(p, w, e);
    case Pops(w) => PlacesTaken(p, w, e);
    case Rechecks(w) => PlacesTaken(p, w, e);
    case Looks(w) => PlacesMoved(p, w, e);
    case Finishes(w) => PlacesMoved(p, w, e);
    case _ =>
  }

  lemma PlacesWoken(p: Pool, w: Id, e: PoolEvent)
    requires Places(p) && PoolEnabled(p, e) && (e == Notifies(w) || e == WakesUp(w))
    ensures Places(PoolNext(p, e))
  {
  }

  lemma PlacesTaken(p: Pool, w: Id, e: PoolEvent)
    requires Places(p) && PoolEnabled(p, e) && (e == Pops(w) || e == Rechecks(w)) && p.q.waiting !! p.q.woken
    ensures Places(PoolNext(p, e))
  {
  }

  lemma PlacesMoved(p: Pool, w: Id, e: PoolEvent)
    requires Places(p) && PoolEnabled(p, e) && (e == Looks(w) || e == Finishes(w))
    ensures Places(PoolNext(p, e))
  {
  }

  lemma EnoughKept(p: Pool, e: PoolEvent)
    requires PoolInv(p) && PoolEnabled(p, e)
    ensures Enough(PoolNext(p, e))
  {
    hide Inv, Accounted, Places;
    match e
    case Pops(w) => TakesEnough(p, PoolNext(p, e), w);
    case Rechecks(w) => InPopHolds(p, w); TakesEnough(p, PoolNext(p, e), w);
    case Looks(w) => OutsUpdate(p.threads, w, PoolNext(p, e).threads[w]);
    case Finishes(w) => OutsUpdate(p.threads, w, Ready);
    case _ =>
  }

  lemma TakesEnough(p: Pool, p': Pool, w: Id)
    requires Enough(p) && w < |p.threads| && !Out(p.threads[w])
    requires p'.empties == p.empties && p'.stopping == p.stopping
    requires if p.q.items == [] then p'.q.items == [] && p'.threads == p.threads[w := InPop]
             else p'.q.items == p.q.items[1..] && p'.threads == p.threads[w := Holding(p.q.items[0])]
    ensures Enough(p')
  {
    OutsUpdate(p.threads, w, p'.threads[w]);
  }

  lemma QueueKept(p: Pool, e: PoolEvent)
    requires PoolInv(p) && PoolEnabled(p, e)
    ensures Inv(PoolNext(p, e).q)
  {
    hide Inv, Next;
    match e
    case AddTask(t) => StepKeeps(p.q, Push(t));
    case AddEmpty => StepKeeps(p.q, Push(NoTask));
    case Notifies(w) => StepKeeps(p.q, Notify(w));
    case NotifiesNobody => StepKeeps(p.q, NotifyNobody);
    case WakesUp(w) => StepKeeps(p.q, Spurious(w));
    case Pops(w) => StepKeeps(p.q, Pop(w));
    case Rechecks(w) => StepKeeps(p.q, Recheck(w));
    case _ =>
  }

  lemma AccountedKept(p: Pool, e: PoolEvent)
    requires PoolInv(p) && PoolEnabled(p, e)
    ensures Accounted(PoolNext(p, e))
  {
    hide Places, Enough, Inv, Accounted;
    match e
    case Pops(w) => TakesKept(p, PoolNext(p, e), w);
    case Rechecks(w) => InPopHolds(p, w); TakesKept(p, PoolNext(p, e), w);
    case Looks(w) => LooksKept(p, w);
    case Finishes(w) => PutsNothing(p, PoolNext(p, e), w);
    case Stop => PutsNothing(p, PoolNext(p, e), 0);
    case _ => PutsNothing(p, PoolNext(p, e), 0);
  }

  lemma PutsNothing(p: Pool, p': Pool, w: Id)
    requires Accounted(p) && p'.q.popped == p.q.popped && p'.ran == p.ran && p'.dropped == p.dropped
    requires p.stopping ==> p'.stopping
    requires p'.threads == p.threads || (w < |p.threads| && p.threads[w].Busy? && p'.threads == p.threads[w := Ready])
    ensures Accounted(p')
  {
    forall t ensures Balanced(p', t) {
      assert Balanced(p, t);
      if p'.threads != p.threads { HeldUpdate(p.threads, w, Ready, t); }
    }
  }

  lemma TakesKept(p: Pool, p': Pool, w: Id)
    requires Accounted(p) && w < |p.threads| && !p.threads[w].Holding?
    requires p'.ran == p.ran && p'.dropped == p.dropped && p'.stopping == p.stopping
    requires if p.q.items == [] then p'.q.popped == p.q.popped && p'.threads == p.threads[w := InPop]
             else p'.q.popped == p.q.popped + [p.q.items[0]] && p'.threads == p.threads[w := Holding(p.q.items[0])]
    ensures Accounted(p')
  {
    forall t ensures Balanced(p', t) {
      assert Balanced(p, t);
      HeldUpdate(p.threads, w, p'.threads[w], t);
    }
  }

  lemma LooksKept(p: Pool, w: Id)
    requires Accounted(p) && w < |p.threads| && p.threads[w].Holding?
    ensures Accounted(PoolNext(p, Looks(w)))
  {
    var p' := PoolNext(p, Looks(w));
    forall t ensures Balanced(p', t) {
      assert Balanced(p, t);
      HeldUpdate(p.threads, w, p'.threads[w], t);
    }
  }

  ghost predicate IsPoolRun(ps: seq<Pool>, es: seq<PoolEvent>) {
    && |ps| == |es| + 1 && ps[0] == Start(|ps[0].threads|)
    && forall i :: 0 <= i < |es| ==> PoolEnabled(ps[i], es[i]) && ps[i + 1] == PoolNext(ps[i], es[i])
  }

  /** In every run each action is run at most once, in any interleaving; one that is popped is lost only to a pool that
      is being stopped. */
  lemma {:induction false} PoolRunKeeps(ps: seq<Pool>, es: seq<PoolEvent>)
    requires IsPoolRun(ps, es)
    ensures PoolInv(ps[|es|])
  {
    if es == [] {
      StartHolds(ps[0], |ps[0].threads|);
    } else {
      var n := |es| - 1;
      PoolRunKeeps(ps[..|es|], es[..n]);
      QueueKept(ps[n], es[n]);
      PlacesKept(ps[n], es[n]);
      EnoughKept(ps[n], es[n]);
      AccountedKept(ps[n], es[n]);
    }
  }

  /** Once the pool is being stopped, no action is begun. */
  lemma {:induction false} NothingBegins(ps: seq<Pool>, es: seq<PoolEvent>, k: nat)
    requires IsPoolRun(ps, es) && k <= |es| && ps[k].stopping
    ensures ps[|es|].stopping && ps[|es|].ran == ps[k].ran
    decreases |es|
  {
    if k < |es| {
      NothingBegins(ps[..|es|], es[..|es| - 1], k);
    }
  }

  lemma {:induction false} NobodyHolds(ts: seq<Status>)
    requires forall w :: 0 <= w < |ts| ==> ts[w] == Ready
    ensures Outs(ts) == 0 && forall t :: Held(ts, t) == 0
  {
    if ts != [] { NobodyHolds(ts[1..]); }
  }

  lemma StartHolds(p: Pool, n: nat)
    requires p == Start(n)
    ensures PoolInv(p)
  {
    NobodyHolds(p.threads);
  }

  // Shutdown.

  /** A step other than a spurious wake-up. */
  predicate Productive(e: PoolEvent) {
    !e.WakesUp?
  }

  lemma {:induction false} AllOut(ts: seq<Status>)
    requires forall w :: 0 <= w < |ts| ==> ts[w] == Gone || ts[w] == InPop
    requires exists w :: 0 <= w < |ts| && ts[w] == InPop
    ensures Outs(ts) < |ts|
  {
    if ts[0] != InPop { AllOut(ts[1..]); }
  }

  /** No worker can stay blocked: as long as one thread has not left, somebody can make a productive step. */
  lemma NobodyIsStuck(p: Pool) returns (e: PoolEvent)
    requires PoolInv(p) && p.stopping && exists w :: 0 <= w < |p.threads| && p.threads[w] != Gone
    ensures PoolEnabled(p, e) && Productive(e)
  {
    if p.empties < |p.threads| {
      return AddEmpty;
    }
    if w: nat :| w < |p.threads| && p.threads[w] != Gone && p.threads[w] != InPop {
      return match p.threads[w] case Ready => Pops(w) case Holding(_) => Looks(w) case _ => Finishes(w);
    }
    if w :| w in p.q.woken {
      return Rechecks(w);
    }
    var w :| 0 <= w < |p.threads| && p.threads[w] == InPop;
    AllOut(p.threads);
    assert p.q.items != [] && w in p.q.waiting;
    assert p.q.woken == {};
    return Notifies(w);
  }

  /** How many steps a thread can still take. */
  function Steps(s: Status): nat {
    match s
    case Busy(_) => 6
    case Ready => 5
    case InPop => 3
    case Holding(_) => 1
    case Gone => 0
  }

  function AllSteps(ts: seq<Status>): nat {
    if ts == [] then 0 else Steps(ts[0]) + AllSteps(ts[1..])
  }

  lemma {:induction false} AllStepsUpdate(ts: seq<Status>, w: nat, s: Status)
    requires w < |ts|
    ensures AllSteps(ts[w := s]) == AllSteps(ts) + Steps(s) - Steps(ts[w])
  {
    if w == 0 {
      assert ts[w := s][1..] == ts[1..];
    } else {
      AllStepsUpdate(ts[1..], w - 1, s);
      assert ts[w := s][1..] == ts[1..][w - 1 := s];
    }
  }

  /** How much a stopping pool still has to do. */
  function Rank(p: Pool): int {
    3 * (|p.threads| - p.empties) + 2 * p.q.pending + |p.q.woken| + AllSteps(p.threads)
  }

  lemma RankFalls(p: Pool, e: PoolEvent)
    requires PoolInv(p) && p.stopping && PoolEnabled(p, e)
    ensures Rank(PoolNext(p, e)) <= Rank(p) + if Productive(e) then -1 else 1
    ensures 0 <= Rank(p) && PoolNext(p, e).stopping
  {
    Asleep(p.q);
    hide Inv, Accounted, Places, AllSteps;
    match e
    case Notifies(w) => WakingFalls(p, w, e);
    case WakesUp(w) => WakingFalls(p, w, e);
    case Pops(w) => TakingFalls(p, PoolNext(p, e), w);
    case Rechecks(w) => InPopHolds(p, w); Taken(p.q.woken, w); TakingFalls(p, PoolNext(p, e), w);
    case Looks(w) => MovingFalls(p, w, e);
    case Finishes(w) => MovingFalls(p, w, e);
    case _ =>
  }

  lemma WakingFalls(p: Pool, w: Id, e: PoolEvent)
    requires PoolEnabled(p, e) && (e == Notifies(w) || e == WakesUp(w)) && p.q.waiting !! p.q.woken
    ensures Rank(PoolNext(p, e)) <= Rank(p) + if Productive(e) then -1 else 1
  {
    hide AllSteps;
    Moved(p.q.woken, w);
  }

  lemma MovingFalls(p: Pool, w: Id, e: PoolEvent)
    requires PoolEnabled(p, e) && (e == Finishes(w) || (e == Looks(w) && p.stopping))
    ensures Rank(PoolNext(p, e)) <= Rank(p) - 1
  {
    hide AllSteps;
    AllStepsUpdate(p.threads, w, PoolNext(p, e).threads[w]);
  }

  lemma TakingFalls(p: Pool, p': Pool, w: Id)
    requires w < |p.threads| && p'.empties == p.empties && p'.q.pending == p.q.pending
    requires p'.threads == p.threads[w := if p.q.items != [] then Holding(p.q.items[0]) else InPop]
    requires (p.threads[w] == Ready && p'.q.woken == p.q.woken)
             || (p.threads[w] == InPop && |p'.q.woken| == |p.q.woken| - 1)
    ensures Rank(p') <= Rank(p) - 1
  {
    AllStepsUpdate(p.threads, w, p'.threads[w]);
  }

  function Count(es: seq<PoolEvent>, productive: bool): nat {
    if es == [] then 0
    else (if Productive(es[|es| - 1]) == productive then 1 else 0) + Count(es[..|es| - 1], productive)
  }

  /** Main result on shutdown: from the moment the destructor sets the flag, the productive steps of any run are
      bounded by the rank and the spurious wake-ups; and the run can only come to rest with every thread gone, so
      that the destructor's joins return. */
  lemma ShutdownCompletes(ps: seq<Pool>, es: seq<PoolEvent>, k: nat)
    requires IsPoolRun(ps, es) && k <= |es| && ps[k].stopping
    ensures Count(es[k..], true) <= Rank(ps[k]) + Count(es[k..], false)
    ensures (forall e :: Productive(e) ==> !PoolEnabled(ps[|es|], e)) ==>
      forall w :: 0 <= w < |ps[|es|].threads| ==> ps[|es|].threads[w] == Gone
  {
    RankBounds(ps, es, k);
    PoolRunKeeps(ps, es);
    var p := ps[|es|];
    if exists w :: 0 <= w < |p.threads| && p.threads[w] != Gone {
      var e := NobodyIsStuck(p);
    }
  }

  lemma {:induction false} RankBounds(ps: seq<Pool>, es: seq<PoolEvent>, k: nat)
    requires IsPoolRun(ps, es) && k <= |es| && ps[k].stopping
    ensures ps[|es|].stopping && 0 <= Rank(ps[|es|])
    ensures Count(es[k..], true) + Rank(ps[|es|]) <= Rank(ps[k]) + Count(es[k..], false)
    decreases |es|
  {
    PoolRunKeeps(ps, es);
    if k < |es| {
      var n := |es| - 1;
      var p := ps[..|es|];
      RankBounds(p, es[..n], k);
      PoolRunKeeps(p, es[..n]);
      RankFalls(ps[n], es[n]);
      assert es[k..][..|es[k..]| - 1] == es[..n][k..];
    }
  }
}
