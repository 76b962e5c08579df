/** The unbounded BlockingQueue as atomic steps: what happens under its mutex is one step, each notify_one another. */
module BlockingQueues {
  /** A thread. */
  type Id = nat

  /** The queue; the notify_one calls still to come after a push; the threads asleep in m_cond.wait, and those that
      woke up and have not looked again; and everything ever pushed and popped. */
  datatype Queue<T> = Queue(items: seq<T>, pending: nat, waiting: set<Id>, woken: set<Id>, pushed: seq<T>,
                            popped: seq<T>)

  function Empty<T>(): Queue<T> {
    Queue([], 0, {}, {}, [], [])
  }

  datatype Event<T> =
    /** Push and TryPush up to the unlock; their notify follows. */
    | Push(x: T)
    /** notify_one with this thread, or nobody, asleep. */
    | Notify(w: Id)
    | NotifyNobody
    | Spurious(w: Id)
    /** Pop, or TryPop, by a thread that is not inside Pop yet: takes the front, or falls asleep (TryPop: gives up). */
    | Pop(w: Id)
    | TryPop
    /** A thread that woke up inside Pop looks again. */
    | Recheck(w: Id)

  predicate Enabled<T>(q: Queue<T>, e: Event<T>) {
    match e
    case Push(_) => true
    case Notify(w) => 0 < q.pending && w in q.waiting
    case NotifyNobody => 0 < q.pending && q.waiting == {}
    case Spurious(w) => w in q.waiting
    case Pop(w) => w !in q.waiting && w !in q.woken
    case TryPop => true
    case Recheck(w) => w in q.woken
  }

  function Front<T>(q: Queue<T>): Queue<T>
    requires q.items != []
  {
    q.(items := q.items[1..], popped := q.popped + [q.items[0]])
  }

  function TakeOrSleep<T>(q: Queue<T>, w: Id): Queue<T> {
    if q.items != [] then Front(q) else q.(waiting := q.waiting + {w})
  }

  function Next<T>(q: Queue<T>, e: Event<T>): Queue<T>
    requires Enabled(q, e)
  {
    match e
    case Push(x) => q.(items := q.items + [x], pending := q.pending + 1, pushed := q.pushed + [x])
    case Notify(w) => q.(pending := q.pending - 1, waiting := q.waiting - {w}, woken := q.woken + {w})
    case NotifyNobody => q.(pending := q.pending - 1)
    case Spurious(w) => q.(waiting := q.waiting - {w}, woken := q.woken + {w})
    case Pop(w) => TakeOrSleep(q, w)
    case TryPop => if q.items != [] then Front(q) else q
    case Recheck(w) => TakeOrSleep(q.(woken := q.woken - {w}), w)
  }

  /** No lost wake-up: while somebody sleeps, every item has a notify to come or a woken thread that will look. */
  predicate Covered<T>(q: Queue<T>) {
    q.waiting != {} ==> |q.items| <= q.pending + |q.woken|
  }

  /** First in, first out, and nothing lost. */
  predicate Inv<T(==)>(q: Queue<T>) {
    q.waiting !! q.woken && Covered(q) && q.pushed == q.popped + q.items
  }

  lemma StepKeeps<T>(q: Queue<T>, e: Event<T>)
    requires Inv(q) && Enabled(q, e)
    ensures Inv(Next(q, e))
  {
    CoveredKept(q, e);
    FifoKept(q, e);
  }

  lemma FifoKept<T>(q: Queue<T>, e: Event<T>)
    requires Inv(q) && Enabled(q, e)
    ensures Next(q, e).pushed == Next(q, e).popped + Next(q, e).items && Next(q, e).waiting !! Next(q, e).woken
  {
    if q.items != [] {
      assert q.items == [q.items[0]] + q.items[1..];
    }
  }

  lemma CoveredKept<T>(q: Queue<T>, e: Event<T>)
    requires Inv(q) && Enabled(q, e)
    ensures Covered(Next(q, e))
  {
    match e
    case Notify(w) => Moved(q.woken, w);
    case Spurious(w) => Moved(q.woken, w);
    case Recheck(w) => Taken(q.woken, w);
    case _ =>
  }

  lemma Moved(s: set<Id>, w: Id)
    requires w !in s
    ensures |s + {w}| == |s| + 1
  {
  }

  lemma Taken(s: set<Id>, w: Id)
    requires w in s
    ensures |s - {w}| == |s| - 1
  {
  }

  ghost predicate IsRun<T(!new)>(qs: seq<Queue<T>>, es: seq<Event<T>>) {
    && |qs| == |es| + 1 && qs[0] == Empty()
    && forall i :: 0 <= i < |es| ==> Enabled(qs[i], es[i]) && qs[i + 1] == Next(qs[i], es[i])
  }

  /** Main result: in every interleaving, spurious wake-ups included, a sleeping consumer and a non-empty queue mean
      that a notify or a woken consumer is on its way; and items leave in the order they came. */
  lemma {:induction false} NoLostWakeUp<T(!new)>(qs: seq<Queue<T>>, es: seq<Event<T>>)
    requires IsRun(qs, es)
    ensures Inv(qs[|es|])
    ensures var q := qs[|es|]; q.waiting != {} && q.items != [] ==> 0 < q.pending || q.woken != {}
  {
    if es != [] {
      var n := |es| - 1;
      NoLostWakeUp(qs[..|es|], es[..n]);
      StepKeeps(qs[n], es[n]);
    }
  }
}
