/** ThreadPool as code: one worker's proc and the destructor, among everything the other threads do. */
module ThreadPoolCode {
  import opened BlockingQueues
  import opened ThreadPools

  /** Who runs the code: a worker thread, or the thread that destroys the pool. */
  datatype Actor = Worker(w: Id) | Destroyer

  class ThreadPool {
    /** m_bqTasks and m_bStopping. */
    var tasks: seq<Task>
    var stopping: bool
    /** What the other threads do, access by access; when it runs out the schedule ends. */
    var others: seq<seq<PoolEvent>>
    /** The same as a state of the step model, from which the other threads see what they can do. */
    var now: Pool

    constructor (threads: nat, others: seq<seq<PoolEvent>>)
      ensures Valid() && now == Start(threads)
    {
      tasks, stopping := [], false;
      this.others := others;
      now := Start(threads);
      new;
      StartHolds(now, threads);
    }

    ghost predicate Valid()
      reads this
    {
      tasks == now.q.items && stopping == now.stopping && PoolInv(now)
    }

    /** One atomic access of this thread. */
    method Access(e: PoolEvent)
      requires Valid() && PoolEnabled(now, e)
      modifies `tasks, `stopping, `now
      ensures Valid() && now == PoolNext(old(now), e)
    {
      PoolStepKeeps(now, e);
      now := PoolNext(now, e);
      tasks, stopping := now.q.items, now.stopping;
    }

    /** The steps that are not this actor's own. */
    static predicate Foreign(me: Actor, e: PoolEvent) {
      match e
      case Pops(x) => me != Worker(x)
      case Rechecks(x) => me != Worker(x)
      case Looks(x) => me != Worker(x)
      case Finishes(x) => me != Worker(x)
      case Stop => me != Destroyer
      case AddEmpty => me != Destroyer
      case _ => true
    }

    /** This actor is where it was. */
    static ghost predicate Undisturbed(me: Actor, p: Pool, p': Pool) {
      && |p'.threads| == |p.threads|
      && (p.stopping ==> p'.stopping)
      && match me
         case Worker(w) => w < |p.threads| ==> p'.threads[w] == p.threads[w]
         case Destroyer => p'.stopping == p.stopping && p'.empties == p.empties
    }

    /** Other threads, the condition variable and the scheduler move. */
    method Others(me: Actor) returns (more: bool)
      requires Valid()
      modifies this
      ensures Valid() && Undisturbed(me, old(now), now)
      ensures more ==> |others| < |old(others)|
      ensures !more ==> others == [] && now == old(now)
    {
      if others == [] {
        return false;
      }
      var steps := others[0];
      others, more := others[1..], true;
      for i := 0 to |steps|
        invariant Valid() && Undisturbed(me, old(now), now) && others == old(others)[1..]
      {
        if Foreign(me, steps[i]) && PoolEnabled(now, steps[i]) {
          ForeignLeaves(now, me, steps[i]);
          Access(steps[i]);
        }
      }
    }

    /** m_bqTasks.Pop(): None when the schedule ends while the worker is still inside. */
    method Pop(w: Id) returns (task: Task, got: bool)
      requires Valid() && w < |now.threads| && now.threads[w] == Ready
      modifies this
      ensures Valid() && |now.threads| == |old(now).threads| && |others| <= |old(others)|
      ensures got ==> now.threads[w] == Holding(task)
      ensures !got ==> others == [] && now.threads[w] == InPop
    {
      NotInside(now, w);
      task, got := NoTask, tasks != [];
      if got {
        task := tasks[0];
      }
      Access(Pops(w));
      while !got
        invariant Valid() && |now.threads| == |old(now).threads| && |others| <= |old(others)|
        invariant now.threads[w] == if got then Holding(task) else InPop
        decreases !got, |others|
      {
        // m_cond.wait: asleep until somebody, or nothing in particular, wakes the thread up.
        var more := Others(Worker(w));
        if !more {
          return;
        }
        if w in now.q.woken {
          got := tasks != [];
          if got {
            task := tasks[0];
          }
          Access(Rechecks(w));
        }
      }
    }

    /** proc: the worker leaves only a stopping pool; if the schedule ends first it is blocked or has work. */
    method Proc(w: Id) returns (left: bool)
      requires Valid() && w < |now.threads| && now.threads[w] == Ready
      modifies this
      ensures Valid() && |now.threads| == |old(now).threads|
      ensures left ==> now.stopping && now.threads[w] == Gone
      ensures !left ==> others == [] && now.threads[w] != Gone
    {
      while true
        invariant Valid() && |now.threads| == |old(now).threads| && now.threads[w] == Ready
        decreases |others|
      {
        var task, got := Pop(w);
        if !got {
          return false;
        }
        var more := Others(Worker(w));
        if !more {
          return false;
        }
        var stop := stopping;
        Access(Looks(w));
        if stop {
          return true;
        }
        if task.Action? {
          more := Others(Worker(w));
          Access(Finishes(w));
          if !more {
            return false;
          }
        }
      }
    }

    /** The destructor up to its joins: the flag, then one empty task for every thread. */
    method Shutdown()
      requires Valid() && !stopping
      modifies this
      ensures Valid() && now.stopping && now.empties == |now.threads| == |old(now).threads|
    {
      Access(Stop);
      var size := |now.threads|;
      for i := 0 to size
        invariant Valid() && now.stopping && |now.threads| == size && now.empties == i
      {
        var _ := Others(Destroyer);
        Access(AddEmpty);
      }
    }
  }

  lemma PoolStepKeeps(p: Pool, e: PoolEvent)
    requires PoolInv(p) && PoolEnabled(p, e)
    ensures PoolInv(PoolNext(p, e))
  {
    QueueKept(p, e);
    PlacesKept(p, e);
    EnoughKept(p, e);
    AccountedKept(p, e);
  }

  lemma NotInside(p: Pool, w: Id)
    requires Places(p) && w < |p.threads| && p.threads[w] == Ready
    ensures w !in p.q.waiting && w !in p.q.woken
  {
  }

  lemma ForeignLeaves(p: Pool, me: Actor, e: PoolEvent)
    requires PoolInv(p) && PoolEnabled(p, e) && ThreadPool.Foreign(me, e)
    ensures ThreadPool.Undisturbed(me, p, PoolNext(p, e))
  {
    hide PoolInv;
  }
}
