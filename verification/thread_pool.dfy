/**
 The thread pool: a bounded queue under a mutex, workers waiting on a condition variable, a
 shutdown that drains. The class holds the locked sections; the state machine below interleaves
 them, with notifications as separate later events and with spurious wake-ups.
 */
module ThreadPools {
  import opened Wrappers

  /** What the mutex protects. */
  datatype Shared<T> = Shared(tasks: seq<T>, stopping: bool, maxTasks: nat)

  predicate Accepts<T>(sh: Shared<T>, task: Option<T>) {
    task.Some? && !sh.stopping && |sh.tasks| < sh.maxTasks
  }

  function Enqueued<T>(sh: Shared<T>, task: Option<T>): Shared<T> {
    if Accepts(sh, task) then sh.(tasks := sh.tasks + [task.value]) else sh
  }

  /** What a worker holding the mutex does: wait, return from its loop, or go and run a task. */
  datatype Decision<T> = Wait | Exit | Take(task: T)

  function WorkerDecision<T>(sh: Shared<T>): Decision<T> {
    if sh.tasks != [] then Take(sh.tasks[0]) else if sh.stopping then Exit else Wait
  }

  function AfterDecision<T>(sh: Shared<T>): Shared<T> {
    if sh.tasks != [] then sh.(tasks := sh.tasks[1..]) else sh
  }

  class ThreadPool<T> {
    const maxTasks: nat
    var stopping: bool
    var tasks: seq<T>

    function State(): Shared<T>
      reads this
    {
      Shared(tasks, stopping, maxTasks)
    }

    constructor (max: nat)
      ensures State() == Shared([], false, max)
    {
      maxTasks, stopping, tasks := max, false, [];
    }

    /** A true result is followed by notify_one, after the mutex is released. None is an empty function. */
    method Enqueue(task: Option<T>) returns (ok: bool)
      modifies this`tasks
      ensures ok == Accepts(old(State()), task)
      ensures State() == Enqueued(old(State()), task)
    {
      if task.None? {
        return false;
      }
      if stopping || |tasks| >= maxTasks {
        return false;
      }
      tasks := tasks + [task.value];
      return true;
    }

    /** The locked block of worker_loop from one evaluation of the wait predicate on. */
    method WorkerSection() returns (d: Decision<T>)
      modifies this`tasks
      ensures d == WorkerDecision(old(State()))
      ensures State() == AfterDecision(old(State()))
    {
      if !(stopping || tasks != []) {
        return Wait;
      }
      if stopping && tasks == [] {
        return Exit;
      }
      var task := tasks[0];
      tasks := tasks[1..];
      return Take(task);
    }

    /** True on the first call, which goes on to notify_all and the joins. */
    method BeginShutdown() returns (first: bool)
      modifies this`stopping
      ensures first == !old(stopping)
      ensures State() == old(State()).(stopping := true)
    {
      if stopping {
        return false;
      }
      stopping := true;
      return true;
    }
  }

  // ---------- Interleavings ----------

  datatype Pc<T> = Awake | Asleep | Busy(task: T) | Gone

  /** `ones` and `all` count notifications decided on but not yet delivered; the rest is history. */
  datatype Pool<T> = Pool(shared: Shared<T>, workers: seq<Pc<T>>, ones: nat, all: bool,
                          accepted: seq<T>, taken: seq<T>, done: multiset<T>)

  datatype Event<T> =
    | OnEnqueue(task: Option<T>)
    | OnNotifyOne(worker: nat)
    | OnNotifyAll
    | OnWorker(worker: nat)     // an awake worker gets the mutex
    | OnSpurious(worker: nat)   // wait returns for no reason
    | OnFinish(worker: nat)     // the task returns or throws: both are caught
    | OnShutdown

  function Started<T>(n: nat): (ws: seq<Pc<T>>)
    ensures |ws| == n
  {
    if n == 0 then [] else [Awake] + Started(n - 1)
  }

  function NewPool<T>(n: nat, max: nat): Pool<T> {
    Pool(Shared([], false, max), Started(n), 0, false, [], [], multiset{})
  }

  ghost predicate At<T>(p: Pool<T>, w: nat, pc: Pc<T>) { w < |p.workers| && p.workers[w] == pc }

  ghost predicate Enabled<T(!new)>(p: Pool<T>, e: Event<T>) {
    match e
    case OnEnqueue(_) => true
    case OnNotifyOne(w) => p.ones > 0 && (At(p, w, Asleep) || Asleep !in p.workers)
    case OnNotifyAll => p.all
    case OnWorker(w) => At(p, w, Awake)
    case OnSpurious(w) => At(p, w, Asleep)
    case OnFinish(w) => w < |p.workers| && p.workers[w].Busy?
    case OnShutdown => true
  }

  function WakeAll<T>(ws: seq<Pc<T>>): (r: seq<Pc<T>>)
    ensures |r| == |ws|
  {
    if ws == [] then [] else [if ws[0].Asleep? then Awake else ws[0]] + WakeAll(ws[1..])
  }

  ghost function Move<T>(p: Pool<T>, w: nat, pc: Pc<T>): Pool<T>
    requires w < |p.workers|
  {
    p.(workers := p.workers[w := pc])
  }

  ghost function Next<T(!new)>(p: Pool<T>, e: Event<T>): Pool<T>
    requires Enabled(p, e)
  {
    match e
    case OnEnqueue(task) =>
      if Accepts(p.shared, task) then
        p.(shared := Enqueued(p.shared, task), ones := p.ones + 1, accepted := p.accepted + [task.value])
      else p
    case OnNotifyOne(w) =>
      if At(p, w, Asleep) then Move(p, w, Awake).(ones := p.ones - 1) else p.(ones := p.ones - 1)
    case OnNotifyAll => p.(workers := WakeAll(p.workers), all := false)
    case OnWorker(w) =>
      var q := p.(shared := AfterDecision(p.shared));
      (match WorkerDecision(p.shared)
       case Wait => Move(q, w, Asleep)
       case Exit => Move(q, w, Gone)
       case Take(task) => Move(q, w, Busy(task)).(taken := p.taken + [task]))
    case OnSpurious(w) => Move(p, w, Awake)
    case OnFinish(w) => Move(p, w, Awake).(done := p.done + multiset{p.workers[w].task})
    case OnShutdown =>
      if p.shared.stopping then p else p.(shared := p.shared.(stopping := true), all := true)
  }

  /** The state an interleaving leads to, from a new pool of n workers; what cannot happen does not. */
  ghost function Run<T(!new)>(n: nat, max: nat, events: seq<Event<T>>): Pool<T> {
    if events == [] then NewPool(n, max)
    else
      var p, e := Run(n, max, events[..|events| - 1]), events[|events| - 1];
      if Enabled(p, e) then Next(p, e) else p
  }

  // ---------- Counting workers ----------

  datatype Kind<T> = AwakeOnes | AsleepOnes | WorkLeft | Unsettled | HoldersOf(task: T)

  /** WorkLeft and Unsettled bound the steps a worker can still make: to its end, or to its next wait. */
  ghost function Weight<T>(pc: Pc<T>, k: Kind<T>): nat {
    match k
    case AwakeOnes => if pc.Awake? then 1 else 0
    case AsleepOnes => if pc.Asleep? then 1 else 0
    case HoldersOf(task) => if pc == Busy(task) then 1 else 0
    case Unsettled => if pc.Awake? then 1 else if pc.Busy? then 2 else 0
    case WorkLeft => if pc.Gone? then 0 else if pc.Awake? then 1 else 2
  }

  ghost function Total<T>(ws: seq<Pc<T>>, k: Kind<T>): nat {
    if ws == [] then 0 else Weight(ws[0], k) + Total(ws[1..], k)
  }

  lemma {:induction false} TotalMove<T>(ws: seq<Pc<T>>, w: nat, pc: Pc<T>, k: Kind<T>)
    requires w < |ws|
    ensures Total(ws[w := pc], k) + Weight(ws[w], k) == Total(ws, k) + Weight(pc, k)
  {
    if w == 0 {
      assert ws[0 := pc][1..] == ws[1..];
    } else {
      assert ws[w := pc][1..] == ws[1..][w - 1 := pc];
      TotalMove(ws[1..], w - 1, pc, k);
    }
  }

  lemma {:induction false} WakeAllCounts<T(!new)>(ws: seq<Pc<T>>)
    ensures Total(WakeAll(ws), AsleepOnes) == 0
    ensures Total(WakeAll(ws), AwakeOnes) == Total(ws, AwakeOnes) + Total(ws, AsleepOnes)
    ensures Total(WakeAll(ws), WorkLeft) <= Total(ws, WorkLeft)
    ensures forall t: T :: Total(WakeAll(ws), HoldersOf(t)) == Total(ws, HoldersOf(t))
    ensures Gone in WakeAll(ws) <==> Gone in ws
  {
    if ws != [] {
      WakeAllCounts(ws[1..]);
    }
  }

  lemma {:induction false} SomeAsleep<T>(ws: seq<Pc<T>>)
    ensures Total(ws, AsleepOnes) == 0 <==> Asleep !in ws
    ensures Total(ws, WorkLeft) == 0 <==> forall pc :: pc in ws ==> pc.Gone?
    ensures Total(ws, AwakeOnes) == 0 <==> Awake !in ws
  {
    if ws != [] {
      SomeAsleep(ws[1..]);
    }
  }

  lemma {:induction false} NewCounts<T(!new)>(n: nat)
    ensures Total(Started<T>(n), AsleepOnes) == 0
    ensures forall t: T :: Total(Started<T>(n), HoldersOf(t)) == 0
    ensures Gone !in Started<T>(n)
  {
    if n > 0 {
      NewCounts<T>(n - 1);
    }
  }

  // ---------- The invariant ----------

  /**
   Conservation and order: the accepted tasks are the taken ones followed by the queue, and each
   taken task is being run by one worker or has been run, as often as it was taken.
   */
  ghost predicate QueueOk<T(!new)>(p: Pool<T>) {
    && p.taken + p.shared.tasks == p.accepted
    && |p.shared.tasks| <= p.shared.maxTasks
    && forall t: T :: multiset(p.taken)[t] == p.done[t] + Total(p.workers, HoldersOf(t))
  }

  /** No wake-up is lost, before and after shutdown has begun. */
  ghost predicate WakeOk<T>(p: Pool<T>) {
    && (!p.shared.stopping ==>
          && Gone !in p.workers && !p.all
          && (Asleep !in p.workers || |p.shared.tasks| <= p.ones + Total(p.workers, AwakeOnes)))
    && (p.shared.stopping && Asleep in p.workers ==> p.all)
    && (Gone in p.workers ==> p.shared.tasks == [])
  }

  lemma MoveMembers<T>(ws: seq<Pc<T>>, w: nat, pc: Pc<T>)
    requires w < |ws|
    ensures forall x :: x in ws[w := pc] ==> x in ws || x == pc
    ensures Asleep in ws && ws[w] != Asleep ==> Asleep in ws[w := pc]
  {
    if Asleep in ws && ws[w] != Asleep {
      var i :| 0 <= i < |ws| && ws[i] == Asleep;
      assert ws[w := pc][i] == Asleep;
    }
  }

  lemma Holders<T(!new)>(ws: seq<Pc<T>>, w: nat, pc: Pc<T>)
    requires w < |ws|
    ensures forall t: T :: Total(ws[w := pc], HoldersOf(t)) ==
              Total(ws, HoldersOf(t)) - (if ws[w] == Busy(t) then 1 else 0) + (if pc == Busy(t) then 1 else 0)
  {
    forall t: T
      ensures Total(ws[w := pc], HoldersOf(t)) ==
              Total(ws, HoldersOf(t)) - (if ws[w] == Busy(t) then 1 else 0) + (if pc == Busy(t) then 1 else 0)
    {
      TotalMove(ws, w, pc, HoldersOf(t));
    }
  }

  lemma TakeStep<T(!new)>(p: Pool<T>, w: nat)
    requires QueueOk(p) && At(p, w, Awake)
    ensures QueueOk(Next(p, OnWorker(w)))
  {
    hide Total;
    var sh := p.shared;
    if sh.tasks == [] {
      Holders(p.workers, w, Asleep);
      Holders(p.workers, w, Gone);
    } else {
      Holders(p.workers, w, Busy(sh.tasks[0]));
      assert sh.tasks == [sh.tasks[0]] + sh.tasks[1..];
      assert p.taken + [sh.tasks[0]] + sh.tasks[1..] == p.taken + sh.tasks;
    }
  }

  lemma FinishStep<T(!new)>(p: Pool<T>, w: nat)
    requires QueueOk(p) && w < |p.workers| && p.workers[w].Busy?
    ensures QueueOk(Next(p, OnFinish(w)))
  {
    hide Total;
    Holders(p.workers, w, Awake);
  }

  lemma WakeOneStep<T(!new)>(p: Pool<T>, w: nat, ones: nat)
    requires QueueOk(p) && At(p, w, Asleep)
    ensures QueueOk(Move(p, w, Awake).(ones := ones))
  {
    hide Total;
    Holders(p.workers, w, Awake);
  }

  lemma WakeAllStep<T(!new)>(p: Pool<T>)
    requires QueueOk(p)
    ensures QueueOk(p.(workers := WakeAll(p.workers), all := false))
  {
    hide Total;
    WakeAllCounts(p.workers);
  }

  lemma EnqueueStep<T(!new)>(p: Pool<T>, task: Option<T>)
    requires QueueOk(p)
    ensures QueueOk(Next(p, OnEnqueue(task)))
  {
    hide Total;
  }

  lemma SignalStep<T(!new)>(p: Pool<T>, stopping: bool, ones: nat, all: bool)
    requires QueueOk(p)
    ensures QueueOk(p.(shared := p.shared.(stopping := stopping), ones := ones, all := all))
  {
    hide Total;
  }

  lemma QueueStep<T(!new)>(p: Pool<T>, e: Event<T>)
    requires QueueOk(p) && Enabled(p, e)
    ensures QueueOk(Next(p, e)) && |Next(p, e).workers| == |p.workers|
  {
    hide Total, QueueOk;
    match e
    case OnEnqueue(task) => EnqueueStep(p, task);
    case OnNotifyOne(w) =>
      if At(p, w, Asleep) {
        WakeOneStep(p, w, p.ones - 1);
      } else {
        SignalStep(p, p.shared.stopping, p.ones - 1, p.all);
      }
    case OnNotifyAll => WakeAllStep(p);
    case OnWorker(w) => TakeStep(p, w);
    case OnSpurious(w) => WakeOneStep(p, w, p.ones);
    case OnFinish(w) => FinishStep(p, w);
    case OnShutdown => SignalStep(p, true, p.ones, true);
  }

  lemma WakeStep<T(!new)>(p: Pool<T>, e: Event<T>)
    requires WakeOk(p) && Enabled(p, e)
    ensures WakeOk(Next(p, e))
  {
    var q := Next(p, e);
    match e
    case OnEnqueue(task) =>
    case OnNotifyOne(w) =>
      if At(p, w, Asleep) {
        TotalMove(p.workers, w, Awake, AwakeOnes);
        MoveMembers(p.workers, w, Awake);
      }
    case OnNotifyAll =>
      WakeAllCounts(p.workers);
      SomeAsleep(WakeAll(p.workers));
    case OnWorker(w) =>
      var pc := q.workers[w];
      TotalMove(p.workers, w, pc, AwakeOnes);
      MoveMembers(p.workers, w, pc);
    case OnSpurious(w) =>
      TotalMove(p.workers, w, Awake, AwakeOnes);
      MoveMembers(p.workers, w, Awake);
    case OnFinish(w) =>
      TotalMove(p.workers, w, Awake, AwakeOnes);
      MoveMembers(p.workers, w, Awake);
    case OnShutdown =>
  }

  lemma {:induction false} Safe<T(!new)>(n: nat, max: nat, events: seq<Event<T>>)
    ensures var p := Run(n, max, events); QueueOk(p) && WakeOk(p) && |p.workers| == n
  {
    hide QueueOk, WakeOk, Next, Enabled;
    if events == [] {
      NewIsSafe<T>(n, max);
    } else {
      var before, e := events[..|events| - 1], events[|events| - 1];
      Safe(n, max, before);
      if Enabled(Run(n, max, before), e) {
        QueueStep(Run(n, max, before), e);
        WakeStep(Run(n, max, before), e);
      }
    }
  }

  lemma NewIsSafe<T(!new)>(n: nat, max: nat)
    ensures QueueOk(NewPool<T>(n, max)) && WakeOk(NewPool<T>(n, max))
  {
    NewCounts<T>(n);
    SomeAsleep(Started<T>(n));
  }

  /**
   No lost wake-up, in every reachable state before shutdown: if a worker sleeps, the queued tasks
   are covered by undelivered notifications and awake workers; so while tasks are queued and there
   are workers, some worker is up or some notification is on its way. No worker has been lost.
   */
  lemma NoLostWakeup<T(!new)>(n: nat, max: nat, events: seq<Event<T>>, p: Pool<T>)
    requires p == Run(n, max, events) && !p.shared.stopping
    ensures Asleep !in p.workers || |p.shared.tasks| <= p.ones + Total(p.workers, AwakeOnes)
    ensures p.shared.tasks != [] && n > 0 ==> p.ones > 0 || exists pc :: pc in p.workers && (pc.Awake? || pc.Busy?)
    ensures forall pc :: pc in p.workers ==> !pc.Gone?
  {
    Safe(n, max, events);
    if p.shared.tasks != [] && n > 0 && p.ones == 0 {
      SomeAsleep(p.workers);
      assert p.workers[0] in p.workers;
    }
  }

  /** Tasks leave the queue in the order in which they were accepted, and the queue keeps its bound. */
  lemma QueueIsFifo<T(!new)>(n: nat, max: nat, events: seq<Event<T>>, p: Pool<T>)
    requires p == Run(n, max, events)
    ensures p.taken + p.shared.tasks == p.accepted
    ensures forall t: T :: multiset(p.taken)[t] == p.done[t] + Total(p.workers, HoldersOf(t))
    ensures |p.shared.tasks| <= p.shared.maxTasks
  {
    Safe(n, max, events);
  }

  // ---------- Acceptance ----------

  lemma StoppingStep<T(!new)>(p: Pool<T>, e: Event<T>)
    ensures Enabled(p, e) ==>
              && (Next(p, e).shared.stopping <==> p.shared.stopping || e == OnShutdown)
              && Next(p, e).shared.maxTasks == p.shared.maxTasks
    ensures e == OnShutdown ==> Enabled(p, e)
  {
    hide WakeAll;
  }

  /** The pool is stopping exactly if somebody has called shutdown, and its bound never changes. */
  lemma {:induction false} StoppingIff<T(!new)>(n: nat, max: nat, events: seq<Event<T>>)
    ensures Run(n, max, events).shared.stopping <==> OnShutdown in events
    ensures Run(n, max, events).shared.maxTasks == max
  {
    hide Next, Enabled;
    if events != [] {
      var before, e := events[..|events| - 1], events[|events| - 1];
      StoppingIff(n, max, before);
      StoppingStep(Run(n, max, before), e);
      assert events == before + [e];
    }
  }

  /**
   A task offered after any events is accepted, as the last one and with a notification, if and only if
   nobody has called shutdown and fewer than max tasks were accepted and not taken yet. Otherwise
   nothing changes at all.
   */
  lemma AcceptedIff<T(!new)>(n: nat, max: nat, events: seq<Event<T>>, task: Option<T>)
    ensures var p, q := Run(n, max, events), Run(n, max, events + [OnEnqueue(task)]);
            var room := OnShutdown !in events && |p.accepted| - |p.taken| < max;
            if task.Some? && room then
              && q.accepted == p.accepted + [task.value] && q.ones == p.ones + 1
              && q.taken == p.taken && q.workers == p.workers && q.done == p.done && q.all == p.all
            else q == p
  {
    hide QueueOk, WakeOk;
    StoppingIff(n, max, events);
    QueueIsFifo(n, max, events, Run(n, max, events));
    assert (events + [OnEnqueue(task)])[..|events|] == events;
  }

  // ---------- Shutdown ----------

  /** Bounds the steps the pool can still make once it is stopping. */
  ghost function Remaining<T>(p: Pool<T>): nat {
    2 * |p.shared.tasks| + Total(p.workers, WorkLeft) + p.ones + (if p.all then 1 else 0)
  }

  /** A caller's event that a stopping pool does not react to. */
  predicate Refused<T>(e: Event<T>) { e.OnEnqueue? || e.OnShutdown? }

  /** A step of the pool itself: not a caller's, and not left to chance. */
  predicate Deliberate<T>(e: Event<T>) { !Refused(e) && !e.OnSpurious? }

  /**
   Once stopping_ is set: callers change nothing any more, every other step that can happen makes
   Remaining smaller, and as long as a worker has not returned, a deliberate one is possible.
   */
  lemma ShutdownDrains<T(!new)>(n: nat, max: nat, events: seq<Event<T>>, p: Pool<T>)
    requires p == Run(n, max, events) && p.shared.stopping
    ensures forall e :: Enabled(p, e) && Refused(e) ==> Next(p, e) == p
    ensures forall e :: Enabled(p, e) && !Refused(e) ==>
              Remaining(Next(p, e)) < Remaining(p) && Next(p, e).shared.stopping
    ensures (exists pc :: pc in p.workers && !pc.Gone?) ==> exists e :: Enabled(p, e) && Deliberate(e)
  {
    Safe(n, max, events);
    forall e | Enabled(p, e) && !Refused(e)
      ensures Remaining(Next(p, e)) < Remaining(p) && Next(p, e).shared.stopping
    {
      RemainingFalls(p, e);
    }
    if pc :| pc in p.workers && !pc.Gone? {
      var w :| 0 <= w < |p.workers| && p.workers[w] == pc;
      var e := match pc {
        case Awake => OnWorker(w)
        case Asleep => OnNotifyAll
        case Busy(_) => OnFinish(w)
        case Gone => OnNotifyAll
      };
      assert Enabled(p, e) && Deliberate(e);
    }
  }

  lemma {:induction false} NothingInHand<T>(ws: seq<Pc<T>>, t: T)
    requires forall pc :: pc in ws ==> pc.Gone?
    ensures Total(ws, HoldersOf(t)) == 0
  {
    if ws != [] {
      assert ws[0] in ws;
      NothingInHand(ws[1..], t);
    }
  }

  lemma {:induction false} NobodyTakes<T(!new)>(max: nat, events: seq<Event<T>>)
    ensures Run(0, max, events).taken == []
  {
    hide QueueOk, WakeOk;
    if events != [] {
      NobodyTakes(max, events[..|events| - 1]);
      Safe(0, max, events[..|events| - 1]);
    }
  }

  /**
   When all workers have returned, every accepted task has been run exactly once, throwing or not,
   if and only if the pool had a worker at all or nothing was ever accepted.
   */
  lemma AllTasksRunIff<T(!new)>(n: nat, max: nat, events: seq<Event<T>>, p: Pool<T>)
    requires p == Run(n, max, events) && forall pc :: pc in p.workers ==> pc.Gone?
    ensures p.done == multiset(p.accepted) <==> n > 0 || p.accepted == []
  {
    Safe(n, max, events);
    forall t: T ensures multiset(p.taken)[t] == p.done[t] {
      NothingInHand(p.workers, t);
    }
    if n > 0 {
      assert p.workers[0] in p.workers;
      assert p.taken + [] == p.accepted;
    } else {
      NobodyTakes(max, events);
      if p.accepted != [] {
        assert p.accepted[0] in multiset(p.accepted);
      }
    }
  }

  lemma RemainingFalls<T(!new)>(p: Pool<T>, e: Event<T>)
    requires p.shared.stopping && Enabled(p, e) && !Refused(e)
    ensures Remaining(Next(p, e)) < Remaining(p) && Next(p, e).shared.stopping
  {
    match e
    case OnNotifyOne(w) =>
      if At(p, w, Asleep) { TotalMove(p.workers, w, Awake, WorkLeft); }
    case OnNotifyAll => WakeAllCounts(p.workers);
    case OnWorker(w) => TotalMove(p.workers, w, Next(p, e).workers[w], WorkLeft);
    case OnSpurious(w) => TotalMove(p.workers, w, Awake, WorkLeft);
    case OnFinish(w) => TotalMove(p.workers, w, Awake, WorkLeft);
  }
}
