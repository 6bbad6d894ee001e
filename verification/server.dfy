/**
 The whole server after start-up: the event loop, the workers of the thread pool, users_mutex_ and
 the database connections. Page handlers run with users_mutex_ held and take database guards one
 after the other, so nobody ever waits for a connection, and no interleaving deadlocks.
 */
module Server {
  import opened Wrappers
  import opened ThreadPools
  import Sql = SqlPools

  // ---------- What threads do, as far as others can notice ----------

  /** Lock and Unlock work on users_mutex_, Get and Put are the ends of a database guard. */
  datatype Prog =
    | Done
    | Lock(rest: Prog)
    | Unlock(rest: Prog)
    | Get(rest: Prog)
    | Put(rest: Prog)
    | Submit(task: Prog, refused: Prog, rest: Prog)  // enqueue, and what follows if the pool is full

  /** A locked section that takes no guard: a lookup, an accept, a time-out scan, a close_conn. */
  function Section(rest: Prog): Prog { Lock(Unlock(rest)) }

  function Guards(k: nat, rest: Prog): Prog {
    if k == 0 then rest else Get(Put(Guards(k - 1, rest)))
  }

  /** A read or pipeline task: it processes under the lock, with k guards, and may close afterwards. */
  function Task(k: nat, close: bool): Prog {
    Lock(Guards(k, Unlock(if close then Section(Done) else Done)))
  }

  /** What epoll_wait can come back with; the numbers and flags are the outside world's choice. */
  datatype Wakeup =
    | TimedOut(clients: nat)
    | Accepted
    | HungUp
    | Readable(known: bool, guards: nat, close: bool)
    | Writable(pipelined: bool, guards: nat, close: bool)

  function Sections(n: nat, rest: Prog): Prog {
    if n == 0 then rest else Section(Sections(n - 1, rest))
  }

  /** `handle_timeout`, `handle_accept`, `close_conn`, `handle_read` and `handle_write`. */
  function Handling(w: Wakeup, rest: Prog): Prog {
    match w
    case TimedOut(clients) => Sections(clients + 1, rest)
    case Accepted => Section(rest)
    case HungUp => Section(rest)
    case Readable(known, k, close) =>
      Section(if known then Submit(Task(k, close), Section(Done), rest) else rest)
    case Writable(pipelined, k, close) =>
      Section(if pipelined then Submit(Task(k, close), Section(Done), rest)
              else if close then Section(rest) else rest)
  }

  function Round(ws: seq<Wakeup>): Prog {
    if ws == [] then Done else Handling(ws[0], Round(ws[1..]))
  }

  function Append(p: Prog, q: Prog): Prog {
    match p
    case Done => q
    case Lock(rest) => Lock(Append(rest, q))
    case Unlock(rest) => Unlock(Append(rest, q))
    case Get(rest) => Get(Append(rest, q))
    case Put(rest) => Put(Append(rest, q))
    case Submit(task, refused, rest) => Submit(task, refused, Append(rest, q))
  }

  /** Locks and guards nest properly: guards only under the lock, one at a time, nothing kept. */
  predicate Nested(p: Prog, locked: bool, holding: bool) {
    match p
    case Done => !locked && !holding
    case Lock(rest) => !locked && !holding && Nested(rest, true, false)
    case Unlock(rest) => locked && !holding && Nested(rest, false, false)
    case Get(rest) => locked && !holding && Nested(rest, true, true)
    case Put(rest) => locked && holding && Nested(rest, true, false)
    case Submit(task, refused, rest) =>
      !locked && !holding && Nested(task, false, false) && Nested(refused, false, false)
      && Nested(rest, false, false)
  }

  lemma {:induction false} GuardsNest(k: nat, rest: Prog)
    requires Nested(rest, true, false)
    ensures Nested(Guards(k, rest), true, false)
  {
    if k > 0 {
      GuardsNest(k - 1, rest);
    }
  }

  lemma TaskNests(k: nat, close: bool)
    ensures Nested(Task(k, close), false, false)
  {
    GuardsNest(k, Unlock(if close then Section(Done) else Done));
  }

  lemma {:induction false} SectionsNest(n: nat, rest: Prog)
    requires Nested(rest, false, false)
    ensures Nested(Sections(n, rest), false, false)
  {
    if n > 0 {
      SectionsNest(n - 1, rest);
    }
  }

  lemma SectionNests(rest: Prog)
    requires Nested(rest, false, false)
    ensures Nested(Section(rest), false, false)
  {
  }

  lemma SubmitNests(k: nat, close: bool, rest: Prog)
    requires Nested(rest, false, false)
    ensures Nested(Submit(Task(k, close), Section(Done), rest), false, false)
  {
    TaskNests(k, close);
    SectionNests(Done);
  }

  /** Every round of the event loop, and every task it submits, nests properly. */
  lemma {:induction false} RoundNests(ws: seq<Wakeup>)
    ensures Nested(Round(ws), false, false)
  {
    if ws != [] {
      var rest := Round(ws[1..]);
      RoundNests(ws[1..]);
      SectionNests(rest);
      match ws[0]
      case TimedOut(clients) => SectionsNest(clients + 1, rest);
      case Accepted =>
      case HungUp =>
      case Readable(_, k, close) =>
        SubmitNests(k, close, rest);
        SectionNests(Submit(Task(k, close), Section(Done), rest));
      case Writable(_, k, close) =>
        SubmitNests(k, close, rest);
        SectionNests(Submit(Task(k, close), Section(Done), rest));
        SectionNests(Section(rest));
    }
  }

  lemma {:induction false} AppendNests(p: Prog, q: Prog, locked: bool, holding: bool)
    requires Nested(p, locked, holding) && Nested(q, false, false)
    ensures Nested(Append(p, q), locked, holding)
  {
    match p
    case Done =>
    case Lock(rest) => AppendNests(rest, q, true, false);
    case Unlock(rest) => AppendNests(rest, q, false, false);
    case Get(rest) => AppendNests(rest, q, true, true);
    case Put(rest) => AppendNests(rest, q, true, false);
    case Submit(task, refused, rest) => AppendNests(rest, q, false, false);
  }

  // ---------- The system ----------

  datatype Thread = EventLoop | Worker(index: nat)

  /** `todo[w]` is what is left of worker w's task, `loop` what is left of the event loop's round. */
  datatype System = System(pool: Pool<Prog>, todo: seq<Prog>, loop: Prog, owner: Option<Thread>,
                           sql: Sql.Shared<nat>, lent: map<Thread, nat>)

  datatype Action =
    | OfPool(event: Event<Prog>)
    | OfThread(thread: Thread)
    | EpollReturns(wakeups: seq<Wakeup>)

  function Repeat(n: nat): (ps: seq<Prog>)
    ensures |ps| == n && forall p :: p in ps ==> p == Done
  {
    if n == 0 then [] else [Done] + Repeat(n - 1)
  }

  /** Right after start-up: n workers, and an initialised connection pool with no guard alive. */
  function Started(n: nat, max: nat, conns: seq<nat>): System {
    System(NewPool(n, max), Repeat(n), Done, None, Sql.Shared(conns, true, false), map[])
  }

  function Remaining(s: System, t: Thread): Prog {
    match t
    case EventLoop => s.loop
    case Worker(w) => if w < |s.todo| then s.todo[w] else Done
  }

  function Proceed(s: System, t: Thread, p: Prog): System {
    match t
    case EventLoop => s.(loop := p)
    case Worker(w) => if w < |s.todo| then s.(todo := s.todo[w := p]) else s
  }

  /** A thread can take its next step; waiting for a mutex or a connection is not being able to. */
  ghost predicate CanStep(s: System, t: Thread) {
    match Remaining(s, t)
    case Done => false
    case Lock(_) => s.owner == None
    case Unlock(_) => s.owner == Some(t)
    case Get(_) => Sql.GetDecision(s.sql).Return?
    case Put(_) => t in s.lent
    case Submit(_, _, _) => true
  }

  ghost function ThreadStep(s: System, t: Thread): System
    requires CanStep(s, t)
  {
    match Remaining(s, t)
    case Lock(rest) => Proceed(s, t, rest).(owner := Some(t))
    case Unlock(rest) => Proceed(s, t, rest).(owner := None)
    case Get(rest) =>
      var d := Sql.GetDecision(s.sql);
      var q := Proceed(s, t, rest).(sql := Sql.AfterGet(s.sql));
      if d.conn.Some? then q.(lent := s.lent[t := d.conn.value]) else q
    case Put(rest) =>
      Proceed(s, t, rest).(sql := s.sql.(conns := s.sql.conns + [s.lent[t]]), lent := s.lent - {t})
    case Submit(task, refused, rest) =>
      if Accepts(s.pool.shared, Some(task)) then
        Proceed(s, t, rest).(pool := Next(s.pool, OnEnqueue(Some(task))))
      else Proceed(s, t, Append(refused, rest))
  }

  /** The pool's own steps: a task is finished when nothing is left of it, and nobody shuts down. */
  ghost predicate PoolCan(s: System, e: Event<Prog>) {
    && Enabled(s.pool, e) && !e.OnEnqueue? && !e.OnShutdown?
    && (e.OnFinish? ==> e.worker < |s.todo| && s.todo[e.worker] == Done)
  }

  ghost function PoolStep(s: System, e: Event<Prog>): System
    requires PoolCan(s, e)
  {
    var q := s.(pool := Next(s.pool, e));
    if e.OnWorker? && WorkerDecision(s.pool.shared).Take? && e.worker < |s.todo| then
      q.(todo := s.todo[e.worker := WorkerDecision(s.pool.shared).task])
    else q
  }

  ghost function Act(s: System, a: Action): System {
    match a
    case OfPool(e) => if PoolCan(s, e) then PoolStep(s, e) else s
    case OfThread(t) => if CanStep(s, t) then ThreadStep(s, t) else s
    case EpollReturns(ws) => if s.loop == Done then s.(loop := Round(ws)) else s
  }

  ghost function Run(n: nat, max: nat, conns: seq<nat>, actions: seq<Action>): System {
    if actions == [] then Started(n, max, conns)
    else Act(Run(n, max, conns, actions[..|actions| - 1]), actions[|actions| - 1])
  }

  // ---------- The invariant ----------

  ghost predicate Owns(s: System, t: Thread) { s.owner == Some(t) }

  ghost predicate Disciplined(s: System, t: Thread) {
    Nested(Remaining(s, t), Owns(s, t), t in s.lent)
  }

  ghost predicate PoolGood(s: System) {
    && WakeOk(s.pool) && !s.pool.shared.stopping
    && |s.todo| == |s.pool.workers|
    && (forall t :: t in s.pool.shared.tasks ==> Nested(t, false, false))
    && (forall w :: 0 <= w < |s.todo| && !s.pool.workers[w].Busy? ==> s.todo[w] == Done)
  }

  ghost predicate Good(s: System, total: nat) {
    && PoolGood(s)
    && (forall t: Thread :: Disciplined(s, t))
    && (forall t: Thread :: t in s.lent ==> Owns(s, t))
    && !s.sql.stopping && |s.sql.conns| + |s.lent| == total
  }

  lemma OneLent(s: System)
    requires forall t: Thread :: t in s.lent ==> Owns(s, t)
    ensures |s.lent| <= 1
  {
    if s.lent != map[] {
      var t :| t in s.lent;
      assert s.lent.Keys == {t};
    }
  }

  lemma OthersUnmoved(s: System, t: Thread, p: Prog)
    ensures forall u: Thread :: u != t ==> Remaining(Proceed(s, t, p), u) == Remaining(s, u)
    ensures Remaining(s, t) != Done ==> Remaining(Proceed(s, t, p), t) == p
  {
  }

  lemma BusyWhileWorking(s: System, w: nat)
    requires PoolGood(s) && Remaining(s, Worker(w)) != Done
    ensures w < |s.pool.workers| && s.pool.workers[w].Busy?
  {
  }

  lemma ThreadKeepsPool(s: System, t: Thread)
    requires PoolGood(s) && Disciplined(s, t) && CanStep(s, t)
    ensures PoolGood(ThreadStep(s, t))
  {
    hide WakeOk, Nested;
    if t.Worker? {
      BusyWhileWorking(s, t.index);
    }
    if Remaining(s, t).Submit? && Accepts(s.pool.shared, Some(Remaining(s, t).task)) {
      var task := Remaining(s, t).task;
      WakeStep(s.pool, OnEnqueue(Some(task)));
      SubmitIsNested(s, t);
    }
  }

  lemma SubmitIsNested(s: System, t: Thread)
    requires Disciplined(s, t) && Remaining(s, t).Submit?
    ensures Nested(Remaining(s, t).task, false, false)
  {
  }

  lemma ThreadKeepsDiscipline(s: System, t: Thread, u: Thread, total: nat)
    requires Good(s, total) && CanStep(s, t)
    ensures Disciplined(ThreadStep(s, t), u)
  {
    hide PoolGood, Next, Sql.AfterGet;
    assert Disciplined(s, t) && Disciplined(s, u);
    var p := Remaining(s, t);
    match p {
      case Lock(rest) => OthersUnmoved(s, t, rest);
      case Unlock(rest) => OthersUnmoved(s, t, rest);
      case Get(rest) => OthersUnmoved(s, t, rest);
      case Put(rest) => OthersUnmoved(s, t, rest);
      case Submit(task, refused, rest) =>
        OthersUnmoved(s, t, rest);
        OthersUnmoved(s, t, Append(refused, rest));
        AppendNests(refused, rest, false, false);
    }
  }

  lemma ThreadKeepsConns(s: System, t: Thread, total: nat)
    requires Good(s, total) && CanStep(s, t)
    ensures var q := ThreadStep(s, t);
            && (forall u: Thread :: u in q.lent ==> Owns(q, u))
            && !q.sql.stopping && |q.sql.conns| + |q.lent| == total
  {
    hide PoolGood, Next;
    assert Disciplined(s, t);
  }

  lemma PoolKeepsGood(s: System, e: Event<Prog>, total: nat)
    requires Good(s, total) && PoolCan(s, e)
    ensures Good(PoolStep(s, e), total)
  {
    var q := PoolStep(s, e);
    hide WakeOk, Nested;
    WakeStep(s.pool, e);
    PoolKeepsPool(s, e);
    forall t: Thread ensures Disciplined(q, t) {
      assert Disciplined(s, t);
      PoolKeepsDiscipline(s, e, t, total);
    }
  }

  lemma PoolKeepsPool(s: System, e: Event<Prog>)
    requires PoolGood(s) && PoolCan(s, e)
    ensures PoolGood(PoolStep(s, e))
  {
    hide WakeOk, Nested;
    WakeStep(s.pool, e);
    if e.OnNotifyAll? {
      WakeAllBusy(s.pool.workers);
    }
  }

  lemma {:induction false} WakeAllBusy<T>(ws: seq<Pc<T>>)
    ensures forall w :: 0 <= w < |ws| ==> (WakeAll(ws)[w].Busy? <==> ws[w].Busy?)
  {
    if ws != [] {
      WakeAllBusy(ws[1..]);
    }
  }

  lemma PoolKeepsDiscipline(s: System, e: Event<Prog>, t: Thread, total: nat)
    requires Good(s, total) && PoolCan(s, e)
    ensures Disciplined(PoolStep(s, e), t)
  {
    hide WakeOk, Next;
    assert Disciplined(s, t);
    if e.OnWorker? && WorkerDecision(s.pool.shared).Take? && t == Worker(e.worker) {
      assert s.pool.shared.tasks[0] in s.pool.shared.tasks;
    }
  }

  lemma ActKeepsGood(s: System, a: Action, total: nat)
    requires Good(s, total)
    ensures Good(Act(s, a), total)
  {
    hide PoolGood, PoolStep, ThreadStep, Disciplined;
    match a
    case OfPool(e) =>
      if PoolCan(s, e) { PoolKeepsGood(s, e, total); }
    case OfThread(t) =>
      if CanStep(s, t) {
        assert Disciplined(s, t);
        ThreadKeepsPool(s, t);
        ThreadKeepsConns(s, t, total);
        forall u: Thread ensures Disciplined(ThreadStep(s, t), u) {
          ThreadKeepsDiscipline(s, t, u, total);
        }
      }
    case EpollReturns(ws) =>
      if s.loop == Done { EpollKeepsGood(s, ws, total); }
  }

  lemma EpollKeepsGood(s: System, ws: seq<Wakeup>, total: nat)
    requires Good(s, total) && s.loop == Done
    ensures Good(s.(loop := Round(ws)), total)
  {
    hide WakeOk, Round;
    RoundNests(ws);
    var q := s.(loop := Round(ws));
    forall t: Thread ensures Disciplined(q, t) {
      assert Disciplined(s, t);
    }
  }

  lemma {:induction false} StaysGood(n: nat, max: nat, conns: seq<nat>, actions: seq<Action>)
    ensures Good(Run(n, max, conns, actions), |conns|)
    ensures |Run(n, max, conns, actions).pool.workers| == n
  {
    hide Good, Act;
    if actions == [] {
      StartIsGood(n, max, conns);
    } else {
      var before := actions[..|actions| - 1];
      StaysGood(n, max, conns, before);
      ActKeepsGood(Run(n, max, conns, before), actions[|actions| - 1], |conns|);
      ActKeepsWorkers(Run(n, max, conns, before), actions[|actions| - 1]);
    }
  }

  lemma StartIsGood(n: nat, max: nat, conns: seq<nat>)
    ensures Good(Started(n, max, conns), |conns|)
  {
    NewIsSafe<Prog>(n, max);
    var s := Started(n, max, conns);
    forall t: Thread ensures Disciplined(s, t) {
      if t.Worker? && t.index < n {
        assert s.todo[t.index] in s.todo;
      }
    }
    forall w | 0 <= w < n ensures s.todo[w] == Done {
      assert s.todo[w] in s.todo;
    }
  }

  lemma ActKeepsWorkers(s: System, a: Action)
    ensures |Act(s, a).pool.workers| == |s.pool.workers|
  {
  }

  // ---------- No deadlock ----------

  lemma NoneLent(s: System, t: Thread)
    requires forall u: Thread :: u in s.lent ==> Owns(s, u)
    requires t !in s.lent && (s.owner == None || s.owner == Some(t))
    ensures s.lent == map[]
  {
    assert forall u: Thread :: u !in s.lent;
  }

  /**
   Nobody ever waits for a database connection: at most one is lent at any time, and whoever is
   about to take one finds one, as long as the pool was opened with at least one.
   */
  lemma GetNeverWaits(n: nat, max: nat, conns: seq<nat>, actions: seq<Action>, t: Thread)
    requires conns != []
    ensures var s := Run(n, max, conns, actions);
            |s.lent| <= 1 && (Remaining(s, t).Get? ==> CanStep(s, t) && s.lent == map[])
  {
    hide Run, PoolGood;
    var s := Run(n, max, conns, actions);
    StaysGood(n, max, conns, actions);
    OneLent(s);
    assert Disciplined(s, t);
    if Remaining(s, t).Get? {
      NoneLent(s, t);
    }
  }

  /** Nothing to do: the loop in epoll_wait, the workers asleep, nothing queued, locked or lent. */
  ghost predicate AllIdle(s: System) {
    && s.loop == Done && s.owner == None && s.lent == map[]
    && s.pool.shared.tasks == [] && s.pool.ones == 0
    && forall pc :: pc in s.pool.workers ==> pc == Asleep
  }

  /** Something the server can do by itself: neither the outside world nor a spurious wake-up. */
  ghost predicate CanAct(s: System, a: Action) {
    match a
    case OfPool(e) => PoolCan(s, e) && !e.OnSpurious?
    case OfThread(t) => CanStep(s, t)
    case EpollReturns(_) => false
  }

  /** The thread that has the mutex can always go on. */
  lemma OwnerCanStep(s: System, total: nat)
    requires Good(s, total) && total > 0 && s.owner.Some?
    ensures CanStep(s, s.owner.value)
  {
    hide PoolGood;
    var t := s.owner.value;
    assert Disciplined(s, t);
    if Remaining(s, t).Get? {
      NoneLent(s, t);
    }
  }

  /** With the mutex free, a thread with anything left to do can go on. */
  lemma OthersCanStep(s: System, total: nat, t: Thread)
    requires Good(s, total) && s.owner == None && Remaining(s, t) != Done
    ensures CanStep(s, t)
  {
    hide PoolGood;
    assert Disciplined(s, t);
  }

  /** With no thread inside a task or round, the pool can go on unless everything is idle. */
  lemma PoolCanStep(s: System, total: nat) returns (e: Event<Prog>)
    requires Good(s, total) && s.owner == None && |s.pool.workers| > 0
    requires forall t: Thread :: Remaining(s, t) == Done
    ensures AllIdle(s) || CanAct(s, OfPool(e))
  {
    e := OnNotifyAll;
    assert forall u: Thread :: u !in s.lent;
    var p := s.pool;
    assert s.loop == Remaining(s, EventLoop);
    if w :| 0 <= w < |p.workers| && p.workers[w].Busy? {
      assert Remaining(s, Worker(w)) == Done;
      e := OnFinish(w);
    } else if w :| 0 <= w < |p.workers| && p.workers[w].Awake? {
      e := OnWorker(w);
    } else {
      forall pc | pc in p.workers ensures pc == Asleep {
        var w :| 0 <= w < |p.workers| && p.workers[w] == pc;
      }
      if p.ones > 0 {
        assert At(p, 0, Asleep);
        e := OnNotifyOne(0);
      } else {
        SomeAsleep(p.workers);
        assert p.workers[0] == Asleep && p.workers[0] in p.workers;
      }
    }
  }

  /**
   In every reachable state of a server with at least one worker and one connection, some thread
   can take a step, or all threads are idle: there is no deadlock, whatever the page handlers do
   with guards, and however clients, time-outs and the scheduler behave.
   */
  lemma NoDeadlock(n: nat, max: nat, conns: seq<nat>, actions: seq<Action>)
    requires n > 0 && conns != []
    ensures var s := Run(n, max, conns, actions); AllIdle(s) || exists a :: CanAct(s, a)
  {
    hide Run, Good, CanStep;
    var s := Run(n, max, conns, actions);
    StaysGood(n, max, conns, actions);
    if s.owner.Some? {
      OwnerCanStep(s, |conns|);
      assert CanAct(s, OfThread(s.owner.value));
    } else if t: Thread :| Remaining(s, t) != Done {
      OthersCanStep(s, |conns|, t);
      assert CanAct(s, OfThread(t));
    } else {
      var e := PoolCanStep(s, |conns|);
      if !AllIdle(s) {
        assert CanAct(s, OfPool(e));
      }
    }
  }

  // ---------- No livelock ----------

  function Size(p: Prog): nat {
    match p
    case Done => 0
    case Lock(rest) => 1 + Size(rest)
    case Unlock(rest) => 1 + Size(rest)
    case Get(rest) => 1 + Size(rest)
    case Put(rest) => 1 + Size(rest)
    case Submit(task, refused, rest) => 5 + Size(task) + Size(refused) + Size(rest)
  }

  function Sizes(ps: seq<Prog>): nat {
    if ps == [] then 0 else Size(ps[0]) + Sizes(ps[1..])
  }

  lemma {:induction false} SizesUpdate(ps: seq<Prog>, i: nat, p: Prog)
    requires i < |ps|
    ensures Sizes(ps[i := p]) + Size(ps[i]) == Sizes(ps) + Size(p)
  {
    if i == 0 {
      assert ps[0 := p][1..] == ps[1..];
    } else {
      assert ps[i := p][1..] == ps[1..][i - 1 := p];
      SizesUpdate(ps[1..], i - 1, p);
    }
  }

  lemma {:induction false} SizesAppend(ps: seq<Prog>, p: Prog)
    ensures Sizes(ps + [p]) == Sizes(ps) + Size(p)
  {
    if ps == [] {
      assert ps + [p] == [p] && Sizes([p][1..]) == 0;
    } else {
      assert (ps + [p])[1..] == ps[1..] + [p];
      SizesAppend(ps[1..], p);
    }
  }

  lemma {:induction false} SizeAppend(p: Prog, q: Prog)
    ensures Size(Append(p, q)) == Size(p) + Size(q)
  {
    match p
    case Done =>
    case Lock(rest) => SizeAppend(rest, q);
    case Unlock(rest) => SizeAppend(rest, q);
    case Get(rest) => SizeAppend(rest, q);
    case Put(rest) => SizeAppend(rest, q);
    case Submit(_, _, rest) => SizeAppend(rest, q);
  }

  /** All the work in the server: what threads have begun, what is queued, what is on its way. */
  ghost function Work(s: System): nat {
    Size(s.loop) + Sizes(s.todo) + Sizes(s.pool.shared.tasks) + 2 * |s.pool.shared.tasks|
    + 2 * s.pool.ones + Total(s.pool.workers, Unsettled)
  }

  lemma ProceedWork(s: System, t: Thread, p: Prog)
    requires Remaining(s, t) != Done
    ensures Work(Proceed(s, t, p)) + Size(Remaining(s, t)) == Work(s) + Size(p)
  {
    if t.Worker? {
      SizesUpdate(s.todo, t.index, p);
    }
  }

  lemma ThreadWorkFalls(s: System, t: Thread)
    requires CanStep(s, t)
    ensures Work(ThreadStep(s, t)) < Work(s)
  {
    hide Sizes;
    match Remaining(s, t)
    case Lock(rest) => ProceedWork(s, t, rest);
    case Unlock(rest) => ProceedWork(s, t, rest);
    case Get(rest) => ProceedWork(s, t, rest);
    case Put(rest) => ProceedWork(s, t, rest);
    case Submit(_, _, _) => SubmitWorkFalls(s, t);
  }

  lemma SubmitWorkFalls(s: System, t: Thread)
    requires Remaining(s, t).Submit?
    ensures Work(ThreadStep(s, t)) < Work(s)
  {
    hide Sizes, Total, Append;
    var p := Remaining(s, t);
    if Accepts(s.pool.shared, Some(p.task)) {
      ProceedWork(s, t, p.rest);
      SizesAppend(s.pool.shared.tasks, p.task);
    } else {
      ProceedWork(s, t, Append(p.refused, p.rest));
      SizeAppend(p.refused, p.rest);
    }
  }

  lemma PoolWorkFalls(s: System, e: Event<Prog>)
    requires PoolGood(s) && PoolCan(s, e) && !e.OnSpurious?
    ensures Work(PoolStep(s, e)) < Work(s)
  {
    hide Sizes, Total, Nested;
    var p := s.pool;
    match e
    case OnNotifyOne(w) =>
      if At(p, w, Asleep) { TotalMove(p.workers, w, Awake, Unsettled); }
    case OnWorker(w) =>
      TotalMove(p.workers, w, Next(p, e).workers[w], Unsettled);
      if p.shared.tasks != [] { TakeWork(s, w); }
    case OnFinish(w) => TotalMove(p.workers, w, Awake, Unsettled);
  }

  lemma TakeWork(s: System, w: nat)
    requires w < |s.todo| && s.todo[w] == Done && s.pool.shared.tasks != []
    ensures var ts := s.pool.shared.tasks;
            Sizes(s.todo[w := ts[0]]) + Sizes(ts[1..]) == Sizes(s.todo) + Sizes(ts)
  {
    SizesUpdate(s.todo, w, s.pool.shared.tasks[0]);
  }

  /**
   Everything the server does by itself uses up work that only epoll_wait brings in: left alone, and
   but for spurious wake-ups, it comes to rest after finitely many steps, with all threads idle.
   */
  lemma ComesToRest(n: nat, max: nat, conns: seq<nat>, actions: seq<Action>, a: Action)
    requires CanAct(Run(n, max, conns, actions), a)
    ensures Work(Act(Run(n, max, conns, actions), a)) < Work(Run(n, max, conns, actions))
  {
    hide Run, Work, PoolGood;
    StaysGood(n, max, conns, actions);
    match a
    case OfPool(e) => PoolWorkFalls(Run(n, max, conns, actions), e);
    case OfThread(t) => ThreadWorkFalls(Run(n, max, conns, actions), t);
  }
}
