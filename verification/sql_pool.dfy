/**
 The database connection pool and its guards: a queue of connections under a mutex, callers waiting
 on a condition variable, and a shutdown that closes. The class holds the locked sections; the state
 machine interleaves them with notifications, spurious wake-ups and the closing of connections.
 */
module SqlPools {
  import opened Wrappers

  /** What the mutex protects. */
  datatype Shared<C> = Shared(conns: seq<C>, inited: bool, stopping: bool)

  /** The connections the attempts i .. n of init bring before the first that fails. */
  function Connected<C>(attempt: nat -> Option<C>, i: nat, n: nat): (cs: seq<C>)
    requires i <= n
    ensures |cs| <= n - i
    decreases n - i
  {
    if i == n || attempt(i).None? then [] else [attempt(i).value] + Connected(attempt, i + 1, n)
  }

  /** `init` when it has `added` connections to add, and all of them (ok) or not. */
  function Inited<C>(sh: Shared<C>, added: seq<C>, ok: bool): Shared<C> {
    if sh.inited then sh
    else if ok then Shared(sh.conns + added, true, false)
    else sh.(conns := sh.conns + added)
  }

  /** What get_connection does holding the mutex: wait, or return a connection or null. */
  datatype Decision<C> = Wait | Return(conn: Option<C>)

  function GetDecision<C>(sh: Shared<C>): Decision<C> {
    if sh.stopping then Return(None)
    else if sh.conns == [] then Wait
    else Return(Some(sh.conns[0]))
  }

  function AfterGet<C>(sh: Shared<C>): Shared<C> {
    if GetDecision(sh).Return? && GetDecision(sh).conn.Some? then sh.(conns := sh.conns[1..]) else sh
  }

  /** A connection comes back: to the end of the queue, unless it is to be closed. */
  function Released<C>(sh: Shared<C>, conn: C): Shared<C> {
    if sh.stopping then sh else sh.(conns := sh.conns + [conn])
  }

  function ShutDown<C>(sh: Shared<C>): Shared<C> {
    if sh.stopping then sh else Shared([], false, true)
  }

  class SqlConnectionPool<C(==)> {
    var conns: seq<C>
    var inited: bool
    var stopping: bool

    function State(): Shared<C>
      reads this
    {
      Shared(conns, inited, stopping)
    }

    constructor ()
      ensures State() == Shared([], false, false)
    {
      conns, inited, stopping := [], false, false;
    }

    /** `attempt(i)` is the outcome of opening the i-th connection. No waiter is notified. */
    method Init(poolSize: int, attempt: nat -> Option<C>) returns (ok: bool)
      modifies this
      ensures poolSize <= 0 ==> !ok && State() == old(State())
      ensures poolSize > 0 ==>
                var added := Connected(attempt, 0, poolSize);
                && ok == (old(inited) || |added| == poolSize)
                && State() == Inited(old(State()), added, ok)
    {
      if poolSize <= 0 {
        return false;
      }
      if inited {
        return true;
      }
      ghost var all := Connected(attempt, 0, poolSize);
      var i := 0;
      while i < poolSize
        invariant 0 <= i <= poolSize && i <= |all|
        invariant conns == old(conns) + all[..i] && all[i..] == Connected(attempt, i, poolSize)
        invariant !inited && stopping == old(stopping)
      {
        var c := attempt(i);
        if c.None? {
          assert all[..i] == all;
          return false;
        }
        assert all[i] == all[i..][0] && all[i..][1..] == all[i + 1..];
        assert all[..i + 1] == all[..i] + [c.value];
        conns := conns + [c.value];
        i := i + 1;
      }
      assert all[..i] == all;
      inited := true;
      stopping := false;
      return true;
    }

    /** The locked section of get_connection from one evaluation of the wait predicate on. */
    method GetSection() returns (d: Decision<C>)
      modifies this`conns
      ensures d == GetDecision(old(State())) && State() == AfterGet(old(State()))
    {
      if !(stopping || conns != []) {
        return Wait;
      }
      if stopping || conns == [] {
        return Return(None);
      }
      var conn := conns[0];
      conns := conns[1..];
      return Return(Some(conn));
    }

    /** The locked section of release_connection; it closes the connection or goes on to notify_one. */
    method ReleaseSection(conn: C) returns (close: bool)
      modifies this`conns
      ensures close == stopping
      ensures State() == Released(old(State()), conn)
    {
      if stopping {
        return true;
      }
      conns := conns + [conn];
      return false;
    }

    /** On the first call, hands out the connections to be closed and goes on to notify_all. */
    method ShutdownSection() returns (first: bool, toClose: seq<C>)
      modifies this
      ensures first == !old(stopping)
      ensures toClose == if first then old(conns) else []
      ensures State() == ShutDown(old(State()))
    {
      if stopping {
        return false, [];
      }
      stopping := true;
      inited := false;
      toClose := conns;
      conns := [];
      return true, toClose;
    }
  }

  // ---------- Interleavings ----------

  /** A guard: waiting in its constructor, holding what it got, or gone. */
  datatype Guard<C> = Calling | Asleep | Holding(conn: Option<C>) | Ended

  /**
   `ones` and `alls` count notifications not yet delivered. `everOpened` and `closed` are history, and so
   are `queued`, the connections put into the queue, and `dequeued`, those taken out of it.
   */
  datatype Pool<C> = Pool(shared: Shared<C>, guards: seq<Guard<C>>, ones: nat, alls: nat,
                          closing: seq<C>, everOpened: seq<C>, closed: seq<C>, queued: seq<C>, dequeued: seq<C>)

  datatype Event<C> =
    | OnInit(added: seq<C>, ok: bool)
    | OnGuard               // a new guard begins its constructor
    | OnGet(guard: nat)     // a calling guard gets the mutex
    | OnSpurious(guard: nat)
    | OnEnd(guard: nat)     // the guard's destructor
    | OnNotifyOne(guard: nat)
    | OnNotifyAll
    | OnShutdown
    | OnClose               // shutdown closes the next connection it took

  function NewPool<C>(): Pool<C> { Pool(Shared([], false, false), [], 0, 0, [], [], [], [], []) }

  ghost predicate At<C>(p: Pool<C>, g: nat, s: Guard<C>) { g < |p.guards| && p.guards[g] == s }

  /** New handles, different from each other and from all before. */
  ghost predicate Fresh<C(!new)>(p: Pool<C>, added: seq<C>) {
    forall c: C :: multiset(p.everOpened)[c] + multiset(added)[c] <= 1
  }

  ghost predicate Enabled<C(!new)>(p: Pool<C>, e: Event<C>) {
    match e
    case OnInit(added, ok) => if p.shared.inited then added == [] else Fresh(p, added) && (ok ==> added != [])
    case OnGuard => true
    case OnGet(g) => At(p, g, Calling)
    case OnSpurious(g) => At(p, g, Asleep)
    case OnEnd(g) => g < |p.guards| && p.guards[g].Holding?
    case OnNotifyOne(g) => p.ones > 0 && (At(p, g, Asleep) || Asleep !in p.guards)
    case OnNotifyAll => p.alls > 0
    case OnShutdown => true
    case OnClose => p.closing != []
  }

  function WakeAll<C>(gs: seq<Guard<C>>): (r: seq<Guard<C>>)
    ensures |r| == |gs|
  {
    if gs == [] then [] else [if gs[0].Asleep? then Calling else gs[0]] + WakeAll(gs[1..])
  }

  ghost function Move<C>(p: Pool<C>, g: nat, s: Guard<C>): Pool<C>
    requires g < |p.guards|
  {
    p.(guards := p.guards[g := s])
  }

  ghost function Next<C(!new)>(p: Pool<C>, e: Event<C>): Pool<C>
    requires Enabled(p, e)
  {
    var sh := p.shared;
    match e
    case OnInit(added, ok) =>
      p.(shared := Inited(sh, added, ok), everOpened := p.everOpened + added, queued := p.queued + added)
    case OnGuard => p.(guards := p.guards + [Calling])
    case OnGet(g) =>
      (match GetDecision(sh)
       case Wait => Move(p, g, Asleep)
       case Return(conn) =>
         Move(p, g, Holding(conn)).(shared := AfterGet(sh),
                                    dequeued := p.dequeued + if conn.Some? then [conn.value] else []))
    case OnSpurious(g) => Move(p, g, Calling)
    case OnEnd(g) =>
      var q := Move(p, g, Ended);
      (match p.guards[g].conn
       case None => q
       case Some(c) =>
         if sh.stopping then q.(closed := p.closed + [c])
         else q.(shared := Released(sh, c), ones := p.ones + 1, queued := p.queued + [c]))
    case OnNotifyOne(g) =>
      if At(p, g, Asleep) then Move(p, g, Calling).(ones := p.ones - 1) else p.(ones := p.ones - 1)
    case OnNotifyAll => p.(guards := WakeAll(p.guards), alls := p.alls - 1)
    case OnShutdown =>
      if sh.stopping then p
      else p.(shared := ShutDown(sh), alls := p.alls + 1, closing := p.closing + sh.conns,
              dequeued := p.dequeued + sh.conns)
    case OnClose => p.(closing := p.closing[1..], closed := p.closed + [p.closing[0]])
  }

  ghost function Run<C(!new)>(events: seq<Event<C>>): Pool<C> {
    if events == [] then NewPool()
    else
      var p, e := Run(events[..|events| - 1]), events[|events| - 1];
      if Enabled(p, e) then Next(p, e) else p
  }

  // ---------- Counting guards ----------

  datatype Kind<C> = Callers | Sleepers | HoldersOf(conn: C)

  ghost function Weight<C>(s: Guard<C>, k: Kind<C>): nat {
    match k
    case Callers => if s.Calling? then 1 else 0
    case Sleepers => if s.Asleep? then 1 else 0
    case HoldersOf(c) => if s == Holding(Some(c)) then 1 else 0
  }

  ghost function Total<C>(gs: seq<Guard<C>>, k: Kind<C>): nat {
    if gs == [] then 0 else Weight(gs[0], k) + Total(gs[1..], k)
  }

  lemma {:induction false} TotalMove<C>(gs: seq<Guard<C>>, g: nat, s: Guard<C>, k: Kind<C>)
    requires g < |gs|
    ensures Total(gs[g := s], k) + Weight(gs[g], k) == Total(gs, k) + Weight(s, k)
  {
    if g == 0 {
      assert gs[0 := s][1..] == gs[1..];
    } else {
      assert gs[g := s][1..] == gs[1..][g - 1 := s];
      TotalMove(gs[1..], g - 1, s, k);
    }
  }

  lemma {:induction false} TotalAppend<C>(gs: seq<Guard<C>>, s: Guard<C>, k: Kind<C>)
    ensures Total(gs + [s], k) == Total(gs, k) + Weight(s, k)
  {
    if gs == [] {
      assert gs + [s] == [s] && Total([s][1..], k) == 0;
    } else {
      assert (gs + [s])[1..] == gs[1..] + [s];
      TotalAppend(gs[1..], s, k);
    }
  }

  lemma {:induction false} WakeAllCounts<C(!new)>(gs: seq<Guard<C>>)
    ensures Total(WakeAll(gs), Sleepers) == 0
    ensures forall c: C :: Total(WakeAll(gs), HoldersOf(c)) == Total(gs, HoldersOf(c))
  {
    if gs != [] {
      WakeAllCounts(gs[1..]);
    }
  }

  lemma {:induction false} SomeAsleep<C>(gs: seq<Guard<C>>)
    ensures Total(gs, Sleepers) == 0 <==> Asleep !in gs
  {
    if gs != [] {
      SomeAsleep(gs[1..]);
    }
  }

  // ---------- Conservation ----------

  /** In how many places a connection is: idle, lent to guards, waiting to be closed, closed. */
  ghost function Places<C>(p: Pool<C>, c: C): nat {
    multiset(p.shared.conns)[c] + Total(p.guards, HoldersOf(c)) + multiset(p.closing)[c] + multiset(p.closed)[c]
  }

  ghost predicate Conserved<C(!new)>(p: Pool<C>) {
    forall c: C :: Places(p, c) == multiset(p.everOpened)[c] <= 1
  }

  lemma CountRest<C>(s: seq<C>, c: C)
    requires s != []
    ensures multiset(s)[c] == multiset(s[1..])[c] + (if s[0] == c then 1 else 0)
  {
    assert s == [s[0]] + s[1..];
  }

  lemma CountConcat<C>(a: seq<C>, b: seq<C>, c: C)
    ensures multiset(a + b)[c] == multiset(a)[c] + multiset(b)[c]
  {
  }

  lemma CountAppend<C>(s: seq<C>, x: C, c: C)
    ensures multiset(s + [x])[c] == multiset(s)[c] + (if x == c then 1 else 0)
  {
  }

  lemma GetPlaces<C(!new)>(p: Pool<C>, g: nat, c: C)
    requires At(p, g, Calling)
    ensures Places(Next(p, OnGet(g)), c) == Places(p, c)
  {
    hide Total;
    TotalMove(p.guards, g, Next(p, OnGet(g)).guards[g], HoldersOf(c));
    if !p.shared.stopping && p.shared.conns != [] {
      CountRest(p.shared.conns, c);
    }
  }

  lemma EndPlaces<C(!new)>(p: Pool<C>, g: nat, c: C)
    requires g < |p.guards| && p.guards[g].Holding?
    ensures Places(Next(p, OnEnd(g)), c) == Places(p, c)
  {
    hide Total;
    TotalMove(p.guards, g, Ended, HoldersOf(c));
    if p.guards[g].conn.Some? {
      CountAppend(p.closed, p.guards[g].conn.value, c);
      CountAppend(p.shared.conns, p.guards[g].conn.value, c);
    }
  }

  lemma WakePlaces<C(!new)>(p: Pool<C>, g: nat, c: C)
    requires At(p, g, Asleep)
    ensures Places(Move(p, g, Calling), c) == Places(p, c)
  {
    hide Total;
    TotalMove(p.guards, g, Calling, HoldersOf(c));
  }

  lemma ClosePlaces<C(!new)>(p: Pool<C>, c: C)
    requires p.closing != []
    ensures Places(Next(p, OnClose), c) == Places(p, c)
  {
    hide Total;
    CountRest(p.closing, c);
    CountAppend(p.closed, p.closing[0], c);
  }

  lemma InitPlaces<C(!new)>(p: Pool<C>, added: seq<C>, ok: bool, c: C)
    requires Enabled(p, OnInit(added, ok))
    ensures Places(Next(p, OnInit(added, ok)), c) == Places(p, c) + multiset(added)[c]
    ensures multiset(p.everOpened + added)[c] == multiset(p.everOpened)[c] + multiset(added)[c]
  {
    hide Total;
    CountConcat(p.everOpened, added, c);
    CountConcat(p.shared.conns, added, c);
  }

  lemma ShutdownPlaces<C(!new)>(p: Pool<C>, c: C)
    ensures Places(Next(p, OnShutdown), c) == Places(p, c)
  {
    hide Total;
    CountConcat(p.closing, p.shared.conns, c);
  }

  lemma PlacesStep<C(!new)>(p: Pool<C>, e: Event<C>, c: C)
    requires Enabled(p, e) && Places(p, c) == multiset(p.everOpened)[c]
    ensures Places(Next(p, e), c) == multiset(Next(p, e).everOpened)[c]
  {
    hide Total;
    match e
    case OnInit(added, ok) => InitPlaces(p, added, ok, c);
    case OnGuard => TotalAppend(p.guards, Calling, HoldersOf(c));
    case OnGet(g) => GetPlaces(p, g, c);
    case OnSpurious(g) => WakePlaces(p, g, c);
    case OnEnd(g) => EndPlaces(p, g, c);
    case OnNotifyOne(g) =>
      if At(p, g, Asleep) { WakePlaces(p, g, c); }
    case OnNotifyAll => WakeAllCounts(p.guards);
    case OnShutdown => ShutdownPlaces(p, c);
    case OnClose => ClosePlaces(p, c);
  }

  /** Every connection ever opened is, at all times, in exactly one place, under every interleaving. */
  lemma {:induction false} ConnectionsAreConserved<C(!new)>(events: seq<Event<C>>)
    ensures Conserved(Run(events))
  {
    hide Places, Next, Enabled;
    if events == [] {
      NewIsConserved<C>();
    } else {
      var p, e := Run(events[..|events| - 1]), events[|events| - 1];
      ConnectionsAreConserved(events[..|events| - 1]);
      if Enabled(p, e) {
        forall c: C ensures Places(Next(p, e), c) == multiset(Next(p, e).everOpened)[c] <= 1 {
          PlacesStep(p, e, c);
          OpenedOnce(p, e, c);
        }
      }
    }
  }

  lemma NewIsConserved<C(!new)>()
    ensures Conserved(NewPool<C>())
  {
  }

  lemma OpenedOnce<C(!new)>(p: Pool<C>, e: Event<C>, c: C)
    requires Enabled(p, e) && multiset(p.everOpened)[c] <= 1
    ensures multiset(Next(p, e).everOpened)[c] <= 1
  {
    if e.OnInit? {
      assert p.everOpened + [] == p.everOpened;
    }
  }

  lemma {:induction false} TwoHolders<C>(gs: seq<Guard<C>>, a: nat, b: nat, c: C)
    requires a < b < |gs| && gs[a] == gs[b] == Holding(Some(c))
    ensures Total(gs, HoldersOf(c)) >= 2
  {
    if a == 0 {
      TotalMove(gs[1..], b - 1, Ended, HoldersOf(c));
    } else {
      TwoHolders(gs[1..], a - 1, b - 1, c);
    }
  }

  // ---------- Order, and who gets nothing ----------

  /** What init has to add: the attempts one by one, up to the first that fails. */
  lemma {:induction false} ConnectedIs<C>(attempt: nat -> Option<C>, i: nat, n: nat)
    requires i <= n
    ensures var cs := Connected(attempt, i, n);
            && (forall k :: 0 <= k < |cs| ==> attempt(i + k) == Some(cs[k]))
            && (|cs| < n - i ==> attempt(i + |cs|) == None)
    decreases n - i
  {
    if i < n && attempt(i).Some? {
      ConnectedIs(attempt, i + 1, n);
      var cs, later := Connected(attempt, i, n), Connected(attempt, i + 1, n);
      assert cs == [attempt(i).value] + later;
      forall k | 0 <= k < |cs| ensures attempt(i + k) == Some(cs[k]) {
        if k > 0 {
          assert attempt(i + 1 + (k - 1)) == Some(later[k - 1]);
        }
      }
    }
  }

  lemma QueueStep<C(!new)>(p: Pool<C>, e: Event<C>)
    requires Enabled(p, e) && p.dequeued + p.shared.conns == p.queued
    ensures Next(p, e).dequeued + Next(p, e).shared.conns == Next(p, e).queued
  {
    hide Fresh, WakeAll;
    var sh := p.shared;
    match e
    case OnInit(added, ok) =>
      assert p.dequeued + (sh.conns + added) == (p.dequeued + sh.conns) + added && p.queued + [] == p.queued;
    case OnGet(g) =>
      if sh.conns != [] {
        assert sh.conns == [sh.conns[0]] + sh.conns[1..];
        assert (p.dequeued + [sh.conns[0]]) + sh.conns[1..] == p.dequeued + sh.conns;
      }
      assert p.dequeued + [] == p.dequeued;
    case OnEnd(g) =>
      if p.guards[g].conn.Some? {
        var c := p.guards[g].conn.value;
        assert p.dequeued + (sh.conns + [c]) == (p.dequeued + sh.conns) + [c];
      }
    case OnShutdown => assert (p.dequeued + sh.conns) + [] == p.dequeued + sh.conns;
    case OnGuard =>
    case OnSpurious(g) =>
    case OnNotifyOne(g) =>
    case OnNotifyAll =>
    case OnClose =>
  }

  /** Connections leave the queue in the order in which they were opened or given back. */
  lemma {:induction false} PoolIsFifo<C(!new)>(events: seq<Event<C>>)
    ensures Run(events).dequeued + Run(events).shared.conns == Run(events).queued
  {
    hide Next, Enabled;
    if events == [] {
      assert [] + Run(events).shared.conns == Run(events).queued;
    } else {
      var before, e := events[..|events| - 1], events[|events| - 1];
      PoolIsFifo(before);
      if Enabled(Run(before), e) {
        QueueStep(Run(before), e);
      }
    }
  }

  datatype Word = Never | Opened | Down

  /** The last successful init or shutdown. */
  ghost function LastWord<C(!new)>(events: seq<Event<C>>): Word {
    if events == [] then Never
    else
      var before, e := events[..|events| - 1], events[|events| - 1];
      if e.OnShutdown? then Down
      else if e.OnInit? && e.ok && Enabled(Run(before), e) then Opened
      else LastWord(before)
  }

  lemma WordStep<C(!new)>(p: Pool<C>, e: Event<C>)
    requires Enabled(p, e) && !(p.shared.stopping && p.shared.inited)
    ensures var q := Next(p, e).shared;
            && (e.OnShutdown? ==> q.stopping && !q.inited)
            && (e.OnInit? && e.ok ==> !q.stopping && q.inited)
            && (!e.OnShutdown? && !(e.OnInit? && e.ok) ==>
                  q.stopping == p.shared.stopping && q.inited == p.shared.inited)
  {
    hide Fresh, WakeAll;
  }

  /** The pool is stopping, or open, as the last successful init or shutdown says. */
  lemma {:induction false} WordDecides<C(!new)>(events: seq<Event<C>>)
    ensures Run(events).shared.stopping <==> LastWord(events) == Down
    ensures Run(events).shared.inited <==> LastWord(events) == Opened
  {
    hide Next, Enabled;
    if events != [] {
      var before, e := events[..|events| - 1], events[|events| - 1];
      WordDecides(before);
      if Enabled(Run(before), e) {
        WordStep(Run(before), e);
      }
      ShutdownIsEnabled(Run(before), e);
    }
  }

  lemma ShutdownIsEnabled<C(!new)>(p: Pool<C>, e: Event<C>)
    ensures e.OnShutdown? ==> Enabled(p, e)
  {
  }

  /**
   A caller that gets the mutex comes away with nothing exactly after a shutdown, sleeps exactly if the
   pool is not shut down and empty, and otherwise gets the connection that has been idle longest.
   */
  lemma GetOutcome<C(!new)>(events: seq<Event<C>>, p: Pool<C>, g: nat)
    requires p == Run(events) && At(p, g, Calling)
    ensures var s := Next(p, OnGet(g)).guards[g];
            && (s == Holding(None) <==> LastWord(events) == Down)
            && (s == Asleep <==> LastWord(events) != Down && |p.queued| == |p.dequeued|)
            && (LastWord(events) != Down && |p.queued| > |p.dequeued| ==>
                  s == Holding(Some(p.queued[|p.dequeued|])))
  {
    hide LastWord, Run;
    WordDecides(events);
    PoolIsFifo(events);
    assert p.shared.conns == p.queued[|p.dequeued|..];
  }

  /** No connection is ever lent to two guards at once, nor lent while it is idle or closed. */
  lemma LentOnce<C(!new)>(events: seq<Event<C>>, a: nat, c: C)
    requires At(Run(events), a, Holding(Some(c)))
    ensures forall b: nat :: At(Run(events), b, Holding(Some(c))) ==> b == a
    ensures c !in Run(events).shared.conns && c !in Run(events).closing && c !in Run(events).closed
    ensures c in Run(events).everOpened
  {
    hide Run;
    var p := Run(events);
    ConnectionsAreConserved(events);
    assert Places(p, c) == multiset(p.everOpened)[c] <= 1;
    TotalMove(p.guards, a, Ended, HoldersOf(c));
    forall b: nat | At(p, b, Holding(Some(c))) ensures b == a {
      if a < b { TwoHolders(p.guards, a, b, c); }
      if b < a { TwoHolders(p.guards, b, a, c); }
    }
  }

  // ---------- Closing everything ----------

  /** An init that fails half-way in a pool that is shut down leaves its connections in the queue. */
  predicate HalfInit<C>(p: Pool<C>, e: Event<C>) {
    e.OnInit? && !e.ok && e.added != [] && p.shared.stopping && !p.shared.inited
  }

  /** A stopping pool has nothing idle, and keeps it so exactly when no init fails half-way. */
  lemma StoppedIsEmptyIff<C(!new)>(p: Pool<C>, e: Event<C>)
    requires Enabled(p, e) && (p.shared.stopping ==> p.shared.conns == [])
    ensures (Next(p, e).shared.stopping ==> Next(p, e).shared.conns == []) <==> !HalfInit(p, e)
  {
    if e.OnInit? {
      assert p.shared.conns + e.added == [] <==> p.shared.conns == [] && e.added == [];
    }
  }

  ghost predicate NeverHalfInit<C(!new)>(events: seq<Event<C>>) {
    forall i :: 0 <= i < |events| ==> !HalfInit(Run(events[..i]), events[i])
  }

  lemma {:induction false} StoppedIsEmpty<C(!new)>(events: seq<Event<C>>)
    requires NeverHalfInit(events)
    ensures Run(events).shared.stopping ==> Run(events).shared.conns == []
  {
    hide Next, Enabled, HalfInit;
    if events != [] {
      var before, e := events[..|events| - 1], events[|events| - 1];
      forall i | 0 <= i < |before| ensures !HalfInit(Run(before[..i]), before[i]) {
        assert before[..i] == events[..i] && !HalfInit(Run(events[..i]), events[i]);
      }
      StoppedIsEmpty(before);
      if Enabled(Run(before), e) {
        StoppedIsEmptyIff(Run(before), e);
      }
    }
  }

  lemma {:induction false} NobodyHolds<C>(gs: seq<Guard<C>>, c: C)
    requires forall s :: s in gs ==> !s.Holding? || s.conn.None?
    ensures Total(gs, HoldersOf(c)) == 0
  {
    if gs != [] {
      assert gs[0] in gs;
      NobodyHolds(gs[1..], c);
    }
  }

  /**
   After a shutdown, once it has closed what it took and all guards are gone, every connection ever
   opened has been closed exactly once, unless an init failed half-way in the stopped pool.
   */
  lemma AllClosedOnce<C(!new)>(events: seq<Event<C>>)
    requires NeverHalfInit(events)
    requires Run(events).shared.stopping && Run(events).closing == []
    requires forall s :: s in Run(events).guards ==> !s.Holding?
    ensures multiset(Run(events).closed) == multiset(Run(events).everOpened)
    ensures forall c: C :: multiset(Run(events).closed)[c] <= 1
  {
    hide Run, NeverHalfInit;
    StoppedIsEmpty(events);
    AllClosedIff(events);
  }

  /**
   Once nobody holds a connection and shutdown has closed what it took, every connection ever opened
   has been closed exactly once if and only if none is idle.
   */
  lemma AllClosedIff<C(!new)>(events: seq<Event<C>>)
    requires Run(events).closing == []
    requires forall s :: s in Run(events).guards ==> !s.Holding?
    ensures multiset(Run(events).closed) == multiset(Run(events).everOpened) <==> Run(events).shared.conns == []
    ensures forall c: C :: multiset(Run(events).closed)[c] <= 1
  {
    hide Run;
    var p := Run(events);
    ConnectionsAreConserved(events);
    forall c: C ensures multiset(p.shared.conns)[c] + multiset(p.closed)[c] == multiset(p.everOpened)[c] <= 1 {
      NobodyHolds(p.guards, c);
      assert Places(p, c) == multiset(p.everOpened)[c];
    }
    if p.shared.conns != [] {
      var c := p.shared.conns[0];
      assert c in multiset(p.shared.conns);
      assert multiset(p.closed)[c] != multiset(p.everOpened)[c];
    }
  }

  /**
   An init after the shutdown that opens one connection and fails at the next: the connection stays
   idle in the stopped pool, no caller gets it, and another shutdown does not close it.
   */
  lemma HalfInitLeaks(c: int)
    ensures var p := Run([OnShutdown, OnNotifyAll, OnInit([c], false)]);
            && p.shared == Shared([c], false, true) && p.guards == [] && p.closing == []
            && p.everOpened == [c] && p.closed == []
            && Next(p, OnShutdown) == p && GetDecision(p.shared) == Return(None)
  {
    var e0, e1, e2: Event<int> := OnShutdown, OnNotifyAll, OnInit([c], false);
    var es := [e0, e1, e2];
    assert es[..2] == [e0, e1] && [e0, e1][..1] == [e0] && [e0][..0] == [];
    var none: seq<int> := [];
    assert none + none == none;
    assert Run([e0]).shared == Shared([], false, true);
    assert Run([e0, e1]) == NewPool<int>().(shared := Shared([], false, true));
    assert multiset([c])[c] == 1;
    assert Fresh(Run([e0, e1]), [c]);
    assert none + [c] == [c];
  }

  // ---------- Wake-ups ----------

  /** If a guard sleeps, a notify_all is on its way or the idle connections are spoken for. */
  ghost predicate WakeOk<C>(p: Pool<C>) {
    Asleep in p.guards ==>
      || p.alls > 0
      || (!p.shared.stopping && |p.shared.conns| <= p.ones + Total(p.guards, Callers))
  }

  /** init adds connections without notifying anybody. */
  predicate UnannouncedInit<C>(p: Pool<C>, e: Event<C>) {
    e.OnInit? && !p.shared.inited && !p.shared.stopping && e.added != [] && p.alls == 0
  }

  lemma MoveMembers<C>(gs: seq<Guard<C>>, g: nat, s: Guard<C>)
    requires g < |gs|
    ensures forall x :: x in gs[g := s] ==> x in gs || x == s
    ensures gs[g] in gs
  {
  }

  lemma WakeStep<C(!new)>(p: Pool<C>, e: Event<C>)
    requires Enabled(p, e) && WakeOk(p)
    requires UnannouncedInit(p, e) ==> Asleep !in p.guards
    ensures WakeOk(Next(p, e))
  {
    hide Total;
    var q := Next(p, e);
    match e
    case OnInit(added, ok) =>
      assert p.shared.conns + [] == p.shared.conns;
    case OnGuard =>
      TotalAppend(p.guards, Calling, Callers);
    case OnGet(g) =>
      TotalMove(p.guards, g, q.guards[g], Callers);
      MoveMembers(p.guards, g, q.guards[g]);
    case OnSpurious(g) =>
      TotalMove(p.guards, g, Calling, Callers);
      MoveMembers(p.guards, g, Calling);
    case OnEnd(g) =>
      TotalMove(p.guards, g, Ended, Callers);
      MoveMembers(p.guards, g, Ended);
    case OnNotifyOne(g) =>
      if At(p, g, Asleep) {
        TotalMove(p.guards, g, Calling, Callers);
        MoveMembers(p.guards, g, Calling);
      }
    case OnNotifyAll =>
      WakeAllCounts(p.guards);
      SomeAsleep(WakeAll(p.guards));
    case OnShutdown =>
    case OnClose =>
  }

  /** The order main keeps: no init while a guard sleeps in a pool that is not being shut down. */
  ghost predicate InitFirst<C(!new)>(events: seq<Event<C>>) {
    forall i :: 0 <= i < |events| && UnannouncedInit(Run(events[..i]), events[i]) ==>
      Asleep !in Run(events[..i]).guards
  }

  /** Then no wake-up is ever lost: no guard sleeps past an idle connection nobody is coming for. */
  lemma {:induction false} NoLostWakeup<C(!new)>(events: seq<Event<C>>)
    requires InitFirst(events)
    ensures WakeOk(Run(events))
  {
    hide Next, Enabled, WakeOk, UnannouncedInit;
    if events == [] {
      NewIsAwake<C>();
    } else {
      var before, e := events[..|events| - 1], events[|events| - 1];
      forall i | 0 <= i < |before| && UnannouncedInit(Run(before[..i]), before[i])
        ensures Asleep !in Run(before[..i]).guards
      {
        assert before[..i] == events[..i] && before[i] == events[i];
      }
      NoLostWakeup(before);
      if Enabled(Run(before), e) {
        WakeStep(Run(before), e);
      }
    }
  }

  lemma NewIsAwake<C>()
    ensures WakeOk(NewPool<C>())
  {
  }

  /**
   Where nothing else is under way, a successful init loses a wake-up exactly when a guard is
   asleep already: get_connection before init can sleep for ever.
   */
  lemma InitLosesWakeupIff<C(!new)>(p: Pool<C>, added: seq<C>)
    requires Enabled(p, OnInit(added, true)) && !p.shared.inited && added != []
    requires p.ones == 0 && p.alls == 0 && Calling !in p.guards
    ensures WakeOk(Next(p, OnInit(added, true))) <==> Asleep !in p.guards
  {
    NoCallers(p.guards);
  }

  lemma {:induction false} NoCallers<C>(gs: seq<Guard<C>>)
    requires Calling !in gs
    ensures Total(gs, Callers) == 0
  {
    if gs != [] {
      assert gs[0] in gs;
      NoCallers(gs[1..]);
    }
  }

  /** One guard, one connection, the wrong order: asleep beside an idle connection, nothing pending. */
  lemma GuardBeforeInit(c: int)
    ensures var p := Run([OnGuard, OnGet(0), OnInit([c], true)]);
            p.guards == [Asleep] && p.shared.conns == [c] && p.ones == 0 && p.alls == 0 && !WakeOk(p)
  {
    var e0, e1, e2: Event<int> := OnGuard, OnGet(0), OnInit([c], true);
    var es := [e0, e1, e2];
    assert es[..2] == [e0, e1] && [e0, e1][..1] == [e0] && [e0][..0] == [];
    assert Run([e0]).guards == [Calling];
    assert Run([e0, e1]).guards == [Asleep];
    assert multiset([c])[c] == 1;
    assert Fresh(Run([e0, e1]), [c]);
    InitLosesWakeupIff(Run([e0, e1]), [c]);
  }
}
