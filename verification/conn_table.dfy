/**
 The table of connections: `users_` and `last_active_` under users_mutex_. The class holds the locked
 sections; the state machine interleaves them with accept, with tasks that captured a descriptor
 and a generation earlier, and with closes decided on earlier, possibly for a reused descriptor.
 */
module ConnTable {
  import opened Wrappers

  /** The part of an HttpConn that identifies it; a default-constructed one is not open. */
  datatype Entry = Entry(fd: int, gen: nat)

  const DEFAULT := Entry(-1, 0)

  datatype Table = Table(users: map<int, Entry>, lastActive: map<int, nat>)

  /** `users_[fd].init(fd)`: operator[] first creates the entry when there is none. */
  function Inserted(t: Table, fd: int, now: nat): Table {
    var e := if fd in t.users then t.users[fd] else DEFAULT;
    Table(t.users[fd := Entry(fd, e.gen + 1)], t.lastActive[fd := now])
  }

  function Touched(t: Table, fd: int, now: nat): Table {
    if fd in t.users then t.(lastActive := t.lastActive[fd := now]) else t
  }

  /** The test a task makes before it works on a connection. */
  predicate Passes(t: Table, fd: int, gen: nat) {
    fd in t.users && t.users[fd].gen == gen
  }

  function Closed(t: Table, fd: int): Table { Table(t.users - {fd}, t.lastActive - {fd}) }

  /** The ticks of the steady clock in a second. */
  const TICKS: int := 1_000_000_000

  /** Whole seconds between two clock readings; a reading taken before the other counts negative. */
  function IdleSeconds(now: nat, last: nat): int {
    if now >= last then (now - last) / TICKS else -((last - now) / TICKS)
  }

  class WebServer {
    var users: map<int, Entry>
    var lastActive: map<int, nat>
    const idleTimeoutSec: int

    function State(): Table
      reads this
    {
      Table(users, lastActive)
    }

    constructor (idleTimeout: int)
      ensures State() == Table(map[], map[]) && idleTimeoutSec == idleTimeout
    {
      users, lastActive, idleTimeoutSec := map[], map[], idleTimeout;
    }

    /** The locked section of handle_accept. */
    method Insert(clfd: int, now: nat)
      modifies this
      ensures State() == Inserted(old(State()), clfd, now)
    {
      if clfd !in users {
        users := users[clfd := DEFAULT];
      }
      users := users[clfd := Entry(clfd, users[clfd].gen + 1)];
      lastActive := lastActive[clfd := now];
      assert users == Inserted(old(State()), clfd, now).users;
    }

    /**
     The locked section of handle_read: its task is to carry the one generation with which it would
     pass the test now, if there is one.
     */
    method Lookup(fd: int) returns (gen: Option<nat>)
      ensures forall g: nat :: Passes(State(), fd, g) <==> gen == Some(g)
    {
      if fd !in users {
        return None;
      }
      return Some(users[fd].gen);
    }

    /** How the tasks begin: true if they go on to work on the connection. */
    method TaskBegins(fd: int, gen: nat, now: nat) returns (go: bool)
      modifies this`lastActive
      ensures go == old(Passes(State(), fd, gen))
      ensures State() == if go then Touched(old(State()), fd, now) else old(State())
    {
      if fd !in users {
        return false;
      }
      if users[fd].gen != gen {
        return false;
      }
      lastActive := lastActive[fd := now];
      return true;
    }

    /** How handle_write begins. */
    method WriteBegins(fd: int, now: nat) returns (go: bool)
      modifies this`lastActive
      ensures go == (fd in users) && State() == Touched(old(State()), fd, now)
    {
      if fd !in users {
        return false;
      }
      lastActive := lastActive[fd := now];
      return true;
    }

    /** The descriptor that is given back to the kernel, if any. */
    method CloseConn(fd: int) returns (closed: Option<int>)
      modifies this
      ensures State() == Closed(old(State()), fd)
      ensures closed == if fd in old(users) && old(users)[fd].fd >= 0 then Some(old(users)[fd].fd) else None
    {
      closed := None;
      if fd in users {
        if users[fd].fd >= 0 {
          closed := Some(users[fd].fd);
        }
        users := users - {fd};
      }
      assert users == old(users) - {fd};
      lastActive := lastActive - {fd};
    }

    /** The locked section of handle_timeout; `order` is the hash map's order of iteration. */
    method Expired(now: nat, order: seq<int>) returns (toClose: seq<int>)
      requires forall fd :: fd in order <==> fd in lastActive
      ensures forall fd :: fd in toClose <==> fd in lastActive && IdleSeconds(now, lastActive[fd]) > idleTimeoutSec
    {
      toClose := [];
      var times := lastActive;
      for i := 0 to |order|
        invariant forall fd :: fd in toClose <==>
                    fd in order[..i] && fd in times && IdleSeconds(now, times[fd]) > idleTimeoutSec
      {
        var fd := order[i];
        assert fd in order;
        if IdleSeconds(now, times[fd]) > idleTimeoutSec {
          toClose := toClose + [fd];
        }
      }
      assert order[..|order|] == order;
    }
  }

  /** Whole seconds are compared: a connection is due only a full second after its limit. */
  lemma DueAfter(now: nat, last: nat, limit: nat)
    ensures IdleSeconds(now, last) > limit <==> now - last >= (limit + 1) * TICKS
  {
    if now >= last {
      var d := now - last;
      assert d == TICKS * (d / TICKS) + d % TICKS;
    }
  }

  // ---------- Interleavings ----------

  /** `open` is the kernel's view of client descriptors, `accepted` one not yet in the table. */
  datatype System = System(table: Table, open: set<int>, accepted: Option<int>, tasks: set<(int, nat)>)

  datatype Event =
    | OnAccept(fd: int)            // the kernel hands out a descriptor that is not open
    | OnAddFailed                  // epoll_ctl refuses it, and it is closed at once
    | OnInsert(now: nat)
    | OnCapture(fd: int)           // handle_read or handle_write enqueues a task
    | OnTask(fd: int, gen: nat, now: nat)
    | OnWrite(fd: int, now: nat)
    | OnClose(fd: int)             // close_conn, for whatever reason and however late

  const START := System(Table(map[], map[]), {}, None, {})

  predicate Enabled(s: System, e: Event) {
    match e
    case OnAccept(fd) => fd >= 0 && fd !in s.open && s.accepted.None?
    case OnAddFailed => s.accepted.Some?
    case OnInsert(_) => s.accepted.Some?
    case OnCapture(fd) => fd in s.table.users
    case OnTask(fd, gen, _) => (fd, gen) in s.tasks
    case OnWrite(_, _) => true
    case OnClose(_) => true
  }

  function Next(s: System, e: Event): System
    requires Enabled(s, e)
  {
    match e
    case OnAccept(fd) => s.(open := s.open + {fd}, accepted := Some(fd))
    case OnAddFailed => s.(open := s.open - {s.accepted.value}, accepted := None)
    case OnInsert(now) => s.(table := Inserted(s.table, s.accepted.value, now), accepted := None)
    case OnCapture(fd) => s.(tasks := s.tasks + {(fd, s.table.users[fd].gen)})
    case OnTask(fd, gen, now) => if Passes(s.table, fd, gen) then s.(table := Touched(s.table, fd, now)) else s
    case OnWrite(fd, now) => s.(table := Touched(s.table, fd, now))
    case OnClose(fd) =>
      var q := s.(table := Closed(s.table, fd));
      if fd in s.table.users && s.table.users[fd].fd >= 0 then q.(open := s.open - {s.table.users[fd].fd}) else q
  }

  function Run(events: seq<Event>): System {
    if events == [] then START
    else
      var s, e := Run(events[..|events| - 1]), events[|events| - 1];
      if Enabled(s, e) then Next(s, e) else s
  }

  ghost predicate TableOk(s: System) {
    && s.table.users.Keys == s.table.lastActive.Keys
    && (forall fd :: fd in s.table.users ==> fd >= 0 && s.table.users[fd] == Entry(fd, 1))
    && s.open == s.table.users.Keys + (if s.accepted.Some? then {s.accepted.value} else {})
    && (s.accepted.Some? ==> s.accepted.value >= 0 && s.accepted.value !in s.table.users)
    && (forall t :: t in s.tasks ==> t.1 == 1)
  }

  lemma InsertStep(s: System, now: nat)
    requires TableOk(s) && s.accepted.Some?
    ensures TableOk(Next(s, OnInsert(now)))
  {
    var fd := s.accepted.value;
    assert Inserted(s.table, fd, now).users.Keys == s.table.users.Keys + {fd};
    assert Inserted(s.table, fd, now).lastActive.Keys == s.table.lastActive.Keys + {fd};
  }

  lemma CloseStep(s: System, fd: int)
    requires TableOk(s)
    ensures TableOk(Next(s, OnClose(fd)))
  {
    var t := Closed(s.table, fd);
    assert t.users.Keys == s.table.users.Keys - {fd};
    assert t.lastActive.Keys == s.table.lastActive.Keys - {fd};
  }

  lemma TouchStep(s: System, fd: int, now: nat)
    requires TableOk(s)
    ensures TableOk(s.(table := Touched(s.table, fd, now)))
  {
    if fd in s.table.users {
      assert s.table.lastActive[fd := now].Keys == s.table.lastActive.Keys;
    }
  }

  lemma TableStep(s: System, e: Event)
    requires TableOk(s) && Enabled(s, e)
    ensures TableOk(Next(s, e))
  {
    match e
    case OnAccept(fd) =>
    case OnAddFailed =>
    case OnInsert(now) => InsertStep(s, now);
    case OnCapture(fd) =>
    case OnTask(fd, gen, now) => TouchStep(s, fd, now);
    case OnWrite(fd, now) => TouchStep(s, fd, now);
    case OnClose(fd) => CloseStep(s, fd);
  }

  /**
   Whenever users_mutex_ is free: both maps have the same keys, every entry carries its own
   descriptor and generation 1, and the open descriptors are exactly those in the table and the one
   being accepted, so none leaks and none is used after it was closed.
   */
  lemma {:induction false} TableInvariant(events: seq<Event>)
    ensures TableOk(Run(events))
  {
    hide TableOk, Next, Enabled;
    if events == [] {
      StartIsOk();
    } else {
      var before, e := events[..|events| - 1], events[|events| - 1];
      TableInvariant(before);
      if Enabled(Run(before), e) {
        TableStep(Run(before), e);
      }
    }
  }

  lemma StartIsOk()
    ensures TableOk(START)
  {
  }

  /**
   The generation test never rejects a task: whoever finds the descriptor in the table passes, be
   it the connection the task was made for or a later one on the same descriptor.
   */
  lemma GenerationNeverRejects(events: seq<Event>, fd: int, gen: nat)
    requires (fd, gen) in Run(events).tasks
    ensures Passes(Run(events).table, fd, gen) <==> fd in Run(events).table.users
  {
    hide Run;
    TableInvariant(events);
  }

  /** A task captured for one connection passes the test for the next one on that descriptor. */
  lemma StaleTaskPasses()
    ensures var early := [OnAccept(5), OnInsert(0), OnCapture(5), OnClose(5)];
            var s, t := Run(early), Run(early + [OnAccept(5), OnInsert(1)]);
            (5, 1) in s.tasks && 5 !in s.table.users && s.open == {} && Passes(t.table, 5, 1)
  {
    var one := System(Table(map[5 := Entry(5, 1)], map[5 := 0]), {5}, None, {});
    var e1: seq<Event> := [OnAccept(5)];
    var e2 := e1 + [OnInsert(0)];
    var e3 := e2 + [OnCapture(5)];
    var e4 := e3 + [OnClose(5)];
    var e5 := e4 + [OnAccept(5)];
    assert [] + e1 == e1;
    Extend([], OnAccept(5));
    Extend(e1, OnInsert(0));
    var t := Inserted(START.table, 5, 0);
    assert t.users == one.table.users && t.lastActive == one.table.lastActive;
    assert Run(e1) == START.(open := {5}, accepted := Some(5));
    assert Run(e2) == one;
    Extend(e2, OnCapture(5));
    assert Run(e3) == one.(tasks := {(5, 1)});
    Extend(e3, OnClose(5));
    var c := Closed(one.table, 5);
    assert c.users == START.table.users && c.lastActive == START.table.lastActive;
    assert Run(e4) == START.(tasks := {(5, 1)});
    Extend(e4, OnAccept(5));
    Extend(e5, OnInsert(1));
    assert e4 == [OnAccept(5), OnInsert(0), OnCapture(5), OnClose(5)];
    assert e4 + [OnAccept(5), OnInsert(1)] == e5 + [OnInsert(1)];
  }

  lemma Extend(events: seq<Event>, e: Event)
    ensures var s := Run(events); Run(events + [e]) == if Enabled(s, e) then Next(s, e) else s
  {
    assert (events + [e])[..|events|] == events;
  }

  // ---------- Time-outs ----------

  /** A piece of work on the connection: its insertion, a task that passes the test, or a write. */
  predicate Works(s: System, e: Event, fd: int) {
    match e
    case OnInsert(_) => s.accepted == Some(fd)
    case OnTask(f, gen, _) => f == fd && (fd, gen) in s.tasks && Passes(s.table, fd, gen)
    case OnWrite(f, _) => f == fd && fd in s.table.users
    case _ => false
  }

  function ClockOf(e: Event): nat {
    match e
    case OnInsert(now) => now
    case OnTask(_, _, now) => now
    case OnWrite(_, now) => now
    case _ => 0
  }

  /** The clock at the last piece of work on the connection. */
  function LastWork(events: seq<Event>, fd: int): Option<nat> {
    if events == [] then None
    else if Works(Run(events[..|events| - 1]), events[|events| - 1], fd) then Some(ClockOf(events[|events| - 1]))
    else LastWork(events[..|events| - 1], fd)
  }

  lemma WorkStep(s: System, e: Event, fd: int)
    requires TableOk(s) && Enabled(s, e) && fd in Next(s, e).table.lastActive
    ensures Next(s, e).table.lastActive[fd] ==
            if Works(s, e, fd) then ClockOf(e) else if fd in s.table.lastActive then s.table.lastActive[fd] else 0
    ensures Works(s, e, fd) || fd in s.table.lastActive
  {
  }

  /** The time kept for a connection is that of the last piece of work on it, in every run. */
  lemma {:induction false} TimeIsLastWork(events: seq<Event>, fd: int)
    requires fd in Run(events).table.lastActive
    ensures LastWork(events, fd) == Some(Run(events).table.lastActive[fd])
  {
    hide TableOk, Next, Enabled, Works;
    if events == [] {
    } else {
      var before, e := events[..|events| - 1], events[|events| - 1];
      TableInvariant(before);
      if Enabled(Run(before), e) {
        WorkStep(Run(before), e, fd);
        if !Works(Run(before), e, fd) {
          TimeIsLastWork(before, fd);
        }
      } else {
        NoWork(Run(before), e, fd);
        TimeIsLastWork(before, fd);
      }
    }
  }

  lemma NoWork(s: System, e: Event, fd: int)
    requires !Enabled(s, e)
    ensures !Works(s, e, fd)
  {
  }

  /**
   So a connection is due for closing exactly when a full second more than the limit has passed since
   the last piece of work on it.
   */
  lemma DueIff(events: seq<Event>, fd: int, now: nat, limit: nat)
    requires fd in Run(events).table.users
    ensures fd in Run(events).table.lastActive && LastWork(events, fd).Some?
    ensures IdleSeconds(now, Run(events).table.lastActive[fd]) > limit <==>
              now >= LastWork(events, fd).value + (limit + 1) * TICKS
  {
    hide Run;
    TableInvariant(events);
    assert fd in Run(events).table.users.Keys;
    TimeIsLastWork(events, fd);
    DueAfter(now, Run(events).table.lastActive[fd], limit);
  }
}
