/**
 A whole connection from accept to close: it reads, answers, writes, and goes on with what is left
 over. Read tasks do not overlap anything else of the connection; write events, pipeline tasks and
 what those still owe to epoll interleave freely. Chunks, partial sends, pauses, drops and handlers
 are arbitrary.
 */
module Cycle {
  import opened Wrappers
  import opened Framing
  import opened Requests
  import opened Responses
  import opened HttpConnection

  // ---------- The three critical sections of the server that work on a connection ----------

  /** What the server arranges next for the connection. */
  datatype Next = AwaitMore | AwaitInput | AwaitOutput | QueueProcess | CloseIt

  /** An answer, with the buffer the request was read from (none for 413 and 431) and the site then. */
  datatype Exchange = Exchange(seen: Option<string>, site: Site, reply: Reply, keepAlive: bool)

  datatype Turn = Turn(conn: Conn, next: Next, exchange: Option<Exchange>)

  function Answered(c: Conn, site: Site): Exchange {
    Exchange(Some(c.readBuf), site, Answer(c.readBuf, site), WantsKeepAlive(Parse(c.readBuf)))
  }

  function ReadTurn(c: Conn, net: seq<Recv>, site: Site): Turn {
    var r := ReadFrom(c.readBuf, net, 0);
    var d := c.(readBuf := r.buf);
    match r.state
    case CLOSED => Turn(d, CloseIt, None)
    case ERROR => Turn(d, CloseIt, None)
    case AGAIN => Turn(d, AwaitMore, None)
    case HEAD_TOO_LARGE =>
      Turn(WithReply(d, Page431(site), false), AwaitOutput, Some(Exchange(None, site, Page431(site), false)))
    case BODY_TOO_LARGE =>
      Turn(WithReply(d, Page413(site), false), AwaitOutput, Some(Exchange(None, site, Page413(site), false)))
    case READY => Turn(Processed(d, site), AwaitOutput, Some(Answered(d, site)))
  }

  function PipelineTurn(c: Conn, site: Site): Turn {
    Turn(Processed(c, site), AwaitOutput, Some(Answered(c, site)))
  }

  function WriteTurn(c: Conn, net: seq<Send>): Turn
    requires c.bytesSent <= |c.writeBuf|
  {
    var w := WriteFrom(c.bytesSent, |c.writeBuf|, net, 0);
    var d := c.(bytesSent := w.sent);
    if w.state == ERROR then Turn(d, CloseIt, None)
    else if w.state == AGAIN then Turn(d, AwaitMore, None)
    else if !d.keepAlive then Turn(d, CloseIt, None)
    else Turn(Reset(d), if HasComplete(Reset(d).readBuf) then QueueProcess else AwaitInput, None)
  }

  /** The body of the task `handle_read` enqueues. */
  method ReadTask(conn: HttpConn, net: seq<Recv>, site: Site) returns (needClose: bool, needModWrite: bool)
    modifies conn
    ensures var t := ReadTurn(old(conn.State()), net, site);
            && conn.State() == t.conn
            && needClose == (t.next == CloseIt) && needModWrite == (t.next == AwaitOutput)
  {
    hide Processed, Answered, ReadFrom;
    needClose, needModWrite := false, false;
    var st, used := conn.ReadOnce(net);
    if st == CLOSED || st == ERROR {
      needClose := true;
    } else if st == AGAIN {
      return;
    } else if st == HEAD_TOO_LARGE {
      conn.Set431(site);
      needModWrite := true;
    } else if st == BODY_TOO_LARGE {
      conn.Set413(site);
      needModWrite := true;
    } else {
      var ok := conn.Process(site);
      if !ok {
        needClose := true;
      } else {
        needModWrite := true;
      }
    }
  }

  /** The body of the task `handle_write` enqueues when a whole request is already buffered. */
  method PipelineTask(conn: HttpConn, site: Site) returns (needClose: bool, needModWrite: bool)
    modifies conn
    ensures var t := PipelineTurn(old(conn.State()), site);
            && conn.State() == t.conn
            && needClose == (t.next == CloseIt) && needModWrite == (t.next == AwaitOutput)
  {
    hide Processed, Answered;
    var ok := conn.Process(site);
    needClose, needModWrite := !ok, ok;
  }

  /** The locked part of `handle_write`. */
  method WriteEvent(conn: HttpConn, net: seq<Send>)
    returns (needClose: bool, needModRead: bool, needEnqueue: bool, out: string)
    requires conn.State().Valid()
    modifies conn
    ensures var c := old(conn.State());
            var t := WriteTurn(c, net);
            && conn.State() == t.conn
            && needClose == (t.next == CloseIt) && needModRead == (t.next == AwaitInput)
            && needEnqueue == (t.next == QueueProcess)
            && out == c.writeBuf[c.bytesSent..WriteFrom(c.bytesSent, |c.writeBuf|, net, 0).sent]
  {
    hide Reset, HasComplete;
    needClose, needModRead, needEnqueue := false, false, false;
    var st, used;
    st, used, out := conn.Write(net);
    if st == ERROR || st == CLOSED {
      needClose := true;
    } else if st == AGAIN {
      return;
    } else if conn.keepAlive {
      conn.ResetForNextRequest();
      var complete := conn.HasCompleteRequest();
      if complete {
        needEnqueue := true;
      } else {
        needModRead := true;
      }
    } else {
      needClose := true;
    }
  }

  // ---------- The connection as a state machine ----------

  datatype Phase = Reading | Queued | Writing | Closed(byServer: bool)

  /**
   Whether somebody is on the way to close_conn, which runs after the lock has been released: a read
   task at the end of the stream, handle_write after a failed send, or handle_write with everything
   sent on a connection that is not to be kept.
   */
  datatype Fate = Alive | ReadEnded | WriteFailed | Finished

  datatype Event =
    | OnReadTask(recvs: seq<Recv>, site: Site)
    | OnPipelineTask(site: Site)
    | OnRearm                       // a task that has answered asks epoll for EPOLLOUT, without the lock
    | OnWritable(sends: seq<Send>)  // handle_write, in whatever phase it finds the connection
    | OnClose                       // close_conn, by whoever is on the way to it
    | OnDrop                        // the event loop closes on a hang-up, a time-out, or a full pool

  /**
   `out` says that the descriptor is registered for EPOLLOUT, `rearms` counts tasks that have answered
   and are still to ask for it. The rest records what was received, consumed, answered and sent.
   */
  datatype Session = Session(conn: Conn, phase: Phase, fate: Fate, out: bool, rearms: nat, received: string,
                             cuts: seq<string>, log: seq<Exchange>, wire: string)

  const START := Session(IDLE, Reading, Alive, false, 0, "", [], [], "")

  function Logged(log: seq<Exchange>, x: Option<Exchange>): seq<Exchange> {
    match x { case None => log case Some(e) => log + [e] }
  }

  /** A read task that was queued before may run although handle_write has decided to close. */
  function OnRead(s: Session, net: seq<Recv>, site: Site): Session {
    var r := ReadFrom(s.conn.readBuf, net, 0);
    var t := ReadTurn(s.conn, net, site);
    ReadGrows(s.conn.readBuf, net, 0);
    var got := s.(conn := t.conn, received := s.received + r.buf[|s.conn.readBuf|..], log := Logged(s.log, t.exchange));
    if t.next == CloseIt then got.(fate := if s.fate == Alive then ReadEnded else s.fate)
    else if t.next == AwaitOutput then got.(phase := Writing, rearms := s.rearms + 1)
    else got
  }

  /** So may a pipeline task. */
  function OnPipeline(s: Session, site: Site): Session {
    s.(conn := PipelineTurn(s.conn, site).conn, phase := Writing, rearms := s.rearms + 1,
       log := s.log + [Answered(s.conn, site)])
  }

  /** Going back to input asks for EPOLLIN instead; queueing the next request asks for nothing. */
  function OnWrite(s: Session, net: seq<Send>): Session
    requires s.conn.bytesSent <= |s.conn.writeBuf|
  {
    var c := s.conn;
    var w := WriteFrom(c.bytesSent, |c.writeBuf|, net, 0);
    var t := WriteTurn(c, net);
    var put := s.(conn := t.conn, wire := s.wire + c.writeBuf[c.bytesSent..w.sent]);
    match t.next
    case CloseIt => put.(fate := if w.state == READY then Finished else WriteFailed)
    case AwaitMore => put
    case QueueProcess => put.(cuts := s.cuts + [c.readBuf[..CutLength(c.readBuf)]], phase := Queued)
    case _ => put.(cuts := s.cuts + [c.readBuf[..CutLength(c.readBuf)]], phase := Reading, out := false)
  }

  /** The event loop is itself on the way to close_conn, and handles nothing else before. */
  predicate LoopCloses(s: Session) { s.fate == WriteFailed || s.fate == Finished }

  /** handle_write can run: the descriptor is open and registered for EPOLLOUT, and the loop is free. */
  predicate CanWrite(s: Session) {
    !s.phase.Closed? && !LoopCloses(s) && s.out && s.conn.bytesSent <= |s.conn.writeBuf|
  }

  /** A read task has not met the end of the stream before. */
  predicate CanRead(s: Session) { s.phase == Reading && s.fate != ReadEnded }

  function AfterClose(s: Session): Session { s.(conn := IDLE, phase := Closed(s.fate == Finished)) }

  /** One event; a task that is not there, or an event epoll was not asked for, does not happen. */
  function Step(s: Session, e: Event): Session {
    match e
    case OnReadTask(recvs, site) => if CanRead(s) then OnRead(s, recvs, site) else s
    case OnPipelineTask(site) => if s.phase == Queued then OnPipeline(s, site) else s
    case OnRearm =>
      if !s.phase.Closed? && s.rearms > 0 then s.(out := true, rearms := s.rearms - 1) else s
    case OnWritable(sends) => if CanWrite(s) then OnWrite(s, sends) else s
    case OnClose => if !s.phase.Closed? && s.fate != Alive then AfterClose(s) else s
    case OnDrop => if !s.phase.Closed? && !LoopCloses(s) then AfterClose(s) else s
  }

  function Run(events: seq<Event>): Session {
    if events == [] then START else Step(Run(events[..|events| - 1]), events[|events| - 1])
  }

  predicate EventOk(e: Event) { e.OnReadTask? ==> NetOk(e.recvs) }

  lemma RunMore(events: seq<Event>, e: Event)
    ensures Run(events + [e]) == Step(Run(events), e)
  {
    hide Step;
    assert (events + [e])[..|events|] == events;
  }

  // ---------- Write events that come too early ----------

  /** handle_write finds no response: a request is queued but not answered, or none is there. */
  predicate Early(s: Session, e: Event) {
    e.OnWritable? && CanWrite(s) && s.phase != Writing
  }

  predicate EverEarly(events: seq<Event>) {
    events != [] &&
    (EverEarly(events[..|events| - 1]) || Early(Run(events[..|events| - 1]), events[|events| - 1]))
  }

  /** A task answers a request after handle_write has decided to close, and before close_conn. */
  predicate Late(s: Session, e: Event) {
    && s.fate == Finished
    && match e {
         case OnPipelineTask(_) => s.phase == Queued
         case OnReadTask(recvs, site) => CanRead(s) && ReadTurn(s.conn, recvs, site).exchange.Some?
         case _ => false
       }
  }

  predicate EverLate(events: seq<Event>) {
    events != [] &&
    (EverLate(events[..|events| - 1]) || Late(Run(events[..|events| - 1]), events[|events| - 1]))
  }

  /** The server has closed of its own accord, or handle_write has decided so. */
  predicate Closes(s: Session) {
    s.phase == Closed(true) || (!s.phase.Closed? && s.fate == Finished)
  }

  /**
   Without a response to send nothing is buffered for output; a response is never stranded, because
   EPOLLOUT has been or will be asked for; and a queued request leaves the descriptor registered for it.
   */
  ghost predicate ConnOk(s: Session) {
    && s.conn.Valid()
    && (s.phase == Reading || s.phase == Queued ==> s.conn == s.conn.(writeBuf := "", bytesSent := 0, keepAlive := false))
    && (s.phase == Writing ==> s.out || s.rearms > 0)
    && (s.phase == Queued ==> s.out)
    && (s.phase == Writing || s.phase == Queued ==> s.fate != ReadEnded)
    && (s.fate == WriteFailed ==> s.phase != Reading && s.phase != Queued)
  }

  /**
   Then handle_write takes the empty output for a finished one on a connection not to be kept, and
   decides to close. A task of the connection may still run before close_conn does.
   */
  lemma EarlyDecides(s: Session, e: Event)
    requires ConnOk(s) && Early(s, e)
    ensures Step(s, e) == s.(fate := Finished)
  {
    hide Reset, HasComplete, CutLength;
    assert s.wire + s.conn.writeBuf[0..0] == s.wire;
  }

  /** Once decided, nothing but close_conn ends the connection, and it counts as the server's. */
  lemma DecidedCloses(s: Session, e: Event)
    requires Closes(s)
    ensures Closes(Step(s, e))
    ensures s.phase == Closed(true) ==> Step(s, e) == s
    ensures Step(s, OnClose).phase == Closed(true)
  {
    hide ReadFrom, ReadTurn, PipelineTurn, Answered, WriteTurn;
  }

  /** What a read task leaves behind, whichever way it ends. */
  lemma ReadTurnIs(c: Conn, recvs: seq<Recv>, site: Site)
    ensures var t := ReadTurn(c, recvs, site);
            && t.next in {AwaitMore, AwaitOutput, CloseIt}
            && (t.exchange.Some? <==> t.next == AwaitOutput)
            && (t.next != AwaitOutput ==> t.conn == c.(readBuf := t.conn.readBuf))
            && (t.exchange.Some? ==>
                  var x := t.exchange.value;
                  && t.conn.writeBuf == Render(x.reply, x.keepAlive)
                  && t.conn.keepAlive == x.keepAlive && t.conn.bytesSent == 0)
  {
    hide Answer, Render, WantsKeepAlive, ReadFrom;
  }

  lemma ConnRead(s: Session, recvs: seq<Recv>, site: Site)
    requires ConnOk(s) && CanRead(s)
    ensures ConnOk(OnRead(s, recvs, site))
  {
    hide ReadFrom, ReadTurn, Render;
    ReadTurnIs(s.conn, recvs, site);
  }

  lemma ConnWrite(s: Session, sends: seq<Send>)
    requires ConnOk(s) && CanWrite(s) && s.phase == Writing
    ensures ConnOk(OnWrite(s, sends))
  {
    hide HasComplete, CutLength, WriteFrom;
  }

  lemma ConnStep(s: Session, e: Event)
    requires ConnOk(s)
    ensures ConnOk(Step(s, e))
  {
    hide OnRead, OnWrite, Render, Answer, WantsKeepAlive;
    match e
    case OnReadTask(recvs, site) =>
      if CanRead(s) { ConnRead(s, recvs, site); }
    case OnWritable(sends) =>
      if Early(s, e) { EarlyDecides(s, e); }
      else if CanWrite(s) { ConnWrite(s, sends); }
    case OnPipelineTask(site) =>
    case OnRearm =>
    case OnClose =>
    case OnDrop =>
  }

  lemma {:induction false} ConnStaysOk(events: seq<Event>)
    ensures ConnOk(Run(events))
  {
    hide Step, ConnOk;
    if events == [] {
      StartConnOk();
    } else {
      ConnStaysOk(events[..|events| - 1]);
      ConnStep(Run(events[..|events| - 1]), events[|events| - 1]);
    }
  }

  lemma StartConnOk()
    ensures ConnOk(START)
  {
  }

  lemma {:induction false} ReadGrows(buf: string, net: seq<Recv>, i: nat)
    ensures var r := ReadFrom(buf, net, i);
            && buf <= r.buf
            && (r.state in {READY, HEAD_TOO_LARGE, BODY_TOO_LARGE} ==> Decide(r.buf) == Some(r.state))
    decreases |net| - i
  {
    hide Decide;
    if i < |net| && net[i].Data? && Decide(buf + net[i].bytes).None? {
      ReadGrows(buf + net[i].bytes, net, i + 1);
    }
  }
}
