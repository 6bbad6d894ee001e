/** What goes out on the wire over a whole connection, and what a client reads from it. */
module Wire {
  import opened Wrappers
  import opened Framing
  import opened Responses
  import opened Clients
  import opened HttpConnection
  import opened Cycle

  function Rendered(x: Exchange): string { Render(x.reply, x.keepAlive) }

  /** The responses of a log, as byte strings. */
  function Replies(log: seq<Exchange>): (rs: seq<string>)
    ensures |rs| == |log|
    ensures forall i :: 0 <= i < |log| ==> rs[i] == Rendered(log[i])
  {
    seq(|log|, i requires 0 <= i < |log| => Rendered(log[i]))
  }

  ghost predicate AllKept(log: seq<Exchange>) { forall x :: x in log ==> x.keepAlive }

  /** The log without its last entry. */
  function Earlier(log: seq<Exchange>): seq<Exchange> {
    if log == [] then [] else log[..|log| - 1]
  }

  /** The last response of the log is in the output buffer, and as much of it as was sent is on the wire. */
  ghost predicate OnItsWay(s: Session) {
    && s.conn.Valid()
    && s.log != [] && AllKept(Earlier(s.log))
    && var x := s.log[|s.log| - 1];
       && s.conn.writeBuf == Rendered(x) && s.conn.keepAlive == x.keepAlive
       && s.wire == Concat(Replies(Earlier(s.log))) + s.conn.writeBuf[..s.conn.bytesSent]
  }

  /**
   The responses are on the wire in order and whole, except that the last one may be on its way or cut
   off, and only the last one can announce the end of the connection. `early` says that handle_write
   has run without a response to send; then the server closes without announcing it. `late` says that a
   request was answered even after that; then its response stays behind.
   */
  ghost predicate WireOk(s: Session, early: bool, late: bool) {
    && s.conn.Valid()
    && (late ==> early) && (early ==> Closes(s))
    && match s.phase {
         case Reading => !late && AllKept(s.log) && s.wire == Concat(Replies(s.log)) && (s.fate == Finished ==> early)
         case Queued => !late && AllKept(s.log) && s.wire == Concat(Replies(s.log)) && (s.fate == Finished ==> early)
         case Writing =>
           && OnItsWay(s)
           && (if s.fate != Finished then s.conn.bytesSent < |s.conn.writeBuf|
               else if late then s.conn.bytesSent == 0
               else !early && s.conn.bytesSent == |s.conn.writeBuf| && !s.conn.keepAlive)
         case Closed(true) =>
           && AllKept(Earlier(s.log))
           && (if late then s.log != [] && s.wire == Concat(Replies(Earlier(s.log)))
               else s.wire == Concat(Replies(s.log)) && (early <==> AllKept(s.log)))
         case Closed(false) =>
           && AllKept(Earlier(s.log))
           && Concat(Replies(Earlier(s.log))) <= s.wire <= Concat(Replies(s.log))
           && (s.wire == Concat(Replies(s.log)) ==> AllKept(s.log))
       }
  }

  lemma RepliesSplit(log: seq<Exchange>)
    requires log != []
    ensures Concat(Replies(log)) == Concat(Replies(Earlier(log))) + Rendered(log[|log| - 1])
  {
    var rs := Replies(log);
    assert rs == Replies(Earlier(log)) + [rs[|log| - 1]];
    ConcatAppend(Replies(Earlier(log)), rs[|log| - 1]);
  }

  lemma KeptSplit(log: seq<Exchange>)
    requires log != []
    ensures AllKept(log) <==> AllKept(Earlier(log)) && log[|log| - 1].keepAlive
  {
    assert log == Earlier(log) + [log[|log| - 1]];
  }

  /** A run that gets the k-th part of the last response out. */
  lemma SentMore(s: Session, k: nat)
    requires OnItsWay(s) && s.conn.bytesSent <= k <= |s.conn.writeBuf|
    ensures s.wire + s.conn.writeBuf[s.conn.bytesSent..k] ==
            Concat(Replies(Earlier(s.log))) + s.conn.writeBuf[..k]
    ensures k == |s.conn.writeBuf| ==>
              s.wire + s.conn.writeBuf[s.conn.bytesSent..k] == Concat(Replies(s.log))
  {
    hide Replies, Rendered, Concat, AllKept;
    var w, b := s.conn.writeBuf, s.conn.bytesSent;
    assert w[..b] + w[b..k] == w[..k];
    assert w[..|w|] == w;
    RepliesSplit(s.log);
  }

  lemma WriteKeepsWire(s: Session, sends: seq<Send>)
    requires WireOk(s, false, false) && s.phase == Writing && !LoopCloses(s)
    ensures WireOk(OnWrite(s, sends), false, false)
  {
    hide Replies, Rendered, Concat, AllKept, CutLength, HasComplete;
    var c := s.conn;
    var w := WriteFrom(c.bytesSent, |c.writeBuf|, sends, 0);
    SentMore(s, w.sent);
    KeptSplit(s.log);
  }

  lemma AppendLog(log: seq<Exchange>, x: Exchange)
    ensures Earlier(log + [x]) == log && (log + [x])[|log + [x]| - 1] == x
  {
  }

  lemma AnswerKeepsWire(s: Session, x: Exchange, t: Session, early: bool)
    requires WireOk(s, early, false) && (s.phase == Phase.Reading || s.phase == Queued)
    requires t.phase == Writing && t.fate == s.fate && t.log == s.log + [x] && t.wire == s.wire
    requires t.conn.writeBuf == Rendered(x) != "" && t.conn.keepAlive == x.keepAlive && t.conn.bytesSent == 0
    ensures WireOk(t, early, s.fate == Finished)
  {
    hide Replies, Rendered, Concat, AllKept;
    AppendLog(s.log, x);
    assert t.conn.writeBuf[..0] == "";
  }

  lemma RenderedIsText(x: Exchange)
    ensures Rendered(x) != ""
  {
  }

  lemma CloseKeepsWire(s: Session, early: bool, late: bool)
    requires WireOk(s, early, late) && !s.phase.Closed?
    ensures WireOk(AfterClose(s), early, late)
  {
    hide Replies, Rendered, Concat, AllKept;
    if s.log != [] {
      RepliesSplit(s.log);
      KeptSplit(s.log);
    } else {
      NothingSaid(s.log);
    }
    if s.phase == Writing {
      var w, n := s.conn.writeBuf, s.conn.bytesSent;
      assert w[..0] == "" && w[..|w|] == w && w[..n] <= w;
    }
  }

  lemma NothingSaid(log: seq<Exchange>)
    requires log == []
    ensures AllKept(log) && AllKept(Earlier(log)) && Replies(log) == [] && Earlier(log) == []
  {
  }

  lemma ReadKeepsWire(s: Session, recvs: seq<Recv>, site: Site, early: bool)
    requires WireOk(s, early, false) && s.phase == Phase.Reading
    ensures WireOk(OnRead(s, recvs, site), early, s.fate == Finished && ReadTurn(s.conn, recvs, site).exchange.Some?)
  {
    hide Replies, Concat, AllKept, ReadFrom, ReadTurn, Render;
    var t := ReadTurn(s.conn, recvs, site);
    ReadTurnIs(s.conn, recvs, site);
    if t.exchange.Some? {
      RenderedIsText(t.exchange.value);
      AnswerKeepsWire(s, t.exchange.value, OnRead(s, recvs, site), early);
    }
  }

  lemma PipelineKeepsWire(s: Session, site: Site, early: bool)
    requires WireOk(s, early, false) && s.phase == Queued
    ensures WireOk(OnPipeline(s, site), early, s.fate == Finished)
  {
    hide Replies, Concat, AllKept, Answer, Render, WantsKeepAlive;
    RenderedIsText(Answered(s.conn, site));
    AnswerKeepsWire(s, Answered(s.conn, site), OnPipeline(s, site), early);
  }

  lemma EarlyKeepsWire(s: Session, e: Event)
    requires WireOk(s, false, false) && ConnOk(s) && Early(s, e)
    ensures WireOk(Step(s, e), true, false)
  {
    hide Replies, Rendered, Concat, AllKept, OnWrite, Step;
    EarlyDecides(s, e);
  }

  lemma RearmKeepsWire(s: Session, early: bool, late: bool, out: bool, rearms: nat)
    requires WireOk(s, early, late)
    ensures WireOk(s.(out := out, rearms := rearms), early, late)
  {
    hide Replies, Rendered, Concat, AllKept;
  }

  lemma WireStep(s: Session, e: Event, early: bool, late: bool)
    requires WireOk(s, early, late) && ConnOk(s)
    ensures WireOk(Step(s, e), early || Early(s, e), late || Late(s, e))
  {
    hide OnRead, OnWrite, OnPipeline, AfterClose, ReadTurn, Replies, Concat, AllKept, Rendered, OnItsWay, ConnOk;
    match e
    case OnReadTask(recvs, site) =>
      if CanRead(s) { ReadKeepsWire(s, recvs, site, early); }
    case OnPipelineTask(site) =>
      if s.phase == Queued { PipelineKeepsWire(s, site, early); }
    case OnRearm =>
      if !s.phase.Closed? && s.rearms > 0 { RearmKeepsWire(s, early, late, true, s.rearms - 1); }
    case OnWritable(sends) =>
      if Early(s, e) { EarlyKeepsWire(s, e); }
      else if CanWrite(s) { WriteKeepsWire(s, sends); }
    case OnClose =>
      if !s.phase.Closed? { CloseKeepsWire(s, early, late); }
    case OnDrop =>
      if !s.phase.Closed? { CloseKeepsWire(s, early, late); }
  }

  /**
   Whatever the partial sends, pauses, drops, early write events and late tasks: nothing is repeated
   or reordered, and nothing but the last response is lost.
   */
  lemma {:induction false} WireFidelity(events: seq<Event>)
    ensures WireOk(Run(events), EverEarly(events), EverLate(events))
  {
    hide WireOk, Step, Early, Late, ConnOk;
    if events == [] {
      StartIsOk();
    } else {
      var before := events[..|events| - 1];
      WireFidelity(before);
      ConnStaysOk(before);
      WireStep(Run(before), events[|events| - 1], EverEarly(before), EverLate(before));
    }
  }

  lemma StartIsOk()
    ensures WireOk(START, false, false)
  {
  }

  // ---------- The client's side ----------

  ghost predicate LogWritable(log: seq<Exchange>) { forall x :: x in log ==> ReplyOk(x.reply) }

  /** The responses of a log, as a client is to see them. */
  function Expected(log: seq<Exchange>): (rs: seq<Received>)
    ensures |rs| == |log|
    ensures forall i :: 0 <= i < |log| ==> rs[i] == AsReceived(log[i].reply, log[i].keepAlive)
  {
    seq(|log|, i requires 0 <= i < |log| => AsReceived(log[i].reply, log[i].keepAlive))
  }

  lemma {:induction false} HeardIs(log: seq<Exchange>, part: string)
    requires LogWritable(log) && NextResponse(part) == None
    ensures ReceiveAll(Concat(Replies(log)) + part) == Heard(Expected(log), part)
  {
    hide NextResponse, Rendered, ReplyOk, AsReceived, ReceiveAll;
    if log == [] {
      assert Concat(Replies(log)) + part == part;
      ReceiveOne(part);
    } else {
      var x, rest := log[0], Concat(Replies(log[1..])) + part;
      assert x in log && Replies(log)[1..] == Replies(log[1..]) && Expected(log)[1..] == Expected(log[1..]);
      assert Concat(Replies(log)) + part == Rendered(x) + rest;
      RenderedIsReceived(x, rest);
      ReceiveOne(Rendered(x) + rest);
      HeardIs(log[1..], part);
      assert (Rendered(x) + rest)[|Rendered(x)|..] == rest;
      assert Expected(log) == [Expected(log)[0]] + Expected(log)[1..];
    }
  }

  lemma RenderedIsReceived(x: Exchange, rest: string)
    requires ReplyOk(x.reply)
    ensures NextResponse(Rendered(x) + rest) == Some((AsReceived(x.reply, x.keepAlive), |Rendered(x)|))
  {
    hide NextResponse, Render, ReplyOk, AsReceived;
    ResponseIsReceived(x.reply, x.keepAlive, rest);
  }

  lemma ReceiveOne(buf: string)
    ensures ReceiveAll(buf) ==
            match NextResponse(buf) {
              case None => Heard([], buf)
              case Some(p) =>
                Heard([p.0] + ReceiveAll(buf[p.1..]).responses, ReceiveAll(buf[p.1..]).rest)
            }
  {
    hide NextResponse;
  }

  lemma NothingIsNoResponse()
    ensures NextResponse("") == None
  {
  }

  /** From a wire between all responses but the last and all of them a client takes those that are whole. */
  lemma WholeReplies(log: seq<Exchange>, wire: string) returns (k: nat)
    requires LogWritable(log)
    requires Concat(Replies(Earlier(log))) <= wire <= Concat(Replies(log))
    ensures k <= |log| <= k + 1
    ensures k == |log| <==> wire == Concat(Replies(log))
    ensures ReceiveAll(wire).responses == Expected(log)[..k]
    ensures wire == Concat(Replies(log)) ==> ReceiveAll(wire).rest == ""
  {
    hide NextResponse, Rendered, ReceiveAll, ReplyOk, AsReceived;
    if wire == Concat(Replies(log)) {
      NothingIsNoResponse();
      HeardIs(log, "");
      assert wire + "" == wire && Expected(log)[..|log|] == Expected(log);
      k := |log|;
    } else {
      var x, whole := log[|log| - 1], Concat(Replies(Earlier(log)));
      var part := wire[|whole|..];
      RepliesSplit(log);
      assert x in log && wire == whole + part;
      PartOfLast(part, x);
      HeardIs(Earlier(log), part);
      assert Expected(Earlier(log)) == Expected(log)[..|log| - 1];
      k := |log| - 1;
    }
  }

  lemma PartOfLast(part: string, x: Exchange)
    requires ReplyOk(x.reply) && part <= Rendered(x) && part != Rendered(x)
    ensures NextResponse(part) == None
  {
    hide NextResponse, Render, ReplyOk;
    PartIsNotReceived(x.reply, x.keepAlive, part);
  }

  /** The answers that a late task has not left behind. */
  function SentLog(log: seq<Exchange>, late: bool): seq<Exchange> {
    if late then Earlier(log) else log
  }

  /** The server closes of its own accord exactly if a response that announces it is out whole. */
  ghost predicate CloseIsAnnounced(s: Session) {
    Closes(s) <==> s.log != [] && s.wire == Concat(Replies(s.log)) && !s.log[|s.log| - 1].keepAlive
  }

  /**
   In every run a client gets the answers in the order of the requests, all but at most the last, with
   their status lines and bodies, and at most the last announces the end of the connection. When the
   server has closed of its own accord, an executed request stays unanswered if and only if its task ran
   between an early decision of handle_write and close_conn.
   */
  lemma ClientSeesAnswers(events: seq<Event>) returns (k: nat)
    requires LogWritable(Run(events).log)
    ensures var s := Run(events);
            && k <= |s.log| <= k + 1
            && (k == |s.log| <==> s.wire == Concat(Replies(s.log)))
            && ReceiveAll(s.wire).responses == Expected(s.log)[..k]
            && (k == |s.log| ==> ReceiveAll(s.wire).rest == "")
            && (forall i :: 0 <= i < |s.log| - 1 ==> s.log[i].keepAlive)
            && (s.phase == Phase.Reading || s.phase == Queued ==> k == |s.log|)
            && (s.phase == Closed(true) ==> (k < |s.log| <==> EverLate(events)))
            && (s.phase == Closed(true) ==> ReceiveAll(s.wire).rest == "")
  {
    hide Run, Concat, ReceiveAll, ReplyOk, Render, AsReceived, EverEarly, EverLate;
    var s, late := Run(events), EverLate(events);
    WireFidelity(events);
    WireIsBetween(s, EverEarly(events), late);
    k := WholeReplies(s.log, s.wire);
    forall i | 0 <= i < |s.log| - 1 ensures s.log[i].keepAlive {
      assert Earlier(s.log)[i] in Earlier(s.log);
    }
    if s.phase == Closed(true) {
      WholeSent(s, EverEarly(events), late);
    }
  }

  lemma WireIsBetween(s: Session, early: bool, late: bool)
    requires WireOk(s, early, late)
    ensures Concat(Replies(Earlier(s.log))) <= s.wire <= Concat(Replies(s.log))
  {
    hide Replies, Rendered, Concat;
    if s.log != [] {
      RepliesSplit(s.log);
    }
  }

  lemma WholeSent(s: Session, early: bool, late: bool)
    requires WireOk(s, early, late) && s.phase == Closed(true) && LogWritable(s.log)
    ensures s.wire == Concat(Replies(SentLog(s.log, late)))
    ensures s.wire == Concat(Replies(s.log)) <==> !late
    ensures ReceiveAll(s.wire).rest == ""
  {
    hide Replies, Rendered, Concat, ReplyOk, ReceiveAll;
    if late {
      RepliesSplit(s.log);
      RenderedIsText(s.log[|s.log| - 1]);
    }
    var sent := SentLog(s.log, late);
    NothingIsNoResponse();
    HeardIs(sent, "");
    assert s.wire + "" == s.wire;
  }

  /**
   The server closes of its own accord exactly after announcing it, if and only if handle_write never
   ran without a response to send; if it did, every answer that went out had kept the connection.
   */
  lemma AnnouncedIff(events: seq<Event>)
    ensures CloseIsAnnounced(Run(events)) <==> !EverEarly(events)
    ensures EverEarly(events) ==>
              && Closes(Run(events))
              && var sent := SentLog(Run(events).log, EverLate(events));
                 AllKept(sent) && Run(events).wire == Concat(Replies(sent))
    ensures EverLate(events) ==> EverEarly(events) && Run(events).log != []
  {
    hide Run, EverEarly, EverLate, Replies, Rendered, Concat, AllKept;
    var s := Run(events);
    WireFidelity(events);
    if s.log != [] {
      KeptSplit(s.log);
      RepliesSplit(s.log);
      RenderedIsText(s.log[|s.log| - 1]);
    }
    assert s.conn.writeBuf[..0] == "" && s.conn.writeBuf[..|s.conn.writeBuf|] == s.conn.writeBuf;
  }
}
