/**
 What one call of send or recv after the other leads to, told from the results themselves, for single
 calls and over runs.
 */
module Outcomes {
  import opened Wrappers
  import opened Framing
  import opened Responses
  import opened HttpConnection
  import opened Reading
  import opened Cycle

  // ---------- Sending ----------

  /** The first result from the i-th on that does not take any bytes. */
  function FirstStop(net: seq<Send>, i: nat): (k: nat)
    requires i <= |net|
    ensures i <= k <= |net|
    ensures forall j :: i <= j < k ==> net[j].Sent? && net[j].count > 0
    ensures k < |net| ==> !(net[k].Sent? && net[k].count > 0)
    decreases |net| - i
  {
    if i < |net| && net[i].Sent? && net[i].count > 0 then FirstStop(net, i + 1) else i
  }

  /** The bytes taken by the results i .. k. */
  function Taken(net: seq<Send>, i: nat, k: nat): nat
    requires i <= k <= |net| && forall j :: i <= j < k ==> net[j].Sent?
    decreases k - i
  {
    if i == k then 0 else net[i].count + Taken(net, i + 1, k)
  }

  /**
   write goes on as long as bytes are taken, never beyond the end. Short of the end it pauses exactly if
   the socket would block or there is no further result, and fails exactly on an error or a send of 0.
   */
  lemma {:induction false} WriteOutcome(sent: nat, total: nat, net: seq<Send>, i: nat)
    requires sent <= total && i <= |net|
    ensures var r, k := WriteFrom(sent, total, net, i), FirstStop(net, i);
            && r.sent == (if sent + Taken(net, i, k) < total then sent + Taken(net, i, k) else total)
            && (r.state == READY <==> sent + Taken(net, i, k) >= total)
            && (r.state == AGAIN <==> sent + Taken(net, i, k) < total && (k == |net| || net[k] == SendBlocked))
            && (r.state == ERROR <==>
                  sent + Taken(net, i, k) < total && k < |net| && (net[k] == SendFailed || net[k] == Sent(0)))
            && i <= r.used <= |net| && (r.state != READY ==> r.used == if k == |net| then k else k + 1)
    decreases |net| - i
  {
    if sent < total && i < |net| && net[i].Sent? && net[i].count > 0 {
      WriteOutcome(sent + Min(net[i].count, total - sent), total, net, i + 1);
    }
  }

  /** A write event in which a send really fails. */
  ghost predicate SendFails(e: Event) {
    e.OnWritable? && exists r :: r in e.sends && (r == SendFailed || r == Sent(0))
  }

  lemma WriteFailsOnly(s: Session, sends: seq<Send>)
    requires CanWrite(s) && OnWrite(s, sends).fate == WriteFailed
    ensures SendFails(OnWritable(sends))
  {
    hide WriteFrom, HasComplete, CutLength, Taken, FirstStop;
    WriteOutcome(s.conn.bytesSent, |s.conn.writeBuf|, sends, 0);
    WriteFailedIs(s, sends);
    var k := FirstStop(sends, 0);
    assert sends[k] in sends;
  }

  lemma WriteFailedIs(s: Session, sends: seq<Send>)
    requires CanWrite(s)
    ensures OnWrite(s, sends).fate == WriteFailed <==>
              WriteFrom(s.conn.bytesSent, |s.conn.writeBuf|, sends, 0).state == ERROR
  {
    hide HasComplete, CutLength, WriteFrom;
  }

  /** So a full socket buffer closes nothing: a connection is given up on sending only after a failure. */
  lemma {:induction false} FailedOnlyAfterFailure(events: seq<Event>)
    requires Run(events).fate == WriteFailed
    ensures exists e :: e in events && SendFails(e)
  {
    hide Step, SendFails;
    if events != [] {
      var before, e := events[..|events| - 1], events[|events| - 1];
      if Run(before).fate == WriteFailed {
        FailedOnlyAfterFailure(before);
        var b :| b in before && SendFails(b);
        assert b in events;
      } else {
        FailureIsNew(Run(before), e);
        assert e in events;
      }
    }
  }

  lemma FailureIsNew(s: Session, e: Event)
    requires s.fate != WriteFailed && Step(s, e).fate == WriteFailed
    ensures SendFails(e)
  {
    hide OnWrite, ReadFrom, ReadTurn, PipelineTurn, Answered;
    if e.OnWritable? {
      WriteFailsOnly(s, e.sends);
    }
  }

  /** A response of any size, half sent when the socket is full, is neither cut off nor given up. */
  lemma PauseKeepsConnection(s: Session, n: nat)
    requires CanWrite(s) && s.phase == Writing && 0 < n < |s.conn.writeBuf| - s.conn.bytesSent
    ensures var t := Step(s, OnWritable([Sent(n), SendBlocked]));
            t.fate == s.fate && t.phase == Writing && t.conn == s.conn.(bytesSent := s.conn.bytesSent + n)
  {
    hide HasComplete, CutLength, Reset;
    var total := |s.conn.writeBuf|;
    assert WriteFrom(s.conn.bytesSent + n, total, [Sent(n), SendBlocked], 1) == WriteResult(AGAIN, 2, s.conn.bytesSent + n);
  }

  // ---------- Receiving ----------

  /** The first result from the i-th on that brings no bytes, or whose bytes make a verdict. */
  function FirstEnd(buf: string, net: seq<Recv>, i: nat): (k: nat)
    requires i <= |net|
    ensures i <= k <= |net|
    ensures forall j :: i <= j < k ==> net[j].Data?
    decreases |net| - i
  {
    if i == |net| || !net[i].Data? || Decide(buf + net[i].bytes).Some? then i
    else FirstEnd(buf + net[i].bytes, net, i + 1)
  }

  function Brought(buf: string, net: seq<Recv>, i: nat, k: nat): string
    requires i <= k <= |net| && forall j :: i <= j < k ==> net[j].Data?
    decreases k - i
  {
    if i == k then buf else Brought(buf + net[i].bytes, net, i + 1, k)
  }

  /** read_once takes chunks up to there, and returns what the result at which it stops says. */
  lemma {:induction false} ReadOutcome(buf: string, net: seq<Recv>, i: nat)
    requires i <= |net|
    ensures var r, k := ReadFrom(buf, net, i), FirstEnd(buf, net, i);
            var b := Brought(buf, net, i, k);
            if k == |net| then r == ReadResult(AGAIN, k, b)
            else match net[k] {
              case Data(bytes) => Decide(b + bytes).Some? && r == ReadResult(Decide(b + bytes).value, k + 1, b + bytes)
              case Eof => r == ReadResult(CLOSED, k + 1, b)
              case RecvBlocked => r == ReadResult(AGAIN, k + 1, b)
              case RecvFailed => r == ReadResult(ERROR, k + 1, b)
            }
    decreases |net| - i
  {
    hide Decide;
    if i < |net| && net[i].Data? && Decide(buf + net[i].bytes).None? {
      ReadOutcome(buf + net[i].bytes, net, i + 1);
    }
  }

  function FilePage(site: Site, status: string, file: string, fallback: string): Reply {
    Page(status, "text/html; charset=UTF-8", if site.file(file) == "" then fallback else site.file(file), "")
  }

  function TooLongReply(site: Site): Reply {
    FilePage(site, "431 Request Header Fields Too Large", "431.html", "<h1>431 Request Header Fields Too Large</h1>")
  }

  function TooLargeReply(site: Site): Reply {
    FilePage(site, "413 Payload Too Large", "413.html", "<h1>413 Payload Too Large</h1>")
  }

  ghost predicate NoPause(net: seq<Recv>) { forall r :: r in net ==> r != RecvBlocked }

  lemma ReadWithoutPause(buf: string, net: seq<Recv>)
    requires NoPause(net)
    ensures var r := ReadFrom(buf, net, 0);
            Feed(buf, net) == if r.state == AGAIN then Waiting(r.buf) else Verdict(r.state, r.buf)
  {
    hide Decide;
    FeedIsReadOnce(buf, net, 0);
    assert net[0..] == net;
    if ReadFrom(buf, net, 0).state == AGAIN {
      PauseIsAtEnd(buf, net, 0);
      assert net[|net|..] == [];
    }
  }

  lemma {:induction false} PauseIsAtEnd(buf: string, net: seq<Recv>, i: nat)
    requires NoPause(net) && i <= |net| && ReadFrom(buf, net, i).state == AGAIN
    ensures ReadFrom(buf, net, i).used == |net|
    decreases |net| - i
  {
    hide Decide;
    if i < |net| {
      assert net[i] in net;
      if net[i].Data? && Decide(buf + net[i].bytes).None? {
        PauseIsAtEnd(buf + net[i].bytes, net, i + 1);
      } else if net[i].Data? {
        DecideIsFinal(buf + net[i].bytes);
      }
    }
  }

  /**
   What a read task does with its verdict: it waits without one, answers a request, refuses with 431 or
   413 and close, and gives up at the end of the stream or on an error.
   */
  lemma ReadTaskOutcome(s: Session, net: seq<Recv>, site: Site)
    requires CanRead(s) && NoPause(net)
    ensures var t := Step(s, OnReadTask(net, site));
            var waits := t.phase == Phase.Reading && t.log == s.log;
            match Feed(s.conn.readBuf, net) {
              case Waiting(b) => waits && t.fate == s.fate && t.conn == s.conn.(readBuf := b)
              case Verdict(st, b) =>
                if st == CLOSED || st == ERROR then waits && t.fate != Alive
                else
                  && t.phase == Writing && t.fate == s.fate && |t.log| == |s.log| + 1
                  && s.log <= t.log && t.rearms == s.rearms + 1
                  && var x := t.log[|s.log|];
                     match st {
                       case HEAD_TOO_LARGE => x == Exchange(None, site, TooLongReply(site), false)
                       case BODY_TOO_LARGE => x == Exchange(None, site, TooLargeReply(site), false)
                       case _ => st == READY && x.seen == Some(b) && x.site == site && x.reply == Answer(b, site)
                     }
            }
  {
    hide Feed, ReadFrom, Answer, Render, WantsKeepAlive;
    ReadWithoutPause(s.conn.readBuf, net);
    ReadTurnIs(s.conn, net, site);
  }

  /** A read task that meets the end of the stream or an error. */
  ghost predicate RecvFails(e: Event) {
    e.OnReadTask? && exists r :: r in e.recvs && (r == Eof || r == RecvFailed)
  }

  lemma {:induction false} EndIsReal(buf: string, net: seq<Recv>, i: nat)
    requires ReadFrom(buf, net, i).state == CLOSED || ReadFrom(buf, net, i).state == ERROR
    ensures exists r :: r in net && (r == Eof || r == RecvFailed)
    decreases |net| - i
  {
    hide Decide;
    if i < |net| {
      assert net[i] in net;
      if net[i].Data? && Decide(buf + net[i].bytes).None? {
        EndIsReal(buf + net[i].bytes, net, i + 1);
      } else if net[i].Data? {
        DecideIsFinal(buf + net[i].bytes);
      }
    }
  }

  lemma EndIsNew(s: Session, e: Event)
    requires s.fate != ReadEnded && Step(s, e).fate == ReadEnded
    ensures RecvFails(e)
  {
    hide ReadFrom, PipelineTurn, Answered, WriteTurn, Answer, Render, WantsKeepAlive;
    if e.OnReadTask? {
      EndIsReal(s.conn.readBuf, e.recvs, 0);
    }
  }

  /** A read task gives a connection up only after the end of the stream or an error. */
  lemma {:induction false} EndedOnlyAfterEnd(events: seq<Event>)
    requires Run(events).fate == ReadEnded
    ensures exists e :: e in events && RecvFails(e)
  {
    hide Step, RecvFails;
    if events != [] {
      var before, e := events[..|events| - 1], events[|events| - 1];
      if Run(before).fate == ReadEnded {
        EndedOnlyAfterEnd(before);
        var b :| b in before && RecvFails(b);
        assert b in events;
      } else {
        EndIsNew(Run(before), e);
        assert e in events;
      }
    }
  }
}
