/**
 Whole runs of a connection on a pipeline of requests: the requests are answered in order, each once
 and as itself, however the network cuts, delays or interrupts the two directions.
 */
module Serving {
  import opened Wrappers
  import opened Text
  import opened Framing
  import opened Requests
  import opened Messages
  import opened Responses
  import opened Sessions
  import opened HttpConnection
  import opened Reading
  import opened Cycle
  import opened BufferBounds
  import opened Wire

  /** Within the size limits, and with a body only where the server waits for one. */
  ghost predicate Tame(m: Message) {
    && WellFormed(m)
    && |Print(m)| - |m.body| - 4 <= HEADLIMIT - 3
    && |m.body| <= BODYLIMIT
    && (m.verb == "POST" || m.body == "")
  }

  ghost predicate AllTame(ms: seq<Message>) { forall m :: m in ms ==> Tame(m) }

  function Stream(ms: seq<Message>): string { Concat(Prints(ms)) }

  /** What the server makes of a request, as a function of the request alone. */
  function AnswerTo(site: Site, m: Message): Reply {
    var req, token := Denoted(m), MessageToken(m);
    match Validate(req)
    case BadRequest => Page400(site)
    case NotAllowed => Page405(site)
    case OK => if req.verb == "GET" then site.get(req, token) else site.post(req, token)
  }

  /** The buffer starts with the i-th request and continues with the stream. */
  ghost predicate Holds(buf: string, ms: seq<Message>, i: nat) {
    i < |ms| && Print(ms[i]) <= buf <= Stream(ms[i..])
  }

  lemma StreamFrom(ms: seq<Message>, i: nat)
    requires i < |ms|
    ensures Stream(ms[i..]) == Print(ms[i]) + Stream(ms[i + 1..])
  {
    var ps := Prints(ms[i..]);
    assert ps[0] == Print(ms[i]);
    assert ps[1..] == Prints(ms[i + 1..]);
  }

  lemma StreamEnd(ms: seq<Message>)
    ensures Stream(ms[|ms|..]) == ""
  {
  }

  lemma HeadOfStream(ms: seq<Message>, i: nat) returns (h: nat)
    requires AllTame(ms) && i < |ms|
    ensures var s := Stream(ms[i..]);
            && HeaderEnd(s) == Some(h) && h + 4 + |ms[i].body| == |Print(ms[i])| && h <= HEADLIMIT - 3
            && Parse(s) == Denoted(ms[i]) && Need(s) == |Print(ms[i])|
  {
    hide Layout, Parse, Accepted, HeadLines, BodyOf, Prints, Concat;
    var m, rest := ms[i], Stream(ms[i + 1..]);
    assert m in ms;
    StreamFrom(ms, i);
    ParsePrinted(m, rest);
    PrintedIsFramed(m);
    FramedInStream(Print(m), rest);
    StartLineOk(m);
    h := LayoutHead(StartLine(m), m.fields, m.body, rest);
  }

  /** A buffer that holds a request is read as that request, and cut after it. */
  lemma ReadAsItself(buf: string, ms: seq<Message>, i: nat, site: Site)
    requires AllTame(ms) && Holds(buf, ms, i)
    ensures Parse(buf) == Denoted(ms[i]) && CutLength(buf) == |Print(ms[i])|
    ensures Answer(buf, site) == AnswerTo(site, ms[i])
  {
    hide Layout, Print, Parse, Accepted, HeadLines, Need, Validate, Denoted, TokenOf, MessageToken;
    var m, rest := ms[i], buf[|Print(ms[i])|..];
    assert m in ms;
    assert buf == Print(m) + rest;
    ParsePrinted(m, rest);
    PrintedIsFramed(m);
    FramedInStream(Print(m), rest);
    BodyOfPrinted(m, rest);
    PrintedToken(m, rest);
  }

  lemma BodyOfPrinted(m: Message, rest: string)
    requires WellFormed(m)
    ensures HeaderEnd(Print(m) + rest).Some?
    ensures PostGuards(Print(m) + rest, Denoted(m))
    ensures PostRequest(Print(m) + rest, Denoted(m)) == Denoted(m)
  {
    hide Layout, HeadLines, LastField;
    StartLineOk(m);
    var h := LayoutHead(StartLine(m), m.fields, m.body, rest);
  }

  lemma NothingIsReady()
    ensures Decide("").None? && !HasComplete("")
  {
  }

  /** A part of the stream on which the server acts holds the whole next request. */
  lemma ReadyHolds(buf: string, ms: seq<Message>, i: nat)
    requires AllTame(ms) && i <= |ms| && buf <= Stream(ms[i..])
    requires Decide(buf).Some? || HasComplete(buf)
    ensures Holds(buf, ms, i)
    ensures Decide(buf).Some? ==> Decide(buf) == Some(READY)
  {
    hide Print, Stream, Parse, HeadLines, Need, Decide;
    if i == |ms| {
      StreamEnd(ms);
      NothingIsReady();
    } else {
      var s, m := Stream(ms[i..]), ms[i];
      assert m in ms;
      var h := HeadOfStream(ms, i);
      StreamFrom(ms, i);
      HeadStable(buf, s);
      DecideOnPrefix(s, buf);
      if HasComplete(buf) {
        ParseStable(buf, s);
      }
    }
  }

  /** A buffer that holds all of the rest of the stream is not one the server waits on. */
  lemma QuietHoldsNothing(ms: seq<Message>, i: nat)
    requires AllTame(ms) && i < |ms|
    ensures !Quiet(Stream(ms[i..]))
  {
    hide Print, Stream, Parse, HeadLines, Need, Decide;
    var s := Stream(ms[i..]);
    assert ms[i] in ms;
    var h := HeadOfStream(ms, i);
    StreamFrom(ms, i);
    DecideOnPrefix(s, s);
  }

  // ---------- The run ----------

  ghost predicate Faithful(s: Session, ms: seq<Message>) {
    && |s.log| <= |ms|
    && (forall i :: 0 <= i < |s.log| ==> s.log[i].seen.Some? && Holds(s.log[i].seen.value, ms, i))
    && (!s.phase.Closed? ==>
          && |s.cuts| == (if s.phase == Writing then |s.log| - 1 else |s.log|)
          && s.cuts == Prints(ms)[..|s.cuts|]
          && s.received == Concat(s.cuts) + s.conn.readBuf
          && (s.phase == Writing ==> s.log[|s.log| - 1].seen == Some(s.conn.readBuf)))
  }

  lemma {:induction false} ConcatSplit(ps: seq<string>, k: nat)
    requires k <= |ps|
    ensures Concat(ps) == Concat(ps[..k]) + Concat(ps[k..])
  {
    if k == 0 {
      assert ps[..0] == [] && ps[0..] == ps;
    } else {
      ConcatSplit(ps[1..], k - 1);
      assert ps[..k][1..] == ps[1..][..k - 1] && ps[1..][k - 1..] == ps[k..];
    }
  }

  lemma BufferIsInStream(s: Session, ms: seq<Message>)
    requires Faithful(s, ms) && !s.phase.Closed? && s.received <= Stream(ms)
    ensures s.conn.readBuf <= Stream(ms[|s.cuts|..])
    ensures s.received == Stream(ms) ==> s.conn.readBuf == Stream(ms[|s.cuts|..])
  {
    hide Holds, Concat, Print;
    var k := |s.cuts|;
    ConcatSplit(Prints(ms), k);
    assert Prints(ms)[k..] == Prints(ms[k..]);
    CancelPrefix(Concat(s.cuts), s.conn.readBuf, Stream(ms[k..]));
  }

  lemma CancelPrefix(p: string, a: string, b: string)
    ensures p + a <= p + b ==> a <= b
    ensures p + a == p + b ==> a == b
  {
    if p + a <= p + b {
      assert a == (p + a)[|p|..] && b == (p + b)[|p|..];
    }
  }

  lemma ReadStep(s: Session, ms: seq<Message>, recvs: seq<Recv>, site: Site)
    requires AllTame(ms) && Faithful(s, ms) && s.phase == Phase.Reading
    requires OnRead(s, recvs, site).received <= Stream(ms)
    ensures Faithful(OnRead(s, recvs, site), ms)
  {
    hide Holds, Concat, Decide, Render, Answer, WantsKeepAlive, ReadFrom, Prints;
    var r := ReadFrom(s.conn.readBuf, recvs, 0);
    ReadGrows(s.conn.readBuf, recvs, 0);
    var got := s.(received := s.received + r.buf[|s.conn.readBuf|..], conn := s.conn.(readBuf := r.buf));
    assert got.received == Concat(s.cuts) + r.buf;
    BufferIsInStream(got, ms);
    if r.state in {READY, HEAD_TOO_LARGE, BODY_TOO_LARGE} {
      ReadyHolds(r.buf, ms, |s.log|);
      HoldsBound(r.buf, ms, |s.log|);
    }
  }

  lemma HoldsBound(buf: string, ms: seq<Message>, i: nat)
    requires Holds(buf, ms, i)
    ensures i < |ms|
  {
  }

  lemma PipelineStep(s: Session, ms: seq<Message>, site: Site)
    requires AllTame(ms) && Faithful(s, ms) && s.phase == Queued && HasComplete(s.conn.readBuf)
    requires s.received <= Stream(ms)
    ensures Faithful(OnPipeline(s, site), ms)
  {
    hide Holds, Concat, HasComplete, Render, Answer, WantsKeepAlive, Prints;
    BufferIsInStream(s, ms);
    ReadyHolds(s.conn.readBuf, ms, |s.log|);
    HoldsBound(s.conn.readBuf, ms, |s.log|);
  }

  lemma WriteStep(s: Session, ms: seq<Message>, sends: seq<Send>)
    requires AllTame(ms) && Faithful(s, ms) && s.phase == Writing && s.conn.bytesSent <= |s.conn.writeBuf|
    ensures Faithful(OnWrite(s, sends), ms)
  {
    hide Holds, Concat, HasComplete, WriteFrom, CutLength;
    var b, k := s.conn.readBuf, |s.cuts|;
    var cut := b[..CutLength(b)];
    CutHolds(b, ms, k);
    assert s.cuts + [cut] == Prints(ms)[..k + 1];
    ConcatAppend(s.cuts, cut);
    assert cut + b[CutLength(b)..] == b;
    assert s.received == Concat(s.cuts + [cut]) + b[CutLength(b)..];
  }

  lemma CutHolds(buf: string, ms: seq<Message>, i: nat)
    requires AllTame(ms) && Holds(buf, ms, i)
    ensures i < |ms| && buf[..CutLength(buf)] == Print(ms[i])
  {
    ReadAsItself(buf, ms, i, Site(_ => "", (_, _) => Redirect(""), (_, _) => Redirect("")));
  }

  lemma FaithfulStep(s: Session, ms: seq<Message>, e: Event)
    requires AllTame(ms) && Faithful(s, ms) && BufferOk(s) && ConnOk(s)
    requires Step(s, e).received <= Stream(ms)
    ensures Faithful(Step(s, e), ms)
  {
    hide Stream, OnRead, OnWrite, OnPipeline, Holds, HasComplete, Concat, Prints, Quiet, CutLength;
    match e
    case OnReadTask(recvs, site) =>
      if CanRead(s) {
        ReadStep(s, ms, recvs, site);
      }
    case OnPipelineTask(site) =>
      if s.phase == Queued {
        ReceivedGrows(s, e);
        PipelineStep(s, ms, site);
      }
    case OnRearm =>
    case OnWritable(sends) =>
      if Early(s, e) {
        EarlyDecides(s, e);
      } else if CanWrite(s) {
        WriteStep(s, ms, sends);
      }
    case OnClose =>
    case OnDrop =>
  }

  lemma ReceivedGrows(s: Session, e: Event)
    ensures s.received <= Step(s, e).received
  {
    hide ReadFrom, WriteFrom, CutLength, HasComplete, Render, Answer;
  }

  lemma {:induction false} StaysFaithful(events: seq<Event>, ms: seq<Message>)
    requires (forall e :: e in events ==> EventOk(e)) && AllTame(ms)
    requires Run(events).received <= Stream(ms)
    ensures Faithful(Run(events), ms)
  {
    hide Stream, Step, Holds, BufferOk, ConnOk, Tame;
    if events == [] {
      assert Prints(ms)[..0] == [];
    } else {
      var before, e := events[..|events| - 1], events[|events| - 1];
      ReceivedGrows(Run(before), e);
      StaysFaithful(before, ms);
      BuffersAreBounded(before);
      ConnStaysOk(before);
      FaithfulStep(Run(before), ms, e);
    }
  }

  /**
   On any stream of such requests and in every run: the i-th answer is the site's answer to the i-th
   request, body and all; the connection is kept after it exactly when that request asks for it; when
   the server goes back to waiting for input with the whole stream received, no request is left
   unanswered; and when it closes of its own accord, the last request answered asked for that, unless
   and only unless handle_write has run without a response to send. In that case all requests whose
   answers went out had asked to go on.
   */
  lemma ServesThePipeline(events: seq<Event>, ms: seq<Message>)
    requires (forall e :: e in events ==> EventOk(e)) && AllTame(ms)
    requires Run(events).received <= Stream(ms)
    ensures var s := Run(events);
            && |s.log| <= |ms|
            && (forall i :: 0 <= i < |s.log| ==>
                  && s.log[i].reply == AnswerTo(s.log[i].site, ms[i])
                  && s.log[i].keepAlive == WantsKeepAlive(Denoted(ms[i])))
            && (s.phase == Phase.Reading && s.received == Stream(ms) ==> |s.log| == |ms|)
            && (s.phase == Closed(true) ==>
                  var sent := |SentLog(s.log, EverLate(events))|;
                  if EverEarly(events) then forall i :: 0 <= i < sent ==> WantsKeepAlive(Denoted(ms[i]))
                  else sent == |s.log| > 0 && !WantsKeepAlive(Denoted(ms[|s.log| - 1])))
  {
    hide Stream, Run, BufferOk, Tame, AnswerTo, WantsKeepAlive, Answer, Parse, Denoted, Ready, Quiet, EverEarly, EverLate;
    var s := Run(events);
    StaysFaithful(events, ms);
    AnswersAreTheSites(events, ms);
    if s.phase == Closed(true) {
      ClosesAsAsked(events);
    }
    if s.phase == Phase.Reading && s.received == Stream(ms) && |s.log| < |ms| {
      WaitsOnQuiet(events);
      BufferIsInStream(s, ms);
      QuietHoldsNothing(ms, |s.log|);
    }
  }

  /** Closing and keeping in terms of the log. */
  lemma ClosesAsAsked(events: seq<Event>)
    requires Run(events).phase == Closed(true)
    ensures var s := Run(events);
            var sent := |SentLog(s.log, EverLate(events))|;
            if EverEarly(events) then forall i :: 0 <= i < sent ==> s.log[i].keepAlive
            else sent == |s.log| > 0 && !s.log[|s.log| - 1].keepAlive
  {
    hide Run, EverEarly, EverLate, Concat, Replies;
    var log, late := Run(events).log, EverLate(events);
    AnnouncedIff(events);
    var sent := SentLog(log, late);
    assert forall i :: 0 <= i < |sent| ==> sent[i] == log[i] && sent[i] in sent;
  }

  lemma AnswersAreTheSites(events: seq<Event>, ms: seq<Message>)
    requires (forall e :: e in events ==> EventOk(e)) && AllTame(ms)
    requires Faithful(Run(events), ms)
    ensures var s := Run(events);
            forall i :: 0 <= i < |s.log| ==>
              && s.log[i].reply == AnswerTo(s.log[i].site, ms[i])
              && s.log[i].keepAlive == WantsKeepAlive(Denoted(ms[i]))
  {
    hide Run, Tame, AnswerTo, WantsKeepAlive, Answer, Parse, Denoted, Ready;
    var s := Run(events);
    AnsweredWhenReady(events);
    forall i | 0 <= i < |s.log|
      ensures s.log[i].reply == AnswerTo(s.log[i].site, ms[i])
      ensures s.log[i].keepAlive == WantsKeepAlive(Denoted(ms[i]))
    {
      assert s.log[i] in s.log;
      ReadAsItself(s.log[i].seen.value, ms, i, s.log[i].site);
    }
  }

  lemma WaitsOnQuiet(events: seq<Event>)
    requires forall e :: e in events ==> EventOk(e)
    ensures Run(events).phase == Phase.Reading ==> Quiet(Run(events).conn.readBuf)
  {
    BuffersAreBounded(events);
  }

  // ---------- Requests outside the condition ----------

  /**
   A message within the limits is taken off the buffer whole under every chunking if and only if
   it is a POST or has no body; any other body can be left behind, to be read as a new request.
   */
  lemma CutIsExactIff(m: Message)
    requires WellFormed(m)
    requires |Print(m)| - |m.body| - 4 <= HEADLIMIT - 3 && |m.body| <= BODYLIMIT
    ensures (forall net :: Reaches(Print(m), net, READY) ==> CutLength(Feed("", net).buf) == |Print(m)|)
            <==> (m.verb == "POST" || m.body == "")
  {
    hide Print, Parse, Decide, Feed, HeadLines, Need, Bytes, HeaderEnd, Reaches;
    if m.verb == "POST" || m.body == "" {
      forall net | Reaches(Print(m), net, READY) ensures CutLength(Feed("", net).buf) == |Print(m)| {
        WholeWhenReady(m, net);
      }
    } else {
      var net := HeadAlone(m);
    }
  }

  lemma PrintedAlone(m: Message) returns (h: nat)
    requires WellFormed(m)
    ensures HeaderEnd(Print(m)) == Some(h) && h + 4 + |m.body| == |Print(m)|
    ensures Parse(Print(m)) == Denoted(m) && Need(Print(m)) == |Print(m)|
  {
    hide Parse, Accepted, HeadLines, Layout, Denoted;
    assert Print(m) + "" == Print(m);
    StartLineOk(m);
    h := LayoutHead(StartLine(m), m.fields, m.body, "");
    ParsePrinted(m, "");
    PrintedIsFramed(m);
  }

  lemma WholeWhenReady(m: Message, net: seq<Recv>)
    requires WellFormed(m) && (m.verb == "POST" || m.body == "")
    requires |Print(m)| - |m.body| - 4 <= HEADLIMIT - 3 && |m.body| <= BODYLIMIT
    requires Reaches(Print(m), net, READY)
    ensures CutLength(Feed("", net).buf) == |Print(m)|
  {
    hide Print, Parse, Decide, Feed, HeadLines, Need, Bytes, HeaderEnd;
    var s, b := Print(m), Feed("", net).buf;
    var h := PrintedAlone(m);
    FeedBuffer("", net);
    assert "" + Bytes(net) == Bytes(net);
    DecideOnPrefix(s, b);
    assert b == s;
  }

  lemma HeadAlone(m: Message) returns (net: seq<Recv>)
    requires WellFormed(m) && m.verb != "POST" && m.body != ""
    requires |Print(m)| - |m.body| - 4 <= HEADLIMIT - 3 && |m.body| <= BODYLIMIT
    ensures Reaches(Print(m), net, READY) && CutLength(Feed("", net).buf) < |Print(m)|
  {
    hide Print, Parse, Decide, Feed, HeadLines, Need, Bytes, HeaderEnd;
    var s := Print(m);
    var h := PrintedAlone(m);
    var head := s[..h + 4];
    HeadStable(head, s);
    ParseStable(head, s);
    net := Chop(head, 0);
    ChopDelivers(head, 0);
    assert head[..0] == "" && "" + Bytes(net) == Bytes(net);
    ChopReaches(head, 0);
    FeedBuffer("", net);
  }
}
