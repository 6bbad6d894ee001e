/**
 Runs from the start of a connection that reach the failing sides of the exact conditions: a write event
 that finds no response, a length whose size_t sum wraps to 0, a POST body cut off, a cookie not found.
 */
module NotableRuns {
  import opened Wrappers
  import opened Text
  import opened Decimal
  import opened Framing
  import opened Requests
  import opened Messages
  import opened Responses
  import opened Sessions
  import opened HttpConnection
  import opened Reading
  import opened Cycle
  import opened Wire
  import opened Serving

  // ---------- The first request of a pipeline, answered and kept ----------

  ghost predicate Kept(m: Message) { Tame(m) && WantsKeepAlive(Denoted(m)) }

  function FirstReply(m: Message, site: Site): string { Render(AnswerTo(site, m), true) }

  /** One chunk with the request and something behind it; the answer goes out in one piece. */
  function FirstEvents(m: Message, more: string, site: Site): seq<Event> {
    [OnReadTask([Data(Print(m) + more)], site)] + [OnRearm] + [OnWritable([Sent(|FirstReply(m, site)|)])]
  }

  function FirstExchange(m: Message, more: string, site: Site): Exchange {
    Exchange(Some(Print(m) + more), site, AnswerTo(site, m), true)
  }

  /** With a whole request in front, the buffer is ready, answered and cut as that request. */
  lemma ReadsFirst(m: Message, more: string, site: Site)
    requires Tame(m)
    ensures var buf := Print(m) + more;
            && Decide(buf) == Some(READY) && Answer(buf, site) == AnswerTo(site, m)
            && Parse(buf) == Denoted(m) && CutLength(buf) == |Print(m)| && buf[CutLength(buf)..] == more
  {
    hide Layout, Print, Parse, Accepted, HeadLines, Need, Validate, LastField, TokenOf, MessageToken;
    var buf := Print(m) + more;
    ParsePrinted(m, more);
    PrintedIsFramed(m);
    FramedInStream(Print(m), more);
    BodyOfPrinted(m, more);
    PrintedToken(m, more);
    var h := PrintedAlone(m);
    HeadStable(Print(m), buf);
    DecideOnPrefix(buf, buf);
  }

  function Served(buf: string, site: Site): Exchange { Exchange(Some(buf), site, Answer(buf, site), true) }

  /** One chunk that makes an empty connection ready is answered at once. */
  lemma ReadChunk(s: Session, buf: string, site: Site)
    requires s.conn == IDLE && Decide(buf) == Some(READY) && WantsKeepAlive(Parse(buf))
    ensures OnRead(s, [Data(buf)], site) ==
            s.(conn := Conn(buf, Rendered(Served(buf, site)), 0, true), phase := Writing, rearms := s.rearms + 1,
               received := s.received + buf, log := s.log + [Served(buf, site)])
  {
    hide Parse, Decide, Answer, Render, WantsKeepAlive;
    assert "" + buf == buf && buf[0..] == buf;
    assert ReadFrom("", [Data(buf)], 0) == ReadResult(READY, 1, buf);
  }

  lemma ReadStep(s: Session, m: Message, more: string, site: Site)
    requires Kept(m) && s.conn == IDLE
    ensures var buf := Print(m) + more;
            OnRead(s, [Data(buf)], site) ==
            s.(conn := Conn(buf, FirstReply(m, site), 0, true), phase := Writing, rearms := s.rearms + 1,
               received := s.received + buf, log := s.log + [FirstExchange(m, more, site)])
  {
    hide Print, Parse, Decide, Answer, AnswerTo, Denoted, Render, WantsKeepAlive, Tame, OnRead;
    ReadsFirst(m, more, site);
    ReadChunk(s, Print(m) + more, site);
  }

  lemma SendAll(s: Session)
    requires 0 < |s.conn.writeBuf| && s.conn.bytesSent == 0 && s.conn.keepAlive
    ensures OnWrite(s, [Sent(|s.conn.writeBuf|)]) ==
            var buf := s.conn.readBuf;
            var left := buf[CutLength(buf)..];
            s.(conn := Conn(left, "", 0, false), cuts := s.cuts + [buf[..CutLength(buf)]],
               wire := s.wire + s.conn.writeBuf,
               phase := if HasComplete(left) then Queued else Phase.Reading, out := HasComplete(left) && s.out)
  {
    hide CutLength, HasComplete;
    var n := |s.conn.writeBuf|;
    assert WriteFrom(0, n, [Sent(n)], 0) == WriteResult(READY, 1, n);
    assert s.conn.writeBuf[0..n] == s.conn.writeBuf;
  }

  function FirstWriting(m: Message, more: string, site: Site): Session {
    Session(Conn(Print(m) + more, FirstReply(m, site), 0, true), Writing, Alive, true, 0, Print(m) + more, [],
            [FirstExchange(m, more, site)], "")
  }

  lemma FirstRead(m: Message, more: string, site: Site)
    requires Kept(m) && |Print(m) + more| <= RECV_SIZE
    ensures var e0 := OnReadTask([Data(Print(m) + more)], site);
            && EventOk(e0) && Run([e0] + [OnRearm]) == FirstWriting(m, more, site)
            && !EverEarly([e0] + [OnRearm])
  {
    hide Print, OnRead, FirstReply, FirstExchange, Tame, WantsKeepAlive, Kept;
    var e0, none: seq<Event> := OnReadTask([Data(Print(m) + more)], site), [];
    ReadStep(START, m, more, site);
    PrintBytes(m, more);
    assert none + [e0] == [e0] && "" + (Print(m) + more) == Print(m) + more;
    assert [] + [FirstExchange(m, more, site)] == [FirstExchange(m, more, site)];
    RunMore(none, e0);
    RunMore([e0], OnRearm);
    EarlyMore(none, e0);
    EarlyMore([e0], OnRearm);
  }

  function FirstDone(m: Message, more: string, site: Site): Session {
    Session(Conn(more, "", 0, false), if HasComplete(more) then Queued else Phase.Reading, Alive, HasComplete(more), 0,
            Print(m) + more, [Print(m)], [FirstExchange(m, more, site)], FirstReply(m, site))
  }

  lemma FirstWritten(m: Message, more: string, site: Site)
    requires Kept(m)
    ensures var e := OnWritable([Sent(|FirstReply(m, site)|)]);
            && Step(FirstWriting(m, more, site), e) == FirstDone(m, more, site)
            && !Early(FirstWriting(m, more, site), e)
  {
    hide Print, OnWrite, HasComplete, CutLength, FirstReply, FirstExchange, Tame, WantsKeepAlive;
    ReplyIsText(m, site);
    ReadsFirst(m, more, site);
    SendAll(FirstWriting(m, more, site));
    assert [] + [Print(m)] == [Print(m)] && "" + FirstReply(m, site) == FirstReply(m, site);
    assert (Print(m) + more)[..|Print(m)|] == Print(m);
  }

  /** Where the first exchange leads, whatever stands behind the request. */
  lemma FirstServed(m: Message, more: string, site: Site)
    requires Kept(m) && |Print(m) + more| <= RECV_SIZE
    ensures forall e :: e in FirstEvents(m, more, site) ==> EventOk(e)
    ensures Run(FirstEvents(m, more, site)) == FirstDone(m, more, site)
    ensures !EverEarly(FirstEvents(m, more, site))
  {
    hide Print, Run, Step, FirstReply, FirstDone, FirstWriting, Kept, EverEarly, Early;
    var e0, e2 := OnReadTask([Data(Print(m) + more)], site), OnWritable([Sent(|FirstReply(m, site)|)]);
    FirstRead(m, more, site);
    FirstWritten(m, more, site);
    RunMore([e0] + [OnRearm], e2);
    EarlyMore([e0] + [OnRearm], e2);
  }

  lemma PrintBytes(m: Message, more: string)
    ensures 0 < |Print(m) + more|
  {
  }

  lemma ReplyIsText(m: Message, site: Site)
    ensures FirstReply(m, site) != ""
  {
  }

  lemma EarlyMore(events: seq<Event>, e: Event)
    ensures EverEarly(events + [e]) <==> EverEarly(events) || Early(Run(events), e)
  {
    hide Early, Run;
    assert (events + [e])[..|events|] == events;
  }

  lemma LateMore(events: seq<Event>, e: Event)
    ensures EverLate(events + [e]) <==> EverLate(events) || Late(Run(events), e)
  {
    hide Late, Run;
    assert (events + [e])[..|events|] == events;
  }

  // ---------- A write event that comes too early ----------

  /** The second request, already buffered, is answered by its own task, and then written. */
  function BothEvents(m1: Message, m2: Message, site: Site): seq<Event> {
    FirstEvents(m1, Print(m2), site) + [OnPipelineTask(site)] + [OnWritable([Sent(|FirstReply(m2, site)|)])]
  }

  /** handle_write finds no response and decides to close. */
  lemma EarlyDecision(events: seq<Event>) returns (decided: seq<Event>)
    requires var s := Run(events); (s.phase == Queued || s.phase == Phase.Reading) && s.out && s.fate == Alive
    ensures decided == events + [OnWritable([])] && EverEarly(decided)
    ensures Run(decided) == Run(events).(fate := Finished)
    ensures EverLate(decided) <==> EverLate(events)
  {
    hide Run, EverEarly, EverLate, Step;
    decided := events + [OnWritable([])];
    ConnStaysOk(events);
    EarlyDecides(Run(events), OnWritable([]));
    RunMore(events, OnWritable([]));
    EarlyMore(events, OnWritable([]));
    LateMore(events, OnWritable([]));
  }

  /** close_conn follows. */
  lemma Closing(events: seq<Event>) returns (closed: seq<Event>)
    requires Closes(Run(events)) && !Run(events).phase.Closed?
    ensures closed == events + [OnClose]
    ensures Run(closed) == Run(events).(conn := IDLE, phase := Closed(true))
    ensures (EverLate(closed) <==> EverLate(events)) && (EverEarly(closed) <==> EverEarly(events))
  {
    hide Run, EverEarly, EverLate;
    closed := events + [OnClose];
    RunMore(events, OnClose);
    EarlyMore(events, OnClose);
    LateMore(events, OnClose);
  }

  /**
   Two requests in one chunk, both asking to be kept. If a write event is handled before the second
   one's task, the server closes after the first answer, which said that it would not. If close_conn
   comes before the task, the second request, though received whole, is never answered.
   */
  lemma EarlyWriteLosesRequest(m1: Message, m2: Message, site: Site)
    requires Kept(m1) && Kept(m2) && |Print(m1) + Print(m2)| <= RECV_SIZE
    ensures var events := FirstEvents(m1, Print(m2), site) + [OnWritable([])] + [OnClose];
            var s := Run(events);
            && (forall e :: e in events ==> EventOk(e)) && EverEarly(events)
            && s.phase == Closed(true) && s.received == Print(m1) + Print(m2)
            && s.wire == FirstReply(m1, site) && s.log == [FirstExchange(m1, Print(m2), site)]
  {
    hide Print, FirstReply, FirstExchange, HasComplete, Tame, WantsKeepAlive, Run, EverEarly, EverLate, FirstEvents;
    FirstServed(m1, Print(m2), site);
    WholeIsComplete(m2);
    var decided := EarlyDecision(FirstEvents(m1, Print(m2), site));
    var closed := Closing(decided);
  }

  /**
   If the task comes first, between decision and close_conn, the second request is processed by its page
   handler all the same, and its answer stays behind in the output buffer.
   */
  lemma LateTaskHidesAnswer(m1: Message, m2: Message, site: Site)
    requires Kept(m1) && Kept(m2) && |Print(m1) + Print(m2)| <= RECV_SIZE
    ensures var events := FirstEvents(m1, Print(m2), site) + [OnWritable([])] + [OnPipelineTask(site)] + [OnClose];
            var s := Run(events);
            && (forall e :: e in events ==> EventOk(e)) && EverEarly(events) && EverLate(events)
            && s.phase == Closed(true) && s.wire == FirstReply(m1, site)
            && s.log == [FirstExchange(m1, Print(m2), site)] + [FirstExchange(m2, "", site)]
  {
    hide Print, FirstReply, HasComplete, Tame, WantsKeepAlive, Run, EverEarly, EverLate, FirstEvents, AnswerTo, Answer;
    FirstServed(m1, Print(m2), site);
    WholeIsComplete(m2);
    ReadsFirst(m2, "", site);
    assert Print(m2) + "" == Print(m2);
    var decided := EarlyDecision(FirstEvents(m1, Print(m2), site));
    RunMore(decided, OnPipelineTask(site));
    EarlyMore(decided, OnPipelineTask(site));
    LateMore(decided, OnPipelineTask(site));
    var closed := Closing(decided + [OnPipelineTask(site)]);
  }

  lemma WholeIsComplete(m: Message)
    requires Kept(m)
    ensures HasComplete(Print(m))
  {
    hide Print, Need, HeaderEnd, WantsKeepAlive;
    PrintedIsFramed(m);
  }

  /** The same chunk, with the second task first: both are answered, and the server waits for more. */
  lemma TaskFirstAnswersBoth(m1: Message, m2: Message, site: Site)
    requires Kept(m1) && Kept(m2) && |Print(m1) + Print(m2)| <= RECV_SIZE
    ensures var events := BothEvents(m1, m2, site);
            && !EverEarly(events)
            && Run(events) == Session(IDLE, Phase.Reading, Alive, false, 1, Print(m1) + Print(m2), [Print(m1)] + [Print(m2)],
                                      [FirstExchange(m1, Print(m2), site)] + [FirstExchange(m2, "", site)],
                                      FirstReply(m1, site) + FirstReply(m2, site))
  {
    hide Print, FirstReply, HasComplete, CutLength, Tame, WantsKeepAlive, EverEarly, FirstEvents, Run, OnWrite, AnswerTo, Answer;
    var before := FirstEvents(m1, Print(m2), site);
    var e1, e2 := OnPipelineTask(site), OnWritable([Sent(|FirstReply(m2, site)|)]);
    FirstServed(m1, Print(m2), site);
    WholeIsComplete(m2);
    ReadsFirst(m2, "", site);
    assert Print(m2) + "" == Print(m2);
    RunMore(before, e1);
    RunMore(before + [e1], e2);
    EarlyMore(before, e1);
    EarlyMore(before + [e1], e2);
    ReplyIsText(m2, site);
    var s := Run(before + [e1]);
    assert s.conn.writeBuf == FirstReply(m2, site) by { ReplyOfKept(m2, site); }
    SendAll(s);
    NothingIsReady();
    assert Print(m2)[..|Print(m2)|] == Print(m2);
  }

  lemma ReplyOfKept(m: Message, site: Site)
    requires Kept(m)
    ensures Render(AnswerTo(site, m), WantsKeepAlive(Denoted(m))) == FirstReply(m, site)
  {
  }

  /** A second task that asks for EPOLLOUT only after the event loop has gone back to EPOLLIN. */
  lemma LateRearm(m1: Message, m2: Message, site: Site) returns (decided: seq<Event>)
    requires Kept(m1) && Kept(m2) && |Print(m1) + Print(m2)| <= RECV_SIZE
    ensures decided == BothEvents(m1, m2, site) + [OnRearm] + [OnWritable([])]
    ensures Run(BothEvents(m1, m2, site)).phase == Phase.Reading && EverEarly(decided)
    ensures Run(decided) == Session(IDLE, Phase.Reading, Finished, true, 0, Print(m1) + Print(m2), [Print(m1)] + [Print(m2)],
                                    [FirstExchange(m1, Print(m2), site)] + [FirstExchange(m2, "", site)],
                                    FirstReply(m1, site) + FirstReply(m2, site))
  {
    hide Print, FirstReply, FirstExchange, HasComplete, Tame, WantsKeepAlive, Run, EverEarly, EverLate, BothEvents, Step;
    TaskFirstAnswersBoth(m1, m2, site);
    RunMore(BothEvents(m1, m2, site), OnRearm);
    Rearmed(Run(BothEvents(m1, m2, site)));
    decided := EarlyDecision(BothEvents(m1, m2, site) + [OnRearm]);
  }

  /** With everything answered, the next write event then closes a connection that was to be kept. */
  lemma LateRearmCloses(m1: Message, m2: Message, site: Site)
    requires Kept(m1) && Kept(m2) && |Print(m1) + Print(m2)| <= RECV_SIZE
    ensures var events := BothEvents(m1, m2, site) + [OnRearm] + [OnWritable([])] + [OnClose];
            && EverEarly(events) && Run(events).phase == Closed(true)
            && Run(events).wire == FirstReply(m1, site) + FirstReply(m2, site)
  {
    hide Print, FirstReply, FirstExchange, Tame, WantsKeepAlive, Run, EverEarly, EverLate, BothEvents;
    var decided := LateRearm(m1, m2, site);
    var closed := Closing(decided);
  }

  /** And a read task that was queued before it still takes in and processes a third request. */
  lemma LateReadHidesAnswer(m1: Message, m2: Message, m3: Message, site: Site)
    requires Kept(m1) && Kept(m2) && Kept(m3) && |Print(m1) + Print(m2)| <= RECV_SIZE && |Print(m3)| <= RECV_SIZE
    ensures var events := BothEvents(m1, m2, site) + [OnRearm] + [OnWritable([])]
                          + [OnReadTask([Data(Print(m3) + "")], site)] + [OnClose];
            && EverLate(events) && Run(events).phase == Closed(true)
            && |Run(events).log| == 3 && Run(events).log[2] == FirstExchange(m3, "", site)
            && Run(events).wire == FirstReply(m1, site) + FirstReply(m2, site)
  {
    hide Print, FirstReply, FirstExchange, Tame, WantsKeepAlive, Run, EverEarly, EverLate, BothEvents, OnRead, Kept, ReadTurn;
    var decided := LateRearm(m1, m2, site);
    var read := OnReadTask([Data(Print(m3) + "")], site);
    ReadStep(Run(decided), m3, "", site);
    Answering(Run(decided), [Data(Print(m3) + "")], site);
    RunMore(decided, read);
    LateMore(decided, read);
    var closed := Closing(decided + [read]);
  }

  lemma Answering(s: Session, recvs: seq<Recv>, site: Site)
    ensures |OnRead(s, recvs, site).log| > |s.log| ==> ReadTurn(s.conn, recvs, site).exchange.Some?
  {
    hide ReadTurn, ReadFrom;
  }

  lemma Rearmed(s: Session)
    requires !s.phase.Closed? && s.rearms > 0
    ensures Step(s, OnRearm) == s.(out := true, rearms := s.rearms - 1)
  {
  }

  // ---------- A concrete request ----------

  const HOST := Field("Host", "a")

  function Plain(verb: string, fields: seq<Field>): Message { Message(verb, "/", "HTTP/1.1", [HOST] + fields, "") }

  lemma PlainStart(verb: string)
    requires verb == "GET" || verb == "POST"
    ensures IsWord(verb) && IsWord("/") && IsWord("HTTP/1.1")
    ensures FieldOk(HOST) && ToLower("Host") == "host" && !IsLengthField(HOST)
  {
    assert |ToLower("Host")| == 4 && |LENGTH_NAME| == 14;
  }

  lemma PlainSize(verb: string)
    requires verb == "GET" || verb == "POST"
    ensures |Print(Plain(verb, []))| == |verb| + 24
  {
    var l := FieldLine(HOST);
    assert |l| == 7;
    assert FieldLines([HOST]) == [l];
    var start := StartLine(Plain(verb, []));
    assert [start] + [l] == [start, l] && [start, l][1..] == [l] && [l][1..] == [];
    assert Unlines([l]) == l + CRLF + Unlines([]);
    assert Unlines([start, l]) == start + CRLF + Unlines([l]);
    assert |CRLF| == 2 && |start| == |verb| + 11;
    assert [HOST] + [] == [HOST];
  }

  /** `GET /` with a Host field is a request for the theorems on pipelines, and asks to be kept. */
  lemma PlainIsKept()
    ensures Kept(Plain("GET", []))
  {
    PlainStart("GET");
    PlainSize("GET");
    assert [HOST] + [] == [HOST];
    assert forall f :: f in [HOST] ==> f == HOST;
    assert LastField([HOST], "connection") == "" by {
      assert ToLower("Host") != "connection" && [HOST][..0] == [];
    }
  }

  /** Both orders, for two requests as they may come. */
  lemma EarlyWriteRun(site: Site)
    ensures var m := Plain("GET", []);
            var decided := FirstEvents(m, Print(m), site) + [OnWritable([])];
            var s, t := Run(decided + [OnClose]), Run(decided + [OnPipelineTask(site)] + [OnClose]);
            && s.phase == t.phase == Closed(true) && s.received == Print(m) + Print(m)
            && s.wire == t.wire == FirstReply(m, site)
            && |s.log| == 1 && s.log[0].keepAlive
            && |t.log| == 2 && t.log[1].reply == AnswerTo(site, m) && t.log[1].keepAlive
  {
    hide Run, Plain, Print, FirstEvents, FirstReply, AnswerTo;
    PlainIsKept();
    PlainSize("GET");
    EarlyWriteLosesRequest(Plain("GET", []), Plain("GET", []), site);
    LateTaskHidesAnswer(Plain("GET", []), Plain("GET", []), site);
  }

  // ---------- A length whose sum wraps around ----------

  /** A header section of a valid request that announces n bytes, and nothing behind it. */
  function Announcing(verb: string, n: nat): string {
    Layout(verb + " / HTTP/1.1", [HOST, Field("Content-Length", Show(n))], "")
  }

  lemma AnnouncingFields(n: nat)
    requires n < SIZE_MOD
    ensures var fs := [HOST, Field("Content-Length", Show(n))];
            && (forall f :: f in fs ==> FieldOk(f)) && LengthsSay(fs, n)
            && LastField(fs, "host") == "a" && LastField(fs, "connection") == ""
  {
    hide ToLower, FieldOk, LastField, Show;
    var f := Field("Content-Length", Show(n));
    var fs := [HOST, f];
    PlainStart("GET");
    LengthName();
    DigitsAreOk(n);
    HeaderField(f.name, f.value);
    assert f in fs && IsLengthField(f);
    assert |LENGTH_NAME| == 14 && |"host"| == 4 && |"connection"| == 10;
    assert fs[..1] == [HOST] && [HOST][..0] == [];
    LastFieldStep(fs, "host");
    LastFieldStep(fs, "connection");
    LastFieldStep([HOST], "host");
    LastFieldStep([HOST], "connection");
    LastFieldStep([], "connection");
  }

  lemma LastFieldStep(fs: seq<Field>, name: string)
    ensures LastField(fs, name) ==
            if fs == [] then "" else if ToLower(fs[|fs| - 1].name) == name then fs[|fs| - 1].value
            else LastField(fs[..|fs| - 1], name)
  {
  }

  /** It is accepted, with that length and no body, and both readers say n. */
  lemma AnnouncingIsAccepted(verb: string, n: nat) returns (h: nat)
    requires (verb == "GET" || verb == "POST") && n < SIZE_MOD
    ensures var s := Announcing(verb, n);
            && HeaderEnd(s) == Some(h) && h + 4 == |s| && Accepted(s)
            && ScanLength(HeadLines(s, h)) == n
            && Parse(s) == Request(verb, "/", "HTTP/1.1", "a", "", n, "")
  {
    hide Layout, HeadLines, FieldLines, Words, ScanLength, FieldsOk, LastField, LengthsSay, FieldOk;
    var m, fs := Plain(verb, []), [HOST, Field("Content-Length", Show(n))];
    var s, start, ls := Announcing(verb, n), verb + " / HTTP/1.1", FieldLines(fs);
    PlainStart(verb);
    StartLineOk(m);
    assert verb + " " + "/" + " " + "HTTP/1.1" == start;
    AnnouncingFields(n);
    assert s + "" == s;
    h := LayoutHead(start, fs, "", "");
    assert ([start] + ls)[1..] == ls;
    PrintedFieldsOk(fs, n);
    LastValueIs(fs, "host");
    LastValueIs(fs, "connection");
    ReadersAgree(s);
  }

  lemma AnnouncingSize(verb: string, n: nat)
    requires verb == "GET" || verb == "POST"
    ensures |Announcing(verb, n)| == |verb| + 42 + |Show(n)|
  {
    hide Show;
    var f := Field("Content-Length", Show(n));
    var start, l1, l2 := verb + " / HTTP/1.1", FieldLine(HOST), FieldLine(f);
    assert |l1| == 7 && |l2| == 16 + |Show(n)| && |CRLF| == 2;
    assert [HOST, f][1..] == [f] && [f][1..] == [];
    assert FieldLines([f]) == [l2] && FieldLines([HOST, f]) == [l1] + [l2];
    assert [start] + ([l1] + [l2]) == [start] + [l1, l2];
    UnlinesCons(start, [l1, l2]);
    assert [l1, l2] == [l1] + [l2];
    UnlinesCons(l1, [l2]);
    assert [l2] == [l2] + [];
    UnlinesCons(l2, []);
  }

  /** The length with which header section and body sum up to exactly 2^64. */
  function WrapLength(verb: string): nat
    requires |verb| <= 4
  {
    SIZE_MOD - (|verb| + 62)
  }

  lemma WrapDigits(verb: string)
    requires |verb| <= 4
    ensures |Show(WrapLength(verb))| == 20
  {
    assert Pow10(3) == 1_000 && Pow10(6) == 1_000_000 && Pow10(9) == 1_000_000_000;
    assert Pow10(12) == 1_000_000_000_000 && Pow10(15) == 1_000_000_000_000_000;
    assert Pow10(18) == 1_000_000_000_000_000_000;
    assert Pow10(20) == 10 * Pow10(19) && Pow10(19) == 10 * Pow10(18);
    ShowLength(WrapLength(verb), 20);
  }

  function Wrapping(verb: string): string
    requires |verb| <= 4
  {
    Announcing(verb, WrapLength(verb))
  }

  /** Its size_t sum is 0: the request passes for complete, and nothing is cut off for it. */
  lemma WrappingNeedsNothing(verb: string)
    requires verb == "GET" || verb == "POST"
    ensures var s, n := Wrapping(verb), WrapLength(verb);
            && |s| == |verb| + 62 && HeaderEnd(s) == Some(|s| - 4) && Need(s) == 0 && HasComplete(s)
            && CutLength(s) == 0 && |s| < |s| + n
            && Parse(s) == Request(verb, "/", "HTTP/1.1", "a", "", n, "") && WantsKeepAlive(Parse(s))
            && Validate(Parse(s)) == OK && SizeSum(|s| - 4, n) == 0
  {
    hide Announcing, Parse, HeadLines, HeaderEnd, Show, ScanLength;
    WrapDigits(verb);
    AnnouncingSize(verb, WrapLength(verb));
    var h := AnnouncingIsAccepted(verb, WrapLength(verb));
  }

  /** A request is queued of which nothing will be cut off. */
  ghost predicate Stuck(s: Session) {
    && ConnOk(s) && s.phase == Queued && s.fate == Alive
    && HasComplete(s.conn.readBuf) && Need(s.conn.readBuf) == 0 && WantsKeepAlive(Parse(s.conn.readBuf))
  }

  lemma StuckAnswer(s: Session, site: Site) returns (t: Session)
    requires Stuck(s)
    ensures t == Step(s, OnPipelineTask(site)) && t == OnPipeline(s, site)
    ensures t.conn.writeBuf != "" && t.conn.bytesSent == 0 && t.conn.keepAlive && t.conn.readBuf == s.conn.readBuf
    ensures !Early(s, OnPipelineTask(site)) && t.phase == Writing && t.out && t.fate == Alive
  {
    hide Parse, Answer, WantsKeepAlive, HasComplete, Need;
    t := OnPipeline(s, site);
    RenderedIsText(Answered(s.conn, site));
  }

  /** Its task and one write event answer it once more, and leave everything else as it was. */
  lemma StuckRound(events: seq<Event>, site: Site) returns (more: seq<Event>)
    requires Stuck(Run(events))
    ensures Stuck(Run(more)) && |more| == |events| + 2 && events <= more
    ensures Run(more).conn == Run(events).conn && Run(more).received == Run(events).received
    ensures Run(more).log == Run(events).log + [Answered(Run(events).conn, site)]
    ensures (forall e :: e in events ==> EventOk(e)) ==> forall e :: e in more ==> EventOk(e)
    ensures EverEarly(more) <==> EverEarly(events)
  {
    hide Run, Parse, Answer, HeaderEnd, HasComplete, Need, WantsKeepAlive, OnWrite, EverEarly, OnPipeline, Answered;
    var s, e1 := Run(events), OnPipelineTask(site);
    var t := StuckAnswer(s, site);
    var e2 := OnWritable([Sent(|t.conn.writeBuf|)]);
    RunMore(events, e1);
    RunMore(events + [e1], e2);
    EarlyMore(events, e1);
    EarlyMore(events + [e1], e2);
    ConnStaysOk(events + [e1] + [e2]);
    SendAll(t);
    CutsNothing(s.conn.readBuf);
    PipelineKeeps(s, site);
    more := events + [e1] + [e2];
  }

  lemma CutsNothing(buf: string)
    requires HasComplete(buf) && Need(buf) == 0
    ensures CutLength(buf) == 0 && buf[CutLength(buf)..] == buf
  {
    hide HeaderEnd, Need;
  }

  lemma PipelineKeeps(s: Session, site: Site)
    ensures var t := OnPipeline(s, site);
            t.received == s.received && t.log == s.log + [Answered(s.conn, site)]
  {
    hide Render, Answer;
  }

  /** So it is answered as often as one likes, without another byte from the client. */
  lemma {:induction false} AnswersForever(events: seq<Event>, site: Site, k: nat) returns (more: seq<Event>)
    requires Stuck(Run(events)) && forall e :: e in events ==> EventOk(e)
    ensures Stuck(Run(more)) && forall e :: e in more ==> EventOk(e)
    ensures Run(more).conn == Run(events).conn && Run(more).received == Run(events).received
    ensures |Run(more).log| == |Run(events).log| + k && Run(events).log <= Run(more).log
    ensures EverEarly(more) <==> EverEarly(events)
  {
    hide Run, Stuck, EventOk, EverEarly;
    more := events;
    if k > 0 {
      var fewer := AnswersForever(events, site, k - 1);
      more := StuckRound(fewer, site);
    }
  }

  /**
   A run for every number of rounds: two requests, 92 bytes together, the second with a length that
   wraps, are answered k + 1 times, with no write event too early.
   */
  lemma AnsweredWithoutEnd(site: Site, k: nat) returns (events: seq<Event>)
    ensures forall e :: e in events ==> EventOk(e)
    ensures var s := Run(events);
            && |s.log| == k + 1 && s.phase == Queued && s.conn.readBuf == Wrapping("GET")
            && s.received == Print(Plain("GET", [])) + Wrapping("GET") && |s.received| == 92
            && !EverEarly(events)
  {
    hide Run, Wrapping, Print, Parse, Need, HasComplete, WantsKeepAlive, FirstEvents, EverEarly, EventOk, Plain;
    var m, more := Plain("GET", []), Wrapping("GET");
    PlainIsKept();
    PlainSize("GET");
    WrappingNeedsNothing("GET");
    FirstServed(m, more, site);
    ConnStaysOk(FirstEvents(m, more, site));
    events := AnswersForever(FirstEvents(m, more, site), site, k);
  }

  lemma WrappingPost(site: Site)
    ensures var s, req := Wrapping("POST"), Request("POST", "/", "HTTP/1.1", "a", "", WrapLength("POST"), "");
            Answer(s, site) == site.post(req, TokenOf(s))
  {
    hide Wrapping, Parse, HeaderEnd, TokenOf, Need;
    var s := Wrapping("POST");
    WrappingNeedsNothing("POST");
    assert s[|s|..] == "";
  }

  /**
   A POST of that kind, reached the same way: the handler gets an empty body for an announced length
   of almost 2^64.
   */
  lemma PostBodyCutOff(site: Site)
    ensures var events := FirstEvents(Plain("GET", []), Wrapping("POST"), site) + [OnPipelineTask(site)];
            var req := Request("POST", "/", "HTTP/1.1", "a", "", WrapLength("POST"), "");
            && (forall e :: e in events ==> EventOk(e))
            && |Run(events).log| == 2 && Run(events).log[1].seen == Some(Wrapping("POST"))
            && Run(events).log[1].reply == site.post(req, TokenOf(Wrapping("POST")))
            && |req.body| < req.contentLength
  {
    hide Run, Wrapping, Print, Parse, Need, WantsKeepAlive, FirstEvents, Plain, TokenOf, AnswerTo, Answer, Render;
    var m, more := Plain("GET", []), Wrapping("POST");
    PlainIsKept();
    PlainSize("GET");
    WrappingNeedsNothing("POST");
    WrappingPost(site);
    FirstServed(m, more, site);
    RunMore(FirstEvents(m, more, site), OnPipelineTask(site));
  }

  // ---------- A body read as a request ----------

  function HeadOf(m: Message): string
    requires |m.body| <= |Print(m)|
  {
    Print(m)[..|Print(m)| - |m.body|]
  }

  lemma HeadIsServed(m: Message)
    requires WellFormed(m) && m.verb != "POST" && WantsKeepAlive(Denoted(m))
    requires |Print(m)| - |m.body| - 4 <= HEADLIMIT - 3 && |m.body| <= BODYLIMIT
    ensures |m.body| <= |Print(m)| && HeadOf(m) != ""
    ensures Decide(HeadOf(m)) == Some(READY) && WantsKeepAlive(Parse(HeadOf(m)))
    ensures CutLength(HeadOf(m)) == |HeadOf(m)|
  {
    hide Print, Parse, Decide, HeadLines, Need, HeaderEnd, LastField;
    var h := PrintedAlone(m);
    var s, head := Print(m), HeadOf(m);
    HeadStable(head, s);
    ParseStable(head, s);
    DecideOnPrefix(s, head);
  }

  function BodyEvents(m: Message, site: Site): seq<Event>
    requires |m.body| <= |Print(m)|
  {
    [OnReadTask([Data(HeadOf(m))], site)] + [OnRearm] + [OnWritable([Sent(|Rendered(Served(HeadOf(m), site))|)])]
    + [OnReadTask([Data(m.body)], site)]
  }

  lemma HeadRead(m: Message, site: Site)
    requires WellFormed(m) && m.verb != "POST" && WantsKeepAlive(Denoted(m))
    requires |Print(m)| - |m.body| - 4 <= HEADLIMIT - 3 && |m.body| <= BODYLIMIT
    ensures |m.body| <= |Print(m)|
    ensures var head := HeadOf(m);
            Run([OnReadTask([Data(head)], site)] + [OnRearm] + [OnWritable([Sent(|Rendered(Served(head, site))|)])]) ==
            Session(IDLE, Phase.Reading, Alive, false, 0, head, [head], [Served(head, site)], Rendered(Served(head, site)))
  {
    hide Print, Parse, Decide, HasComplete, CutLength, WellFormed, WantsKeepAlive, Served, Rendered, OnRead, OnWrite;
    HeadIsServed(m);
    var head := HeadOf(m);
    var x, none: seq<Event> := Served(head, site), [];
    var e0, e2 := OnReadTask([Data(head)], site), OnWritable([Sent(|Rendered(x)|)]);
    RenderedIsText(x);
    ReadChunk(START, head, site);
    assert none + [e0] == [e0] && "" + head == head && [] + [x] == [x] && "" + Rendered(x) == Rendered(x);
    RunMore(none, e0);
    RunMore([e0], OnRearm);
    RunMore([e0] + [OnRearm], e2);
    SendAll(Run([e0] + [OnRearm]));
    NothingIsReady();
    assert head[..|head|] == head && head[|head|..] == "" && [] + [head] == [head];
  }

  lemma BodyRead(s: Session, inner: Message, site: Site)
    requires Kept(inner) && s.conn == IDLE && CanRead(s)
    ensures var t := Step(s, OnReadTask([Data(Print(inner))], site));
            t.received == s.received + Print(inner) && t.log == s.log + [FirstExchange(inner, "", site)]
  {
    hide Print, OnRead, Kept, FirstExchange, FirstReply;
    assert Print(inner) + "" == Print(inner);
    ReadStep(s, inner, "", site);
  }

  /**
   A request that is not a POST and whose body is itself a printed request: if head and body arrive
   in two chunks, the body is left behind, read as a request and answered as one.
   */
  lemma BodyIsServed(m: Message, inner: Message, site: Site)
    requires WellFormed(m) && m.verb != "POST" && WantsKeepAlive(Denoted(m)) && Kept(inner)
    requires m.body == Print(inner) && |Print(m)| <= RECV_SIZE
    ensures |m.body| <= |Print(m)|
    ensures var events := BodyEvents(m, site);
            && (forall e :: e in events ==> EventOk(e)) && Run(events).received == Print(m)
            && Run(events).log == [Served(HeadOf(m), site)] + [FirstExchange(inner, "", site)]
  {
    hide Run, Print, WellFormed, WantsKeepAlive, Served, Rendered, Step, Denoted, FirstExchange, Kept;
    HeadFits(m);
    HeadRead(m, site);
    var head := HeadOf(m);
    var before := [OnReadTask([Data(head)], site)] + [OnRearm] + [OnWritable([Sent(|Rendered(Served(head, site))|)])];
    RunMore(before, OnReadTask([Data(m.body)], site));
    BodyRead(Run(before), inner, site);
    PrintedBody(m);
    PrintBytes(inner, "");
    assert Print(inner) + "" == Print(inner) && head + m.body == Print(m);
  }

  lemma HeadFits(m: Message)
    requires WellFormed(m) && m.verb != "POST" && WantsKeepAlive(Denoted(m)) && |Print(m)| <= RECV_SIZE
    ensures |m.body| <= |Print(m)| && HeadOf(m) != "" && |HeadOf(m)| <= RECV_SIZE
    ensures |Print(m)| - |m.body| - 4 <= HEADLIMIT - 3 && |m.body| <= BODYLIMIT
  {
    hide Print, WellFormed, WantsKeepAlive, Denoted;
    var h := PrintedAlone(m);
  }

  lemma PrintedBody(m: Message)
    ensures |m.body| <= |Print(m)| && Print(m)[|Print(m)| - |m.body|..] == m.body
  {
    hide Unlines, FieldLines;
  }

  /** A GET that carries another GET in its body. */
  function Nesting(): Message {
    var inner := Print(Plain("GET", []));
    Message("GET", "/", "HTTP/1.1", [HOST, Field("Content-Length", Show(27))], inner)
  }

  lemma NestingOk()
    ensures var m := Nesting();
            && WellFormed(m) && WantsKeepAlive(Denoted(m)) && |Print(m)| == 74
  {
    hide ToLower, FieldOk, LastField, LengthsSay, Show;
    PlainStart("GET");
    PlainSize("GET");
    AnnouncingFields(27);
    AnnouncingSize("GET", 27);
    assert Pow10(2) == 100 && Pow10(1) == 10;
    ShowLength(27, 2);
    var m := Nesting();
    assert StartLine(m) == "GET" + " / HTTP/1.1";
    assert Print(m) == Announcing("GET", 27) + m.body;
    EmptyToLower();
  }

  lemma EmptyToLower()
    ensures ToLower("") == ""
  {
  }

  lemma BodyIsServedRun(site: Site)
    ensures var m, inner := Nesting(), Plain("GET", []);
            && |m.body| <= |Print(m)| && Run(BodyEvents(m, site)).received == Print(m)
            && |Run(BodyEvents(m, site)).log| == 2
            && Run(BodyEvents(m, site)).log[1] == FirstExchange(inner, "", site)
  {
    hide Run, Print, FirstExchange, WellFormed, WantsKeepAlive, Denoted, BodyEvents;
    NestingOk();
    PlainIsKept();
    BodyIsServed(Nesting(), Plain("GET", []), site);
  }

  // ---------- A cookie that is not found ----------

  lemma NoCookieText(line: string)
    requires 'C' !in line
    ensures Find(line, COOKIE, 0).None?
  {
    hide Find;
    CookieHasNoCr();
    forall i: nat ensures !MatchAt(line, COOKIE, i) {
      if i + 8 <= |line| {
        assert line[i..i + 8][0] == line[i] && line[i] in line;
      }
    }
  }

  lemma CookieField(name: string)
    requires name == "cookie" || name == "Cookie"
    ensures WellFormed(Plain("GET", [Field(name, "session_token=x")]))
    ensures Find("session_token=x", COOKIE, 0).None? && TokenIn("session_token=x") == Some("x")
    ensures Find(FieldLine(HOST), COOKIE, 0).None? && Find("GET / HTTP/1.1", COOKIE, 0).None?
  {
    hide Find, ToLower, TokenIn;
    var v := "session_token=x";
    NoCookieText(v);
    NoCookieText("GET / HTTP/1.1");
    NoCookieText(FieldLine(HOST));
    OwnToken("", "x", "");
    assert "" + (TOKEN_KEY + ("x" + "")) == v;
    NothingHasNoKey();
    CookieMessage(name, v);
  }

  lemma CookieMessage(name: string, v: string)
    requires name == "cookie" || name == "Cookie"
    requires v == "session_token=x"
    ensures WellFormed(Plain("GET", [Field(name, v)]))
  {
    PlainStart("GET");
    var f := Field(name, v);
    assert [HOST] + [f] == [HOST, f];
    assert |ToLower(name)| == 6 && |LENGTH_NAME| == 14;
    assert FieldOk(f);
    assert forall g :: g in [HOST, f] ==> g == HOST || g == f;
    CookieSize(f);
  }

  lemma CookieSize(f: Field)
    requires |f.name| + |f.value| < 100
    ensures |Print(Plain("GET", [f]))| < SIZE_MOD
  {
    var start, l1, l2 := "GET / HTTP/1.1", FieldLine(HOST), FieldLine(f);
    assert [HOST] + [f] == [HOST, f] && [HOST, f][1..] == [f] && [f][1..] == [];
    assert FieldLines([f]) == [l2] && FieldLines([HOST, f]) == [l1] + [l2];
    assert [start] + ([l1] + [l2]) == [start] + [l1, l2];
    UnlinesCons(start, [l1, l2]);
    assert [l1, l2] == [l1] + [l2];
    UnlinesCons(l1, [l2]);
    assert [l2] == [l2] + [];
    UnlinesCons(l2, []);
  }

  /** The same cookie under the same name in two spellings: one is found, the other is not. */
  lemma LowerCaseCookieIsMissed()
    ensures TokenOf(Print(Plain("GET", [Field("Cookie", "session_token=x")]))) == Some("x")
    ensures TokenOf(Print(Plain("GET", [Field("cookie", "session_token=x")]))) == None
  {
    CookieTokenIs("Cookie");
    CookieTokenIs("cookie");
    assert "Cookie"[0..] == "Cookie" && "cookie"[0..] == "cookie" && "cookie"[0] != "Cookie"[0];
  }

  lemma CookieTokenIs(name: string)
    requires name == "cookie" || name == "Cookie"
    ensures TokenOf(Print(Plain("GET", [Field(name, "session_token=x")]))) ==
            if EndsInCookie(name) then Some("x") else None
  {
    hide Find, TokenIn, Print, TokenOf, WellFormed, FieldLine;
    var m := Plain("GET", [Field(name, "session_token=x")]);
    CookieField(name);
    assert Print(m) + "" == Print(m);
    assert [HOST] + [Field(name, "session_token=x")] == [HOST, Field(name, "session_token=x")];
    assert StartLine(m) == "GET / HTTP/1.1";
    assert m.fields[1] == Field(name, "session_token=x") && m.fields[0] == HOST;
    TokenIsFoundIff(m, 1, "");
  }
}
