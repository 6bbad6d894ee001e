/** How large the read buffer gets, and that a POST handler never sees a cut-off body. */
module BufferBounds {
  import opened Wrappers
  import opened Text
  import opened Decimal
  import opened Framing
  import opened Requests
  import opened Responses
  import opened Sessions
  import opened HttpConnection
  import opened Reading
  import opened Cycle

  /** The largest buffer read_once goes on receiving into, and the largest it can leave behind. */
  const MAX_WAITING: nat := HEADLIMIT + 4 + BODYLIMIT - 1
  const MAX_BUFFER: nat := MAX_WAITING + RECV_SIZE

  /** A buffer the server waits on: no verdict so far, or a short incomplete leftover. */
  ghost predicate Quiet(buf: string) {
    Decide(buf).None? || (|buf| < RECV_SIZE && !HasComplete(buf))
  }

  lemma QuietIsBounded(buf: string)
    requires Quiet(buf)
    ensures |buf| <= MAX_WAITING
  {
    hide HeaderEnd, Parse, HasComplete;
  }

  lemma ReadyNeed(b: string)
    requires Decide(b) == Some(READY)
    ensures HeaderEnd(b).Some? && HeaderEnd(b).value <= HEADLIMIT && Parse(b).contentLength <= BODYLIMIT
    ensures Accepted(b) ==> Need(b) == HeaderEnd(b).value + 4 + Parse(b).contentLength
  {
    hide HeaderEnd, HeadLines, Parse, Accepted;
    if Accepted(b) {
      ReadersAgree(b);
    }
  }

  /** The chunk that completes a request brings everything that is left over. */
  lemma LeftoverIsSmall(a: string, b: string)
    requires a <= b && |b| - |a| <= RECV_SIZE && Quiet(a)
    requires Decide(b) == Some(READY) && WantsKeepAlive(Parse(b))
    ensures |b| - CutLength(b) < RECV_SIZE
  {
    hide HeaderEnd, HeadLines, Parse, Accepted;
    KeptMeansAccepted(b);
    ReadyNeed(b);
    if |a| >= Need(b) {
      HeadStable(a, b);
      EndFits(b);
      ParseStable(a, b);
      DecideOnPrefix(b, a);
    }
  }

  ghost predicate ReadBounds(r: ReadResult) {
    && |r.buf| <= MAX_BUFFER
    && (r.state in {AGAIN, CLOSED, ERROR} ==> Quiet(r.buf))
    && (r.state == READY ==>
          && Decide(r.buf) == Some(READY)
          && (WantsKeepAlive(Parse(r.buf)) ==> |r.buf| - CutLength(r.buf) < RECV_SIZE))
  }

  lemma {:induction false} ReadKeepsBounds(buf: string, net: seq<Recv>, i: nat)
    requires Quiet(buf) && NetOk(net)
    ensures ReadBounds(ReadFrom(buf, net, i))
    decreases |net| - i
  {
    hide Decide, HasComplete, WantsKeepAlive, CutLength;
    QuietIsBounded(buf);
    if i < |net| && net[i].Data? {
      assert RecvOk(net[i]);
      var b := buf + net[i].bytes;
      DecideIsFinal(b);
      if Decide(b).None? {
        ReadKeepsBounds(b, net, i + 1);
      } else if Decide(b) == Some(READY) && WantsKeepAlive(Parse(b)) {
        LeftoverIsSmall(buf, b);
      }
    }
  }

  ghost predicate BufferOk(s: Session) {
    && |s.conn.readBuf| <= MAX_BUFFER
    && (s.phase == Phase.Reading ==> Quiet(s.conn.readBuf))
    && (s.phase == Queued ==> |s.conn.readBuf| < RECV_SIZE && HasComplete(s.conn.readBuf))
    && (s.phase == Writing && s.conn.keepAlive ==>
          |s.conn.readBuf| - CutLength(s.conn.readBuf) < RECV_SIZE)
  }

  lemma ReadTurnBounds(c: Conn, recvs: seq<Recv>, site: Site)
    requires Quiet(c.readBuf) && NetOk(recvs)
    ensures var t := ReadTurn(c, recvs, site);
            var buf := t.conn.readBuf;
            && |buf| <= MAX_BUFFER && t.next in {AwaitMore, AwaitOutput, CloseIt}
            && (t.next != AwaitOutput ==> Quiet(buf))
            && (t.next == AwaitOutput && t.conn.keepAlive ==> |buf| - CutLength(buf) < RECV_SIZE)
  {
    hide Decide, HasComplete, CutLength, ReadFrom, Render, Answer, WantsKeepAlive, Parse, Quiet;
    ReadKeepsBounds(c.readBuf, recvs, 0);
  }

  lemma BufferRead(s: Session, recvs: seq<Recv>, site: Site)
    requires BufferOk(s) && CanRead(s) && NetOk(recvs)
    ensures BufferOk(OnRead(s, recvs, site))
  {
    hide HasComplete, CutLength, ReadFrom, ReadTurn, Quiet;
    ReadTurnBounds(s.conn, recvs, site);
  }

  lemma BufferWrite(s: Session, sends: seq<Send>)
    requires BufferOk(s) && CanWrite(s) && s.phase == Writing
    ensures BufferOk(OnWrite(s, sends))
  {
    hide Decide, HasComplete, CutLength, WriteFrom;
  }

  lemma BufferStep(s: Session, e: Event)
    requires BufferOk(s) && ConnOk(s) && EventOk(e)
    ensures BufferOk(Step(s, e))
  {
    hide HasComplete, CutLength, OnRead, OnWrite, Render, Answer, WantsKeepAlive, Parse, Quiet;
    match e
    case OnReadTask(recvs, site) =>
      if CanRead(s) { BufferRead(s, recvs, site); }
    case OnWritable(sends) =>
      if Early(s, e) { EarlyDecides(s, e); }
      else if CanWrite(s) { BufferWrite(s, sends); }
    case OnPipelineTask(site) =>
    case OnRearm =>
    case OnClose =>
    case OnDrop =>
  }

  lemma EmptyIsQuiet()
    ensures Quiet("")
  {
  }

  /**
   Over every run: the buffer never exceeds MAX_BUFFER, what the server waits on never exceeds
   MAX_WAITING, and every reset leaves less than one recv buffer behind.
   */
  lemma {:induction false} BuffersAreBounded(events: seq<Event>)
    requires forall e :: e in events ==> EventOk(e)
    ensures BufferOk(Run(events))
    ensures |Run(events).conn.readBuf| <= 8192 + 4 + 1048576 - 1 + 4096
    ensures Run(events).phase == Phase.Reading ==> |Run(events).conn.readBuf| <= 8192 + 4 + 1048576 - 1
    ensures Run(events).phase == Queued ==> |Run(events).conn.readBuf| <= 4095
  {
    hide Decide, HasComplete, CutLength, Step, ConnOk;
    if events == [] {
      EmptyIsQuiet();
    } else {
      var before, e := events[..|events| - 1], events[|events| - 1];
      assert e in events;
      BuffersAreBounded(before);
      ConnStaysOk(before);
      BufferStep(Run(before), e);
    }
    if Run(events).phase == Phase.Reading {
      QuietIsBounded(Run(events).conn.readBuf);
    }
  }

  // ---------- POST bodies ----------

  /** A buffer that is handed to process: by read_once, or as a complete leftover. */
  ghost predicate Ready(buf: string) { Decide(buf) == Some(READY) || HasComplete(buf) }

  /** On either path a POST passes both guards of handle_post. */
  lemma PostPassesGuards(buf: string)
    requires Ready(buf) && Validate(Parse(buf)) == OK && Parse(buf).verb == "POST"
    ensures PostGuards(buf, Parse(buf))
  {
    hide HeaderEnd, HeadLines, Parse, Accepted;
    ValidMeansAccepted(buf);
    ReadersAgree(buf);
  }

  /**
   The body a POST handler gets has exactly the announced length, unless the sum of header section
   and length wraps around in size_t; then, and only then, it is cut off at the end of the buffer.
   On the read path the length limit rules that out.
   */
  lemma PostBodyIsWholeIff(buf: string)
    requires Ready(buf) && Validate(Parse(buf)) == OK && Parse(buf).verb == "POST"
    requires |buf| < SIZE_MOD
    ensures HeaderEnd(buf).Some?
    ensures var h, n := HeaderEnd(buf).value, Parse(buf).contentLength;
            && (|PostRequest(buf, Parse(buf)).body| == n <==> h + 4 + n < SIZE_MOD)
            && (h + 4 + n < SIZE_MOD ==>
                  && h + 4 + n <= |buf|
                  && PostRequest(buf, Parse(buf)).body == buf[h + 4..h + 4 + n])
            && (Decide(buf) == Some(READY) ==> h + 4 + n < SIZE_MOD)
  {
    hide HeadLines, Parse, Accepted, HeaderEnd;
    EndFits(buf);
    PostPassesGuards(buf);
    if Decide(buf) == Some(READY) {
      ReadyNeed(buf);
    }
  }

  ghost predicate AnsweredOk(x: Exchange) {
    match x.seen
    case None => !x.keepAlive
    case Some(buf) =>
      Ready(buf) && x.reply == Answer(buf, x.site) && x.keepAlive == WantsKeepAlive(Parse(buf))
  }

  ghost predicate LogReady(s: Session) {
    forall x :: x in s.log ==> AnsweredOk(x)
  }

  lemma ReadAnswerOk(c: Conn, recvs: seq<Recv>, site: Site)
    requires Quiet(c.readBuf) && NetOk(recvs)
    ensures var t := ReadTurn(c, recvs, site); t.exchange.Some? ==> AnsweredOk(t.exchange.value)
  {
    hide Decide, HasComplete, CutLength, ReadFrom, Render, Answer, WantsKeepAlive, Parse, Quiet;
    ReadKeepsBounds(c.readBuf, recvs, 0);
  }

  lemma LogReadyRead(s: Session, recvs: seq<Recv>, site: Site)
    requires LogReady(s) && NetOk(recvs) && BufferOk(s) && CanRead(s)
    ensures LogReady(OnRead(s, recvs, site))
  {
    hide AnsweredOk, ReadTurn, ReadFrom, Quiet, HasComplete, CutLength;
    ReadAnswerOk(s.conn, recvs, site);
  }

  lemma LogReadyStep(s: Session, e: Event)
    requires LogReady(s) && EventOk(e) && BufferOk(s)
    ensures LogReady(Step(s, e))
  {
    hide OnRead, HasComplete, CutLength, Render, WriteFrom, Answer, WantsKeepAlive, Parse, Quiet;
    match e
    case OnReadTask(recvs, site) =>
      if CanRead(s) { LogReadyRead(s, recvs, site); }
    case OnWritable(sends) =>
    case OnPipelineTask(site) =>
    case OnRearm =>
    case OnClose =>
    case OnDrop =>
  }

  lemma {:induction false} AnsweredWhenReady(events: seq<Event>)
    requires forall e :: e in events ==> EventOk(e)
    ensures LogReady(Run(events))
  {
    hide Decide, HasComplete, Step;
    if events != [] {
      var before, e := events[..|events| - 1], events[|events| - 1];
      assert e in events;
      AnsweredWhenReady(before);
      BuffersAreBounded(before);
      LogReadyStep(Run(before), e);
    }
  }

  /**
   In every run, no POST is ever answered by one of the 400 guards of handle_post: it is always
   the page handler that answers, on the body cut from the buffer.
   */
  lemma PostGuardsAreDead(events: seq<Event>, x: Exchange)
    requires forall e :: e in events ==> EventOk(e)
    requires x in Run(events).log && x.seen.Some?
    requires Validate(Parse(x.seen.value)) == OK && Parse(x.seen.value).verb == "POST"
    ensures HeaderEnd(x.seen.value).Some?
    ensures x.reply == x.site.post(PostRequest(x.seen.value, Parse(x.seen.value)), TokenOf(x.seen.value))
  {
    hide Parse, Validate, Run;
    AnsweredWhenReady(events);
    PostPassesGuards(x.seen.value);
  }

  // ---------- Pipelined requests ----------

  lemma {:induction false} ScanFits(ls: seq<string>)
    ensures ScanLength(ls) < SIZE_MOD
  {
    if ls != [] {
      ScanFits(ls[1..]);
    }
  }

  /**
   The pipeline path has no size limits. has_complete_request tells the truth about a buffer exactly
   when the sum of header section and length does not wrap around in size_t; a sum that wraps always
   passes for complete, and the reset then cuts inside the header section.
   */
  lemma CompletenessIsExactIff(buf: string)
    requires HeaderEnd(buf).Some? && |buf| < SIZE_MOD
    ensures var h, n := HeaderEnd(buf).value, ScanLength(HeadLines(buf, HeaderEnd(buf).value));
            && ((HasComplete(buf) <==> |buf| >= h + 4 + n) <==> h + 4 + n < SIZE_MOD)
            && (h + 4 + n >= SIZE_MOD ==> HasComplete(buf) && CutLength(buf) < h + 4)
            && (h + 4 + n < SIZE_MOD && HasComplete(buf) ==> CutLength(buf) == h + 4 + n)
  {
    hide HeaderEnd, HeadLines;
    EndFits(buf);
    ScanFits(HeadLines(buf, HeaderEnd(buf).value));
  }

  /**
   Each round of the pipeline makes the buffer shorter if and only if that sum is not 2^64; if it is,
   the buffer stays as it is and passes for complete again.
   */
  lemma ProgressIff(c: Conn)
    requires HasComplete(c.readBuf) && |c.readBuf| < SIZE_MOD
    ensures var h, n := HeaderEnd(c.readBuf).value, ScanLength(HeadLines(c.readBuf, HeaderEnd(c.readBuf).value));
            && (|Reset(c).readBuf| < |c.readBuf| <==> h + 4 + n != SIZE_MOD)
            && (h + 4 + n == SIZE_MOD ==> Reset(c).readBuf == c.readBuf)
  {
    hide HeaderEnd, HeadLines;
    EndFits(c.readBuf);
    ScanFits(HeadLines(c.readBuf, HeaderEnd(c.readBuf).value));
  }
}
