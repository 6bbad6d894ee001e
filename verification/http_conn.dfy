/**
 One client connection: `class HttpConn`. What the kernel answers to recv and send, the files on
 disk and the page handlers are inputs; everything between them is the server's own.
 */
module HttpConnection {
  import opened Wrappers
  import opened Text
  import opened Framing
  import opened Requests
  import opened Responses
  import opened Sessions

  const HEADLIMIT: nat := 8 * 1024
  const BODYLIMIT: nat := 1024 * 1024
  const RECV_SIZE: nat := 4096

  datatype IOState = READY | AGAIN | CLOSED | ERROR | HEAD_TOO_LARGE | BODY_TOO_LARGE

  /** One result of recv: bytes, the peer's end of stream, EAGAIN, or another error. */
  datatype Recv = Data(bytes: string) | Eof | RecvBlocked | RecvFailed

  predicate RecvOk(r: Recv) { r.Data? ==> 0 < |r.bytes| <= RECV_SIZE }

  predicate NetOk(net: seq<Recv>) { forall r :: r in net ==> RecvOk(r) }

  /** One result of send: how many bytes were taken (never more than offered), EAGAIN, or an error. */
  datatype Send = Sent(count: nat) | SendBlocked | SendFailed

  /** The part of the object's state that decides what it does next. */
  datatype Conn = Conn(readBuf: string, writeBuf: string, bytesSent: nat, keepAlive: bool)
  {
    ghost predicate Valid() { bytesSent <= |writeBuf| }
  }

  const IDLE := Conn("", "", 0, false)

  // ---------- Reading ----------

  /** What read_once concludes from its buffer after a chunk; None where it keeps receiving. */
  function Decide(buf: string): Option<IOState> {
    match HeaderEnd(buf)
    case None => if |buf| > HEADLIMIT then Some(HEAD_TOO_LARGE) else None
    case Some(h) =>
      if h > HEADLIMIT then Some(HEAD_TOO_LARGE)
      else
        var req := Parse(buf);
        if req.contentLength > BODYLIMIT then Some(BODY_TOO_LARGE)
        else if req.verb == "POST" && |buf| < SizeSum(h, req.contentLength) then None
        else Some(READY)
  }

  datatype ReadResult = ReadResult(state: IOState, used: nat, buf: string)

  /** read_once on a buffer, from the i-th recv result on; after the last one recv would block. */
  function ReadFrom(buf: string, net: seq<Recv>, i: nat): ReadResult
    decreases |net| - i
  {
    if i >= |net| then ReadResult(AGAIN, i, buf)
    else match net[i]
      case Data(bytes) =>
        (match Decide(buf + bytes)
         case Some(st) => ReadResult(st, i + 1, buf + bytes)
         case None => ReadFrom(buf + bytes, net, i + 1))
      case Eof => ReadResult(CLOSED, i + 1, buf)
      case RecvBlocked => ReadResult(AGAIN, i + 1, buf)
      case RecvFailed => ReadResult(ERROR, i + 1, buf)
  }

  // ---------- Writing ----------

  datatype WriteResult = WriteResult(state: IOState, used: nat, sent: nat)

  function Min(a: nat, b: nat): nat { if a < b then a else b }

  /** write() with `sent` of `total` bytes gone, from the i-th send result on. */
  function WriteFrom(sent: nat, total: nat, net: seq<Send>, i: nat): (r: WriteResult)
    requires sent <= total
    ensures sent <= r.sent <= total
    ensures r.state in {READY, AGAIN, ERROR}
    ensures r.state == READY <==> r.sent == total
    decreases |net| - i
  {
    if sent == total then WriteResult(READY, i, sent)
    else if i >= |net| then WriteResult(AGAIN, i, sent)
    else match net[i]
      case Sent(n) =>
        if n > 0 then WriteFrom(sent + Min(n, total - sent), total, net, i + 1)
        else WriteResult(ERROR, i + 1, sent)
      case SendBlocked => WriteResult(AGAIN, i + 1, sent)
      case SendFailed => WriteResult(ERROR, i + 1, sent)
  }

  // ---------- Answering ----------

  datatype Verdict = OK | BadRequest | NotAllowed

  function Validate(req: Request): Verdict {
    if req.verb == "" || req.url == "" || req.version == "" then BadRequest
    else if req.verb != "GET" && req.verb != "POST" then NotAllowed
    else if req.version != "HTTP/1.1" && req.version != "HTTP/1.0" then BadRequest
    else if req.version == "HTTP/1.1" && req.host == "" then BadRequest
    else if req.connection != "" && req.connection != "close" && req.connection != "keep-alive" then BadRequest
    else if req.url[0] != '/' then BadRequest
    else OK
  }

  /** HTTP/1.1 persists unless told otherwise, anything else only when told (RFC 9112 section 9.3). */
  function WantsKeepAlive(req: Request): bool {
    if req.version == "HTTP/1.1" then req.connection != "close" else req.connection == "keep-alive"
  }

  /**
   The world behind the handlers at one moment: file contents by name, and the page handlers, which
   see the request and the session token found in the buffer.
   */
  datatype Site = Site(file: string -> string,
                       get: (Request, Option<string>) -> Reply, post: (Request, Option<string>) -> Reply)

  const HTML := "text/html; charset=UTF-8"

  function ErrorPage(site: Site, status: string, file: string, fallback: string): Reply {
    Page(status, HTML, if site.file(file) == "" then fallback else site.file(file), "")
  }

  function Page400(site: Site): Reply {
    ErrorPage(site, "400 Bad Request", "400.html", "<h1>400 Bad Request</h1>")
  }

  function Page405(site: Site): Reply {
    ErrorPage(site, "405 Method Not Allowed", "405.html", "<h1>405 Method Not Allowed</h1>")
  }

  function Page413(site: Site): Reply {
    ErrorPage(site, "413 Payload Too Large", "413.html", "<h1>413 Payload Too Large</h1>")
  }

  function Page431(site: Site): Reply {
    ErrorPage(site, "431 Request Header Fields Too Large", "431.html",
              "<h1>431 Request Header Fields Too Large</h1>")
  }

  /** The two guards of handle_post: the header end is there, and so are body_start + length bytes. */
  predicate PostGuards(buf: string, req: Request) {
    HeaderEnd(buf).Some? && |buf| >= SizeSum(HeaderEnd(buf).value, req.contentLength)
  }

  /** The request handle_post works on: the body is cut from the buffer again. */
  function PostRequest(buf: string, req: Request): Request
    requires HeaderEnd(buf).Some?
  {
    req.(body := BodyOf(buf, HeaderEnd(buf).value, req.contentLength))
  }

  function Answer(buf: string, site: Site): Reply {
    var req := Parse(buf);
    match Validate(req)
    case BadRequest => Page400(site)
    case NotAllowed => Page405(site)
    case OK =>
      if req.verb == "GET" then site.get(req, TokenOf(buf))
      else if PostGuards(buf, req) then site.post(PostRequest(buf, req), TokenOf(buf))
      else Page400(site)
  }

  function WithReply(c: Conn, r: Reply, keepAlive: bool): Conn {
    c.(keepAlive := keepAlive, writeBuf := Render(r, keepAlive), bytesSent := 0)
  }

  function Processed(c: Conn, site: Site): Conn {
    WithReply(c, Answer(c.readBuf, site), WantsKeepAlive(Parse(c.readBuf)))
  }

  // ---------- The next request ----------

  /** How many bytes reset_for_next_request takes off the front of the buffer. */
  function CutLength(buf: string): (n: nat)
    ensures n <= |buf|
  {
    if HeaderEnd(buf).None? then |buf| else Min(Need(buf), |buf|)
  }

  function Reset(c: Conn): Conn { Conn(c.readBuf[CutLength(c.readBuf)..], "", 0, false) }

  /** `class HttpConn`. The file descriptor and the summary kept for the log are not modelled here. */
  class HttpConn {
    var readBuf: string
    var writeBuf: string
    var bytesSent: nat
    var keepAlive: bool

    function State(): Conn
      reads this
    {
      Conn(readBuf, writeBuf, bytesSent, keepAlive)
    }

    constructor ()
      ensures State() == IDLE
    {
      readBuf, writeBuf, bytesSent, keepAlive := "", "", 0, false;
    }

    /** `init` and `close_conn` leave the same buffers behind. */
    method Clear()
      modifies this
      ensures State() == IDLE
    {
      readBuf, writeBuf, bytesSent, keepAlive := "", "", 0, false;
    }

    method ReadOnce(net: seq<Recv>) returns (st: IOState, used: nat)
      modifies this`readBuf
      ensures ReadFrom(old(readBuf), net, 0) == ReadResult(st, used, readBuf)
    {
      hide Decide;
      used := 0;
      while used < |net|
        invariant ReadFrom(readBuf, net, used) == ReadFrom(old(readBuf), net, 0)
      {
        var rn := net[used];
        used := used + 1;
        match rn {
          case Data(bytes) =>
            readBuf := readBuf + bytes;
            var decision := AfterChunk();
            if decision.Some? {
              return decision.value, used;
            }
          case Eof => return CLOSED, used;
          case RecvBlocked => return AGAIN, used;
          case RecvFailed => return ERROR, used;
        }
      }
      return AGAIN, used;
    }

    /** The checks read_once makes after appending a chunk. */
    method AfterChunk() returns (r: Option<IOState>)
      ensures r == Decide(readBuf)
    {
      var headerEnd := HeaderEnd(readBuf);
      if headerEnd.None? {
        if |readBuf| > HEADLIMIT {
          return Some(HEAD_TOO_LARGE);
        }
        return None;
      } else if headerEnd.value > HEADLIMIT {
        return Some(HEAD_TOO_LARGE);
      }
      var req := ParseRequest(readBuf);
      if req.contentLength > BODYLIMIT {
        return Some(BODY_TOO_LARGE);
      }
      if req.verb == "POST" {
        if |readBuf| < SizeSum(headerEnd.value, req.contentLength) {
          return None;
        }
      }
      return Some(READY);
    }

    /** `out` is what the kernel took, to be put on the wire. */
    method Write(net: seq<Send>) returns (st: IOState, used: nat, out: string)
      requires State().Valid()
      modifies this`bytesSent
      ensures State().Valid()
      ensures WriteFrom(old(bytesSent), |writeBuf|, net, 0) == WriteResult(st, used, bytesSent)
      ensures old(bytesSent) <= bytesSent && out == writeBuf[old(bytesSent)..bytesSent]
    {
      used := 0;
      out := "";
      while bytesSent < |writeBuf|
        invariant old(bytesSent) <= bytesSent <= |writeBuf| && used <= |net|
        invariant out == writeBuf[old(bytesSent)..bytesSent]
        invariant WriteFrom(bytesSent, |writeBuf|, net, used) == WriteFrom(old(bytesSent), |writeBuf|, net, 0)
        decreases |net| - used
      {
        if used == |net| {
          return AGAIN, used, out;
        }
        var wn := net[used];
        used := used + 1;
        if wn.Sent? && wn.count > 0 {
          var n := Min(wn.count, |writeBuf| - bytesSent);
          out := out + writeBuf[bytesSent..bytesSent + n];
          bytesSent := bytesSent + n;
        } else if wn.SendBlocked? {
          return AGAIN, used, out;
        } else {
          return ERROR, used, out;
        }
      }
      return READY, used, out;
    }

    method SetReply(r: Reply)
      modifies this`writeBuf, this`bytesSent
      ensures State() == WithReply(old(State()), r, keepAlive)
    {
      writeBuf := Render(r, keepAlive);
      bytesSent := 0;
    }

    method Set431(site: Site)
      modifies this
      ensures State() == WithReply(old(State()), Page431(site), false)
    {
      keepAlive := false;
      SetReply(Page431(site));
    }

    method Set413(site: Site)
      modifies this
      ensures State() == WithReply(old(State()), Page413(site), false)
    {
      keepAlive := false;
      SetReply(Page413(site));
    }

    /** `handle_post` up to the dispatch by URL. */
    method HandlePost(req: Request, site: Site) returns (r: Reply)
      ensures r == if PostGuards(readBuf, req) then site.post(PostRequest(readBuf, req), TokenOf(readBuf))
                   else Page400(site)
    {
      var headerEnd := HeaderEnd(readBuf);
      if headerEnd.None? {
        return Page400(site);
      }
      if |readBuf| < SizeSum(headerEnd.value, req.contentLength) {
        return Page400(site);
      }
      var token := SessionToken(readBuf);
      return site.post(req.(body := BodyOf(readBuf, headerEnd.value, req.contentLength)), token);
    }

    /** Always true: the callers' branch that closes the connection on false is dead. */
    method Process(site: Site) returns (ok: bool)
      modifies this
      ensures ok && State() == Processed(old(State()), site)
    {
      var req := ParseRequest(readBuf);
      var res := Validate(req);
      if req.version == "HTTP/1.1" {
        keepAlive := req.connection != "close";
      } else {
        keepAlive := req.connection == "keep-alive";
      }
      var r: Reply;
      if res == BadRequest {
        r := Page400(site);
      } else if res == NotAllowed {
        r := Page405(site);
      } else if req.verb == "GET" {
        var token := SessionToken(readBuf);
        r := site.get(req, token);
      } else {
        r := HandlePost(req, site);
      }
      SetReply(r);
      return true;
    }

    method HasCompleteRequest() returns (r: bool)
      ensures r == HasComplete(readBuf)
    {
      var headerEnd := HeaderEnd(readBuf);
      if headerEnd.None? {
        return false;
      }
      var length := ExtractContentLength(readBuf, headerEnd.value);
      return |readBuf| >= SizeSum(headerEnd.value, length);
    }

    method ResetForNextRequest()
      modifies this
      ensures State() == Reset(old(State()))
    {
      var headerEnd := HeaderEnd(readBuf);
      if headerEnd.None? {
        readBuf := "";
      } else {
        var length := ExtractContentLength(readBuf, headerEnd.value);
        readBuf := readBuf[Min(SizeSum(headerEnd.value, length), |readBuf|)..];
      }
      writeBuf := "";
      bytesSent := 0;
      keepAlive := false;
    }
  }

  // ---------- What the pieces promise each other ----------

  /** A connection is kept only after a request the parser accepted, so the cut uses its length. */
  lemma KeptMeansAccepted(buf: string)
    requires WantsKeepAlive(Parse(buf))
    ensures Accepted(buf)
    ensures HeaderEnd(buf).Some?
    ensures CutLength(buf) == Min(SizeSum(HeaderEnd(buf).value, Parse(buf).contentLength), |buf|)
  {
    hide HeadLines, Words, FieldsOk, Meaning;
    ReadersAgree(buf);
  }

  /**
   A reset on a complete request does one round of taking the buffer apart, or, if the length it
   computes is 0, nothing at all.
   */
  lemma ResetTakesOne(c: Conn)
    requires HasComplete(c.readBuf)
    ensures Need(c.readBuf) > 0 ==>
              var d := Drain(Reset(c).readBuf);
              && Drain(c.readBuf) == Cut([c.readBuf[..CutLength(c.readBuf)]] + d.messages, d.rest)
              && |Reset(c).readBuf| < |c.readBuf|
    ensures Need(c.readBuf) == 0 ==> Reset(c).readBuf == c.readBuf && HasComplete(Reset(c).readBuf)
  {
    hide HeaderEnd, HeadLines, ScanLength;
  }

  /** A reset never finds the buffer without a header end after a kept answer; if it did, it would empty it. */
  lemma ResetWithoutHead(c: Conn)
    ensures HeaderEnd(c.readBuf).None? ==> Reset(c) == IDLE && !WantsKeepAlive(Parse(c.readBuf))
  {
    hide HeadLines, Words, FieldsOk, Meaning;
    if HeaderEnd(c.readBuf).None? {
      assert c.readBuf[|c.readBuf|..] == "";
    }
  }

  /** Only accepted requests reach a page handler. */
  lemma ValidMeansAccepted(buf: string)
    requires Validate(Parse(buf)) == OK
    ensures Accepted(buf)
  {
    hide HeadLines, Words, FieldsOk, Meaning;
  }
}
