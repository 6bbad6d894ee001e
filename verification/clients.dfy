/**
 The other end: a client that reads a stream of responses by RFC 9112 section 6.3, with numbers of any
 size and nothing of the server's own scanners.
 */
module Clients {
  import opened Wrappers
  import opened Text
  import opened Decimal
  import opened Framing
  import opened Messages
  import opened Responses

  /** A response as the client sees it. */
  datatype Received = Received(status: string, connection: Option<string>, contentType: Option<string>,
                               location: Option<string>, cookie: Option<string>, body: string)

  /** The value of the first field of that name. */
  function FirstField(ls: seq<string>, name: string): Option<string> {
    if ls == [] then None
    else if Named(ls[0], name) then Some(FieldValue(ls[0]))
    else FirstField(ls[1..], name)
  }

  function DeclaredLength(ls: seq<string>): Option<nat> {
    match FirstField(ls, LENGTH_NAME)
    case None => None
    case Some(v) => if IsNumber(v) then Some(Value(v)) else None
  }

  /** The first response of the stream and its extent, once it is there whole. */
  function NextResponse(buf: string): (r: Option<(Received, nat)>)
    ensures r.Some? ==> 4 <= r.value.1 <= |buf|
  {
    match HeaderEnd(buf)
    case None => None
    case Some(h) =>
      var ls := HeadLines(buf, h);
      if ls == [] || DeclaredLength(ls[1..]).None? then None
      else
        var n := DeclaredLength(ls[1..]).value;
        if |buf| < h + 4 + n then None
        else
          Some((Received(ls[0], FirstField(ls[1..], "connection"), FirstField(ls[1..], "content-type"),
                         FirstField(ls[1..], "location"), FirstField(ls[1..], "set-cookie"),
                         buf[h + 4..h + 4 + n]), h + 4 + n))
  }

  datatype Heard = Heard(responses: seq<Received>, rest: string)

  /** All responses that are there whole, and what is left over. */
  function ReceiveAll(buf: string): Heard
    decreases |buf|
  {
    match NextResponse(buf)
    case None => Heard([], buf)
    case Some(p) =>
      var more := ReceiveAll(buf[p.1..]);
      Heard([p.0] + more.responses, more.rest)
  }

  /** What a client is to make of a reply: a page with its type and maybe a cookie, or an empty redirect. */
  function AsReceived(r: Reply, keepAlive: bool): Received {
    var connection := Some(if keepAlive then "keep-alive" else "close");
    match r
    case Page(status, contentType, content, cookie) =>
      Received("HTTP/1.1 " + status, connection, Some(contentType), None,
               if cookie == "" then None else Some(cookie), content)
    case Redirect(location) =>
      Received("HTTP/1.1 302 Found", connection, None, Some(location), None, "")
  }

  function FirstNamed(fs: seq<Field>, name: string): Option<string> {
    if fs == [] then None
    else if ToLower(fs[0].name) == name then Some(fs[0].value)
    else FirstNamed(fs[1..], name)
  }

  lemma {:induction false} FirstFieldIs(fs: seq<Field>, name: string)
    requires forall f :: f in fs ==> FieldOk(f)
    ensures FirstField(FieldLines(fs), name) == FirstNamed(fs, name)
  {
    hide FieldOk, FieldLine;
    if fs != [] {
      assert fs[0] in fs;
      FieldLineReadBack(fs[0]);
      FirstFieldIs(fs[1..], name);
      assert FieldLines(fs)[1..] == FieldLines(fs[1..]);
    }
  }

  /** The names a reply can use, and their lengths in lower case. */
  lemma ReplyNames()
    ensures ToLower("Content-Type") == "content-type" && ToLower("Location") == "location"
    ensures ToLower("Content-Length") == LENGTH_NAME && ToLower("Connection") == "connection"
    ensures ToLower("Set-Cookie") == "set-cookie"
    ensures |"content-type"| == 12 && |"location"| == 8 && |LENGTH_NAME| == 14 && |"connection"| == 10
    ensures |"set-cookie"| == 10 && "set-cookie"[0] == 's' && "connection"[0] == 'c'
  {
    LengthName();
    ConnectionName();
  }

  lemma {:induction false} NamedAt(fs: seq<Field>, name: string, i: nat)
    requires i <= |fs| && forall j :: 0 <= j < i ==> ToLower(fs[j].name) != name
    requires i < |fs| ==> ToLower(fs[i].name) == name
    ensures FirstNamed(fs, name) == if i < |fs| then Some(fs[i].value) else None
  {
    hide ToLower;
    if i > 0 {
      NamedAt(fs[1..], name, i - 1);
    }
  }

  lemma NamedInReply(r: Reply, keepAlive: bool)
    ensures var fs, a := ReplyFields(r, keepAlive), AsReceived(r, keepAlive);
            && FirstNamed(fs, LENGTH_NAME) == Some(Show(|r.Body()|))
            && FirstNamed(fs, "connection") == a.connection
            && FirstNamed(fs, "content-type") == a.contentType
            && FirstNamed(fs, "location") == a.location
            && FirstNamed(fs, "set-cookie") == a.cookie
  {
    hide ToLower, FirstNamed, Show;
    ReplyNames();
    var fs := ReplyFields(r, keepAlive);
    assert "set-cookie" != "connection";
    NamedAt(fs, LENGTH_NAME, 1);
    NamedAt(fs, "connection", 2);
    NamedAt(fs, "content-type", if r.Page? then 0 else |fs|);
    NamedAt(fs, "location", if r.Page? then |fs| else 0);
    NamedAt(fs, "set-cookie", if r.Page? && r.cookie != "" then 3 else |fs|);
  }

  lemma Head(r: Reply, keepAlive: bool, rest: string) returns (h: nat)
    requires ReplyOk(r)
    ensures var s, ls := Render(r, keepAlive) + rest, FieldLines(ReplyFields(r, keepAlive));
            && HeaderEnd(s) == Some(h) && HeadLines(s, h) == ["HTTP/1.1 " + r.Status()] + ls
            && h + 4 + |r.Body()| == |Render(r, keepAlive)|
            && DeclaredLength(ls) == Some(|r.Body()|)
            && var a := AsReceived(r, keepAlive);
               && FirstField(ls, "connection") == a.connection && FirstField(ls, "content-type") == a.contentType
               && FirstField(ls, "location") == a.location && FirstField(ls, "set-cookie") == a.cookie
  {
    hide Layout, HeadLines, FieldLines, ReplyFields;
    StatusLine(r.Status());
    FieldsAreOk(r, keepAlive);
    FirstFieldIs(ReplyFields(r, keepAlive), LENGTH_NAME);
    FirstFieldIs(ReplyFields(r, keepAlive), "connection");
    FirstFieldIs(ReplyFields(r, keepAlive), "content-type");
    FirstFieldIs(ReplyFields(r, keepAlive), "location");
    FirstFieldIs(ReplyFields(r, keepAlive), "set-cookie");
    NamedInReply(r, keepAlive);
    DigitsAreOk(|r.Body()|);
    h := LayoutHead("HTTP/1.1 " + r.Status(), ReplyFields(r, keepAlive), r.Body(), rest);
  }

  /** Whatever follows it, a response is taken whole: status, fields, body and extent. */
  lemma ResponseIsReceived(r: Reply, keepAlive: bool, rest: string)
    requires ReplyOk(r)
    ensures NextResponse(Render(r, keepAlive) + rest) ==
            Some((AsReceived(r, keepAlive), |Render(r, keepAlive)|))
  {
    hide Layout, HeadLines, FieldLines, ReplyFields, DeclaredLength, FirstField;
    var h := Head(r, keepAlive, rest);
    var s, m, ls := Render(r, keepAlive) + rest, Render(r, keepAlive), FieldLines(ReplyFields(r, keepAlive));
    assert (["HTTP/1.1 " + r.Status()] + ls)[1..] == ls;
    BodyAtEnd(r, keepAlive);
    assert s[h + 4..|m|] == m[h + 4..];
    assert "HTTP/1.1 " + "302 Found" == "HTTP/1.1 302 Found";
  }

  lemma BodyAtEnd(r: Reply, keepAlive: bool)
    ensures var m := Render(r, keepAlive); |r.Body()| <= |m| && m[|m| - |r.Body()|..] == r.Body()
  {
    hide Unlines, FieldLines;
  }

  /** A part of a response is not taken for a whole one. */
  lemma PartIsNotReceived(r: Reply, keepAlive: bool, p: string)
    requires ReplyOk(r) && p <= Render(r, keepAlive) && p != Render(r, keepAlive)
    ensures NextResponse(p) == None
  {
    hide Layout, HeadLines, FieldLines, ReplyFields, DeclaredLength, FirstField;
    var m := Render(r, keepAlive);
    assert m + "" == m;
    var h := Head(r, keepAlive, "");
    HeadStable(p, m);
    var ls := FieldLines(ReplyFields(r, keepAlive));
    assert (["HTTP/1.1 " + r.Status()] + ls)[1..] == ls;
  }
}
