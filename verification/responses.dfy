/** Responses: `HttpConn::make_response` and the redirects of the blog handlers. */
module Responses {
  import opened Text
  import opened Decimal
  import opened Framing
  import opened Messages

  /** What a handler asks to be sent. */
  datatype Reply =
    | Page(status: string, contentType: string, content: string, cookie: string)
    | Redirect(location: string)
  {
    function Body(): string { if Page? then content else "" }

    function Status(): string { if Page? then status else "302 Found" }
  }

  function ConnectionField(keepAlive: bool): Field {
    Field("Connection", if keepAlive then "keep-alive" else "close")
  }

  function ReplyFields(r: Reply, keepAlive: bool): seq<Field> {
    [if r.Page? then Field("Content-Type", r.contentType) else Field("Location", r.location),
     Field("Content-Length", Show(|r.Body()|)),
     ConnectionField(keepAlive)]
    + (if r.Page? && r.cookie != "" then [Field("Set-Cookie", r.cookie)] else [])
  }

  /** The bytes put into write_buf_. */
  function Render(r: Reply, keepAlive: bool): string {
    Layout("HTTP/1.1 " + r.Status(), ReplyFields(r, keepAlive), r.Body())
  }

  ghost predicate ValueOk(v: string) {
    CrlfFree(v) && (v != "" ==> !IsBlank(v[0]) && !IsBlank(v[|v| - 1]))
  }

  /** The texts a handler puts into header lines are lines. */
  ghost predicate ReplyOk(r: Reply) {
    match r
    case Page(status, contentType, _, cookie) =>
      CrlfFree(status) && ValueOk(contentType) && ValueOk(cookie)
    case Redirect(location) => ValueOk(location)
  }

  lemma DigitsAreOk(n: nat)
    ensures ValueOk(Show(n)) && IsNumber(Show(n)) && Value(Show(n)) == n
  {
    ShowRoundTrip(n);
    var s := Show(n);
    assert forall i :: 0 <= i < |s| ==> s[i] in s;
  }

  lemma StatusLine(status: string)
    requires CrlfFree(status)
    ensures CrlfFree("HTTP/1.1 " + status)
    ensures !Named("HTTP/1.1 " + status, LENGTH_NAME)
  {
    var tag := "HTTP/1.1";
    assert forall c :: c in tag ==> c != '\r' && !IsSpace(c);
    WordsAreCrlfFree(tag, " ", status);
    var line := tag + " " + status;
    var c := FindChar(line, ':');
    if c.Some? {
      assert line[0] == 'H' && c.value > 0;
      assert ToLower(line[..c.value])[0] == 'h' && LENGTH_NAME[0] == 'c';
    }
    assert "HTTP/1.1 " == tag + " ";
  }

  predicate IsToken(n: string) {
    n != "" && forall c :: c in n ==> c == '-' || 'a' <= c <= 'z' || 'A' <= c <= 'Z'
  }

  lemma TypeName()
    ensures IsToken("Content-Type") && |ToLower("Content-Type")| == 12
  {
  }

  lemma LocationName()
    ensures IsToken("Location") && |ToLower("Location")| == 8
  {
  }

  lemma LengthName()
    ensures IsToken("Content-Length") && ToLower("Content-Length") == LENGTH_NAME && |LENGTH_NAME| == 14
  {
  }

  lemma ConnectionName()
    ensures IsToken("Connection") && ToLower("Connection") == "connection" && |"connection"| == 10
  {
  }

  lemma CookieName()
    ensures IsToken("Set-Cookie") && |ToLower("Set-Cookie")| == 10
    ensures ToLower("Set-Cookie") != "connection"
  {
    assert ToLower("Set-Cookie")[0] == 's' && "connection"[0] == 'c';
  }

  lemma HeaderField(name: string, v: string)
    requires IsToken(name) && ValueOk(v)
    ensures FieldOk(Field(name, v))
  {
  }

  lemma FieldsAreOk(r: Reply, keepAlive: bool)
    requires ReplyOk(r)
    ensures forall f :: f in ReplyFields(r, keepAlive) ==> FieldOk(f)
  {
    hide ToLower, FieldOk, ValueOk, CrlfFree, IsToken, Render, Show;
    TypeName();
    LocationName();
    LengthName();
    ConnectionName();
    CookieName();
    DigitsAreOk(|r.Body()|);
    KeepAliveOk(keepAlive);
    HeaderField("Content-Length", Show(|r.Body()|));
    HeaderField("Connection", ConnectionField(keepAlive).value);
    if r.Page? {
      HeaderField("Content-Type", r.contentType);
      HeaderField("Set-Cookie", r.cookie);
    } else {
      HeaderField("Location", r.location);
    }
  }

  lemma ReplyFieldsOk(r: Reply, keepAlive: bool)
    requires ReplyOk(r)
    ensures forall f :: f in ReplyFields(r, keepAlive) ==> FieldOk(f)
    ensures LengthsSay(ReplyFields(r, keepAlive), |r.Body()|)
    ensures LastField(ReplyFields(r, keepAlive), "connection") == ConnectionField(keepAlive).value
  {
    hide ToLower, FieldOk, ValueOk, CrlfFree, LastField, Render, Show;
    var fs := ReplyFields(r, keepAlive);
    FieldsAreOk(r, keepAlive);
    TypeName();
    LocationName();
    LengthName();
    ConnectionName();
    CookieName();
    DigitsAreOk(|r.Body()|);
    assert IsLengthField(fs[1]);
    LastConnection(fs, keepAlive);
  }

  lemma KeepAliveOk(keepAlive: bool)
    ensures ValueOk(ConnectionField(keepAlive).value)
  {
    var v := ConnectionField(keepAlive).value;
    assert forall c :: c in v ==> c != '\r';
    assert forall i :: 0 <= i < |v| ==> v[i] in v;
  }

  lemma LastConnection(fs: seq<Field>, keepAlive: bool)
    requires |fs| >= 3 && fs[2] == ConnectionField(keepAlive)
    requires |fs| == 3 || (|fs| == 4 && ToLower(fs[3].name) != "connection")
    requires ToLower("Connection") == "connection"
    ensures LastField(fs, "connection") == ConnectionField(keepAlive).value
  {
    hide ToLower;
    if |fs| == 4 {
      assert LastField(fs, "connection") == LastField(fs[..3], "connection");
    }
  }

  /** The server's own scan, in size_t, takes each response for exactly as long as it is. */
  lemma RenderIsFramed(r: Reply, keepAlive: bool)
    requires ReplyOk(r) && |Render(r, keepAlive)| < SIZE_MOD
    ensures Framed(Render(r, keepAlive))
  {
    hide Layout, Framed;
    StatusLine(r.Status());
    ReplyFieldsOk(r, keepAlive);
    LayoutIsFramed("HTTP/1.1 " + r.Status(), ReplyFields(r, keepAlive), r.Body());
  }
}
