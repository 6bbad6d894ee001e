/**
 Which answer a request gets, told from the request as it is printed: the page handler's, 405 or 400; and
 when the connection is kept (RFC 9112 sections 3.2 and 9.3).
 */
module Validation {
  import opened Text
  import opened Letters
  import opened Framing
  import opened Requests
  import opened Messages
  import opened Responses
  import opened Sessions
  import opened HttpConnection
  import opened Serving
  import opened Outcomes

  function HostOf(m: Message): string { LastField(m.fields, "host") }

  function ConnectionOf(m: Message): string { LastField(m.fields, "connection") }

  predicate Handled(m: Message) { m.verb == "GET" || m.verb == "POST" }

  /** A known version, with a Host where it is needed; a path; and a Connection, if any, that is known. */
  predicate InOrder(m: Message) {
    && ((m.version == "HTTP/1.1" && HostOf(m) != "") || m.version == "HTTP/1.0")
    && m.url != "" && m.url[0] == '/'
    && (ConnectionOf(m) == "" || SameButCase(ConnectionOf(m), "close") || SameButCase(ConnectionOf(m), "keep-alive"))
  }

  function RefusedReply(site: Site): Reply { FilePage(site, "400 Bad Request", "400.html", "<h1>400 Bad Request</h1>") }

  function NotAllowedReply(site: Site): Reply {
    FilePage(site, "405 Method Not Allowed", "405.html", "<h1>405 Method Not Allowed</h1>")
  }

  lemma ConnectionIs(m: Message)
    ensures var c := ToLower(ConnectionOf(m));
            && (c == "" <==> ConnectionOf(m) == "")
            && (c == "close" <==> SameButCase(ConnectionOf(m), "close"))
            && (c == "keep-alive" <==> SameButCase(ConnectionOf(m), "keep-alive"))
  {
    hide ToLower, SameButCase, LastField;
    FieldNamesAreSmall();
    NamedIff(ConnectionOf(m), "close");
    NamedIff(ConnectionOf(m), "keep-alive");
  }

  lemma VerdictOnPrinted(m: Message)
    requires IsWord(m.verb) && IsWord(m.url) && IsWord(m.version)
    ensures Validate(Denoted(m)) == if !Handled(m) then NotAllowed else if InOrder(m) then OK else BadRequest
  {
    hide ToLower, SameButCase, LastField, IsWord;
    ConnectionIs(m);
    WordIsText(m.verb);
    WordIsText(m.url);
    WordIsText(m.version);
  }

  lemma WordIsText(w: string)
    requires IsWord(w)
    ensures w != ""
  {
  }

  /**
   Every well-formed request, whatever follows it, gets 405 exactly if its method is neither GET nor
   POST, the page handler's answer exactly if it is in order besides, and 400 otherwise.
   */
  lemma AnswerToPrinted(m: Message, rest: string, site: Site)
    requires WellFormed(m)
    ensures Answer(Print(m) + rest, site) ==
            if !Handled(m) then NotAllowedReply(site)
            else if !InOrder(m) then RefusedReply(site)
            else if m.verb == "GET" then site.get(Denoted(m), MessageToken(m))
            else site.post(Denoted(m), MessageToken(m))
  {
    hide Layout, Print, Parse, Accepted, HeadLines, Need, Validate, Denoted, TokenOf, MessageToken, InOrder;
    ParsePrinted(m, rest);
    BodyOfPrinted(m, rest);
    PrintedToken(m, rest);
    VerdictOnPrinted(m);
    VerbOfDenoted(m);
  }

  lemma VerbOfDenoted(m: Message)
    ensures Denoted(m).verb == m.verb
  {
  }

  /** The same for the answers of a whole run, which are stated by `AnswerTo`. */
  lemma AnswerToIs(m: Message, site: Site)
    requires WellFormed(m)
    ensures AnswerTo(site, m) ==
            if !Handled(m) then NotAllowedReply(site)
            else if !InOrder(m) then RefusedReply(site)
            else if m.verb == "GET" then site.get(Denoted(m), MessageToken(m))
            else site.post(Denoted(m), MessageToken(m))
  {
    hide Layout, Print, Validate, Denoted, MessageToken, InOrder;
    VerdictOnPrinted(m);
    VerbOfDenoted(m);
  }

  /** A request the parser refuses gets 400, and the connection is closed. */
  lemma RefusedIsBad(buf: string, site: Site)
    requires !Accepted(buf)
    ensures Answer(buf, site) == RefusedReply(site) && !WantsKeepAlive(Parse(buf))
  {
    hide Accepted, Meaning;
  }

  /** HTTP/1.1 is kept unless it says close, in whatever case; anything else only if it says keep-alive. */
  lemma KeptIff(m: Message, rest: string)
    requires WellFormed(m)
    ensures WantsKeepAlive(Parse(Print(m) + rest)) <==>
              if m.version == "HTTP/1.1" then !SameButCase(ConnectionOf(m), "close")
              else SameButCase(ConnectionOf(m), "keep-alive")
  {
    hide Layout, Print, Parse, Accepted, HeadLines, ToLower, SameButCase, LastField;
    ParsePrinted(m, rest);
    ConnectionIs(m);
  }
}
