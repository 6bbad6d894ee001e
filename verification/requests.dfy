/**
 Reading a request: `HttpConn::parse_request`, and its agreement with the separate scan that
 later decides how many bytes the request takes up.
 */
module Requests {
  import opened Wrappers
  import opened Text
  import opened Decimal
  import opened Framing

  datatype Request = Request(
    verb: string, url: string, version: string,
    host: string, connection: string, contentLength: nat, body: string)

  const NO_REQUEST := Request("", "", "", "", "", 0, "")

  // ---------- What an accepted header section says ----------

  /** The number in a Content-Length line, 0 for any other line. */
  function LengthOf(line: string): nat {
    if Named(line, LENGTH_NAME) && IsNumber(FieldValue(line)) then Value(FieldValue(line)) else 0
  }

  /** A field line the parser lets pass: a non-empty name, and a length that fits a size_t. */
  predicate LineOk(line: string) {
    && FieldOf(line).Some?
    && FieldOf(line).value.name != ""
    && (Named(line, LENGTH_NAME) ==> IsNumber(FieldValue(line)) && LengthOf(line) < SIZE_MOD)
  }

  predicate FieldsOk(ls: seq<string>) {
    && (forall l :: l in ls ==> LineOk(l))
    && (forall a, b :: a in ls && b in ls && Named(a, LENGTH_NAME) && Named(b, LENGTH_NAME)
          ==> LengthOf(a) == LengthOf(b))
  }

  /** The value of the last field with this name, "" if there is none. */
  function LastValue(ls: seq<string>, name: string): string {
    if ls == [] then ""
    else if Named(ls[|ls| - 1], name) then FieldValue(ls[|ls| - 1])
    else LastValue(ls[..|ls| - 1], name)
  }

  /** The length all Content-Length fields of accepted lines announce. */
  function AnnouncedLength(ls: seq<string>): Option<nat> {
    if ls == [] then None
    else if Named(ls[|ls| - 1], LENGTH_NAME) then Some(LengthOf(ls[|ls| - 1]))
    else AnnouncedLength(ls[..|ls| - 1])
  }

  function LengthOr0(n: Option<nat>): nat {
    match n { case Some(v) => v case None => 0 }
  }

  /** A request line of three words, field lines that all pass, and no two different lengths. */
  predicate Accepted(msg: string) {
    && HeaderEnd(msg).Some?
    && var ls := HeadLines(msg, HeaderEnd(msg).value);
       ls != [] && |Words(ls[0])| == 3 && FieldsOk(ls[1..])
  }

  function BodyOf(msg: string, h: nat, length: nat): string
    requires h + 4 <= |msg|
  {
    if h + 4 + length <= |msg| then msg[h + 4..h + 4 + length] else msg[h + 4..]
  }

  function Meaning(msg: string): Request
    requires Accepted(msg)
  {
    var h := HeaderEnd(msg).value;
    var ls := HeadLines(msg, h);
    var w := Words(ls[0]);
    var n := LengthOr0(AnnouncedLength(ls[1..]));
    Request(w[0], w[1], w[2], LastValue(ls[1..], "host"),
            ToLower(LastValue(ls[1..], "connection")), n, BodyOf(msg, h, n))
  }

  function Parse(msg: string): Request {
    if Accepted(msg) then Meaning(msg) else NO_REQUEST
  }

  // ---------- The parser's loop ----------

  /** The fields a parse has filled in so far; `length` is None until has_content_length is set. */
  datatype Fields = Fields(host: string, connection: string, length: Option<nat>)

  const NO_FIELDS := Fields("", "", None)

  /** The body of the header loop for one line; None where it rejects the request. */
  method ReadField(a: Fields, line: string) returns (r: Option<Fields>)
    ensures r == Absorb(a, line)
  {
    var colon := FindChar(line, ':');
    if colon.None? {
      return None;
    }
    var key, value := line[..colon.value], line[colon.value + 1..];
    if key == "" {
      return None;
    }
    value := TrimBlanks(value);
    var keyLower := ToLower(key);
    if keyLower == "host" {
      return Some(a.(host := value));
    } else if keyLower == "connection" {
      return Some(a.(connection := ToLower(value)));
    } else if keyLower == LENGTH_NAME {
      if value == "" || !AllDigits(value) {
        return None;
      }
      var parsed := Stoull(value);
      if parsed.None? || (a.length.Some? && parsed.value != a.length.value) {
        return None;
      }
      return Some(a.(length := parsed));
    }
    return Some(a);
  }

  function Absorb(a: Fields, line: string): Option<Fields> {
    if !LineOk(line) then None
    else if Named(line, LENGTH_NAME) then
      if a.length.Some? && a.length.value != LengthOf(line) then None
      else Some(a.(length := Some(LengthOf(line))))
    else if Named(line, "host") then Some(a.(host := FieldValue(line)))
    else if Named(line, "connection") then Some(a.(connection := ToLower(FieldValue(line))))
    else Some(a)
  }

  function AbsorbAll(a: Fields, ls: seq<string>): Option<Fields>
    decreases |ls|
  {
    if ls == [] then Some(a)
    else match Absorb(a, ls[0])
      case None => None
      case Some(b) => AbsorbAll(b, ls[1..])
  }

  function Summary(ls: seq<string>): Fields {
    Fields(LastValue(ls, "host"), ToLower(LastValue(ls, "connection")), AnnouncedLength(ls))
  }

  lemma NamesDiffer(line: string)
    ensures Named(line, "host") ==> !Named(line, "connection") && !Named(line, LENGTH_NAME)
    ensures Named(line, "connection") ==> !Named(line, LENGTH_NAME)
  {
    assert |"host"| == 4 && |"connection"| == 10 && |LENGTH_NAME| == 14;
  }

  lemma {:induction false} AnnouncedIsCommon(ls: seq<string>)
    requires FieldsOk(ls)
    ensures AnnouncedLength(ls).None? ==> forall l :: l in ls ==> !Named(l, LENGTH_NAME)
    ensures AnnouncedLength(ls).Some? ==>
              && (exists l :: l in ls && Named(l, LENGTH_NAME))
              && forall l :: l in ls && Named(l, LENGTH_NAME) ==> LengthOf(l) == AnnouncedLength(ls).value
  {
    if ls != [] {
      var last, init := ls[|ls| - 1], ls[..|ls| - 1];
      assert last in ls && ls == init + [last];
      if !Named(last, LENGTH_NAME) {
        AnnouncedIsCommon(init);
      }
    }
  }

  lemma SummaryStep(done: seq<string>, line: string)
    requires FieldsOk(done)
    ensures FieldsOk(done + [line]) <==> Absorb(Summary(done), line).Some?
    ensures FieldsOk(done + [line]) ==> Absorb(Summary(done), line) == Some(Summary(done + [line]))
  {
    var ls := done + [line];
    assert ls[|ls| - 1] == line && ls[..|ls| - 1] == done;
    assert forall l :: l in ls <==> l in done || l == line;
    NamesDiffer(line);
    AnnouncedIsCommon(done);
  }

  lemma {:induction false} AbsorbAllIs(done: seq<string>, ls: seq<string>)
    requires FieldsOk(done)
    ensures AbsorbAll(Summary(done), ls) ==
            if FieldsOk(done + ls) then Some(Summary(done + ls)) else None
    decreases |ls|
  {
    if ls == [] {
      assert done + ls == done;
    } else {
      SummaryStep(done, ls[0]);
      assert done + ls == (done + [ls[0]]) + ls[1..];
      if FieldsOk(done + [ls[0]]) {
        AbsorbAllIs(done + [ls[0]], ls[1..]);
      } else {
        assert forall l :: l in done + [ls[0]] ==> l in done + ls;
      }
    }
  }

  ghost function AbsorbFrom(msg: string, h: nat, cur: nat, a: Fields): Option<Fields>
    requires cur <= h + 2 <= |msg|
  {
    AbsorbAll(a, Lines(msg[cur..h + 2]))
  }

  lemma AbsorbEnd(msg: string, h: nat, a: Fields)
    requires h + 2 <= |msg|
    ensures AbsorbFrom(msg, h, h + 2, a) == Some(a)
  {
    assert msg[h + 2..h + 2] == "";
  }

  lemma AbsorbRound(msg: string, h: nat, cur: nat, a: Fields) returns (next: nat)
    requires HeaderEnd(msg) == Some(h) && 2 <= cur <= h && CrlfAt(msg, cur - 2)
    ensures FindCrlf(msg, cur) == Some(next) && cur < next <= h
    ensures next == h || next + 2 < h
    ensures AbsorbFrom(msg, h, cur, a) ==
            match Absorb(a, msg[cur..next]) {
              case None => None
              case Some(b) => AbsorbFrom(msg, h, next + 2, b)
            }
  {
    next := NextLine(msg, h, cur);
    var l, ls := msg[cur..next], Lines(msg[next + 2..h + 2]);
    assert ([l] + ls)[0] == l && ([l] + ls)[1..] == ls;
  }

  lemma SplitHead(msg: string, h: nat) returns (lineEnd: nat)
    requires HeaderEnd(msg) == Some(h)
    ensures FindCrlf(msg, 0) == Some(lineEnd) && (lineEnd == h || lineEnd + 2 < h)
    ensures HeadLines(msg, h) != [] && HeadLines(msg, h)[0] == msg[..lineEnd]
    ensures HeadLines(msg, h)[1..] == Lines(msg[lineEnd + 2..h + 2])
  {
    lineEnd := NextLine(msg, h, 0);
    assert msg[0..h + 2] == msg[..h + 2] && msg[0..lineEnd] == msg[..lineEnd];
  }

  /**
   The header loop of `HttpConn::parse_request`, started behind the request line. Its exits for a
   missing or misplaced CRLF and for an empty line are dead, and when it runs to the end it stops
   exactly at header_end + 2.
   */
  method ReadFields(msg: string, h: nat, start: nat) returns (r: Option<Fields>)
    requires HeaderEnd(msg) == Some(h)
    requires start == h + 2 || 2 <= start < h
    requires CrlfAt(msg, start - 2)
    ensures r == AbsorbFrom(msg, h, start, NO_FIELDS)
  {
    hide Absorb, AbsorbAll, Lines;
    var cur, fields := start, NO_FIELDS;
    while cur < h
      invariant cur == h + 2 || 2 <= cur < h
      invariant CrlfAt(msg, cur - 2)
      invariant AbsorbFrom(msg, h, cur, fields) == AbsorbFrom(msg, h, start, NO_FIELDS)
    {
      ghost var n := AbsorbRound(msg, h, cur, fields);
      var next := FindCrlf(msg, cur);
      if next.None? || next.value > h {
        assert false;
        return None;
      }
      var line := msg[cur..next.value];
      if line == "" {
        assert false;
        break;
      }
      var read := ReadField(fields, line);
      if read.None? {
        return None;
      }
      fields := read.value;
      cur := next.value + 2;
    }
    assert cur == h + 2;
    AbsorbEnd(msg, h, fields);
    return Some(fields);
  }

  lemma ParseIsFold(msg: string, h: nat, lineEnd: nat)
    requires HeaderEnd(msg) == Some(h) && FindCrlf(msg, 0) == Some(lineEnd) && lineEnd <= h
    ensures HeadLines(msg, h) != []
    ensures var r := AbsorbFrom(msg, h, lineEnd + 2, NO_FIELDS);
            && (Accepted(msg) <==> |Words(msg[..lineEnd])| == 3 && r.Some?)
            && (r.Some? ==> r.value == Summary(HeadLines(msg, h)[1..]))
  {
    var first := SplitHead(msg, h);
    var ls := HeadLines(msg, h)[1..];
    assert [] + ls == ls;
    AbsorbAllIs([], ls);
  }

  /** `HttpConn::parse_request`. */
  method ParseRequest(msg: string) returns (req: Request)
    ensures req == Parse(msg)
  {
    var headerEnd := HeaderEnd(msg);
    if headerEnd.None? {
      return NO_REQUEST;
    }
    var h := headerEnd.value;
    ghost var first := SplitHead(msg, h);
    var lineEnd := FindCrlf(msg, 0).value;
    ParseIsFold(msg, h, lineEnd);
    var words := Words(msg[..lineEnd]);
    if |words| != 3 {
      return NO_REQUEST;
    }
    var read := ReadFields(msg, h, lineEnd + 2);
    if read.None? {
      return NO_REQUEST;
    }
    var fields := read.value;
    var length := LengthOr0(fields.length);
    return Request(words[0], words[1], words[2], fields.host, fields.connection, length,
                   BodyOf(msg, h, length));
  }

  // ---------- The two readers of Content-Length ----------

  lemma NumberIsWord(s: string)
    requires IsNumber(s)
    ensures IsWord(s)
  {
  }

  lemma LengthNameIsWord(key: string)
    requires ToLower(key) == LENGTH_NAME
    ensures IsWord(key + ":")
  {
    forall c | c in key ensures !IsSpace(c) {
      var i :| 0 <= i < |key| && key[i] == c;
      assert LowerChar(c) == LENGTH_NAME[i];
      assert forall j :: 0 <= j < |LENGTH_NAME| ==> LENGTH_NAME[j] == '-' || 'a' <= LENGTH_NAME[j] <= 'z';
    }
  }

  lemma FewWords(key: string, a: string, v: string, b: string)
    requires IsWord(key) && IsWord(v) && AllBlank(a) && AllBlank(b)
    ensures |Words(key + (a + (v + b)))| <= 2
  {
    assert b + "" == b;
    WordsBlank(b, "");
    if b != "" { assert b[0] in b; }
    if a == "" {
      assert key + (a + (v + b)) == (key + v) + b;
      WordsCons(key + v, b);
    } else {
      assert a[0] in a;
      WordsCons(v, b);
      WordsCons(key, a + (v + b));
      WordsBlank(a, v + b);
    }
  }

  /** No start line of three words can pass for a Content-Length field. */
  lemma LengthLineHasFewWords(line: string)
    requires Named(line, LENGTH_NAME) && IsNumber(FieldValue(line))
    ensures |Words(line)| <= 2
  {
    var c, v := FindChar(line, ':').value, FieldValue(line);
    LengthNameIsWord(line[..c]);
    NumberIsWord(v);
    var a, b := TrimCut(line[c + 1..]);
    assert line == line[..c + 1] + line[c + 1..] && line[..c + 1] == line[..c] + ":";
    assert a + v + b == a + (v + b);
    FewWords(line[..c] + ":", a, v, b);
  }

  lemma {:induction false} ScanIsCommon(ls: seq<string>)
    requires FieldsOk(ls)
    ensures ScanLength(ls) == LengthOr0(AnnouncedLength(ls))
  {
    AnnouncedIsCommon(ls);
    if ls != [] && !Named(ls[0], LENGTH_NAME) {
      ScanIsCommon(ls[1..]);
      AnnouncedIsCommon(ls[1..]);
      assert forall l :: l in ls <==> l == ls[0] || l in ls[1..];
    } else if ls != [] {
      assert ls[0] in ls;
    }
  }

  /**
   Whenever the parser accepts a buffer, the quick scan over all its lines, the start line
   included, returns the parser's Content-Length.
   */
  lemma ReadersAgree(msg: string)
    requires Accepted(msg)
    ensures ScanLength(HeadLines(msg, HeaderEnd(msg).value)) == Parse(msg).contentLength
    ensures Parse(msg).contentLength < SIZE_MOD
  {
    var ls := HeadLines(msg, HeaderEnd(msg).value);
    if Named(ls[0], LENGTH_NAME) && IsNumber(FieldValue(ls[0])) {
      LengthLineHasFewWords(ls[0]);
    }
    ScanIsCommon(ls[1..]);
    AnnouncedIsCommon(ls[1..]);
  }

  /** A refused request says nothing at all, not even a length. */
  lemma RefusedIsEmpty(msg: string)
    requires !Accepted(msg)
    ensures Parse(msg) == Request("", "", "", "", "", 0, "")
  {
    hide Accepted;
  }

  /** The body is what stands behind the header section, as far as it is announced and there. */
  lemma BodyIsAvailable(msg: string)
    requires Accepted(msg)
    ensures HeaderEnd(msg).Some?
    ensures var behind, req := msg[HeaderEnd(msg).value + 4..], Parse(msg);
            && req.body <= behind
            && |req.body| == if req.contentLength < |behind| then req.contentLength else |behind|
  {
    hide HeadLines, FieldsOk, Words, AnnouncedLength, LastValue;
  }

  /** More bytes after the header section change nothing but the body. */
  lemma ParseStable(a: string, b: string)
    requires a <= b && HeaderEnd(a).Some?
    ensures HeaderEnd(b) == HeaderEnd(a) && Need(b) == Need(a)
    ensures Accepted(a) <==> Accepted(b)
    ensures Parse(a).(body := "") == Parse(b).(body := "")
  {
    HeadStable(a, b);
  }
}
