/**
 What a client sends: requests printed as RFC 9112 section 2.1 lays them out, and that the server
 reads back exactly what was printed, alone or in a pipeline (RFC 9112 section 9.3.2).
 */
module Messages {
  import opened Wrappers
  import opened Text
  import opened Decimal
  import opened Framing
  import opened Requests

  datatype Message = Message(verb: string, url: string, version: string, fields: seq<Field>, body: string)

  function FieldLine(f: Field): string { f.name + ": " + f.value }

  function FieldLines(fs: seq<Field>): (ls: seq<string>)
    ensures |ls| == |fs|
  {
    if fs == [] then [] else [FieldLine(fs[0])] + FieldLines(fs[1..])
  }

  /** Start line, field lines, an empty line, body: the layout of requests and responses alike. */
  function Layout(start: string, fs: seq<Field>, body: string): string {
    Unlines([start] + FieldLines(fs)) + CRLF + body
  }

  function StartLine(m: Message): string { m.verb + " " + m.url + " " + m.version }

  function Print(m: Message): string { Layout(StartLine(m), m.fields, m.body) }

  ghost predicate FieldOk(f: Field) {
    && IsWord(f.name) && ':' !in f.name
    && CrlfFree(f.value)
    && (f.value != "" ==> !IsBlank(f.value[0]) && !IsBlank(f.value[|f.value| - 1]))
  }

  predicate IsLengthField(f: Field) { ToLower(f.name) == LENGTH_NAME }

  /** Every Content-Length says n, and one is there unless n is 0. */
  ghost predicate LengthsSay(fs: seq<Field>, n: nat) {
    && (forall f :: f in fs && IsLengthField(f) ==> IsNumber(f.value) && Value(f.value) == n)
    && (n != 0 ==> exists f :: f in fs && IsLengthField(f))
  }

  /** RFC 9112 sections 2.1 and 6.3, for a body whose length is announced by Content-Length. */
  ghost predicate WellFormed(m: Message) {
    && IsWord(m.verb) && IsWord(m.url) && IsWord(m.version)
    && (forall f :: f in m.fields ==> FieldOk(f))
    && LengthsSay(m.fields, |m.body|)
    && |Print(m)| < SIZE_MOD
  }

  function LastField(fs: seq<Field>, name: string): string {
    if fs == [] then ""
    else if ToLower(fs[|fs| - 1].name) == name then fs[|fs| - 1].value
    else LastField(fs[..|fs| - 1], name)
  }

  /** The request a message stands for. */
  function Denoted(m: Message): Request {
    Request(m.verb, m.url, m.version, LastField(m.fields, "host"),
            ToLower(LastField(m.fields, "connection")), |m.body|, m.body)
  }

  // ---------- One message ----------

  lemma FirstColon(name: string, v: string)
    requires ':' !in name
    ensures FindChar(name + ": " + v, ':') == Some(|name|)
    ensures (name + ": " + v)[..|name|] == name && (name + ": " + v)[|name| + 1..] == " " + v
  {
    assert name + ": " + v == name + [':'] + (" " + v);
    FirstCharAfter(name, ':', " " + v);
  }

  lemma FieldLineReadBack(f: Field)
    requires FieldOk(f)
    ensures FieldOf(FieldLine(f)) == Some(f)
    ensures FieldLine(f) != ""
  {
    FirstColon(f.name, f.value);
    TrimPadded(f.value);
  }

  lemma WordsAreCrlfFree(a: string, sep: string, b: string)
    requires IsWord(a) && CrlfFree(b) && sep != "" && sep[0] != '\n' && '\r' !in sep
    ensures CrlfFree(a + sep + b)
  {
    var s, n := a + sep + b, |a| + |sep|;
    forall i: nat ensures !CrlfAt(s, i) {
      if i < |a| {
        assert s[i] == a[i] && a[i] in a;
      } else if i < n {
        assert s[i] == sep[i - |a|] && sep[i - |a|] in sep;
      } else {
        CrlfShift(a + sep, b, i - n);
        assert !CrlfAt(b, i - n);
      }
    }
  }

  lemma WordIsCrlfFree(w: string)
    requires IsWord(w)
    ensures CrlfFree(w)
  {
    forall i: nat ensures !CrlfAt(w, i) {
      assert i < |w| ==> w[i] in w;
    }
  }

  lemma StartLineOk(m: Message)
    requires IsWord(m.verb) && IsWord(m.url) && IsWord(m.version)
    ensures CrlfFree(StartLine(m)) && StartLine(m) != ""
    ensures Words(StartLine(m)) == [m.verb, m.url, m.version]
  {
    WordIsCrlfFree(m.version);
    WordsAreCrlfFree(m.url, " ", m.version);
    WordsAreCrlfFree(m.verb, " ", m.url + " " + m.version);
    assert StartLine(m) == m.verb + " " + (m.url + " " + m.version);
    WordsOfThree(m.verb, m.url, m.version);
  }

  lemma {:induction false} FieldLinesOk(fs: seq<Field>)
    requires forall f :: f in fs ==> FieldOk(f)
    ensures GoodLines(FieldLines(fs))
    ensures forall i :: 0 <= i < |fs| ==> FieldLines(fs)[i] == FieldLine(fs[i])
  {
    if fs != [] {
      assert fs[0] in fs;
      FieldLineReadBack(fs[0]);
      WordsAreCrlfFree(fs[0].name, ": ", fs[0].value);
      FieldLinesOk(fs[1..]);
    }
  }

  lemma {:induction false} FieldLinesInit(fs: seq<Field>, f: Field)
    ensures FieldLines(fs + [f]) == FieldLines(fs) + [FieldLine(f)]
  {
    if fs == [] {
      assert fs + [f] == [f] && [f][1..] == [];
    } else {
      assert (fs + [f])[1..] == fs[1..] + [f];
      FieldLinesInit(fs[1..], f);
    }
  }

  lemma {:induction false} LastValueIs(fs: seq<Field>, name: string)
    requires forall f :: f in fs ==> FieldOk(f)
    ensures LastValue(FieldLines(fs), name) == LastField(fs, name)
  {
    if fs != [] {
      var f, init := fs[|fs| - 1], fs[..|fs| - 1];
      assert fs == init + [f] && f in fs;
      FieldLinesInit(init, f);
      FieldLineReadBack(f);
      var ls := FieldLines(fs);
      assert ls[|ls| - 1] == FieldLine(f) && ls[..|ls| - 1] == FieldLines(init);
      LastValueIs(init, name);
    }
  }

  lemma PrintedFieldOk(f: Field, n: nat)
    requires FieldOk(f) && n < SIZE_MOD
    requires IsLengthField(f) ==> IsNumber(f.value) && Value(f.value) == n
    ensures LineOk(FieldLine(f))
    ensures Named(FieldLine(f), LENGTH_NAME) <==> IsLengthField(f)
    ensures IsLengthField(f) ==> LengthOf(FieldLine(f)) == n
  {
    hide FieldLine, FieldOf, CrlfFree;
    FieldLineReadBack(f);
  }

  lemma PrintedFieldsOk(fs: seq<Field>, n: nat)
    requires (forall f :: f in fs ==> FieldOk(f)) && LengthsSay(fs, n) && n < SIZE_MOD
    ensures FieldsOk(FieldLines(fs)) && LengthOr0(AnnouncedLength(FieldLines(fs))) == n
  {
    var ls := FieldLines(fs);
    hide Named, LineOk, FieldLine, LengthOf, FieldOk;
    FieldLinesOk(fs);
    forall l | l in ls
      ensures LineOk(l)
      ensures Named(l, LENGTH_NAME) ==> LengthOf(l) == n
    {
      var i :| 0 <= i < |ls| && ls[i] == l;
      PrintedFieldOk(fs[i], n);
    }
    AnnouncedIsCommon(ls);
    if n != 0 {
      var f :| f in fs && IsLengthField(f);
      var i :| 0 <= i < |fs| && fs[i] == f;
      PrintedFieldOk(f, n);
      assert ls[i] in ls;
    }
  }

  lemma LayoutHead(start: string, fs: seq<Field>, body: string, rest: string) returns (h: nat)
    requires CrlfFree(start) && start != "" && forall f :: f in fs ==> FieldOk(f)
    ensures HeaderEnd(Layout(start, fs, body) + rest) == Some(h)
    ensures HeadLines(Layout(start, fs, body) + rest, h) == [start] + FieldLines(fs)
    ensures h + 4 + |body| == |Layout(start, fs, body)|
    ensures BodyOf(Layout(start, fs, body) + rest, h, |body|) == body
  {
    var ls, s := [start] + FieldLines(fs), Layout(start, fs, body) + rest;
    FieldLinesOk(fs);
    HeadEndsAfterLines(ls, body + rest);
    assert s == Unlines(ls) + CRLF + (body + rest);
    h := |Unlines(ls)| - 2;
    assert s[h + 4..] == body + rest;
    assert s[h + 4..h + 4 + |body|] == body;
  }

  lemma ScanOfHead(start: string, ls: seq<string>, n: nat)
    requires FieldsOk(ls) && LengthOr0(AnnouncedLength(ls)) == n
    requires !(Named(start, LENGTH_NAME) && IsNumber(FieldValue(start)))
    ensures ScanLength([start] + ls) == n
  {
    hide FieldsOk, Named, AnnouncedLength;
    ScanIsCommon(ls);
    ScanStep(start, ls);
  }

  /** A message whose lengths tell the truth announces exactly its own extent. */
  lemma LayoutIsFramed(start: string, fs: seq<Field>, body: string)
    requires CrlfFree(start) && start != "" && forall f :: f in fs ==> FieldOk(f)
    requires !(Named(start, LENGTH_NAME) && IsNumber(FieldValue(start)))
    requires LengthsSay(fs, |body|) && |Layout(start, fs, body)| < SIZE_MOD
    ensures Framed(Layout(start, fs, body))
  {
    hide Layout, HeadLines, BodyOf, FieldLines, ScanLength, FieldsOk, AnnouncedLength, Named;
    var s := Layout(start, fs, body);
    assert s + "" == s;
    var h := LayoutHead(start, fs, body, "");
    PrintedFieldsOk(fs, |body|);
    ScanOfHead(start, FieldLines(fs), |body|);
  }

  /** Whatever follows it, a printed request is accepted and read back as what was printed. */
  lemma ParsePrinted(m: Message, rest: string)
    requires WellFormed(m)
    ensures Accepted(Print(m) + rest)
    ensures Parse(Print(m) + rest) == Denoted(m)
  {
    hide Layout, HeadLines, FieldLines, Words;
    StartLineOk(m);
    var h := LayoutHead(StartLine(m), m.fields, m.body, rest);
    var ls := FieldLines(m.fields);
    assert ([StartLine(m)] + ls)[1..] == ls;
    PrintedFieldsOk(m.fields, |m.body|);
    LastValueIs(m.fields, "host");
    LastValueIs(m.fields, "connection");
  }

  /** A printed request announces exactly its own length. */
  lemma PrintedIsFramed(m: Message)
    requires WellFormed(m)
    ensures Framed(Print(m))
  {
    hide Layout, Words, Framed;
    StartLineOk(m);
    if Named(StartLine(m), LENGTH_NAME) && IsNumber(FieldValue(StartLine(m))) {
      LengthLineHasFewWords(StartLine(m));
    }
    LayoutIsFramed(StartLine(m), m.fields, m.body);
  }

  // ---------- A pipeline ----------

  function Prints(ms: seq<Message>): (ps: seq<string>)
    ensures |ps| == |ms| && forall i :: 0 <= i < |ms| ==> ps[i] == Print(ms[i])
  {
    seq(|ms|, i requires 0 <= i < |ms| => Print(ms[i]))
  }

  /**
   Any list of well-formed requests, put end to end and followed by any incomplete tail, is taken
   apart again into those requests, in order, and stops with the tail in the buffer; at the start
   of each round the parser reads the request whose turn it is.
   */
  lemma PipelineRoundTrip(ms: seq<Message>, tail: string)
    requires forall m :: m in ms ==> WellFormed(m)
    requires !HasComplete(tail)
    ensures Drain(Concat(Prints(ms)) + tail) == Cut(Prints(ms), tail)
    ensures forall i :: 0 <= i < |ms| ==>
              var buf := Concat(Prints(ms)[i..]) + tail;
              && Parse(buf) == Denoted(ms[i])
              && HeaderEnd(buf).Some? && Need(buf) == |Print(ms[i])| >= 4
  {
    hide Print, Parse, Denoted, Need, HeaderEnd, Drain, WellFormed;
    var ps := Prints(ms);
    forall p | p in ps ensures Framed(p) {
      var i :| 0 <= i < |ps| && ps[i] == p;
      PrintedIsFramed(ms[i]);
    }
    DrainConcat(ps, tail);
    forall i | 0 <= i < |ms|
      ensures var buf := Concat(ps[i..]) + tail;
              && Parse(buf) == Denoted(ms[i])
              && HeaderEnd(buf).Some? && Need(buf) == |Print(ms[i])| >= 4
    {
      var rest := Concat(ps[i + 1..]) + tail;
      assert ps[i..][0] == ps[i] && ps[i..][1..] == ps[i + 1..];
      assert Concat(ps[i..]) + tail == ps[i] + rest;
      ParsePrinted(ms[i], rest);
      PrintedIsFramed(ms[i]);
      FramedInStream(ps[i], rest);
    }
  }
}
