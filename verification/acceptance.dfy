/**
 Which header sections are accepted and what they say, told from the bytes of their lines: names, blanks,
 digits and spellings, without the parser's own tests.
 */
module Acceptance {
  import opened Wrappers
  import opened Text
  import opened Letters
  import opened Decimal
  import opened Framing
  import opened Requests
  import opened Messages

  /** A field line as it is written: name, colon, blanks, value, blanks. */
  datatype Written = Written(name: string, left: string, value: string, right: string)

  predicate WrittenOk(w: Written) {
    ':' !in w.name && SpacesAndTabs(w.left) && SpacesAndTabs(w.right) && NoBlankEnds(w.value)
  }

  function LineOf(w: Written): string { w.name + ":" + (w.left + w.value + w.right) }

  lemma WrittenIsField(w: Written)
    requires WrittenOk(w)
    ensures FieldOf(LineOf(w)) == Some(Field(w.name, w.value))
  {
    hide FindChar, Trim;
    var rest := w.left + w.value + w.right;
    assert LineOf(w) == w.name + [':'] + rest;
    FirstCharAfter(w.name, ':', rest);
    TrimIs(w.left, w.value, w.right);
  }

  lemma BlanksOf(s: string)
    ensures AllBlank(s) <==> SpacesAndTabs(s)
  {
  }

  /** Every line with a colon is written in this way, and only one reading has a value without blank ends. */
  lemma LineIsWritten(line: string) returns (w: Written)
    requires ':' in line
    ensures WrittenOk(w) && LineOf(w) == line
  {
    hide Trim;
    var c := FindChar(line, ':').value;
    var a, b := TrimCut(line[c + 1..]);
    BlanksOf(a);
    BlanksOf(b);
    w := Written(line[..c], a, Trim(line[c + 1..]), b);
    TrimmedEnds(line[c + 1..]);
    assert line == line[..c] + ":" + line[c + 1..];
  }

  lemma TrimmedEnds(s: string)
    ensures NoBlankEnds(Trim(s))
  {
    var l := TrimLeft(s);
    var b := TrimRightCut(l);
    assert Trim(s) != "" ==> l[0] == Trim(s)[0];
  }

  // ---------- One line ----------

  predicate IsLength(w: Written) { SameButCase(w.name, "content-length") }

  predicate Digits(v: string) { v != "" && forall c :: c in v ==> '0' <= c <= '9' }

  /** The number a value says, if it is one; 2^64 and more do not fit. */
  function Number(v: string): nat {
    if Digits(v) then Value(v) else 0
  }

  const TWO_64: nat := 18446744073709551616

  predicate GoodWritten(w: Written) {
    w.name != "" && (IsLength(w) ==> Digits(w.value) && Number(w.value) < TWO_64)
  }

  lemma LengthLineIs(w: Written)
    requires WrittenOk(w)
    ensures Named(LineOf(w), LENGTH_NAME) <==> IsLength(w)
    ensures FieldOf(LineOf(w)).Some? && FieldValue(LineOf(w)) == w.value
    ensures IsNumber(w.value) <==> Digits(w.value)
    ensures IsLength(w) && Digits(w.value) ==> LengthOf(LineOf(w)) == Number(w.value)
  {
    hide ToLower, SameButCase, LineOf, FieldOf;
    WrittenIsField(w);
    FieldNamesAreSmall();
    NamedIff(w.name, "content-length");
  }

  /** A field line passes exactly if it has a name, and a length that is a number below 2^64. */
  lemma LineIsOkIff(w: Written)
    requires WrittenOk(w)
    ensures LineOk(LineOf(w)) <==> GoodWritten(w)
  {
    hide ToLower, SameButCase, LineOf, FieldOf;
    WrittenIsField(w);
    LengthLineIs(w);
  }

  lemma LineWithoutColon(line: string)
    requires ':' !in line
    ensures !LineOk(line)
  {
  }

  // ---------- A header section ----------

  function LinesOf(ws: seq<Written>): (ls: seq<string>)
    ensures |ls| == |ws| && forall i :: 0 <= i < |ws| ==> ls[i] == LineOf(ws[i])
  {
    seq(|ws|, i requires 0 <= i < |ws| => LineOf(ws[i]))
  }

  function Sent(start: string, ls: seq<string>, body: string): string { Unlines([start] + ls) + CRLF + body }

  lemma SentHead(start: string, ls: seq<string>, body: string)
    requires GoodLines([start] + ls)
    ensures HeaderEnd(Sent(start, ls, body)).Some?
    ensures HeadLines(Sent(start, ls, body), HeaderEnd(Sent(start, ls, body)).value) == [start] + ls
  {
    HeadEndsAfterLines([start] + ls, body);
  }

  /**
   A request is accepted exactly if its first line is three words, every field line has a name, every
   Content-Length is a number below 2^64, and no two of them differ.
   */
  lemma HeadIsAcceptedIff(start: string, ws: seq<Written>, body: string)
    requires (forall w :: w in ws ==> WrittenOk(w)) && GoodLines([start] + LinesOf(ws))
    ensures Accepted(Sent(start, LinesOf(ws), body)) <==>
              && |Words(start)| == 3
              && (forall w :: w in ws ==> GoodWritten(w))
              && (forall v, w :: v in ws && w in ws && IsLength(v) && IsLength(w) ==> Number(v.value) == Number(w.value))
  {
    hide HeaderEnd, HeadLines, Words, LineOk, Named, LengthOf, GoodWritten, WrittenOk, IsLength, Number, LineOf, Unlines;
    var ls := LinesOf(ws);
    SentHead(start, ls, body);
    assert ([start] + ls)[1..] == ls;
    forall w | w in ws
      ensures LineOf(w) in ls && (LineOk(LineOf(w)) <==> GoodWritten(w))
      ensures Named(LineOf(w), LENGTH_NAME) <==> IsLength(w)
      ensures GoodWritten(w) && IsLength(w) ==> LengthOf(LineOf(w)) == Number(w.value)
    {
      var i :| 0 <= i < |ws| && ws[i] == w;
      assert ls[i] == LineOf(w);
      LineFacts(w);
    }
    forall l | l in ls ensures exists w :: w in ws && l == LineOf(w) {
      var i :| 0 <= i < |ls| && ls[i] == l;
      assert ws[i] in ws;
    }
  }

  lemma LineFacts(w: Written)
    requires WrittenOk(w)
    ensures LineOk(LineOf(w)) <==> GoodWritten(w)
    ensures Named(LineOf(w), LENGTH_NAME) <==> IsLength(w)
    ensures GoodWritten(w) && IsLength(w) ==> LengthOf(LineOf(w)) == Number(w.value)
  {
    hide SameButCase, LineOf, FieldOf;
    LineIsOkIff(w);
    LengthLineIs(w);
  }

  /** A single line without a colon makes the whole request refused. */
  lemma ColonlessIsRefused(start: string, ls: seq<string>, body: string, l: string)
    requires GoodLines([start] + ls) && l in ls && ':' !in l
    ensures !Accepted(Sent(start, ls, body))
  {
    hide HeaderEnd, HeadLines, Words, LineOk;
    SentHead(start, ls, body);
    assert ([start] + ls)[1..] == ls;
    LineWithoutColon(l);
  }

  // ---------- The quick scan, accepted or not ----------

  predicate NumericLength(line: string) { Named(line, LENGTH_NAME) && IsNumber(FieldValue(line)) }

  /** The first numeric Content-Length decides, and counts as 0 if it is 2^64 or more. */
  lemma {:induction false} ScanIs(ls: seq<string>, i: nat)
    requires i <= |ls| && forall j :: 0 <= j < i ==> !NumericLength(ls[j])
    requires i < |ls| ==> NumericLength(ls[i])
    ensures ScanLength(ls) ==
            if i == |ls| || Value(FieldValue(ls[i])) >= TWO_64 then 0 else Value(FieldValue(ls[i]))
  {
    hide Named, FieldOf;
    if i > 0 {
      ScanIs(ls[1..], i - 1);
    }
  }

  // ---------- Spelling ----------

  /** The same fields up to the case of their names, and of the values of Connection. */
  predicate Respelled(fs: seq<Field>, gs: seq<Field>) {
    && |fs| == |gs|
    && forall i :: 0 <= i < |fs| ==>
         && SameButCase(fs[i].name, gs[i].name)
         && (fs[i].value == gs[i].value
             || (SameButCase(fs[i].name, "connection") && SameButCase(fs[i].value, gs[i].value)))
  }

  lemma SameName(f: Field, g: Field, name: string)
    requires SameButCase(f.name, g.name)
    ensures ToLower(f.name) == name <==> ToLower(g.name) == name
  {
    ToLowerIff(f.name, g.name);
  }

  lemma {:induction false} RespelledLast(fs: seq<Field>, gs: seq<Field>, name: string)
    requires Respelled(fs, gs) && NoCapitals(name)
    ensures name != "connection" ==> LastField(fs, name) == LastField(gs, name)
    ensures ToLower(LastField(fs, name)) == ToLower(LastField(gs, name))
  {
    hide ToLower, SameButCase, NoCapitals;
    if fs != [] {
      var n := |fs| - 1;
      RespelledLast(fs[..n], gs[..n], name);
      SameName(fs[n], gs[n], name);
      NamedIff(fs[n].name, name);
      FieldNamesAreSmall();
      NamedIff(fs[n].name, "connection");
      ToLowerIff(fs[n].value, gs[n].value);
    }
  }

  /** Writing field names, or the value of Connection, in another case changes nothing that is read. */
  lemma SpellingDoesNotMatter(m: Message, fs: seq<Field>, rest: string)
    requires WellFormed(m) && WellFormed(m.(fields := fs)) && Respelled(m.fields, fs)
    ensures var n := m.(fields := fs);
            && Parse(Print(n) + rest) == Parse(Print(m) + rest)
            && HeaderEnd(Print(n)).Some? && HeaderEnd(Print(m)).Some?
            && ScanLength(HeadLines(Print(n), HeaderEnd(Print(n)).value)) ==
               ScanLength(HeadLines(Print(m), HeaderEnd(Print(m)).value))
  {
    hide Print, HeadLines, HeaderEnd, Parse, ToLower, Accepted, ScanLength;
    var n := m.(fields := fs);
    ParsePrinted(m, rest);
    ParsePrinted(n, rest);
    FieldNamesAreSmall();
    RespelledLast(m.fields, fs, "host");
    RespelledLast(m.fields, fs, "connection");
    ScanOfPrinted(m);
    ScanOfPrinted(n);
  }

  lemma ScanOfPrinted(m: Message)
    requires WellFormed(m)
    ensures HeaderEnd(Print(m)).Some?
    ensures ScanLength(HeadLines(Print(m), HeaderEnd(Print(m)).value)) == |m.body|
  {
    hide Print, HeadLines, HeaderEnd, Parse, LastField, ScanLength;
    assert Print(m) + "" == Print(m);
    ParsePrinted(m, "");
    ReadersAgree(Print(m));
  }
}
