/**
 How the server finds the extent of a message in its buffer: the header section ends at the
 first CRLFCRLF, its lines are cut at CRLF, and a scan for Content-Length gives the rest.
 */
module Framing {
  import opened Wrappers
  import opened Text
  import opened Decimal

  // ---------- Lines ----------

  /** The CRLF-terminated lines of s; text after the last CRLF is not a line. */
  function Lines(s: string): (ls: seq<string>)
    decreases |s|
  {
    match FindCrlf(s, 0)
    case None => []
    case Some(i) => [s[..i]] + Lines(s[i + 2..])
  }

  function Unlines(ls: seq<string>): string {
    if ls == [] then "" else ls[0] + CRLF + Unlines(ls[1..])
  }

  /** The header section of a buffer whose first CRLFCRLF is at h: start line and field lines. */
  function HeadLines(buf: string, h: nat): seq<string>
    requires h + 2 <= |buf|
  {
    Lines(buf[..h + 2])
  }

  lemma UnlinesCons(l: string, ls: seq<string>)
    ensures Unlines([l] + ls) == l + CRLF + Unlines(ls)
  {
    assert ([l] + ls)[1..] == ls;
  }

  lemma LineFound(l: string, rest: string)
    requires CrlfFree(l)
    ensures FindCrlf(l + CRLF + rest, 0) == Some(|l|)
  {
    var s := l + CRLF + rest;
    assert CrlfAt(s, |l|);
    forall i: nat | i < |l| ensures !CrlfAt(s, i) {
      assert !CrlfAt(l, i);
      assert s[i] == l[i] && (i + 1 < |l| ==> s[i + 1] == l[i + 1]);
    }
  }

  lemma {:induction false} LinesUnlines(ls: seq<string>)
    requires forall l :: l in ls ==> CrlfFree(l)
    ensures Lines(Unlines(ls)) == ls
  {
    if ls == [] {
      assert Unlines(ls) == "";
    } else {
      var rest := Unlines(ls[1..]);
      LineFound(ls[0], rest);
      assert Unlines(ls)[..|ls[0]|] == ls[0] && Unlines(ls)[|ls[0]| + 2..] == rest;
      LinesUnlines(ls[1..]);
    }
  }

  lemma NextCrlf(buf: string, h: nat, cur: nat) returns (next: nat)
    requires HeaderEnd(buf) == Some(h) && cur <= h
    requires cur == 0 || (cur >= 2 && CrlfAt(buf, cur - 2))
    ensures FindCrlf(buf, cur) == Some(next) && cur <= next <= h
    ensures cur > 0 ==> cur < next
    ensures next == h || next + 2 < h
  {
    assert CrlfAt(buf, h);
    next := FindCrlf(buf, cur).value;
    if cur > 0 && cur == next {
      assert BlankAt(buf, cur - 2);
    }
    if next + 2 == h {
      assert BlankAt(buf, next);
    }
  }

  lemma FindInSlice(buf: string, cur: nat, next: nat, end: nat)
    requires FindCrlf(buf, cur) == Some(next) && next + 2 <= end <= |buf|
    ensures FindCrlf(buf[cur..end], 0) == Some(next - cur)
  {
    var s := buf[cur..end];
    assert CrlfAt(s, next - cur);
    assert forall i: nat :: CrlfAt(s, i) ==> CrlfAt(buf, cur + i);
  }

  /**
   One round of a header loop standing at the start `cur` of a line, before the header end h:
   the next CRLF exists and lies at or before h, only the start line can be empty, and the round
   after it starts before h again or exactly at h + 2, never in between.
   */
  lemma NextLine(buf: string, h: nat, cur: nat) returns (next: nat)
    requires HeaderEnd(buf) == Some(h) && cur <= h
    requires cur == 0 || (cur >= 2 && CrlfAt(buf, cur - 2))
    ensures FindCrlf(buf, cur) == Some(next) && cur <= next <= h
    ensures cur > 0 ==> cur < next
    ensures next == h || next + 2 < h
    ensures Lines(buf[cur..h + 2]) == [buf[cur..next]] + Lines(buf[next + 2..h + 2])
  {
    next := NextCrlf(buf, h, cur);
    FindInSlice(buf, cur, next, h + 2);
    SliceOfSlice(buf, cur, h + 2, next - cur);
    SliceOfSlice(buf, cur, h + 2, next + 2 - cur);
    LinesStep(buf[cur..h + 2], next - cur, buf[cur..next], buf[next + 2..h + 2]);
  }

  lemma LinesStep(s: string, i: nat, l: string, rest: string)
    requires FindCrlf(s, 0) == Some(i)
    requires l == s[..i] && rest == s[i + 2..]
    ensures Lines(s) == [l] + Lines(rest)
  {
  }

  ghost predicate GoodLines(ls: seq<string>) {
    forall l :: l in ls ==> CrlfFree(l) && l != ""
  }

  lemma GoodLinesCons(l: string, ls: seq<string>)
    requires CrlfFree(l) && l != "" && GoodLines(ls)
    ensures GoodLines([l] + ls)
    ensures Unlines([l] + ls) == l + CRLF + Unlines(ls)
  {
    UnlinesCons(l, ls);
  }

  lemma FirstLine(s: string, i: nat)
    requires FindCrlf(s, 0) == Some(i)
    ensures CrlfFree(s[..i]) && s == s[..i] + CRLF + s[i + 2..]
  {
    assert forall j: nat :: CrlfAt(s[..i], j) ==> CrlfAt(s, j);
  }

  /** Cutting a text that has no empty line into lines loses nothing. */
  lemma {:induction false} UnlinesLines(s: string)
    requires s == "" || (|s| >= 2 && CrlfAt(s, |s| - 2) && !CrlfAt(s, 0))
    requires forall i: nat :: !BlankAt(s, i)
    ensures Unlines(Lines(s)) == s && GoodLines(Lines(s))
    decreases |s|
  {
    if s != "" {
      var i, t := FindCrlf(s, 0).value, s[FindCrlf(s, 0).value + 2..];
      FirstLine(s, i);
      assert forall j: nat :: CrlfAt(t, j) ==> CrlfAt(s, i + 2 + j);
      assert !BlankAt(s, i);
      forall j: nat ensures !BlankAt(t, j) {
        assert !BlankAt(s, i + 2 + j);
      }
      UnlinesLines(t);
      GoodLinesCons(s[..i], Lines(t));
    }
  }

  /**
   The header loops visit the header section and nothing else: past the start line, the lines
   put together give it back, and no line is empty.
   */
  lemma LinesCoverHead(buf: string, h: nat, cur: nat)
    requires HeaderEnd(buf) == Some(h)
    requires cur == h + 2 || cur <= h
    requires cur >= 2 && CrlfAt(buf, cur - 2)
    ensures Unlines(Lines(buf[cur..h + 2])) == buf[cur..h + 2]
    ensures GoodLines(Lines(buf[cur..h + 2]))
  {
    var s := buf[cur..h + 2];
    assert forall j: nat :: CrlfAt(s, j) ==> CrlfAt(buf, cur + j);
    if cur <= h {
      assert !BlankAt(buf, cur - 2);
      assert CrlfAt(buf, h) && CrlfAt(s, |s| - 2);
    }
    forall j: nat ensures !BlankAt(s, j) {
      assert cur + j < h ==> !BlankAt(buf, cur + j);
    }
    UnlinesLines(s);
  }

  // ---------- Prefixes of one stream ----------

  /** Bytes that arrive later never move the header end or change the header section. */
  lemma HeadStable(a: string, b: string)
    requires a <= b
    ensures HeaderEnd(a).Some? ==> HeaderEnd(b) == HeaderEnd(a)
    ensures HeaderEnd(b).Some? && HeaderEnd(b).value + 4 <= |a| ==> HeaderEnd(a) == HeaderEnd(b)
    ensures HeaderEnd(a).Some? ==> HeadLines(a, HeaderEnd(a).value) == HeadLines(b, HeaderEnd(a).value)
  {
    assert forall i: nat :: i + 3 < |a| ==> (BlankAt(a, i) <==> BlankAt(b, i));
    if HeaderEnd(a).Some? {
      var h := HeaderEnd(a).value;
      assert BlankAt(b, h);
      assert a[..h + 2] == b[..h + 2];
    }
    if HeaderEnd(b).Some? && HeaderEnd(b).value + 4 <= |a| {
      assert BlankAt(a, HeaderEnd(b).value);
    }
  }

  lemma CrlfShift(p: string, t: string, i: nat)
    ensures CrlfAt(p + t, |p| + i) <==> CrlfAt(t, i)
  {
  }

  lemma SkipLine(l: string, t: string)
    requires CrlfFree(l) && HeaderEnd(t).Some? && !CrlfAt(t, 0)
    ensures HeaderEnd(l + CRLF + t) == Some(|l| + 2 + HeaderEnd(t).value)
  {
    var p := l + CRLF;
    var s, n, k := p + t, |p|, HeaderEnd(t).value;
    LineFound(l, t);
    forall i: nat | i < n + k ensures !BlankAt(s, i) {
      if i >= n {
        CrlfShift(p, t, i - n);
        CrlfShift(p, t, i - n + 2);
        assert !BlankAt(t, i - n);
      } else if i == |l| {
        CrlfShift(p, t, 0);
      }
    }
    CrlfShift(p, t, k);
    CrlfShift(p, t, k + 2);
    assert BlankAt(s, n + k);
  }

  lemma LastLine(l: string, t: string)
    requires CrlfFree(l) && CrlfAt(t, 0)
    ensures HeaderEnd(l + CRLF + t) == Some(|l|)
  {
    var s := l + CRLF + t;
    LineFound(l, t);
    assert s[|l| + 2] == t[0] && s[|l| + 3] == t[1];
    assert BlankAt(s, |l|);
  }

  lemma StartsWithText(ls: seq<string>, rest: string)
    requires ls != [] && GoodLines(ls)
    ensures !CrlfAt(Unlines(ls) + CRLF + rest, 0)
  {
    var t := Unlines(ls[1..]) + CRLF + rest;
    assert Unlines(ls) + CRLF + rest == ls[0] + CRLF + t;
    assert ls[0] in ls;
    LineFound(ls[0], t);
  }

  lemma {:induction false} BlankAfterLines(ls: seq<string>, rest: string)
    requires ls != [] && GoodLines(ls)
    ensures |Unlines(ls)| >= 2
    ensures HeaderEnd(Unlines(ls) + CRLF + rest) == Some(|Unlines(ls)| - 2)
  {
    var l, t := ls[0], Unlines(ls[1..]) + CRLF + rest;
    assert l in ls;
    assert Unlines(ls) + CRLF + rest == l + CRLF + t;
    if ls[1..] == [] {
      assert t == CRLF + rest;
      LastLine(l, t);
    } else {
      BlankAfterLines(ls[1..], rest);
      StartsWithText(ls[1..], rest);
      SkipLine(l, t);
    }
  }

  /** A printed header section ends where its lines end, and its lines are read back. */
  lemma HeadEndsAfterLines(ls: seq<string>, rest: string)
    requires ls != [] && GoodLines(ls)
    ensures |Unlines(ls)| >= 2
    ensures HeaderEnd(Unlines(ls) + CRLF + rest) == Some(|Unlines(ls)| - 2)
    ensures HeadLines(Unlines(ls) + CRLF + rest, |Unlines(ls)| - 2) == ls
  {
    BlankAfterLines(ls, rest);
    assert (Unlines(ls) + CRLF + rest)[..|Unlines(ls)|] == Unlines(ls);
    LinesUnlines(ls);
  }

  // ---------- Fields and the declared length ----------

  datatype Field = Field(name: string, value: string)

  /** A field line cut at its first colon, the value trimmed of spaces and tabs. */
  function FieldOf(line: string): Option<Field> {
    match FindChar(line, ':')
    case None => None
    case Some(c) => Some(Field(line[..c], Trim(line[c + 1..])))
  }

  predicate Named(line: string, name: string) {
    FieldOf(line).Some? && ToLower(FieldOf(line).value.name) == name
  }

  function FieldValue(line: string): string
    requires FieldOf(line).Some?
  {
    FieldOf(line).value.value
  }

  const LENGTH_NAME := "content-length"

  predicate IsNumber(v: string) { v != "" && AllDigits(v) }

  /** What the quick scan reads: the first numeric Content-Length, 0 if it overflows or is missing. */
  function ScanLength(lines: seq<string>): nat {
    if lines == [] then 0
    else if Named(lines[0], LENGTH_NAME) && IsNumber(FieldValue(lines[0])) then
      match Stoull(FieldValue(lines[0])) { case Some(n) => n case None => 0 }
    else ScanLength(lines[1..])
  }

  lemma ScanStep(l: string, ls: seq<string>)
    ensures ScanLength([l] + ls) ==
            if Named(l, LENGTH_NAME) && IsNumber(FieldValue(l)) then ScanLength([l]) else ScanLength(ls)
  {
    assert ([l] + ls)[0] == l && ([l] + ls)[1..] == ls;
  }

  ghost function ScanFrom(buf: string, h: nat, pos: nat): nat
    requires pos <= h + 2 <= |buf|
  {
    ScanLength(Lines(buf[pos..h + 2]))
  }

  lemma ScanRound(buf: string, h: nat, pos: nat) returns (next: nat)
    requires HeaderEnd(buf) == Some(h) && pos <= h
    requires pos == 0 || (pos >= 2 && CrlfAt(buf, pos - 2))
    ensures FindCrlf(buf, pos) == Some(next) && pos <= next <= h
    ensures next == h || next + 2 < h
    ensures var l := buf[pos..next];
            ScanFrom(buf, h, pos) ==
            if Named(l, LENGTH_NAME) && IsNumber(FieldValue(l)) then ScanLength([l])
            else ScanFrom(buf, h, next + 2)
  {
    next := NextLine(buf, h, pos);
    ScanStep(buf[pos..next], Lines(buf[next + 2..h + 2]));
  }

  lemma EmptyHead(buf: string)
    requires HeaderEnd(buf) == Some(0)
    ensures ScanLength(HeadLines(buf, 0)) == 0
  {
    var next := NextLine(buf, 0, 0);
    assert buf[0..2] == buf[..2] && buf[0..0] == "" && buf[2..2] == "";
    assert HeadLines(buf, 0) == [""];
  }

  /** The quick scan's reading of one line: the number it returns with, if it returns. */
  method ScanLine(line: string) returns (r: Option<nat>)
    ensures r.Some? <==> Named(line, LENGTH_NAME) && IsNumber(FieldValue(line))
    ensures r.Some? ==> r.value == ScanLength([line])
  {
    var colon := FindChar(line, ':');
    if colon.Some? && ToLower(line[..colon.value]) == LENGTH_NAME {
      var val := TrimBlanks(line[colon.value + 1..]);
      if val != "" && AllDigits(val) {
        var parsed := Stoull(val);
        return Some(match parsed { case Some(v) => v case None => 0 });
      }
    }
    return None;
  }

  /** `extract_content_length`: the exits for a missing or misplaced CRLF are dead. */
  method ExtractContentLength(buf: string, headerEnd: nat) returns (n: nat)
    requires HeaderEnd(buf) == Some(headerEnd)
    ensures n == ScanLength(HeadLines(buf, headerEnd))
  {
    var pos := 0;
    assert buf[0..headerEnd + 2] == buf[..headerEnd + 2];
    if headerEnd == 0 {
      EmptyHead(buf);
    }
    while pos < headerEnd
      invariant pos == headerEnd + 2 || pos < headerEnd || pos == headerEnd == 0
      invariant pos == 0 || (pos >= 2 && CrlfAt(buf, pos - 2))
      invariant ScanFrom(buf, headerEnd, pos) == ScanFrom(buf, headerEnd, 0)
    {
      ghost var next := ScanRound(buf, headerEnd, pos);
      var lineEnd := FindCrlf(buf, pos);
      if lineEnd.None? || lineEnd.value > headerEnd {
        assert false;
        break;
      }
      var line := buf[pos..lineEnd.value];
      var found := ScanLine(line);
      if found.Some? {
        return found.value;
      }
      pos := lineEnd.value + 2;
    }
    if pos == headerEnd + 2 {
      assert buf[pos..headerEnd + 2] == "";
    }
    return 0;
  }

  /** `header_end + 4 + content_length`, computed in a 64-bit size_t. */
  function SizeSum(h: nat, length: nat): nat {
    (h + 4 + length) % SIZE_MOD
  }

  /** The length the scan gives the first message of the buffer. */
  function Need(buf: string): nat
    requires HeaderEnd(buf).Some?
  {
    SizeSum(HeaderEnd(buf).value, ScanLength(HeadLines(buf, HeaderEnd(buf).value)))
  }

  predicate HasComplete(buf: string) {
    HeaderEnd(buf).Some? && |buf| >= Need(buf)
  }

  // ---------- Cutting a stream into messages ----------

  /** Exactly one message: its own header section announces its length. */
  predicate Framed(m: string) {
    HeaderEnd(m).Some? && Need(m) == |m|
  }

  lemma FramedInStream(m: string, rest: string)
    requires Framed(m)
    ensures HeaderEnd(m + rest) == HeaderEnd(m)
    ensures Need(m + rest) == |m| && HasComplete(m + rest)
    ensures |m| >= 4
  {
    HeadStable(m, m + rest);
  }

  datatype Cut = Cut(messages: seq<string>, rest: string)

  /**
   Take complete messages off the front while there are any. A message of length 0, which only a
   size_t sum that wraps to 0 can announce, cannot be taken off and ends it.
   */
  function Drain(buf: string): Cut
    decreases |buf|
  {
    if !HasComplete(buf) || Need(buf) == 0 then Cut([], buf)
    else
      var c := Drain(buf[Need(buf)..]);
      Cut([buf[..Need(buf)]] + c.messages, c.rest)
  }

  function Concat(ms: seq<string>): string {
    if ms == [] then "" else ms[0] + Concat(ms[1..])
  }

  lemma {:induction false} ConcatAppend(ms: seq<string>, m: string)
    ensures Concat(ms + [m]) == Concat(ms) + m
  {
    if ms == [] {
      assert ms + [m] == [m] && Concat([m][1..]) == "";
    } else {
      assert (ms + [m])[1..] == ms[1..] + [m];
      ConcatAppend(ms[1..], m);
    }
  }

  /** Any messages that frame themselves, put end to end, are taken apart again in order. */
  lemma {:induction false} DrainConcat(ms: seq<string>, tail: string)
    requires forall m :: m in ms ==> Framed(m)
    requires !HasComplete(tail)
    ensures Drain(Concat(ms) + tail) == Cut(ms, tail)
  {
    if ms == [] {
      assert Concat(ms) + tail == tail;
    } else {
      var rest := Concat(ms[1..]) + tail;
      assert Concat(ms) + tail == ms[0] + rest;
      FramedInStream(ms[0], rest);
      DrainConcat(ms[1..], tail);
    }
  }
}
