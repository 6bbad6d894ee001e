/**
 The string operations the server borrows from its standard library: searching,
 lower-casing, trimming, reading words, converting decimals. A char stands for one byte.
 */
module Text {
  import opened Wrappers

  const CRLF := "\r\n"

  // ---------- Searching ----------

  /** The pattern p occurs in s at position i. */
  predicate MatchAt(s: string, p: string, i: nat) {
    i + |p| <= |s| && s[i..i + |p|] == p
  }

  /** The leftmost occurrence of p in s at or after `from`. */
  function Find(s: string, p: string, from: nat): (r: Option<nat>)
    ensures r.Some? ==> from <= r.value && MatchAt(s, p, r.value)
    ensures r.Some? ==> forall i: nat :: from <= i < r.value ==> !MatchAt(s, p, i)
    ensures r.None? ==> forall i: nat :: from <= i ==> !MatchAt(s, p, i)
    decreases |s| - from
  {
    if from + |p| > |s| then None
    else if s[from..from + |p|] == p then Some(from)
    else Find(s, p, from + 1)
  }

  /** The first position of the character c in s. */
  function FindChar(s: string, c: char): (r: Option<nat>)
    ensures r.Some? ==> r.value < |s| && s[r.value] == c && c !in s[..r.value]
    ensures r.None? ==> c !in s
  {
    if s == "" then None
    else if s[0] == c then Some(0)
    else match FindChar(s[1..], c)
      case None => None
      case Some(i) =>
        assert s[..i + 1] == [s[0]] + s[1..][..i];
        Some(i + 1)
  }

  lemma FirstCharAfter(a: string, c: char, b: string)
    requires c !in a
    ensures FindChar(a + [c] + b, c) == Some(|a|)
    ensures (a + [c] + b)[..|a|] == a && (a + [c] + b)[|a| + 1..] == b
  {
    hide FindChar;
    var s, r := a + [c] + b, FindChar(a + [c] + b, c);
    assert s[|a|] == c && s[|a|] in s;
    assert forall i :: 0 <= i < |a| ==> s[i] == a[i] && a[i] in a;
    assert forall i :: 0 <= i < r.value ==> s[..r.value][i] == s[i] && s[i] in s[..r.value];
  }

  predicate CrlfAt(s: string, i: nat) {
    i + 1 < |s| && s[i] == '\r' && s[i + 1] == '\n'
  }

  /** CRLFCRLF: the end of one line followed by an empty line. */
  predicate BlankAt(s: string, i: nat) {
    CrlfAt(s, i) && CrlfAt(s, i + 2)
  }

  ghost predicate CrlfFree(s: string) {
    forall i: nat :: !CrlfAt(s, i)
  }

  /** `s.find("\r\n", from)`. */
  function FindCrlf(s: string, from: nat): (r: Option<nat>)
    ensures r.Some? ==> from <= r.value && CrlfAt(s, r.value)
    ensures r.Some? ==> forall i: nat :: from <= i < r.value ==> !CrlfAt(s, i)
    ensures r.None? ==> forall i: nat :: from <= i ==> !CrlfAt(s, i)
    decreases |s| - from
  {
    if from >= |s| then None
    else if CrlfAt(s, from) then Some(from)
    else FindCrlf(s, from + 1)
  }

  /** `s.find("\r\n\r\n", from)`. */
  function FindBlank(s: string, from: nat): (r: Option<nat>)
    ensures r.Some? ==> from <= r.value && BlankAt(s, r.value)
    ensures r.Some? ==> forall i: nat :: from <= i < r.value ==> !BlankAt(s, i)
    ensures r.None? ==> forall i: nat :: from <= i ==> !BlankAt(s, i)
    decreases |s| - from
  {
    if from >= |s| then None
    else if BlankAt(s, from) then Some(from)
    else FindBlank(s, from + 1)
  }

  /** Where the header section ends, if its end has arrived. */
  function HeaderEnd(s: string): (r: Option<nat>)
  {
    FindBlank(s, 0)
  }

  lemma SliceOfSlice(s: string, a: nat, end: nat, k: nat)
    requires a + k <= end <= |s|
    ensures s[a..end][..k] == s[a..a + k]
    ensures s[a..end][k..] == s[a + k..end]
  {
  }

  // ---------- Characters ----------

  function LowerChar(c: char): char {
    if 'A' <= c <= 'Z' then (c as int + 32) as char else c
  }

  function ToLower(s: string): (r: string)
    ensures |r| == |s|
    ensures forall i :: 0 <= i < |s| ==> r[i] == LowerChar(s[i])
  {
    seq(|s|, i requires 0 <= i < |s| => LowerChar(s[i]))
  }

  predicate IsDigit(c: char) { '0' <= c <= '9' }

  predicate AllDigits(s: string) { forall c :: c in s ==> IsDigit(c) }

  /** The six characters of `isspace` in the C locale. */
  predicate IsSpace(c: char) {
    c == ' ' || c == '\t' || c == '\n' || c == '\r' || c as int == 11 || c as int == 12
  }

  predicate IsBlank(c: char) { c == ' ' || c == '\t' }

  predicate AllBlank(s: string) { forall c :: c in s ==> IsBlank(c) }

  // ---------- Trimming ----------

  function TrimLeft(s: string): (r: string)
    ensures r != "" ==> !IsBlank(r[0])
  {
    if s != "" && IsBlank(s[0]) then TrimLeft(s[1..]) else s
  }

  function TrimRight(s: string): (r: string)
    ensures r != "" ==> !IsBlank(r[|r| - 1])
  {
    if s != "" && IsBlank(s[|s| - 1]) then TrimRight(s[..|s| - 1]) else s
  }

  function Trim(s: string): string { TrimRight(TrimLeft(s)) }

  /** The two erase loops both header readers run over a field value. */
  method TrimBlanks(s: string) returns (v: string)
    ensures v == Trim(s)
  {
    v := s;
    while v != "" && IsBlank(v[0])
      invariant TrimLeft(v) == TrimLeft(s)
      decreases |v|
    {
      v := v[1..];
    }
    while v != "" && IsBlank(v[|v| - 1])
      invariant TrimRight(v) == Trim(s)
      decreases |v|
    {
      v := v[..|v| - 1];
    }
  }

  lemma {:induction false} TrimLeftCut(s: string) returns (a: string)
    ensures AllBlank(a) && s == a + TrimLeft(s)
  {
    if s != "" && IsBlank(s[0]) {
      var b := TrimLeftCut(s[1..]);
      a := [s[0]] + b;
    } else {
      a := "";
    }
  }

  lemma {:induction false} TrimRightCut(s: string) returns (b: string)
    ensures AllBlank(b) && s == TrimRight(s) + b
  {
    if s != "" && IsBlank(s[|s| - 1]) {
      var a := TrimRightCut(s[..|s| - 1]);
      b := a + [s[|s| - 1]];
    } else {
      b := "";
    }
  }

  /** Trimming removes blanks at both ends and nothing else. */
  lemma TrimCut(s: string) returns (a: string, b: string)
    ensures AllBlank(a) && AllBlank(b) && s == a + Trim(s) + b
  {
    a := TrimLeftCut(s);
    b := TrimRightCut(TrimLeft(s));
  }

  /** A value printed after ": " is read back whole. */
  lemma TrimPadded(v: string)
    requires v != "" ==> !IsBlank(v[0]) && !IsBlank(v[|v| - 1])
    ensures Trim(" " + v) == v
  {
    assert (" " + v)[1..] == v;
    assert TrimLeft(" " + v) == TrimLeft(v) == v;
  }

  // ---------- Words of a line, as read by operator>> ----------

  function WordEnd(s: string): (n: nat)
    ensures n <= |s|
    ensures forall i :: 0 <= i < n ==> !IsSpace(s[i])
    ensures n < |s| ==> IsSpace(s[n])
  {
    if s == "" || IsSpace(s[0]) then 0 else 1 + WordEnd(s[1..])
  }

  function Words(s: string): (ws: seq<string>)
    decreases |s|
  {
    if s == "" then []
    else if IsSpace(s[0]) then Words(s[1..])
    else [s[..WordEnd(s)]] + Words(s[WordEnd(s)..])
  }

  predicate IsWord(w: string) { w != "" && forall c :: c in w ==> !IsSpace(c) }

  lemma WordsCons(w: string, rest: string)
    requires IsWord(w) && (rest == "" || IsSpace(rest[0]))
    ensures Words(w + rest) == [w] + Words(rest)
  {
    var s := w + rest;
    var n := WordEnd(s);
    forall i | 0 <= i < |w| ensures !IsSpace(s[i]) {
      assert w[i] in w;
    }
    assert rest != "" ==> s[|w|] == rest[0];
    assert s[..n] == w && s[n..] == rest;
  }

  lemma {:induction false} WordsBlank(a: string, rest: string)
    requires AllBlank(a)
    ensures Words(a + rest) == Words(rest)
  {
    if a == "" {
      assert a + rest == rest;
    } else {
      assert a[0] in a;
      WordsBlank(a[1..], rest);
      assert (a + rest)[1..] == a[1..] + rest;
    }
  }

  lemma WordsNext(w: string, rest: string)
    requires IsWord(w)
    ensures Words(w + " " + rest) == [w] + Words(rest)
  {
    assert w + " " + rest == w + (" " + rest);
    WordsCons(w, " " + rest);
    WordsBlank(" ", rest);
  }

  lemma WordsOfThree(a: string, b: string, c: string)
    requires IsWord(a) && IsWord(b) && IsWord(c)
    ensures Words(a + " " + b + " " + c) == [a, b, c]
  {
    hide Words, IsWord;
    assert a + " " + b + " " + c == a + " " + (b + " " + c);
    WordsNext(a, b + " " + c);
    WordsNext(b, c);
    assert c + "" == c;
    WordsCons(c, "");
    NoWords();
  }

  lemma NoWords()
    ensures Words("") == []
  {
  }

  // ---------- Trimming and words, told without the loops ----------

  /** Space, tab, newline, carriage return, vertical tab, form feed. */
  const SIX: string := [' ', '\t', '\n', '\r', 11 as char, 12 as char]

  lemma SpaceIsOneOfSix(c: char)
    ensures IsSpace(c) <==> c in SIX
  {
    assert SIX[0] == ' ' && SIX[1] == '\t' && SIX[2] == '\n' && SIX[3] == '\r';
    assert SIX[4] == 11 as char && SIX[5] == 12 as char;
  }

  /** The words of a line are the runs between the six characters, in order. */
  lemma WordsAre(w: string, rest: string)
    requires w != "" && forall c :: c in w ==> c !in SIX
    requires rest == "" || rest[0] in SIX
    ensures Words(w + rest) == [w] + Words(rest)
    ensures rest != "" ==> Words(rest) == Words(rest[1..])
    ensures Words("") == []
  {
    forall c: char ensures IsSpace(c) <==> c in SIX {
      SpaceIsOneOfSix(c);
    }
    WordsCons(w, rest);
  }

  predicate SpacesAndTabs(s: string) { forall c :: c in s ==> c == ' ' || c == '\t' }

  predicate NoBlankEnds(v: string) {
    v != "" ==> v[0] != ' ' && v[0] != '\t' && v[|v| - 1] != ' ' && v[|v| - 1] != '\t'
  }

  lemma {:induction false} TrimLeftIs(a: string, t: string)
    requires SpacesAndTabs(a) && (t != "" ==> t[0] != ' ' && t[0] != '\t')
    ensures TrimLeft(a + t) == t
  {
    if a == "" {
      assert a + t == t;
    } else {
      assert a[0] in a && (a + t)[0] == a[0] && forall c :: c in a[1..] ==> c in a;
      TrimLeftIs(a[1..], t);
      assert (a + t)[1..] == a[1..] + t;
    }
  }

  lemma {:induction false} TrimRightIs(t: string, b: string)
    requires SpacesAndTabs(b) && (t != "" ==> t[|t| - 1] != ' ' && t[|t| - 1] != '\t')
    ensures TrimRight(t + b) == t
  {
    if b == "" {
      assert t + b == t;
    } else {
      var n := |b| - 1;
      assert b[n] in b && (t + b)[|t| + n] == b[n] && forall c :: c in b[..n] ==> c in b;
      TrimRightIs(t, b[..n]);
      assert (t + b)[..|t| + n] == t + b[..n];
    }
  }

  /** Trimming takes the spaces and tabs off both ends, all of them and nothing else. */
  lemma TrimIs(a: string, v: string, b: string)
    requires SpacesAndTabs(a) && SpacesAndTabs(b) && NoBlankEnds(v)
    ensures Trim(a + v + b) == v
  {
    if v == "" {
      assert a + v + b == (a + b) + "";
      TrimLeftIs(a + b, "");
    } else {
      assert a + v + b == a + (v + b);
      TrimLeftIs(a, v + b);
      TrimRightIs(v, b);
    }
  }
}
