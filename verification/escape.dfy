/**
 The escapers and the URL decoder. Each encoder writes a code for every byte; the decoders
 are reference definitions, and every encoder is undone by its decoder.
 */
module Escapes {
  import opened Wrappers
  import opened Splitting
  import opened Template

  /** The codes of the bytes of s, one after the other. */
  function Expand(s: string, code: char -> string): string {
    if s == "" then "" else code(s[0]) + Expand(s[1..], code)
  }

  lemma {:induction false} ExpandAppend(a: string, b: string, code: char -> string)
    ensures Expand(a + b, code) == Expand(a, code) + Expand(b, code)
  {
    if a == "" {
      assert a + b == b;
    } else {
      ExpandAppend(a[1..], b, code);
      assert (a + b)[1..] == a[1..] + b && (a + b)[0] == a[0];
      var p, x, y := code(a[0]), Expand(a[1..], code), Expand(b, code);
      assert p + (x + y) == (p + x) + y;
    }
  }

  lemma ExpandNext(s: string, i: nat, code: char -> string)
    requires i < |s|
    ensures Expand(s[..i + 1], code) == Expand(s[..i], code) + code(s[i])
  {
    assert s[..i + 1] == s[..i] + [s[i]];
    assert [s[i]][1..] == "";
    ExpandAppend(s[..i], [s[i]], code);
    assert Expand([s[i]], code) == code(s[i]) + Expand("", code);
  }

  // ---------- HTML ----------

  function HtmlCode(c: char): (r: string)
    ensures r != ""
  {
    if c == '&' then "&amp;"
    else if c == '<' then "&lt;"
    else if c == '>' then "&gt;"
    else if c == '"' then "&quot;"
    else if c == '\'' then "&#39;"
    else [c]
  }

  method HtmlEscape(s: string) returns (out: string)
    ensures out == Expand(s, HtmlCode)
  {
    out := "";
    for i := 0 to |s|
      invariant out == Expand(s[..i], HtmlCode)
    {
      ExpandNext(s, i, HtmlCode);
      match s[i]
      case '&' => out := out + "&amp;";
      case '<' => out := out + "&lt;";
      case '>' => out := out + "&gt;";
      case '"' => out := out + "&quot;";
      case '\'' => out := out + "&#39;";
      case c => out := out + [c];
    }
    assert s[..|s|] == s;
  }

  /** A browser's reading of the five references; any other text stands for itself. */
  function HtmlChar(t: string): (r: (char, nat))
    requires t != ""
    ensures 0 < r.1 <= |t|
  {
    if "&amp;" <= t then ('&', 5)
    else if "&lt;" <= t then ('<', 4)
    else if "&gt;" <= t then ('>', 4)
    else if "&quot;" <= t then ('"', 6)
    else if "&#39;" <= t then ('\'', 5)
    else (t[0], 1)
  }

  function HtmlText(t: string): string
    decreases |t|
  {
    if t == "" then ""
    else [HtmlChar(t).0] + HtmlText(t[HtmlChar(t).1..])
  }

  lemma HtmlCharIs(c: char, rest: string)
    ensures HtmlChar(HtmlCode(c) + rest) == (c, |HtmlCode(c)|)
  {
    var t := HtmlCode(c) + rest;
    assert t[0] == HtmlCode(c)[0];
    if c == '<' {
      assert t[1] == 'l' && "&amp;"[1] == 'a';
    } else if c == '>' {
      assert t[1] == 'g' && "&amp;"[1] == 'a' && "&lt;"[1] == 'l';
    } else if c == '"' {
      assert t[1] == 'q' && "&amp;"[1] == 'a' && "&lt;"[1] == 'l' && "&gt;"[1] == 'g';
    } else if c == '\'' {
      assert t[1] == '#' && "&amp;"[1] == 'a' && "&lt;"[1] == 'l' && "&gt;"[1] == 'g' && "&quot;"[1] == 'q';
    }
  }

  /** What a browser shows is the original text, whatever it was. */
  lemma {:induction false} HtmlRoundTrip(s: string)
    ensures HtmlText(Expand(s, HtmlCode)) == s
  {
    if s != "" {
      var rest := Expand(s[1..], HtmlCode);
      HtmlCharIs(s[0], rest);
      HtmlRoundTrip(s[1..]);
      assert (HtmlCode(s[0]) + rest)[|HtmlCode(s[0])|..] == rest;
    }
  }

  predicate HtmlSpecial(c: char) { c == '<' || c == '>' || c == '"' || c == '\'' }

  /** No character that could open a tag or end an attribute is left in the output. */
  lemma {:induction false} HtmlHasNoMarkup(s: string)
    ensures forall c :: c in Expand(s, HtmlCode) ==> !HtmlSpecial(c)
  {
    if s != "" {
      HtmlHasNoMarkup(s[1..]);
      assert forall c :: c in HtmlCode(s[0]) ==> !HtmlSpecial(c);
    }
  }

  /** Exactly the texts without the five characters come out unchanged. */
  lemma {:induction false} HtmlUnchangedIff(s: string)
    ensures |Expand(s, HtmlCode)| >= |s|
    ensures Expand(s, HtmlCode) == s <==> forall c :: c in s ==> c != '&' && !HtmlSpecial(c)
  {
    if s != "" {
      var code, rest := HtmlCode(s[0]), Expand(s[1..], HtmlCode);
      HtmlUnchangedIff(s[1..]);
      assert s == [s[0]] + s[1..];
      assert s[0] in s && forall c :: c in s <==> c == s[0] || c in s[1..];
      if s[0] == '&' || HtmlSpecial(s[0]) {
        assert |code| > 1;
      } else {
        assert code + rest == s <==> rest == s[1..] by {
          assert (code + rest)[1..] == rest;
        }
      }
    }
  }

  // ---------- JSON ----------

  function JsonCode(c: char): (r: string)
    ensures r != ""
  {
    if c == '"' then "\\\""
    else if c == '\\' then "\\\\"
    else if c == '\n' then "\\n"
    else if c == '\r' then "\\r"
    else if c == '\t' then "\\t"
    else [c]
  }

  method EscapeJson(s: string) returns (out: string)
    ensures out == Expand(s, JsonCode)
  {
    out := "";
    for i := 0 to |s|
      invariant out == Expand(s[..i], JsonCode)
    {
      ExpandNext(s, i, JsonCode);
      match s[i]
      case '"' => out := out + "\\\"";
      case '\\' => out := out + "\\\\";
      case '\n' => out := out + "\\n";
      case '\r' => out := out + "\\r";
      case '\t' => out := out + "\\t";
      case c => out := out + [c];
    }
    assert s[..|s|] == s;
  }

  /** The two-character escapes of RFC 8259 section 7. */
  function JsonEscaped(c: char): Option<char> {
    if c == '"' || c == '\\' || c == '/' then Some(c)
    else if c == 'b' then Some(8 as char)
    else if c == 'f' then Some(12 as char)
    else if c == 'n' then Some('\n')
    else if c == 'r' then Some('\r')
    else if c == 't' then Some('\t')
    else None
  }

  /** Reads a string literal after its opening quote: the text and where the closing quote stands. */
  function JsonLiteral(t: string): (r: Option<(string, nat)>)
    ensures r.Some? ==> r.value.1 < |t| && t[r.value.1] == '"'
    decreases |t|
  {
    if t == "" then None
    else if t[0] == '"' then Some(("", 0))
    else if t[0] == '\\' then
      if |t| < 2 || JsonEscaped(t[1]).None? then None
      else match JsonLiteral(t[2..])
        case None => None
        case Some(p) => Some(([JsonEscaped(t[1]).value] + p.0, p.1 + 2))
    else match JsonLiteral(t[1..])
      case None => None
      case Some(p) => Some(([t[0]] + p.0, p.1 + 1))
  }

  /** Whatever the text and whatever follows, the literal ends at its own quote and says the text. */
  lemma {:induction false} JsonRoundTrip(s: string, rest: string)
    ensures JsonLiteral(Expand(s, JsonCode) + "\"" + rest) == Some((s, |Expand(s, JsonCode)|))
  {
    hide JsonCode, JsonEscaped;
    if s != "" {
      var code, more := JsonCode(s[0]), Expand(s[1..], JsonCode);
      JsonRoundTrip(s[1..], rest);
      JsonOne(s[0], more + "\"" + rest);
      Regroup(code, more, rest);
      assert s == [s[0]] + s[1..];
    }
  }

  lemma Regroup(code: string, more: string, rest: string)
    ensures (code + more) + "\"" + rest == code + (more + "\"" + rest)
    ensures |code + more| == |code| + |more|
  {
  }

  lemma JsonOne(c: char, more: string)
    ensures JsonLiteral(JsonCode(c) + more) ==
            match JsonLiteral(more) {
              case None => None
              case Some(p) => Some(([c] + p.0, p.1 + |JsonCode(c)|))
            }
  {
    hide JsonCode, JsonEscaped;
    JsonCodeIs(c);
    var code, t := JsonCode(c), JsonCode(c) + more;
    assert t[0] == code[0] && t[|code|..] == more;
    if |code| == 2 {
      assert t[1] == code[1];
    }
  }

  /** A code is a two-character escape that means the byte, or the byte itself. */
  lemma JsonCodeIs(c: char)
    ensures var code := JsonCode(c);
            || (|code| == 2 && code[0] == '\\' && JsonEscaped(code[1]) == Some(c))
            || (code == [c] && c != '"' && c != '\\')
  {
  }

  /** The characters RFC 8259 section 7 lets stand in a literal, taken one escape at a time. */
  predicate JsonWellFormed(t: string) {
    if t == "" then true
    else if t[0] == '\\' then |t| >= 2 && JsonEscaped(t[1]).Some? && JsonWellFormed(t[2..])
    else t[0] != '"' && t[0] as int >= 0x20 && JsonWellFormed(t[1..])
  }

  predicate JsonCovers(c: char) { c as int >= 0x20 || c == '\n' || c == '\r' || c == '\t' }

  /** The output is a well-formed literal exactly for texts without other control characters. */
  lemma {:induction false} JsonWellFormedIff(s: string)
    ensures JsonWellFormed(Expand(s, JsonCode)) <==> forall c :: c in s ==> JsonCovers(c)
  {
    if s != "" {
      var code, more := JsonCode(s[0]), Expand(s[1..], JsonCode);
      JsonWellFormedIff(s[1..]);
      JsonCodeIs(s[0]);
      assert s[0] in s && forall c :: c in s <==> c == s[0] || c in s[1..];
      assert (code + more)[0] == code[0] && (code + more)[|code|..] == more;
      assert |code| == 2 ==> (code + more)[1] == code[1] && JsonEscaped(code[1]) == Some(s[0]);
    }
  }

  /** One that does: it stands in the literal as it is. */
  lemma ControlIsNotEscaped()
    ensures Expand([1 as char], JsonCode) == [1 as char] && !JsonWellFormed([1 as char])
  {
    JsonWellFormedIff([1 as char]);
    assert [1 as char][1..] == "" && !JsonCovers([1 as char][0]);
    assert Expand([1 as char], JsonCode) == JsonCode(1 as char) + Expand([1 as char][1..], JsonCode);
  }

  // ---------- Escaped values in templates ----------

  /** When a text with at most a first brace may be put in front of another. */
  lemma PlainCons(p: string, t: string)
    requires p != "" && forall i :: 0 <= i < |p| ==> (p[i] == '{' ==> |p| == 1)
    ensures Plain(p + t) <==> Plain(t) && (p == "{" ==> t != "" && t[0] != '{')
  {
    var s := p + t;
    assert forall i :: 0 <= i < |t| ==> s[|p| + i] == t[i];
    if Plain(s) {
      forall i | 0 <= i < |t| - 1 ensures !(t[i] == '{' && t[i + 1] == '{') {
        assert s[|p| + i] == t[i] && s[|p| + i + 1] == t[i + 1];
      }
      if p == "{" {
        assert s[0] == '{';
      }
    }
  }

  /** The code leaves opening braces alone and makes no new ones. */
  ghost predicate LeavesBraces(code: char -> string) {
    forall c :: code(c) != "" && if c == '{' then code(c) == "{" else '{' !in code(c)
  }

  lemma {:induction false} ExpandKeepsBraces(s: string, code: char -> string)
    requires LeavesBraces(code)
    ensures Plain(Expand(s, code)) <==> Plain(s)
    ensures s != "" ==> Expand(s, code) != "" && (Expand(s, code)[0] == '{' <==> s[0] == '{')
  {
    if s != "" {
      var p := code(s[0]);
      ExpandKeepsBraces(s[1..], code);
      assert p[0] in p && forall i :: 0 <= i < |p| ==> p[i] in p;
      PlainCons(p, Expand(s[1..], code));
      PlainCons([s[0]], s[1..]);
      assert s == [s[0]] + s[1..];
    }
  }

  /** Braces pass both escapers, so an escaped value is safe to substitute exactly when the raw one is. */
  lemma EscapersKeepBraces(s: string)
    ensures Plain(Expand(s, HtmlCode)) <==> Plain(s)
    ensures Plain(Expand(s, JsonCode)) <==> Plain(s)
  {
    hide Plain, Expand;
    ExpandKeepsBraces(s, HtmlCode);
    ExpandKeepsBraces(s, JsonCode);
  }

  // ---------- URL decoding ----------

  predicate IsHex(c: char) { '0' <= c <= '9' || 'a' <= c <= 'f' || 'A' <= c <= 'F' }

  function HexValue(c: char): (n: nat)
    requires IsHex(c)
    ensures n < 16
  {
    if c <= '9' then c as int - '0' as int
    else if c <= 'F' then c as int - 'A' as int + 10
    else c as int - 'a' as int + 10
  }

  /** A percent sign with two hexadecimal digits behind it. */
  predicate HexAt(s: string, i: nat) {
    i + 2 < |s| && s[i] == '%' && IsHex(s[i + 1]) && IsHex(s[i + 2])
  }

  function HexByte(s: string, i: nat): (c: char)
    requires HexAt(s, i)
    ensures c as int < 256
  {
    (16 * HexValue(s[i + 1]) + HexValue(s[i + 2])) as char
  }

  function UrlDecoded(s: string): string {
    if s == "" then ""
    else if s[0] == '+' then " " + UrlDecoded(s[1..])
    else if HexAt(s, 0) then [HexByte(s, 0)] + UrlDecoded(s[3..])
    else [s[0]] + UrlDecoded(s[1..])
  }

  method UrlDecode(s: string) returns (out: string)
    ensures out == UrlDecoded(s)
  {
    out := "";
    var i := 0;
    assert s[0..] == s && out + UrlDecoded(s) == UrlDecoded(s);
    while i < |s|
      invariant i <= |s| && out + UrlDecoded(s[i..]) == UrlDecoded(s)
    {
      UrlRound(s, i, out);
      if s[i] == '+' {
        out := out + " ";
      } else if s[i] == '%' && i + 2 < |s| && IsHex(s[i + 1]) && IsHex(s[i + 2]) {
        out := out + [HexByte(s, i)];
        i := i + 2;
      } else {
        out := out + [s[i]];
      }
      i := i + 1;
    }
  }

  lemma UrlRound(s: string, i: nat, out: string)
    requires i < |s|
    ensures out + UrlDecoded(s[i..]) ==
            if s[i] == '+' then (out + " ") + UrlDecoded(s[i + 1..])
            else if HexAt(s, i) then (out + [HexByte(s, i)]) + UrlDecoded(s[i + 3..])
            else (out + [s[i]]) + UrlDecoded(s[i + 1..])
  {
    var t := s[i..];
    assert t[0] == s[i] && t[1..] == s[i + 1..];
    if HexAt(s, i) {
      assert t[1] == s[i + 1] && t[2] == s[i + 2] && t[3..] == s[i + 3..];
    } else if i + 2 < |s| {
      assert t[1] == s[i + 1] && t[2] == s[i + 2];
    }
  }

  /** Every way a form may write one byte: as itself, as "+" for a space, or by two hexadecimal digits. */
  predicate Writes(w: string, c: char) {
    || (w == [c] && c != '+' && c != '%')
    || (w == "+" && c == ' ')
    || (|w| == 3 && HexAt(w, 0) && HexByte(w, 0) == c)
  }

  predicate AllWrite(ws: seq<string>, s: string) {
    |ws| == |s| && forall i :: 0 <= i < |s| ==> Writes(ws[i], s[i])
  }

  /** However the bytes of a text were written, and whatever follows, decoding recovers them. */
  lemma {:induction false} DecodeWritten(ws: seq<string>, s: string, rest: string)
    requires AllWrite(ws, s)
    ensures UrlDecoded(Join(ws, "") + rest) == s + UrlDecoded(rest)
  {
    hide Writes, UrlDecoded, Join;
    if s == "" {
      JoinFirst(ws);
      assert "" + rest == rest && s + UrlDecoded(rest) == UrlDecoded(rest);
    } else {
      DecodeWritten(ws[1..], s[1..], rest);
      JoinFirst(ws);
      var w, more := ws[0], Join(ws[1..], "");
      assert (w + more) + rest == w + (more + rest);
      DecodeOne(w, s[0], more + rest);
      assert s + UrlDecoded(rest) == [s[0]] + (s[1..] + UrlDecoded(rest));
    }
  }

  lemma JoinFirst(ws: seq<string>)
    ensures Join(ws, "") == if ws == [] then "" else ws[0] + Join(ws[1..], "")
  {
    if |ws| == 1 {
      assert ws[0] + "" == ws[0];
    }
  }

  lemma DecodeOne(w: string, c: char, more: string)
    requires Writes(w, c)
    ensures UrlDecoded(w + more) == [c] + UrlDecoded(more)
  {
    var t := w + more;
    assert t[0] == w[0] && t[|w|..] == more;
    if |w| == 3 {
      assert t[1] == w[1] && t[2] == w[2];
    }
  }

  /** The sixteen digits, six of them in two cases. */
  predicate Digit(c: char, n: nat) {
    || (n == 0 && (c == '0')) || (n == 1 && (c == '1')) || (n == 2 && (c == '2'))
    || (n == 3 && (c == '3')) || (n == 4 && (c == '4')) || (n == 5 && (c == '5'))
    || (n == 6 && (c == '6')) || (n == 7 && (c == '7')) || (n == 8 && (c == '8'))
    || (n == 9 && (c == '9')) || (n == 10 && (c == 'a' || c == 'A')) || (n == 11 && (c == 'b' || c == 'B'))
    || (n == 12 && (c == 'c' || c == 'C')) || (n == 13 && (c == 'd' || c == 'D')) || (n == 14 && (c == 'e' || c == 'E'))
    || (n == 15 && (c == 'f' || c == 'F'))
  }

  predicate IsDigitOfSixteen(c: char) { exists n :: 0 <= n < 16 && Digit(c, n) }

  lemma HexIsDigit(c: char)
    ensures IsHex(c) <==> IsDigitOfSixteen(c)
    ensures forall n :: Digit(c, n) ==> IsHex(c) && HexValue(c) == n
  {
    if IsHex(c) {
      assert Digit(c, HexValue(c));
    }
  }

  /** A percent sign and two digits, in either case, stand for one byte. */
  lemma PercentCode(a: char, b: char, i: nat, j: nat, rest: string)
    requires Digit(a, i) && Digit(b, j)
    ensures 16 * i + j < 256 && UrlDecoded(['%', a, b] + rest) == [(16 * i + j) as char] + UrlDecoded(rest)
  {
    hide Digit, HexValue, IsHex;
    HexIsDigit(a);
    HexIsDigit(b);
    var t := ['%', a, b] + rest;
    assert t[0] == '%' && t[1] == a && t[2] == b && t[3..] == rest;
  }

  /** Without two digits behind it a percent sign stands for itself, and what follows is read on its own. */
  lemma BrokenPercent(rest: string)
    requires |rest| < 2 || !IsDigitOfSixteen(rest[0]) || !IsDigitOfSixteen(rest[1])
    ensures UrlDecoded("%" + rest) == "%" + UrlDecoded(rest)
  {
    hide Digit, HexValue, IsHex, IsDigitOfSixteen;
    var t := "%" + rest;
    assert t[1..] == rest && (|rest| > 0 ==> t[1] == rest[0]) && (|rest| > 1 ==> t[2] == rest[1]);
    if |rest| >= 2 {
      HexIsDigit(rest[0]);
      HexIsDigit(rest[1]);
    }
  }

  /** A plus sign is a space, and any other byte is itself. */
  lemma OtherByte(c: char, rest: string)
    requires c != '%'
    ensures UrlDecoded([c] + rest) == (if c == '+' then " " else [c]) + UrlDecoded(rest)
  {
    assert ([c] + rest)[1..] == rest;
  }

  function HexDigit(d: nat): (c: char)
    requires d < 16
    ensures IsHex(c) && HexValue(c) == d
  {
    if d < 10 then (d + '0' as int) as char else (d - 10 + 'A' as int) as char
  }

  /** The unreserved characters of RFC 3986 section 2.3. */
  predicate Unreserved(c: char) {
    'a' <= c <= 'z' || 'A' <= c <= 'Z' || '0' <= c <= '9' || c == '-' || c == '.' || c == '_' || c == '~'
  }

  /** How a browser writes one byte of a form value. */
  function UrlCode(c: char): (w: string)
    ensures forall d :: d in w ==> Unreserved(d) || d == '+' || d == '%'
  {
    if Unreserved(c) then [c]
    else if c == ' ' then "+"
    else
      HexDigitIsUnreserved((c as int / 16) % 16);
      HexDigitIsUnreserved(c as int % 16);
      ['%', HexDigit((c as int / 16) % 16), HexDigit(c as int % 16)]
  }

  lemma HexDigitIsUnreserved(d: nat)
    requires d < 16
    ensures Unreserved(HexDigit(d))
  {
  }

  lemma UrlCodeWrites(c: char)
    requires c as int < 256
    ensures Writes(UrlCode(c), c)
  {
    hide HexValue, HexDigit, IsHex;
    if !Unreserved(c) && c != ' ' {
      var n := c as int;
      assert n / 16 < 16 && n == 16 * (n / 16) + n % 16;
      assert HexAt(UrlCode(c), 0);
    }
  }

  function UrlEncode(s: string): string { Expand(s, UrlCode) }

  /** Decoding undoes encoding for every string of bytes. */
  lemma {:induction false} UrlRoundTrip(s: string)
    requires forall c :: c in s ==> c as int < 256
    ensures UrlDecoded(UrlEncode(s)) == s
  {
    if s != "" {
      assert s[0] in s && forall c :: c in s[1..] ==> c in s;
      UrlRoundTrip(s[1..]);
      UrlCodeWrites(s[0]);
      DecodeOne(UrlCode(s[0]), s[0], UrlEncode(s[1..]));
      assert s == [s[0]] + s[1..];
    }
  }

  lemma {:induction false} EncodedCharacters(s: string)
    ensures forall d :: d in UrlEncode(s) ==> Unreserved(d) || d == '+' || d == '%'
  {
    if s != "" {
      EncodedCharacters(s[1..]);
    }
  }
}
