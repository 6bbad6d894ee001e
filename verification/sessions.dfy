/**
 The session token of a request: `get_session_user_id` up to its database query. It searches the raw
 buffer, without the parser; shown equal here to a reading line by line of the header section.
 */
module Sessions {
  import opened Wrappers
  import opened Text
  import opened Framing
  import opened Messages
  import opened Splitting

  const COOKIE := "Cookie: "
  const TOKEN_KEY := "session_token="

  /** The token in the text of a cookie line, up to the next semicolon. */
  function TokenIn(text: string): Option<string> {
    match Find(text, TOKEN_KEY, 0)
    case None => None
    case Some(k) =>
      var rest := text[k + |TOKEN_KEY|..];
      var token := match FindChar(rest, ';') { case None => rest case Some(e) => rest[..e] };
      if token == "" then None else Some(token)
  }

  /** The first line with "Cookie: " anywhere in it decides, whatever stands before that text. */
  function LinesToken(ls: seq<string>): Option<string> {
    if ls == [] then None
    else match Find(ls[0], COOKIE, 0)
      case None => LinesToken(ls[1..])
      case Some(p) => TokenIn(ls[0][p + |COOKIE|..])
  }

  function TokenOf(buf: string): Option<string> {
    match HeaderEnd(buf)
    case None => None
    case Some(h) => LinesToken(HeadLines(buf, h))
  }

  /** The exit for a cookie line without an end in the header section is dead. */
  method SessionToken(buf: string) returns (r: Option<string>)
    ensures r == TokenOf(buf)
  {
    hide Find, FindCrlf;
    var headerEnd := HeaderEnd(buf);
    if headerEnd.None? {
      return None;
    }
    var h := headerEnd.value;
    CookieSearch(buf, h, 0);
    assert buf[0..h + 2] == buf[..h + 2];
    var cookie := Find(buf, COOKIE, 0);
    if cookie.None? || cookie.value >= h {
      return None;
    }
    var start := cookie.value + |COOKIE|;
    var end := FindCrlf(buf, start);
    if end.None? || end.value > h {
      assert false;
      return None;
    }
    var line := buf[start..end.value];
    var key := Find(line, TOKEN_KEY, 0);
    if key.None? {
      return None;
    }
    var rest := line[key.value + |TOKEN_KEY|..];
    var semicolon := FindChar(rest, ';');
    var token := if semicolon.None? then rest else rest[..semicolon.value];
    if token == "" {
      return None;
    }
    return Some(token);
  }

  lemma FindSkips(s: string, p: string, a: nat, b: nat)
    requires a <= b && forall i: nat :: a <= i < b ==> !MatchAt(s, p, i)
    ensures Find(s, p, a) == Find(s, p, b)
  {
    hide Find, MatchAt;
  }

  lemma CookieHasNoCr()
    ensures |COOKIE| == 8 && COOKIE[0] == 'C' && forall i :: 0 <= i < 8 ==> COOKIE[i] != '\r'
  {
  }

  /** A match cannot reach over the end of a line. */
  lemma MatchStaysInLine(buf: string, cur: nat, next: nat, i: nat)
    requires cur <= i < next + 2 && CrlfAt(buf, next) && MatchAt(buf, COOKIE, i)
    ensures i + |COOKIE| <= next && MatchAt(buf[cur..next], COOKIE, i - cur)
  {
    CookieHasNoCr();
    assert buf[i..i + 8] == COOKIE;
    assert forall j :: i <= j < i + 8 ==> buf[j] == COOKIE[j - i];
    assert buf[i] == 'C';
    SliceOfSlice(buf, cur, next, i - cur);
    SliceOfSlice(buf, i, next, 8);
    assert buf[cur..next][i - cur..][..8] == buf[cur..next][i - cur..i - cur + 8];
  }

  lemma MatchInLine(buf: string, cur: nat, next: nat, p: nat)
    requires cur <= next <= |buf| && MatchAt(buf[cur..next], COOKIE, p)
    ensures MatchAt(buf, COOKIE, cur + p) && cur + p + |COOKIE| <= next
  {
    var l := buf[cur..next];
    SliceOfSlice(buf, cur, next, p);
    SliceOfSlice(buf, cur + p, next, |COOKIE|);
    assert l[p..][..|COOKIE|] == l[p..p + |COOKIE|];
  }

  ghost function LinesFrom(buf: string, h: nat, cur: nat): Option<string>
    requires cur <= h + 2 <= |buf|
  {
    LinesToken(Lines(buf[cur..h + 2]))
  }

  /** What the raw search from `cur` on finds is what the lines from `cur` on say. */
  ghost predicate SearchAgrees(buf: string, h: nat, cur: nat)
    requires cur <= h + 2 <= |buf|
  {
    var q, t := Find(buf, COOKIE, cur), LinesFrom(buf, h, cur);
    if q.None? || q.value >= h then t == None
    else
      && q.value + |COOKIE| <= h
      && var e := FindCrlf(buf, q.value + |COOKIE|);
         e.Some? && e.value <= h && t == TokenIn(buf[q.value + |COOKIE|..e.value])
  }

  lemma {:induction false} CookieSearch(buf: string, h: nat, cur: nat)
    requires HeaderEnd(buf) == Some(h) && (cur == h + 2 || cur <= h)
    requires cur == 0 || (cur >= 2 && CrlfAt(buf, cur - 2))
    ensures h + 2 <= |buf| && SearchAgrees(buf, h, cur)
    decreases h + 2 - cur
  {
    hide Find, FindCrlf, MatchAt, TokenIn, SearchAgrees, LinesFrom;
    if cur == h + 2 {
      SearchEnds(buf, h);
    } else {
      var next := NextLine(buf, h, cur);
      var l := buf[cur..next];
      LinesFromStep(buf, h, cur, next);
      if Find(l, COOKIE, 0).Some? {
        CookieInLine(buf, h, cur, next);
        SearchHits(buf, h, cur, next);
      } else {
        forall i: nat | cur <= i < next + 2 ensures !MatchAt(buf, COOKIE, i) {
          if MatchAt(buf, COOKIE, i) {
            MatchStaysInLine(buf, cur, next, i);
          }
        }
        FindSkips(buf, COOKIE, cur, next + 2);
        CookieSearch(buf, h, next + 2);
        SearchMoves(buf, h, cur, next + 2);
      }
    }
  }

  lemma SearchEnds(buf: string, h: nat)
    requires h + 2 <= |buf|
    ensures SearchAgrees(buf, h, h + 2)
  {
    hide Find, FindCrlf, MatchAt, TokenIn;
    assert buf[h + 2..h + 2] == "";
    NoLines();
  }

  lemma LinesFromStep(buf: string, h: nat, cur: nat, next: nat)
    requires cur <= next <= h && h + 2 <= |buf|
    requires Lines(buf[cur..h + 2]) == [buf[cur..next]] + Lines(buf[next + 2..h + 2])
    ensures LinesFrom(buf, h, cur) ==
            match Find(buf[cur..next], COOKIE, 0) {
              case None => LinesFrom(buf, h, next + 2)
              case Some(p) => TokenIn(buf[cur..next][p + |COOKIE|..])
            }
  {
    hide Find, Lines, MatchAt, TokenIn;
    var l, ls := buf[cur..next], Lines(buf[next + 2..h + 2]);
    assert ([l] + ls)[0] == l && ([l] + ls)[1..] == ls;
  }

  lemma SearchHits(buf: string, h: nat, cur: nat, next: nat)
    requires cur <= next <= h && h + 2 <= |buf| && Find(buf[cur..next], COOKIE, 0).Some?
    requires var p := Find(buf[cur..next], COOKIE, 0).value;
             && cur + p + |COOKIE| <= next && Find(buf, COOKIE, cur) == Some(cur + p)
             && FindCrlf(buf, cur + p + |COOKIE|) == Some(next)
             && buf[cur..next][p + |COOKIE|..] == buf[cur + p + |COOKIE|..next]
             && LinesFrom(buf, h, cur) == TokenIn(buf[cur..next][p + |COOKIE|..])
    ensures SearchAgrees(buf, h, cur)
  {
    hide Find, FindCrlf, MatchAt, TokenIn, LinesFrom;
  }

  lemma SearchMoves(buf: string, h: nat, cur: nat, later: nat)
    requires cur <= h + 2 <= |buf| && later <= h + 2 && SearchAgrees(buf, h, later)
    requires Find(buf, COOKIE, cur) == Find(buf, COOKIE, later)
    requires LinesFrom(buf, h, cur) == LinesFrom(buf, h, later)
    ensures SearchAgrees(buf, h, cur)
  {
    hide Find, FindCrlf, MatchAt, TokenIn, LinesFrom;
  }

  lemma NoLines()
    ensures Lines("") == []
  {
  }

  lemma CookieInLine(buf: string, h: nat, cur: nat, next: nat)
    requires FindCrlf(buf, cur) == Some(next) && next <= h
    requires Find(buf[cur..next], COOKIE, 0).Some?
    ensures var p := Find(buf[cur..next], COOKIE, 0).value;
            && Find(buf, COOKIE, cur) == Some(cur + p) && cur + p + |COOKIE| <= next
            && FindCrlf(buf, cur + p + |COOKIE|) == Some(next)
            && buf[cur..next][p + |COOKIE|..] == buf[cur + p + |COOKIE|..next]
  {
    hide Find, FindCrlf, MatchAt;
    var p := Find(buf[cur..next], COOKIE, 0).value;
    MatchInLine(buf, cur, next, p);
    forall i: nat | cur <= i < cur + p ensures !MatchAt(buf, COOKIE, i) {
      if MatchAt(buf, COOKIE, i) {
        MatchStaysInLine(buf, cur, next, i);
      }
    }
    FindSkips(buf, COOKIE, cur, cur + p);
    SliceOfSlice(buf, cur, next, p + |COOKIE|);
  }

  /** Bytes that arrive later, pipelined requests included, never change whose session it is. */
  lemma TokenStable(a: string, b: string)
    requires a <= b && HeaderEnd(a).Some?
    ensures TokenOf(b) == TokenOf(a)
  {
    hide LinesToken, HeadLines;
    HeadStable(a, b);
  }

  /** The first line that says "Cookie: " decides, even if it holds no token and a later one does. */
  lemma {:induction false} FirstCookieDecides(ls: seq<string>, i: nat)
    requires i <= |ls| && forall j :: 0 <= j < i ==> Find(ls[j], COOKIE, 0).None?
    requires i < |ls| ==> Find(ls[i], COOKIE, 0).Some?
    ensures LinesToken(ls) ==
            if i == |ls| then None else TokenIn(ls[i][Find(ls[i], COOKIE, 0).value + |COOKIE|..])
  {
    hide Find, TokenIn;
    if i > 0 {
      FirstCookieDecides(ls[1..], i - 1);
    }
  }

  // ---------- Cookies a client sends ----------

  function MessageToken(m: Message): Option<string> {
    LinesToken([StartLine(m)] + FieldLines(m.fields))
  }

  /** The token of a printed request is that of its own lines. */
  lemma PrintedToken(m: Message, rest: string)
    requires WellFormed(m)
    ensures TokenOf(Print(m) + rest) == MessageToken(m)
  {
    hide LinesToken, Layout, HeadLines, FieldLines;
    StartLineOk(m);
    var h := LayoutHead(StartLine(m), m.fields, m.body, rest);
  }

  /** No line says "Cookie: " but possibly the i-th field. */
  predicate OnlyField(m: Message, i: nat) {
    && i < |m.fields|
    && Find(StartLine(m), COOKIE, 0).None?
    && forall j :: 0 <= j < |m.fields| && j != i ==> Find(FieldLine(m.fields[j]), COOKIE, 0).None?
  }

  lemma {:induction false} TokenOfFields(fs: seq<Field>, i: nat)
    requires i < |fs|
    requires forall j :: 0 <= j < |fs| && j != i ==> Find(FieldLine(fs[j]), COOKIE, 0).None?
    ensures LinesToken(FieldLines(fs)) ==
            match Find(FieldLine(fs[i]), COOKIE, 0) {
              case None => None
              case Some(p) => TokenIn(FieldLine(fs[i])[p + |COOKIE|..])
            }
  {
    hide Find, TokenIn, FieldLine;
    assert FieldLines(fs)[1..] == FieldLines(fs[1..]);
    if i > 0 {
      TokenOfFields(fs[1..], i - 1);
    } else if Find(FieldLine(fs[0]), COOKIE, 0).None? {
      NoCookie(fs[1..]);
    }
  }

  lemma {:induction false} NoCookie(fs: seq<Field>)
    requires forall j :: 0 <= j < |fs| ==> Find(FieldLine(fs[j]), COOKIE, 0).None?
    ensures LinesToken(FieldLines(fs)) == None
  {
    hide Find, FieldLine;
    if fs != [] {
      assert FieldLines(fs)[1..] == FieldLines(fs[1..]);
      NoCookie(fs[1..]);
    }
  }

  predicate EndsInCookie(name: string) {
    |name| >= 6 && name[|name| - 6..] == "Cookie"
  }

  /** Where "Cookie: " can stand in a field line: at the end of the name, or inside the value. */
  lemma CookieInField(f: Field, p: nat)
    requires FieldOk(f) && MatchAt(FieldLine(f), COOKIE, p)
    ensures (EndsInCookie(f.name) && p + 6 == |f.name|) ||
            (p >= |f.name| + 2 && MatchAt(f.value, COOKIE, p - |f.name| - 2))
  {
    var l, n := FieldLine(f), |f.name|;
    CookieLetters();
    assert l[p..p + 8] == COOKIE;
    assert forall j :: p <= j < p + 8 ==> l[j] == COOKIE[j - p];
    assert forall j :: 0 <= j < n ==> l[j] == f.name[j] && l[j] in f.name;
    assert l[p] == 'C' && l[p + 6] == ':' && l[n] == ':' && l[n + 1] == ' ';
    assert p + 6 == n || p >= n + 2;
    if p + 6 == n {
      assert f.name[p..] == l[p..p + 6] == l[p..p + 8][..6] == COOKIE[..6];
    } else {
      MatchShift(f.name + ": ", f.value, COOKIE, p - n - 2);
    }
  }

  lemma CookieLetters()
    ensures |COOKIE| == 8 && COOKIE[0] == 'C' && COOKIE[6] == ':' && COOKIE[..6] == "Cookie"
    ensures COOKIE == "Cookie" + ": "
    ensures forall i :: 0 <= i < 8 && COOKIE[i] == ':' ==> i == 6
  {
  }

  lemma NamedCookie(f: Field)
    requires EndsInCookie(f.name) && FieldOk(f)
    ensures MatchAt(FieldLine(f), COOKIE, |f.name| - 6)
    ensures Find(FieldLine(f), COOKIE, 0) == Some(|f.name| - 6)
    ensures FieldLine(f)[|f.name| + 2..] == f.value
  {
    hide Find;
    var l, n := FieldLine(f), |f.name|;
    CookieLetters();
    assert l == f.name + ": " + f.value;
    assert l[n - 6..n + 2] == f.name[n - 6..] + ": " == COOKIE;
    assert MatchAt(l, COOKIE, n - 6);
    var q := Find(l, COOKIE, 0);
    CookieInField(f, q.value);
  }

  /**
   A request whose only cookie text is one field: its token is found if and only if the name of the
   field ends in "Cookie", letter case and all, although names are to be compared without regard to
   case (RFC 9110 section 5.1).
   */
  lemma TokenIsFoundIff(m: Message, i: nat, rest: string)
    requires WellFormed(m) && OnlyField(m, i)
    requires Find(m.fields[i].value, COOKIE, 0).None? && TokenIn(m.fields[i].value).Some?
    ensures TokenOf(Print(m) + rest) ==
            if EndsInCookie(m.fields[i].name) then TokenIn(m.fields[i].value) else None
  {
    hide Find, TokenIn, FieldLine, Print, FieldOk;
    var f := m.fields[i];
    assert f in m.fields;
    PrintedToken(m, rest);
    LinesFirst(StartLine(m), FieldLines(m.fields));
    TokenOfFields(m.fields, i);
    if EndsInCookie(f.name) {
      NamedCookie(f);
    } else if Find(FieldLine(f), COOKIE, 0).Some? {
      CookieInField(f, Find(FieldLine(f), COOKIE, 0).value);
    }
  }

  lemma LinesFirst(l: string, ls: seq<string>)
    requires Find(l, COOKIE, 0).None?
    ensures LinesToken([l] + ls) == LinesToken(ls)
  {
    hide Find;
    assert ([l] + ls)[1..] == ls;
  }

  /**
   What a login sets as the cookie is read back, with other cookies before and behind it (RFC 6265
   section 4.2.1), unless one before it has the same text in it; then that one is read. An empty token
   is none.
   */
  lemma TokenReadBack(before: string, token: string, after: string)
    requires before == "" || (|before| >= 2 && before[|before| - 2..] == "; ")
    requires ';' !in token && (after == "" || after[0] == ';')
    ensures TokenIn(before + (TOKEN_KEY + (token + after))) ==
            if Find(before, TOKEN_KEY, 0).Some? then TokenIn(before) else if token == "" then None else Some(token)
  {
    hide Find, MatchAt, TokenIn;
    NothingHasNoKey();
    if Find(before, TOKEN_KEY, 0).None? {
      OwnToken(before, token, after);
    } else {
      EarlierToken(before, token + after);
    }
  }

  /** Text without the key holds no token. */
  lemma NoKeyNoToken(text: string)
    requires forall i: nat :: !MatchAt(text, TOKEN_KEY, i)
    ensures TokenIn(text) == None
  {
    hide Find, MatchAt;
  }

  lemma NothingHasNoKey()
    ensures Find("", TOKEN_KEY, 0).None?
  {
  }

  lemma OwnToken(before: string, token: string, after: string)
    requires Find(before, TOKEN_KEY, 0).None?
    requires ';' !in token && (after == "" || after[0] == ';')
    ensures TokenIn(before + (TOKEN_KEY + (token + after))) == if token == "" then None else Some(token)
  {
    hide Find, MatchAt, FindChar;
    var t := before + (TOKEN_KEY + (token + after));
    FirstKey(before, token + after);
    assert t[|before| + |TOKEN_KEY|..] == token + after;
    ValueEnds(token, after);
    assert after == "" ==> token + after == token;
  }

  lemma EarlierToken(before: string, rest: string)
    requires Find(before, TOKEN_KEY, 0).Some? && |before| >= 2 && before[|before| - 2..] == "; "
    ensures TokenIn(before + (TOKEN_KEY + rest)) == TokenIn(before)
  {
    hide Find, MatchAt, FindChar, TOKEN_KEY;
    var t, k := before + (TOKEN_KEY + rest), Find(before, TOKEN_KEY, 0).value;
    FirstKey(before, rest);
    KeyEnds(before, k);
    var mine := before[k + |TOKEN_KEY|..];
    assert t[k + |TOKEN_KEY|..] == mine + (TOKEN_KEY + rest);
    SemicolonInside(mine, TOKEN_KEY + rest);
  }

  lemma KeyLetters()
    ensures |TOKEN_KEY| == 14 && TOKEN_KEY[13] == '='
    ensures forall i :: 0 <= i < 13 ==> TOKEN_KEY[i] != '='
    ensures ';' !in TOKEN_KEY && ' ' !in TOKEN_KEY
  {
  }

  lemma KeyBefore(before: string, rest: string, i: nat)
    requires i < |before|
    ensures MatchAt(before + (TOKEN_KEY + rest), TOKEN_KEY, i) <==> MatchAt(before, TOKEN_KEY, i)
  {
    KeyLetters();
    var t, n := before + (TOKEN_KEY + rest), |before|;
    if i + 14 <= n {
      assert t[i..i + 14] == before[i..i + 14];
    } else {
      assert t[i + 13] == TOKEN_KEY[i + 13 - n];
      assert t[i..i + 14][13] == t[i + 13];
    }
  }

  /** The key is first found in what stands before it, or in its own place: it cannot overlap itself. */
  lemma FirstKey(before: string, rest: string)
    ensures Find(before + (TOKEN_KEY + rest), TOKEN_KEY, 0) ==
            if Find(before, TOKEN_KEY, 0).None? then Some(|before|) else Find(before, TOKEN_KEY, 0)
  {
    hide Find, MatchAt, TOKEN_KEY;
    var t, n := before + (TOKEN_KEY + rest), |before|;
    forall i: nat | i < n ensures MatchAt(t, TOKEN_KEY, i) <==> MatchAt(before, TOKEN_KEY, i) {
      KeyBefore(before, rest, i);
    }
    KeyThere(before, rest);
    var q := Find(before, TOKEN_KEY, 0);
    if q.Some? {
      MatchFits(before, TOKEN_KEY, q.value);
      KeyLetters();
    }
  }

  lemma KeyThere(before: string, rest: string)
    ensures MatchAt(before + (TOKEN_KEY + rest), TOKEN_KEY, |before|)
  {
    var t := before + (TOKEN_KEY + rest);
    assert t[|before|..|before| + |TOKEN_KEY|] == TOKEN_KEY;
  }

  lemma ValueEnds(token: string, after: string)
    requires ';' !in token && (after == "" || after[0] == ';')
    ensures FindChar(token + after, ';') == if after == "" then None else Some(|token|)
    ensures (token + after)[..|token|] == token
  {
    hide FindChar;
    if after == "" {
      assert token + after == token;
    } else {
      assert token + after == token + [';'] + after[1..];
      FirstCharAfter(token, ';', after[1..]);
    }
  }

  /** The key itself holds no semicolon, so the "; " at the end of the text comes behind it. */
  lemma KeyEnds(before: string, k: nat)
    requires |before| >= 2 && before[|before| - 2..] == "; " && MatchAt(before, TOKEN_KEY, k)
    ensures k + |TOKEN_KEY| + 2 <= |before| && ';' in before[k + |TOKEN_KEY|..]
  {
    KeyLetters();
    var n := |before|;
    assert before[n - 2] == before[n - 2..][0] && before[n - 1] == before[n - 2..][1];
    assert forall j :: k <= j < k + 14 ==> before[j] == before[k..k + 14][j - k] && before[j] in TOKEN_KEY;
    assert before[k + 14..][n - 2 - (k + 14)] == ';';
  }

  lemma SemicolonInside(a: string, b: string)
    requires ';' in a
    ensures FindChar(a + b, ';') == FindChar(a, ';') && FindChar(a, ';').Some?
    ensures (a + b)[..FindChar(a, ';').value] == a[..FindChar(a, ';').value]
  {
    hide FindChar;
    var e := FindChar(a, ';').value;
    assert a == a[..e] + [';'] + a[e + 1..];
    assert a + b == a[..e] + [';'] + (a[e + 1..] + b);
    FirstCharAfter(a[..e], ';', a[e + 1..] + b);
  }
}
