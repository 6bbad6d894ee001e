/** What lower-casing does, told by the 26 pairs of letters, and comparing without regard to case. */
module Letters {
  import opened Text

  /** A capital and its small letter. */
  predicate Pair(u: char, l: char) {
    || (u == 'A' && l == 'a') || (u == 'B' && l == 'b') || (u == 'C' && l == 'c') || (u == 'D' && l == 'd')
    || (u == 'E' && l == 'e') || (u == 'F' && l == 'f') || (u == 'G' && l == 'g') || (u == 'H' && l == 'h')
    || (u == 'I' && l == 'i') || (u == 'J' && l == 'j') || (u == 'K' && l == 'k') || (u == 'L' && l == 'l')
    || (u == 'M' && l == 'm') || (u == 'N' && l == 'n') || (u == 'O' && l == 'o') || (u == 'P' && l == 'p')
    || (u == 'Q' && l == 'q') || (u == 'R' && l == 'r') || (u == 'S' && l == 's') || (u == 'T' && l == 't')
    || (u == 'U' && l == 'u') || (u == 'V' && l == 'v') || (u == 'W' && l == 'w') || (u == 'X' && l == 'x')
    || (u == 'Y' && l == 'y') || (u == 'Z' && l == 'z')
  }

  predicate Capital(c: char) { exists l :: Pair(c, l) }

  /** Equal, or the two cases of one letter. */
  predicate SameLetter(a: char, b: char) { a == b || Pair(a, b) || Pair(b, a) }

  predicate SameButCase(a: string, b: string) {
    |a| == |b| && forall i :: 0 <= i < |a| ==> SameLetter(a[i], b[i])
  }

  lemma PairIs(u: char, l: char)
    ensures Pair(u, l) <==> 'A' <= u <= 'Z' && l as int == u as int + 32
  {
  }

  /** A capital becomes its small letter, and every other byte stays. */
  lemma LowerCharIs(c: char)
    ensures forall l :: Pair(c, l) ==> LowerChar(c) == l
    ensures LowerChar(c) == c <==> !Capital(c)
  {
    hide Pair;
    forall l: char ensures Pair(c, l) <==> 'A' <= c <= 'Z' && l as int == c as int + 32 {
      PairIs(c, l);
    }
    if 'A' <= c <= 'Z' {
      assert Pair(c, (c as int + 32) as char);
    }
  }

  lemma SameLetterIs(a: char, b: char)
    ensures LowerChar(a) == LowerChar(b) <==> SameLetter(a, b)
  {
    hide Pair;
    PairIs(a, b);
    PairIs(b, a);
  }

  /** Two texts are the same in lower case exactly if they differ in nothing but case. */
  lemma ToLowerIff(a: string, b: string)
    ensures ToLower(a) == ToLower(b) <==> SameButCase(a, b)
  {
    hide LowerChar, SameLetter;
    forall i | 0 <= i < |a| && i < |b| ensures LowerChar(a[i]) == LowerChar(b[i]) <==> SameLetter(a[i], b[i]) {
      SameLetterIs(a[i], b[i]);
    }
    if ToLower(a) == ToLower(b) {
      assert |a| == |b|;
      assert forall i :: 0 <= i < |a| ==> ToLower(a)[i] == ToLower(b)[i];
    }
  }

  predicate NoCapitals(s: string) { forall i :: 0 <= i < |s| ==> !Capital(s[i]) }

  /** Text without capitals is left as it is, and only that. */
  lemma LowerIsKept(s: string)
    ensures ToLower(s) == s <==> NoCapitals(s)
  {
    hide LowerChar, Capital;
    forall i | 0 <= i < |s| ensures LowerChar(s[i]) == s[i] <==> !Capital(s[i]) {
      LowerCharIs(s[i]);
    }
    assert forall i :: 0 <= i < |s| ==> ToLower(s)[i] == LowerChar(s[i]);
  }

  /** A name written in small letters is met by every spelling of it, and by nothing else. */
  lemma NamedIff(name: string, small: string)
    requires NoCapitals(small)
    ensures ToLower(name) == small <==> SameButCase(name, small)
  {
    hide ToLower, SameButCase, NoCapitals;
    LowerIsKept(small);
    ToLowerIff(name, small);
  }

  lemma SmallText(s: string)
    requires forall i :: 0 <= i < |s| ==> s[i] == '-' || 'a' <= s[i] <= 'z'
    ensures NoCapitals(s)
  {
    hide Pair;
    forall i, l | 0 <= i < |s| ensures !Pair(s[i], l) {
      PairIs(s[i], l);
    }
  }

  lemma FieldNamesAreSmall()
    ensures NoCapitals("content-length") && NoCapitals("host") && NoCapitals("connection")
    ensures NoCapitals("close") && NoCapitals("keep-alive")
  {
    hide NoCapitals;
    SmallText("content-length");
    SmallText("host");
    SmallText("connection");
    SmallText("close");
    SmallText("keep-alive");
  }
}
