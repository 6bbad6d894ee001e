/** Cutting a text at the leftmost non-overlapping occurrences of a separator, and joining again. */
module Splitting {
  import opened Wrappers
  import opened Text

  function SplitOn(s: string, sep: string): (ps: seq<string>)
    requires sep != ""
    ensures ps != []
    decreases |s|
  {
    match Find(s, sep, 0)
    case None => [s]
    case Some(i) => [s[..i]] + SplitOn(s[i + |sep|..], sep)
  }

  function Join(ps: seq<string>, glue: string): string {
    if ps == [] then ""
    else if |ps| == 1 then ps[0]
    else ps[0] + glue + Join(ps[1..], glue)
  }

  /** The text with every occurrence of `marker` replaced. */
  function Substituted(s: string, marker: string, value: string): string
    requires marker != ""
  {
    Join(SplitOn(s, marker), value)
  }

  lemma MatchShift(p: string, t: string, sep: string, i: nat)
    ensures MatchAt(p + t, sep, |p| + i) <==> MatchAt(t, sep, i)
  {
    if i + |sep| <= |t| {
      assert (p + t)[|p| + i..|p| + i + |sep|] == t[i..i + |sep|];
    }
  }

  lemma FindAtEnd(p: string, t: string, sep: string)
    ensures Find(p + t, sep, |p|) ==
            match Find(t, sep, 0) { case None => None case Some(i) => Some(|p| + i) }
  {
    hide Find, MatchAt;
    var s, r, q := p + t, Find(p + t, sep, |p|), Find(t, sep, 0);
    if r.Some? {
      MatchShift(p, t, sep, r.value - |p|);
    }
    if q.Some? {
      MatchShift(p, t, sep, q.value);
    }
  }

  lemma FindLater(s: string, sep: string, from: nat)
    requires forall i: nat :: i < from ==> !MatchAt(s, sep, i)
    ensures Find(s, sep, 0) == Find(s, sep, from)
  {
    hide MatchAt;
  }

  /** One round: up to the first occurrence, then the value, then the rest. */
  lemma SubstitutedStep(s: string, marker: string, value: string)
    requires marker != ""
    ensures Substituted(s, marker, value) ==
            match Find(s, marker, 0) {
              case None => s
              case Some(i) => s[..i] + value + Substituted(s[i + |marker|..], marker, value)
            }
  {
    var q := Find(s, marker, 0);
    if q.Some? {
      JoinCons(s[..q.value], SplitOn(s[q.value + |marker|..], marker), value);
    }
  }

  /** Text in which no occurrence begins is left as it is. */
  lemma SubstitutedSkips(a: string, t: string, marker: string, value: string)
    requires marker != "" && forall i: nat :: i < |a| ==> !MatchAt(a + t, marker, i)
    ensures Substituted(a + t, marker, value) == a + Substituted(t, marker, value)
  {
    hide Find, Substituted, MatchAt;
    FindAtEnd(a, t, marker);
    FindLater(a + t, marker, |a|);
    SubstitutedStep(a + t, marker, value);
    SubstitutedStep(t, marker, value);
    var q := Find(t, marker, 0);
    if q.Some? {
      MatchFits(t, marker, q.value);
      assert (a + t)[..|a| + q.value] == a + t[..q.value];
      assert (a + t)[|a| + q.value + |marker|..] == t[q.value + |marker|..];
    }
  }

  lemma MatchFits(s: string, sep: string, i: nat)
    requires MatchAt(s, sep, i)
    ensures i + |sep| <= |s|
  {
  }

  lemma JoinCons(p: string, ps: seq<string>, glue: string)
    requires ps != []
    ensures Join([p] + ps, glue) == p + glue + Join(ps, glue)
  {
    assert ([p] + ps)[1..] == ps;
  }

  /** An occurrence at the very front is replaced, and the rest is treated on its own. */
  lemma SubstitutedHits(t: string, marker: string, value: string)
    requires marker != ""
    ensures Substituted(marker + t, marker, value) == value + Substituted(t, marker, value)
  {
    hide Substituted;
    var s := marker + t;
    assert s[0..|marker|] == marker;
    assert MatchAt(s, marker, 0) && Find(s, marker, 0) == Some(0);
    SubstitutedStep(s, marker, value);
    assert s[..0] == "" && s[|marker|..] == t;
  }

  /** Joining with the separator itself undoes the cut. */
  lemma {:induction false} JoinSplit(s: string, sep: string)
    requires sep != ""
    ensures Join(SplitOn(s, sep), sep) == s
    decreases |s|
  {
    var r := Find(s, sep, 0);
    if r.Some? {
      var i := r.value;
      JoinSplit(s[i + |sep|..], sep);
      JoinCons(s[..i], SplitOn(s[i + |sep|..], sep), sep);
      assert s == s[..i] + s[i..i + |sep|] + s[i + |sep|..];
    }
  }

  lemma FirstPiece(p: string, c: char, t: string)
    requires c !in p
    ensures SplitOn(p + [c] + t, [c]) == [p] + SplitOn(t, [c])
  {
    var s := p + [c] + t;
    assert s[|p|..|p| + 1] == [c];
    forall i: nat | i < |p| ensures !MatchAt(s, [c], i) {
      assert s[i] == p[i] && p[i] in p;
      assert i + 1 <= |s| ==> s[i..i + 1] == [s[i]];
    }
    assert MatchAt(s, [c], |p|) && Find(s, [c], 0) == Some(|p|);
    assert s[..|p|] == p && s[|p| + 1..] == t;
  }

  lemma LastPiece(p: string, c: char)
    requires c !in p
    ensures SplitOn(p, [c]) == [p]
  {
    forall i: nat | i + 1 <= |p| ensures !MatchAt(p, [c], i) {
      assert p[i] in p && p[i..i + 1] == [p[i]];
    }
  }

  /** Pieces free of a one-character separator are found again. */
  lemma {:induction false} SplitJoin(ps: seq<string>, c: char)
    requires ps != [] && forall p :: p in ps ==> c !in p
    ensures SplitOn(Join(ps, [c]), [c]) == ps
  {
    assert ps[0] in ps;
    if |ps| == 1 {
      LastPiece(ps[0], c);
    } else {
      FirstPiece(ps[0], c, Join(ps[1..], [c]));
      SplitJoin(ps[1..], c);
    }
  }
}
