/** Page templates: `replace_placeholder`, alone and in sequence. */
module Template {
  import opened Wrappers
  import opened Text
  import opened Splitting

  function Marker(key: string): string { "{{" + key + "}}" }

  /** `replace_placeholder` ends even if the value contains the marker: it goes on behind the value. */
  method ReplacePlaceholder(tmpl: string, key: string, value: string) returns (r: string)
    ensures r == Substituted(tmpl, Marker(key), value)
  {
    var marker := Marker(key);
    r := tmpl;
    var pos := 0;
    ghost var done, rest := "", tmpl;
    assert "" + Substituted(tmpl, marker, value) == Substituted(tmpl, marker, value);
    var found := Find(r, marker, pos);
    while found.Some?
      invariant r == done + rest && pos == |done|
      invariant found == Find(r, marker, pos)
      invariant done + Substituted(rest, marker, value) == Substituted(tmpl, marker, value)
      decreases |r| - pos
    {
      var at := found.value;
      ReplaceRound(done, rest, marker, value);
      ghost var gap := at - pos;
      r := r[..at] + value + r[at + |marker|..];
      pos := at + |value|;
      done := done + rest[..gap] + value;
      rest := rest[gap + |marker|..];
      found := Find(r, marker, pos);
    }
    ReplaceEnd(done, rest, marker, value);
  }

  lemma ReplaceRound(done: string, rest: string, marker: string, value: string)
    requires marker != "" && Find(done + rest, marker, |done|).Some?
    ensures var at := Find(done + rest, marker, |done|).value;
            var gap := at - |done|;
            && gap + |marker| <= |rest|
            && (done + rest)[..at] + value + (done + rest)[at + |marker|..] ==
               (done + rest[..gap] + value) + rest[gap + |marker|..]
            && (done + rest[..gap] + value) + Substituted(rest[gap + |marker|..], marker, value) ==
               done + Substituted(rest, marker, value)
  {
    hide Find, Substituted, MatchAt;
    FindAtEnd(done, rest, marker);
    var gap := Find(rest, marker, 0).value;
    MatchFits(rest, marker, gap);
    SubstitutedStep(rest, marker, value);
    assert (done + rest)[..|done| + gap] == done + rest[..gap];
    assert (done + rest)[|done| + gap + |marker|..] == rest[gap + |marker|..];
  }

  lemma ReplaceEnd(done: string, rest: string, marker: string, value: string)
    requires marker != "" && Find(done + rest, marker, |done|).None?
    ensures Substituted(rest, marker, value) == rest
  {
    FindAtEnd(done, rest, marker);
    SubstitutedStep(rest, marker, value);
  }

  // ---------- Templates as texts with holes ----------

  datatype Segment = Lit(text: string) | Hole(key: string)

  function Source(segs: seq<Segment>): string {
    if segs == [] then ""
    else (if segs[0].Lit? then segs[0].text else Marker(segs[0].key)) + Source(segs[1..])
  }

  /** Text that cannot take part in a marker's opening braces; single braces inside it do no harm. */
  ghost predicate Plain(s: string) {
    && (forall i :: 0 <= i < |s| - 1 ==> !(s[i] == '{' && s[i + 1] == '{'))
    && (s != "" ==> s[|s| - 1] != '{')
  }

  ghost predicate KeyOk(key: string) { '{' !in key && '}' !in key }

  ghost predicate TemplateOk(segs: seq<Segment>) {
    forall seg :: seg in segs ==> if seg.Lit? then Plain(seg.text) else KeyOk(seg.key)
  }

  /**
   No marker stands in the text, and none can begin in it and end behind it: the text does not end in
   the beginning of a marker.
   */
  predicate Harmless(s: string, marker: string) {
    && (forall i :: 0 <= i <= |s| ==> !MatchAt(s, marker, i))
    && (forall k :: 0 < k <= |s| && k < |marker| ==> s[|s| - k..] != marker[..k])
  }

  ghost predicate FitFor(segs: seq<Segment>, key: string) {
    forall seg :: seg in segs ==> if seg.Lit? then Harmless(seg.text, Marker(key)) else KeyOk(seg.key)
  }

  function Fill(segs: seq<Segment>, key: string, value: string): (r: seq<Segment>)
    ensures |r| == |segs|
    ensures forall i :: 0 <= i < |segs| ==> r[i] == if segs[i] == Hole(key) then Lit(value) else segs[i]
  {
    seq(|segs|, i requires 0 <= i < |segs| => if segs[i] == Hole(key) then Lit(value) else segs[i])
  }

  lemma MarkerAt(s: string, key: string, i: nat)
    requires MatchAt(s, Marker(key), i) && KeyOk(key)
    ensures i + |key| + 4 <= |s| && s[i] == '{' && s[i + 1] == '{' && s[i + 2 + |key|] == '}'
    ensures s[i + 2..i + 2 + |key|] == key
    ensures forall k :: i + 2 <= k < i + 2 + |key| ==> s[k] != '}'
  {
    var m := s[i..i + |Marker(key)|];
    assert |m| == |key| + 4 && m == Marker(key);
    assert m[0] == '{' && m[1] == '{' && m[2 + |key|] == '}';
    assert m[2..2 + |key|] == key;
    assert s[i] == m[0] && s[i + 1] == m[1] && s[i + 2 + |key|] == m[2 + |key|];
    SliceOfSlice(s, i, i + |m|, 2);
    SliceOfSlice(s, i + 2, i + |m|, |key|);
    assert m[2..][..|key|] == m[2..2 + |key|];
    forall k | i + 2 <= k < i + 2 + |key| ensures s[k] != '}' {
      assert m[k - i] == key[k - i - 2] && key[k - i - 2] in key;
    }
  }

  lemma HarmlessHasNoMarker(a: string, t: string, marker: string)
    requires Harmless(a, marker)
    ensures forall i: nat :: i < |a| ==> !MatchAt(a + t, marker, i)
  {
    var s, n := a + t, |marker|;
    forall i: nat | i < |a| ensures !MatchAt(s, marker, i) {
      if i + n <= |a| {
        assert s[i..i + n] == a[i..i + n];
        assert !MatchAt(a, marker, i);
      } else if i + n <= |s| {
        var k := |a| - i;
        SliceOfSlice(s, i, i + n, k);
        assert a[|a| - k..] == s[i..i + k];
      }
    }
  }

  lemma PlainIsHarmless(s: string, key: string)
    requires Plain(s) && KeyOk(key)
    ensures Harmless(s, Marker(key))
  {
    var m := Marker(key);
    assert m[0] == '{' && m[1] == '{';
    forall i | 0 <= i <= |s| ensures !MatchAt(s, m, i) {
      if MatchAt(s, m, i) {
        MarkerAt(s, key, i);
      }
    }
    forall k | 0 < k <= |s| && k < |m| ensures s[|s| - k..] != m[..k] {
      var e := s[|s| - k..];
      assert e[0] == s[|s| - k] && m[..k][0] == '{';
      if k > 1 {
        assert e[1] == s[|s| - k + 1] && m[..k][1] == '{';
      }
    }
  }

  lemma TemplateFits(segs: seq<Segment>, key: string)
    requires TemplateOk(segs) && KeyOk(key)
    ensures FitFor(segs, key)
  {
    hide Plain, Harmless, KeyOk;
    forall seg | seg in segs && seg.Lit? ensures Harmless(seg.text, Marker(key)) {
      PlainIsHarmless(seg.text, key);
    }
  }

  lemma KeysMeet(s: string, other: string, key: string)
    requires KeyOk(other) && KeyOk(key)
    requires MatchAt(s, Marker(other), 0) && MatchAt(s, Marker(key), 0)
    ensures other == key
  {
    hide Marker, MatchAt;
    MarkerAt(s, other, 0);
    MarkerAt(s, key, 0);
    assert |other| == |key|;
    assert s[2..2 + |other|] == other && s[2..2 + |key|] == key;
  }

  lemma OtherHoleHasNoMarker(other: string, t: string, key: string)
    requires KeyOk(other) && KeyOk(key) && other != key
    ensures forall i: nat :: i < |Marker(other)| ==> !MatchAt(Marker(other) + t, Marker(key), i)
  {
    var o := Marker(other);
    var s := o + t;
    assert s[0..|o|] == o;
    assert MatchAt(s, o, 0);
    assert forall j :: 2 <= j < 2 + |other| ==> s[j] == other[j - 2] && other[j - 2] in other;
    assert s[2 + |other|] == '}' && s[3 + |other|] == '}';
    forall i: nat | i < |o| ensures !MatchAt(s, Marker(key), i) {
      if MatchAt(s, Marker(key), i) {
        MarkerAt(s, key, i);
        KeysMeet(s, other, key);
      }
    }
  }

  /** Replacing a placeholder in the text of a template fills the holes of that name, nothing else. */
  lemma {:induction false} ReplaceFills(segs: seq<Segment>, key: string, value: string)
    requires FitFor(segs, key) && KeyOk(key)
    ensures Substituted(Source(segs), Marker(key), value) == Source(Fill(segs, key, value))
  {
    hide Substituted, Harmless;
    if segs == [] {
      NothingToReplace(key, value);
    } else {
      var seg, t := segs[0], Source(segs[1..]);
      assert seg in segs;
      ReplaceFills(segs[1..], key, value);
      assert Fill(segs, key, value)[1..] == Fill(segs[1..], key, value);
      if seg == Hole(key) {
        SubstitutedHits(t, Marker(key), value);
      } else if seg.Lit? {
        HarmlessHasNoMarker(seg.text, t, Marker(key));
        SubstitutedSkips(seg.text, t, Marker(key), value);
      } else {
        OtherHoleHasNoMarker(seg.key, t, key);
        SubstitutedSkips(Marker(seg.key), t, Marker(key), value);
      }
    }
  }

  lemma NothingToReplace(key: string, value: string)
    ensures Substituted("", Marker(key), value) == ""
  {
  }

  // ---------- Several placeholders, one after the other ----------

  datatype Binding = Binding(key: string, value: string)

  /** The calls a page handler makes, in their order. */
  function Replacements(tmpl: string, bs: seq<Binding>): string
    decreases |bs|
  {
    if bs == [] then tmpl
    else Replacements(Substituted(tmpl, Marker(bs[0].key), bs[0].value), bs[1..])
  }

  function Lookup(bs: seq<Binding>, key: string): Option<string> {
    if bs == [] then None
    else if bs[0].key == key then Some(bs[0].value)
    else Lookup(bs[1..], key)
  }

  /** All holes filled at once. */
  function FillAll(segs: seq<Segment>, bs: seq<Binding>): (r: seq<Segment>)
    ensures |r| == |segs|
    ensures forall i :: 0 <= i < |segs| ==>
              r[i] == if segs[i].Hole? && Lookup(bs, segs[i].key).Some?
                      then Lit(Lookup(bs, segs[i].key).value) else segs[i]
  {
    seq(|segs|, i requires 0 <= i < |segs| =>
      if segs[i].Hole? && Lookup(bs, segs[i].key).Some?
      then Lit(Lookup(bs, segs[i].key).value) else segs[i])
  }

  /** A value that the replacement of a later placeholder leaves alone, whatever stands behind it. */
  predicate Settled(value: string, later: Binding) {
    later.value == Marker(later.key) || Harmless(value, Marker(later.key))
  }

  ghost predicate KeysOk(bs: seq<Binding>) {
    && (forall b :: b in bs ==> KeyOk(b.key))
    && (forall i, j :: 0 <= i < j < |bs| ==> bs[i].key != bs[j].key)
  }

  /** Distinct keys, and no value that a later replacement can touch. */
  ghost predicate BindingsOk(bs: seq<Binding>) {
    KeysOk(bs) && forall i, j :: 0 <= i < j < |bs| ==> Settled(bs[i].value, bs[j])
  }

  lemma PlainBindings(bs: seq<Binding>)
    requires KeysOk(bs) && forall b :: b in bs ==> Plain(b.value)
    ensures BindingsOk(bs)
  {
    hide Plain, KeyOk, Harmless;
    forall i, j | 0 <= i < j < |bs| ensures Settled(bs[i].value, bs[j]) {
      assert bs[i] in bs && bs[j] in bs;
      PlainIsHarmless(bs[i].value, bs[j].key);
    }
  }

  lemma {:induction false} LookupIs(bs: seq<Binding>, key: string)
    requires KeysOk(bs)
    ensures Lookup(bs, key).None? <==> forall b :: b in bs ==> b.key != key
    ensures forall b :: b in bs && b.key == key ==> Lookup(bs, key) == Some(b.value)
  {
    if bs != [] {
      assert bs[0] in bs;
      LookupIs(bs[1..], key);
      assert forall b :: b in bs <==> b == bs[0] || b in bs[1..];
    }
  }

  /** Every replacement still to come finds its holes and nothing else. */
  ghost predicate Ready(segs: seq<Segment>, bs: seq<Binding>) {
    && (forall seg :: seg in segs && seg.Hole? ==> KeyOk(seg.key))
    && forall seg, b :: seg in segs && b in bs && seg.Lit? ==> Settled(seg.text, b)
  }

  lemma LaterBindingsOk(bs: seq<Binding>)
    requires bs != [] && BindingsOk(bs)
    ensures BindingsOk(bs[1..])
  {
    hide KeyOk, Settled;
    var cs := bs[1..];
    assert forall i :: 0 <= i < |cs| ==> cs[i] == bs[i + 1];
    assert forall b :: b in cs ==> b in bs;
  }

  lemma FillStaysReady(segs: seq<Segment>, bs: seq<Binding>)
    requires bs != [] && Ready(segs, bs) && BindingsOk(bs)
    ensures Ready(Fill(segs, bs[0].key, bs[0].value), bs[1..])
  {
    hide KeyOk, Settled;
    var r := Fill(segs, bs[0].key, bs[0].value);
    forall seg | seg in r
      ensures seg.Hole? ==> KeyOk(seg.key)
      ensures seg.Lit? ==> seg in segs || seg.text == bs[0].value
    {
      var i :| 0 <= i < |r| && r[i] == seg;
      assert segs[i] in segs;
    }
    forall b | b in bs[1..] ensures Settled(bs[0].value, b) {
      var j :| 0 <= j < |bs[1..]| && bs[1..][j] == b;
      assert bs[j + 1] == b;
    }
    assert forall b :: b in bs[1..] ==> b in bs;
  }

  /** One replacement in a text that is ready for it; a marker replaced by itself changes nothing. */
  lemma ReplaceReady(segs: seq<Segment>, b: Binding)
    requires Ready(segs, [b]) && KeyOk(b.key)
    ensures Substituted(Source(segs), Marker(b.key), b.value) == Source(Fill(segs, b.key, b.value))
  {
    hide Harmless, KeyOk, Substituted;
    assert b in [b];
    if b.value == Marker(b.key) {
      SelfReplacement(Source(segs), b.value);
      FillSelf(segs, b.key);
    } else {
      ReplaceFills(segs, b.key, b.value);
    }
  }

  lemma SelfReplacement(s: string, marker: string)
    requires marker != ""
    ensures Substituted(s, marker, marker) == s
  {
    JoinSplit(s, marker);
  }

  lemma {:induction false} FillSelf(segs: seq<Segment>, key: string)
    ensures Source(Fill(segs, key, Marker(key))) == Source(segs)
  {
    hide Marker;
    if segs != [] {
      FillSelf(segs[1..], key);
      assert Fill(segs, key, Marker(key))[1..] == Fill(segs[1..], key, Marker(key));
    }
  }

  lemma FillThenAll(segs: seq<Segment>, bs: seq<Binding>)
    requires bs != []
    ensures FillAll(Fill(segs, bs[0].key, bs[0].value), bs[1..]) == FillAll(segs, bs)
  {
  }

  lemma {:induction false} ReadyIsSimultaneous(segs: seq<Segment>, bs: seq<Binding>)
    requires Ready(segs, bs) && BindingsOk(bs)
    ensures Replacements(Source(segs), bs) == Source(FillAll(segs, bs))
    decreases |bs|
  {
    hide KeyOk, Substituted, Settled;
    if bs == [] {
      assert FillAll(segs, bs) == segs;
    } else {
      assert bs[0] in bs;
      ReplaceReady(segs, bs[0]);
      FillStaysReady(segs, bs);
      LaterBindingsOk(bs);
      ReadyIsSimultaneous(Fill(segs, bs[0].key, bs[0].value), bs[1..]);
      FillThenAll(segs, bs);
    }
  }

  lemma TemplateIsReady(segs: seq<Segment>, bs: seq<Binding>)
    requires TemplateOk(segs) && KeysOk(bs)
    ensures Ready(segs, bs)
  {
    hide Plain, KeyOk, Harmless;
    forall seg, b | seg in segs && b in bs && seg.Lit? ensures Settled(seg.text, b) {
      PlainIsHarmless(seg.text, b.key);
    }
  }

  /**
   The calls one after the other do what one simultaneous substitution does, on every template of
   plain texts and holes, as long as no value can be touched by a later call.
   */
  lemma SuccessiveIsSimultaneous(segs: seq<Segment>, bs: seq<Binding>)
    requires TemplateOk(segs) && BindingsOk(bs)
    ensures Replacements(Source(segs), bs) == Source(FillAll(segs, bs))
  {
    hide Plain, KeyOk, Settled, Replacements;
    TemplateIsReady(segs, bs);
    ReadyIsSimultaneous(segs, bs);
  }

  /** So the order of the calls does not matter, among orders in which that is so. */
  lemma OrderDoesNotMatter(segs: seq<Segment>, bs: seq<Binding>, cs: seq<Binding>)
    requires TemplateOk(segs) && BindingsOk(bs) && BindingsOk(cs)
    requires forall b :: b in bs <==> b in cs
    ensures Replacements(Source(segs), bs) == Replacements(Source(segs), cs)
  {
    hide Plain, KeyOk, TemplateOk, Replacements, Settled, KeysOk;
    SuccessiveIsSimultaneous(segs, bs);
    SuccessiveIsSimultaneous(segs, cs);
    forall key: string ensures Lookup(bs, key) == Lookup(cs, key) {
      LookupIs(bs, key);
      LookupIs(cs, key);
    }
    assert FillAll(segs, bs) == FillAll(segs, cs);
  }

  // ---------- Two calls: exactly when ----------

  lemma {:induction false} SubstitutedLength(s: string, marker: string, value: string)
    requires marker != ""
    ensures |value| >= |marker| ==> |Substituted(s, marker, value)| >= |s|
    ensures |value| <= |marker| ==> |Substituted(s, marker, value)| <= |s|
    decreases |s|
  {
    hide Substituted;
    SubstitutedStep(s, marker, value);
    var q := Find(s, marker, 0);
    if q.Some? {
      SubstitutedLength(s[q.value + |marker|..], marker, value);
    }
  }

  /** A text with a marker in it does change, unless the marker is replaced by itself. */
  lemma SubstitutedChanges(s: string, marker: string, value: string, i: nat)
    requires marker != "" && value != marker && MatchAt(s, marker, i)
    ensures Substituted(s, marker, value) != s
  {
    hide Substituted, Find;
    SubstitutedStep(s, marker, value);
    var q := Find(s, marker, 0).value;
    MatchFits(s, marker, q);
    var rest := s[q + |marker|..];
    SubstitutedLength(rest, marker, value);
    var r := s[..q] + value + Substituted(rest, marker, value);
    if |value| == |marker| {
      assert r[q..q + |marker|] == value && s[q..q + |marker|] == marker;
    }
  }

  /** What is missing of a marker is plain text, so it can stand in a template behind a hole. */
  lemma RestOfMarkerIsPlain(key: string, k: nat)
    requires KeyOk(key) && 0 < k < |Marker(key)|
    ensures Plain(Marker(key)[k..])
  {
    var m := Marker(key);
    assert forall j :: 2 <= j < |m| ==> m[j] != '{' by {
      assert forall j :: 2 <= j < 2 + |key| ==> m[j] == key[j - 2] && key[j - 2] in key;
    }
  }

  lemma TwoCalls(tmpl: string, a: Binding, b: Binding)
    ensures Replacements(tmpl, [a, b]) ==
            Substituted(Substituted(tmpl, Marker(a.key), a.value), Marker(b.key), b.value)
  {
    hide Substituted;
    var t := Substituted(tmpl, Marker(a.key), a.value);
    FirstCall(tmpl, [a, b]);
    FirstCall(t, [a, b][1..]);
    assert [a, b][1..][0] == b && |[a, b][1..][1..]| == 0;
  }

  lemma FirstCall(tmpl: string, bs: seq<Binding>)
    requires bs != []
    ensures Replacements(tmpl, bs) == Replacements(Substituted(tmpl, Marker(bs[0].key), bs[0].value), bs[1..])
  {
  }

  /** A template on which the second call touches the value of the first. */
  lemma UnsettledTemplate(a: Binding, b: Binding) returns (segs: seq<Segment>)
    requires KeyOk(a.key) && KeyOk(b.key) && a.key != b.key && !Settled(a.value, b)
    ensures TemplateOk(segs) && Replacements(Source(segs), [a, b]) != Source(FillAll(segs, [a, b]))
  {
    hide Substituted, Harmless, KeyOk, Plain;
    var m := Marker(b.key);
    var rest, i := Completion(a.value, b.key);
    segs := [Hole(a.key), Lit(rest)];
    TemplateFits(segs, a.key);
    ReplaceFills(segs, a.key, a.value);
    assert Fill(segs, a.key, a.value) == [Lit(a.value), Lit(rest)] == FillAll(segs, [a, b]);
    SourceOfTwo(a.value, rest);
    SubstitutedChanges(a.value + rest, m, b.value, i);
    TwoCalls(Source(segs), a, b);
  }

  lemma SourceOfTwo(s: string, t: string)
    ensures Source([Lit(s), Lit(t)]) == s + t
  {
    assert [Lit(s), Lit(t)][1..] == [Lit(t)];
    assert Source([Lit(t)]) == t + Source([]) == t;
  }

  /** A plain text that, put behind a value that is not harmless, makes it hold a marker. */
  lemma Completion(value: string, key: string) returns (rest: string, i: nat)
    requires KeyOk(key) && !Harmless(value, Marker(key))
    ensures Plain(rest) && MatchAt(value + rest, Marker(key), i)
  {
    hide Plain, KeyOk;
    var m := Marker(key);
    if j :| 0 <= j <= |value| && MatchAt(value, m, j) {
      rest, i := "", j;
      EmptyIsPlain();
      assert value + "" == value;
    } else {
      var k :| 0 < k <= |value| && k < |m| && value[|value| - k..] == m[..k];
      rest, i := m[k..], |value| - k;
      RestOfMarkerIsPlain(key, k);
      MarkerCompleted(value, m, k);
    }
  }

  lemma MarkerCompleted(value: string, m: string, k: nat)
    requires k <= |value| && k < |m| && value[|value| - k..] == m[..k]
    ensures MatchAt(value + m[k..], m, |value| - k)
  {
    var s, i := value + m[k..], |value| - k;
    assert s[i..] == value[i..] + m[k..] == m;
    assert s[i..i + |m|] == s[i..];
  }

  lemma EmptyIsPlain()
    ensures Plain("")
  {
  }

  /**
   For two calls the condition is exact: on every template they do what one simultaneous substitution
   does if and only if the first value holds no marker of the second placeholder and does not end in
   the beginning of one, or the second value is that marker itself.
   */
  lemma TwoCallsIff(a: Binding, b: Binding)
    requires KeyOk(a.key) && KeyOk(b.key) && a.key != b.key
    ensures (forall segs :: TemplateOk(segs) ==>
               Replacements(Source(segs), [a, b]) == Source(FillAll(segs, [a, b])))
            <==> Settled(a.value, b)
  {
    hide KeyOk, TemplateOk, Replacements, Settled, Source, FillAll;
    if Settled(a.value, b) {
      assert BindingsOk([a, b]);
      forall segs | TemplateOk(segs)
        ensures Replacements(Source(segs), [a, b]) == Source(FillAll(segs, [a, b]))
      {
        SuccessiveIsSimultaneous(segs, [a, b]);
      }
    } else {
      var segs := UnsettledTemplate(a, b);
    }
  }
}
