/** Form bodies: `get_form_value`, and that what a browser sends comes back. */
module Forms {
  import opened Wrappers
  import opened Text
  import opened Splitting
  import opened Escapes

  /** The value behind the first "key=" among the parts; the empty string if there is none. */
  function FirstValue(parts: seq<string>, key: string): string {
    if parts == [] then ""
    else match FindChar(parts[0], '=')
      case Some(eq) => if parts[0][..eq] == key then parts[0][eq + 1..] else FirstValue(parts[1..], key)
      case None => FirstValue(parts[1..], key)
  }

  function FormValue(body: string, key: string): string {
    FirstValue(SplitOn(body, "&"), key)
  }

  method GetFormValue(body: string, key: string) returns (r: string)
    ensures r == FormValue(body, key)
  {
    hide Find, FindChar, FormValue;
    var pos := 0;
    assert body[0..] == body;
    while pos <= |body|
      invariant 0 <= pos <= |body| + 1
      invariant if pos <= |body| then FormValue(body[pos..], key) == FormValue(body, key)
                else FormValue(body, key) == ""
      decreases |body| + 1 - pos
    {
      FormRound(body, pos, key);
      var amp := Find(body, "&", pos);
      var part := if amp.None? then body[pos..] else body[pos..amp.value];
      var eq := FindChar(part, '=');
      if eq.Some? {
        var k, v := part[..eq.value], part[eq.value + 1..];
        if k == key {
          return v;
        }
      }
      if amp.None? {
        return "";
      }
      pos := amp.value + 1;
    }
    r := "";
  }

  /** What one round decides: the part up to the next '&', or else the rest of the body. */
  lemma FormRound(body: string, pos: nat, key: string)
    requires pos <= |body|
    ensures var amp := Find(body, "&", pos);
            && (amp.Some? ==> amp.value < |body|)
            && var part := if amp.None? then body[pos..] else body[pos..amp.value];
            && var later := if amp.None? then "" else FormValue(body[amp.value + 1..], key);
            FormValue(body[pos..], key) ==
            match FindChar(part, '=') {
              case Some(eq) => if part[..eq] == key then part[eq + 1..] else later
              case None => later
            }
  {
    hide Find;
    var rest := body[pos..];
    assert body == body[..pos] + rest;
    FindAtEnd(body[..pos], rest, "&");
    var q := Find(rest, "&", 0);
    if q.Some? {
      var part, more := rest[..q.value], rest[q.value + 1..];
      assert part == body[pos..pos + q.value] && more == body[pos + q.value + 1..];
      var ps := [part] + SplitOn(more, "&");
      assert SplitOn(rest, "&") == ps && ps[0] == part && ps[1..] == SplitOn(more, "&");
    } else {
      assert SplitOn(rest, "&") == [rest] && FirstValue([rest][1..], key) == "";
    }
  }

  // ---------- Part by part, for any body ----------

  lemma BodyParts(part: string, rest: string)
    requires '&' !in part
    ensures SplitOn(part + "&" + rest, "&") == [part] + SplitOn(rest, "&")
    ensures SplitOn(part, "&") == [part]
  {
    FirstPiece(part, '&', rest);
    LastPiece(part, '&');
  }

  /** A part without an equals sign is passed over. */
  lemma BarePart(part: string, rest: string, key: string)
    requires '&' !in part && '=' !in part
    ensures FormValue(part + "&" + rest, key) == FormValue(rest, key) && FormValue(part, key) == ""
  {
    hide SplitOn;
    BodyParts(part, rest);
    assert ([part] + SplitOn(rest, "&"))[1..] == SplitOn(rest, "&");
    assert FirstValue([part][1..], key) == "";
  }

  /** A part with one answers with all behind the first of them if its key is asked for, else is passed over. */
  lemma ValuePart(name: string, value: string, rest: string, key: string)
    requires '&' !in name && '=' !in name && '&' !in value
    ensures FormValue(name + "=" + value + "&" + rest, key) == if name == key then value else FormValue(rest, key)
    ensures FormValue(name + "=" + value, key) == if name == key then value else ""
  {
    hide SplitOn, FindChar;
    var part := name + "=" + value;
    BodyParts(part, rest);
    assert part == name + ['='] + value;
    FirstCharAfter(name, '=', value);
    assert ([part] + SplitOn(rest, "&"))[1..] == SplitOn(rest, "&");
    assert FirstValue([part][1..], key) == "";
  }

  // ---------- The round trip ----------

  /** One field as it stands in the body: the key as it is, the value in some encoding. */
  datatype Entry = Entry(key: string, written: string)

  predicate EntryOk(e: Entry) {
    '&' !in e.key && '=' !in e.key && '&' !in e.written
  }

  function EntryText(e: Entry): string { e.key + "=" + e.written }

  function EntryTexts(es: seq<Entry>): (r: seq<string>)
    ensures |r| == |es| && forall i :: 0 <= i < |es| ==> r[i] == EntryText(es[i])
  {
    seq(|es|, i requires 0 <= i < |es| => EntryText(es[i]))
  }

  function FirstWritten(es: seq<Entry>, key: string): string {
    if es == [] then ""
    else if es[0].key == key then es[0].written
    else FirstWritten(es[1..], key)
  }

  lemma EntryIsCut(e: Entry)
    requires EntryOk(e)
    ensures '&' !in EntryText(e)
    ensures FindChar(EntryText(e), '=') == Some(|e.key|)
    ensures EntryText(e)[..|e.key|] == e.key && EntryText(e)[|e.key| + 1..] == e.written
  {
    assert EntryText(e) == e.key + ['='] + e.written;
    FirstCharAfter(e.key, '=', e.written);
  }

  lemma {:induction false} FirstValueIs(es: seq<Entry>, key: string)
    requires forall e :: e in es ==> EntryOk(e)
    ensures FirstValue(EntryTexts(es), key) == FirstWritten(es, key)
  {
    if es != [] {
      assert es[0] in es;
      EntryIsCut(es[0]);
      FirstValueIs(es[1..], key);
      assert EntryTexts(es)[1..] == EntryTexts(es[1..]);
    }
  }

  /** In a body of fields joined by '&' the first field of that name answers, and no other. */
  lemma FormValueIs(es: seq<Entry>, key: string)
    requires forall e :: e in es ==> EntryOk(e)
    ensures FormValue(Join(EntryTexts(es), "&"), key) == FirstWritten(es, key)
  {
    hide FindChar, EntryText;
    var ts := EntryTexts(es);
    if es == [] {
      assert SplitOn("", "&") == [""];
      EmptyPart(key);
    } else {
      forall t | t in ts ensures '&' !in t {
        var i :| 0 <= i < |ts| && ts[i] == t;
        assert es[i] in es;
        EntryIsCut(es[i]);
      }
      SplitJoin(ts, '&');
      FirstValueIs(es, key);
    }
  }

  lemma EmptyPart(key: string)
    ensures FirstValue([""], key) == ""
  {
  }

  /** A form as the user filled it in. */
  datatype Field = Field(key: string, value: string)

  function Submitted(fs: seq<Field>): (es: seq<Entry>)
    ensures |es| == |fs|
    ensures forall i :: 0 <= i < |fs| ==> es[i] == Entry(fs[i].key, UrlEncode(fs[i].value))
  {
    seq(|fs|, i requires 0 <= i < |fs| => Entry(fs[i].key, UrlEncode(fs[i].value)))
  }

  function FormBody(fs: seq<Field>): string { Join(EntryTexts(Submitted(fs)), "&") }

  function FirstOf(fs: seq<Field>, key: string): string {
    if fs == [] then ""
    else if fs[0].key == key then fs[0].value
    else FirstOf(fs[1..], key)
  }

  predicate FieldOk(f: Field) {
    '&' !in f.key && '=' !in f.key && forall c :: c in f.value ==> c as int < 256
  }

  lemma {:induction false} FirstDecoded(fs: seq<Field>, key: string)
    requires forall f :: f in fs ==> FieldOk(f)
    ensures UrlDecoded(FirstWritten(Submitted(fs), key)) == FirstOf(fs, key)
  {
    if fs != [] {
      assert fs[0] in fs;
      assert Submitted(fs)[1..] == Submitted(fs[1..]);
      if fs[0].key == key {
        UrlRoundTrip(fs[0].value);
      } else {
        FirstDecoded(fs[1..], key);
      }
    }
  }

  /** What the handlers read is what was filled in: the first value of that name, or nothing. */
  lemma FormRoundTrip(fs: seq<Field>, key: string)
    requires forall f :: f in fs ==> FieldOk(f)
    ensures UrlDecoded(FormValue(FormBody(fs), key)) == FirstOf(fs, key)
  {
    var es := Submitted(fs);
    forall e | e in es ensures EntryOk(e) {
      var i :| 0 <= i < |es| && es[i] == e;
      assert fs[i] in fs;
      EncodedCharacters(fs[i].value);
    }
    FormValueIs(es, key);
    FirstDecoded(fs, key);
  }

  /**
   Keys are compared as sent, never decoded. So a field whose key was encoded is found under its
   name exactly when the encoding left the key as it was.
   */
  lemma EncodedKeyIsFoundIff(key: string, value: string)
    requires value != "" && forall c :: c in value ==> c as int < 256
    ensures var body := UrlEncode(key) + "=" + UrlEncode(value);
            UrlDecoded(FormValue(body, key)) == value <==> UrlEncode(key) == key
  {
    var e := Entry(UrlEncode(key), UrlEncode(value));
    EncodedCharacters(key);
    EncodedCharacters(value);
    assert EntryOk(e);
    FormValueIs([e], key);
    assert EntryTexts([e]) == [EntryText(e)];
    assert Join([EntryText(e)], "&") == EntryText(e);
    assert [e][1..] == [];
    UrlRoundTrip(value);
  }

  /** A key with a space in it, for one, is sent as another key. */
  lemma EncodedKeyIsMissed()
    ensures UrlEncode("a b") == "a+b" && FormValue("a+b=x", "a b") == "" && FormValue("a+b=x", "a+b") == "x"
  {
    hide FindChar;
    assert "a b"[1..] == " b" && " b"[1..] == "b" && "b"[1..] == "";
    var e := Entry("a+b", "x");
    assert EntryText(e) == "a+b=x" && EntryTexts([e]) == [EntryText(e)] && [e][1..] == [];
    FormValueIs([e], "a b");
    FormValueIs([e], "a+b");
    assert Join([EntryText(e)], "&") == EntryText(e);
  }
}
