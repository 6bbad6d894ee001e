/** The article page of the blog: five placeholders filled one after the other with escaped values. */
module ArticlePage {
  import opened Wrappers
  import opened Text
  import opened Decimal
  import opened Splitting
  import opened Template
  import opened Escapes

  datatype Article = Article(title: string, content: string, date: string, category: string, id: nat)

  function Bindings(a: Article): seq<Binding> {
    [Binding("TITLE", Expand(a.title, HtmlCode)),
     Binding("CONTENT_JSON", Expand(a.content, JsonCode)),
     Binding("DATE", a.date),
     Binding("CATEGORY", Expand(a.category, HtmlCode)),
     Binding("ID", Show(a.id))]
  }

  method FillPage(tmpl: string, a: Article) returns (html: string)
    ensures html == Replacements(tmpl, Bindings(a))
  {
    hide Substituted;
    var title := HtmlEscape(a.title);
    html := ReplacePlaceholder(tmpl, "TITLE", title);
    var content := EscapeJson(a.content);
    html := ReplacePlaceholder(html, "CONTENT_JSON", content);
    html := ReplacePlaceholder(html, "DATE", a.date);
    var category := HtmlEscape(a.category);
    html := ReplacePlaceholder(html, "CATEGORY", category);
    html := ReplacePlaceholder(html, "ID", Show(a.id));
    FiveReplacements(tmpl, Bindings(a));
  }

  lemma FiveReplacements(tmpl: string, bs: seq<Binding>)
    requires |bs| == 5
    ensures Replacements(tmpl, bs) ==
            Replaced(Replaced(Replaced(Replaced(Replaced(tmpl, bs[0]), bs[1]), bs[2]), bs[3]), bs[4])
  {
    hide Substituted;
    OneReplacement(tmpl, bs);
    var t1 := Replaced(tmpl, bs[0]);
    OneReplacement(t1, bs[1..]);
    var t2 := Replaced(t1, bs[1]);
    OneReplacement(t2, bs[1..][1..]);
    var t3 := Replaced(t2, bs[2]);
    OneReplacement(t3, bs[1..][1..][1..]);
    var t4 := Replaced(t3, bs[3]);
    OneReplacement(t4, bs[1..][1..][1..][1..]);
  }

  function Replaced(tmpl: string, b: Binding): string { Substituted(tmpl, Marker(b.key), b.value) }

  lemma OneReplacement(tmpl: string, bs: seq<Binding>)
    requires bs != []
    ensures Replacements(tmpl, bs) == Replacements(Replaced(tmpl, bs[0]), bs[1..])
  {
  }

  /** The three texts a user chose, and the date from the database, hold no opening double brace. */
  ghost predicate PlainArticle(a: Article) {
    Plain(a.title) && Plain(a.content) && Plain(a.date) && Plain(a.category)
  }

  lemma KeysAreOk()
    ensures forall key :: key in ["TITLE", "CONTENT_JSON", "DATE", "CATEGORY", "ID"] ==> KeyOk(key)
    ensures "TITLE" != "CONTENT_JSON" && "TITLE" != "DATE" && "TITLE" != "CATEGORY" && "TITLE" != "ID"
    ensures "CONTENT_JSON" != "DATE" && "CONTENT_JSON" != "CATEGORY" && "CONTENT_JSON" != "ID"
    ensures "DATE" != "CATEGORY" && "DATE" != "ID" && "CATEGORY" != "ID"
  {
    assert |"TITLE"| == 5 && |"CONTENT_JSON"| == 12 && |"DATE"| == 4 && |"CATEGORY"| == 8 && |"ID"| == 2;
  }

  lemma DigitsArePlain(n: nat)
    ensures Plain(Show(n))
  {
    ShowRoundTrip(n);
    assert forall i :: 0 <= i < |Show(n)| ==> Show(n)[i] in Show(n);
  }

  lemma BindingsAreOk(a: Article)
    requires PlainArticle(a)
    ensures BindingsOk(Bindings(a))
  {
    hide Plain, Expand, Settled, KeysOk;
    KeysDiffer(a);
    DigitsArePlain(a.id);
    EscapersKeepBraces(a.title);
    EscapersKeepBraces(a.content);
    EscapersKeepBraces(a.category);
    PlainBindings(Bindings(a));
  }

  lemma KeysDiffer(a: Article)
    ensures KeysOk(Bindings(a))
  {
    hide KeyOk, Expand, Show;
    KeysAreOk();
  }

  /**
   For an article without double braces the page is the template with every hole filled from the
   article, each value once and none into another.
   */
  lemma PageIsFilledTemplate(segs: seq<Segment>, a: Article)
    requires TemplateOk(segs) && PlainArticle(a)
    ensures Replacements(Source(segs), Bindings(a)) == Source(FillAll(segs, Bindings(a)))
  {
    hide Plain, TemplateOk, Replacements, Bindings;
    BindingsAreOk(a);
    SuccessiveIsSimultaneous(segs, Bindings(a));
  }

  /**
   What stands in the holes: title and category leave no markup in the page and are shown as they were
   written, the content is read back by whatever reads the literal, and date and number are as stored.
   Holes of other names stay.
   */
  lemma HolesGet(segs: seq<Segment>, a: Article, i: nat)
    requires i < |segs| && segs[i].Hole?
    ensures var key, r := segs[i].key, FillAll(segs, Bindings(a))[i];
            if key in ["TITLE", "CONTENT_JSON", "DATE", "CATEGORY", "ID"] then
              && r.Lit?
              && (key == "TITLE" ==> HtmlText(r.text) == a.title && forall c :: c in r.text ==> !HtmlSpecial(c))
              && (key == "CATEGORY" ==> HtmlText(r.text) == a.category && forall c :: c in r.text ==> !HtmlSpecial(c))
              && (key == "CONTENT_JSON" ==> JsonLiteral(r.text + "\"" + "") == Some((a.content, |r.text|)))
              && (key == "DATE" ==> r.text == a.date)
              && (key == "ID" ==> r.text != "" && AllDigits(r.text) && Value(r.text) == a.id)
            else r == segs[i]
  {
    hide Expand, HtmlText, JsonLiteral, Show, Value, AllDigits, HtmlSpecial, HtmlCode, JsonCode;
    KeysAreOk();
    LookupBindings(a, segs[i].key);
    HtmlRoundTrip(a.title);
    HtmlHasNoMarkup(a.title);
    HtmlRoundTrip(a.category);
    HtmlHasNoMarkup(a.category);
    JsonRoundTrip(a.content, "");
    ShowRoundTrip(a.id);
  }

  lemma LookupBindings(a: Article, key: string)
    ensures var bs := Bindings(a);
            Lookup(bs, key) ==
            if key == "TITLE" then Some(bs[0].value)
            else if key == "CONTENT_JSON" then Some(bs[1].value)
            else if key == "DATE" then Some(bs[2].value)
            else if key == "CATEGORY" then Some(bs[3].value)
            else if key == "ID" then Some(bs[4].value)
            else None
  {
    hide Expand, Show, Lookup;
    var bs := Bindings(a);
    LookupStep(bs, key);
    LookupStep(bs[1..], key);
    LookupStep(bs[1..][1..], key);
    LookupStep(bs[1..][1..][1..], key);
    LookupStep(bs[1..][1..][1..][1..], key);
    LookupStep(bs[1..][1..][1..][1..][1..], key);
  }

  lemma LookupStep(bs: seq<Binding>, key: string)
    ensures Lookup(bs, key) ==
            if bs == [] then None else if bs[0].key == key then Some(bs[0].value) else Lookup(bs[1..], key)
  {
  }

  /** Without that condition it fails: a title that is itself a placeholder is filled in turn. */
  lemma TitleCanBeFilled(id: nat)
    ensures var a := Article("{{ID}}", "", "", "", id);
            && Replacements("{{TITLE}}", Bindings(a)) == Show(id)
            && Source(FillAll([Hole("TITLE")], Bindings(a))) == "{{ID}}"
  {
    hide Substituted, Marker, FitFor, KeyOk, Replacements, Source, Fill, Expand, Show;
    var bs := Bindings(Article("{{ID}}", "", "", "", id));
    EscapedId();
    KeysAreOk();
    HolesFit();
    SourceOfHoles(id);
    FiveReplacements("{{TITLE}}", bs);
    ReplaceFills([Hole("TITLE")], "TITLE", "{{ID}}");
    ReplaceFills([Hole("ID")], "CONTENT_JSON", bs[1].value);
    ReplaceFills([Hole("ID")], "DATE", "");
    ReplaceFills([Hole("ID")], "CATEGORY", bs[3].value);
    ReplaceFills([Hole("ID")], "ID", Show(id));
    FillOne("TITLE", "TITLE", "{{ID}}");
    FillOne("ID", "CONTENT_JSON", bs[1].value);
    FillOne("ID", "DATE", "");
    FillOne("ID", "CATEGORY", bs[3].value);
    FillOne("ID", "ID", Show(id));
    assert FillAll([Hole("TITLE")], bs) == [Lit("{{ID}}")];
  }

  lemma FillOne(hole: string, key: string, value: string)
    ensures Fill([Hole(hole)], key, value) == [if hole == key then Lit(value) else Hole(hole)]
  {
  }

  lemma HolesFit()
    ensures forall key :: FitFor([Hole("TITLE")], key) && FitFor([Hole("ID")], key)
  {
    KeysAreOk();
  }

  lemma SourceOfHoles(id: nat)
    ensures Source([Hole("TITLE")]) == "{{TITLE}}" && Source([Hole("ID")]) == "{{ID}}"
    ensures Source([Lit("{{ID}}")]) == "{{ID}}" && Source([Lit(Show(id))]) == Show(id)
  {
  }

  lemma EscapedId()
    ensures Expand("{{ID}}", HtmlCode) == "{{ID}}"
  {
    HtmlUnchangedIff("{{ID}}");
  }
}
