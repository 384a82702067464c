/**
 Which object ids arrive. An id is written into the request as it is, so one that holds a `<` can end its
 element early, open elements of its own, or swallow the closing tags behind it.
 */
module RequestIds {
  import opened Wrappers
  import opened Text
  import opened XmlText
  import opened XmlLexer
  import opened SoapParser
  import opened SoapDocument
  import opened SoapMessages
  import opened DlnaClient
  import opened LexLocality

  // ---------- the request around the id ----------

  function ActionAttrs(): string {
    " xmlns:u=\"" + CONTENT_DIRECTORY + "\""
  }

  function OtherFields(start: nat, count: nat): seq<Field> {
    [Field("\n      ", "BrowseFlag", "BrowseDirectChildren"), Field("\n      ", "Filter", "*"),
     Field("\n      ", "StartingIndex", Decimal(start)), Field("\n      ", "RequestedCount", Decimal(count)),
     Field("\n      ", "SortCriteria", "")]
  }

  /** A tag with the text in front of it. */
  function Opening(gap: string, name: string, attrs: string): string {
    gap + StartText(name, attrs)
  }

  /** What stands in front of the id in the action element, in the body and in the envelope. */
  function BeforeInAction(): string {
    Opening("\n      ", "ObjectID", "")
  }

  function BeforeInBody(): string {
    Opening("\n    ", "u:Browse", ActionAttrs()) + BeforeInAction()
  }

  function BeforeInEnvelope(): string {
    Opening("\n  ", "s:Body", "") + BeforeInBody()
  }

  /** What stands behind the id in the action element, in the body, in the envelope and in the request. */
  function BehindInAction(start: nat, count: nat): string {
    EndText("ObjectID") + (RenderFields(OtherFields(start, count)) + "\n    ")
  }

  function BehindInBody(start: nat, count: nat): string {
    BehindInAction(start, count) + (EndText("u:Browse") + "\n  ")
  }

  function BehindInEnvelope(start: nat, count: nat): string {
    BehindInBody(start, count) + (EndText("s:Body") + "\n")
  }

  function Behind(start: nat, count: nat): string {
    BehindInEnvelope(start, count) + (EndText("s:Envelope") + "\n")
  }

  function RequestAround(x: string): string {
    DECLARATION + ("\n" + (StartText("s:Envelope", EnvelopeAttrs()) + (BeforeInEnvelope() + x)))
  }

  function EnvelopeAttrs(): string {
    " xmlns:s=\"" + ENVELOPE_NS + "\""
  }

  lemma RenderedAround(id: string, start: nat, count: nat)
    ensures BrowseRequestDocument(id, start, count).Render() == RequestAround(id + Behind(start, count))
  {
    hide StartText, EndText, RenderFields, Decimal;
    var d := BrowseRequestDocument(id, start, count);
    var w3, w2, w1 := BehindInAction(start, count), BehindInBody(start, count), BehindInEnvelope(start, count);
    RenderFirst(d.fields, "\n    ");
    assert d.fields[1..] == OtherFields(start, count);
    assert d.Arguments() == BeforeInAction() + (id + w3) by {
      Assoc("\n      ", StartText("ObjectID", ""), id + w3);
    }
    assert d.Body() == BeforeInBody() + (id + w2) by {
      assert "u:" + "Browse" == "u:Browse" && d.ActionAttrs() == ActionAttrs();
      Wrapped("\n    ", StartText("u:Browse", ActionAttrs()), BeforeInAction(), id, w3, EndText("u:Browse") + "\n  ");
    }
    assert d.Envelope() == BeforeInEnvelope() + (id + w1) by {
      Wrapped("\n  ", StartText("s:Body", ""), BeforeInBody(), id, w2, EndText("s:Body") + "\n");
    }
    assert d.Envelope() + (EndText("s:Envelope") + "\n") == BeforeInEnvelope() + (id + Behind(start, count)) by {
      Wrapped("", "", BeforeInEnvelope(), id, w1, EndText("s:Envelope") + "\n");
    }
  }

  lemma RenderFirst(fields: seq<Field>, gap: string)
    requires fields != []
    ensures var f := fields[0];
            RenderFields(fields) + gap ==
            f.gap + (StartText(f.name, "") + (f.raw + (EndText(f.name) + (RenderFields(fields[1..]) + gap))))
  {
    FirstField(fields, gap);
  }

  lemma Wrapped(gap: string, tag: string, before: string, id: string, behind: string, end: string)
    ensures gap + (tag + ((before + (id + behind)) + end)) == ((gap + tag) + before) + (id + (behind + end))
    ensures (before + (id + behind)) + end == before + (id + (behind + end))
  {}

  // ---------- reading from the outside in ----------

  /** The text in front of the closing tag of the open element called `q`. */
  function Inside(t: string, q: string): Option<string> {
    var close := FindClose(t, q, 1);
    if close.found.None? then None else Some(t[..close.found.value])
  }

  lemma Names()
    ensures IsQName("s:Envelope") && IsQName("s:Body") && IsQName("u:Browse") && IsQName("ObjectID")
    ensures LocalName("s:Envelope") == "Envelope" && LocalName("s:Body") == "Body" && LocalName("u:Browse") == "Browse"
    ensures LocalName("ObjectID") == "ObjectID" && PrefixOf("u:Browse") == "u"
    ensures Attributes("") && Attributes(EnvelopeAttrs()) && Attributes(ActionAttrs())
    ensures FindXmlns(ActionAttrs(), "u") == Some(CONTENT_DIRECTORY)
    ensures TagFree("") && TagFree("\n") && TagFree("\n  ") && TagFree("\n    ") && TagFree("\n      ")
  {
    hide Attributes, FindXmlns, LocalName, PrefixOf, TagFree, Decimal;
    Literals();
    PrefixedName("s", "Envelope");
    PrefixedName("s", "Body");
    PrefixedName("u", "Browse");
    RequestNames();
    PlainName("ObjectID");
    RequestAttributes();
    RequestTagFree();
    RequestWellFormed("", 0, 0);
    ActionTag(BrowseRequestDocument("", 0, 0));
    assert "u" + ":" + "Browse" == "u:Browse";
  }

  /** Entering an element: its tag is the next one, and its content is read behind the inner opening text. */
  lemma Enter(gap: string, name: string, attrs: string, before: string, x: string)
    requires TagFree(gap) && IsQName(name) && Attributes(attrs) && Passes(before, name)
    ensures var t := Opening(gap, name, attrs) + before + x;
            var el := NextElement(t);
            && el == Scan(Some(Element(|gap|, TagOf(name, attrs))), |Opening(gap, name, attrs)|)
            && t[el.cost..] == before + x
            && Inside(before + x, name) == (match Inside(x, name) case None => None case Some(y) => Some(before + y))
            && FindClose(before + x, name, 1) == Ahead(|before|, FindClose(x, name, 1))
  {
    hide NextElement, FindClose, StartText, Passes;
    var head := Opening(gap, name, attrs);
    assert head + before + x == gap + (StartText(name, attrs) + (before + x));
    NextAt(gap, name, attrs, before + x);
    PassAt(before, name, x);
    InsideBehind(before, x, name);
  }

  lemma OpeningPasses(gap: string, name: string, attrs: string, before: string, q: string)
    requires TagFree(gap) && IsQName(name) && Attributes(attrs) && name != q && Passes(before, q)
    ensures Passes(Opening(gap, name, attrs) + before, q)
  {
    hide StartText, Passes, FindClose;
    PassText(gap, q);
    PassStart(name, attrs, q);
    PassConcat(gap, StartText(name, attrs), q);
    PassConcat(Opening(gap, name, attrs), before, q);
  }

  lemma BeforePasses(q: string)
    requires q == "s:Envelope" || q == "s:Body" || q == "u:Browse"
    ensures Passes(BeforeInAction(), q)
    ensures q != "u:Browse" ==> Passes(BeforeInBody(), q)
    ensures q == "s:Envelope" ==> Passes(BeforeInEnvelope(), q)
  {
    hide Passes, Attributes, LocalName, PrefixOf, FindXmlns, IsQName, Opening, TagFree;
    Names();
    PassText("", q);
    OpeningPasses("\n      ", "ObjectID", "", "", q);
    assert Opening("\n      ", "ObjectID", "") + "" == BeforeInAction();
    if q != "u:Browse" {
      OpeningPasses("\n    ", "u:Browse", ActionAttrs(), BeforeInAction(), q);
    }
    if q == "s:Envelope" {
      OpeningPasses("\n  ", "s:Body", "", BeforeInBody(), q);
    }
  }

  lemma RootStart(name: string, attrs: string, rest: string)
    requires name != []
    ensures var t := StartText(name, attrs) + rest;
            |t| > 1 && t[0] == '<' && t[1] == name[0] && |name| + |attrs| + 2 <= |t|
              && t[|name| + |attrs| + 2..] == rest
  {}

  lemma ReadEnvelope(x: string)
    ensures Parse(RequestAround(x)).result == match Inside(x, "s:Envelope")
                                              case None => Err(Malformed)
                                              case Some(y) => ParseEnvelope(BeforeInEnvelope() + y).result
  {
    hide FindClose, Passes, Attributes, LocalName, Parse, Inside, BeforeInEnvelope, ParseEnvelope, IsQName, TagFree,
      EnvelopeAttrs, StartText;
    var attrs, inner := EnvelopeAttrs(), BeforeInEnvelope() + x;
    Names();
    BeforePasses("s:Envelope");
    ReadRoot(attrs, inner);
    InsideBehind(BeforeInEnvelope(), x, "s:Envelope");
  }

  lemma ReadRoot(attrs: string, inner: string)
    requires Attributes(attrs)
    ensures Parse(DECLARATION + ("\n" + (StartText("s:Envelope", attrs) + inner))).result ==
            match Inside(inner, "s:Envelope")
            case None => Err(Malformed)
            case Some(y) => ParseEnvelope(y).result
  {
    hide FindClose, Attributes, LocalName, ReadOpenTag, SkipMeta, ParseEnvelope, IsQName, StartText;
    Names();
    var rest := StartText("s:Envelope", attrs) + inner;
    RootStart("s:Envelope", attrs, inner);
    ReachEnvelope("\n", rest);
    ReadStart("s:Envelope", attrs, inner);
  }

  lemma InsideBehind(before: string, x: string, q: string)
    requires Passes(before, q)
    ensures Inside(before + x, q) == match Inside(x, q) case None => None case Some(y) => Some(before + y)
  {
    hide FindClose, Passes;
    PassAt(before, q, x);
    var close := FindClose(x, q, 1);
    if close.found.Some? {
      assert (before + x)[..|before| + close.found.value] == before + x[..close.found.value];
    }
  }

  lemma ReadBody(x: string)
    ensures LocateBody(BeforeInEnvelope() + x).result == match Inside(x, "s:Body")
                                                         case None => Err(Malformed)
                                                         case Some(y) => Ok(BeforeInBody() + y)
  {
    hide FindClose, NextElement, Passes, Attributes, LocalName, BeforeInBody, LocateBody, Opening, IsQName, TagFree;
    Names();
    BeforePasses("s:Body");
    Enter("\n  ", "s:Body", "", BeforeInBody(), x);
    LocateBodyStep(BeforeInEnvelope() + x);
  }

  lemma ReadAction(x: string)
    ensures ParseAction(BeforeInBody() + x).result ==
            match Inside(x, "u:Browse")
            case None => Err(Malformed)
            case Some(y) => WithArgs(CONTENT_DIRECTORY, "Browse", ParseArgs(BeforeInAction() + y)).result
  {
    hide FindClose, NextElement, Passes, Attributes, LocalName, PrefixOf, BeforeInAction, ParseArgs, Opening, IsQName,
      TagFree, FindXmlns;
    Names();
    BeforePasses("u:Browse");
    Enter("\n    ", "u:Browse", ActionAttrs(), BeforeInAction(), x);
  }

  lemma Units(a: string, x: string)
    ensures a + "" + x == a + x && "" + x == x
  {}

  lemma ReadId(x: string)
    ensures ParseArgs(BeforeInAction() + x).result ==
            var close := FindClose(x, "ObjectID", 1);
            if close.found.None? then Err(Malformed)
            else Before(Arg("ObjectID", Unescape(Trim(x[..close.found.value]))), ParseArgs(x[close.cost..])).result
  {
    hide FindClose, NextElement, Passes, Attributes, LocalName, PrefixOf, FindXmlns, ParseArgs, Opening, IsQName,
      TagFree, Unescape, Trim, ActionAttrs, EnvelopeAttrs, Inside;
    Names();
    PassText("", "ObjectID");
    Enter("\n      ", "ObjectID", "", "", x);
    Units(BeforeInAction(), x);
    ParseArgsStep(BeforeInAction() + x);
  }

  /** The parse of the request with `x` in place of the id and everything behind it. */
  lemma ReadAround(x: string)
    ensures Parse(RequestAround(x)).result ==
            match Inside(x, "s:Envelope") case None => Err(Malformed) case Some(x0) =>
            match Inside(x0, "s:Body") case None => Err(Malformed) case Some(x1) =>
            match Inside(x1, "u:Browse") case None => Err(Malformed) case Some(x2) =>
            WithArgs(CONTENT_DIRECTORY, "Browse", ParseArgs(BeforeInAction() + x2)).result
  {
    hide Inside, Parse, LocateBody, ParseAction, ParseArgs, BeforeInEnvelope, BeforeInBody, BeforeInAction,
      RequestAround;
    ReadEnvelope(x);
    var x0 := Inside(x, "s:Envelope");
    if x0.Some? {
      ReadBody(x0.value);
      var x1 := Inside(x0.value, "s:Body");
      if x1.Some? {
        ReadAction(x1.value);
      }
    }
  }

  // ---------- the text behind the id ----------

  predicate Calm(s: string) {
    QuoteFree(s) && 'O' !in s
  }

  lemma CalmConcat(x: string, y: string)
    requires Calm(x) && Calm(y)
    ensures Calm(x + y)
  {}

  lemma {:induction false} CalmFields(fields: seq<Field>)
    requires forall f :: f in fields ==> Calm(f.gap) && Calm(f.name) && Calm(f.raw)
    ensures Calm(RenderFields(fields))
  {
    if fields != [] {
      var f := fields[0];
      assert f in fields;
      CalmFields(fields[1..]);
    }
  }

  lemma CalmNames()
    ensures Calm("BrowseFlag") && Calm("Filter") && Calm("StartingIndex")
  {}

  lemma CalmMoreNames()
    ensures Calm("RequestedCount") && Calm("SortCriteria") && Calm("\n      ")
  {}

  lemma CalmValues(n: nat)
    ensures Calm("BrowseDirectChildren") && Calm("*") && Calm("") && Calm(Decimal(n))
  {}

  lemma CalmOthers(start: nat, count: nat)
    ensures forall f :: f in OtherFields(start, count) ==> Calm(f.gap) && Calm(f.name) && Calm(f.raw)
  {
    hide Decimal, Calm;
    CalmNames();
    CalmMoreNames();
    CalmValues(start);
    CalmValues(count);
  }

  /** The texts behind the id begin with its closing tag, hold no quote, and hold no further `O`. */
  predicate ClosesId(u: string) {
    |u| > 3 && u[..3] == "</O" && Calm(u[3..]) && '>' in u
  }

  lemma EndClosesId()
    ensures ClosesId(EndText("ObjectID"))
  {
    var end := EndText("ObjectID");
    assert end == "</ObjectID>" && end[..3] == "</O" && end[3..] == "bjectID>" && end[10] == '>';
    assert Calm("bjectID>");
  }

  lemma ClosesIdThen(u: string, x: string)
    requires ClosesId(u) && Calm(x)
    ensures ClosesId(u + x)
  {
    assert (u + x)[3..] == u[3..] + x && (u + x)[..3] == u[..3];
    assert '>' in u + x;
  }

  lemma CalmEnds()
    ensures Calm("\n    ") && Calm(EndText("u:Browse") + "\n  ") && Calm(EndText("s:Body") + "\n")
  {}

  lemma CalmLastEnd()
    ensures Calm(EndText("s:Envelope") + "\n")
  {}

  lemma BehindClosesId(start: nat, count: nat)
    ensures ClosesId(BehindInAction(start, count)) && ClosesId(BehindInBody(start, count))
    ensures ClosesId(BehindInEnvelope(start, count)) && ClosesId(Behind(start, count))
  {
    hide RenderFields, ClosesId, Calm, EndText, OtherFields;
    CalmOthers(start, count);
    CalmFields(OtherFields(start, count));
    CalmEnds();
    CalmLastEnd();
    EndClosesId();
    CalmConcat(RenderFields(OtherFields(start, count)), "\n    ");
    ClosesIdThen(EndText("ObjectID"), RenderFields(OtherFields(start, count)) + "\n    ");
    ClosesIdThen(BehindInAction(start, count), EndText("u:Browse") + "\n  ");
    ClosesIdThen(BehindInBody(start, count), EndText("s:Body") + "\n");
    ClosesIdThen(BehindInEnvelope(start, count), EndText("s:Envelope") + "\n");
  }

  lemma ClosesIdCloses(u: string)
    requires ClosesId(u)
    ensures Closing(u)
  {
    assert u == u[..3] + u[3..];
    assert u[0] == u[..3][0] && u[1] == u[..3][1];
  }

  lemma BehindPasses(start: nat, count: nat, q: string)
    requires q == "s:Envelope" || q == "s:Body" || q == "u:Browse"
    ensures Passes(BehindInAction(start, count), q)
    ensures q != "u:Browse" ==> Passes(BehindInBody(start, count), q)
    ensures q == "s:Envelope" ==> Passes(BehindInEnvelope(start, count), q)
  {
    hide Passes, Attributes, LocalName, PrefixOf, FindXmlns, IsQName, IsName, TagFree, EndText, RenderFields,
      OtherFields, ActionAttrs, EnvelopeAttrs;
    var others := OtherFields(start, count);
    Names();
    OthersWellFormed(start, count);
    PassFields(others, q);
    PassText("\n    ", q);
    PassConcat(RenderFields(others), "\n    ", q);
    EndPasses("", "ObjectID", RenderFields(others) + "\n    ", q);
    assert "" + (EndText("ObjectID") + (RenderFields(others) + "\n    ")) == BehindInAction(start, count);
    if q != "u:Browse" {
      PassText("\n  ", q);
      EndPasses(BehindInAction(start, count), "u:Browse", "\n  ", q);
    }
    if q == "s:Envelope" {
      PassText("\n", q);
      EndPasses(BehindInBody(start, count), "s:Body", "\n", q);
    }
  }

  lemma EndPasses(x: string, name: string, rest: string, q: string)
    requires IsQName(name) && name != q && Passes(rest, q) && (x != [] ==> Passes(x, q))
    ensures Passes(x + (EndText(name) + rest), q)
  {
    hide Passes, EndText;
    PassEnd(name, q);
    PassConcat(EndText(name), rest, q);
    if x != [] {
      PassConcat(x, EndText(name) + rest, q);
    } else {
      assert x + (EndText(name) + rest) == EndText(name) + rest;
    }
  }

  lemma OthersWellFormed(start: nat, count: nat)
    ensures forall f :: f in OtherFields(start, count) ==> TagFree(f.gap) && IsName(f.name) && TagFree(f.raw)
  {
    hide Decimal, TagFree, IsName;
    RequestTagFree();
    RequestNames();
    DecimalTagFree(start);
    DecimalTagFree(count);
  }

  // ---------- one closing tag ----------

  /** Behind text that closes nothing, one closing tag is found exactly by a search with one element open. */
  lemma LastClose(w: string, q: string, rest: string, depth: nat)
    requires IsQName(q) && Passes(w, q) && TagFree(rest) && depth > 0
    ensures var close := FindClose(w + (EndText(q) + rest), q, depth);
            close.found == if depth == 1 then Some(|w|) else None
  {
    hide FindClose, Passes, Lex, EndText, IsQName;
    var end := EndText(q) + rest;
    PassAtDepth(w, q, end, depth);
    LexEnd(q, rest);
    FindCloseStep(end, q, depth);
    if depth > 1 {
      EndLength(q);
      assert end[|q| + 3..] == rest;
      PassText(rest, q);
      PassAtDepth(rest, q, [], depth - 1);
      assert rest + [] == rest;
      FindCloseStep([], q, depth - 1);
    }
  }

  lemma PassAtDepth(x: string, q: string, rest: string, depth: nat)
    requires Passes(x, q) && depth > 0
    ensures FindClose(x + rest, q, depth) == Ahead(|x|, FindClose(rest, q, depth))
  {
    hide FindClose;
  }

  /** An enclosed id leaves an outer element's content at that element's own closing tag. */
  lemma EnclosedKeepsClose(id: string, w: string, q: string, rest: string)
    requires Enclosed(id, q) && IsQName(q) && Passes(w, q) && TagFree(rest)
    requires Closing(w + (EndText(q) + rest)) && Closing(EndText(q))
    ensures Inside(id + (w + (EndText(q) + rest)), q) == Some(id + w)
  {
    hide FindClose, Passes, EndText, Closing, IsQName;
    var u := w + (EndText(q) + rest);
    ComesThrough(id, EndText(q), u, q, 1);
    LastClose(w, q, rest, 1);
    assert (id + u)[..|id| + |w|] == id + w;
  }

  /** Conversely, when the id's own element ends behind it, so must every outer one that ends no earlier. */
  lemma CloseKeepsEnclosed(id: string, v: string, w: string, q: string, rest: string)
    requires Closing(v) && FindClose(id + v, "ObjectID", 1).found == Some(|id|)
    requires IsQName(q) && Passes(w, q) && TagFree(rest)
    requires Closing(w + (EndText(q) + rest)) && Closing(EndText(q))
    requires Inside(id + (w + (EndText(q) + rest)), q).Some?
    requires |Inside(id + (w + (EndText(q) + rest)), q).value| >= |id|
    ensures Enclosed(id, q) && Inside(id + (w + (EndText(q) + rest)), q) == Some(id + w)
  {
    hide FindClose, Passes, EndText, Closing, IsQName;
    var u := w + (EndText(q) + rest);
    var deep := AlsoComesThrough(id, v, "ObjectID", 1, u, q, 1);
    LastClose(w, q, rest, deep);
    assert FindClose(id + u, q, 1) == Ahead(|id|, FindClose(u, q, deep));
    assert (id + u)[..|id| + |w|] == id + w;
    assert FindClose(id + EndText(q), q, 1) == Ahead(|id|, FindClose(EndText(q), q, deep));
    PassText([], q);
    LastClose([], q, [], 1);
    assert [] + (EndText(q) + []) == EndText(q);
  }

  // ---------- ids that arrive ----------

  /** Read as content, the id ends none of the four elements around it and opens none of their names. */
  predicate EnclosedInAll(id: string) {
    Enclosed(id, "ObjectID") && Enclosed(id, "u:Browse") && Enclosed(id, "s:Body") && Enclosed(id, "s:Envelope")
  }

  lemma EndsClose()
    ensures Closing(EndText("ObjectID")) && Closing(EndText("u:Browse")) && Closing(EndText("s:Body"))
    ensures Closing(EndText("s:Envelope"))
  {
    assert EndText("ObjectID")[10] == '>' && EndText("u:Browse")[10] == '>' && EndText("s:Body")[8] == '>';
    assert EndText("s:Envelope")[12] == '>';
  }

  lemma AllBehindCloses(start: nat, count: nat)
    ensures Closing(BehindInAction(start, count)) && Closing(BehindInBody(start, count))
    ensures Closing(BehindInEnvelope(start, count)) && Closing(Behind(start, count))
  {
    hide *;
    BehindClosesId(start, count);
    ClosesIdCloses(BehindInAction(start, count));
    ClosesIdCloses(BehindInBody(start, count));
    ClosesIdCloses(BehindInEnvelope(start, count));
    ClosesIdCloses(Behind(start, count));
  }

  lemma ReadEnclosed(id: string, start: nat, count: nat)
    requires EnclosedInAll(id)
    ensures Inside(id + Behind(start, count), "s:Envelope") == Some(id + BehindInEnvelope(start, count))
    ensures Inside(id + BehindInEnvelope(start, count), "s:Body") == Some(id + BehindInBody(start, count))
    ensures Inside(id + BehindInBody(start, count), "u:Browse") == Some(id + BehindInAction(start, count))
  {
    hide Inside, Enclosed, Passes, Closing, EndText, IsQName, TagFree, Attributes, LocalName, PrefixOf, FindXmlns,
      BehindInAction, ActionAttrs, EnvelopeAttrs;
    Names();
    EndsClose();
    AllBehindCloses(start, count);
    BehindPasses(start, count, "s:Envelope");
    BehindPasses(start, count, "s:Body");
    BehindPasses(start, count, "u:Browse");
    EnclosedKeepsClose(id, BehindInEnvelope(start, count), "s:Envelope", "\n");
    EnclosedKeepsClose(id, BehindInBody(start, count), "s:Body", "\n");
    EnclosedKeepsClose(id, BehindInAction(start, count), "u:Browse", "\n  ");
  }

  lemma ReadEnclosedId(id: string, start: nat, count: nat)
    requires Enclosed(id, "ObjectID")
    ensures ParseArgs(BeforeInAction() + (id + BehindInAction(start, count))).result ==
            Ok(BrowseArgs(Unescape(Trim(id)), start, count))
  {
    hide FindClose, ParseArgs, Unescape, Trim, Closing, RenderFields, Passes, EndText, IsQName, TagFree, IsName,
      Attributes, LocalName, PrefixOf, FindXmlns, Decimal, ActionAttrs, EnvelopeAttrs, BeforeInAction;
    var q, others := "ObjectID", OtherFields(start, count);
    var rest := RenderFields(others) + "\n    ";
    var u := EndText(q) + rest;
    Names();
    EndsClose();
    AllBehindCloses(start, count);
    ComesThrough(id, EndText(q), u, q, 1);
    EndHere(q, rest);
    ReadId(id + u);
    EndLength(q);
    assert (id + u)[..|id|] == id && (id + u)[|id| + |EndText(q)|..] == rest;
    OthersWellFormed(start, count);
    ParseFields(others, "\n    ");
    PlainValues(start, count);
    assert [Arg(q, Unescape(Trim(id)))] + Args(others) == BrowseArgs(Unescape(Trim(id)), start, count);
  }

  lemma EndHere(q: string, rest: string)
    requires IsQName(q)
    ensures FindClose(EndText(q) + rest, q, 1) == Scan(Some(0), |q| + 3)
  {
    hide FindClose, Lex, EndText;
    LexEnd(q, rest);
    FindCloseStep(EndText(q) + rest, q, 1);
  }

  /** The server reads an enclosed id up to its outer white space and its entities. */
  lemma RequestRoundTrip(id: string, start: nat, count: nat)
    requires EnclosedInAll(id)
    ensures Parse(BrowseRequestDocument(id, start, count).Render()).result ==
            Ok(Request(CONTENT_DIRECTORY, "Browse", BrowseArgs(Unescape(Trim(id)), start, count)))
  {
    hide Parse, Inside, RequestAround, ParseArgs, BrowseArgs, Unescape, Trim, Enclosed, BeforeInAction,
      Document.Render, BrowseRequestDocument, Behind, BehindInEnvelope, BehindInBody, BehindInAction;
    RenderedAround(id, start, count);
    ReadAround(id + Behind(start, count));
    ReadEnclosed(id, start, count);
    ReadEnclosedId(id, start, count);
  }

  /** An id without a `<` is enclosed. */
  lemma TagFreeIsEnclosed(id: string)
    requires TagFree(id)
    ensures EnclosedInAll(id)
  {
    hide FindClose, Passes, EndText, IsQName, TagFree, Attributes, LocalName, PrefixOf, FindXmlns, ActionAttrs,
      EnvelopeAttrs;
    Names();
    forall q | q == "ObjectID" || q == "u:Browse" || q == "s:Body" || q == "s:Envelope" ensures Enclosed(id, q) {
      PassText(id, q);
      ClosesBehind(id, q, []);
      assert EndText(q) + [] == EndText(q);
    }
  }

  // ---------- ids that do not ----------

  lemma {:induction false} TrimLeftKeeps(s: string, c: char)
    requires c in TrimLeft(s)
    ensures c in s
  {
    if s != [] && IsSpace(s[0]) {
      TrimLeftKeeps(s[1..], c);
    }
  }

  lemma {:induction false} TrimRightKeeps(s: string, c: char)
    requires c in TrimRight(s)
    ensures c in s
  {
    if s != [] && IsSpace(s[|s| - 1]) {
      TrimRightKeeps(s[..|s| - 1], c);
    }
  }

  lemma TrimLength(s: string)
    ensures |Trim(s)| <= |s|
  {
    TrimLeftShape(s);
    TrimRightShape(TrimLeft(s));
  }

  lemma LexOfEnd(t: string, name: string, n: nat)
    requires t != [] && Lex(t) == EndTag(name, n) && name != []
    ensures |t| >= n > 2 && t[0] == '<' && t[1] == '/' && '>' in t && exists k :: 2 <= k < |t| && t[k] == name[0]
  {
    hide Trim, Find, TagClose, ReadOpenTag;
    var c := TagClose(t).value;
    assert name[0] in Trim(t[2..c]);
    assert name[0] in t[2..c] by {
      TrimKeeps(t[2..c], name[0]);
    }
    var k :| 0 <= k < |t[2..c]| && t[2..c][k] == name[0];
    assert t[2 + k] == name[0];
  }

  lemma TrimKeeps(s: string, c: char)
    requires c in Trim(s)
    ensures c in s
  {
    TrimRightKeeps(TrimLeft(s), c);
    TrimLeftKeeps(s, c);
  }

  lemma NoOtherO(u: string)
    requires ClosesId(u)
    ensures forall k :: 3 <= k < |u| ==> u[k] != 'O'
  {
    forall k | 3 <= k < |u| ensures u[k] != 'O' {
      assert u[3..][k - 3] == u[k];
    }
  }

  lemma PrefixQuoteFree(u: string, t: string)
    requires ClosesId(u) && t <= u
    ensures QuoteFree(t)
  {
    ClosesIdCloses(u);
    assert forall c :: c in t ==> c in u;
  }

  /** Behind the id only one place can hold a closing tag of the id's element: the one the client wrote. */
  lemma OnlyOwnClose(id: string, u: string, x: string, o: nat)
    requires ClosesId(u) && x <= id + u && |id| <= o
    requires FindClose(x, "ObjectID", 1).found == Some(o)
    ensures o == |id| && id <= x && Closing(x[|id|..])
  {
    hide FindClose, Lex, ClosesId, QuoteFree;
    FindCloseLex(x, "ObjectID", 1);
    var t := x[o..];
    LexOfEnd(t, "ObjectID", Lex(t).length);
    var k :| 2 <= k < |t| && t[k] == "ObjectID"[0];
    assert x[o + k] == t[k] == 'O';
    assert u[o + k - |id|] == (id + u)[o + k] == x[o + k];
    NoOtherO(u);
    PrefixSplit(id, u, x);
    PrefixQuoteFree(u, t);
  }

  lemma PrefixSplit(id: string, u: string, x: string)
    requires x <= id + u && |id| <= |x|
    ensures id <= x && x[|id|..] <= u
  {
    assert id == (id + u)[..|id|] && x == (id + u)[..|x|];
    assert x[|id|..] == (id + u)[|id|..|x|] == u[..|x| - |id|];
  }

  /** A parse that hands over the id as it was has found every closing tag that the client wrote. */
  lemma ReadsItsOwnTags(id: string, start: nat, count: nat)
    requires Parse(BrowseRequestDocument(id, start, count).Render()).result ==
             Ok(Request(CONTENT_DIRECTORY, "Browse", BrowseArgs(id, start, count)))
    ensures EnclosedInAll(id) && Unescape(Trim(id)) == id
  {
    hide Parse, Inside, RequestAround, ParseArgs, Unescape, Trim, Enclosed, BeforeInAction, Document.Render,
      BrowseRequestDocument, Behind, BehindInEnvelope, BehindInBody, BehindInAction, Closing, EnclosedInAll;
    RenderedAround(id, start, count);
    ReadAround(id + Behind(start, count));
    var x0 := Inside(id + Behind(start, count), "s:Envelope").value;
    var x1 := Inside(x0, "s:Body").value;
    var x2 := Inside(x1, "u:Browse").value;
    InsideIsPrefix(id + Behind(start, count), "s:Envelope");
    InsideIsPrefix(x0, "s:Body");
    InsideIsPrefix(x1, "u:Browse");
    ReadIdEnds(id, start, count, x2);
    var v := x2[|id|..];
    OuterTags(id, start, count, v, x0, x1, x2);
  }

  lemma InsideIsPrefix(t: string, q: string)
    requires Inside(t, q).Some?
    ensures Inside(t, q).value <= t
  {
    hide FindClose;
  }

  lemma ReadIdEnds(id: string, start: nat, count: nat, x: string)
    requires x <= id + Behind(start, count)
    requires ParseArgs(BeforeInAction() + x).result == Ok(BrowseArgs(id, start, count))
    ensures id <= x && Closing(x[|id|..]) && FindClose(x, "ObjectID", 1).found == Some(|id|) && Unescape(Trim(id)) == id
  {
    hide FindClose, ParseArgs, Unescape, Trim, BeforeInAction, Behind, Closing, ClosesId;
    ReadId(x);
    var close := FindClose(x, "ObjectID", 1);
    var o := close.found.value;
    assert BrowseArgs(id, start, count)[0] == Arg("ObjectID", id);
    assert Unescape(Trim(x[..o])) == id;
    UnescapeLength(Trim(x[..o]));
    TrimLength(x[..o]);
    BehindClosesId(start, count);
    OnlyOwnClose(id, Behind(start, count), x, o);
    assert x[..o] == id;
  }

  lemma OuterTags(id: string, start: nat, count: nat, v: string, x0: string, x1: string, x2: string)
    requires Closing(v) && x2 == id + v && FindClose(x2, "ObjectID", 1).found == Some(|id|)
    requires Inside(id + Behind(start, count), "s:Envelope") == Some(x0) && Inside(x0, "s:Body") == Some(x1)
    requires Inside(x1, "u:Browse") == Some(x2) && |id| <= |x2| <= |x1| <= |x0|
    ensures EnclosedInAll(id)
  {
    hide Inside, FindClose, Enclosed, Passes, Closing, EndText, IsQName, TagFree, Attributes, LocalName, PrefixOf,
      FindXmlns, BehindInAction, ActionAttrs, EnvelopeAttrs;
    Names();
    EndsClose();
    AllBehindCloses(start, count);
    BehindPasses(start, count, "s:Envelope");
    BehindPasses(start, count, "s:Body");
    BehindPasses(start, count, "u:Browse");
    CloseKeepsEnclosed(id, v, BehindInEnvelope(start, count), "s:Envelope", "\n");
    CloseKeepsEnclosed(id, v, BehindInBody(start, count), "s:Body", "\n");
    CloseKeepsEnclosed(id, v, BehindInAction(start, count), "u:Browse", "\n  ");
    OwnTag(id, v);
  }

  lemma OwnTag(id: string, v: string)
    requires Closing(v) && FindClose(id + v, "ObjectID", 1).found == Some(|id|)
    ensures Enclosed(id, "ObjectID")
  {
    hide FindClose, Closing, EndText, IsQName, Attributes, LocalName, PrefixOf, FindXmlns, TagFree, ActionAttrs,
      EnvelopeAttrs;
    Names();
    EndsClose();
    ComesThrough(id, v, EndText("ObjectID"), "ObjectID", 1);
    EndHere("ObjectID", "");
    assert EndText("ObjectID") + "" == EndText("ObjectID");
  }

  /** A request arrives as it was written exactly for these ids. */
  lemma ArrivesExactly(id: string, start: nat, count: nat)
    ensures Parse(BrowseRequestDocument(id, start, count).Render()).result ==
            Ok(Request(CONTENT_DIRECTORY, "Browse", BrowseArgs(id, start, count)))
            <==> EnclosedInAll(id) && NoOuterSpace(id) && !HoldsEntity(id)
  {
    hide Parse, Document.Render, BrowseRequestDocument, BrowseArgs, EnclosedInAll, Unescape, Trim, NoOuterSpace,
      HoldsEntity;
    ObjectIdSurvives(id);
    if Parse(BrowseRequestDocument(id, start, count).Render()).result ==
       Ok(Request(CONTENT_DIRECTORY, "Browse", BrowseArgs(id, start, count))) {
      ReadsItsOwnTags(id, start, count);
    }
    if EnclosedInAll(id) {
      RequestRoundTrip(id, start, count);
    }
  }

  // ---------- ids with a bracket ----------

  /** Each `<` stands in front of something that begins no tag, no comment and no CDATA section. */
  predicate LoneBrackets(id: string) {
    forall k :: 0 <= k < |id| && id[k] == '<' && k + 1 < |id| ==>
      id[k + 1] != '/' && id[k + 1] != '!' && !IsNameStart(id[k + 1])
  }

  lemma LexOne(t: string)
    requires t != []
    requires t[0] == '<' ==> |t| > 1 && t[1] != '/' && t[1] != '!' && !IsNameStart(t[1])
    ensures Lex(t).Text? || Lex(t).Stray?
  {
    hide Find, TagClose, NameLength;
  }

  lemma {:induction false} LonePasses(id: string, q: string)
    requires LoneBrackets(id) && IsQName(q)
    ensures FindClose(id + EndText(q), q, 1) == Scan(Some(|id|), |id| + |q| + 3)
  {
    hide FindClose, Lex, IsQName, EndText;
    var t := id + EndText(q);
    EndHere(q, "");
    assert EndText(q) + "" == EndText(q);
    if id == [] {
      assert t == EndText(q);
    } else {
      assert EndText(q)[0] == '<' by { EndBegins(q); }
      assert t[1] == if |id| > 1 then id[1] else EndText(q)[0];
      LexOne(t);
      FindCloseStep(t, q, 1);
      assert t[1..] == id[1..] + EndText(q);
      LonePasses(id[1..], q);
    }
  }

  lemma EndBegins(q: string)
    ensures EndText(q)[0] == '<'
  {}

  /** Lone brackets do no harm. */
  lemma LoneBracketsAreEnclosed(id: string)
    requires LoneBrackets(id)
    ensures EnclosedInAll(id)
  {
    hide FindClose, EndText, LoneBrackets, IsQName, Attributes, LocalName, PrefixOf, FindXmlns, TagFree, ActionAttrs,
      EnvelopeAttrs;
    Names();
    forall q | q == "ObjectID" || q == "u:Browse" || q == "s:Body" || q == "s:Envelope" ensures Enclosed(id, q) {
      LonePasses(id, q);
    }
  }

  /** An id that holds its own closing tag ends there. */
  lemma OwnCloseIsLost(before: string, after: string)
    requires TagFree(before)
    ensures !EnclosedInAll(before + (EndText("ObjectID") + after))
  {
    hide FindClose, Passes, EndText, IsQName, TagFree, Attributes, LocalName, PrefixOf, FindXmlns, ActionAttrs,
      EnvelopeAttrs;
    Names();
    var end := EndText("ObjectID");
    PassText(before, "ObjectID");
    ClosesBehind(before, "ObjectID", after + end);
    assert before + (end + after) + end == before + (end + (after + end));
    EndLength("ObjectID");
  }

  /** An id that ends in an open tag takes the closing tag behind it for the inside of that tag. */
  lemma OpenTagIsLost(before: string, name: string)
    requires TagFree(before) && IsQName(name)
    ensures !EnclosedInAll(before + ("<" + name))
  {
    hide FindClose, Lex, Passes, IsQName, TagFree, Attributes, EndText, StartText;
    var q, swallowed := "ObjectID", "</ObjectID";
    SwallowedIsInside();
    Swallows(before, name);
    LexStart(name, swallowed, "");
    PassText(before, q);
    PassAt(before, q, StartText(name, swallowed) + "");
    FindCloseStep(StartText(name, swallowed) + "", q, 1);
    FindCloseStep("", q, 1 + Delta(StartTag(TagOf(name, swallowed)), q));
    TagLength(name, swallowed);
  }

  lemma SwallowedIsInside()
    ensures Attributes("</ObjectID")
  {
    NeutralPlain("</ObjectID");
  }

  lemma Swallows(before: string, name: string)
    ensures before + ("<" + name) + EndText("ObjectID") == before + (StartText(name, "</ObjectID") + "")
  {}

  lemma TagLength(name: string, attrs: string)
    ensures var t := StartText(name, attrs) + ""; |t| == |name| + |attrs| + 2 && t[|name| + |attrs| + 2..] == ""
  {}

  /** `a<b` has no outer white space and holds no entity, and it does not arrive. */
  lemma MarkupIsLost(start: nat, count: nat)
    ensures NoOuterSpace("a<b") && !HoldsEntity("a<b")
    ensures Parse(BrowseRequestDocument("a<b", start, count).Render()).result !=
            Ok(Request(CONTENT_DIRECTORY, "Browse", BrowseArgs("a<b", start, count)))
  {
    hide Parse, Document.Render, BrowseRequestDocument, BrowseArgs, EnclosedInAll;
    assert "a" + ("<" + "b") == "a<b";
    OpenTagIsLost("a", "b");
    ArrivesExactly("a<b", start, count);
  }
}
