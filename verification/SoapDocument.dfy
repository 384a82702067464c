/**
 Flat SOAP envelopes as the program and its client write them, and what the parser reads in one: white
 space between the tags, one action element in the body, and one level of argument elements.
 */
module SoapDocument {
  import opened Wrappers
  import opened Text
  import opened XmlText
  import opened XmlLexer
  import opened SoapParser

  function StartText(name: string, attrs: string): string {
    "<" + name + attrs + ">"
  }

  function EndText(name: string): string {
    "</" + name + ">"
  }

  /** An argument element with the text in front of it. */
  datatype Field = Field(gap: string, name: string, raw: string)

  function RenderFields(fields: seq<Field>): string {
    if fields == [] then []
    else
      var f := fields[0];
      f.gap + (StartText(f.name, "") + (f.raw + (EndText(f.name) + RenderFields(fields[1..]))))
  }

  datatype Document = Document(
    lead: string, attrs: string, gap1: string, gap2: string, action: string, urn: string,
    fields: seq<Field>, gap3: string, gap4: string, gap5: string, tail: string)
  {
    function ActionAttrs(): string {
      " xmlns:u=\"" + urn + "\""
    }

    function Arguments(): string {
      RenderFields(fields) + gap3
    }

    function Body(): string {
      gap2 + (StartText("u:" + action, ActionAttrs()) + (Arguments() + (EndText("u:" + action) + gap4)))
    }

    function Envelope(): string {
      gap1 + (StartText("s:Body", "") + (Body() + (EndText("s:Body") + gap5)))
    }

    function Render(): string {
      DECLARATION + (lead + (StartText("s:Envelope", attrs) + (Envelope() + (EndText("s:Envelope") + tail))))
    }

    predicate WellFormed() {
      && (forall c :: c in lead ==> IsSpace(c))
      && TagFree(gap1) && TagFree(gap2) && TagFree(gap3) && TagFree(gap4) && TagFree(gap5)
      && Attributes(attrs)
      && IsName(action)
      && '"' !in urn
      && forall f :: f in fields ==> TagFree(f.gap) && IsName(f.name) && TagFree(f.raw)
    }

    /** What the document says: the request that its parse must yield. */
    function Meaning(): Request {
      Request(urn, action, Args(fields))
    }
  }

  const VERSION_PART := "?xml version=\"1.0\""
  const ENCODING_PART := " encoding=\"utf-8\""
  const DECLARATION := "<" + VERSION_PART + ENCODING_PART + "?>"

  predicate TagFree(x: string) {
    '<' !in x
  }

  /** A colon-free XML name of the characters that the parser knows. */
  predicate IsName(n: string) {
    n != [] && IsNameStart(n[0]) && forall c :: c in n ==> IsNamePart(c)
  }

  predicate IsQName(n: string) {
    n != [] && IsNameStart(n[0]) && forall c :: c in n ==> IsQNamePart(c)
  }

  /** Letters, digits, underscores, dots and dashes, the first of them a letter or an underscore. */
  lemma NameExactly(n: string)
    ensures IsName(n) <==>
            && n != "" && (forall k :: 0 <= k < |n| ==> IsAlnum(n[k]) || n[k] in "_.-")
            && !IsDigit(n[0]) && n[0] !in ".-"
    ensures IsName(n) <==> IsQName(n) && ':' !in n
  {
    hide IsAlnum;
    forall k | 0 <= k < |n| ensures IsNamePart(n[k]) <==> IsAlnum(n[k]) || n[k] in "_.-" {
      MarksExactly(n[k]);
    }
    assert forall c :: c in n <==> exists k :: 0 <= k < |n| && n[k] == c;
    if n != "" {
      MarksExactly(n[0]);
    }
  }

  lemma MarksExactly(c: char)
    ensures IsNamePart(c) <==> IsAlnum(c) || c in "_.-"
    ensures IsNameStart(c) <==> IsNamePart(c) && !IsDigit(c) && c !in ".-"
    ensures IsQNamePart(c) <==> IsNamePart(c) || c == ':'
  {
    var marks, inner := "_.-", ".-";
    assert marks[0] == '_' && marks[1] == '.' && marks[2] == '-';
    assert inner[0] == '.' && inner[1] == '-';
  }

  /** Read in quoting state `quote`, this text ends no tag and leaves every quote it is in closed. */
  predicate Neutral(a: string, quote: Option<char> := None) {
    if a == [] then quote.None?
    else !(quote.None? && a[0] == '>') && Neutral(a[1..], NextQuote(quote, a[0]))
  }

  predicate Attributes(a: string) {
    (a == [] || (!IsQNamePart(a[0]) && a[|a| - 1] != '/')) && Neutral(a)
  }

  // ---------- single tags ----------

  lemma {:induction false} NeutralSkips(a: string, quote: Option<char>, rest: string)
    requires Neutral(a, quote)
    ensures TagClose(a + rest, quote) == Shift(|a|, TagClose(rest))
  {
    if a == [] {
      assert a + rest == rest;
    } else {
      assert (a + rest)[1..] == a[1..] + rest;
      NeutralSkips(a[1..], NextQuote(quote, a[0]), rest);
    }
  }

  lemma {:induction false} NeutralConcat(a: string, quote: Option<char>, b: string)
    requires Neutral(a, quote) && Neutral(b)
    ensures Neutral(a + b, quote)
  {
    if a == [] {
      assert a + b == b;
    } else {
      assert (a + b)[1..] == a[1..] + b;
      NeutralConcat(a[1..], NextQuote(quote, a[0]), b);
    }
  }

  lemma {:induction false} NeutralPlain(a: string)
    requires forall c :: c in a ==> c != '>' && c != '"' && c != '\''
    ensures Neutral(a)
  {
    if a != [] {
      assert a[0] in a && forall c :: c in a[1..] ==> c in a;
      NeutralPlain(a[1..]);
    }
  }

  lemma {:induction false} InsideQuotes(v: string)
    requires '"' !in v
    ensures Neutral(v + "\"", Some('"'))
  {
    var t := v + "\"";
    if v == [] {
      assert t[1..] == [];
    } else {
      assert v[0] in v && t[1..] == v[1..] + "\"";
      InsideQuotes(v[1..]);
    }
  }

  /** ` name="value"`, the one form in which the program writes attributes. */
  lemma NeutralAttribute(name: string, value: string)
    requires forall c :: c in name ==> c != '>' && c != '"' && c != '\''
    requires '"' !in value
    ensures Neutral(" " + name + "=\"" + value + "\"")
  {
    var head := " " + name + "=";
    var quoted := "\"" + (value + "\"");
    NeutralPlain(head);
    InsideQuotes(value);
    assert quoted[1..] == value + "\"";
    NeutralConcat(head, None, quoted);
    assert head + quoted == " " + name + "=\"" + value + "\"";
  }

  lemma {:induction false} NameLengthOf(n: string, rest: string)
    requires forall c :: c in n ==> IsQNamePart(c)
    requires rest == [] || !IsQNamePart(rest[0])
    ensures NameLength(n + rest) == |n|
  {
    if n == [] {
      assert n + rest == rest;
    } else {
      assert n[0] in n && (n + rest)[1..] == n[1..] + rest;
      NameLengthOf(n[1..], rest);
    }
  }

  function TagOf(name: string, attrs: string): OpenTag {
    OpenTag(name, attrs, |name| + |attrs| + 2, false)
  }

  lemma ReadFrom(t: string, n: nat, c: nat)
    requires 2 <= n <= |t| && t[0] == '<' && IsNameStart(t[1])
    requires NameLength(t[1..]) == n - 1 && TagClose(t[n..]) == Some(c) && t[n + c - 1] != '/'
    ensures ReadOpenTag(t) == Some(OpenTag(t[1..n], t[n..n + c], n + c + 1, false))
  {
    hide TagClose, NameLength;
  }

  lemma StartParts(name: string, attrs: string, rest: string)
    requires IsQName(name) && Attributes(attrs)
    ensures var t := StartText(name, attrs) + rest;
            var n := 1 + |name|;
            && |t| > n + |attrs| && t[0] == '<' && t[1] == name[0] && t[1..] == name + (attrs + (">" + rest))
                 && t[n..] == attrs + (">" + rest)
            && t[1..n] == name && t[n..n + |attrs|] == attrs
            && t[n + |attrs| - 1] == if attrs == [] then name[|name| - 1] else attrs[|attrs| - 1]
  {
    hide Neutral;
  }

  lemma ReadStart(name: string, attrs: string, rest: string)
    requires IsQName(name) && Attributes(attrs)
    ensures ReadOpenTag(StartText(name, attrs) + rest) == Some(TagOf(name, attrs))
  {
    hide TagClose, NameLength, ReadOpenTag, Neutral, StartText;
    StartParts(name, attrs, rest);
    var end := attrs + (">" + rest);
    assert end[0] == if attrs == [] then '>' else attrs[0];
    assert IsNameStart(name[0]);
    NameLengthOf(name, end);
    NeutralSkips(attrs, None, ">" + rest);
    ClosesHere(rest);
    assert name[|name| - 1] in name;
    ReadFrom(StartText(name, attrs) + rest, 1 + |name|, |attrs|);
  }

  lemma ClosesHere(rest: string)
    ensures TagClose(">" + rest) == Some(0)
  {}

  lemma LexStart(name: string, attrs: string, rest: string)
    requires IsQName(name) && Attributes(attrs)
    ensures Lex(StartText(name, attrs) + rest) == StartTag(TagOf(name, attrs))
  {
    hide ReadOpenTag, TagClose, Find;
    var t := StartText(name, attrs) + rest;
    assert t[0] == '<' && t[1] == name[0];
    ReadStart(name, attrs, rest);
  }

  lemma LexEnd(name: string, rest: string)
    requires IsQName(name)
    ensures Lex(EndText(name) + rest) == EndTag(name, |name| + 3)
  {
    hide ReadOpenTag, TagClose, Find, Trim;
    var t := EndText(name) + rest;
    assert t[0] == '<' && t[1] == '/';
    assert TagClose(t) == Some(2 + |name|) by {
      NeutralPlain("</" + name);
      NeutralSkips("</" + name, None, ">" + rest);
      ClosesHere(rest);
      assert t == ("</" + name) + (">" + rest);
    }
    assert t[2..2 + |name|] == name;
    assert Trim(name) == name by {
      assert name[0] in name && name[|name| - 1] in name;
      TrimFixedPoint(name);
    }
  }

  // ---------- text and elements that a search for a closing tag walks over ----------

  ghost predicate Passes(x: string, q: string) {
    forall rest, depth: nat :: depth > 0 ==> FindClose(x + rest, q, depth) == Ahead(|x|, FindClose(rest, q, depth))
  }

  lemma {:induction false} PassText(x: string, q: string)
    requires TagFree(x)
    ensures Passes(x, q)
  {
    hide FindClose;
    forall rest, depth: nat | depth > 0
      ensures FindClose(x + rest, q, depth) == Ahead(|x|, FindClose(rest, q, depth))
    {
      if x == [] {
        assert x + rest == rest;
      } else {
        assert x[0] in x && (x + rest)[1..] == x[1..] + rest;
        FindCloseStep(x + rest, q, depth);
        PassText(x[1..], q);
        AheadTwice(1, |x| - 1, FindClose(rest, q, depth));
      }
    }
  }

  lemma PassConcat(x: string, y: string, q: string)
    requires Passes(x, q) && Passes(y, q)
    ensures Passes(x + y, q)
  {
    hide FindClose;
    forall rest, depth: nat | depth > 0
      ensures FindClose(x + y + rest, q, depth) == Ahead(|x + y|, FindClose(rest, q, depth))
    {
      assert x + y + rest == x + (y + rest);
      AheadTwice(|x|, |y|, FindClose(rest, q, depth));
    }
  }

  lemma PassStart(name: string, attrs: string, q: string)
    requires IsQName(name) && Attributes(attrs) && name != q
    ensures Passes(StartText(name, attrs), q)
  {
    hide FindClose, Lex;
    var x := StartText(name, attrs);
    forall rest, depth: nat | depth > 0
      ensures FindClose(x + rest, q, depth) == Ahead(|x|, FindClose(rest, q, depth))
    {
      LexStart(name, attrs, rest);
      FindCloseStep(x + rest, q, depth);
      assert (x + rest)[|x|..] == rest;
    }
  }

  lemma PassEnd(name: string, q: string)
    requires IsQName(name) && name != q
    ensures Passes(EndText(name), q)
  {
    hide FindClose, Lex;
    var x := EndText(name);
    forall rest, depth: nat | depth > 0
      ensures FindClose(x + rest, q, depth) == Ahead(|x|, FindClose(rest, q, depth))
    {
      LexEnd(name, rest);
      FindCloseStep(x + rest, q, depth);
      assert (x + rest)[|x|..] == rest;
    }
  }

  /** A whole element with text on either side. */
  lemma PassAround(before: string, name: string, attrs: string, content: string, after: string, q: string)
    requires TagFree(before) && TagFree(after)
    requires IsQName(name) && Attributes(attrs) && name != q && Passes(content, q)
    ensures Passes(before + (StartText(name, attrs) + (content + (EndText(name) + after))), q)
  {
    hide *;
    var start, end := StartText(name, attrs), EndText(name);
    PassStart(name, attrs, q);
    PassEnd(name, q);
    PassText(before, q);
    PassText(after, q);
    PassConcat(end, after, q);
    PassConcat(content, end + after, q);
    PassConcat(start, content + (end + after), q);
    PassConcat(before, start + (content + (end + after)), q);
  }

  /** Content that a search walks over ends at the closing tag behind it. */
  lemma ClosesBehind(x: string, q: string, rest: string)
    requires IsQName(q) && Passes(x, q)
    ensures FindClose(x + (EndText(q) + rest), q, 1) == Scan(Some(|x|), |x| + |q| + 3)
  {
    hide FindClose, Lex, Passes, EndText;
    var end := EndText(q) + rest;
    LexEnd(q, rest);
    FindCloseStep(end, q, 1);
    PassAt(x, q, end);
  }

  lemma PassAt(x: string, q: string, rest: string)
    requires Passes(x, q)
    ensures FindClose(x + rest, q, 1) == Ahead(|x|, FindClose(rest, q, 1))
  {
    hide FindClose;
  }

  // ---------- the next element ----------

  lemma {:induction false} NextAfterText(x: string, rest: string)
    requires TagFree(x)
    ensures NextElement(x + rest) == SkipInto(|x|, NextElement(rest))
  {
    hide NextElement;
    if x == [] {
      assert x + rest == rest;
    } else {
      assert x[0] in x && (x + rest)[1..] == x[1..] + rest;
      NextElementStep(x + rest);
      NextAfterText(x[1..], rest);
      SkipTwice(1, |x| - 1, NextElement(rest));
    }
  }

  lemma NextAt(gap: string, name: string, attrs: string, rest: string)
    requires TagFree(gap) && IsQName(name) && Attributes(attrs)
    ensures var t := gap + (StartText(name, attrs) + rest);
            var el := NextElement(t);
            && el == Scan(Some(Element(|gap|, TagOf(name, attrs))), |gap| + |StartText(name, attrs)|)
            && el.cost <= |t| && t[el.cost..] == rest
  {
    hide NextElement, Lex;
    NextAfterText(gap, StartText(name, attrs) + rest);
    LexStart(name, attrs, rest);
    NextElementStep(StartText(name, attrs) + rest);
  }

  lemma NextInText(x: string)
    requires TagFree(x)
    ensures NextElement(x).found.None?
  {
    NextAfterText(x, []);
    assert x + [] == x;
  }

  // ---------- the whole document ----------

  lemma PrefixedName(p: string, n: string)
    requires IsName(p) && IsName(n)
    ensures IsQName(p + ":" + n) && LocalName(p + ":" + n) == n && PrefixOf(p + ":" + n) == p
  {
    assert forall c :: c in p + ":" + n ==> c in p || c == ':' || c in n;
    QNameParts(p, n);
  }

  lemma PlainName(n: string)
    requires IsName(n)
    ensures IsQName(n) && LocalName(n) == n && ':' !in n
  {
    assert forall c :: c in n ==> IsNamePart(c) && c != ':';
    if LastColon(n).Some? {
      assert n[LastColon(n).value] in n;
    }
  }

  lemma Literals()
    ensures IsName("s") && IsName("u") && IsName("Body") && IsName("Envelope")
    ensures Attributes("")
    ensures "s" + ":" + "Body" == "s:Body" && "s" + ":" + "Envelope" == "s:Envelope"
  {}

  lemma FieldTags(fields: seq<Field>)
    requires fields != []
    requires forall f :: f in fields ==> TagFree(f.gap) && IsName(f.name) && TagFree(f.raw)
    ensures TagFree(fields[0].gap) && IsName(fields[0].name) && TagFree(fields[0].raw)
    ensures forall f :: f in fields[1..] ==> TagFree(f.gap) && IsName(f.name) && TagFree(f.raw)
  {
    assert fields[0] in fields;
  }

  lemma {:induction false} PassFields(fields: seq<Field>, q: string)
    requires forall f :: f in fields ==> TagFree(f.gap) && IsName(f.name) && TagFree(f.raw)
    requires ':' in q
    ensures Passes(RenderFields(fields), q)
  {
    hide Passes;
    if fields == [] {
      PassText([], q);
    } else {
      FieldTags(fields);
      var f, rest := fields[0], RenderFields(fields[1..]);
      PlainName(f.name);
      PassText(f.raw, q);
      PassFields(fields[1..], q);
      PassAround(f.gap, f.name, "", f.raw, "", q);
      var element := f.gap + (StartText(f.name, "") + (f.raw + (EndText(f.name) + "")));
      PassConcat(element, rest, q);
      assert RenderFields(fields) == element + rest;
    }
  }

  function Args(fields: seq<Field>): seq<Arg> {
    seq(|fields|, i requires 0 <= i < |fields| => Arg(fields[i].name, Unescape(Trim(fields[i].raw))))
  }

  lemma {:induction false} ParseFields(fields: seq<Field>, gap: string)
    requires forall f :: f in fields ==> TagFree(f.gap) && IsName(f.name) && TagFree(f.raw)
    requires TagFree(gap)
    ensures ParseArgs(RenderFields(fields) + gap).result == Ok(Args(fields))
  {
    hide NextElement, FindClose, LocalName, Unescape, Trim, ParseArgs, StartText, EndText, Passes, RenderFields;
    var t := RenderFields(fields) + gap;
    ParseArgsStep(t);
    if fields == [] {
      NoFields(gap);
      NextInText(gap);
    } else {
      FieldTags(fields);
      var f, rest := fields[0], RenderFields(fields[1..]) + gap;
      PlainName(f.name);
      var inner := f.raw + (EndText(f.name) + rest);
      FirstField(fields, gap);
      NextAt(f.gap, f.name, "", inner);
      PassText(f.raw, f.name);
      ClosesBehind(f.raw, f.name, rest);
      EndLength(f.name);
      InnerParts(f.raw, EndText(f.name), rest);
      ParseFields(fields[1..], gap);
      assert Args(fields) == [Arg(f.name, Unescape(Trim(f.raw)))] + Args(fields[1..]);
    }
  }

  lemma NoFields(gap: string)
    ensures RenderFields([]) + gap == gap
  {}

  lemma FirstField(fields: seq<Field>, gap: string)
    requires fields != []
    ensures var f := fields[0];
            RenderFields(fields) + gap ==
            f.gap + (StartText(f.name, "") + (f.raw + (EndText(f.name) + (RenderFields(fields[1..]) + gap))))
  {
    hide StartText, EndText;
  }

  lemma InnerParts(raw: string, end: string, rest: string)
    ensures var inner := raw + (end + rest); inner[|raw| + |end|..] == rest && inner[..|raw|] == raw
  {}

  lemma EndLength(name: string)
    ensures |EndText(name)| == |name| + 3
  {}

  /** ` name="value"` at the end of an attribute span is read back as it was written. */
  lemma ReadLastAttribute(name: string, value: string)
    requires IsQName(name) && '"' !in value
    ensures ReadAttribute(" " + name + "=\"" + value + "\"") == Some(Attribute(name, value, []))
  {
    hide ReadAttributeName, ReadAttributeValue;
    var v := "\"" + value + "\"";
    assert " " + name + "=\"" + value + "\"" == " " + (name + ("=" + v));
    ReadNamePart(name, v);
    ReadValuePart(value);
  }

  lemma ReadNamePart(name: string, v: string)
    requires IsQName(name)
    ensures ReadAttributeName(" " + (name + ("=" + v))) == Some(Piece(name, v))
  {
    hide TrimLeft, NameLength;
    var u := "=" + v;
    var t := name + u;
    assert (" " + t)[1..] == t && t[|name|..] == u && t[..|name|] == name && u[1..] == v;
    SkipOneSpace(" " + t);
    NoLeadingSpace(t);
    NoLeadingSpace(u);
    NameLengthOf(name, u);
  }

  lemma ReadValuePart(value: string)
    requires '"' !in value
    ensures ReadAttributeValue("\"" + value + "\"") == Some(Piece(value, []))
  {
    hide TrimLeft, ValueLength;
    var v := "\"" + value + "\"";
    NoLeadingSpace(v);
    assert v[1..] == value + "\"";
    ValueEndsAt(value);
    assert v[1..1 + |value|] == value && v[2 + |value|..] == [];
  }

  lemma SkipOneSpace(s: string)
    requires s != [] && s[0] == ' '
    ensures TrimLeft(s) == TrimLeft(s[1..])
  {}

  lemma NoLeadingSpace(s: string)
    requires s != [] && !IsSpace(s[0])
    ensures TrimLeft(s) == s
  {}

  /** The action element's own declaration is the one that names the service. */
  lemma ActionNamespace(urn: string)
    requires '"' !in urn
    ensures FindXmlns(" xmlns:u=\"" + urn + "\"", "u") == Some(urn)
  {
    hide FindXmlns, ReadAttribute;
    ReadLastAttribute("xmlns:u", urn);
    assert " " + "xmlns:u" + "=\"" + urn + "\"" == " xmlns:u=\"" + urn + "\"";
    FindXmlnsStep(" xmlns:u=\"" + urn + "\"", "u");
  }

  lemma {:induction false} FindXmlnsStep(attrs: string, prefix: string)
    ensures FindXmlns(attrs, prefix) ==
            match ReadAttribute(attrs)
            case None => None
            case Some(a) => if Declares(a.name, prefix) then Some(a.value) else FindXmlns(a.rest, prefix)
  {
    hide ReadAttribute;
  }

  lemma {:induction false} ValueEndsAt(v: string)
    requires '"' !in v
    ensures ValueLength(v + "\"", '"') == |v|
  {
    if v != [] {
      assert v[0] in v && (v + "\"")[1..] == v[1..] + "\"";
      ValueEndsAt(v[1..]);
    }
  }

  lemma {:induction false} SkipSpaceLead(lead: string, rest: string)
    requires forall c :: c in lead ==> IsSpace(c)
    requires rest != [] && rest[0] == '<'
    ensures TrimLeft(lead + rest) == rest
  {
    if lead == [] {
      assert lead + rest == rest;
    } else {
      assert lead[0] in lead && (lead + rest)[0] == lead[0] && (lead + rest)[1..] == lead[1..] + rest;
      SkipSpaceLead(lead[1..], rest);
    }
  }

  lemma {:induction false} SkipMetaStep(s: string)
    ensures SkipMeta(s) ==
            var t := StripPrologue(s);
            var m := MetaAt(t);
            if m.NoMeta? then t else if m.UnclosedMeta? then [] else SkipMeta(t[m.length..])
  {
    hide MetaAt, StripPrologue;
  }

  function DeclarationHead(): string {
    "<" + VERSION_PART + ENCODING_PART
  }

  lemma DeclarationShape()
    ensures DECLARATION == DeclarationHead() + "?>"
    ensures |DeclarationHead()| > 3 && DECLARATION[0] == '<' && DECLARATION[1] == '?'
    ensures '>' !in DeclarationHead() && DeclarationHead()[|DeclarationHead()| - 1] == '"'
    ensures TagFree(DECLARATION[1..])
  {
    PlainParts();
    assert DECLARATION[1..] == VERSION_PART + ENCODING_PART + "?>";
  }

  lemma PlainParts()
    ensures forall c :: c in VERSION_PART || c in ENCODING_PART ==> c != '<' && c != '>'
  {
    assert forall k :: 0 <= k < |VERSION_PART| ==> VERSION_PART[k] != '<' && VERSION_PART[k] != '>';
    assert forall k :: 0 <= k < |ENCODING_PART| ==> ENCODING_PART[k] != '<' && ENCODING_PART[k] != '>';
  }

  /** The parser reaches the envelope behind the declaration and the white space after it. */
  lemma ReachEnvelope(lead: string, rest: string)
    requires forall c :: c in lead ==> IsSpace(c)
    requires |rest| > 1 && rest[0] == '<' && IsNameStart(rest[1])
    ensures SkipMeta(DECLARATION + (lead + rest)) == rest
  {
    hide Find, TagClose, SkipMeta, TrimLeft, DeclarationHead;
    var head, more := DeclarationHead(), lead + rest;
    var s := DECLARATION + more;
    DeclarationShape();
    NoLeadingSpace(s);
    assert s[0] == '<' && s[1] == '?';
    FindAfter(head, '?', more);
    assert s == head + ['?', '>'] + more && s[|head| + 2..] == more;
    SkipMetaStep(s);
    ReachTag(lead, rest);
  }

  lemma ReachTag(lead: string, rest: string)
    requires forall c :: c in lead ==> IsSpace(c)
    requires |rest| > 1 && rest[0] == '<' && IsNameStart(rest[1])
    ensures SkipMeta(lead + rest) == rest
  {
    hide Find, TagClose, SkipMeta, TrimLeft;
    SkipSpaceLead(lead, rest);
    assert !(BOM <= lead + rest) by {
      assert (lead + rest)[0] == if lead == [] then '<' else lead[0];
      if lead != [] { assert lead[0] in lead; }
    }
    SkipMetaStep(lead + rest);
  }

  lemma ActionTag(d: Document)
    requires d.WellFormed()
    ensures var q := "u:" + d.action;
            IsQName(q) && LocalName(q) == d.action && PrefixOf(q) == "u" && ':' in q && q[0] == 'u'
    ensures Attributes(d.ActionAttrs()) && FindXmlns(d.ActionAttrs(), "u") == Some(d.urn)
  {
    hide Neutral, FindXmlns, LocalName, PrefixOf;
    assert "u:" + d.action == "u" + ":" + d.action;
    Literals();
    PrefixedName("u", d.action);
    NeutralAttribute("xmlns:u", d.urn);
    assert d.ActionAttrs() == " " + "xmlns:u" + "=\"" + d.urn + "\"";
    ActionNamespace(d.urn);
  }

  /** The argument elements hold no tag with a prefix. */
  lemma PassArguments(d: Document, q: string)
    requires d.WellFormed() && ':' in q
    ensures Passes(d.Arguments(), q)
  {
    hide Passes, RenderFields;
    PassFields(d.fields, q);
    PassText(d.gap3, q);
    PassConcat(RenderFields(d.fields), d.gap3, q);
  }

  /** The action element and its arguments, whatever text surrounds it in the body. */
  lemma ParseActionDocument(d: Document)
    requires d.WellFormed()
    ensures ParseAction(d.Body()).result == Ok(d.Meaning())
  {
    hide NextElement, FindClose, LocalName, PrefixOf, FindXmlns, ParseArgs, StartText, EndText, Passes, Neutral,
      RenderFields, IsName, Attributes;
    var q := "u:" + d.action;
    ActionTag(d);
    PassArguments(d, q);
    var behind := EndText(q) + d.gap4;
    NextAt(d.gap2, q, d.ActionAttrs(), d.Arguments() + behind);
    ClosesBehind(d.Arguments(), q, d.gap4);
    assert (d.Arguments() + behind)[..|d.Arguments()|] == d.Arguments();
    ParseFields(d.fields, d.gap3);
  }

  lemma PassBody(d: Document, q: string)
    requires d.WellFormed() && ':' in q && q != [] && q[0] == 's'
    ensures Passes(d.Body(), q)
  {
    hide StartText, EndText, Passes, RenderFields, IsName, IsQName, Attributes, FindXmlns;
    ActionTag(d);
    PassArguments(d, q);
    PassAround(d.gap2, "u:" + d.action, d.ActionAttrs(), d.Arguments(), d.gap4, q);
  }

  lemma LocateDocumentBody(d: Document)
    requires d.WellFormed()
    ensures LocateBody(d.Envelope()).result == Ok(d.Body())
  {
    hide NextElement, FindClose, LocalName, StartText, EndText, Passes, Neutral;
    Literals();
    PrefixedName("s", "Body");
    NextAt(d.gap1, "s:Body", "", d.Body() + (EndText("s:Body") + d.gap5));
    PassBody(d, "s:Body");
    ClosesBehind(d.Body(), "s:Body", d.gap5);
    assert (d.Body() + (EndText("s:Body") + d.gap5))[..|d.Body()|] == d.Body();
  }

  lemma PassEnvelope(d: Document)
    requires d.WellFormed()
    ensures Passes(d.Envelope(), "s:Envelope")
  {
    hide StartText, EndText, Passes, Neutral;
    var q := "s:Envelope";
    Literals();
    PrefixedName("s", "Body");
    PassBody(d, q);
    PassAround(d.gap1, "s:Body", "", d.Body(), d.gap5, q);
  }

  /** Every well-formed document parses to its meaning. */
  lemma ParseDocument(d: Document)
    requires d.WellFormed()
    ensures Parse(d.Render()).result == Ok(d.Meaning())
  {
    hide FindClose, LocalName, Passes, Neutral, ReadOpenTag, SkipMeta, LocateBody, ParseAction;
    Literals();
    PrefixedName("s", "Envelope");
    var inner := d.Envelope() + (EndText("s:Envelope") + d.tail);
    var rest := StartText("s:Envelope", d.attrs) + inner;
    assert rest[0] == '<' && rest[1] == 's';
    ReachEnvelope(d.lead, rest);
    ReadStart("s:Envelope", d.attrs, inner);
    assert rest[|"s:Envelope"| + |d.attrs| + 2..] == inner;
    PassEnvelope(d);
    ClosesBehind(d.Envelope(), "s:Envelope", d.tail);
    assert inner[..|d.Envelope()|] == d.Envelope();
    LocateDocumentBody(d);
    ParseActionDocument(d);
  }
}
