/**
 The forms that a SOAP request may take: attributes in either quotes with blanks about them, empty elements,
 comments and CDATA sections between elements, headers, and what may stand in front of the envelope.
 */
module SoapForms {
  import opened Wrappers
  import opened Text
  import opened XmlText
  import opened XmlLexer
  import opened SoapParser
  import opened SoapDocument

  // ---------- forms and their text ----------

  datatype Name = Name(prefix: string, local: string) {
    function Text(): string {
      if prefix == "" then local else prefix + ":" + local
    }

    predicate Valid() {
      (prefix == "" || IsName(prefix)) && IsName(local)
    }
  }

  /** ` name = "value"`, with blanks where XML allows them, in either quotes. */
  datatype Attr = Attr(before: string, name: string, left: string, right: string, quote: char, value: string) {
    function Text(): string {
      before + name + left + "=" + right + [quote] + value + [quote]
    }

    predicate Valid() {
      && before != "" && Spaces(before) && IsQName(name) && Spaces(left) && Spaces(right)
      && (quote == '"' || quote == '\'') && quote !in value
    }
  }

  predicate Spaces(s: string) {
    forall c :: c in s ==> IsSpace(c)
  }

  function AttrsText(attrs: seq<Attr>): string {
    if attrs == [] then "" else attrs[0].Text() + AttrsText(attrs[1..])
  }

  /** What stands in a tag; `pad` is the blank in front of its end. */
  datatype TagForm = TagForm(name: Name, attrs: seq<Attr>, pad: string) {
    function Inside(): string {
      AttrsText(attrs) + pad
    }

    function Open(): string {
      "<" + name.Text() + Inside() + ">"
    }

    function Empty(): string {
      "<" + name.Text() + Inside() + "/>"
    }

    predicate Valid() {
      name.Valid() && (forall a :: a in attrs ==> a.Valid()) && Spaces(pad)
    }
  }

  /** Text that holds no element. */
  datatype Misc = Chars(text: string) | Comment(body: string) | CData(body: string) {
    function Text(): string {
      match this
      case Chars(text) => text
      case Comment(body) => "<!--" + body + "-->"
      case CData(body) => "<![CDATA[" + body + "]]>"
    }

    predicate Valid() {
      match this
      case Chars(text) => '<' !in text
      case Comment(body) => FirstAt(Text(), "-->", 4 + |body|)
      case CData(body) => FirstAt(Text(), "]]>", 9 + |body|)
    }
  }

  /** The mark stands at this place of the text and at none in front of it. */
  predicate FirstAt(text: string, mark: string, at: nat) {
    at <= |text| && mark <= text[at..] && forall k :: 0 <= k < at ==> !(mark <= text[k..])
  }

  function MiscText(gap: seq<Misc>): string {
    if gap == [] then "" else gap[0].Text() + MiscText(gap[1..])
  }

  predicate MiscOk(gap: seq<Misc>) {
    forall m :: m in gap ==> m.Valid()
  }

  /** An element without elements in it, and the text in front of it. */
  datatype ElementForm = Full(gap: seq<Misc>, tag: TagForm, content: seq<Misc>) | Bare(gap: seq<Misc>, tag: TagForm) {
    function Text(): string {
      MiscText(gap) + match this
        case Full(_, tag, content) => tag.Open() + (MiscText(content) + EndText(tag.name.Text()))
        case Bare(_, tag) => tag.Empty()
    }

    predicate Valid() {
      MiscOk(gap) && tag.Valid() && (Full? ==> MiscOk(content))
    }

    /** An empty element has the empty value. */
    function Meaning(): Arg {
      Arg(tag.name.local, if Full? then Unescape(Trim(MiscText(content))) else "")
    }
  }

  function ElementsText(elements: seq<ElementForm>): string {
    if elements == [] then "" else elements[0].Text() + ElementsText(elements[1..])
  }

  predicate ElementsOk(elements: seq<ElementForm>) {
    forall e :: e in elements ==> e.Valid()
  }

  predicate Uses(elements: seq<ElementForm>, q: string) {
    exists e :: e in elements && e.tag.name.Text() == q
  }

  // ---------- tags ----------

  lemma {:induction false} QuotedIsNeutral(value: string, quote: char)
    requires (quote == '"' || quote == '\'') && quote !in value
    ensures Neutral(value + [quote], Some(quote))
  {
    var t := value + [quote];
    if value == [] {
      assert t[1..] == [];
    } else {
      assert value[0] in value && t[1..] == value[1..] + [quote];
      QuotedIsNeutral(value[1..], quote);
    }
  }

  lemma SpacesArePlain(s: string)
    requires Spaces(s)
    ensures forall c :: c in s ==> c != '>' && c != '"' && c != '\'' && c != '/' && !IsQNamePart(c)
  {}

  lemma AttrIsNeutral(a: Attr)
    requires a.Valid()
    ensures Neutral(a.Text())
  {
    hide Neutral;
    var head := a.before + a.name + a.left + "=" + a.right;
    SpacesArePlain(a.before);
    SpacesArePlain(a.left);
    SpacesArePlain(a.right);
    assert forall c :: c in a.name ==> IsQNamePart(c);
    PlainHead(a, head);
    NeutralPlain(head);
    QuotedIsNeutral(a.value, a.quote);
    var quoted := [a.quote] + (a.value + [a.quote]);
    QuotedStarts(a.value, a.quote);
    NeutralConcat(head, None, quoted);
    assert a.Text() == head + quoted;
  }

  lemma PlainHead(a: Attr, head: string)
    requires a.Valid() && head == a.before + a.name + a.left + "=" + a.right
    ensures forall c :: c in head ==> c != '>' && c != '"' && c != '\''
  {
    SpacesArePlain(a.before);
    SpacesArePlain(a.left);
    SpacesArePlain(a.right);
    forall c | c in head ensures c != '>' && c != '"' && c != '\'' {
      assert c in a.before || c in a.name || c in a.left || c == '=' || c in a.right;
    }
  }

  lemma QuotedStarts(value: string, quote: char)
    requires (quote == '"' || quote == '\'') && Neutral(value + [quote], Some(quote))
    ensures Neutral([quote] + (value + [quote]))
  {
    var quoted := [quote] + (value + [quote]);
    assert quoted[0] == quote && quoted[1..] == value + [quote];
  }

  lemma {:induction false} AttrsAreNeutral(attrs: seq<Attr>)
    requires forall a :: a in attrs ==> a.Valid()
    ensures Neutral(AttrsText(attrs))
    ensures attrs != [] ==>
              var t := AttrsText(attrs);
              t != "" && IsSpace(t[0]) && (t[|t| - 1] == '"' || t[|t| - 1] == '\'')
  {
    hide Neutral, Attr.Text;
    if attrs == [] {
      NothingIsNeutral();
    } else {
      assert attrs[0] in attrs;
      AttrIsNeutral(attrs[0]);
      AttrEnds(attrs[0]);
      AttrsAreNeutral(attrs[1..]);
      NeutralConcat(attrs[0].Text(), None, AttrsText(attrs[1..]));
    }
  }

  lemma NothingIsNeutral()
    ensures Neutral("")
  {}

  lemma AttrEnds(a: Attr)
    requires a.Valid()
    ensures var t := a.Text(); t != "" && IsSpace(t[0]) && t[|t| - 1] == a.quote
  {
    assert a.before[0] in a.before && a.Text()[0] == a.before[0];
  }

  lemma InsideIsAttributes(tag: TagForm)
    requires tag.Valid()
    ensures Attributes(tag.Inside())
  {
    hide Neutral, AttrsText, Attr.Valid;
    AttrsAreNeutral(tag.attrs);
    SpacesArePlain(tag.pad);
    NeutralPlain(tag.pad);
    NeutralConcat(AttrsText(tag.attrs), None, tag.pad);
    assert tag.pad != "" ==> tag.pad[0] in tag.pad && tag.pad[|tag.pad| - 1] in tag.pad;
    if tag.attrs == [] {
      NoAttrs(tag.attrs);
    }
  }

  lemma NoAttrs(attrs: seq<Attr>)
    requires attrs == []
    ensures AttrsText(attrs) == ""
  {}

  lemma OpenIsStart(tag: TagForm)
    ensures tag.Open() == StartText(tag.name.Text(), tag.Inside())
  {}

  lemma NameIsQName(n: Name)
    requires n.Valid()
    ensures IsQName(n.Text()) && LocalName(n.Text()) == n.local && PrefixOf(n.Text()) == n.prefix
    ensures n.Text() != "" && (n.Text()[0] == '/') == false
  {
    hide LocalName, PrefixOf;
    if n.prefix == "" {
      PlainName(n.local);
      PlainPrefix(n.local);
    } else {
      PrefixedName(n.prefix, n.local);
    }
  }

  lemma {:induction false} NoColonNoFind(n: string)
    requires ':' !in n
    ensures Find(n, ":") == None
  {
    if n != "" {
      assert n[0] in n;
      NoColonNoFind(n[1..]);
    }
  }

  lemma PlainPrefix(n: string)
    requires IsName(n)
    ensures PrefixOf(n) == ""
  {
    assert forall c :: c in n ==> c != ':';
    NoColonNoFind(n);
  }

  /** The shape of an empty element's tag, for any attribute span. */
  lemma EmptyParts(name: string, attrs: string, rest: string)
    requires IsQName(name) && Attributes(attrs)
    ensures var t := "<" + name + attrs + "/>" + rest;
            var n := 1 + |name|;
            && |t| > n + |attrs| + 1 && t[0] == '<' && t[1] == name[0] && t[1..] == name + (attrs + "/" + (">" + rest))
            && t[n..] == (attrs + "/") + (">" + rest) && t[1..n] == name && t[n..n + |attrs|] == attrs
            && t[n + |attrs|] == '/'
  {
    hide Neutral;
  }

  lemma ReadEmpty(t: string, n: nat, c: nat)
    requires 2 <= n <= |t| && t[0] == '<' && IsNameStart(t[1]) && c > 0
    requires NameLength(t[1..]) == n - 1 && TagClose(t[n..]) == Some(c) && t[n + c - 1] == '/'
    ensures ReadOpenTag(t) == Some(OpenTag(t[1..n], t[n..n + c - 1], n + c + 1, true))
  {
    hide TagClose, NameLength;
  }

  lemma LexEmpty(name: string, attrs: string, rest: string)
    requires IsQName(name) && Attributes(attrs)
    ensures Lex("<" + name + attrs + "/>" + rest) == StartTag(OpenTag(name, attrs, |name| + |attrs| + 3, true))
  {
    hide TagClose, NameLength, ReadOpenTag, Neutral, Find;
    var t, n, c := "<" + name + attrs + "/>" + rest, 1 + |name|, |attrs| + 1;
    EmptyParts(name, attrs, rest);
    assert IsNameStart(name[0]);
    var end := attrs + "/" + (">" + rest);
    assert end[0] == if attrs == [] then '/' else attrs[0];
    NameLengthOf(name, end);
    SlashIsNeutral(attrs);
    NeutralSkips(attrs + "/", None, ">" + rest);
    ClosesHere(rest);
    ReadEmpty(t, n, c);
    NoMetaHere(t);
  }

  lemma SlashIsNeutral(attrs: string)
    requires Attributes(attrs)
    ensures Neutral(attrs + "/")
  {
    hide Neutral;
    NeutralPlain("/");
    NeutralConcat(attrs, None, "/");
  }

  lemma NoMetaHere(t: string)
    requires |t| > 1 && IsNameStart(t[1])
    ensures !("<!--" <= t) && !("<![CDATA[" <= t) && t[1] != '/'
  {}

  // ---------- walking over text and elements ----------

  lemma {:induction false} FindFirst(text: string, mark: string, at: nat, rest: string)
    requires mark != [] && FirstAt(text, mark, at) && at + |mark| == |text|
    ensures Find(text + rest, mark) == Some(at)
  {
    var t := text + rest;
    if at == 0 {
      assert text[0..] == text && mark <= t;
    } else {
      assert text[0..] == text;
      assert mark <= t <==> mark <= text;
      assert t[1..] == text[1..] + rest;
      assert text[1..][at - 1..] == text[at..];
      forall k | 0 <= k < at - 1 ensures !(mark <= text[1..][k..]) {
        assert text[1..][k..] == text[k + 1..];
      }
      FindFirst(text[1..], mark, at - 1, rest);
    }
  }

  lemma LexMisc(m: Misc, rest: string)
    requires m.Valid() && !m.Chars?
    ensures Lex(m.Text() + rest) == Meta(|m.Text()|)
  {
    hide Find, TagClose, ReadOpenTag, FirstAt;
    var t := m.Text() + rest;
    if m.Comment? {
      assert "<!--" <= t;
      FindFirst(m.Text(), "-->", 4 + |m.body|, rest);
    } else {
      assert "<![CDATA[" <= t && t[2] == '[';
      FindFirst(m.Text(), "]]>", 9 + |m.body|, rest);
    }
  }

  lemma PassMisc(m: Misc, q: string)
    requires m.Valid()
    ensures Passes(m.Text(), q)
  {
    hide FindClose, Lex, FirstAt;
    if m.Chars? {
      PassText(m.text, q);
    } else {
      var x := m.Text();
      forall rest, depth: nat | depth > 0
        ensures FindClose(x + rest, q, depth) == Ahead(|x|, FindClose(rest, q, depth))
      {
        LexMisc(m, rest);
        FindCloseStep(x + rest, q, depth);
        assert (x + rest)[|x|..] == rest;
      }
    }
  }

  lemma {:induction false} PassGap(gap: seq<Misc>, q: string)
    requires MiscOk(gap)
    ensures Passes(MiscText(gap), q)
  {
    hide Passes, Misc.Text, Misc.Valid;
    if gap == [] {
      PassText([], q);
    } else {
      assert gap[0] in gap;
      PassMisc(gap[0], q);
      PassGap(gap[1..], q);
      PassConcat(gap[0].Text(), MiscText(gap[1..]), q);
    }
  }

  lemma PassBare(tag: TagForm, q: string)
    requires tag.Valid()
    ensures Passes(tag.Empty(), q)
  {
    hide FindClose, Lex, TagForm.Inside, Attributes, IsQName, LocalName, PrefixOf;
    NameIsQName(tag.name);
    InsideIsAttributes(tag);
    var x := tag.Empty();
    forall rest, depth: nat | depth > 0
      ensures FindClose(x + rest, q, depth) == Ahead(|x|, FindClose(rest, q, depth))
    {
      LexEmpty(tag.name.Text(), tag.Inside(), rest);
      FindCloseStep(x + rest, q, depth);
      assert (x + rest)[|x|..] == rest;
    }
  }

  lemma PassOpen(tag: TagForm, q: string)
    requires tag.Valid() && tag.name.Text() != q
    ensures Passes(tag.Open(), q)
  {
    hide Passes, Attributes, IsQName, LocalName, PrefixOf, TagForm.Inside, TagForm.Open;
    NameIsQName(tag.name);
    InsideIsAttributes(tag);
    OpenIsStart(tag);
    PassStart(tag.name.Text(), tag.Inside(), q);
  }

  lemma PassClose(tag: TagForm, q: string)
    requires tag.Valid() && tag.name.Text() != q
    ensures Passes(EndText(tag.name.Text()), q)
  {
    hide Passes, IsQName, LocalName, PrefixOf;
    NameIsQName(tag.name);
    PassEnd(tag.name.Text(), q);
  }

  lemma PassElement(e: ElementForm, q: string)
    requires e.Valid() && e.tag.name.Text() != q
    ensures Passes(e.Text(), q)
  {
    hide Passes, MiscText, MiscOk, TagForm.Open, TagForm.Empty, TagForm.Valid, EndText;
    PassGap(e.gap, q);
    if e.Full? {
      PassOpen(e.tag, q);
      PassGap(e.content, q);
      PassClose(e.tag, q);
      PassConcat(MiscText(e.content), EndText(e.tag.name.Text()), q);
      PassConcat(e.tag.Open(), MiscText(e.content) + EndText(e.tag.name.Text()), q);
      PassConcat(MiscText(e.gap), e.tag.Open() + (MiscText(e.content) + EndText(e.tag.name.Text())), q);
    } else {
      PassBare(e.tag, q);
      PassConcat(MiscText(e.gap), e.tag.Empty(), q);
    }
  }

  lemma {:induction false} PassElements(elements: seq<ElementForm>, q: string)
    requires ElementsOk(elements) && !Uses(elements, q)
    ensures Passes(ElementsText(elements), q)
  {
    hide Passes, ElementForm.Text, ElementForm.Valid;
    if elements == [] {
      PassText([], q);
    } else {
      assert elements[0] in elements;
      PassElement(elements[0], q);
      assert !Uses(elements[1..], q) by {
        assert forall e :: e in elements[1..] ==> e in elements;
      }
      PassElements(elements[1..], q);
      PassConcat(elements[0].Text(), ElementsText(elements[1..]), q);
    }
  }

  // ---------- the next element ----------

  lemma {:induction false} NextBehindGap(gap: seq<Misc>, rest: string)
    requires MiscOk(gap)
    ensures NextElement(MiscText(gap) + rest) == SkipInto(|MiscText(gap)|, NextElement(rest))
  {
    hide NextElement, Lex, Misc.Text, Misc.Valid;
    if gap == [] {
      assert MiscText(gap) + rest == rest;
    } else {
      assert gap[0] in gap;
      var m, more := gap[0], MiscText(gap[1..]);
      NextBehindGap(gap[1..], rest);
      NextBehindMisc(m, more + rest);
      assert MiscText(gap) + rest == m.Text() + (more + rest);
      SkipTwice(|m.Text()|, |more|, NextElement(rest));
    }
  }

  lemma NextBehindMisc(m: Misc, rest: string)
    requires m.Valid()
    ensures NextElement(m.Text() + rest) == SkipInto(|m.Text()|, NextElement(rest))
  {
    hide NextElement, Lex, FirstAt;
    if m.Chars? {
      NextAfterText(m.text, rest);
    } else {
      LexMisc(m, rest);
      NextElementStep(m.Text() + rest);
      assert (m.Text() + rest)[|m.Text()|..] == rest;
    }
  }

  lemma NothingNext(gap: seq<Misc>)
    requires MiscOk(gap)
    ensures NextElement(MiscText(gap)).found == None
  {
    hide NextElement;
    NextBehindGap(gap, "");
    assert MiscText(gap) + "" == MiscText(gap);
    NextElementStep("");
  }

  lemma NextOpen(gap: seq<Misc>, tag: TagForm, rest: string)
    requires MiscOk(gap) && tag.Valid()
    ensures var t := MiscText(gap) + (tag.Open() + rest);
            var el := NextElement(t);
            && el.found.Some? && el.found.value.tag.qname == tag.name.Text() && !el.found.value.tag.selfClosing
            && el.found.value.tag.inside == tag.Inside() && t[el.cost..] == rest
  {
    hide NextElement, Lex, MiscText, MiscOk, TagForm.Inside, Attributes, IsQName, LocalName, PrefixOf;
    NameIsQName(tag.name);
    InsideIsAttributes(tag);
    OpenIsStart(tag);
    NextBehindGap(gap, tag.Open() + rest);
    LexStart(tag.name.Text(), tag.Inside(), rest);
    NextElementStep(tag.Open() + rest);
  }

  lemma NextBare(gap: seq<Misc>, tag: TagForm, rest: string)
    requires MiscOk(gap) && tag.Valid()
    ensures var t := MiscText(gap) + (tag.Empty() + rest);
            var el := NextElement(t);
            && el.found.Some? && el.found.value.tag.qname == tag.name.Text() && el.found.value.tag.selfClosing
            && el.found.value.tag.inside == tag.Inside() && t[el.cost..] == rest
  {
    hide NextElement, Lex, MiscText, MiscOk, TagForm.Inside, Attributes, IsQName, LocalName, PrefixOf;
    NameIsQName(tag.name);
    InsideIsAttributes(tag);
    NextBehindGap(gap, tag.Empty() + rest);
    LexEmpty(tag.name.Text(), tag.Inside(), rest);
    NextElementStep(tag.Empty() + rest);
  }

  /** An element's content ends at its own closing tag. */
  lemma ContentEnds(x: string, q: string, rest: string)
    requires IsQName(q) && Passes(x, q)
    ensures var t := x + (EndText(q) + rest);
            var close := FindClose(t, q, 1);
            close.found == Some(|x|) && t[..|x|] == x && close.cost <= |t| && t[close.cost..] == rest
  {
    hide FindClose, Passes;
    ClosesBehind(x, q, rest);
    var t := x + (EndText(q) + rest);
    assert t[|x| + |q| + 3..] == rest;
  }

  // ---------- arguments ----------

  function Meanings(elements: seq<ElementForm>): seq<Arg> {
    if elements == [] then [] else [elements[0].Meaning()] + Meanings(elements[1..])
  }

  /** Any mix of full and empty elements is read as its arguments. */
  lemma {:induction false} ParseElements(elements: seq<ElementForm>, gap: seq<Misc>)
    requires ElementsOk(elements) && MiscOk(gap)
    ensures ParseArgs(ElementsText(elements) + MiscText(gap)).result == Ok(Meanings(elements))
  {
    hide NextElement, FindClose, ParseArgs, MiscText, MiscOk, TagForm.Valid, TagForm.Open, TagForm.Empty, LocalName,
      PrefixOf,
      Unescape, Trim, EndText, Passes, IsQName;
    var t := ElementsText(elements) + MiscText(gap);
    ParseArgsStep(t);
    if elements == [] {
      assert t == MiscText(gap);
      NothingNext(gap);
    } else {
      var e, more := elements[0], ElementsText(elements[1..]) + MiscText(gap);
      assert e in elements && forall x :: x in elements[1..] ==> x in elements;
      OkName(e.tag);
      NameIsQName(e.tag.name);
      ParseElements(elements[1..], gap);
      if e.Full? {
        var q, x := e.tag.name.Text(), MiscText(e.content);
        FullInFront(elements, MiscText(gap));
        NextOpen(e.gap, e.tag, x + (EndText(q) + more));
        PassGap(e.content, q);
        ContentEnds(x, q, more);
      } else {
        BareInFront(elements, MiscText(gap));
        NextBare(e.gap, e.tag, more);
      }
    }
  }

  lemma OkName(tag: TagForm)
    requires tag.Valid()
    ensures tag.name.Valid()
  {}

  // ---------- namespace declarations ----------

  /** The value of the first attribute that declares the prefix, or the default namespace for none. */
  function Declared(attrs: seq<Attr>, prefix: string): Option<string> {
    if attrs == [] then None
    else if attrs[0].name == (if prefix == "" then "xmlns" else "xmlns:" + prefix) then Some(attrs[0].value)
    else Declared(attrs[1..], prefix)
  }

  lemma {:induction false} SkipBlanks(blanks: string, rest: string)
    requires Spaces(blanks) && rest != "" && !IsSpace(rest[0])
    ensures TrimLeft(blanks + rest) == rest
  {
    if blanks == "" {
      assert blanks + rest == rest;
    } else {
      assert blanks[0] in blanks && (blanks + rest)[1..] == blanks[1..] + rest;
      SkipBlanks(blanks[1..], rest);
    }
  }

  lemma {:induction false} OnlyBlanks(blanks: string)
    requires Spaces(blanks)
    ensures TrimLeft(blanks) == ""
  {
    if blanks != "" {
      assert blanks[0] in blanks;
      OnlyBlanks(blanks[1..]);
    }
  }

  lemma NameIsRead(a: Attr, rest: string)
    requires a.Valid()
    ensures ReadAttributeName(a.before + (a.name + (a.left + ("=" + rest)))) == Some(Piece(a.name, rest))
  {
    hide TrimLeft, NameLength;
    var u := "=" + rest;
    var t := a.name + (a.left + u);
    SpacesArePlain(a.left);
    assert !IsSpace(t[0]) by { assert t[0] == a.name[0] && IsNameStart(a.name[0]); }
    SkipBlanks(a.before, t);
    assert (a.left + u)[0] == if a.left == "" then '=' else a.left[0];
    assert a.left != "" ==> a.left[0] in a.left;
    NameLengthOf(a.name, a.left + u);
    assert t[..|a.name|] == a.name && t[|a.name|..] == a.left + u;
    SkipBlanks(a.left, u);
    assert u[1..] == rest;
  }

  lemma {:induction false} ValueEnds(v: string, quote: char, rest: string)
    requires quote !in v
    ensures ValueLength(v + ([quote] + rest), quote) == |v|
  {
    var t := v + ([quote] + rest);
    if v != "" {
      assert v[0] in v && t[1..] == v[1..] + ([quote] + rest);
      ValueEnds(v[1..], quote, rest);
    }
  }

  lemma ValueIsRead(a: Attr, rest: string)
    requires a.Valid()
    ensures ReadAttributeValue(a.right + ([a.quote] + (a.value + ([a.quote] + rest)))) == Some(Piece(a.value, rest))
  {
    hide TrimLeft, ValueLength;
    var v := [a.quote] + (a.value + ([a.quote] + rest));
    SkipBlanks(a.right, v);
    assert v[1..] == a.value + ([a.quote] + rest);
    ValueEnds(a.value, a.quote, rest);
    assert v[1..1 + |a.value|] == a.value && v[2 + |a.value|..] == rest;
  }

  lemma AttrIsRead(a: Attr, rest: string)
    requires a.Valid()
    ensures ReadAttribute(a.Text() + rest) == Some(Attribute(a.name, a.value, rest))
  {
    hide ReadAttributeName, ReadAttributeValue, Attr.Valid;
    var more := a.right + ([a.quote] + (a.value + ([a.quote] + rest)));
    assert a.Text() + rest == a.before + (a.name + (a.left + ("=" + more)));
    NameIsRead(a, more);
    ValueIsRead(a, rest);
  }

  lemma NoAttrIsRead(pad: string)
    requires Spaces(pad)
    ensures ReadAttribute(pad) == None
  {
    OnlyBlanks(pad);
  }

  lemma {:induction false} DeclarationIsFound(attrs: seq<Attr>, pad: string, prefix: string)
    requires (forall a :: a in attrs ==> a.Valid()) && Spaces(pad)
    ensures FindXmlns(AttrsText(attrs) + pad, prefix) == Declared(attrs, prefix)
  {
    hide FindXmlns, ReadAttribute, Attr.Valid, Attr.Text;
    var t := AttrsText(attrs) + pad;
    FindXmlnsStep(t, prefix);
    if attrs == [] {
      assert t == pad;
      NoAttrIsRead(pad);
    } else {
      var more := AttrsText(attrs[1..]) + pad;
      assert attrs[0] in attrs && t == attrs[0].Text() + more;
      AttrIsRead(attrs[0], more);
      DeclarationIsFound(attrs[1..], pad, prefix);
    }
  }

  /** An argument that is never closed spoils the request, whatever arguments stand in front of it. */
  lemma {:induction false} UnclosedIsMalformed(elements: seq<ElementForm>, gap: seq<Misc>, tag: TagForm, rest: string)
    requires ElementsOk(elements) && MiscOk(gap) && tag.Valid() && Passes(rest, tag.name.Text())
    ensures ParseArgs(ElementsText(elements) + (MiscText(gap) + (tag.Open() + rest))).result == Err(Malformed)
  {
    hide NextElement, FindClose, ParseArgs, MiscText, MiscOk, TagForm.Valid, TagForm.Open, TagForm.Empty, LocalName,
      PrefixOf, Unescape, Trim, EndText, Passes, IsQName;
    var end := MiscText(gap) + (tag.Open() + rest);
    var t := ElementsText(elements) + end;
    ParseArgsStep(t);
    if elements == [] {
      assert t == end;
      OkName(tag);
      NameIsQName(tag.name);
      NextOpen(gap, tag, rest);
      PassAt(rest, tag.name.Text(), "");
      assert rest + "" == rest;
      FindCloseStep("", tag.name.Text(), 1);
    } else {
      var e, more := elements[0], ElementsText(elements[1..]) + end;
      assert e in elements && forall x :: x in elements[1..] ==> x in elements;
      OkName(e.tag);
      NameIsQName(e.tag.name);
      UnclosedIsMalformed(elements[1..], gap, tag, rest);
      if e.Full? {
        var q, x := e.tag.name.Text(), MiscText(e.content);
        FullInFront(elements, end);
        NextOpen(e.gap, e.tag, x + (EndText(q) + more));
        PassGap(e.content, q);
        ContentEnds(x, q, more);
      } else {
        BareInFront(elements, end);
        NextBare(e.gap, e.tag, more);
      }
    }
  }

  lemma FullInFront(elements: seq<ElementForm>, end: string)
    requires elements != [] && elements[0].Full?
    ensures var e := elements[0];
            ElementsText(elements) + end ==
            MiscText(e.gap) + (e.tag.Open() + (MiscText(e.content) + (EndText(e.tag.name.Text())
              + (ElementsText(elements[1..]) + end))))
  {
    hide MiscText, EndText, TagForm.Open;
  }

  lemma BareInFront(elements: seq<ElementForm>, end: string)
    requires elements != [] && elements[0].Bare?
    ensures var e := elements[0];
            ElementsText(elements) + end == MiscText(e.gap) + (e.tag.Empty() + (ElementsText(elements[1..]) + end))
  {
    hide MiscText, TagForm.Empty;
  }
}
