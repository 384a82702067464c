/** Whole SOAP requests in every form, and what each is read as: a request, or one of the refusals. */
module SoapRequests {
  import opened Wrappers
  import opened Text
  import opened XmlLexer
  import opened SoapParser
  import opened SoapDocument
  import opened SoapForms

  // ---------- the forms ----------

  datatype ActionForm =
    | NoAction(gap: seq<Misc>)
    | BareAction(gap: seq<Misc>, tag: TagForm, after: seq<Misc>)
    | FullAction(gap: seq<Misc>, tag: TagForm, fields: seq<ElementForm>, end: seq<Misc>, after: seq<Misc>)
  {
    function Text(): string {
      MiscText(gap) + match this
        case NoAction(_) => ""
        case BareAction(_, tag, after) => tag.Empty() + MiscText(after)
        case FullAction(_, tag, fields, end, after) =>
          tag.Open() + ((ElementsText(fields) + MiscText(end)) + (EndText(tag.name.Text()) + MiscText(after)))
    }

    ghost predicate Valid() {
      && MiscOk(gap)
      && (!NoAction? ==> tag.Valid() && MiscOk(after))
      && (FullAction? ==> ElementsOk(fields) && MiscOk(end) && !Uses(fields, tag.name.Text()))
    }

    ghost predicate Names(q: string) {
      (!NoAction? && tag.name.Text() == q) || (FullAction? && Uses(fields, q))
    }

    /** The request, if there is an action element and it declares the namespace of its prefix. */
    function Meaning(): Result<Request, SoapError> {
      if NoAction? then Err(ActionNotFound)
      else match Declared(tag.attrs, tag.name.prefix)
        case None => Err(NamespaceMissing)
        case Some(urn) => Ok(Request(urn, tag.name.local, if FullAction? then Meanings(fields) else []))
    }
  }

  datatype HeaderForm =
    | BareHeader(gap: seq<Misc>, tag: TagForm)
    | FullHeader(gap: seq<Misc>, tag: TagForm, children: seq<ElementForm>, end: seq<Misc>)
  {
    function Text(): string {
      MiscText(gap) + match this
        case BareHeader(_, tag) => tag.Empty()
        case FullHeader(_, tag, children, end) =>
          tag.Open() + ((ElementsText(children) + MiscText(end)) + EndText(tag.name.Text()))
    }

    ghost predicate Valid() {
      && MiscOk(gap) && tag.Valid() && tag.name.local != "Body" && tag.name.local != "body"
      && (FullHeader? ==> ElementsOk(children) && MiscOk(end) && !Uses(children, tag.name.Text()))
    }

    ghost predicate Names(q: string) {
      tag.name.Text() == q || (FullHeader? && Uses(children, q))
    }
  }

  function HeadersText(headers: seq<HeaderForm>): string {
    if headers == [] then "" else headers[0].Text() + HeadersText(headers[1..])
  }

  ghost predicate HeadersOk(headers: seq<HeaderForm>) {
    forall h :: h in headers ==> h.Valid()
  }

  datatype BodyForm =
    | NoBody(gap: seq<Misc>)
    | BareBody(gap: seq<Misc>, tag: TagForm, after: seq<Misc>)
    | Body(gap: seq<Misc>, tag: TagForm, action: ActionForm, after: seq<Misc>)
  {
    function Text(): string {
      MiscText(gap) + match this
        case NoBody(_) => ""
        case BareBody(_, tag, after) => tag.Empty() + MiscText(after)
        case Body(_, tag, action, after) =>
          tag.Open() + (action.Text() + (EndText(tag.name.Text()) + MiscText(after)))
    }

    ghost predicate Valid() {
      && MiscOk(gap)
      && (!NoBody? ==> tag.Valid() && (tag.name.local == "Body" || tag.name.local == "body") && MiscOk(after))
      && (Body? ==> action.Valid() && !action.Names(tag.name.Text()))
    }

    ghost predicate Names(q: string) {
      (!NoBody? && tag.name.Text() == q) || (Body? && action.Names(q))
    }

    function Meaning(): Result<Request, SoapError> {
      match this
      case NoBody(_) => Err(BodyNotFound)
      case BareBody(_, _, _) => Err(Malformed)
      case Body(_, _, action, _) => action.Meaning()
    }
  }

  // ---------- the action ----------

  lemma ParseActionForm(a: ActionForm)
    requires a.Valid()
    ensures ParseAction(a.Text()).result == a.Meaning()
  {
    hide NextElement, FindClose, LocalName, PrefixOf, FindXmlns, ParseArgs, MiscText, MiscOk, TagForm.Open,
      TagForm.Empty,
      TagForm.Valid, EndText, Passes, IsQName, ElementsOk, Uses;
    match a
    case NoAction(gap) =>
      assert a.Text() == MiscText(gap);
      NothingNext(gap);
    case BareAction(gap, tag, after) =>
      OkName(tag);
      NameIsQName(tag.name);
      TagDeclares(tag);
      NextBare(gap, tag, MiscText(after));
    case FullAction(gap, tag, fields, end, after) =>
      var q, x := tag.name.Text(), ElementsText(fields) + MiscText(end);
      OkName(tag);
      NameIsQName(tag.name);
      TagDeclares(tag);
      NextOpen(gap, tag, x + (EndText(q) + MiscText(after)));
      PassElements(fields, q);
      PassGap(end, q);
      PassConcat(ElementsText(fields), MiscText(end), q);
      ContentEnds(x, q, MiscText(after));
      ParseElements(fields, end);
  }

  lemma TagDeclares(tag: TagForm)
    requires tag.Valid()
    ensures FindXmlns(tag.Inside(), tag.name.prefix) == Declared(tag.attrs, tag.name.prefix)
  {
    DeclarationIsFound(tag.attrs, tag.pad, tag.name.prefix);
  }

  lemma PassAction(a: ActionForm, q: string)
    requires a.Valid() && !a.Names(q)
    ensures Passes(a.Text(), q)
  {
    hide Passes, MiscText, MiscOk, TagForm.Open, TagForm.Empty, TagForm.Valid, EndText, ElementsOk, Uses;
    PassGap(a.gap, q);
    match a
    case NoAction(gap) => assert a.Text() == MiscText(gap);
    case BareAction(gap, tag, after) =>
      PassBare(tag, q);
      PassGap(after, q);
      PassConcat(tag.Empty(), MiscText(after), q);
      PassConcat(MiscText(gap), tag.Empty() + MiscText(after), q);
    case FullAction(gap, tag, fields, end, after) =>
      var x, close := ElementsText(fields) + MiscText(end), EndText(tag.name.Text());
      PassElements(fields, q);
      PassGap(end, q);
      PassConcat(ElementsText(fields), MiscText(end), q);
      PassGap(after, q);
      PassWrapped(gap, tag, x, after, q);
  }

  lemma PassWrapped(gap: seq<Misc>, tag: TagForm, x: string, after: seq<Misc>, q: string)
    requires MiscOk(gap) && MiscOk(after) && tag.Valid() && tag.name.Text() != q && Passes(x, q)
    ensures Passes(MiscText(gap) + (tag.Open() + (x + (EndText(tag.name.Text()) + MiscText(after)))), q)
  {
    hide Passes, MiscText, MiscOk, TagForm.Open, TagForm.Valid, EndText;
    var close := EndText(tag.name.Text());
    PassGap(gap, q);
    PassGap(after, q);
    PassOpen(tag, q);
    PassClose(tag, q);
    PassConcat(close, MiscText(after), q);
    PassConcat(x, close + MiscText(after), q);
    PassConcat(tag.Open(), x + (close + MiscText(after)), q);
    PassConcat(MiscText(gap), tag.Open() + (x + (close + MiscText(after))), q);
  }

  // ---------- headers and the body ----------

  lemma PassHeader(h: HeaderForm, q: string)
    requires h.Valid() && !h.Names(q)
    ensures Passes(h.Text(), q)
  {
    hide Passes, MiscText, MiscOk, TagForm.Open, TagForm.Empty, TagForm.Valid, EndText, ElementsOk, Uses;
    PassGap(h.gap, q);
    match h
    case BareHeader(gap, tag) =>
      PassBare(tag, q);
      PassConcat(MiscText(gap), tag.Empty(), q);
    case FullHeader(gap, tag, children, end) =>
      var x := ElementsText(children) + MiscText(end);
      PassElements(children, q);
      PassGap(end, q);
      PassConcat(ElementsText(children), MiscText(end), q);
      NoGap();
      PassWrapped(gap, tag, x, [], q);
      assert EndText(tag.name.Text()) + "" == EndText(tag.name.Text());
  }

  lemma NoGap()
    ensures MiscText([]) == "" && MiscOk([])
  {}

  lemma {:induction false} PassHeaders(headers: seq<HeaderForm>, q: string)
    requires HeadersOk(headers) && forall h :: h in headers ==> !h.Names(q)
    ensures Passes(HeadersText(headers), q)
  {
    hide Passes, HeaderForm.Text, HeaderForm.Valid, HeaderForm.Names;
    if headers == [] {
      PassText([], q);
    } else {
      assert headers[0] in headers && forall h :: h in headers[1..] ==> h in headers;
      PassHeader(headers[0], q);
      PassHeaders(headers[1..], q);
      PassConcat(headers[0].Text(), HeadersText(headers[1..]), q);
    }
  }

  lemma PassBody(b: BodyForm, q: string)
    requires b.Valid() && !b.Names(q)
    ensures Passes(b.Text(), q)
  {
    hide Passes, MiscText, MiscOk, TagForm.Open, TagForm.Empty, TagForm.Valid, EndText, ActionForm.Text,
      ActionForm.Valid, ActionForm.Names;
    PassGap(b.gap, q);
    match b
    case NoBody(gap) => assert b.Text() == MiscText(gap);
    case BareBody(gap, tag, after) =>
      PassBare(tag, q);
      PassGap(after, q);
      PassConcat(tag.Empty(), MiscText(after), q);
      PassConcat(MiscText(gap), tag.Empty() + MiscText(after), q);
    case Body(gap, tag, action, after) =>
      PassAction(action, q);
      PassWrapped(gap, tag, action.Text(), after, q);
  }

  /** What the search for the body finds. */
  function Located(b: BodyForm): Result<string, SoapError> {
    match b
    case NoBody(_) => Err(BodyNotFound)
    case BareBody(_, _, _) => Err(Malformed)
    case Body(_, _, action, _) => Ok(action.Text())
  }

  lemma NeverCloses(x: string, q: string)
    requires Passes(x, q)
    ensures FindClose(x, q, 1).found == None
  {
    hide FindClose, Passes;
    PassAt(x, q, "");
    assert x + "" == x;
    FindCloseStep("", q, 1);
  }

  lemma LocateInBody(b: BodyForm)
    requires b.Valid()
    ensures LocateBody(b.Text()).result == Located(b)
  {
    hide NextElement, FindClose, LocalName, PrefixOf, MiscText, MiscOk, TagForm.Open, TagForm.Empty, TagForm.Valid,
      EndText,
      Passes, IsQName, LocateBody, ActionForm.Text, ActionForm.Valid, ActionForm.Names;
    LocateBodyStep(b.Text());
    match b
    case NoBody(gap) =>
      assert b.Text() == MiscText(gap);
      NothingNext(gap);
    case BareBody(gap, tag, after) =>
      OkName(tag);
      NameIsQName(tag.name);
      NextBare(gap, tag, MiscText(after));
      PassGap(after, tag.name.Text());
      NeverCloses(MiscText(after), tag.name.Text());
    case Body(gap, tag, action, after) =>
      var q := tag.name.Text();
      OkName(tag);
      NameIsQName(tag.name);
      NextOpen(gap, tag, action.Text() + (EndText(q) + MiscText(after)));
      PassAction(action, q);
      ContentEnds(action.Text(), q, MiscText(after));
  }

  lemma SkipBareHeader(gap: seq<Misc>, tag: TagForm, rest: string)
    requires MiscOk(gap) && tag.Valid() && tag.name.local != "Body" && tag.name.local != "body"
    ensures LocateBody(MiscText(gap) + (tag.Empty() + rest)).result == LocateBody(rest).result
  {
    hide NextElement, FindClose, LocalName, PrefixOf, MiscText, MiscOk, TagForm.Empty, TagForm.Valid, IsQName,
      LocateBody;
    OkName(tag);
    NameIsQName(tag.name);
    LocateBodyStep(MiscText(gap) + (tag.Empty() + rest));
    NextBare(gap, tag, rest);
  }

  lemma SkipFullHeader(gap: seq<Misc>, tag: TagForm, x: string, rest: string)
    requires MiscOk(gap) && tag.Valid() && tag.name.local != "Body" && tag.name.local != "body"
    requires Passes(x, tag.name.Text())
    ensures LocateBody(MiscText(gap) + (tag.Open() + (x + (EndText(tag.name.Text()) + rest)))).result
            == LocateBody(rest).result
  {
    hide NextElement, FindClose, LocalName, PrefixOf, MiscText, MiscOk, TagForm.Open, TagForm.Valid, EndText, Passes,
      IsQName, LocateBody;
    var q := tag.name.Text();
    OkName(tag);
    NameIsQName(tag.name);
    LocateBodyStep(MiscText(gap) + (tag.Open() + (x + (EndText(q) + rest))));
    NextOpen(gap, tag, x + (EndText(q) + rest));
    ContentEnds(x, q, rest);
  }

  lemma SkipHeader(h: HeaderForm, rest: string)
    requires h.Valid()
    ensures LocateBody(h.Text() + rest).result == LocateBody(rest).result
  {
    hide MiscText, MiscOk, TagForm.Open, TagForm.Empty, TagForm.Valid, EndText, Passes, LocateBody, ElementsOk, Uses,
      ElementsText;
    match h
    case BareHeader(gap, tag) =>
      assert h.Text() + rest == MiscText(gap) + (tag.Empty() + rest);
      SkipBareHeader(gap, tag, rest);
    case FullHeader(gap, tag, children, end) =>
      var q, x := tag.name.Text(), ElementsText(children) + MiscText(end);
      assert h.Text() + rest == MiscText(gap) + (tag.Open() + (x + (EndText(q) + rest)));
      PassElements(children, q);
      PassGap(end, q);
      PassConcat(ElementsText(children), MiscText(end), q);
      SkipFullHeader(gap, tag, x, rest);
  }

  lemma {:induction false} LocateBehindHeaders(headers: seq<HeaderForm>, b: BodyForm)
    requires HeadersOk(headers) && b.Valid()
    ensures LocateBody(HeadersText(headers) + b.Text()).result ==
            Located(b)
  {
    hide LocateBody, HeaderForm.Text, HeaderForm.Valid, BodyForm.Text, BodyForm.Valid;
    if headers == [] {
      assert HeadersText(headers) + b.Text() == b.Text();
      LocateInBody(b);
    } else {
      assert headers[0] in headers && forall h :: h in headers[1..] ==> h in headers;
      var more := HeadersText(headers[1..]) + b.Text();
      assert HeadersText(headers) + b.Text() == headers[0].Text() + more;
      SkipHeader(headers[0], more);
      LocateBehindHeaders(headers[1..], b);
    }
  }

  // ---------- in front of the envelope ----------

  /** A declaration, a comment or a document type, behind an optional byte order mark and blanks. */
  datatype PrefaceForm =
    | Declaration(bom: bool, blanks: string, body: string)
    | Remark(bom: bool, blanks: string, body: string)
    | Doctype(bom: bool, blanks: string, upper: bool, body: string)
  {
    function Mark(): string {
      match this
      case Declaration(_, _, body) => "<?" + body + "?>"
      case Remark(_, _, body) => "<!--" + body + "-->"
      case Doctype(_, _, upper, body) => (if upper then "<!DOCTYPE" else "<!doctype") + body + ">"
    }

    function Text(): string {
      Blanks(bom, blanks) + Mark()
    }

    predicate Valid() {
      && Spaces(blanks)
      && match this
         case Declaration(_, _, body) => FirstAt(Mark(), "?>", 2 + |body|)
         case Remark(_, _, body) => FirstAt(Mark(), "-->", 4 + |body|)
         case Doctype(_, _, _, body) => Neutral(body)
    }
  }

  function Blanks(bom: bool, blanks: string): string {
    (if bom then "\U{EF}\U{BB}\U{BF}" else "") + blanks
  }

  function PrefaceText(preface: seq<PrefaceForm>): string {
    if preface == [] then "" else preface[0].Text() + PrefaceText(preface[1..])
  }

  lemma StripBlanks(bom: bool, blanks: string, rest: string)
    requires Spaces(blanks) && rest != "" && rest[0] == '<'
    ensures StripPrologue(Blanks(bom, blanks) + rest) == rest
  {
    hide TrimLeft;
    var s := Blanks(bom, blanks) + rest;
    SkipBlanks(blanks, rest);
    if bom {
      assert BOM <= s && s[3..] == blanks + rest;
    } else {
      assert s == blanks + rest && s[0] == if blanks == "" then '<' else blanks[0];
      assert blanks != "" ==> blanks[0] in blanks;
    }
  }

  lemma MarkIsMeta(p: PrefaceForm, rest: string)
    requires p.Valid()
    ensures MetaAt(p.Mark() + rest) == MetaOf(|p.Mark()|) && p.Mark()[0] == '<'
  {
    hide Find, TagClose, FirstAt, Neutral;
    var t := p.Mark() + rest;
    match p
    case Declaration(_, _, body) =>
      assert "<?" <= t;
      FindFirst(p.Mark(), "?>", 2 + |body|, rest);
    case Remark(_, _, body) =>
      assert "<!--" <= t && t[1] == '!';
      FindFirst(p.Mark(), "-->", 4 + |body|, rest);
    case Doctype(_, _, upper, body) =>
      DoctypeCloses(t, if upper then "<!DOCTYPE" else "<!doctype", body, rest);
  }

  lemma DoctypeIsMeta(t: string, head: string, c: nat)
    requires (head == "<!DOCTYPE" || head == "<!doctype") && head <= t && TagClose(t) == Some(c)
    ensures MetaAt(t) == MetaOf(c + 1)
  {
    hide Find, TagClose;
    assert t[0] == head[0] && t[1] == head[1] && t[2] == head[2];
  }

  lemma PlainDoctype(head: string)
    requires head == "<!DOCTYPE" || head == "<!doctype"
    ensures Neutral(head)
  {
    hide Neutral;
    NeutralPlain(head);
  }

  lemma ClosesBehindNeutral(x: string, rest: string)
    requires Neutral(x)
    ensures TagClose(x + (">" + rest)) == Some(|x|)
  {
    hide TagClose, Neutral;
    NeutralSkips(x, None, ">" + rest);
    ClosesHere(rest);
  }

  lemma EndJoins(x: string, rest: string)
    ensures x + ">" + rest == x + (">" + rest) && x <= x + ">" + rest
  {}

  lemma PrefixJoins(a: string, b: string, t: string)
    requires a + b <= t
    ensures a <= t
  {}

  lemma DoctypeCloses(t: string, head: string, body: string, rest: string)
    requires head == "<!DOCTYPE" || head == "<!doctype"
    requires t == head + body + ">" + rest && Neutral(body)
    ensures MetaAt(t) == MetaOf(|head| + |body| + 1)
  {
    hide *;
    var x := head + body;
    PlainDoctype(head);
    NeutralConcat(head, None, body);
    EndJoins(x, rest);
    ClosesBehindNeutral(x, rest);
    PrefixJoins(head, body, t);
    DoctypeIsMeta(t, head, |x|);
  }

  lemma {:induction false} SkipPreface(preface: seq<PrefaceForm>, rest: string)
    requires forall p :: p in preface ==> p.Valid()
    ensures SkipMeta(PrefaceText(preface) + rest) == SkipMeta(rest)
  {
    hide SkipMeta, PrefaceForm.Mark, PrefaceForm.Valid, MetaAt, StripPrologue;
    if preface == [] {
      assert PrefaceText(preface) + rest == rest;
    } else {
      var p, more := preface[0], PrefaceText(preface[1..]) + rest;
      assert p in preface && forall x :: x in preface[1..] ==> x in preface;
      SkipPreface(preface[1..], rest);
      SkipOne(p, more);
      assert PrefaceText(preface) + rest == p.Text() + more;
    }
  }

  lemma SkipOne(p: PrefaceForm, more: string)
    requires p.Valid()
    ensures SkipMeta(p.Text() + more) == SkipMeta(more)
  {
    hide SkipMeta, PrefaceForm.Mark, MetaAt, StripPrologue, Blanks;
    var t := p.Mark() + more;
    MarkIsMeta(p, more);
    assert p.Text() + more == Blanks(p.bom, p.blanks) + t;
    StripBlanks(p.bom, p.blanks, t);
    SkipMetaStep(p.Text() + more);
    assert t[|p.Mark()|..] == more;
  }

  /** The envelope is reached behind any such preface. */
  lemma ReachBehindPreface(preface: seq<PrefaceForm>, bom: bool, blanks: string, rest: string)
    requires (forall p :: p in preface ==> p.Valid()) && Spaces(blanks)
    requires |rest| > 1 && rest[0] == '<' && IsNameStart(rest[1])
    ensures SkipMeta(PrefaceText(preface) + (Blanks(bom, blanks) + rest)) == rest
  {
    hide SkipMeta, StripPrologue, Blanks;
    SkipPreface(preface, Blanks(bom, blanks) + rest);
    StripBlanks(bom, blanks, rest);
    SkipMetaStep(Blanks(bom, blanks) + rest);
  }

  // ---------- the request ----------

  datatype RequestForm = RequestForm(
    preface: seq<PrefaceForm>, bom: bool, blanks: string, tag: TagForm, headers: seq<HeaderForm>, body: BodyForm,
    tail: string)
  {
    function Content(): string {
      HeadersText(headers) + body.Text()
    }

    function Text(): string {
      PrefaceText(preface)
      + (Blanks(bom, blanks) + (tag.Open() + (Content() + (EndText(tag.name.Text()) + tail))))
    }

    ghost predicate Valid() {
      && (forall p :: p in preface ==> p.Valid()) && Spaces(blanks)
      && tag.Valid() && (tag.name.local == "Envelope" || tag.name.local == "envelope")
      && HeadersOk(headers) && body.Valid()
      && (forall h :: h in headers ==> !h.Names(tag.name.Text())) && !body.Names(tag.name.Text())
    }
  }

  lemma OpenReads(tag: TagForm, rest: string)
    requires tag.Valid()
    ensures var t := tag.Open() + rest;
            var open := ReadOpenTag(t);
            && |t| > 1 && t[0] == '<' && IsNameStart(t[1])
            && open.Some? && open.value.qname == tag.name.Text() && !open.value.selfClosing
            && open.value.end <= |t| && t[open.value.end..] == rest
  {
    hide ReadOpenTag, TagForm.Inside, Attributes, LocalName, PrefixOf;
    OkName(tag);
    NameIsQName(tag.name);
    InsideIsAttributes(tag);
    OpenIsStart(tag);
    ReadStart(tag.name.Text(), tag.Inside(), rest);
  }

  /** Every request in one of these forms is read as what it means, and every lack in it is refused as such. */
  lemma ParseForm(r: RequestForm)
    requires r.Valid()
    ensures Parse(r.Text()).result == r.body.Meaning()
  {
    hide FindClose, LocalName, PrefixOf, ReadOpenTag, SkipMeta, LocateBody, ParseAction, TagForm.Open, TagForm.Valid,
      EndText,
      Passes, IsQName, PrefaceText, Blanks, HeadersText, HeadersOk, BodyForm.Text, BodyForm.Valid, ActionForm.Text;
    var q := r.tag.name.Text();
    var inner := r.Content() + (EndText(q) + r.tail);
    OkName(r.tag);
    NameIsQName(r.tag.name);
    OpenReads(r.tag, inner);
    ReachBehindPreface(r.preface, r.bom, r.blanks, r.tag.Open() + inner);
    PassHeaders(r.headers, q);
    PassBody(r.body, q);
    PassConcat(HeadersText(r.headers), r.body.Text(), q);
    ContentEnds(r.Content(), q, r.tail);
    LocateBehindHeaders(r.headers, r.body);
    if r.body.Body? {
      ActionIsValid(r.body);
      ParseActionForm(r.body.action);
    }
  }

  lemma ActionIsValid(b: BodyForm)
    requires b.Valid() && b.Body?
    ensures b.action.Valid()
  {}

  // ---------- what is no envelope ----------

  /** Behind the preface stands nothing at all. */
  lemma NothingIsEmpty(preface: seq<PrefaceForm>, bom: bool, blanks: string)
    requires (forall p :: p in preface ==> p.Valid()) && Spaces(blanks)
    ensures Parse(PrefaceText(preface) + Blanks(bom, blanks)).result == Err(Empty)
  {
    hide SkipMeta, PrefaceText, Blanks;
    SkipPreface(preface, Blanks(bom, blanks));
    BlanksAreSkipped(bom, blanks);
  }

  lemma BlanksAreSkipped(bom: bool, blanks: string)
    requires Spaces(blanks)
    ensures SkipMeta(Blanks(bom, blanks)) == ""
  {
    hide SkipMeta, TrimLeft;
    var s := Blanks(bom, blanks);
    OnlyBlanks(blanks);
    SkipMetaStep(s);
    if bom {
      assert BOM <= s && s[3..] == blanks;
    } else {
      assert s == blanks;
      assert blanks != "" ==> blanks[0] in blanks;
    }
  }

  /** A root element of another name, and an envelope that is never closed, are malformed. */
  lemma OtherRootsAreMalformed(r: RequestForm, rest: string)
    requires (forall p :: p in r.preface ==> p.Valid()) && Spaces(r.blanks) && r.tag.Valid()
    requires r.tag.name.local in {"Envelope", "envelope"} ==> Passes(rest, r.tag.name.Text())
    ensures Parse(PrefaceText(r.preface) + (Blanks(r.bom, r.blanks) + (r.tag.Open() + rest))).result == Err(Malformed)
  {
    hide FindClose, LocalName, PrefixOf, ReadOpenTag, SkipMeta, TagForm.Open, TagForm.Valid, Passes, IsQName,
      PrefaceText,
      Blanks, ParseEnvelope;
    var q := r.tag.name.Text();
    OkName(r.tag);
    NameIsQName(r.tag.name);
    OpenReads(r.tag, rest);
    ReachBehindPreface(r.preface, r.bom, r.blanks, r.tag.Open() + rest);
    if r.tag.name.local in {"Envelope", "envelope"} {
      NeverCloses(rest, q);
    }
  }

  /** An empty envelope has no body. */
  lemma EmptyEnvelopeHasNoBody(r: RequestForm, rest: string)
    requires (forall p :: p in r.preface ==> p.Valid()) && Spaces(r.blanks) && r.tag.Valid()
    requires r.tag.name.local in {"Envelope", "envelope"}
    ensures Parse(PrefaceText(r.preface) + (Blanks(r.bom, r.blanks) + (r.tag.Empty() + rest))).result ==
            Err(BodyNotFound)
  {
    hide LocalName, PrefixOf, ReadOpenTag, SkipMeta, TagForm.Valid, IsQName, PrefaceText, Blanks, TagForm.Inside,
      Attributes;
    OkName(r.tag);
    NameIsQName(r.tag.name);
    InsideIsAttributes(r.tag);
    EmptyReads(r.tag.name.Text(), r.tag.Inside(), rest);
    ReachBehindPreface(r.preface, r.bom, r.blanks, r.tag.Empty() + rest);
  }

  lemma EmptyReads(name: string, attrs: string, rest: string)
    requires IsQName(name) && Attributes(attrs)
    ensures var t := "<" + name + attrs + "/>" + rest;
            && |t| > 1 && t[0] == '<' && IsNameStart(t[1])
            && ReadOpenTag(t) == Some(OpenTag(name, attrs, |name| + |attrs| + 3, true))
  {
    hide ReadOpenTag, TagClose, Find, Attributes;
    LexEmpty(name, attrs, rest);
    var t := "<" + name + attrs + "/>" + rest;
    assert t[0] == '<' && t[1] == name[0] && IsNameStart(name[0]);
    NoMetaHere(t);
  }

  /** A declaration, comment or document type that is never closed leaves nothing to read. */
  lemma UnclosedIsEmpty(preface: seq<PrefaceForm>, bom: bool, blanks: string, t: string)
    requires (forall p :: p in preface ==> p.Valid()) && Spaces(blanks)
    requires || ("<?" <= t && forall k :: 0 <= k <= |t| ==> !("?>" <= t[k..]))
             || ("<!--" <= t && forall k :: 0 <= k <= |t| ==> !("-->" <= t[k..]))
             || (("<!DOCTYPE" <= t || "<!doctype" <= t) && '>' !in t)
    ensures Parse(PrefaceText(preface) + (Blanks(bom, blanks) + t)).result == Err(Empty)
  {
    hide SkipMeta, PrefaceText, Blanks, StripPrologue, MetaAt;
    assert t != "" && t[0] == '<';
    SkipPreface(preface, Blanks(bom, blanks) + t);
    StripBlanks(bom, blanks, t);
    SkipMetaStep(Blanks(bom, blanks) + t);
    UnclosedMetaAt(t);
  }

  lemma {:induction false} NeverFound(t: string, mark: string)
    requires forall k :: 0 <= k <= |t| ==> !(mark <= t[k..])
    ensures Find(t, mark) == None
  {
    assert t[0..] == t;
    if t != "" {
      forall k | 0 <= k <= |t[1..]| ensures !(mark <= t[1..][k..]) {
        assert t[1..][k..] == t[k + 1..];
      }
      NeverFound(t[1..], mark);
    }
  }

  lemma {:induction false} NeverEnds(t: string, quote: Option<char>)
    requires '>' !in t
    ensures TagClose(t, quote) == None
  {
    if t != "" {
      assert t[0] in t;
      NeverEnds(t[1..], NextQuote(quote, t[0]));
    }
  }

  lemma UnclosedMetaAt(t: string)
    requires || ("<?" <= t && forall k :: 0 <= k <= |t| ==> !("?>" <= t[k..]))
             || ("<!--" <= t && forall k :: 0 <= k <= |t| ==> !("-->" <= t[k..]))
             || (("<!DOCTYPE" <= t || "<!doctype" <= t) && '>' !in t)
    ensures MetaAt(t) == UnclosedMeta
  {
    hide Find, TagClose;
    if t[1] == '?' {
      NeverFound(t, "?>");
    } else if t[2] == '-' {
      NeverFound(t, "-->");
    } else {
      NeverEnds(t, None);
    }
  }
}
