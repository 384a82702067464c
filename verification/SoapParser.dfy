/**
 The SOAP request parser. `Parse` says what an unmetered parse of a body yields and how much it would
 charge; the method `ParseSoapRequest` is the program's metered parser and refines it.
 */
module SoapParser {
  import opened Wrappers
  import opened Text
  import opened XmlText
  import opened XmlLexer

  datatype Arg = Arg(name: string, value: string)

  datatype Request = Request(serviceUrn: string, action: string, args: seq<Arg>)

  datatype SoapError = Empty | BodyNotFound | ActionNotFound | Malformed | NamespaceMissing | TooComplex

  // ---------- the text in front of the envelope ----------

  const BOM := "\U{EF}\U{BB}\U{BF}"

  function StripPrologue(s: string): (t: string)
    ensures |t| <= |s|
  {
    TrimLeftShape(if BOM <= s then s[3..] else s);
    TrimLeft(if BOM <= s then s[3..] else s)
  }

  /** What stands in front of the envelope: a declaration, a comment or a DOCTYPE of some length. */
  datatype Meta = NoMeta | UnclosedMeta | MetaOf(length: nat)

  function MetaEnd(end: Option<nat>, mark: nat): Meta {
    if end.None? then UnclosedMeta else MetaOf(end.value + mark)
  }

  function MetaAt(t: string): (m: Meta)
    ensures m.MetaOf? ==> 0 < m.length <= |t|
  {
    if |t| < 2 || t[0] != '<' then NoMeta
    else if "<?" <= t then MetaEnd(Find(t, "?>"), 2)
    else if "<!--" <= t then MetaEnd(Find(t, "-->"), 3)
    else if "<!DOCTYPE" <= t || "<!doctype" <= t then MetaEnd(TagClose(t), 1)
    else NoMeta
  }

  function SkipMeta(s: string): (r: string)
    ensures |r| <= |s|
    decreases |s|
  {
    var t := StripPrologue(s);
    match MetaAt(t)
    case NoMeta => t
    case UnclosedMeta => []
    case MetaOf(n) => SkipMeta(t[n..])
  }

  method SkipSpaces(s: string, from: nat) returns (i: nat)
    requires from <= |s|
    ensures from <= i <= |s| && s[i..] == TrimLeft(s[from..])
  {
    i := from;
    while i < |s| && IsSpace(s[i])
      invariant from <= i <= |s|
      invariant TrimLeft(s[i..]) == TrimLeft(s[from..])
    {
      assert s[i..][1..] == s[i + 1..];
      i := i + 1;
    }
  }

  method SkipPrologue(s: string) returns (t: string)
    ensures t == StripPrologue(s)
  {
    var start := if BOM <= s then 3 else 0;
    assert s[start..] == if BOM <= s then s[3..] else s;
    var i := SkipSpaces(s, start);
    t := s[i..];
  }

  method FindMeta(s: string) returns (m: Meta)
    ensures m == MetaAt(s)
  {
    hide Find, TagClose;
    if |s| < 2 || s[0] != '<' {
      return NoMeta;
    }
    if "<?" <= s {
      return MetaEnd(Find(s, "?>"), 2);
    }
    if "<!--" <= s {
      return MetaEnd(Find(s, "-->"), 3);
    }
    if "<!DOCTYPE" <= s || "<!doctype" <= s {
      var close := FindTagClose(s, 0);
      assert s[0..] == s;
      return MetaEnd(close, 1);
    }
    return NoMeta;
  }

  method SkipMetaText(body: string) returns (s: string)
    ensures s == SkipMeta(body)
  {
    hide MetaAt, StripPrologue;
    s := body;
    while true
      invariant SkipMeta(s) == SkipMeta(body)
      decreases |s|
    {
      s := SkipPrologue(s);
      var m := FindMeta(s);
      if m.NoMeta? {
        return;
      }
      if m.UnclosedMeta? {
        return [];
      }
      s := s[m.length..];
    }
  }

  // ---------- namespace declarations ----------

  function ValueLength(t: string, quote: char): (n: nat)
    ensures n <= |t| && quote !in t[..n] && (n < |t| ==> t[n] == quote)
  {
    if t == [] || t[0] == quote then 0
    else
      assert t[..1 + ValueLength(t[1..], quote)] == [t[0]] + t[1..][..ValueLength(t[1..], quote)];
      1 + ValueLength(t[1..], quote)
  }

  function Declares(name: string, prefix: string): bool {
    if prefix == [] then name == "xmlns" else name == "xmlns:" + prefix
  }

  /** A piece read from the head of a span, and the span behind it. */
  datatype Piece = Piece(text: string, rest: string)

  /** An attribute name and the `=` behind it, with white space around either. */
  function ReadAttributeName(attrs: string): (r: Option<Piece>)
    ensures r.Some? ==> |r.value.rest| < |attrs|
  {
    TrimLeftShape(attrs);
    var t := TrimLeft(attrs);
    var n := NameLength(t);
    TrimLeftShape(t[n..]);
    var u := TrimLeft(t[n..]);
    if u == [] || u[0] != '=' then None else Some(Piece(t[..n], u[1..]))
  }

  /** A quoted value; one that is never closed runs to the end of the span. */
  function ReadAttributeValue(attrs: string): (r: Option<Piece>)
    ensures r.Some? ==> |r.value.rest| <= |attrs|
  {
    TrimLeftShape(attrs);
    var v := TrimLeft(attrs);
    if v == [] || (v[0] != '"' && v[0] != '\'') then None
    else
      var len := ValueLength(v[1..], v[0]);
      Some(Piece(v[1..1 + len], if 1 + len < |v| then v[2 + len..] else []))
  }

  /** An attribute at the head of a span; `rest` is the span after its closing quote. */
  datatype Attribute = Attribute(name: string, value: string, rest: string)

  function ReadAttribute(attrs: string): (r: Option<Attribute>)
    ensures r.Some? ==> |r.value.rest| < |attrs|
  {
    match ReadAttributeName(attrs)
    case None => None
    case Some(name) =>
      match ReadAttributeValue(name.rest)
      case None => None
      case Some(value) => Some(Attribute(name.text, value.text, value.rest))
  }

  /** The value of the declaration of `prefix` in an attribute span, scanned left to right. */
  function FindXmlns(attrs: string, prefix: string): Option<string>
    decreases |attrs|
  {
    match ReadAttribute(attrs)
    case None => None
    case Some(a) => if Declares(a.name, prefix) then Some(a.value) else FindXmlns(a.rest, prefix)
  }

  method ValueEnd(s: string, from: nat, quote: char) returns (i: nat)
    requires from <= |s|
    ensures i == from + ValueLength(s[from..], quote)
  {
    i := from;
    while i < |s| && s[i] != quote
      invariant from <= i <= |s|
      invariant from + ValueLength(s[from..], quote) == i + ValueLength(s[i..], quote)
    {
      assert s[i..][1..] == s[i + 1..];
      i := i + 1;
    }
  }

  method AttributeNameAt(s: string) returns (r: Option<Piece>)
    ensures r == ReadAttributeName(s)
  {
    hide TrimLeft, NameLength;
    var i := SkipSpaces(s, 0);
    assert s[0..] == s;
    var t := s[i..];
    var n := NameEnd(t, 0);
    assert t[0..] == t;
    i := SkipSpaces(t, n);
    var u := t[i..];
    return if u == [] || u[0] != '=' then None else Some(Piece(t[..n], u[1..]));
  }

  method AttributeValueAt(s: string) returns (r: Option<Piece>)
    ensures r == ReadAttributeValue(s)
  {
    hide TrimLeft, ValueLength;
    var i := SkipSpaces(s, 0);
    assert s[0..] == s;
    var v := s[i..];
    if v == [] || (v[0] != '"' && v[0] != '\'') {
      return None;
    }
    var end := ValueEnd(v, 1, v[0]);
    return Some(Piece(v[1..end], if end < |v| then v[end + 1..] else []));
  }

  method FindXmlnsIn(attrs: string, prefix: string) returns (r: Option<string>)
    ensures r == FindXmlns(attrs, prefix)
  {
    hide ReadAttributeName, ReadAttributeValue;
    var span := attrs;
    while span != []
      invariant FindXmlns(span, prefix) == FindXmlns(attrs, prefix)
      decreases |span|
    {
      var piece := AttributeNameAt(span);
      if piece.None? {
        return None;
      }
      var quoted := AttributeValueAt(piece.value.rest);
      if quoted.None? {
        return None;
      }
      var name, value := piece.value.text, quoted.value.text;
      if prefix == [] {
        if name == "xmlns" {
          return Some(value);
        }
      } else if |name| == 6 + |prefix| && "xmlns:" <= name && name[6..] == prefix {
        assert name == "xmlns:" + prefix;
        return Some(value);
      }
      span := quoted.value.rest;
    }
    NoAttribute(span);
    return None;
  }

  lemma NoAttribute(attrs: string)
    requires attrs == []
    ensures ReadAttribute(attrs) == None
  {}

  // ---------- the unmetered parse ----------

  /** A result, the charges made on the way to it, and whether its last step looks at the budget. */
  datatype Work<+T> = Work(result: Result<T, SoapError>, cost: nat, checks: bool)

  function Pay<T>(n: nat, w: Work<T>): Work<T> {
    w.(cost := n + w.cost)
  }

  /** What the metered program answers when it starts this work with `budget` characters left. */
  function Under<T>(w: Work<T>, budget: nat): Result<T, SoapError> {
    if budget < w.cost || (budget == w.cost && w.checks) then Err(TooComplex) else w.result
  }

  /** The least budget with which the program does not give up. */
  function Needed<T>(w: Work<T>): nat {
    w.cost + if w.checks then 1 else 0
  }

  predicate Named(qname: string, upper: string, lower: string) {
    LocalName(qname) == upper || LocalName(qname) == lower
  }

  function LocateBody(t: string): (w: Work<string>)
    ensures w.cost <= |t|
    ensures w.result.Ok? ==> |w.result.value| <= |t| && !w.checks
    ensures w.result != Err(TooComplex)
    decreases |t|
  {
    var el := NextElement(t);
    if el.found.None? then Work(Err(BodyNotFound), el.cost, true)
    else
      var tag, inner := el.found.value.tag, t[el.cost..];
      if !Named(tag.qname, "Body", "body") && tag.selfClosing then Pay(el.cost, LocateBody(inner))
      else
        var close := FindClose(inner, tag.qname, 1);
        if close.found.None? then Work(Err(Malformed), el.cost + close.cost, true)
        else if Named(tag.qname, "Body", "body") then
          Work(Ok(inner[..close.found.value]), el.cost + close.cost, false)
        else Pay(el.cost + close.cost, LocateBody(inner[close.cost..]))
  }

  function ParseArgs(t: string): (w: Work<seq<Arg>>)
    ensures w.cost <= |t|
    ensures w.result != Err(TooComplex)
    decreases |t|
  {
    var el := NextElement(t);
    if el.found.None? then Work(Ok([]), el.cost, true)
    else
      var tag, inner := el.found.value.tag, t[el.cost..];
      if tag.selfClosing then
        Pay(el.cost, Before(Arg(LocalName(tag.qname), ""), ParseArgs(inner)))
      else
        var close := FindClose(inner, tag.qname, 1);
        if close.found.None? then Work(Err(Malformed), el.cost + close.cost, true)
        else
          var value := Unescape(Trim(inner[..close.found.value]));
          Pay(el.cost + close.cost, Before(Arg(LocalName(tag.qname), value), ParseArgs(inner[close.cost..])))
  }

  function Before(arg: Arg, w: Work<seq<Arg>>): Work<seq<Arg>> {
    match w.result
    case Ok(args) => w.(result := Ok([arg] + args))
    case Err(_) => w
  }

  function ParseAction(t: string): (w: Work<Request>)
    ensures w.cost <= 2 * |t|
    ensures w.result != Err(TooComplex)
  {
    var el := NextElement(t);
    if el.found.None? then Work(Err(ActionNotFound), el.cost, true)
    else
      var tag, inner := el.found.value.tag, t[el.cost..];
      match FindXmlns(tag.inside, PrefixOf(tag.qname))
      case None => Work(Err(NamespaceMissing), el.cost, false)
      case Some(urn) =>
        if tag.selfClosing then Work(Ok(Request(urn, LocalName(tag.qname), [])), el.cost, false)
        else
          var close := FindClose(inner, tag.qname, 1);
          if close.found.None? then Work(Err(Malformed), el.cost + close.cost, true)
          else
            var args := ParseArgs(inner[..close.found.value]);
            Pay(el.cost + close.cost, WithArgs(urn, LocalName(tag.qname), args))
  }

  function WithArgs(urn: string, action: string, w: Work<seq<Arg>>): Work<Request> {
    match w.result
    case Ok(args) => Work(Ok(Request(urn, action, args)), w.cost, w.checks)
    case Err(e) => Work(Err(e), w.cost, w.checks)
  }

  function Parse(body: string): (w: Work<Request>)
    ensures w.cost <= 4 * |body|
    ensures w.result != Err(TooComplex)
  {
    var stripped := SkipMeta(body);
    if stripped == [] then Work(Err(Empty), 0, false)
    else match ReadOpenTag(stripped)
      case None => Work(Err(Malformed), 0, false)
      case Some(tag) =>
        if !Named(tag.qname, "Envelope", "envelope") then Work(Err(Malformed), 0, false)
        else if tag.selfClosing then Work(Err(BodyNotFound), 0, false)
        else
          var inner := stripped[tag.end..];
          var close := FindClose(inner, tag.qname, 1);
          if close.found.None? then Work(Err(Malformed), close.cost, true)
          else Pay(close.cost, ParseEnvelope(inner[..close.found.value]))
  }

  function ParseEnvelope(t: string): (w: Work<Request>)
    ensures w.cost <= 3 * |t|
    ensures w.result != Err(TooComplex)
  {
    var located := LocateBody(t);
    match located.result
    case Err(e) => Work(Err(e), located.cost, located.checks)
    case Ok(inner) => Pay(located.cost, ParseAction(inner))
  }

  // ---------- the metered parse ----------

  /** The text of an open element and the offset after its closing tag. */
  datatype Content = Content(inner: string, next: nat)

  /** `find_close`, then `find_tag_close` at the tag it returned, which cannot fail. */
  method ContentOf(s: string, q: string, from: nat, budget: ParseBudget) returns (r: Option<Content>)
    requires from <= |s|
    modifies budget
    ensures Spent(old(budget.remaining), budget.remaining, FindClose(s[from..], q, 1).cost)
    ensures var close := FindClose(s[from..], q, 1);
            if close.cost > old(budget.remaining) || close.found.None? then r == None
            else r == Some(Content(s[from..][..close.found.value], from + close.cost))
                 && s[from + close.cost..] == s[from..][close.cost..]
  {
    hide FindClose, Lex;
    var at := budget.CloseOf(s, q, from);
    if at.None? {
      return None;
    }
    FindCloseLex(s[from..], q, 1);
    assert s[from..][at.value - from..] == s[at.value..];
    var closeEnd := FindTagClose(s, at.value);
    assert s[from..at.value] == s[from..][..at.value - from];
    return Some(Content(s[from..at.value], closeEnd.value + 1));
  }

  lemma {:induction false} LocateBodyStep(t: string)
    ensures var el := NextElement(t);
            LocateBody(t) ==
            if el.found.None? then Work(Err(BodyNotFound), el.cost, true) else
            var tag, inner := el.found.value.tag, t[el.cost..];
            if !Named(tag.qname, "Body", "body") && tag.selfClosing then Pay(el.cost, LocateBody(inner)) else
            var close := FindClose(inner, tag.qname, 1);
            if close.found.None? then Work(Err(Malformed), el.cost + close.cost, true)
            else if Named(tag.qname, "Body", "body")
              then Work(Ok(inner[..close.found.value]), el.cost + close.cost, false)
            else Pay(el.cost + close.cost, LocateBody(inner[close.cost..]))
  {
    hide NextElement, FindClose, Named;
  }

  method LocateBodyIn(s: string, budget: ParseBudget) returns (r: Result<string, SoapError>)
    modifies budget
    ensures Spent(old(budget.remaining), budget.remaining, LocateBody(s).cost)
    ensures r == Under(LocateBody(s), old(budget.remaining))
  {
    hide NextElement, FindClose, Named, LocateBody;
    var pos := 0;
    ghost var all, limit := LocateBody(s), budget.remaining;
    assert s[0..] == s;
    while true
      invariant pos <= |s|
      invariant budget.remaining + pos == limit
      invariant all == Pay(pos, LocateBody(s[pos..]))
      decreases |s| - pos
    {
      ghost var el := NextElement(s[pos..]);
      LocateBodyStep(s[pos..]);
      var tag := budget.NextElementFrom(s, pos);
      if tag.None? {
        return Err(if budget.Exhausted() then TooComplex else BodyNotFound);
      }
      var from, q := tag.value.end, tag.value.qname;
      assert s[pos..][el.cost..] == s[from..];
      var isBody := Named(q, "Body", "body");
      if !isBody && tag.value.selfClosing {
        pos := from;
      } else {
        var content := ContentOf(s, q, from, budget);
        if content.None? {
          return Err(if budget.Exhausted() then TooComplex else Malformed);
        }
        if isBody {
          return Ok(content.value.inner);
        }
        pos := content.value.next;
      }
    }
  }

  function Prepended(args: seq<Arg>, w: Work<seq<Arg>>): (r: Work<seq<Arg>>)
    ensures r.cost == w.cost && r.checks == w.checks && (w.result.Err? ==> r == w)
  {
    match w.result
    case Ok(more) => w.(result := Ok(args + more))
    case Err(_) => w
  }

  lemma PrependedStep(args: seq<Arg>, arg: Arg, n: nat, w: Work<seq<Arg>>)
    ensures Prepended(args, Pay(n, Before(arg, w))) == Pay(n, Prepended(args + [arg], w))
  {
    if w.result.Ok? {
      assert args + ([arg] + w.result.value) == args + [arg] + w.result.value;
    }
  }

  lemma PrependedNothing(w: Work<seq<Arg>>)
    ensures Prepended([], w) == w
  {
    if w.result.Ok? {
      assert [] + w.result.value == w.result.value;
    }
  }

  lemma PrependedEnd(args: seq<Arg>, cost: nat)
    ensures Prepended(args, Work(Ok([]), cost, true)) == Work(Ok(args), cost, true)
  {
    assert args + [] == args;
  }

  lemma {:induction false} ParseArgsStep(t: string)
    ensures var el := NextElement(t);
            ParseArgs(t) ==
            if el.found.None? then Work(Ok([]), el.cost, true) else
            var tag, inner := el.found.value.tag, t[el.cost..];
            var name := LocalName(tag.qname);
            if tag.selfClosing then Pay(el.cost, Before(Arg(name, ""), ParseArgs(inner))) else
            var close := FindClose(inner, tag.qname, 1);
            if close.found.None? then Work(Err(Malformed), el.cost + close.cost, true)
            else Pay(el.cost + close.cost,
                     Before(Arg(name, Unescape(Trim(inner[..close.found.value]))), ParseArgs(inner[close.cost..])))
  {
    hide NextElement, FindClose, LocalName, Unescape, Trim;
  }

  method ParseArgsIn(s: string, budget: ParseBudget) returns (r: Result<seq<Arg>, SoapError>)
    modifies budget
    ensures Spent(old(budget.remaining), budget.remaining, ParseArgs(s).cost)
    ensures r == Under(ParseArgs(s), old(budget.remaining))
  {
    hide NextElement, FindClose, LocalName, Unescape, Trim, ParseArgs, Prepended;
    var ap, args := 0, [];
    ghost var all, limit := ParseArgs(s), budget.remaining;
    assert s[0..] == s;
    PrependedNothing(all);
    while true
      invariant ap <= |s|
      invariant budget.remaining + ap == limit
      invariant all == Pay(ap, Prepended(args, ParseArgs(s[ap..])))
      decreases |s| - ap
    {
      ghost var el := NextElement(s[ap..]);
      ParseArgsStep(s[ap..]);
      var tag := budget.NextElementFrom(s, ap);
      if tag.None? {
        if budget.Exhausted() {
          return Err(TooComplex);
        }
        PrependedEnd(args, el.cost);
        break;
      }
      var from, q := tag.value.end, tag.value.qname;
      assert s[ap..][el.cost..] == s[from..];
      var arg := Arg(LocalName(q), "");
      if tag.value.selfClosing {
        PrependedStep(args, arg, el.cost, ParseArgs(s[from..]));
        ap := from;
      } else {
        var content := ContentOf(s, q, from, budget);
        if content.None? {
          return Err(if budget.Exhausted() then TooComplex else Malformed);
        }
        var text := TrimSpan(content.value.inner);
        var value := UnescapeXml(text);
        arg := arg.(value := value);
        PrependedStep(args, arg, content.value.next - ap, ParseArgs(s[content.value.next..]));
        ap := content.value.next;
      }
      args := args + [arg];
    }
    return Ok(args);
  }

  function ScanBudgetFor(size: nat): nat {
    if 8 * size > 0x10_0000 then 8 * size else 0x10_0000
  }

  method ParseActionIn(s: string, budget: ParseBudget) returns (r: Result<Request, SoapError>)
    modifies budget
    ensures r == Under(ParseAction(s), old(budget.remaining))
  {
    hide NextElement, FindClose, LocalName, PrefixOf, FindXmlns, ParseArgs;
    assert s[0..] == s;
    ghost var el := NextElement(s);
    var tag := budget.NextElementFrom(s, 0);
    if tag.None? {
      return Err(if budget.Exhausted() then TooComplex else ActionNotFound);
    }
    var from := tag.value.end;
    ghost var inner := s[el.cost..];
    var urn := FindXmlnsIn(tag.value.inside, PrefixOf(tag.value.qname));
    if urn.None? {
      return Err(NamespaceMissing);
    }
    var action := LocalName(tag.value.qname);
    if tag.value.selfClosing {
      return Ok(Request(urn.value, action, []));
    }
    var close := budget.CloseOf(s, tag.value.qname, from);
    if close.None? {
      return Err(if budget.Exhausted() then TooComplex else Malformed);
    }
    assert s[from..close.value] == inner[..close.value - from];
    var args := ParseArgsIn(s[from..close.value], budget);
    match args
    case Err(e) => return Err(e);
    case Ok(list) => return Ok(Request(urn.value, action, list));
  }

  function LimitFor(body: string, maxScanChars: nat): nat {
    if maxScanChars > 0 then maxScanChars else ScanBudgetFor(|body|)
  }

  lemma GivesUpExactly(body: string, maxScanChars: nat)
    ensures var r := Under(Parse(body), LimitFor(body, maxScanChars));
            (r == Err(TooComplex) <==> 0 < maxScanChars < Needed(Parse(body)))
            && (r != Err(TooComplex) ==> r == Parse(body).result)
  {
    hide Parse;
    WorkBound(body);
  }

  method ParseSoapRequest(body: string, maxScanChars: nat := 0) returns (r: Result<Request, SoapError>)
    ensures r == Under(Parse(body), LimitFor(body, maxScanChars))
    ensures r == Err(TooComplex) <==> 0 < maxScanChars < Needed(Parse(body))
    ensures r != Err(TooComplex) ==> r == Parse(body).result
  {
    hide ReadOpenTag, FindClose, LocalName, SkipMeta, LocateBody, ParseAction, Needed, LimitFor;
    GivesUpExactly(body, maxScanChars);
    var limit := LimitFor(body, maxScanChars);
    var stripped := SkipMetaText(body);
    if stripped == [] {
      return Err(Empty);
    }
    var envelope := OpenTagAt(stripped, 0);
    assert stripped[0..] == stripped;
    if envelope.None? || !Named(envelope.value.qname, "Envelope", "envelope") {
      return Err(Malformed);
    }
    if envelope.value.selfClosing {
      return Err(BodyNotFound);
    }
    var budget := new ParseBudget(limit);
    var from := envelope.value.end;
    var close := budget.CloseOf(stripped, envelope.value.qname, from);
    if close.None? {
      return Err(if budget.Exhausted() then TooComplex else Malformed);
    }
    ghost var inner := stripped[from..];
    assert stripped[from..close.value] == inner[..close.value - from];
    ghost var content := inner[..close.value - from];
    var located := LocateBodyIn(stripped[from..close.value], budget);
    match located
    case Err(e) =>
      return Err(e);
    case Ok(text) =>
      r := ParseActionIn(text, budget);
  }

  // ---------- what the budget can and cannot change ----------

  /** No parse charges more than four characters for each character of its body. */
  lemma WorkBound(body: string)
    ensures Parse(body).cost <= 4 * |body|
    ensures Parse(body).cost < ScanBudgetFor(|body|)
  {}

  /** With the default budget the parser never gives up, whatever the body. */
  lemma DefaultBudgetSuffices(body: string)
    ensures Under(Parse(body), ScanBudgetFor(|body|)) == Parse(body).result != Err(TooComplex)
  {
    WorkBound(body);
  }

  lemma BudgetsAgree(body: string, one: nat, other: nat)
    requires Under(Parse(body), one) != Err(TooComplex) && Under(Parse(body), other) != Err(TooComplex)
    ensures Under(Parse(body), one) == Under(Parse(body), other)
  {}
}
