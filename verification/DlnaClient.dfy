/** The command-line client: its Browse request, and its scan of the server's response. */
module DlnaClient {
  import opened Wrappers
  import opened Text
  import opened XmlText
  import opened SoapParser
  import opened SoapDocument
  import opened SoapMessages

  // ---------- the request ----------

  function BrowseRequestDocument(objectId: string, start: nat, count: nat): Document {
    Document("\n", " xmlns:s=\"" + ENVELOPE_NS + "\"", "\n  ", "\n    ", "Browse", CONTENT_DIRECTORY, [
        Field("\n      ", "ObjectID", objectId),
        Field("\n      ", "BrowseFlag", "BrowseDirectChildren"),
        Field("\n      ", "Filter", "*"),
        Field("\n      ", "StartingIndex", Decimal(start)),
        Field("\n      ", "RequestedCount", Decimal(count)),
        Field("\n      ", "SortCriteria", "")],
      "\n    ", "\n  ", "\n", "\n")
  }

  method BuildBrowseRequest(objectId: string, start: nat, count: nat) returns (out: string)
    ensures out == BrowseRequestDocument(objectId, start, count).Render()
  {
    out := WriteDocument(BrowseRequestDocument(objectId, start, count));
  }

  function BrowseArgs(objectId: string, start: nat, count: nat): seq<Arg> {
    [Arg("ObjectID", objectId), Arg("BrowseFlag", "BrowseDirectChildren"), Arg("Filter", "*"),
     Arg("StartingIndex", Decimal(start)), Arg("RequestedCount", Decimal(count)), Arg("SortCriteria", "")]
  }

  lemma RequestAttributes()
    ensures Attributes(" xmlns:s=\"" + ENVELOPE_NS + "\"")
  {
    hide Neutral;
    LiteralsArePlain();
    NeutralAttribute("xmlns:s", ENVELOPE_NS);
    assert " " + "xmlns:s" + "=\"" + ENVELOPE_NS + "\"" == " xmlns:s=\"" + ENVELOPE_NS + "\"";
  }

  lemma RequestNames()
    ensures IsName("Browse") && IsName("ObjectID") && IsName("BrowseFlag") && IsName("Filter")
    ensures IsName("StartingIndex") && IsName("RequestedCount") && IsName("SortCriteria")
  {}

  /** Text in which decoding and trimming find nothing to do. */
  lemma PlainValue(v: string)
    requires forall c :: c in v ==> c != '&' && !IsSpace(c)
    ensures Unescape(Trim(v)) == v
  {
    hide Unescape, Trim;
    assert v != [] ==> v[0] in v && v[|v| - 1] in v;
    TrimFixedPoint(v);
    UnescapeFixedPoint(v);
    forall k | 0 <= k < |v| ensures EntityAt(v[k..]).None? {
      assert v[k..][0] == v[k] && v[k] in v;
    }
  }

  lemma PlainValues(start: nat, count: nat)
    ensures Unescape(Trim("BrowseDirectChildren")) == "BrowseDirectChildren" && Unescape(Trim("*")) == "*"
    ensures Unescape(Trim(Decimal(start))) == Decimal(start) && Unescape(Trim(Decimal(count))) == Decimal(count)
    ensures Unescape(Trim("")) == ""
  {
    hide Unescape, Trim, Decimal;
    PlainValue("BrowseDirectChildren");
    PlainValue("*");
    PlainValue(Decimal(start));
    PlainValue(Decimal(count));
    PlainValue("");
  }

  lemma RequestWellFormed(objectId: string, start: nat, count: nat)
    requires TagFree(objectId)
    ensures BrowseRequestDocument(objectId, start, count).WellFormed()
  {
    hide Attributes, IsName, Decimal, TagFree;
    RequestAttributes();
    RequestNames();
    RequestTagFree();
    DecimalTagFree(start);
    DecimalTagFree(count);
    LiteralsArePlain();
    var d := BrowseRequestDocument(objectId, start, count);
    forall i | 0 <= i < |d.fields|
      ensures TagFree(d.fields[i].gap) && IsName(d.fields[i].name) && TagFree(d.fields[i].raw)
    {}
  }

  lemma RequestTagFree()
    ensures TagFree("\n") && TagFree("\n  ") && TagFree("\n    ") && TagFree("\n      ")
    ensures TagFree("BrowseDirectChildren") && TagFree("*") && TagFree("")
  {}

  lemma DecimalTagFree(n: nat)
    ensures TagFree(Decimal(n))
  {}

  /** Trimming and decoding leave an id alone exactly when it has no outer white space and holds no entity. */
  lemma ObjectIdSurvives(objectId: string)
    ensures Unescape(Trim(objectId)) == objectId <==> NoOuterSpace(objectId) && !HoldsEntity(objectId)
  {
    TrimFixedPoint(objectId);
    UnescapeLength(Trim(objectId));
    UnescapeFixedPoint(objectId);
    TrimLeftShape(objectId);
    TrimRightShape(TrimLeft(objectId));
  }

  // ---------- the scan of the response ----------

  predicate IsBlank(c: char) {
    c == ' ' || c == '\t' || c == '\r' || c == '\n'
  }

  /** Where the name of a tag ends, as the client sees it. */
  predicate EndsName(c: char, slash: bool) {
    c == '>' || IsBlank(c) || (slash && c == '/')
  }

  predicate Stops(c: char, slash: bool) {
    c == ':' || EndsName(c, slash)
  }

  /** Number of characters in front of the first `:` or name end. */
  function StopAt(t: string, slash: bool): (n: nat)
    ensures n <= |t| && (n < |t| ==> Stops(t[n], slash))
    ensures forall k :: 0 <= k < n ==> !Stops(t[k], slash)
  {
    if t == [] || Stops(t[0], slash) then 0 else 1 + StopAt(t[1..], slash)
  }

  /** `tag` stands at the head of `t` and the name ends with it. */
  predicate Names(t: string, tag: string, slash: bool) {
    tag <= t && |tag| < |t| && EndsName(t[|tag|], slash)
  }

  /** The name after an optional `prefix:` is `tag`; `None` when no name end follows at all. */
  function NamedTag(t: string, tag: string, slash: bool): Option<bool> {
    var k := StopAt(t, slash);
    if k == |t| then None
    else Some(Names(if t[k] == ':' then t[k + 1..] else t, tag, slash))
  }

  function FindOpenTag(t: string, tag: string): (r: Option<nat>)
    ensures r.Some? ==> r.value < |t| && t[r.value] == '<'
    decreases |t|
  {
    match Find(t, "<")
    case None => None
    case Some(lt) =>
      if lt + 1 >= |t| then None
      else if t[lt + 1] == '/' || t[lt + 1] == '!' || t[lt + 1] == '?' then
        Shift(lt + 1, FindOpenTag(t[lt + 1..], tag))
      else match NamedTag(t[lt + 1..], tag, true)
        case None => None
        case Some(true) => Some(lt)
        case Some(false) => Shift(lt + 1, FindOpenTag(t[lt + 1..], tag))
  }

  method FindOpenTagIn(body: string, tag: string) returns (r: Option<nat>)
    ensures r == FindOpenTag(body, tag)
  {
    hide FindOpenTag, Find, NamedTag;
    var from := 0;
    assert body[0..] == body;
    while from < |body|
      invariant from <= |body|
      invariant FindOpenTag(body, tag) == Shift(from, FindOpenTag(body[from..], tag))
      decreases |body| - from
    {
      FindOpenTagStep(body[from..], tag);
      var lt := Find(body[from..], "<");
      if lt.None? {
        return None;
      }
      var after := from + lt.value + 1;
      assert body[from..][lt.value + 1..] == body[after..];
      if after >= |body| {
        return None;
      }
      if body[after] != '/' && body[after] != '!' && body[after] != '?' {
        var named := NamedTag(body[after..], tag, true);
        if named.None? {
          return None;
        }
        if named.value {
          return Some(after - 1);
        }
      }
      from := after;
    }
    FindOpenTagStep(body[from..], tag);
    NothingFound();
    return None;
  }

  lemma NothingFound()
    ensures Find("", "<") == None
  {}

  lemma {:induction false} FindOpenTagStep(t: string, tag: string)
    ensures FindOpenTag(t, tag) ==
            var lt := Find(t, "<");
            if lt.None? || lt.value + 1 >= |t| then None else
            var u := t[lt.value + 1..];
            var again := Shift(lt.value + 1, FindOpenTag(u, tag));
            if u[0] == '/' || u[0] == '!' || u[0] == '?' then again else
            var named := NamedTag(u, tag, true);
            if named.None? then None else if named.value then lt else again
  {
    hide Find, NamedTag;
  }

  function TrimBlankLeft(s: string): string {
    if s != [] && IsBlank(s[0]) then TrimBlankLeft(s[1..]) else s
  }

  function TrimBlankRight(s: string): string {
    if s != [] && IsBlank(s[|s| - 1]) then TrimBlankRight(s[..|s| - 1]) else s
  }

  function TrimBlank(s: string): string {
    TrimBlankRight(TrimBlankLeft(s))
  }

  /** The text in front of the first closing tag named `tag`; `seen` characters of it are behind `t`. */
  function UpToClose(content: string, seen: nat, tag: string): string
    requires seen <= |content|
    decreases |content| - seen
  {
    match Find(content[seen..], "</")
    case None => ""
    case Some(lt) =>
      match NamedTag(content[seen + lt + 2..], tag, false)
      case None => ""
      case Some(true) => TrimBlank(content[..seen + lt])
      case Some(false) => UpToClose(content, seen + lt + 2, tag)
  }

  function ExtractText(body: string, tag: string): string {
    match FindOpenTag(body, tag)
    case None => ""
    case Some(lt) =>
      match Find(body[lt..], ">")
      case None => ""
      case Some(gt) =>
        if gt > 0 && body[lt + gt - 1] == '/' then ""
        else UpToClose(body[lt + gt + 1..], 0, tag)
  }

  method ExtractXmlText(body: string, tag: string) returns (r: string)
    ensures r == ExtractText(body, tag)
  {
    hide Find, NamedTag, FindOpenTag;
    var lt := FindOpenTagIn(body, tag);
    if lt.None? {
      return "";
    }
    var gt := Find(body[lt.value..], ">");
    if gt.None? {
      return "";
    }
    var at := lt.value + gt.value;
    if gt.value > 0 && body[at - 1] == '/' {
      return "";
    }
    r := TextUpToClose(body[at + 1..], tag);
  }

  method TextUpToClose(content: string, tag: string) returns (r: string)
    ensures r == UpToClose(content, 0, tag)
  {
    hide Find, NamedTag, TrimBlank;
    var pos := 0;
    while pos < |content|
      invariant pos <= |content|
      invariant UpToClose(content, pos, tag) == UpToClose(content, 0, tag)
      decreases |content| - pos
    {
      var close := Find(content[pos..], "</");
      if close.None? {
        return "";
      }
      var named := NamedTag(content[pos + close.value + 2..], tag, false);
      if named.None? {
        return "";
      }
      if named.value {
        return TrimBlank(content[..pos + close.value]);
      }
      pos := pos + close.value + 2;
    }
    NoCloseTag(content, pos);
    return "";
  }

  lemma NoCloseTag(content: string, pos: nat)
    requires pos == |content|
    ensures Find(content[pos..], "</") == None
  {}

  datatype BrowseSummary = BrowseSummary(numberReturned: nat, totalMatches: nat, updateId: nat)

  datatype ClientError = SoapFault(text: string) | CountsMissing | NotANumber(field: string)

  /** Decimal digits at the head of `s`. */
  function DigitCount(s: string): (n: nat)
    ensures n <= |s| && AllDigits(s[..n])
  {
    if s == [] || !IsDigit(s[0]) then 0
    else
      assert s[..1 + DigitCount(s[1..])] == [s[0]] + s[1..][..DigitCount(s[1..])];
      1 + DigitCount(s[1..])
  }

  /** The client's `parse_u32`: unlike the server's it lets anything follow the digits. */
  function LeadingUint32(s: string): Option<nat> {
    var t := TrimBlank(s);
    var n := DigitCount(t);
    if n == 0 || DigitsValue(t[..n]) >= 0x1_0000_0000 then None else Some(DigitsValue(t[..n]))
  }

  function Summary(body: string): Result<BrowseSummary, ClientError> {
    var total, returned, update :=
      ExtractText(body, "TotalMatches"), ExtractText(body, "NumberReturned"), ExtractText(body, "UpdateID");
    if total == "" && returned == "" then
      var fault := ExtractText(body, "faultstring");
      Err(if fault != "" then SoapFault(fault) else CountsMissing)
    else if LeadingUint32(total).None? then Err(NotANumber("TotalMatches"))
    else if LeadingUint32(returned).None? then Err(NotANumber("NumberReturned"))
    else
      var id := if update != "" && LeadingUint32(update).Some? then LeadingUint32(update).value else 0;
      Ok(BrowseSummary(LeadingUint32(returned).value, LeadingUint32(total).value, id))
  }

  method ParseBrowseResponse(body: string) returns (r: Result<BrowseSummary, ClientError>)
    ensures r == Summary(body)
  {
    var total := ExtractXmlText(body, "TotalMatches");
    var returned := ExtractXmlText(body, "NumberReturned");
    var update := ExtractXmlText(body, "UpdateID");
    if total == "" && returned == "" {
      var fault := ExtractXmlText(body, "faultstring");
      return Err(if fault != "" then SoapFault(fault) else CountsMissing);
    }
    var t := LeadingUint32(total);
    if t.None? {
      return Err(NotANumber("TotalMatches"));
    }
    var n := LeadingUint32(returned);
    if n.None? {
      return Err(NotANumber("NumberReturned"));
    }
    var id := 0;
    if update != "" {
      var v := LeadingUint32(update);
      if v.Some? {
        id := v.value;
      }
    }
    return Ok(BrowseSummary(n.value, t.value, id));
  }
}
