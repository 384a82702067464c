/** The envelopes the program writes: the server's action responses and the client's Browse request. */
module SoapMessages {
  import opened Wrappers
  import opened Text
  import opened XmlText
  import opened XmlLexer
  import opened SoapParser
  import opened SoapDocument

  const ENVELOPE_NS := "http://schemas.xmlsoap.org/soap/envelope/"
  const ENCODING_NS := "http://schemas.xmlsoap.org/soap/encoding/"
  const SERVICE_SCHEMA := "urn:schemas-upnp-org:service:"
  const CONTENT_DIRECTORY := SERVICE_SCHEMA + "ContentDirectory:1"

  /** An action result: an output argument's name and value. */
  datatype Output = Output(name: string, value: string)

  function ResponseFields(results: seq<Output>): seq<Field> {
    seq(|results|, i requires 0 <= i < |results| => Field("", results[i].name, Escape(results[i].value)))
  }

  function ServerAttrs(): string {
    " xmlns:s=\"" + ENVELOPE_NS + "\"" + (" s:encodingStyle=\"" + ENCODING_NS + "\"")
  }

  function ResponseDocument(urn: string, action: string, results: seq<Output>): Document {
    Document("", ServerAttrs(), "", "", action + "Response", Escape(urn), ResponseFields(results), "", "", "", "")
  }

  lemma Assoc(a: string, b: string, c: string)
    ensures a + (b + c) == a + b + c
  {}

  /** Appends `piece` to a buffer that `piece + rest` would complete. */
  method Append(out: string, piece: string, ghost rest: string, ghost whole: string) returns (r: string)
    requires out + (piece + rest) == whole
    ensures r == out + piece && r + rest == whole
  {
    Assoc(out, piece, rest);
    r := out + piece;
  }

  method AppendFields(out: string, fields: seq<Field>, ghost rest: string, ghost whole: string) returns (r: string)
    requires out + (RenderFields(fields) + rest) == whole
    ensures r + rest == whole
  {
    hide StartText, EndText;
    r := out;
    assert fields[0..] == fields;
    for i := 0 to |fields|
      invariant r + (RenderFields(fields[i..]) + rest) == whole
    {
      var f := fields[i];
      ghost var more := RenderFields(fields[i + 1..]);
      assert fields[i..][0] == f && fields[i..][1..] == fields[i + 1..];
      Reassociate(f.gap, StartText(f.name, ""), f.raw, EndText(f.name), more, rest);
      r := Append(r, f.gap, StartText(f.name, "") + (f.raw + (EndText(f.name) + (more + rest))), whole);
      r := Append(r, StartText(f.name, ""), f.raw + (EndText(f.name) + (more + rest)), whole);
      r := Append(r, f.raw, EndText(f.name) + (more + rest), whole);
      r := Append(r, EndText(f.name), more + rest, whole);
    }
    assert RenderFields(fields[|fields|..]) + rest == rest;
  }

  lemma Reassociate(g: string, s: string, b: string, e: string, h: string, r: string)
    ensures (g + (s + (b + (e + h)))) + r == g + (s + (b + (e + (h + r))))
  {
    Assoc(e, h, r);
    Assoc(b, e + h, r);
    Assoc(s, b + (e + h), r);
    Assoc(g, s + (b + (e + h)), r);
  }

  /** Appends the pieces of an envelope in the order in which the program writes them. */
  method WriteDocument(d: Document) returns (out: string)
    ensures out == d.Render()
  {
    hide StartText, EndText, RenderFields;
    ghost var whole := d.Render();
    var envelope, body, action :=
      StartText("s:Envelope", d.attrs), StartText("s:Body", ""), StartText("u:" + d.action, d.ActionAttrs());
    var actionEnd, bodyEnd, envelopeEnd := EndText("u:" + d.action), EndText("s:Body"), EndText("s:Envelope");
    ghost var r3 := envelopeEnd + d.tail;
    ghost var r2 := bodyEnd + (d.gap5 + r3);
    ghost var r1 := actionEnd + (d.gap4 + r2);
    Reassociate(d.gap1, body, d.Body(), bodyEnd, d.gap5, r3);
    Reassociate(d.gap2, action, d.Arguments(), actionEnd, d.gap4, r2);
    Assoc(RenderFields(d.fields), d.gap3, r1);
    out := Append(DECLARATION, d.lead, envelope + (d.Envelope() + r3), whole);
    out := Append(out, envelope, d.Envelope() + r3, whole);
    out := Append(out, d.gap1, body + (d.Body() + r2), whole);
    out := Append(out, body, d.Body() + r2, whole);
    out := Append(out, d.gap2, action + (d.Arguments() + r1), whole);
    out := Append(out, action, d.Arguments() + r1, whole);
    out := AppendFields(out, d.fields, d.gap3 + r1, whole);
    out := Append(out, d.gap3, r1, whole);
    out := Append(out, actionEnd, d.gap4 + r2, whole);
    out := Append(out, d.gap4, r2, whole);
    out := Append(out, bodyEnd, d.gap5 + r3, whole);
    out := Append(out, d.gap5, r3, whole);
    out := Append(out, envelopeEnd, d.tail, whole);
    out := out + d.tail;
  }

  method BuildSoapResponse(urn: string, action: string, results: seq<Output>) returns (out: string)
    ensures out == ResponseDocument(urn, action, results).Render()
  {
    var fields: seq<Field> := [];
    for i := 0 to |results|
      invariant fields == ResponseFields(results)[..i]
    {
      var value := EscapeXml(results[i].value);
      fields := fields + [Field("", results[i].name, value)];
    }
    assert ResponseFields(results)[..|results|] == ResponseFields(results);
    var name := EscapeXml(urn);
    out := WriteDocument(Document("", ServerAttrs(), "", "", action + "Response", name, fields, "", "", "", ""));
  }

  // ---------- the server's responses ----------

  lemma AttributeEnds(name: string, value: string)
    ensures var a := " " + name + "=\"" + value + "\""; a[0] == ' ' && a[|a| - 1] == '"'
  {}

  lemma ServerAttrsSplit(envelope: string, encoding: string)
    ensures " xmlns:s=\"" + envelope + "\"" + (" s:encodingStyle=\"" + encoding + "\"") ==
            " " + "xmlns:s" + "=\"" + envelope + "\"" + (" " + "s:encodingStyle" + "=\"" + encoding + "\"")
  {
    assert " " + "xmlns:s" + "=\"" == " xmlns:s=\"";
    assert " " + "s:encodingStyle" + "=\"" == " s:encodingStyle=\"";
  }

  lemma ServerAttributes()
    ensures Attributes(ServerAttrs())
  {
    LiteralsArePlain();
    ServerAttrsSplit(ENVELOPE_NS, ENCODING_NS);
    TwoAttributesOf("xmlns:s", ENVELOPE_NS, "s:encodingStyle", ENCODING_NS);
  }

  lemma TwoAttributesOf(name: string, value: string, name': string, value': string)
    requires IsQName(name) && IsQName(name') && '"' !in value && '"' !in value'
    ensures Attributes(" " + name + "=\"" + value + "\"" + (" " + name' + "=\"" + value' + "\""))
  {
    hide Neutral, Attributes;
    NeutralAttribute(name, value);
    NeutralAttribute(name', value');
    AttributeEnds(name, value);
    AttributeEnds(name', value');
    TwoAttributes(" " + name + "=\"" + value + "\"", " " + name' + "=\"" + value' + "\"");
  }

  lemma TwoAttributes(one: string, two: string)
    requires one != [] && !IsQNamePart(one[0]) && two != [] && two[|two| - 1] != '/'
    requires Neutral(one) && Neutral(two)
    ensures Attributes(one + two)
  {
    hide Neutral;
    NeutralConcat(one, None, two);
    assert (one + two)[0] == one[0] && (one + two)[|one + two| - 1] == two[|two| - 1];
  }

  lemma LiteralsArePlain()
    ensures '"' !in ENVELOPE_NS && '"' !in ENCODING_NS && '"' !in CONTENT_DIRECTORY
  {
    assert forall k :: 0 <= k < |ENVELOPE_NS| ==> ENVELOPE_NS[k] != '"';
    assert forall k :: 0 <= k < |ENCODING_NS| ==> ENCODING_NS[k] != '"';
    assert forall k :: 0 <= k < |SERVICE_SCHEMA| ==> SERVICE_SCHEMA[k] != '"';
  }

  /** The fixed texts of an envelope. */
  lemma EnvelopeTexts()
    ensures DECLARATION == "<?xml version=\"1.0\" encoding=\"utf-8\"?>"
    ensures ENVELOPE_NS == "http://schemas.xmlsoap.org/soap/envelope/"
    ensures ENCODING_NS == "http://schemas.xmlsoap.org/soap/encoding/"
    ensures CONTENT_DIRECTORY == "urn:schemas-upnp-org:service:ContentDirectory:1"
    ensures ServerAttrs() == " xmlns:s=\"" + ENVELOPE_NS + "\" s:encodingStyle=\"" + ENCODING_NS + "\""
  {
    assert "<" + VERSION_PART == "<?xml version=\"1.0\"";
  }

  lemma NameAppend(a: string, b: string)
    requires IsName(a) && forall c :: c in b ==> IsNamePart(c)
    ensures IsName(a + b)
  {}

  ghost predicate Printable(action: string, results: seq<Output>) {
    IsName(action) && forall o :: o in results ==> IsName(o.name)
  }

  lemma ResponseWellFormed(urn: string, action: string, results: seq<Output>)
    requires Printable(action, results)
    ensures ResponseDocument(urn, action, results).WellFormed()
  {
    hide Attributes, Escape, IsName;
    ServerAttributes();
    EscapeIsPlain(urn);
    ResponseName(action);
    forall i | 0 <= i < |results| ensures TagFree(ResponseFields(results)[i].raw) && IsName(results[i].name) {
      EscapeIsPlain(results[i].value);
      assert results[i] in results;
    }
  }

  lemma ResponseName(action: string)
    requires IsName(action)
    ensures IsName(action + "Response")
  {
    NameAppend(action, "Response");
  }

  /**
   A response parses back to its action with every value up to its outer white space. The service name
   comes back in its escaped form, because the parser does not decode attributes.
   */
  lemma ResponseRoundTrip(urn: string, action: string, results: seq<Output>)
    requires Printable(action, results)
    ensures Parse(ResponseDocument(urn, action, results).Render()).result ==
            Ok(Request(Escape(urn), action + "Response",
                       seq(|results|, i requires 0 <= i < |results| => Arg(results[i].name, Trim(results[i].value)))))
  {
    hide Escape, Trim, Unescape, Parse;
    var d := ResponseDocument(urn, action, results);
    ResponseWellFormed(urn, action, results);
    ParseDocument(d);
    forall i | 0 <= i < |results|
      ensures Args(d.fields)[i] == Arg(results[i].name, Trim(results[i].value))
    {
      ValueRoundTrip(results[i].value);
    }
    assert Args(d.fields) ==
           seq(|results|, i requires 0 <= i < |results| => Arg(results[i].name, Trim(results[i].value)));
  }

  /** Every value comes back as it was, a Browse result for one, exactly when none has outer white space. */
  lemma ValuesSurviveExactly(urn: string, action: string, results: seq<Output>)
    requires Printable(action, results)
    ensures Parse(ResponseDocument(urn, action, results).Render()).result.Ok?
    ensures Parse(ResponseDocument(urn, action, results).Render()).result.value.args ==
            seq(|results|, i requires 0 <= i < |results| => Arg(results[i].name, results[i].value))
            <==> forall o :: o in results ==> NoOuterSpace(o.value)
  {
    hide Escape, Trim, Parse, Printable, NoOuterSpace, Document.Render, ResponseDocument;
    ResponseRoundTrip(urn, action, results);
    var args := Parse(ResponseDocument(urn, action, results).Render()).result.value.args;
    var sent := seq(|results|, i requires 0 <= i < |results| => Arg(results[i].name, results[i].value));
    forall i | 0 <= i < |results| ensures args[i] == sent[i] <==> NoOuterSpace(results[i].value) {
      TrimFixedPoint(results[i].value);
    }
    assert forall i :: 0 <= i < |results| ==> results[i] in results;
    if args == sent {
      forall o | o in results ensures NoOuterSpace(o.value) {
        var i :| 0 <= i < |results| && results[i] == o;
        assert args[i] == sent[i];
      }
    }
    if forall o :: o in results ==> NoOuterSpace(o.value) {
      assert args == sent;
    }
  }

  /** The service name survives exactly when it holds none of the five escaped characters. */
  lemma ServiceNameRoundTrip(urn: string, action: string, results: seq<Output>)
    requires Printable(action, results)
    ensures Parse(ResponseDocument(urn, action, results).Render()).result.Ok?
    ensures Parse(ResponseDocument(urn, action, results).Render()).result.value.serviceUrn == urn
            <==> forall c :: c in urn ==> !IsMarkup(c)
  {
    ResponseRoundTrip(urn, action, results);
    EscapeFixedPoint(urn);
  }
}
