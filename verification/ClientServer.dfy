/** What the client's scan finds in a response that the server wrote. */
module ClientServer {
  import opened Wrappers
  import opened Text
  import opened XmlText
  import opened XmlLexer
  import opened SoapDocument
  import opened SoapMessages
  import opened DlnaClient

  // ---------- text in which the client finds no opening tag of a name ----------

  ghost predicate Quiet(x: string, tag: string) {
    forall rest :: FindOpenTag(x + rest, tag) == Shift(|x|, FindOpenTag(rest, tag))
  }

  lemma {:induction false} FirstBracket(x: string, rest: string)
    requires TagFree(x)
    ensures Find(x + rest, "<") == Shift(|x|, Find(rest, "<"))
  {
    if x == [] {
      assert x + rest == rest;
    } else {
      var t := x + rest;
      assert x[0] in x && t[0] == x[0] != '<' && t[1..] == x[1..] + rest;
      FirstBracket(x[1..], rest);
      assert Find(t, "<") == Shift(1, Find(t[1..], "<"));
    }
  }

  lemma QuietText(x: string, tag: string)
    requires TagFree(x)
    ensures Quiet(x, tag)
  {
    hide FindOpenTag;
    forall rest ensures FindOpenTag(x + rest, tag) == Shift(|x|, FindOpenTag(rest, tag)) {
      QuietTextAt(x, tag, rest);
    }
  }

  lemma QuietTextAt(x: string, tag: string, rest: string)
    requires TagFree(x)
    ensures FindOpenTag(x + rest, tag) == Shift(|x|, FindOpenTag(rest, tag))
  {
    hide FindOpenTag, Find, NamedTag;
    FirstBracket(x, rest);
    FindOpenTagStep(x + rest, tag);
    FindOpenTagStep(rest, tag);
    var lt := Find(rest, "<");
    if lt.Some? {
      assert (x + rest)[|x| + lt.value + 1..] == rest[lt.value + 1..];
    }
  }

  lemma QuietConcat(x: string, y: string, tag: string)
    requires Quiet(x, tag) && Quiet(y, tag)
    ensures Quiet(x + y, tag)
  {
    hide FindOpenTag, Quiet;
    QuietEach(x + y, tag) by {
      forall rest ensures FindOpenTag(x + y + rest, tag) == Shift(|x + y|, FindOpenTag(rest, tag)) {
        assert x + y + rest == x + (y + rest);
        QuietAt(x, tag, y + rest);
        QuietAt(y, tag, rest);
      }
    }
  }

  lemma QuietAt(x: string, tag: string, rest: string)
    requires Quiet(x, tag)
    ensures FindOpenTag(x + rest, tag) == Shift(|x|, FindOpenTag(rest, tag))
  {
    hide FindOpenTag;
  }

  lemma QuietEach(x: string, tag: string)
    requires forall rest :: FindOpenTag(x + rest, tag) == Shift(|x|, FindOpenTag(rest, tag))
    ensures Quiet(x, tag)
  {
    hide FindOpenTag;
  }

  /** A `<` that the client steps over because of the character behind it. */
  lemma QuietMark(b: string, tag: string)
    requires TagFree(b) && b != [] && (b[0] == '/' || b[0] == '!' || b[0] == '?')
    ensures Quiet("<" + b, tag)
  {
    hide FindOpenTag, Quiet;
    QuietEach("<" + b, tag) by {
      forall rest ensures FindOpenTag("<" + b + rest, tag) == Shift(|"<" + b|, FindOpenTag(rest, tag)) {
        SkipMark(b, tag, rest);
      }
    }
  }

  lemma SkipMark(b: string, tag: string, rest: string)
    requires TagFree(b) && b != [] && (b[0] == '/' || b[0] == '!' || b[0] == '?')
    ensures FindOpenTag("<" + b + rest, tag) == Shift(|b| + 1, FindOpenTag(rest, tag))
  {
    hide FindOpenTag, NamedTag, Find;
    var t := "<" + b + rest;
    HeadFound(t);
    assert t[1..] == b + rest && (b + rest)[0] == b[0];
    FindOpenTagStep(t, tag);
    QuietTextAt(b, tag, rest);
  }

  lemma {:induction false} StopInside(n: string, c: char, rest: string)
    requires forall d :: d in n ==> IsNamePart(d)
    requires Stops(c, true)
    ensures StopAt(n + [c] + rest, true) == |n|
    ensures c != '/' ==> StopAt(n + [c] + rest, false) == |n|
  {
    var t := n + [c] + rest;
    if n == [] {
      assert t[0] == c;
    } else {
      assert n[0] in n && t[0] == n[0] && t[1..] == n[1..] + [c] + rest;
      StopInside(n[1..], c, rest);
    }
  }

  /** Names that end at a name end match only themselves. */
  lemma NamesExactly(n: string, c: char, rest: string, tag: string, slash: bool)
    requires IsName(tag) && (forall d :: d in n ==> IsNamePart(d)) && EndsName(c, slash)
    ensures Names(n + [c] + rest, tag, slash) <==> n == tag
  {
    var t := n + [c] + rest;
    assert t[..|n|] == n && t[|n|] == c;
    assert forall k :: 0 <= k < |n| ==> n[k] in n;
    assert forall k :: 0 <= k < |tag| ==> tag[k] in tag;
  }

  /** An opening tag `<name...>` or `<prefix:name...>` whose local name is another one. */
  lemma QuietStart(prefix: string, n: string, attrs: string, tag: string)
    requires IsName(tag) && IsName(n) && n != tag && (prefix == "" || IsName(prefix))
    requires TagFree(attrs) && (attrs == "" || attrs[0] == ' ')
    ensures Quiet(StartText(if prefix == "" then n else prefix + ":" + n, attrs), tag)
  {
    hide FindOpenTag, Find, NamedTag, Quiet;
    var name := if prefix == "" then n else prefix + ":" + n;
    var b := name + attrs + ">";
    NameTagFree(name, prefix, n);
    forall rest: string ensures NamedTag(b + rest, tag, true) == Some(false) {
      LocalNameDecides(prefix, n, attrs, rest, tag);
    }
    QuietBracket(b, tag);
    assert "<" + b == StartText(name, attrs);
  }

  lemma QuietBracket(b: string, tag: string)
    requires IsName(tag) && TagFree(b) && b != ""
    requires forall rest :: NamedTag(b + rest, tag, true) == Some(false)
    ensures Quiet("<" + b, tag)
  {
    hide FindOpenTag, Find, NamedTag;
    var x := "<" + b;
    forall rest ensures FindOpenTag(x + rest, tag) == Shift(|x|, FindOpenTag(rest, tag)) {
      FindOpenTagStep(x + rest, tag);
      assert (x + rest)[1..] == b + rest;
      QuietText(b, tag);
      HeadFound(x + rest);
    }
  }

  lemma HeadFound(t: string)
    requires t != [] && t[0] == '<'
    ensures Find(t, "<") == Some(0)
  {
    assert "<" <= t;
  }

  lemma NameTagFree(name: string, prefix: string, n: string)
    requires IsName(n) && (prefix == "" || IsName(prefix))
    requires name == if prefix == "" then n else prefix + ":" + n
    ensures TagFree(name) && name != [] && IsNameStart(name[0])
  {}

  lemma LocalNameDecides(prefix: string, n: string, attrs: string, rest: string, tag: string)
    requires IsName(tag) && IsName(n) && (prefix == "" || IsName(prefix))
    requires attrs == "" || attrs[0] == ' '
    ensures NamedTag((if prefix == "" then n else prefix + ":" + n) + attrs + ">" + rest, tag, true) == Some(n == tag)
  {
    var c := if attrs == "" then '>' else ' ';
    var more := if attrs == "" then rest else attrs[1..] + ">" + rest;
    var local := n + [c] + more;
    assert n + attrs + ">" + rest == local;
    NamesExactly(n, c, more, tag, true);
    if prefix == "" {
      StopInside(n, c, more);
      assert local[|n|] == c;
    } else {
      var t := prefix + ":" + n + attrs + ">" + rest;
      assert t == prefix + [':'] + local;
      StopInside(prefix, ':', local);
      assert t[|prefix|] == ':' && t[|prefix| + 1..] == local;
    }
  }

  lemma QuietField(f: Field, tag: string)
    requires IsName(tag) && TagFree(f.gap) && IsName(f.name) && TagFree(f.raw) && f.name != tag
    ensures Quiet(f.gap + (StartText(f.name, "") + (f.raw + EndText(f.name))), tag)
  {
    hide Quiet;
    QuietText(f.gap, tag);
    QuietStart("", f.name, "", tag);
    QuietText(f.raw, tag);
    QuietMark("/" + f.name + ">", tag);
    assert EndText(f.name) == "<" + ("/" + f.name + ">");
    QuietConcat(f.raw, EndText(f.name), tag);
    QuietConcat(StartText(f.name, ""), f.raw + EndText(f.name), tag);
    QuietConcat(f.gap, StartText(f.name, "") + (f.raw + EndText(f.name)), tag);
  }

  lemma {:induction false} QuietFields(fields: seq<Field>, tag: string)
    requires IsName(tag)
    requires forall f :: f in fields ==> TagFree(f.gap) && IsName(f.name) && TagFree(f.raw) && f.name != tag
    ensures Quiet(RenderFields(fields), tag)
  {
    hide Quiet, StartText, EndText;
    if fields == [] {
      QuietText([], tag);
    } else {
      var f := fields[0];
      assert f in fields;
      QuietField(f, tag);
      QuietFields(fields[1..], tag);
      var element := f.gap + (StartText(f.name, "") + (f.raw + EndText(f.name)));
      QuietConcat(element, RenderFields(fields[1..]), tag);
      assert RenderFields(fields) == element + RenderFields(fields[1..]);
    }
  }

  // ---------- the text the client extracts ----------

  lemma {:induction false} FindCloseMark(raw: string, rest: string)
    requires TagFree(raw) && rest != [] && rest[0] == '/'
    ensures Find(raw + ("<" + rest), "</") == Some(|raw|)
  {
    var t := raw + ("<" + rest);
    if raw == [] {
      assert t[0] == '<' && t[1] == '/';
    } else {
      assert raw[0] in raw && t[0] == raw[0] && t[1..] == raw[1..] + ("<" + rest);
      FindCloseMark(raw[1..], rest);
    }
  }

  lemma {:induction false} FindEndMark(x: string, rest: string)
    requires '>' !in x
    ensures Find(x + (">" + rest), ">") == Some(|x|)
  {
    var t := x + (">" + rest);
    if x == [] {
      assert t[0] == '>';
    } else {
      assert x[0] in x && t[0] == x[0] && t[1..] == x[1..] + (">" + rest);
      FindEndMark(x[1..], rest);
    }
  }

  /** What is extracted once the opening tag and its `>` are found. */
  lemma ExtractAt(body: string, tag: string, lt: nat, gt: nat, content: string)
    requires FindOpenTag(body, tag) == Some(lt) && Find(body[lt..], ">") == Some(gt)
    requires gt > 0 && lt + gt < |body| && body[lt + gt - 1] != '/' && body[lt + gt + 1..] == content
    ensures ExtractText(body, tag) == UpToClose(content, 0, tag)
  {
    hide FindOpenTag, Find, UpToClose;
  }

  lemma UpToOwnClose(name: string, raw: string, tail: string)
    requires IsName(name) && TagFree(raw)
    ensures UpToClose(raw + (EndText(name) + tail), 0, name) == TrimBlank(raw)
  {
    hide Find, NamedTag, TrimBlank, EndText, UpToClose, IsName;
    var content := raw + (EndText(name) + tail);
    CloseFound(name, raw, tail);
    UpToCloseStep(content, 0, name);
    assert content[0..] == content && content[..|raw|] == raw;
  }

  /** The first element of that name behind quiet text is the one extracted. */
  lemma ExtractElement(head: string, name: string, raw: string, tail: string)
    requires IsName(name) && Quiet(head, name) && TagFree(raw)
    ensures ExtractText(head + (StartText(name, "") + (raw + (EndText(name) + tail))), name) == TrimBlank(raw)
  {
    hide FindOpenTag, Find, ExtractText, UpToClose, TrimBlank, Quiet, StartText, EndText, IsName;
    var content := raw + (EndText(name) + tail);
    var element := StartText(name, "") + content;
    FindsElement(name, content);
    QuietAt(head, name, element);
    StartLength(name, content);
    TextBehind(head, element, |name| + 1);
    UpToOwnClose(name, raw, tail);
    ExtractAt(head + element, name, |head|, |name| + 1, content);
  }

  /** An element of that name without content, with attributes and blanks or none, is extracted as nothing. */
  lemma EmptyElementIsNothing(head: string, name: string, attrs: string, rest: string)
    requires IsName(name) && Quiet(head, name) && '>' !in attrs && (attrs == "" || IsBlank(attrs[0]))
    ensures ExtractText(head + (("<" + name + attrs + "/") + (">" + rest)), name) == ""
  {
    hide FindOpenTag, Find, Quiet, IsName;
    var b := "<" + name + attrs + "/";
    var element := b + (">" + rest);
    FindsEmptyElement(name, attrs, rest);
    QuietAt(head, name, element);
    TextBehind(head, element, |b|);
  }

  lemma FindsEmptyElement(name: string, attrs: string, rest: string)
    requires IsName(name) && '>' !in attrs && (attrs == "" || IsBlank(attrs[0]))
    ensures var b := "<" + name + attrs + "/";
            FindOpenTag(b + (">" + rest), name) == Some(0) && Find(b + (">" + rest), ">") == Some(|b|)
  {
    hide FindOpenTag, Find, NamedTag;
    var c := if attrs == "" then '/' else attrs[0];
    var more := if attrs == "" then ">" + rest else attrs[1..] + "/>" + rest;
    var b := "<" + name + attrs + "/";
    var element := b + (">" + rest);
    assert element[1..] == name + [c] + more;
    assert element[0] == '<' && element[1] == name[0];
    EndsHere(name, c, more);
    FindOpenTagStep(element, name);
    HeadFound(element);
    FindEndMark(b, rest);
  }

  lemma EndsHere(name: string, c: char, more: string)
    requires IsName(name) && EndsName(c, true)
    ensures NamedTag(name + [c] + more, name, true) == Some(true)
  {
    var t := name + [c] + more;
    StopInside(name, c, more);
    NamesExactly(name, c, more, name, true);
    assert t[|name|] == c;
  }

  lemma StartLength(name: string, content: string)
    ensures var t := StartText(name, "") + content; |t| == |name| + 2 + |content| && t[|name| + 2..] == content
  {}

  /** The opening tag, and its `>`, which no slash precedes. */
  lemma FindsElement(name: string, content: string)
    requires IsName(name)
    ensures var element := StartText(name, "") + content;
            && FindOpenTag(element, name) == Some(0)
            && Find(element, ">") == Some(|name| + 1)
            && element[|name|] != '/'
  {
    hide FindOpenTag, Find, NamedTag, StartText, IsName;
    ElementParts(name, content);
    FindsTag(StartText(name, "") + content, name, content);
  }

  lemma FindsTag(element: string, name: string, content: string)
    requires IsName(name) && |element| > |name| && element[0] == '<' && element[1] == name[0]
    requires element[1..] == name + ['>'] + content && element == ("<" + name) + (">" + content)
    ensures FindOpenTag(element, name) == Some(0) && Find(element, ">") == Some(|name| + 1)
    ensures name[|name| - 1] != '/'
  {
    hide FindOpenTag, Find, NamedTag;
    FindOpenTagStep(element, name);
    HeadFound(element);
    NamedSelf(name, content, true);
    assert name[|name| - 1] in name;
    FindEndMark("<" + name, content);
  }

  lemma ElementParts(name: string, content: string)
    requires IsName(name)
    ensures var element := StartText(name, "") + content;
            && element[0] == '<' && element[1] == name[0] && element[|name|] == name[|name| - 1]
            && element[1..] == name + ['>'] + content
            && element == ("<" + name) + (">" + content)
  {}

  lemma CloseFound(name: string, raw: string, tail: string)
    requires IsName(name) && TagFree(raw)
    ensures var content := raw + (EndText(name) + tail);
            && Find(content, "</") == Some(|raw|)
            && NamedTag(content[|raw| + 2..], name, false) == Some(true)
  {
    hide Find, NamedTag;
    var rest := "/" + name + ">" + tail;
    assert EndText(name) + tail == "<" + rest;
    FindCloseMark(raw, rest);
    assert (raw + ("<" + rest))[|raw| + 2..] == name + ['>'] + tail;
    NamedSelf(name, tail, false);
  }

  lemma NamedSelf(name: string, rest: string, slash: bool)
    requires IsName(name)
    ensures NamedTag(name + ['>'] + rest, name, slash) == Some(true)
  {
    var t := name + ['>'] + rest;
    StopInside(name, '>', rest);
    NamesExactly(name, '>', rest, name, slash);
    assert t[|name|] == '>';
  }

  lemma {:induction false} SplitFields(fields: seq<Field>, k: nat)
    requires k <= |fields|
    ensures RenderFields(fields) == RenderFields(fields[..k]) + RenderFields(fields[k..])
  {
    hide StartText, EndText;
    if k == 0 {
      assert fields[0..] == fields;
    } else {
      SplitFields(fields[1..], k - 1);
      assert fields[1..][..k - 1] == fields[..k][1..] && fields[1..][k - 1..] == fields[k..];
      var f, a, b := fields[0], RenderFields(fields[..k][1..]), RenderFields(fields[k..]);
      Reassociate(f.gap, StartText(f.name, ""), f.raw, EndText(f.name), a, b);
    }
  }

  /** What stands in a response in front of its `k`-th result is quiet for that result's name. */
  lemma QuietHead(urn: string, action: string, results: seq<Output>, k: nat)
    requires Printable(action, results) && k < |results|
    requires results[k].name != "Envelope" && results[k].name != "Body" && results[k].name != action + "Response"
    requires forall j :: 0 <= j < k ==> results[j].name != results[k].name
    ensures Quiet(HeadText(urn, action, results, k), results[k].name)
  {
    hide Quiet, StartText, EndText, Escape, RenderFields, IsName;
    var tag, d := results[k].name, ResponseDocument(urn, action, results);
    assert results[k] in results;
    HeadNames();
    ResponseName(action);
    DeclarationQuiet(tag);
    ServerAttrsTagFree();
    EscapeIsPlain(urn);
    assert "s" + ":" + "Envelope" == "s:Envelope" && "s" + ":" + "Body" == "s:Body";
    assert "u" + ":" + (action + "Response") == "u:" + (action + "Response");
    QuietStart("s", "Envelope", ServerAttrs(), tag);
    QuietStart("s", "Body", "", tag);
    QuietStart("u", action + "Response", d.ActionAttrs(), tag);
    forall f | f in d.fields[..k]
      ensures TagFree(f.gap) && IsName(f.name) && TagFree(f.raw) && f.name != tag
    {
      var j :| 0 <= j < k && f == d.fields[j];
      assert results[j] in results;
      EscapeIsPlain(results[j].value);
    }
    QuietFields(d.fields[..k], tag);
    var one, two, three :=
      StartText("s:Envelope", d.attrs), StartText("s:Body", ""), StartText("u:" + d.action, d.ActionAttrs());
    QuietConcat(three, RenderFields(d.fields[..k]), tag);
    QuietConcat(two, three + RenderFields(d.fields[..k]), tag);
    QuietConcat(one, two + (three + RenderFields(d.fields[..k])), tag);
    QuietConcat(DECLARATION, one + (two + (three + RenderFields(d.fields[..k]))), tag);
  }

  function HeadText(urn: string, action: string, results: seq<Output>, k: nat): string
    requires k <= |results|
  {
    var d := ResponseDocument(urn, action, results);
    DECLARATION + (StartText("s:Envelope", d.attrs) + (StartText("s:Body", "")
      + (StartText("u:" + d.action, d.ActionAttrs()) + RenderFields(d.fields[..k]))))
  }

  lemma HeadNames()
    ensures IsName("s") && IsName("u") && IsName("Envelope") && IsName("Body")
  {}

  lemma ServerAttrsTagFree()
    ensures TagFree(ServerAttrs()) && ServerAttrs()[0] == ' '
  {
    assert forall k :: 0 <= k < |ENVELOPE_NS| ==> ENVELOPE_NS[k] != '<';
    assert forall k :: 0 <= k < |ENCODING_NS| ==> ENCODING_NS[k] != '<';
  }

  lemma DeclarationQuiet(tag: string)
    ensures Quiet(DECLARATION, tag)
  {
    hide Quiet;
    DeclarationShape();
    assert DECLARATION == "<" + DECLARATION[1..];
    QuietMark(DECLARATION[1..], tag);
  }

  /** The client reads from a response the first result of each name, escaped and trimmed. */
  lemma ClientReadsResult(urn: string, action: string, results: seq<Output>, k: nat)
    requires Printable(action, results) && k < |results|
    requires results[k].name != "Envelope" && results[k].name != "Body" && results[k].name != action + "Response"
    requires forall j :: 0 <= j < k ==> results[j].name != results[k].name
    ensures ExtractText(ResponseDocument(urn, action, results).Render(), results[k].name) ==
            TrimBlank(Escape(results[k].value))
  {
    hide Quiet, StartText, EndText, Escape, RenderFields, ExtractText, TrimBlank, IsName;
    var d := ResponseDocument(urn, action, results);
    assert results[k] in results;
    QuietHead(urn, action, results, k);
    EscapeIsPlain(results[k].value);
    var tail := ResponseSplits(urn, action, results, k);
    ExtractElement(HeadText(urn, action, results, k), results[k].name, Escape(results[k].value), tail);
  }

  lemma ResponseSplits(urn: string, action: string, results: seq<Output>, k: nat) returns (tail: string)
    requires k < |results|
    ensures ResponseDocument(urn, action, results).Render() ==
            HeadText(urn, action, results, k) + (StartText(results[k].name, "")
              + (Escape(results[k].value) + (EndText(results[k].name) + tail)))
  {
    hide StartText, EndText, Escape;
    var d := ResponseDocument(urn, action, results);
    var f, more, before := d.fields[k], RenderFields(d.fields[k + 1..]), RenderFields(d.fields[..k]);
    var one, two, three :=
      StartText("s:Envelope", d.attrs), StartText("s:Body", ""), StartText("u:" + d.action, d.ActionAttrs());
    var endAction, endBody, endEnvelope := EndText("u:" + d.action), EndText("s:Body"), EndText("s:Envelope");
    assert d.fields[k..][0] == f && d.fields[k..][1..] == d.fields[k + 1..];
    SplitFields(d.fields, k);
    var element := StartText(f.name, "") + (f.raw + (EndText(f.name) + more));
    assert RenderFields(d.fields) == before + element;
    tail := more + (endAction + (endBody + endEnvelope));
    var r2 := endBody + endEnvelope;
    var r1 := endAction + r2;
    assert d.Arguments() == before + element;
    assert d.Body() == three + ((before + element) + endAction);
    assert d.Envelope() == two + (d.Body() + endBody);
    assert d.Render() == DECLARATION + (one + (d.Envelope() + endEnvelope));
    Unnest(two, three, before + element, endAction, endBody, endEnvelope);
    Reassociate("", StartText(f.name, ""), f.raw, EndText(f.name), more, r1);
    assert "" + element == element;
    Gather(DECLARATION, one, two, three, before, element, r1);
  }

  lemma Unnest(two: string, three: string, fields: string, ea: string, eb: string, ee: string)
    ensures (two + ((three + (fields + ea)) + eb)) + ee == two + (three + (fields + (ea + (eb + ee))))
  {}

  lemma Gather(a: string, b: string, c: string, d: string, e: string, f: string, r: string)
    ensures a + (b + (c + (d + ((e + f) + r)))) == (a + (b + (c + (d + e)))) + (f + r)
  {}

  // ---------- results that an outer element hides ----------

  lemma {:induction false} FindAtMost(t: string, pat: string, i: nat)
    requires i + |pat| <= |t| && t[i..i + |pat|] == pat
    ensures Find(t, pat).Some? && Find(t, pat).value <= i
  {
    if i == 0 {
      assert pat <= t;
    } else if !(pat <= t) {
      assert t[1..][i - 1..i - 1 + |pat|] == pat;
      FindAtMost(t[1..], pat, i - 1);
    }
  }

  lemma NameEnds(t: string, tag: string)
    requires '>' in t
    ensures NamedTag(t, tag, false).Some?
  {}

  lemma {:induction false} UpToCloseStep(content: string, seen: nat, tag: string)
    requires seen <= |content|
    ensures var close := Find(content[seen..], "</");
            UpToClose(content, seen, tag) ==
            if close.None? then "" else
            var q := seen + close.value;
            var named := NamedTag(content[q + 2..], tag, false);
            if named.None? then "" else if named.value then TrimBlank(content[..q]) else UpToClose(content, q + 2, tag)
  {
    hide Find, NamedTag, TrimBlank;
  }

  /** Whatever stands in front of a closing tag of that name, some text up to such a tag is extracted. */
  lemma {:induction false} UpToSomeClose(content: string, seen: nat, tag: string, p: nat) returns (q: nat)
    requires seen <= p && p + 2 <= |content| && content[p..p + 2] == "</" && '>' in content[p + 2..]
    requires NamedTag(content[p + 2..], tag, false) == Some(true)
    ensures seen <= q <= p && content[q..q + 2] == "</"
    ensures UpToClose(content, seen, tag) == TrimBlank(content[..q])
    decreases p - seen
  {
    hide Find, NamedTag, TrimBlank, UpToClose;
    assert content[seen..][p - seen..p - seen + 2] == "</";
    FindAtMost(content[seen..], "</", p - seen);
    q := seen + Find(content[seen..], "</").value;
    assert content[q..q + 2] == "</";
    assert '>' in content[q + 2..] by {
      var k :| 0 <= k < |content[p + 2..]| && content[p + 2..][k] == '>';
      assert content[q + 2..][p - q + k] == '>';
    }
    NameEnds(content[q + 2..], tag);
    UpToCloseStep(content, seen, tag);
    if NamedTag(content[q + 2..], tag, false) == Some(false) {
      assert content[q + 1] == content[q..q + 2][1] && content[p] == content[p..p + 2][0];
      q := UpToSomeClose(content, q + 2, tag, p);
    }
  }

  lemma {:induction false} BlankLeftKeeps(s: string, c: char)
    requires c in TrimBlankLeft(s)
    ensures c in s
  {
    if s != [] && IsBlank(s[0]) {
      BlankLeftKeeps(s[1..], c);
    }
  }

  lemma {:induction false} BlankRightKeeps(s: string, c: char)
    requires c in TrimBlankRight(s)
    ensures c in s
  {
    if s != [] && IsBlank(s[|s| - 1]) {
      BlankRightKeeps(s[..|s| - 1], c);
    }
  }

  lemma {:induction false} KeepsHead(s: string)
    requires s != [] && !IsBlank(s[0])
    ensures TrimBlankRight(s) != [] && TrimBlankRight(s)[0] == s[0]
  {
    if IsBlank(s[|s| - 1]) {
      KeepsHead(s[..|s| - 1]);
    }
  }

  /** Text that starts with a tag is never what is left of text without one. */
  lemma MarkupStays(x: string, raw: string)
    requires x != [] && x[0] == '<' && TagFree(raw)
    ensures TrimBlank(x) != TrimBlank(raw)
  {
    KeepsHead(x);
    if TrimBlank(x) == TrimBlank(raw) {
      BlankRightKeeps(TrimBlankLeft(raw), '<');
      BlankLeftKeeps(raw, '<');
    }
  }

  lemma OuterParts(q: string, attrs: string, content: string)
    requires q != []
    ensures var element, mark := StartText(q, attrs) + content, "<" + q + attrs;
            && element[0] == '<' && element[1] == q[0] && element[1..] == q + attrs + ">" + content
            && element == mark + (">" + content) && |mark| == |q| + |attrs| + 1
            && element[|mark| - 1] == (if attrs == "" then q[|q| - 1] else attrs[|attrs| - 1])
            && element[|mark| + 1..] == content
  {}

  lemma PrefixedParts(prefix: string, n: string)
    requires IsName(prefix) && IsName(n)
    ensures var q := prefix + ":" + n;
            q != [] && IsNameStart(q[0]) && q[|q| - 1] != '/' && '>' !in q && |q| == |prefix| + |n| + 1
  {
    var q := prefix + ":" + n;
    assert forall c :: c in q ==> c in prefix || c == ':' || c in n;
    assert q[|q| - 1] == n[|n| - 1] && n[|n| - 1] in n;
  }

  lemma PrefixedNameFound(prefix: string, n: string, attrs: string, rest: string)
    requires IsName(prefix) && IsName(n) && (attrs == "" || attrs[0] == ' ')
    ensures NamedTag(prefix + ":" + n + attrs + ">" + rest, n, true) == Some(true)
  {
    hide NamedTag;
    LocalNameDecides(prefix, n, attrs, rest, n);
  }

  lemma NoEndMark(q: string, attrs: string)
    requires '>' !in q && '>' !in attrs
    ensures '>' !in "<" + q + attrs
  {}

  lemma FoundAtHead(t: string, tag: string)
    requires |t| > 1 && t[0] == '<' && IsNameStart(t[1]) && NamedTag(t[1..], tag, true) == Some(true)
    ensures FindOpenTag(t, tag) == Some(0)
  {
    hide FindOpenTag, Find, NamedTag;
    HeadFound(t);
    FindOpenTagStep(t, tag);
  }

  lemma OuterFound(prefix: string, n: string, attrs: string, content: string)
    requires IsName(prefix) && IsName(n) && (attrs == "" || attrs[0] == ' ')
    ensures var element := StartText(prefix + ":" + n, attrs) + content;
            FindOpenTag(element, n) == Some(0)
  {
    hide FindOpenTag, Find, NamedTag, StartText, IsName, IsNameStart;
    var q := prefix + ":" + n;
    var element := StartText(q, attrs) + content;
    PrefixedParts(prefix, n);
    OuterParts(q, attrs, content);
    PrefixedNameFound(prefix, n, attrs, content);
    FoundAtHead(element, n);
  }

  lemma OuterEnds(prefix: string, n: string, attrs: string, content: string)
    requires IsName(prefix) && IsName(n) && '>' !in attrs
    ensures Find(StartText(prefix + ":" + n, attrs) + content, ">") == Some(|prefix| + |n| + |attrs| + 2)
  {
    hide Find, StartText, IsName;
    var q := prefix + ":" + n;
    PrefixedParts(prefix, n);
    OuterParts(q, attrs, content);
    NoEndMark(q, attrs);
    MarkFound(StartText(q, attrs) + content, "<" + q + attrs, content);
  }

  lemma MarkFound(element: string, mark: string, content: string)
    requires element == mark + (">" + content) && '>' !in mark
    ensures Find(element, ">") == Some(|mark|)
  {
    hide Find;
    FindEndMark(mark, content);
  }

  /** The client takes the first element of that local name, prefix or not, and what stands in it. */
  lemma ExtractOuter(lead: string, prefix: string, n: string, attrs: string, content: string)
    requires IsName(prefix) && IsName(n) && Quiet(lead, n)
    requires (attrs == "" || (attrs[0] == ' ' && attrs[|attrs| - 1] == '"')) && '>' !in attrs
    ensures ExtractText(lead + (StartText(prefix + ":" + n, attrs) + content), n) == UpToClose(content, 0, n)
  {
    hide FindOpenTag, Find, ExtractText, UpToClose, Quiet, StartText, IsName;
    var q := prefix + ":" + n;
    var element := StartText(q, attrs) + content;
    var at := |q| + |attrs| + 1;
    PrefixedParts(prefix, n);
    OuterParts(q, attrs, content);
    OuterFound(prefix, n, attrs, content);
    OuterEnds(prefix, n, attrs, content);
    QuietAt(lead, n, element);
    TextBehind(lead, element, at);
    ExtractAt(lead + element, n, |lead|, at, content);
  }

  lemma TextBehind(lead: string, element: string, at: nat)
    requires 0 < at < |element|
    ensures (lead + element)[|lead|..] == element && (lead + element)[|lead| + at - 1] == element[at - 1]
    ensures (lead + element)[|lead| + at + 1..] == element[at + 1..]
  {}

  function ElementText(n: string, raw: string, tail: string): string {
    StartText(n, "") + (raw + (EndText(n) + tail))
  }

  lemma CloseInside(inner: string, n: string, raw: string, tail: string) returns (p: nat)
    requires IsName(n)
    ensures var content := inner + ElementText(n, raw, tail);
            && p + 2 <= |content| && content[p..p + 2] == "</" && '>' in content[p + 2..]
            && NamedTag(content[p + 2..], n, false) == Some(true)
  {
    hide NamedTag, IsName;
    var before := inner + (StartText(n, "") + raw);
    var content := inner + ElementText(n, raw, tail);
    p := |before|;
    assert content == before + ("</" + (n + ['>'] + tail));
    Behind(before, "</", n + ['>'] + tail);
    NamedSelf(n, tail, false);
    assert (n + ['>'] + tail)[|n|] == '>';
  }

  lemma Behind(a: string, b: string, c: string)
    ensures var t := a + (b + c); t[|a|..|a| + |b|] == b && t[|a| + |b|..] == c
  {}

  /** From an outer element of the same local name the client reads text that starts with a tag. */
  lemma OuterHides(lead: string, prefix: string, n: string, attrs: string, inner: string, raw: string, tail: string)
    requires IsName(prefix) && IsName(n) && Quiet(lead, n) && TagFree(raw)
    requires (attrs == "" || (attrs[0] == ' ' && attrs[|attrs| - 1] == '"')) && '>' !in attrs
    requires var content := inner + ElementText(n, raw, tail); |content| > 1 && content[0] == '<' && content[1] != '/'
    ensures ExtractText(lead + (StartText(prefix + ":" + n, attrs) + (inner + ElementText(n, raw, tail))), n)
            != TrimBlank(raw)
  {
    hide ExtractText, TrimBlank, UpToClose, NamedTag, Quiet, StartText, ElementText, IsName;
    var content := inner + ElementText(n, raw, tail);
    ExtractOuter(lead, prefix, n, attrs, content);
    var p := CloseInside(inner, n, raw, tail);
    var q := UpToSomeClose(content, 0, n, p);
    assert content[q + 1] == content[q..q + 2][1] == '/';
    MarkupStays(content[..q], raw);
  }

  lemma ServerAttrsPlain()
    ensures var a := ServerAttrs(); a[0] == ' ' && a[|a| - 1] == '"' && '>' !in a
  {
    assert forall k :: 0 <= k < |ENVELOPE_NS| ==> ENVELOPE_NS[k] != '>';
    assert forall k :: 0 <= k < |ENCODING_NS| ==> ENCODING_NS[k] != '>';
  }

  lemma ActionAttrsPlain(urn: string, action: string, results: seq<Output>)
    ensures var a := ResponseDocument(urn, action, results).ActionAttrs();
            a[0] == ' ' && a[|a| - 1] == '"' && '>' !in a
  {
    hide Escape;
    EscapeIsPlain(urn);
  }

  /** The fields in front of a result, and the result, start with an opening tag. */
  lemma FieldsOpen(urn: string, action: string, results: seq<Output>, k: nat, raw: string, tail: string)
    requires Printable(action, results) && k < |results|
    ensures var d := ResponseDocument(urn, action, results);
            var content := RenderFields(d.fields[..k]) + ElementText(results[k].name, raw, tail);
            |content| > 1 && content[0] == '<' && content[1] != '/'
  {
    hide Escape, EndText;
    var d := ResponseDocument(urn, action, results);
    assert results[0] in results && results[k] in results;
    if k > 0 {
      var f, more := d.fields[0], RenderFields(d.fields[..k][1..]);
      assert d.fields[..k][0] == f && f.gap == "";
      assert RenderFields(d.fields[..k]) == StartText(f.name, "") + (f.raw + (EndText(f.name) + more));
    }
  }

  lemma RegroupHead(a: string, b: string, c: string, d: string, e: string, x: string)
    ensures (a + (b + (c + (d + e)))) + x == a + (b + ((c + (d + e)) + x))
    ensures (a + (b + (c + (d + e)))) + x == (a + b) + (c + ((d + e) + x))
    ensures (a + (b + (c + (d + e)))) + x == (a + (b + c)) + (d + (e + x))
  {}

  lemma StartsOpen(q: string, attrs: string, rest: string)
    requires q != [] && q[0] != '/'
    ensures var t := StartText(q, attrs) + rest; |t| > 1 && t[0] == '<' && t[1] != '/'
  {}

  /** Such an outer element hides the result. */
  lemma ClientMissesResult(urn: string, action: string, results: seq<Output>, k: nat)
    requires Printable(action, results) && k < |results|
    requires results[k].name == "Envelope" || results[k].name == "Body" || results[k].name == action + "Response"
    ensures ExtractText(ResponseDocument(urn, action, results).Render(), results[k].name) !=
            TrimBlank(Escape(results[k].value))
  {
    hide Quiet, StartText, EndText, Escape, RenderFields, ExtractText, TrimBlank, IsName, ElementText;
    var n, raw, d := results[k].name, Escape(results[k].value), ResponseDocument(urn, action, results);
    assert results[k] in results;
    HeadNames();
    ResponseName(action);
    EscapeIsPlain(results[k].value);
    DeclarationQuiet(n);
    ServerAttrsPlain();
    ServerAttrsTagFree();
    ActionAttrsPlain(urn, action, results);
    var tail := ResponseSplits(urn, action, results, k);
    var one, two, three, before :=
      StartText("s:Envelope", ServerAttrs()), StartText("s:Body", ""), StartText("u:" + d.action, d.ActionAttrs()),
      RenderFields(d.fields[..k]);
    var element := ElementText(n, raw, tail);
    assert element == StartText(n, "") + (raw + (EndText(n) + tail)) by { ElementOf(n, raw, tail); }
    RegroupHead(DECLARATION, one, two, three, before, element);
    assert "s" + ":" + "Envelope" == "s:Envelope" && "s" + ":" + "Body" == "s:Body";
    if n == "Envelope" {
      StartsOpen("s:Body", "", (three + before) + element);
      InnerOpens(two, three + before, element);
      OuterHides(DECLARATION, "s", n, ServerAttrs(), two + (three + before), raw, tail);
    } else if n == "Body" {
      QuietStart("s", "Envelope", ServerAttrs(), n);
      QuietConcat(DECLARATION, one, n);
      StartsOpen("u:" + d.action, d.ActionAttrs(), before + element);
      InnerOpens(three, before, element);
      OuterHides(DECLARATION + one, "s", n, "", three + before, raw, tail);
    } else {
      QuietStart("s", "Envelope", ServerAttrs(), n);
      QuietStart("s", "Body", "", n);
      QuietConcat(one, two, n);
      QuietConcat(DECLARATION, one + two, n);
      FieldsOpen(urn, action, results, k, raw, tail);
      assert "u" + ":" + n == "u:" + d.action;
      OuterHides(DECLARATION + (one + two), "u", n, d.ActionAttrs(), before, raw, tail);
    }
  }

  lemma ElementOf(n: string, raw: string, tail: string)
    ensures ElementText(n, raw, tail) == StartText(n, "") + (raw + (EndText(n) + tail))
  {}

  lemma InnerOpens(tag: string, more: string, element: string)
    ensures (tag + more) + element == tag + (more + element)
  {}

  /**
   Of the results that are the first of their name, the client reads exactly those that no element around
   them shares the name of.
   */
  lemma ClientReadsExactly(urn: string, action: string, results: seq<Output>, k: nat)
    requires Printable(action, results) && k < |results|
    requires forall j :: 0 <= j < k ==> results[j].name != results[k].name
    ensures ExtractText(ResponseDocument(urn, action, results).Render(), results[k].name) ==
            TrimBlank(Escape(results[k].value)) <==>
            results[k].name != "Envelope" && results[k].name != "Body" && results[k].name != action + "Response"
  {
    hide ExtractText, Printable, TrimBlank, Escape, Document.Render, ResponseDocument;
    if results[k].name == "Envelope" || results[k].name == "Body" || results[k].name == action + "Response" {
      ClientMissesResult(urn, action, results, k);
    } else {
      ClientReadsResult(urn, action, results, k);
    }
  }

  // ---------- faults and unreadable answers ----------

  ghost predicate Flat(fields: seq<Field>) {
    forall f :: f in fields ==> TagFree(f.gap) && IsName(f.name) && TagFree(f.raw)
  }

  predicate Lacks(fields: seq<Field>, name: string) {
    forall i :: 0 <= i < |fields| ==> fields[i].name != name
  }

  /** The text of the first field of that name, without blanks around it; empty when there is none. */
  function FieldText(fields: seq<Field>, name: string): string {
    if fields == [] then ""
    else if fields[0].name == name then TrimBlank(fields[0].raw)
    else FieldText(fields[1..], name)
  }

  lemma {:induction false} FieldIsExtracted(head: string, fields: seq<Field>, tail: string, name: string)
    requires TagFree(tail) && Flat(fields) && IsName(name) && Quiet(head, name)
    ensures ExtractText(head + (RenderFields(fields) + tail), name) == FieldText(fields, name)
    decreases fields
  {
    hide Quiet, StartText, EndText, ExtractText, TrimBlank, IsName, TagFree;
    if fields == [] {
      assert head + (RenderFields(fields) + tail) == head + tail;
      QuietText(tail, name);
      QuietConcat(head, tail, name);
      NothingExtracted(head + tail, name);
    } else {
      var f := fields[0];
      assert f in fields && forall g :: g in fields[1..] ==> g in fields;
      var more := RenderFields(fields[1..]) + tail;
      QuietText(f.gap, name);
      QuietConcat(head, f.gap, name);
      if f.name == name {
        FirstFieldSplits(head, fields, tail);
        ExtractElement(head + f.gap, name, f.raw, more);
      } else {
        var element := f.gap + (StartText(f.name, "") + (f.raw + EndText(f.name)));
        QuietField(f, name);
        QuietConcat(head, element, name);
        FieldIsExtracted(head + element, fields[1..], tail, name);
        FieldBehind(head, fields, tail);
      }
    }
  }

  lemma FirstFieldSplits(head: string, fields: seq<Field>, tail: string)
    requires fields != []
    ensures var f := fields[0];
            head + (RenderFields(fields) + tail) ==
            (head + f.gap) + (StartText(f.name, "") + (f.raw + (EndText(f.name) + (RenderFields(fields[1..]) + tail))))
  {
    hide StartText, EndText, RenderFields;
    var f := fields[0];
    RenderFirst(fields);
    var o, e, more := StartText(f.name, ""), EndText(f.name), RenderFields(fields[1..]);
    Joins(f.gap, o, f.raw, e, more, tail);
    Associates(head, f.gap, o + (f.raw + (e + (more + tail))));
  }

  lemma RenderFirst(fields: seq<Field>)
    requires fields != []
    ensures var f := fields[0];
            RenderFields(fields) ==
            f.gap + (StartText(f.name, "") + (f.raw + (EndText(f.name) + RenderFields(fields[1..]))))
  {
    hide StartText, EndText;
  }

  lemma Joins(gap: string, start: string, raw: string, end: string, more: string, tail: string)
    ensures gap + (start + (raw + (end + more))) + tail == gap + (start + (raw + (end + (more + tail))))
  {
    Associates(end, more, tail);
    Associates(raw, end + more, tail);
    Associates(start, raw + (end + more), tail);
    Associates(gap, start + (raw + (end + more)), tail);
  }

  lemma Associates(x: string, y: string, z: string)
    ensures (x + y) + z == x + (y + z)
  {}

  lemma FieldBehind(head: string, fields: seq<Field>, tail: string)
    requires fields != []
    ensures var f := fields[0];
            head + (RenderFields(fields) + tail) ==
            (head + (f.gap + (StartText(f.name, "") + (f.raw + EndText(f.name))))) + (RenderFields(fields[1..]) + tail)
  {
    hide StartText, EndText, RenderFields;
    var f := fields[0];
    FirstFieldSplits(head, fields, tail);
    var o, e, rest := StartText(f.name, ""), EndText(f.name), RenderFields(fields[1..]) + tail;
    Associates(f.raw, e, rest);
    Associates(o, f.raw + e, rest);
    Associates(f.gap, o + (f.raw + e), rest);
    Associates(head, f.gap, o + (f.raw + (e + rest)));
    Associates(head, f.gap + (o + (f.raw + e)), rest);
  }

  lemma NothingExtracted(body: string, name: string)
    requires Quiet(body, name)
    ensures ExtractText(body, name) == ""
  {
    hide Quiet, Find, NamedTag;
    QuietAt(body, name, "");
    assert body + "" == body;
    FindOpenTagStep("", name);
    NothingFound();
  }

  /** Decimal digits at the head of the text make a 32-bit number. */
  ghost predicate StartsWithNumber(text: string, n: nat) {
    exists d :: 0 < d <= |text| && AllDigits(text[..d]) && (d < |text| ==> !IsDigit(text[d]))
                && DigitsValue(text[..d]) == n && n < 0x1_0000_0000
  }

  lemma {:induction false} DigitCountIs(s: string, d: nat)
    requires d <= |s| && AllDigits(s[..d]) && (d < |s| ==> !IsDigit(s[d]))
    ensures DigitCount(s) == d
  {
    if d > 0 {
      assert s[..d][0] == s[0] && s[0] in s[..d];
      assert s[1..][..d - 1] == s[..d][1..];
      DigitCountIs(s[1..], d - 1);
    }
  }

  lemma {:induction false} DigitsEnd(s: string)
    ensures DigitCount(s) < |s| ==> !IsDigit(s[DigitCount(s)])
  {
    if s != [] && IsDigit(s[0]) {
      DigitsEnd(s[1..]);
    }
  }

  lemma NumberIsRead(text: string, n: nat)
    requires NoBlanksAround(text)
    ensures LeadingUint32(text) == Some(n) <==> StartsWithNumber(text, n)
  {
    hide DigitsValue, DigitCount;
    BlankFree(text);
    DigitsEnd(text);
    var d := DigitCount(text);
    forall e | 0 < e <= |text| && AllDigits(text[..e]) && (e < |text| ==> !IsDigit(text[e])) ensures e == d {
      DigitCountIs(text, e);
    }
  }

  predicate NoBlanksAround(text: string) {
    text == "" || (!IsBlank(text[0]) && !IsBlank(text[|text| - 1]))
  }

  lemma BlankFree(text: string)
    requires NoBlanksAround(text)
    ensures TrimBlank(text) == text
  {}

  lemma {:induction false} TrimmedLeft(s: string)
    ensures TrimBlankLeft(s) == "" || !IsBlank(TrimBlankLeft(s)[0])
  {
    if s != [] && IsBlank(s[0]) {
      TrimmedLeft(s[1..]);
    }
  }

  lemma {:induction false} TrimmedRight(s: string)
    ensures TrimBlankRight(s) == "" || !IsBlank(TrimBlankRight(s)[|TrimBlankRight(s)| - 1])
  {
    if s != [] && IsBlank(s[|s| - 1]) {
      TrimmedRight(s[..|s| - 1]);
    }
  }

  lemma TrimmedHasNoBlanks(s: string)
    ensures NoBlanksAround(TrimBlank(s))
  {
    TrimmedLeft(s);
    TrimmedRight(TrimBlankLeft(s));
    if TrimBlankLeft(s) != "" {
      KeepsHead(TrimBlankLeft(s));
    }
  }

  lemma {:induction false} FieldTextIsTrimmed(fields: seq<Field>, name: string)
    ensures NoBlanksAround(FieldText(fields, name))
  {
    hide TrimBlank;
    if fields != [] {
      TrimmedHasNoBlanks(fields[0].raw);
      FieldTextIsTrimmed(fields[1..], name);
    }
  }

  /**
   What the client makes of any flat answer: without both counts a fault if there is one; else the first count
   that does not start with a number is refused, and an update id that does not counts as 0.
   */
  lemma SummaryExactly(fields: seq<Field>, tail: string, total: nat, returned: nat, update: nat)
    requires Flat(fields) && TagFree(tail)
    ensures var t, n := FieldText(fields, "TotalMatches"), FieldText(fields, "NumberReturned");
            var u := FieldText(fields, "UpdateID");
            var fault := FieldText(fields, "faultstring");
            var r := Summary(RenderFields(fields) + tail);
            && (t == n == "" && fault == "" ==> r == Err(CountsMissing))
            && (t == n == "" && fault != "" ==> r == Err(SoapFault(fault)))
            && (t != "" || n != "" ==>
                  && ((forall k :: !StartsWithNumber(t, k)) ==> r == Err(NotANumber("TotalMatches")))
                  && (StartsWithNumber(t, total) && (forall k :: !StartsWithNumber(n, k)) ==>
                        r == Err(NotANumber("NumberReturned")))
                  && (StartsWithNumber(t, total) && StartsWithNumber(n, returned) ==>
                        && (StartsWithNumber(u, update) ==> r == Ok(BrowseSummary(returned, total, update)))
                        && ((forall k :: !StartsWithNumber(u, k)) ==> r == Ok(BrowseSummary(returned, total, 0)))))
  {
    hide ExtractText, RenderFields, FieldText, Flat, TagFree, LeadingUint32, IsName, Quiet, StartsWithNumber,
      NoBlanksAround;
    var body := RenderFields(fields) + tail;
    ClientNames();
    NameFacts(fields, tail, "TotalMatches");
    NameFacts(fields, tail, "NumberReturned");
    NameFacts(fields, tail, "UpdateID");
    NameFacts(fields, tail, "faultstring");
    SummaryCases(body);
    EmptyIsNoNumber(update);
  }

  lemma NameFacts(fields: seq<Field>, tail: string, name: string)
    requires Flat(fields) && TagFree(tail) && IsName(name)
    ensures var text := FieldText(fields, name);
            && ExtractText(RenderFields(fields) + tail, name) == text
            && (forall k: nat :: LeadingUint32(text) == Some(k) <==> StartsWithNumber(text, k))
  {
    hide ExtractText, RenderFields, FieldText, Flat, TagFree, LeadingUint32, IsName, Quiet, StartsWithNumber,
      NoBlanksAround;
    var body, text := RenderFields(fields) + tail, FieldText(fields, name);
    NothingIsQuiet(name);
    FieldIsExtracted("", fields, tail, name);
    assert "" + body == body;
    FieldTextIsTrimmed(fields, name);
    forall k: nat ensures LeadingUint32(text) == Some(k) <==> StartsWithNumber(text, k) {
      NumberIsRead(text, k);
    }
  }

  lemma EmptyIsNoNumber(n: nat)
    ensures !StartsWithNumber("", n)
  {}

  lemma NothingIsQuiet(name: string)
    ensures Quiet("", name)
  {
    hide FindOpenTag;
    forall rest ensures FindOpenTag("" + rest, name) == Shift(0, FindOpenTag(rest, name)) {
      assert "" + rest == rest;
    }
  }

  lemma ClientNames()
    ensures IsName("TotalMatches") && IsName("NumberReturned") && IsName("UpdateID") && IsName("faultstring")
  {}

  lemma SummaryCases(body: string)
    ensures var t, n := ExtractText(body, "TotalMatches"), ExtractText(body, "NumberReturned");
            var u := ExtractText(body, "UpdateID");
            var fault := ExtractText(body, "faultstring");
            var a, b, c := LeadingUint32(t), LeadingUint32(n), LeadingUint32(u);
            Summary(body) ==
            if t == "" && n == "" then Err(if fault != "" then SoapFault(fault) else CountsMissing)
            else if a.None? then Err(NotANumber("TotalMatches"))
            else if b.None? then Err(NotANumber("NumberReturned"))
            else Ok(BrowseSummary(b.value, a.value, if u != "" && c.Some? then c.value else 0))
  {
    hide ExtractText, LeadingUint32;
  }

  // ---------- a Browse response, end to end ----------

  function BrowseOutputs(didl: string, returned: nat, total: nat, updateId: nat): seq<Output> {
    [Output("Result", didl), Output("NumberReturned", Decimal(returned)),
     Output("TotalMatches", Decimal(total)), Output("UpdateID", Decimal(updateId))]
  }

  lemma OutputNames()
    ensures IsName("Browse") && IsName("Result") && IsName("NumberReturned")
    ensures IsName("TotalMatches") && IsName("UpdateID")
  {}

  lemma {:induction false} DigitsAreAll(s: string)
    requires AllDigits(s)
    ensures DigitCount(s) == |s|
  {
    if s != [] {
      assert s[0] in s && forall c :: c in s[1..] ==> c in s;
      DigitsAreAll(s[1..]);
    }
  }

  lemma NumberReadsBack(n: nat)
    requires n < 0x1_0000_0000
    ensures TrimBlank(Escape(Decimal(n))) == Decimal(n)
    ensures LeadingUint32(Decimal(n)) == Some(n)
  {
    hide Decimal;
    var s := Decimal(n);
    assert s[0] in s && s[|s| - 1] in s;
    EscapeOfPlain(s);
    assert TrimBlank(s) == s;
    DigitsAreAll(s);
    assert s[..|s|] == s;
    DecimalValue(n);
  }

  /** Whatever DIDL text the server sends, the client recovers the three counts of the response. */
  lemma ClientReadsCounts(urn: string, didl: string, returned: nat, total: nat, updateId: nat)
    requires returned < 0x1_0000_0000 && total < 0x1_0000_0000 && updateId < 0x1_0000_0000
    ensures Summary(ResponseDocument(urn, "Browse", BrowseOutputs(didl, returned, total, updateId)).Render()) ==
            Ok(BrowseSummary(returned, total, updateId))
  {
    hide ExtractText, Decimal, Escape, TrimBlank, LeadingUint32, IsName;
    var outputs := BrowseOutputs(didl, returned, total, updateId);
    OutputNames();
    assert "Browse" + "Response" == "BrowseResponse";
    ClientReadsResult(urn, "Browse", outputs, 1);
    ClientReadsResult(urn, "Browse", outputs, 2);
    ClientReadsResult(urn, "Browse", outputs, 3);
    NumberReadsBack(returned);
    NumberReadsBack(total);
    NumberReadsBack(updateId);
  }
}
