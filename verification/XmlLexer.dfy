/**
 The scanning layer of the SOAP parser. Each cursor loop of the program is a method proved against a
 function on the suffix of the text at the cursor; offsets found in a suffix are relative to it.

 The program peeks at the byte after a `<` without a bounds test. On every sub-view it scans, the
 byte past the end is the `<` of the closing tag that ended the view, so a read past the end is
 modelled as "not a slash".
 */
module XmlLexer {
  import opened Wrappers
  import opened Text

  predicate IsNameStart(c: char) {
    IsAlpha(c) || c == '_'
  }

  predicate IsNamePart(c: char) {
    IsNameStart(c) || IsDigit(c) || c == '-' || c == '.'
  }

  predicate IsQNamePart(c: char) {
    IsNamePart(c) || c == ':'
  }

  // ---------- tags ----------

  /** The quoting state after reading `c`: `Some(q)` inside a value opened by `q`. */
  function NextQuote(quote: Option<char>, c: char): Option<char> {
    match quote
    case Some(q) => if c == q then None else quote
    case None => if c == '"' || c == '\'' then Some(c) else None
  }

  /** Offset of the first `>` outside quotes. */
  function TagClose(t: string, quote: Option<char> := None): (r: Option<nat>)
    ensures r.Some? ==> r.value < |t| && t[r.value] == '>'
  {
    if t == [] then None
    else if quote.None? && t[0] == '>' then Some(0)
    else Shift(1, TagClose(t[1..], NextQuote(quote, t[0])))
  }

  lemma {:induction false} TagCloseStep(t: string, quote: Option<char>)
    ensures TagClose(t, quote) ==
            if t == [] then None
            else if quote.None? && t[0] == '>' then Some(0)
            else Shift(1, TagClose(t[1..], NextQuote(quote, t[0])))
  {}

  method FindTagClose(s: string, from: nat) returns (r: Option<nat>)
    requires from <= |s|
    ensures r == Shift(from, TagClose(s[from..]))
  {
    hide TagClose;
    var quote: Option<char> := None;
    var i := from;
    while i < |s|
      invariant from <= i <= |s|
      invariant Shift(i, TagClose(s[i..], quote)) == Shift(from, TagClose(s[from..]))
    {
      var c := s[i];
      TagCloseStep(s[i..], quote);
      assert s[i..][1..] == s[i + 1..];
      if quote.Some? {
        if c == quote.value {
          quote := None;
        }
      } else if c == '"' || c == '\'' {
        quote := Some(c);
      } else if c == '>' {
        return Some(i);
      }
      i := i + 1;
    }
    TagCloseStep(s[i..], quote);
    return None;
  }

  function NameLength(t: string): (n: nat)
    ensures n <= |t|
    ensures forall k :: 0 <= k < n ==> IsQNamePart(t[k])
    ensures n < |t| ==> !IsQNamePart(t[n])
  {
    if t != [] && IsQNamePart(t[0]) then 1 + NameLength(t[1..]) else 0
  }

  method NameEnd(s: string, from: nat) returns (i: nat)
    requires from <= |s|
    ensures i == from + NameLength(s[from..])
  {
    i := from;
    while i < |s| && (IsNamePart(s[i]) || s[i] == ':')
      invariant from <= i <= |s|
      invariant from + NameLength(s[from..]) == i + NameLength(s[i..])
    {
      assert s[i..][1..] == s[i + 1..];
      i := i + 1;
    }
  }

  /** `end` is the offset just after the closing `>`; `inside` is the raw attribute span. */
  datatype OpenTag = OpenTag(qname: string, inside: string, end: nat, selfClosing: bool)

  function ReadOpenTag(t: string): (r: Option<OpenTag>)
    ensures r.Some? ==> 2 < r.value.end <= |t| && r.value.qname != [] && t[0] == '<'
  {
    if |t| < 2 || t[0] != '<' || !IsNameStart(t[1]) then None
    else
      var n := 1 + NameLength(t[1..]);
      match TagClose(t[n..])
      case None => None
      case Some(c) =>
        var selfClosing := t[n + c - 1] == '/';
        Some(OpenTag(t[1..n], t[n..if selfClosing then n + c - 1 else n + c], n + c + 1, selfClosing))
  }

  function Moved(pos: nat, tag: Option<OpenTag>): Option<OpenTag> {
    if tag.Some? then Some(tag.value.(end := pos + tag.value.end)) else None
  }

  method OpenTagAt(s: string, pos: nat) returns (r: Option<OpenTag>)
    requires pos <= |s|
    ensures r == Moved(pos, ReadOpenTag(s[pos..]))
  {
    hide TagClose, NameLength;
    var t := s[pos..];
    if |t| == 0 || t[0] != '<' {
      return None;
    }
    if |t| == 1 || !IsNameStart(t[1]) {
      return None;
    }
    var i := NameEnd(t, 1);
    var name := t[1..i];
    var close := FindTagClose(t, i);
    if close.None? {
      return None;
    }
    assert IsQNamePart(t[1..][i - 2]);
    var selfClosing := t[close.value - 1] == '/';
    var attrEnd := if selfClosing then close.value - 1 else close.value;
    return Some(OpenTag(name, t[i..attrEnd], pos + close.value + 1, selfClosing));
  }

  function LastColon(q: string): (r: Option<nat>)
    ensures match r
            case Some(k) => k < |q| && q[k] == ':' && ':' !in q[k + 1..]
            case None => ':' !in q
  {
    if q == [] then None
    else if q[|q| - 1] == ':' then Some(|q| - 1)
    else
      assert q == q[..|q| - 1] + [q[|q| - 1]];
      var r := LastColon(q[..|q| - 1]);
      assert r.Some? ==> q[r.value + 1..] == q[..|q| - 1][r.value + 1..] + [q[|q| - 1]];
      r
  }

  function LocalName(q: string): string {
    match LastColon(q)
    case None => q
    case Some(k) => q[k + 1..]
  }

  function PrefixOf(q: string): string {
    match Find(q, ":")
    case None => []
    case Some(k) => q[..k]
  }

  lemma {:induction false} FirstColon(p: string, rest: string)
    requires ':' !in p
    ensures Find(p + ":" + rest, ":") == Some(|p|)
  {
    var t := p + ":" + rest;
    if p == [] {
      assert t[..1] == ":";
    } else {
      assert t[0] == p[0];
      assert t[1..] == p[1..] + ":" + rest;
      FirstColon(p[1..], rest);
    }
  }

  lemma {:induction false} FinalColon(p: string, local: string)
    requires ':' !in local
    ensures LastColon(p + ":" + local) == Some(|p|)
  {
    var q := p + ":" + local;
    if local != [] {
      assert q[|q| - 1] == local[|local| - 1];
      assert q[..|q| - 1] == p + ":" + local[..|local| - 1];
      FinalColon(p, local[..|local| - 1]);
    }
  }

  lemma QNameParts(p: string, local: string)
    requires ':' !in p && ':' !in local
    ensures LocalName(p + ":" + local) == local && PrefixOf(p + ":" + local) == p
  {
    var q := p + ":" + local;
    FirstColon(p, local);
    FinalColon(p, local);
    assert q[..|p|] == p && q[|p| + 1..] == local;
  }

  // ---------- lexemes ----------

  /** What stands at a cursor. `Stray` is a `<` that opens nothing the parser knows. */
  datatype Lexeme =
    | Text
    | Meta(length: nat)
    | EndTag(name: string, length: nat)
    | StartTag(tag: OpenTag)
    | Stray
    | Unterminated
  {
    function Length(): nat {
      match this
      case Meta(n) => n
      case EndTag(_, n) => n
      case StartTag(tag) => tag.end
      case Unterminated => 0
      case _ => 1
    }
  }

  function Lex(t: string): (r: Lexeme)
    requires t != []
    ensures r.Length() <= |t|
    ensures !r.Unterminated? ==> 0 < r.Length()
    ensures r.EndTag? ==> 2 < r.length && TagClose(t) == Some(r.length - 1)
  {
    if t[0] != '<' then Text
    else if "<!--" <= t then
      match Find(t, "-->") { case None => Unterminated case Some(e) => Meta(e + 3) }
    else if "<![CDATA[" <= t then
      match Find(t, "]]>") { case None => Unterminated case Some(e) => Meta(e + 3) }
    else if |t| > 1 && t[1] == '/' then
      match TagClose(t) {
        case None => Unterminated
        case Some(c) => EndTag(Trim(t[2..c]), c + 1)
      }
    else
      match ReadOpenTag(t) { case None => Stray case Some(tag) => StartTag(tag) }
  }

  // ---------- elements and their closing tags ----------

  /** Outcome of a metered scan: what was found, if anything, and the characters it charged for. */
  datatype Scan<+T> = Scan(found: Option<T>, cost: nat)

  /** An opening tag and the number of characters skipped in front of it. */
  datatype Element = Element(at: nat, tag: OpenTag)

  function NextElement(t: string): (r: Scan<Element>)
    ensures r.cost <= |t|
    ensures r.found.Some? ==> 0 < r.cost == r.found.value.at + r.found.value.tag.end
  {
    if t == [] then Scan(None, 0)
    else match Lex(t)
      case Text => SkipInto(1, NextElement(t[1..]))
      case Meta(n) => SkipInto(n, NextElement(t[n..]))
      case StartTag(tag) => Scan(Some(Element(0, tag)), tag.end)
      case _ => Scan(None, 0)
  }

  function SkipInto(n: nat, r: Scan<Element>): Scan<Element> {
    match r.found
    case None => Scan(None, n + r.cost)
    case Some(e) => Scan(Some(Element(n + e.at, e.tag)), n + r.cost)
  }

  lemma {:induction false} NextElementStep(t: string)
    ensures NextElement(t) ==
            if t == [] then Scan(None, 0) else
            var x := Lex(t);
            if x.Text? || x.Meta? then SkipInto(x.Length(), NextElement(t[x.Length()..]))
            else if x.StartTag? then Scan(Some(Element(0, x.tag)), x.tag.end)
            else Scan(None, 0)
  {}

  lemma SkipTwice(a: nat, b: nat, r: Scan<Element>)
    ensures SkipInto(a, SkipInto(b, r)) == SkipInto(a + b, r)
  {}

  /** How a lexeme changes the number of open elements called `q`. */
  function Delta(x: Lexeme, q: string): int {
    match x
    case EndTag(name, _) => if name == q then -1 else 0
    case StartTag(tag) => if tag.qname == q && !tag.selfClosing then 1 else 0
    case _ => 0
  }

  /** Offset of the `<` of the closing tag that brings `depth` open elements called `q` to none. */
  function FindClose(t: string, q: string, depth: nat): (r: Scan<nat>)
    requires depth > 0
    ensures r.cost <= |t|
    ensures r.found.Some? ==> r.found.value < r.cost
  {
    if t == [] then Scan(None, 0)
    else
      var x := Lex(t);
      if x.Unterminated? then Scan(None, 0)
      else if depth + Delta(x, q) == 0 then Scan(Some(0), x.Length())
      else
        var n := x.Length();
        Ahead(n, FindClose(t[n..], q, depth + Delta(x, q)))
  }

  function Ahead(n: nat, r: Scan<nat>): Scan<nat> {
    Scan(Shift(n, r.found), n + r.cost)
  }

  lemma {:induction false} FindCloseStep(t: string, q: string, depth: nat)
    requires depth > 0
    ensures FindClose(t, q, depth) ==
            if t == [] then Scan(None, 0) else
            var x := Lex(t);
            if x.Unterminated? then Scan(None, 0)
            else if depth + Delta(x, q) == 0 then Scan(Some(0), x.Length())
            else Ahead(x.Length(), FindClose(t[x.Length()..], q, depth + Delta(x, q)))
  {}

  lemma AheadTwice(a: nat, b: nat, r: Scan<nat>)
    ensures Ahead(a, Ahead(b, r)) == Ahead(a + b, r)
  {}

  /** What `FindClose` finds is an end tag of that name, and its charge ends just after the tag. */
  lemma {:induction false} FindCloseLex(t: string, q: string, depth: nat)
    requires depth > 0 && FindClose(t, q, depth).found.Some?
    ensures var r := FindClose(t, q, depth);
            r.found.value < |t| && Lex(t[r.found.value..]) == EndTag(q, r.cost - r.found.value)
    decreases |t|
  {
    hide Lex, FindClose;
    FindCloseStep(t, q, depth);
    var x := Lex(t);
    var n := x.Length();
    if depth + Delta(x, q) == 0 {
      assert t[0..] == t;
    } else {
      FindCloseLex(t[n..], q, depth + Delta(x, q));
      var o := FindClose(t[n..], q, depth + Delta(x, q)).found.value;
      assert t[n..][o..] == t[n + o..];
    }
  }

  /** The dispatch at the head of both scanning loops. */
  method LexemeAt(s: string, i: nat) returns (x: Lexeme)
    requires i < |s|
    ensures x == Lex(s[i..])
  {
    var t := s[i..];
    if s[i] != '<' {
      return Text;
    }
    if "<!--" <= t {
      var end := Find(t, "-->");
      return if end.None? then Unterminated else Meta(end.value + 3);
    }
    if "<![CDATA[" <= t {
      var end := Find(t, "]]>");
      return if end.None? then Unterminated else Meta(end.value + 3);
    }
    if i + 1 < |s| && s[i + 1] == '/' {
      var close := FindTagClose(s, i);
      if close.None? {
        return Unterminated;
      }
      assert s[i + 2..close.value] == t[2..close.value - i];
      var name := TrimSpan(s[i + 2..close.value]);
      return EndTag(name, close.value + 1 - i);
    }
    var tag := OpenTagAt(s, i);
    if tag.None? {
      return Stray;
    }
    return StartTag(tag.value.(end := tag.value.end - i));
  }

  /** The work meter threaded through one parse. */
  class ParseBudget {
    var remaining: nat

    constructor (limit: nat)
      ensures remaining == limit
    {
      remaining := limit;
    }

    method Charge(n: nat) returns (ok: bool)
      modifies this
      ensures ok == (n <= old(remaining))
      ensures remaining == if ok then old(remaining) - n else 0
    {
      if remaining < n {
        remaining := 0;
        return false;
      }
      remaining := remaining - n;
      return true;
    }

    predicate Exhausted()
      reads this
    {
      remaining == 0
    }

    method NextElementFrom(s: string, from: nat) returns (r: Option<OpenTag>)
      requires from <= |s|
      modifies this
      ensures Spent(old(remaining), remaining, NextElement(s[from..]).cost)
      ensures NextElement(s[from..]).cost > old(remaining) ==> r.None?
      ensures NextElement(s[from..]).cost <= old(remaining) ==>
                match NextElement(s[from..]).found
                case None => r.None?
                case Some(e) => r == Some(e.tag.(end := from + e.at + e.tag.end))
    {
      hide Lex, NextElement;
      var pos := from;
      ghost var all := NextElement(s[from..]);
      while pos < |s|
        invariant from <= pos <= |s|
        invariant remaining + (pos - from) == old(remaining)
        invariant all == SkipInto(pos - from, NextElement(s[pos..]))
        decreases |s| - pos
      {
        NextElementStep(s[pos..]);
        var x := LexemeAt(s, pos);
        assert s[pos..][x.Length()..] == s[pos + x.Length()..];
        if x.EndTag? || x.Stray? || x.Unterminated? {
          return None;
        }
        var ok := Charge(x.Length());
        if !ok {
          return None;
        }
        if x.StartTag? {
          return Some(x.tag.(end := pos + x.tag.end));
        }
        SkipTwice(pos - from, x.Length(), NextElement(s[pos + x.Length()..]));
        pos := pos + x.Length();
      }
      NextElementStep(s[pos..]);
      return None;
    }

    method CloseOf(s: string, q: string, from: nat) returns (at: Option<nat>)
      requires from <= |s|
      modifies this
      ensures Spent(old(remaining), remaining, FindClose(s[from..], q, 1).cost)
      ensures at == if FindClose(s[from..], q, 1).cost > old(remaining) then None
                   else Shift(from, FindClose(s[from..], q, 1).found)
    {
      hide Lex, FindClose;
      var depth: nat := 1;
      var i := from;
      ghost var all := FindClose(s[from..], q, 1);
      while i < |s|
        invariant from <= i <= |s| && depth > 0
        invariant remaining + (i - from) == old(remaining)
        invariant all == Ahead(i - from, FindClose(s[i..], q, depth))
        decreases |s| - i
      {
        FindCloseStep(s[i..], q, depth);
        var x := LexemeAt(s, i);
        assert s[i..][x.Length()..] == s[i + x.Length()..];
        if x.Unterminated? {
          return None;
        }
        var ok := Charge(x.Length());
        if !ok {
          return None;
        }
        ghost var deeper := depth + Delta(x, q);
        if x.EndTag? && x.name == q {
          depth := depth - 1;
          if depth == 0 {
            return Some(i);
          }
        } else if x.StartTag? && x.tag.qname == q && !x.tag.selfClosing {
          depth := depth + 1;
        }
        assert depth == deeper;
        AheadTwice(i - from, x.Length(), FindClose(s[i + x.Length()..], q, deeper));
        i := i + x.Length();
      }
      FindCloseStep(s[i..], q, depth);
      return None;
    }
  }

  /** A scan that would charge `cost` either pays it in full or empties the budget. */
  predicate Spent(before: nat, after: nat, cost: nat) {
    after == if cost <= before then before - cost else 0
  }
}
