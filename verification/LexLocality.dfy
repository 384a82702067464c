/**
 Text in front of a closing tag. Tokens that end in front of the tag do not depend on what follows it, as
 long as no quote follows; so whether a scan comes through the text can be decided on the text alone.
 */
module LexLocality {
  import opened Wrappers
  import opened Text
  import opened XmlLexer
  import opened SoapDocument

  predicate QuoteFree(s: string) {
    '"' !in s && '\'' !in s
  }

  /** A closing tag and what may follow it. */
  predicate Closing(u: string) {
    |u| > 1 && u[0] == '<' && u[1] == '/' && '>' in u && QuoteFree(u)
  }

  // ---------- what a token depends on ----------

  lemma {:induction false} FindLocal(x: string, u: string, u': string, p: string, e: nat)
    requires p != [] && Find(x + u, p) == Some(e) && e + |p| <= |x|
    ensures Find(x + u', p) == Some(e)
  {
    assert p <= x + u <==> p <= x;
    assert p <= x + u' <==> p <= x;
    if e > 0 {
      assert (x + u)[1..] == x[1..] + u && (x + u')[1..] == x[1..] + u';
      FindLocal(x[1..], u, u', p, e - 1);
    }
  }

  lemma PrefixLocal(x: string, u: string, u': string, p: string)
    requires x != [] && Closing(u) && Closing(u') && p != [] && '<' !in p[1..]
    ensures p <= x + u <==> p <= x + u'
  {
    if |p| > |x| {
      assert p[|x|] == p[1..][|x| - 1] && p[|x|] in p[1..];
      assert (x + u)[|x|] == '<' && (x + u')[|x|] == '<';
    }
  }

  lemma {:induction false} NameLengthStep(t: string)
    ensures NameLength(t) == if t != [] && IsQNamePart(t[0]) then 1 + NameLength(t[1..]) else 0
  {}

  lemma {:induction false} NameLengthLocal(y: string, u: string, u': string)
    requires u != [] && u' != [] && u[0] == u'[0] == '<'
    ensures NameLength(y + u) == NameLength(y + u') <= |y|
  {
    hide NameLength;
    NameLengthStep(y + u);
    NameLengthStep(y + u');
    if y != [] && IsQNamePart(y[0]) {
      assert (y + u)[1..] == y[1..] + u && (y + u')[1..] == y[1..] + u';
      NameLengthLocal(y[1..], u, u');
    }
  }

  lemma {:induction false} NoQuoteNoClose(u: string, quote: char)
    requires quote !in u
    ensures TagClose(u, Some(quote)) == None
  {
    if u != [] {
      assert u[0] in u;
      NoQuoteNoClose(u[1..], quote);
    }
  }

  lemma {:induction false} ClosesUnquoted(u: string)
    requires '>' in u && QuoteFree(u)
    ensures TagClose(u).Some?
  {
    if u[0] != '>' {
      assert u == [u[0]] + u[1..];
      ClosesUnquoted(u[1..]);
    }
  }

  /** Where a tag ends in front of the closing tag, or that it ends nowhere. */
  lemma {:induction false} TagCloseLocal(x: string, quote: Option<char>, u: string, u': string)
    requires Closing(u) && Closing(u') && (quote.Some? ==> quote.value == '"' || quote.value == '\'')
    ensures var r := TagClose(x + u, quote);
            (r.None? ==> TagClose(x + u', quote) == None) && (r.Some? && r.value < |x| ==> TagClose(x + u', quote) == r)
  {
    hide TagClose;
    if x == [] {
      assert x + u == u && x + u' == u';
      if quote.Some? {
        NoQuoteNoClose(u', quote.value);
      } else {
        ClosesUnquoted(u);
      }
    } else {
      assert (x + u)[1..] == x[1..] + u && (x + u')[1..] == x[1..] + u';
      TagCloseStep(x + u, quote);
      TagCloseStep(x + u', quote);
      if !(quote.None? && x[0] == '>') {
        TagCloseLocal(x[1..], NextQuote(quote, x[0]), u, u');
      }
    }
  }

  lemma SameTag(t: string, t': string, n: nat, c: nat)
    requires 2 <= n && n + c < |t| && t[..n + c + 1] <= t'
    requires NameLength(t[1..]) == NameLength(t'[1..]) == n - 1
    requires TagClose(t[n..]) == TagClose(t'[n..]) == Some(c)
    ensures ReadOpenTag(t') == ReadOpenTag(t)
  {
    hide TagClose, NameLength;
    var m := n + c + 1;
    assert t[0] == t[..m][0] == t'[0] && t[1] == t[..m][1] == t'[1]
      && t[n + c - 1] == t[..m][n + c - 1] == t'[n + c - 1];
    SameSlice(t, t', m, 1, n);
    SameSlice(t, t', m, n, n + c);
    if c > 0 {
      SameSlice(t, t', m, n, n + c - 1);
    }
  }

  lemma SameSlice(t: string, t': string, m: nat, a: nat, b: nat)
    requires a <= b <= m <= |t| && t[..m] <= t'
    ensures t[a..b] == t'[a..b]
  {
    forall k | a <= k < b ensures t[k] == t'[k] {
      assert t[k] == t[..m][k];
    }
  }

  lemma SplitAt(x: string, u: string, n: nat)
    requires n <= |x|
    ensures (x + u)[n..] == x[n..] + u && (x + u)[..n] == x[..n]
  {}

  lemma OpenTagLocal(x: string, u: string, u': string)
    requires x != [] && x[0] == '<' && Closing(u) && Closing(u')
    requires ReadOpenTag(x + u).Some? ==> ReadOpenTag(x + u).value.end <= |x|
    ensures ReadOpenTag(x + u') == ReadOpenTag(x + u)
  {
    hide TagClose, NameLength, Closing;
    var t, t' := x + u, x + u';
    CloseStarts(u);
    CloseStarts(u');
    assert t[0] == t'[0] && t[1] == if |x| > 1 then x[1] else '<';
    if |x| > 1 && IsNameStart(x[1]) {
      SplitAt(x, u, 1);
      SplitAt(x, u', 1);
      NameLengthLocal(x[1..], u, u');
      NameLengthStep(t[1..]);
      var n := 1 + NameLength(t[1..]);
      SplitAt(x, u, n);
      SplitAt(x, u', n);
      TagCloseLocal(x[n..], None, u, u');
      var c := TagClose(t[n..]);
      if c.Some? {
        SplitAt(x, u, n + c.value + 1);
        SplitAt(x, u', n + c.value + 1);
        SameTag(t, t', n, c.value);
      }
    }
  }

  lemma CloseStarts(u: string)
    requires Closing(u)
    ensures |u| > 1 && u[0] == '<' && u[1] == '/'
  {}

  lemma LexLocal(x: string, u: string, u': string)
    requires x != [] && Closing(u) && Closing(u')
    requires !Lex(x + u).Unterminated? && Lex(x + u).Length() <= |x|
    ensures Lex(x + u') == Lex(x + u)
  {
    hide Find, TagClose, ReadOpenTag, Trim;
    var t, t' := x + u, x + u';
    assert t[0] == x[0] == t'[0];
    assert "<!--"[1..] == "!--" && "<![CDATA["[1..] == "![CDATA[";
    PrefixLocal(x, u, u', "<!--");
    PrefixLocal(x, u, u', "<![CDATA[");
    if x[0] != '<' {
    } else if "<!--" <= t {
      FindLocal(x, u, u', "-->", Find(t, "-->").value);
    } else if "<![CDATA[" <= t {
      FindLocal(x, u, u', "]]>", Find(t, "]]>").value);
    } else if t[1] == '/' {
      assert |x| > 1;
      TagCloseLocal(x, None, u, u');
      var c := TagClose(t).value;
      assert t[2..c] == x[2..c] == t'[2..c];
    } else {
      assert t'[1] != '/';
      OpenTagLocal(x, u, u');
    }
  }

  // ---------- scans that come through ----------

  /** Text that a scan for a closing tag comes through at depth 1: it closes nothing and leaves nothing open. */
  predicate Enclosed(x: string, q: string) {
    FindClose(x + EndText(q), q, 1).found == Some(|x|)
  }

  /** A scan that lands right behind `x` comes through `x` whatever closing tag stands there. */
  lemma {:induction false} ComesThrough(x: string, u: string, u': string, q: string, depth: nat)
    requires depth > 0 && Closing(u) && Closing(u') && FindClose(x + u, q, depth).found == Some(|x|)
    ensures FindClose(x + u', q, depth) == Ahead(|x|, FindClose(u', q, 1))
    decreases |x|
  {
    hide Lex, FindClose;
    FindCloseStep(x + u, q, depth);
    if x == [] {
      assert x + u == u && x + u' == u';
    } else {
      var n := Lex(x + u).Length();
      assert (x + u)[n..] == x[n..] + u && (x + u')[n..] == x[n..] + u';
      LexLocal(x, u, u');
      FindCloseStep(x + u', q, depth);
      ComesThrough(x[n..], u, u', q, depth + Delta(Lex(x + u), q));
      AheadTwice(n, |x| - n, FindClose(u', q, 1));
    }
  }

  /**
   Where one scan has come through `x`, a scan for another name that lands no earlier has come through it
   as well, at some depth.
   */
  lemma {:induction false} AlsoComesThrough(x: string, u: string, p: string, one: nat, v: string, q: string, depth: nat)
    returns (deep: nat)
    requires one > 0 && depth > 0 && Closing(u) && Closing(v) && FindClose(x + u, p, one).found == Some(|x|)
    requires FindClose(x + v, q, depth).found.Some? && FindClose(x + v, q, depth).found.value >= |x|
    ensures deep > 0
    ensures forall u' :: Closing(u') ==> FindClose(x + u', q, depth) == Ahead(|x|, FindClose(u', q, deep))
    decreases |x|
  {
    hide Lex, FindClose, Closing;
    if x == [] {
      deep := depth;
      forall u' | Closing(u') ensures FindClose(x + u', q, depth) == Ahead(|x|, FindClose(u', q, deep)) {
        assert x + u' == u';
      }
    } else {
      FindCloseStep(x + u, p, one);
      var token := Lex(x + u);
      var n := token.Length();
      assert n <= |x|;
      LexLocal(x, u, v);
      FindCloseStep(x + v, q, depth);
      assert (x + u)[n..] == x[n..] + u && (x + v)[n..] == x[n..] + v;
      deep := AlsoComesThrough(x[n..], u, p, one + Delta(token, p), v, q, depth + Delta(token, q));
      forall u' | Closing(u') ensures FindClose(x + u', q, depth) == Ahead(|x|, FindClose(u', q, deep)) {
        assert (x + u')[n..] == x[n..] + u';
        LexLocal(x, u, u');
        FindCloseStep(x + u', q, depth);
        AheadTwice(n, |x| - n, FindClose(u', q, deep));
      }
    }
  }
}
