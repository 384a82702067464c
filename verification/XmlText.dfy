/** The five-entity coding of text: the escaper of the DLNA layer and the SOAP parser's decoder. */
module XmlText {
  import opened Wrappers
  import opened Text

  /** What the escaper writes for one character. */
  function Coded(c: char): (r: string)
    ensures r != []
  {
    match c
    case '&' => "&amp;"
    case '<' => "&lt;"
    case '>' => "&gt;"
    case '"' => "&quot;"
    case '\'' => "&apos;"
    case _ => [c]
  }

  predicate IsMarkup(c: char) {
    c == '&' || c == '<' || c == '>' || c == '"' || c == '\''
  }

  function Escape(s: string): string {
    if s == [] then [] else Coded(s[0]) + Escape(s[1..])
  }

  datatype Entity = Entity(stands: char, length: nat)

  /** The entity at the head of `t`: the character it stands for and its length. */
  function EntityAt(t: string): (r: Option<Entity>)
    ensures r.Some? ==> 1 < r.value.length <= |t| && t[0] == '&'
    ensures r.Some? ==> IsMarkup(r.value.stands) && t[..r.value.length] == Coded(r.value.stands)
  {
    if "&amp;" <= t then Some(Entity('&', 5))
    else if "&lt;" <= t then Some(Entity('<', 4))
    else if "&gt;" <= t then Some(Entity('>', 4))
    else if "&quot;" <= t then Some(Entity('"', 6))
    else if "&apos;" <= t then Some(Entity('\'', 6))
    else None
  }

  function Unescape(t: string): string {
    if t == [] then []
    else if EntityAt(t).Some? then [EntityAt(t).value.stands] + Unescape(t[EntityAt(t).value.length..])
    else [t[0]] + Unescape(t[1..])
  }

  method EscapeXml(s: string) returns (out: string)
    ensures out == Escape(s)
  {
    out := [];
    for i := 0 to |s|
      invariant out + Escape(s[i..]) == Escape(s)
    {
      assert s[i..][0] == s[i] && s[i..][1..] == s[i + 1..];
      assert out + (Coded(s[i]) + Escape(s[i + 1..])) == out + Coded(s[i]) + Escape(s[i + 1..]);
      out := out + Coded(s[i]);
    }
    assert s[|s|..] == [];
  }

  method UnescapeXml(s: string) returns (out: string)
    ensures out == Unescape(s)
  {
    hide Unescape, EntityAt;
    out := [];
    var i := 0;
    assert s[0..] == s;
    while i < |s|
      invariant i <= |s|
      invariant out + Unescape(s[i..]) == Unescape(s)
    {
      var c, len := DecodeStep(s[i..]);
      assert s[i..][len..] == s[i + len..];
      assert out + ([c] + Unescape(s[i + len..])) == out + [c] + Unescape(s[i + len..]);
      out, i := out + [c], i + len;
    }
    UnescapeNothing();
    assert s[|s|..] == [];
  }

  lemma UnescapeNothing()
    ensures Unescape([]) == []
  {}

  /** One turn of the decoder: the character it appends and how far its cursor moves. */
  method DecodeStep(tail: string) returns (c: char, len: nat)
    requires tail != []
    ensures 0 < len <= |tail|
    ensures Unescape(tail) == [c] + Unescape(tail[len..])
  {
    c, len := tail[0], 1;
    if tail[0] == '&' {
      if "&amp;" <= tail {
        c, len := '&', 5;
      } else if "&lt;" <= tail {
        c, len := '<', 4;
      } else if "&gt;" <= tail {
        c, len := '>', 4;
      } else if "&quot;" <= tail {
        c, len := '"', 6;
      } else if "&apos;" <= tail {
        c, len := '\'', 6;
      }
    }
  }

  // ---------- the coding is a round trip ----------

  lemma EntityOfCoded(c: char, rest: string)
    ensures EntityAt(Coded(c) + rest) == if IsMarkup(c) then Some(Entity(c, |Coded(c)|)) else None
  {
    var t := Coded(c) + rest;
    assert t[0] == Coded(c)[0];
    if IsMarkup(c) {
      assert t[1] == Coded(c)[1] && t[2] == Coded(c)[2];
    }
  }

  lemma {:induction false} UnescapeEscape(s: string)
    ensures Unescape(Escape(s)) == s
  {
    if s != [] {
      EntityOfCoded(s[0], Escape(s[1..]));
      assert Escape(s)[|Coded(s[0])|..] == Escape(s[1..]);
      UnescapeEscape(s[1..]);
    }
  }

  /** Escaped text holds no quote and no angle bracket, so it can sit in an element or an attribute. */
  lemma {:induction false} EscapeIsPlain(s: string)
    ensures forall c :: c in Escape(s) ==> c != '<' && c != '>' && c != '"' && c != '\''
  {
    if s != [] {
      EscapeIsPlain(s[1..]);
    }
  }

  lemma {:induction false} EscapeOfPlain(s: string)
    requires forall c :: c in s ==> !IsMarkup(c)
    ensures Escape(s) == s
  {
    if s != [] {
      assert s[0] in s && s == [s[0]] + s[1..];
      EscapeOfPlain(s[1..]);
    }
  }

  lemma {:induction false} EscapeGrows(s: string)
    ensures |Escape(s)| >= |s|
    ensures (exists c :: c in s && IsMarkup(c)) ==> |Escape(s)| > |s|
  {
    if s != [] {
      EscapeGrows(s[1..]);
      assert s == [s[0]] + s[1..];
    }
  }

  lemma EscapeFixedPoint(s: string)
    ensures Escape(s) == s <==> forall c :: c in s ==> !IsMarkup(c)
  {
    EscapeGrows(s);
    if forall c :: c in s ==> !IsMarkup(c) { EscapeOfPlain(s); }
  }

  lemma {:induction false} EscapeAppend(x: string, y: string)
    ensures Escape(x + y) == Escape(x) + Escape(y)
  {
    if x == [] {
      assert x + y == y;
    } else {
      assert (x + y)[1..] == x[1..] + y;
      EscapeAppend(x[1..], y);
    }
  }

  lemma {:induction false} EscapeTrimLeft(s: string)
    ensures TrimLeft(Escape(s)) == Escape(TrimLeft(s))
  {
    if s != [] {
      assert Escape(s)[0] == Coded(s[0])[0];
      if IsSpace(s[0]) {
        assert Escape(s)[1..] == Escape(s[1..]);
        EscapeTrimLeft(s[1..]);
      }
    }
  }

  lemma {:induction false} EscapeTrimRight(s: string)
    ensures TrimRight(Escape(s)) == Escape(TrimRight(s))
  {
    if s != [] {
      var n := |s| - 1;
      assert s == s[..n] + [s[n]];
      EscapeAppend(s[..n], [s[n]]);
      assert Escape([s[n]]) == Coded(s[n]) + Escape([]) == Coded(s[n]);
      var e := Escape(s);
      assert e == Escape(s[..n]) + Coded(s[n]);
      assert e[|e| - 1] == Coded(s[n])[|Coded(s[n])| - 1];
      if IsSpace(s[n]) {
        assert e[..|e| - 1] == Escape(s[..n]);
        EscapeTrimRight(s[..n]);
      }
    }
  }

  /** A value survives escape, trim and decode up to its own outer white space. */
  lemma ValueRoundTrip(v: string)
    ensures Unescape(Trim(Escape(v))) == Trim(v)
  {
    EscapeTrimLeft(v);
    EscapeTrimRight(TrimLeft(v));
    UnescapeEscape(Trim(v));
  }

  /** The five entities of section 4.6 of XML 1.0. */
  lemma FiveEntities()
    ensures Escape("&") == "&amp;" && Escape("<") == "&lt;" && Escape(">") == "&gt;"
    ensures Escape("\"") == "&quot;" && Escape("'") == "&apos;"
  {
    assert forall c: char :: Escape([c]) == Coded(c) + Escape([]);
  }

  // ---------- text that decoding leaves alone ----------

  predicate HoldsEntity(t: string) {
    exists k :: 0 <= k < |t| && EntityAt(t[k..]).Some?
  }

  lemma {:induction false} UnescapeLength(t: string)
    ensures |Unescape(t)| <= |t|
    ensures HoldsEntity(t) ==> |Unescape(t)| < |t|
    decreases |t|
  {
    if t != [] {
      assert t[0..] == t;
      if EntityAt(t).Some? {
        UnescapeLength(t[EntityAt(t).value.length..]);
      } else {
        UnescapeLength(t[1..]);
        if HoldsEntity(t) {
          var k :| 0 <= k < |t| && EntityAt(t[k..]).Some?;
          assert t[k..] == t[1..][k - 1..];
        }
      }
    }
  }

  /** Decoding is the identity exactly on the texts in which no entity occurs. */
  lemma {:induction false} UnescapeFixedPoint(t: string)
    ensures Unescape(t) == t <==> !HoldsEntity(t)
  {
    UnescapeLength(t);
    if !HoldsEntity(t) && t != [] {
      assert t[0..] == t;
      assert EntityAt(t).None?;
      forall k | 0 <= k < |t[1..]| ensures EntityAt(t[1..][k..]).None? {
        assert t[1..][k..] == t[k + 1..];
      }
      UnescapeFixedPoint(t[1..]);
    }
  }
}
