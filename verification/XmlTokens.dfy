/** `FindClose` against a tokenizer and a count of open elements: it closes at the first balance. */
module XmlTokens {
  import opened XmlLexer

  datatype Token = Token(at: nat, lexeme: Lexeme)

  /** The tokens of `t`, up to its end or to the first comment, section or end tag left open. */
  function Tokens(t: string, at: nat := 0): seq<Token>
    decreases |t|
  {
    if t == [] || Lex(t).Unterminated? then []
    else [Token(at, Lex(t))] + Tokens(t[Lex(t).Length()..], at + Lex(t).Length())
  }

  /** Elements called `q` opened minus elements called `q` closed. */
  function Balance(tokens: seq<Token>, q: string): int {
    if tokens == [] then 0 else Delta(tokens[0].lexeme, q) + Balance(tokens[1..], q)
  }

  /** Tokens tile the text: each starts where the one before it ends and is the lexeme standing there. */
  lemma {:induction false} TokensTile(t: string, at: nat, k: nat)
    requires k < |Tokens(t, at)|
    ensures var toks := Tokens(t, at);
            at <= toks[k].at < at + |t| && toks[k].lexeme == Lex(t[toks[k].at - at..])
            && toks[k].at == if k == 0 then at else toks[k - 1].at + toks[k - 1].lexeme.Length()
    decreases k
  {
    hide Lex;
    var n := Lex(t).Length();
    if k == 0 {
      assert t[0..] == t;
    } else {
      TokensTile(t[n..], at + n, k - 1);
      var o := Tokens(t, at)[k].at - at - n;
      assert t[n..][o..] == t[n + o..];
    }
  }

  ghost predicate ClosesAt(tokens: seq<Token>, q: string, depth: nat, k: nat) {
    k < |tokens| && depth + Balance(tokens[..k + 1], q) == 0
    && forall j :: 0 <= j <= k ==> depth + Balance(tokens[..j], q) > 0
  }

  lemma BalanceCons(x: Token, rest: seq<Token>, q: string, j: nat)
    requires j <= |rest|
    ensures Balance(([x] + rest)[..j + 1], q) == Delta(x.lexeme, q) + Balance(rest[..j], q)
  {
    assert ([x] + rest)[..j + 1] == [x] + rest[..j];
    assert ([x] + rest[..j])[1..] == rest[..j];
  }

  /** The token at offset `o` is the first at which the open elements are balanced. */
  ghost predicate ClosesFirst(tokens: seq<Token>, q: string, depth: nat, o: nat) {
    exists k: nat :: ClosesAt(tokens, q, depth, k) && tokens[k].at == o
  }

  ghost predicate NeverCloses(tokens: seq<Token>, q: string, depth: nat) {
    forall j :: 0 <= j <= |tokens| ==> depth + Balance(tokens[..j], q) > 0
  }

  lemma ConsShifts(x: Token, rest: seq<Token>, q: string)
    ensures forall j :: 0 < j <= |rest| + 1 ==>
              Balance(([x] + rest)[..j], q) == Delta(x.lexeme, q) + Balance(rest[..j - 1], q)
  {
    forall j | 0 < j <= |rest| + 1
      ensures Balance(([x] + rest)[..j], q) == Delta(x.lexeme, q) + Balance(rest[..j - 1], q)
    {
      BalanceCons(x, rest, q, j - 1);
    }
  }

  lemma ConsNever(x: Token, rest: seq<Token>, q: string, depth: nat)
    requires depth > 0 && depth + Delta(x.lexeme, q) > 0
    requires NeverCloses(rest, q, depth + Delta(x.lexeme, q))
    ensures NeverCloses([x] + rest, q, depth)
  {
    ConsShifts(x, rest, q);
  }

  lemma ConsLater(x: Token, rest: seq<Token>, q: string, depth: nat, o: nat)
    requires depth > 0 && depth + Delta(x.lexeme, q) > 0
    requires ClosesFirst(rest, q, depth + Delta(x.lexeme, q), o)
    ensures ClosesFirst([x] + rest, q, depth, o)
  {
    ConsShifts(x, rest, q);
    var k: nat :| ClosesAt(rest, q, depth + Delta(x.lexeme, q), k) && rest[k].at == o;
    assert ([x] + rest)[k + 1] == rest[k];
    assert ClosesAt([x] + rest, q, depth, k + 1);
  }

  lemma ConsCloses(x: Token, rest: seq<Token>, q: string, depth: nat)
    requires depth > 0 && depth + Delta(x.lexeme, q) == 0
    ensures ClosesFirst([x] + rest, q, depth, x.at)
  {
    BalanceCons(x, rest, q, 0);
    assert ClosesAt([x] + rest, q, depth, 0);
  }

  /** The scan finds an offset exactly when some token balances the open elements; it is the first such. */
  lemma {:induction false} FindCloseIsFirstBalance(t: string, q: string, depth: nat, at: nat)
    requires depth > 0
    ensures var toks := Tokens(t, at);
            match FindClose(t, q, depth).found
            case Some(o) => ClosesFirst(toks, q, depth, at + o)
            case None => NeverCloses(toks, q, depth)
    decreases |t|
  {
    hide Lex, FindClose, NeverCloses, ClosesFirst, Tokens;
    FindCloseStep(t, q, depth);
    TokensStep(t, at);
    if t == [] || Lex(t).Unterminated? {
      NothingCloses(q, depth);
    } else {
      var x := Token(at, Lex(t));
      var n := x.lexeme.Length();
      var rest := Tokens(t[n..], at + n);
      var deeper := depth + Delta(x.lexeme, q);
      if deeper == 0 {
        ConsCloses(x, rest, q, depth);
      } else {
        FindCloseIsFirstBalance(t[n..], q, deeper, at + n);
        var r := FindClose(t[n..], q, deeper);
        if r.found.Some? {
          ConsLater(x, rest, q, depth, at + n + r.found.value);
        } else {
          ConsNever(x, rest, q, depth);
        }
      }
    }
  }

  lemma {:induction false} TokensStep(t: string, at: nat)
    ensures Tokens(t, at) ==
            if t == [] || Lex(t).Unterminated? then []
            else [Token(at, Lex(t))] + Tokens(t[Lex(t).Length()..], at + Lex(t).Length())
  {
    hide Lex;
  }

  lemma NothingCloses(q: string, depth: nat)
    requires depth > 0
    ensures NeverCloses([], q, depth)
  {}
}
