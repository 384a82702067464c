/** Byte-wise text helpers in the C locale: a `char` stands for one byte of the program's strings. */
module Text {
  import opened Wrappers

  predicate IsSpace(c: char) {
    c == ' ' || '\t' <= c <= '\r'
  }

  predicate IsDigit(c: char) {
    '0' <= c <= '9'
  }

  predicate IsAlpha(c: char) {
    'a' <= c <= 'z' || 'A' <= c <= 'Z'
  }

  predicate IsAlnum(c: char) {
    IsAlpha(c) || IsDigit(c)
  }

  // ---------- substring search ----------

  /** `std::string_view::find`: the first offset at which `pat` occurs. */
  function Find(t: string, pat: string): (r: Option<nat>)
    ensures r.Some? ==> r.value + |pat| <= |t| && t[r.value..r.value + |pat|] == pat
  {
    if pat <= t then Some(0)
    else if t == [] then None
    else
      var rest := Find(t[1..], pat);
      assert rest.Some? ==> t[1..][rest.value..rest.value + |pat|] == t[1 + rest.value..1 + rest.value + |pat|];
      Shift(1, rest)
  }

  /** A prefix holding no `>` and not ending in the other mark cannot hold a two-mark terminator. */
  lemma {:induction false} FindAfter(x: string, a: char, rest: string)
    requires '>' !in x && a != '>'
    requires x == [] || x[|x| - 1] != a
    ensures Find(x + [a, '>'] + rest, [a, '>']) == Some(|x|)
  {
    var t := x + [a, '>'] + rest;
    if x == [] {
      assert t[..2] == [a, '>'];
    } else {
      assert t[0] == x[0] && t[1] == if |x| > 1 then x[1] else a;
      assert t[1..] == x[1..] + [a, '>'] + rest;
      FindAfter(x[1..], a, rest);
    }
  }

  // ---------- trimming ----------

  function TrimLeft(s: string): string {
    if s != [] && IsSpace(s[0]) then TrimLeft(s[1..]) else s
  }

  function TrimRight(s: string): string {
    if s != [] && IsSpace(s[|s| - 1]) then TrimRight(s[..|s| - 1]) else s
  }

  function Trim(s: string): string {
    TrimRight(TrimLeft(s))
  }

  predicate NoOuterSpace(s: string) {
    s == [] || (!IsSpace(s[0]) && !IsSpace(s[|s| - 1]))
  }

  lemma TrimRightKeepsHead(s: string)
    requires s != [] && !IsSpace(s[0])
    ensures TrimRight(s) != [] && TrimRight(s)[0] == s[0]
  {}

  /** Trimming leaves a text alone exactly when it has no outer white space, and is idempotent. */
  lemma TrimFixedPoint(s: string)
    ensures Trim(s) == s <==> NoOuterSpace(s)
    ensures NoOuterSpace(Trim(s))
  {
    TrimLeftShape(s);
    TrimRightShape(TrimLeft(s));
    if TrimLeft(s) != [] { TrimRightKeepsHead(TrimLeft(s)); }
  }

  lemma TrimLeftShape(s: string)
    ensures |TrimLeft(s)| <= |s|
    ensures TrimLeft(s) == [] || !IsSpace(TrimLeft(s)[0])
    ensures |TrimLeft(s)| == |s| ==> TrimLeft(s) == s
  {}

  lemma TrimRightShape(s: string)
    ensures |TrimRight(s)| <= |s|
    ensures TrimRight(s) == [] || !IsSpace(TrimRight(s)[|TrimRight(s)| - 1])
    ensures |TrimRight(s)| == |s| ==> TrimRight(s) == s
  {}

  lemma {:induction false} LeftIsCut(s: string) returns (a: string)
    ensures s == a + TrimLeft(s) && forall c :: c in a ==> IsSpace(c)
  {
    if s != [] && IsSpace(s[0]) {
      a := LeftIsCut(s[1..]);
      a := [s[0]] + a;
      assert s == [s[0]] + s[1..];
    } else {
      a := [];
    }
  }

  lemma {:induction false} RightIsCut(s: string) returns (b: string)
    ensures s == TrimRight(s) + b && forall c :: c in b ==> IsSpace(c)
  {
    var n := |s| - 1;
    if s != [] && IsSpace(s[n]) {
      b := RightIsCut(s[..n]);
      b := b + [s[n]];
      assert s == s[..n] + [s[n]];
    } else {
      b := [];
    }
  }

  /** Trimming cuts off white space at either end, as far as it goes, and nothing else. */
  lemma TrimExactly(s: string) returns (a: string, b: string)
    ensures s == a + Trim(s) + b && NoOuterSpace(Trim(s))
    ensures forall c :: c in a || c in b ==> c in " \t\n\U{0B}\U{0C}\r"
  {
    a := LeftIsCut(s);
    b := RightIsCut(TrimLeft(s));
    TrimFixedPoint(s);
    assert s == a + (Trim(s) + b);
    forall c | IsSpace(c) ensures c in " \t\n\U{0B}\U{0C}\r" {
      SpaceExactly(c);
    }
  }

  /** The white space of the C locale. */
  lemma SpaceExactly(c: char)
    ensures IsSpace(c) <==> c in " \t\n\U{0B}\U{0C}\r"
  {
    var spaces := " \t\n\U{0B}\U{0C}\r";
    assert spaces[0] == ' ' && spaces[1] == '\t' && spaces[2] == '\n' && spaces[3] == '\U{0B}';
    assert spaces[4] == '\U{0C}' && spaces[5] == '\r';
  }

  /** The two cursor loops of the program: `a` walks up over leading space, `b` down over trailing. */
  method TrimSpan(s: string) returns (r: string)
    ensures r == Trim(s)
  {
    var a, b := 0, |s|;
    while a < b && IsSpace(s[a])
      invariant a <= b == |s|
      invariant TrimLeft(s[a..]) == TrimLeft(s)
    {
      assert s[a..][1..] == s[a + 1..];
      a := a + 1;
    }
    assert TrimLeft(s) == s[a..] == s[a..b];
    while b > a && IsSpace(s[b - 1])
      invariant a <= b <= |s|
      invariant TrimRight(s[a..b]) == Trim(s)
    {
      assert s[a..b][..b - a - 1] == s[a..b - 1];
      b := b - 1;
    }
    r := s[a..b];
  }

  // ---------- decimal numbers ----------

  function DigitChar(d: nat): (c: char)
    requires d < 10
    ensures IsDigit(c) && c as int - '0' as int == d
  {
    (d + '0' as int) as char
  }

  /** `std::to_string` of an unsigned value. */
  function Decimal(n: nat): (s: string)
    ensures s != [] && forall c :: c in s ==> IsDigit(c)
  {
    if n < 10 then [DigitChar(n)] else Decimal(n / 10) + [DigitChar(n % 10)]
  }

  predicate AllDigits(s: string) {
    forall c :: c in s ==> IsDigit(c)
  }

  function DigitsValue(s: string): nat
    requires AllDigits(s)
  {
    if s == [] then 0
    else
      assert IsDigit(s[|s| - 1]);
      10 * DigitsValue(s[..|s| - 1]) + (s[|s| - 1] as int - '0' as int)
  }

  lemma {:induction false} DecimalValue(n: nat)
    ensures DigitsValue(Decimal(n)) == n
  {
    var s := Decimal(n);
    if n >= 10 {
      DecimalValue(n / 10);
      assert s[..|s| - 1] == Decimal(n / 10);
    } else {
      assert s[..0] == [];
    }
  }

  /** `std::to_string` of a signed value. */
  function SignedDecimal(n: int): (s: string)
    ensures s != []
    ensures n < 0 ==> s[0] == '-' && AllDigits(s[1..])
    ensures n >= 0 ==> AllDigits(s)
    ensures forall c :: c in s ==> IsDigit(c) || c == '-'
  {
    if n < 0 then ['-'] + Decimal(-n) else Decimal(n)
  }

  const INT64_MIN: int := -0x8000_0000_0000_0000
  const INT64_MAX: int := 0x7fff_ffff_ffff_ffff

  /** `std::from_chars` of the whole text into an int64: `None` is any of its failures. */
  function ParseInt64(s: string): Option<int> {
    var negative := s != [] && s[0] == '-';
    var digits := if negative then s[1..] else s;
    if digits == [] || !AllDigits(digits) then None
    else
      var magnitude: int := DigitsValue(digits);
      var v := if negative then -magnitude else magnitude;
      if INT64_MIN <= v <= INT64_MAX then Some(v) else None
  }

  /** `std::from_chars` of the whole text into a uint32. */
  function ParseUint32(s: string): Option<nat> {
    if s == [] || !AllDigits(s) then None
    else if DigitsValue(s) < 0x1_0000_0000 then Some(DigitsValue(s))
    else None
  }

  lemma Int64RoundTrip(n: int)
    requires INT64_MIN <= n <= INT64_MAX
    ensures ParseInt64(SignedDecimal(n)) == Some(n)
  {
    DecimalValue(if n < 0 then -n else n);
    if n >= 0 {
      assert IsDigit(SignedDecimal(n)[0]);
    } else {
      assert SignedDecimal(n)[1..] == Decimal(-n);
    }
  }

  /** The digits `d` stand in `s` for the number `v`, with a minus in front of them or none. */
  predicate Writes(s: string, d: string, v: int) {
    && d != "" && AllDigits(d)
    && ((s == d && v == DigitsValue(d)) || (s == "-" + d && v + DigitsValue(d) == 0))
  }

  /** The texts that are read, and as what. */
  lemma ReadsExactly(s: string, v: int)
    ensures ParseInt64(s) == Some(v) <==> INT64_MIN <= v <= INT64_MAX && exists d :: Writes(s, d, v)
  {
    hide DigitsValue;
    var negative := s != "" && s[0] == '-';
    var digits := if negative then s[1..] else s;
    assert s == if negative then "-" + digits else digits;
    if ParseInt64(s) == Some(v) {
      assert Writes(s, digits, v);
    }
    if d :| Writes(s, d, v) {
      assert IsDigit(d[0]);
      assert digits == d;
    }
  }

  lemma Uint32RoundTrip(n: nat)
    requires n < 0x1_0000_0000
    ensures ParseUint32(Decimal(n)) == Some(n)
  {
    DecimalValue(n);
  }
}
