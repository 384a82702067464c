/** HMAC-SHA-256 (section 2 of RFC 2104) and the signed media URLs built on it. */
module MediaToken {
  import opened Text
  import opened Sha256Spec
  import opened Sha256Object

  // ---------- HMAC ----------

  /** The key, hashed first when it is longer than a block, padded with zeros to a block. */
  function KeyBlock(key: seq<Byte>): Block {
    hide Sha256; PadKey(if |key| > 64 then Sha256(key) else key)
  }

  function PadKey(material: seq<Byte>): Block
    requires |material| <= 64
  {
    material + Zeros(64 - |material|)
  }

  function Masked(block: Block, mask: Byte): Block {
    seq(64, i requires 0 <= i < 64 => block[i] ^ mask)
  }

  function Hmac(key: seq<Byte>, message: seq<Byte>): (digest: seq<Byte>)
    ensures |digest| == 32
  {
    var k := KeyBlock(key);
    Sha256(Masked(k, 0x5c) + Sha256(Masked(k, 0x36) + message))
  }

  /** Section 2 of RFC 2104, byte by byte, for keys of at most a block. */
  lemma HmacByBytes(key: seq<Byte>, message: seq<Byte>, inner: seq<Byte>, outer: seq<Byte>)
    requires |key| <= 64 == |inner| == |outer|
    requires forall i :: 0 <= i < 64 ==> inner[i] == (if i < |key| then key[i] else 0) ^ 0x36
    requires forall i :: 0 <= i < 64 ==> outer[i] == (if i < |key| then key[i] else 0) ^ 0x5c
    ensures Hmac(key, message) == Sha256(outer + Sha256(inner + message))
  {
    hide Sha256;
    var k := KeyBlock(key);
    assert forall i :: 0 <= i < 64 ==> k[i] == if i < |key| then key[i] else 0;
    assert inner == Masked(k, 0x36) && outer == Masked(k, 0x5c);
  }

  /** A longer key stands for its digest. */
  lemma LongKeysAreHashed(key: seq<Byte>, message: seq<Byte>)
    requires |key| > 64
    ensures Hmac(key, message) == Hmac(Sha256(key), message)
  {
    hide Sha256;
  }

  method HmacSha256(key: seq<Byte>, message: seq<Byte>) returns (digest: seq<Byte>)
    ensures digest == Hmac(key, message)
  {
    hide Sha256, Buffers, PadKey;
    var material := key;
    if |key| > 64 {
      material := HashBuffer(key);
    }
    var keyBlock := Padded(material);
    var ipad, opad := Pads(keyBlock);
    var innerDigest := HashTwo(ipad, message);
    digest := HashTwo(opad, innerDigest);
  }

  method Padded(material: seq<Byte>) returns (block: Block)
    requires |material| <= 64
    ensures block == PadKey(material)
  {
    var keyBlock := new Byte[64](i => 0);
    forall i | 0 <= i < |material| {
      keyBlock[i] := material[i];
    }
    assert keyBlock[..] == PadKey(material);
    block := keyBlock[..];
  }

  method Pads(block: Block) returns (inner: Block, outer: Block)
    ensures inner == Masked(block, 0x36) && outer == Masked(block, 0x5c)
  {
    var ipad, opad := new Byte[64](i => 0), new Byte[64](i => 0);
    for i := 0 to 64
      invariant ipad[..i] == Masked(block, 0x36)[..i] && opad[..i] == Masked(block, 0x5c)[..i]
    {
      ipad[i] := block[i] ^ 0x36;
      opad[i] := block[i] ^ 0x5c;
    }
    assert ipad[..64] == ipad[..] && opad[..64] == opad[..];
    assert Masked(block, 0x36)[..64] == Masked(block, 0x36) && Masked(block, 0x5c)[..64] == Masked(block, 0x5c);
    inner, outer := ipad[..], opad[..];
  }

  /** A fresh object fed twice. */
  method HashTwo(first: seq<Byte>, second: seq<Byte>) returns (digest: seq<Byte>)
    ensures digest == Sha256(first + second)
  {
    hide Sha256, Buffers, Initial, Zeros;
    var h := new Sha256State();
    h.Update(first);
    assert h.message == first;
    h.Update(second);
    digest := h.Finalize();
  }

  // ---------- hexadecimal ----------

  function HexDigit(n: nat): (c: char)
    requires n < 16
  {
    "0123456789abcdef"[n]
  }

  function Hex(d: seq<Byte>): (s: string)
    ensures |s| == 2 * |d|
  {
    if d == [] then [] else Hex(d[..|d| - 1]) + [HexDigit(d[|d| - 1] as nat / 16), HexDigit(d[|d| - 1] as nat % 16)]
  }

  function HexValue(c: char): nat {
    if '0' <= c <= '9' then c as nat - '0' as nat else if 'a' <= c <= 'f' then c as nat - 'a' as nat + 10 else 0
  }

  lemma HexDigitValue(n: nat)
    requires n < 16
    ensures HexValue(HexDigit(n)) == n
  {
    if n < 8 {
      assert HexDigit(n) == ('0' as nat + n) as char;
    }
  }

  lemma DigitPairInjective(m: nat, n: nat)
    requires m < 256 && n < 256
    requires HexDigit(m / 16) == HexDigit(n / 16) && HexDigit(m % 16) == HexDigit(n % 16)
    ensures m == n
  {
    hide HexDigit;
    HexDigitValue(m / 16);
    HexDigitValue(m % 16);
    HexDigitValue(n / 16);
    HexDigitValue(n % 16);
  }

  lemma SameByte(x: Byte, y: Byte)
    requires x as nat == y as nat
    ensures x == y
  {}

  lemma HexPairInjective(x: Byte, y: Byte)
    requires HexDigit(x as nat / 16) == HexDigit(y as nat / 16)
    requires HexDigit(x as nat % 16) == HexDigit(y as nat % 16)
    ensures x == y
  {
    hide HexDigit;
    DigitPairInjective(x as nat, y as nat);
    SameByte(x, y);
  }

  /** Hexadecimal text determines the bytes it was written from. */
  lemma {:induction false} HexInjective(d: seq<Byte>, e: seq<Byte>)
    requires Hex(d) == Hex(e)
    ensures d == e
  {
    hide HexDigit;
    if d != [] {
      var s := Hex(d);
      var x, y := d[|d| - 1], e[|e| - 1];
      var a, b := Hex(d[..|d| - 1]), Hex(e[..|e| - 1]);
      assert s == a + [HexDigit(x as nat / 16), HexDigit(x as nat % 16)];
      assert s == b + [HexDigit(y as nat / 16), HexDigit(y as nat % 16)];
      assert s[|s| - 2] == HexDigit(x as nat / 16) && s[|s| - 1] == HexDigit(x as nat % 16);
      assert s[|s| - 2] == HexDigit(y as nat / 16) && s[|s| - 1] == HexDigit(y as nat % 16);
      HexPairInjective(x, y);
      assert a == s[..|s| - 2] == b;
      HexInjective(d[..|d| - 1], e[..|e| - 1]);
      assert d == d[..|d| - 1] + [x] && e == e[..|e| - 1] + [y];
    }
  }

  /** Byte `i` stands at two digits of `0` to `9` and `a` to `f`, the upper half first. */
  lemma {:induction false} HexDigits(d: seq<Byte>, i: nat)
    requires i < |d|
    ensures var s := Hex(d);
            && (IsDigit(s[2 * i]) || 'a' <= s[2 * i] <= 'f') && (IsDigit(s[2 * i + 1]) || 'a' <= s[2 * i + 1] <= 'f')
            && 16 * HexValue(s[2 * i]) + HexValue(s[2 * i + 1]) == d[i] as nat
  {
    hide HexDigit, HexValue;
    var n := |d| - 1;
    if i == n {
      HexDigitValue(d[n] as nat / 16);
      HexDigitValue(d[n] as nat % 16);
      HexDigitIsLower(d[n] as nat / 16);
      HexDigitIsLower(d[n] as nat % 16);
    } else {
      HexDigits(d[..n], i);
    }
  }

  lemma HexDigitIsLower(n: nat)
    requires n < 16
    ensures IsDigit(HexDigit(n)) || 'a' <= HexDigit(n) <= 'f'
  {}

  method ToHex(d: seq<Byte>) returns (out: string)
    ensures out == Hex(d)
  {
    out := [];
    for i := 0 to |d|
      invariant out == Hex(d[..i])
    {
      assert d[..i + 1][..i] == d[..i];
      out := out + [HexDigit(d[i] as nat / 16), HexDigit(d[i] as nat % 16)];
    }
    assert d[..|d|] == d;
  }

  // ---------- comparing byte strings ----------

  /** Every character stands for one byte. */
  predicate IsBytes(s: string) {
    forall c :: c in s ==> c as int < 256
  }

  function Bytes(s: string): (b: seq<Byte>)
    requires IsBytes(s)
    ensures |b| == |s|
  {
    seq(|s|, i requires 0 <= i < |s| => assert s[i] in s; s[i] as int as Byte)
  }

  lemma BytesInjective(s: string, t: string)
    requires IsBytes(s) && IsBytes(t) && Bytes(s) == Bytes(t)
    ensures s == t
  {
    forall i | 0 <= i < |s| ensures s[i] == t[i] {
      assert s[i] in s && t[i] in t && Bytes(s)[i] == Bytes(t)[i];
      ByteRoundTrip(s[i] as int);
      ByteRoundTrip(t[i] as int);
    }
  }

  lemma XorZero(x: Byte, y: Byte)
    ensures x ^ y == 0 <==> x == y
  {}

  lemma OrZero(x: Byte, y: Byte)
    ensures x | y == 0 <==> x == 0 && y == 0
  {}

  method ConstantTimeEquals(a: string, b: string) returns (equal: bool)
    requires IsBytes(a) && IsBytes(b)
    ensures equal <==> a == b
  {
    if |a| != |b| {
      return false;
    }
    var x, y := Bytes(a), Bytes(b);
    var diff: Byte := 0;
    for i := 0 to |a|
      invariant diff == 0 <==> x[..i] == y[..i]
    {
      XorZero(x[i], y[i]);
      OrZero(diff, x[i] ^ y[i]);
      assert x[..i + 1] == x[..i] + [x[i]] && y[..i + 1] == y[..i] + [y[i]];
      diff := diff | (x[i] ^ y[i]);
    }
    assert x[..|a|] == x && y[..|a|] == y;
    if x == y {
      BytesInjective(a, b);
    }
    return diff == 0;
  }

  // ---------- tokens ----------

  function SignedMessage(id: string, expires: int): string {
    id + "|" + SignedDecimal(expires)
  }

  lemma SignedMessageIsBytes(id: string, expires: int)
    requires IsBytes(id)
    ensures IsBytes(SignedMessage(id, expires))
  {
    hide SignedDecimal;
    var m, e := SignedMessage(id, expires), SignedDecimal(expires);
    forall c | c in m ensures c as int < 256 {
      assert c in id || c == '|' || c in e;
    }
  }

  /** No two pairs share a signed message, even when ids contain the separator. */
  lemma SignedMessageInjective(id1: string, e1: int, id2: string, e2: int)
    requires INT64_MIN <= e1 <= INT64_MAX && INT64_MIN <= e2 <= INT64_MAX
    requires SignedMessage(id1, e1) == SignedMessage(id2, e2)
    ensures id1 == id2 && e1 == e2
  {
    hide SignedDecimal, ParseInt64;
    NoBar(e1);
    NoBar(e2);
    SplitAtLastBar(id1, SignedDecimal(e1), id2, SignedDecimal(e2));
    Int64RoundTrip(e1);
    Int64RoundTrip(e2);
  }

  lemma NoBar(e: int)
    ensures '|' !in SignedDecimal(e)
  {}

  lemma SplitAtLastBar(a: string, x: string, b: string, y: string)
    requires '|' !in x && '|' !in y && a + "|" + x == b + "|" + y
    ensures a == b && x == y
  {
    var m := a + "|" + x;
    assert m == b + "|" + y && m[|a|] == m[|b|] == '|';
    assert m[..|a|] == a && m[..|b|] == b && m[|a| + 1..] == x && m[|b| + 1..] == y;
  }

  function Signature(secret: string, id: string, expires: int): (sig: string)
    requires IsBytes(secret) && IsBytes(id)
    ensures |sig| == 64
  {
    SignedMessageIsBytes(id, expires);
    Hex(Hmac(Bytes(secret), Bytes(SignedMessage(id, expires))))
  }

  /** The URL suffix of a token; empty when signing is disabled. */
  function Suffix(secret: string, id: string, expires: int): string
    requires IsBytes(secret) && IsBytes(id)
  {
    if secret == "" then "" else "?expires=" + SignedDecimal(expires) + "&sig=" + Signature(secret, id, expires)
  }

  /** Whether a token presented on the wire lets its bearer in at time `now`. */
  predicate Accepts(secret: string, id: string, expiresText: string, sig: string, now: int)
    requires IsBytes(secret) && IsBytes(id)
  {
    secret == ""
    || (var expires := ParseInt64(expiresText);
        expires.Some? && now < expires.value && sig == Signature(secret, id, expires.value))
  }

  method MintSignature(secret: string, id: string, expires: int) returns (sig: string)
    requires IsBytes(secret) && IsBytes(id)
    ensures sig == Signature(secret, id, expires)
  {
    SignedMessageIsBytes(id, expires);
    var mac := HmacSha256(Bytes(secret), Bytes(SignedMessage(id, expires)));
    sig := ToHex(mac);
  }

  /** `now + ttl` is signed 64-bit arithmetic, which must not overflow. */
  method Sign(secret: string, id: string, now: int, ttl: int) returns (out: string)
    requires IsBytes(secret) && IsBytes(id)
    requires INT64_MIN <= now + ttl <= INT64_MAX
    ensures out == Suffix(secret, id, now + ttl)
  {
    hide Signature, SignedDecimal;
    if secret == "" {
      return "";
    }
    var expires := now + ttl;
    var sig := MintSignature(secret, id, expires);
    out := "?expires=" + SignedDecimal(expires) + "&sig=" + sig;
  }

  lemma HexDigitIsByte(n: nat)
    requires n < 16
    ensures HexDigit(n) as int < 256
  {}

  lemma {:induction false} HexIsBytes(d: seq<Byte>)
    ensures IsBytes(Hex(d))
  {
    hide HexDigit;
    if d != [] {
      HexIsBytes(d[..|d| - 1]);
      HexDigitIsByte(d[|d| - 1] as nat / 16);
      HexDigitIsByte(d[|d| - 1] as nat % 16);
    }
  }

  method Verify(secret: string, id: string, expiresText: string, sig: string, now: int) returns (ok: bool)
    requires IsBytes(secret) && IsBytes(id) && IsBytes(sig)
    ensures ok == Accepts(secret, id, expiresText, sig, now)
  {
    hide Hex, Hmac;
    if secret == "" {
      return true;
    }
    if expiresText == "" || sig == "" {
      return false;
    }
    var expires := ParseInt64(expiresText);
    if expires.None? {
      return false;
    }
    if now >= expires.value {
      return false;
    }
    var expected := MintSignature(secret, id, expires.value);
    SignedMessageIsBytes(id, expires.value);
    HexIsBytes(Hmac(Bytes(secret), Bytes(SignedMessage(id, expires.value))));
    ok := ConstantTimeEquals(expected, sig);
  }

  /** A token minted at `t` for `ttl` seconds opens its own id at exactly the times before `t + ttl`. */
  lemma MintedTokenLives(secret: string, id: string, t: int, ttl: int, now: int)
    requires IsBytes(secret) && IsBytes(id) && secret != ""
    requires INT64_MIN <= t + ttl <= INT64_MAX
    ensures Accepts(secret, id, SignedDecimal(t + ttl), Signature(secret, id, t + ttl), now) <==> now < t + ttl
  {
    hide Signature;
    Int64RoundTrip(t + ttl);
  }

  lemma NoAmpersand(e: int)
    ensures '&' !in SignedDecimal(e)
  {}

  lemma SplitsOnce(a: string, b: string, a': string, b': string)
    requires a + "&sig=" + b == a' + "&sig=" + b' && '&' !in a && '&' !in a'
    ensures a == a' && b == b'
  {
    var s := a + "&sig=" + b;
    assert forall k :: 0 <= k < |a| ==> s[k] == a[k] && a[k] in a;
    assert forall k :: 0 <= k < |a'| ==> s[k] == a'[k] && a'[k] in a';
    assert s[|a|] == '&' && s[|a'|] == '&';
    assert |a| == |a'|;
    assert a == s[..|a|] == a';
    assert b == s[|a| + 5..] == b';
  }

  /**
   The suffix splits into an expiry without `&` and a signature in one way, and the parts that are read
   out of it open the id at exactly the times before `t + ttl`.
   */
  lemma SuffixReadsBack(secret: string, id: string, t: int, ttl: int, expiresText: string, sig: string, now: int)
    requires IsBytes(secret) && IsBytes(id) && secret != ""
    requires INT64_MIN <= t + ttl <= INT64_MAX
    requires Suffix(secret, id, t + ttl) == "?expires=" + expiresText + "&sig=" + sig && '&' !in expiresText
    ensures expiresText == SignedDecimal(t + ttl) && sig == Signature(secret, id, t + ttl)
    ensures Accepts(secret, id, expiresText, sig, now) <==> now < t + ttl
  {
    hide Signature, SignedDecimal, Accepts;
    var e, g := SignedDecimal(t + ttl), Signature(secret, id, t + ttl);
    NoAmpersand(t + ttl);
    Behind("?expires=", e, g);
    Behind("?expires=", expiresText, sig);
    SplitsOnce(expiresText, sig, e, g);
    MintedTokenLives(secret, id, t, ttl, now);
  }

  lemma Behind(mark: string, e: string, g: string)
    ensures (mark + e + "&sig=" + g)[|mark|..] == e + "&sig=" + g
  {}

  /** The form of the suffix, and of what is signed; without a secret there is none and every token is accepted. */
  lemma SuffixForm(secret: string, id: string, expires: int, expiresText: string, sig: string, now: int)
    requires IsBytes(secret) && IsBytes(id)
    ensures IsBytes(id + "|" + SignedDecimal(expires))
    ensures secret != "" ==>
              Suffix(secret, id, expires) == "?expires=" + SignedDecimal(expires) + "&sig="
                + Hex(Hmac(Bytes(secret), Bytes(id + "|" + SignedDecimal(expires))))
    ensures secret == "" ==> Suffix(secret, id, expires) == "" && Accepts(secret, id, expiresText, sig, now)
  {
    hide SignedDecimal, Hmac, Hex;
    SignedMessageIsBytes(id, expires);
  }

  ghost predicate SameMac(secret: string, id1: string, e1: int, id2: string, e2: int)
    requires IsBytes(secret) && IsBytes(id1) && IsBytes(id2)
  {
    SignedMessageIsBytes(id1, e1);
    SignedMessageIsBytes(id2, e2);
    Hmac(Bytes(secret), Bytes(SignedMessage(id1, e1))) == Hmac(Bytes(secret), Bytes(SignedMessage(id2, e2)))
  }

  /**
   A signature minted for one id and expiry is accepted for another pair exactly when the HMACs of the
   two pairs' messages collide and the pair has not expired; those messages differ whenever the pairs do.
   */
  lemma TokenBoundToItsMessage(secret: string, id: string, expires: int, other: string, expiresText: string, now: int)
    requires IsBytes(secret) && IsBytes(id) && IsBytes(other) && secret != ""
    requires INT64_MIN <= expires <= INT64_MAX
    ensures Accepts(secret, other, expiresText, Signature(secret, id, expires), now) <==>
            var e := ParseInt64(expiresText);
            e.Some? && now < e.value && SameMac(secret, id, expires, other, e.value)
    ensures var e := ParseInt64(expiresText);
            e.Some? && (id != other || expires != e.value) ==>
              SignedMessage(id, expires) != SignedMessage(other, e.value)
  {
    hide Hmac, Hex, ParseInt64;
    ParsedInRange(expiresText);
    if ParseInt64(expiresText).Some? {
      var e := ParseInt64(expiresText).value;
      SignedMessageIsBytes(id, expires);
      SignedMessageIsBytes(other, e);
      var m, n := Bytes(SignedMessage(id, expires)), Bytes(SignedMessage(other, e));
      if Hex(Hmac(Bytes(secret), m)) == Hex(Hmac(Bytes(secret), n)) {
        HexInjective(Hmac(Bytes(secret), m), Hmac(Bytes(secret), n));
      }
      if SignedMessage(id, expires) == SignedMessage(other, e) {
        SignedMessageInjective(id, expires, other, e);
      }
    }
  }

  lemma ParsedInRange(s: string)
    ensures ParseInt64(s).Some? ==> INT64_MIN <= ParseInt64(s).value <= INT64_MAX
  {}
}
