/** SHA-256 as section 6.2 of FIPS 180-4 defines it, on whole messages of bytes. */
module Sha256Spec {
  type Byte = bv8
  type Word = bv32

  /** The constants of section 4.2.2, in rows of eight. */
  function ConstantRow(i: nat): (row: seq<Word>)
    requires i < 8
    ensures |row| == 8
  {
    match i
    case 0 => [0x428a2f98, 0x71374491, 0xb5c0fbcf, 0xe9b5dba5, 0x3956c25b, 0x59f111f1, 0x923f82a4, 0xab1c5ed5]
    case 1 => [0xd807aa98, 0x12835b01, 0x243185be, 0x550c7dc3, 0x72be5d74, 0x80deb1fe, 0x9bdc06a7, 0xc19bf174]
    case 2 => [0xe49b69c1, 0xefbe4786, 0x0fc19dc6, 0x240ca1cc, 0x2de92c6f, 0x4a7484aa, 0x5cb0a9dc, 0x76f988da]
    case 3 => [0x983e5152, 0xa831c66d, 0xb00327c8, 0xbf597fc7, 0xc6e00bf3, 0xd5a79147, 0x06ca6351, 0x14292967]
    case 4 => [0x27b70a85, 0x2e1b2138, 0x4d2c6dfc, 0x53380d13, 0x650a7354, 0x766a0abb, 0x81c2c92e, 0x92722c85]
    case 5 => [0xa2bfe8a1, 0xa81a664b, 0xc24b8b70, 0xc76c51a3, 0xd192e819, 0xd6990624, 0xf40e3585, 0x106aa070]
    case 6 => [0x19a4c116, 0x1e376c08, 0x2748774c, 0x34b0bcb5, 0x391c0cb3, 0x4ed8aa4a, 0x5b9cca4f, 0x682e6ff3]
    case _ => [0x748f82ee, 0x78a5636f, 0x84c87814, 0x8cc70208, 0x90befffa, 0xa4506ceb, 0xbef9a3f7, 0xc67178f2]
  }

  function K(t: nat): Word
    requires t < 64
  {
    ConstantRow(t / 8)[t % 8]
  }

  type Hash = h: seq<Word> | |h| == 8 witness [0, 0, 0, 0, 0, 0, 0, 0]

  /** The initial hash value of section 5.3.3. */
  function Initial(): Hash {
    [0x6a09e667, 0xbb67ae85, 0x3c6ef372, 0xa54ff53a, 0x510e527f, 0x9b05688c, 0x1f83d9ab, 0x5be0cd19]
  }

  // ---------- the functions of section 4.1.2 ----------

  function Rotr(x: Word, n: nat): Word
    requires 0 < n < 32
  {
    (x >> n) | (x << (32 - n))
  }

  function BigSigma0(x: Word): Word {
    Rotr(x, 2) ^ Rotr(x, 13) ^ Rotr(x, 22)
  }

  function BigSigma1(x: Word): Word {
    Rotr(x, 6) ^ Rotr(x, 11) ^ Rotr(x, 25)
  }

  function LittleSigma0(x: Word): Word {
    Rotr(x, 7) ^ Rotr(x, 18) ^ (x >> 3)
  }

  function LittleSigma1(x: Word): Word {
    Rotr(x, 17) ^ Rotr(x, 19) ^ (x >> 10)
  }

  function Ch(x: Word, y: Word, z: Word): Word {
    (x & y) ^ (!x & z)
  }

  function Maj(x: Word, y: Word, z: Word): Word {
    (x & y) ^ (x & z) ^ (y & z)
  }

  // ---------- the compression function of section 6.2.2 ----------

  function LoadBe32(b0: Byte, b1: Byte, b2: Byte, b3: Byte): Word {
    (b0 as Word << 24) | (b1 as Word << 16) | (b2 as Word << 8) | b3 as Word
  }

  type Block = b: seq<Byte> | |b| == 64 witness seq(64, i => 0)

  /** The word that the message schedule appends to `w`. */
  function NextWord(block: Block, w: seq<Word>): Word
    requires |w| < 64
  {
    var t := |w|;
    if t < 16 then LoadBe32(block[4 * t], block[4 * t + 1], block[4 * t + 2], block[4 * t + 3])
    else Extension(w[t - 2], w[t - 7], w[t - 15], w[t - 16])
  }

  function Extension(w2: Word, w7: Word, w15: Word, w16: Word): Word {
    LittleSigma1(w2) + w7 + LittleSigma0(w15) + w16
  }

  /** The first `n` words of the message schedule. */
  function Schedule(block: Block, n: nat): (w: seq<Word>)
    requires n <= 64
    ensures |w| == n
  {
    if n == 0 then [] else Schedule(block, n - 1) + [NextWord(block, Schedule(block, n - 1))]
  }

  /** The eight working variables. */
  datatype Vars = Vars(a: Word, b: Word, c: Word, d: Word, e: Word, f: Word, g: Word, h: Word)

  function Sum(a: Word, b: Word, c: Word, d: Word, e: Word): Word {
    a + b + c + d + e
  }

  function Plus(a: Word, b: Word): Word {
    a + b
  }

  function Temp1(v: Vars, k: Word, w: Word): Word {
    Sum(v.h, BigSigma1(v.e), Ch(v.e, v.f, v.g), k, w)
  }

  function Temp2(v: Vars): Word {
    Plus(BigSigma0(v.a), Maj(v.a, v.b, v.c))
  }

  function Advanced(v: Vars, t1: Word, t2: Word): Vars {
    Vars(t1 + t2, v.a, v.b, v.c, v.d + t1, v.e, v.f, v.g)
  }

  function Round(v: Vars, k: Word, w: Word): Vars {
    Advanced(v, Temp1(v, k, w), Temp2(v))
  }

  function Start(h: Hash): Vars {
    Vars(h[0], h[1], h[2], h[3], h[4], h[5], h[6], h[7])
  }

  /** The working variables after `n` rounds over the schedule `w`. */
  function Rounds(h: Hash, w: seq<Word>, n: nat): Vars
    requires n <= 64 == |w|
  {
    if n == 0 then Start(h) else Round(Rounds(h, w, n - 1), K(n - 1), w[n - 1])
  }

  function Compressed(h: Hash, block: Block): Hash {
    Added(h, Rounds(h, Schedule(block, 64), 64))
  }

  function Added(h: Hash, v: Vars): Hash {
    [h[0] + v.a, h[1] + v.b, h[2] + v.c, h[3] + v.d, h[4] + v.e, h[5] + v.f, h[6] + v.g, h[7] + v.h]
  }

  /** The hash value after the blocks of `m`, in order. */
  function Absorb(h: Hash, m: seq<Byte>): Hash
    requires |m| % 64 == 0
    decreases |m|
  {
    if m == [] then h else Absorb(Compressed(h, m[..64]), m[64..])
  }

  // ---------- the padding of section 5.1.1 ----------

  const TWO64: nat := 0x1_0000_0000_0000_0000

  /** The number of zero bytes between the mark byte and the length field. */
  function ZeroBytes(len: nat): (k: nat)
    ensures k < 64 && (len + 1 + k) % 64 == 56
  {
    (119 - len % 64) % 64
  }

  function Zeros(k: nat): (z: seq<Byte>)
    ensures |z| == k && forall i :: 0 <= i < k ==> z[i] == 0
  {
    seq(k, i => 0)
  }

  function BigEndian(n: nat, bytes: nat): (r: seq<Byte>)
    ensures |r| == bytes
  {
    if bytes == 0 then [] else BigEndian(n / 256, bytes - 1) + [(n % 256) as Byte]
  }

  /** The number whose base-256 digits these are. */
  function FromBigEndian(r: seq<Byte>): nat {
    if r == [] then 0 else 256 * FromBigEndian(r[..|r| - 1]) + r[|r| - 1] as nat
  }

  /** The program counts bits in 64, so the length field of an oversized message wraps. */
  function LengthField(len: nat): (r: seq<Byte>)
    ensures |r| == 8
  {
    BigEndian(8 * len % TWO64, 8)
  }

  lemma PaddedLength(len: nat, k: nat)
    requires (len + 1 + k) % 64 == 56
    ensures (len + 1 + k + 8) % 64 == 0
  {}

  function Pad(m: seq<Byte>): (p: seq<Byte>)
    ensures |p| % 64 == 0
  {
    PaddedLength(|m|, ZeroBytes(|m|));
    m + [0x80] + Zeros(ZeroBytes(|m|)) + LengthField(|m|)
  }

  function WordBytes(w: Word): (r: seq<Byte>)
    ensures |r| == 4
  {
    [((w >> 24) & 0xFF) as Byte, ((w >> 16) & 0xFF) as Byte, ((w >> 8) & 0xFF) as Byte, (w & 0xFF) as Byte]
  }

  function HashBytes(h: seq<Word>): (r: seq<Byte>)
    ensures |r| == 4 * |h|
  {
    if h == [] then [] else HashBytes(h[..|h| - 1]) + WordBytes(h[|h| - 1])
  }

  function Sha256(m: seq<Byte>): (digest: seq<Byte>)
    ensures |digest| == 32
  {
    HashBytes(Absorb(Initial(), Pad(m)))
  }

  // ---------- what the definitions promise ----------

  lemma {:induction false} AbsorbAppend(h: Hash, a: seq<Byte>, b: seq<Byte>)
    requires |a| % 64 == 0 && |b| % 64 == 0
    ensures Absorb(h, a + b) == Absorb(Absorb(h, a), b)
    decreases |a|
  {
    hide Compressed;
    if a == [] {
      assert a + b == b;
    } else {
      assert (a + b)[..64] == a[..64] && (a + b)[64..] == a[64..] + b;
      AbsorbAppend(Compressed(h, a[..64]), a[64..], b);
    }
  }

  /** Two blocks are compressed one into the other. */
  lemma TwoBlocks(h: Hash, a: Block, b: Block)
    ensures Absorb(h, a + b) == Compressed(Compressed(h, a), b)
  {
    hide Compressed;
    assert (a + b)[..64] == a && (a + b)[64..] == b && b[..64] == b && b[64..] == [];
    var once := Compressed(h, a);
    assert Absorb(h, a + b) == Absorb(once, b);
    assert Absorb(once, b) == Absorb(Compressed(once, b), []);
  }

  /** `ZeroBytes` is the least count that brings the padded length to 56 modulo 64. */
  lemma ZeroBytesIsLeast(len: nat, k: nat)
    requires (len + 1 + k) % 64 == 56
    ensures ZeroBytes(len) <= k
  {}

  // A number below 256 and the byte it converts to have the same binary digits.

  function Weight(isSet: bool, weight: nat): nat {
    if isSet then weight else 0
  }

  function ByteDigits(b: Byte): nat {
    Weight(b & 1 != 0, 1) + Weight(b & 2 != 0, 2) + Weight(b & 4 != 0, 4) + Weight(b & 8 != 0, 8)
    + Weight(b & 16 != 0, 16) + Weight(b & 32 != 0, 32) + Weight(b & 64 != 0, 64) + Weight(b & 128 != 0, 128)
  }

  function DigitAt(n: nat, weight: nat): nat
    requires weight > 0
  {
    Weight(n / weight % 2 == 1, weight)
  }

  function NumberDigits(n: nat): nat {
    DigitAt(n, 1) + DigitAt(n, 2) + DigitAt(n, 4) + DigitAt(n, 8)
    + DigitAt(n, 16) + DigitAt(n, 32) + DigitAt(n, 64) + DigitAt(n, 128)
  }

  lemma ByteDigitsAddUp(b: Byte)
    ensures ByteDigits(b) == b as nat
  {}

  lemma SameDigits(n: nat)
    requires n < 256
    ensures ByteDigits(n as Byte) == NumberDigits(n)
  {}

  /** `n` without its digits below `weight`. */
  function Upper(n: nat, weight: nat): nat
    requires weight > 0
  {
    n / weight * weight
  }

  lemma DivideOff(n: nat, weight: nat)
    requires weight in {1, 2, 4, 8, 16, 32, 64, 128}
    ensures n / weight * weight == DigitAt(n, weight) + n / (2 * weight) * (2 * weight)
  {}

  lemma DigitOff(n: nat, weight: nat)
    requires weight in {1, 2, 4, 8, 16, 32, 64, 128}
    ensures Upper(n, weight) == DigitAt(n, weight) + Upper(n, 2 * weight)
  {
    hide DigitAt;
    DivideOff(n, weight);
  }

  lemma UpperEnds(n: nat)
    requires n < 256
    ensures Upper(n, 1) == n && Upper(n, 256) == 0
  {}

  lemma NumberDigitsAddUp(n: nat)
    requires n < 256
    ensures NumberDigits(n) == n
  {
    hide DigitAt, Upper;
    UpperEnds(n);
    DigitOff(n, 1);
    DigitOff(n, 2);
    DigitOff(n, 4);
    DigitOff(n, 8);
    DigitOff(n, 16);
    DigitOff(n, 32);
    DigitOff(n, 64);
    DigitOff(n, 128);
  }

  lemma ByteRoundTrip(n: nat)
    requires n < 256
    ensures (n as Byte) as nat == n
  {
    hide ByteDigits, NumberDigits;
    SameDigits(n);
    ByteDigitsAddUp(n as Byte);
    NumberDigitsAddUp(n);
  }

  lemma {:induction false} BigEndianReadsBack(n: nat, bytes: nat)
    requires n < Base(bytes)
    ensures FromBigEndian(BigEndian(n, bytes)) == n
  {
    if bytes > 0 {
      var r := BigEndian(n, bytes);
      assert r[..|r| - 1] == BigEndian(n / 256, bytes - 1);
      BigEndianReadsBack(n / 256, bytes - 1);
      ByteRoundTrip(n % 256);
    }
  }

  function Base(bytes: nat): (b: nat)
    ensures b > 0
  {
    if bytes == 0 then 1 else 256 * Base(bytes - 1)
  }

  lemma BaseOfEight()
    ensures Base(8) == TWO64
  {
    assert Base(2) == 0x1_0000;
    assert Base(4) == 0x1_0000_0000;
    assert Base(6) == 0x1_0000_0000_0000;
  }

  /** The length field is the bit length of every message that FIPS 180-4 admits. */
  lemma LengthFieldReadsBack(len: nat)
    requires 8 * len < TWO64
    ensures FromBigEndian(LengthField(len)) == 8 * len
  {
    hide BigEndian, FromBigEndian, Base;
    BaseOfEight();
    BigEndianReadsBack(8 * len, 8);
  }

  /** Words written out by the digest are the words that the schedule would load from those bytes. */
  lemma WordBytesReadBack(w: Word)
    ensures var r := WordBytes(w); LoadBe32(r[0], r[1], r[2], r[3]) == w
  {}

  /** Messages differ in their padding: distinct messages of admitted length never pad alike. */
  lemma PadInjective(m: seq<Byte>, n: seq<Byte>)
    requires 8 * |m| < TWO64 && 8 * |n| < TWO64
    requires Pad(m) == Pad(n)
    ensures m == n
  {
    var p := Pad(m);
    assert p[|p| - 8..] == LengthField(|m|);
    assert Pad(n)[|p| - 8..] == LengthField(|n|);
    LengthFieldReadsBack(|m|);
    LengthFieldReadsBack(|n|);
    assert p[..|m|] == m && Pad(n)[..|n|] == n;
  }
}
