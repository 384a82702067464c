/** Where the constants of SHA-256 come from, and what its two choosing functions do. */
module Sha256Constants {
  import opened Sha256Spec
  import opened Primes

  predicate CubeBetween(x: nat, r: nat) {
    r * r * r <= x < (r + 1) * (r + 1) * (r + 1)
  }

  predicate SquareBetween(x: nat, r: nat) {
    r * r <= x < (r + 1) * (r + 1)
  }

  /** `bits` are the first 32 bits of the fraction of the cube root of `p`, whose whole part is `whole`. */
  predicate CubeRootBits(p: nat, whole: nat, bits: nat) {
    bits < 0x1_0000_0000 && CubeBetween(p * 0x1_0000_0000_0000_0000_0000_0000, whole * 0x1_0000_0000 + bits)
  }

  /** The same for the square root. */
  predicate SquareRootBits(p: nat, whole: nat, bits: nat) {
    bits < 0x1_0000_0000 && SquareBetween(p * 0x1_0000_0000_0000_0000, whole * 0x1_0000_0000 + bits)
  }

  ghost predicate IsRoundConstant(t: nat)
    requires t < 64
  {
    exists whole, bits: nat :: CubeRootBits(PrimeAt(t), whole, bits) && K(t) as nat == bits
  }

  ghost predicate IsInitialWord(t: nat)
    requires t < 8
  {
    exists whole, bits: nat :: SquareRootBits(PrimeAt(t), whole, bits) && Initial()[t] as nat == bits
  }

  /** Section 4.2.2: the constants are the fractions of the cube roots of the first sixty-four primes. */
  lemma RoundConstants(t: nat)
    requires t < 64
    ensures IsRoundConstant(t)
  {
    hide IsRoundConstant;
    RoundConstants0();
    RoundConstants8();
    RoundConstants16();
    RoundConstants24();
    RoundConstants32();
    RoundConstants40();
    RoundConstants48();
    RoundConstants56();
  }

  /** Section 5.3.3: the initial words are the fractions of the square roots of the first eight primes. */
  lemma InitialWords(t: nat)
    requires t < 8
    ensures IsInitialWord(t)
  {
    hide CubeRootBits;
    assert SquareRootBits(2, 1, 0x6a09e667) && PrimeAt(0) == 2 && Initial()[0] as nat == 0x6a09e667;
    assert SquareRootBits(3, 1, 0xbb67ae85) && PrimeAt(1) == 3 && Initial()[1] as nat == 0xbb67ae85;
    assert SquareRootBits(5, 2, 0x3c6ef372) && PrimeAt(2) == 5 && Initial()[2] as nat == 0x3c6ef372;
    assert SquareRootBits(7, 2, 0xa54ff53a) && PrimeAt(3) == 7 && Initial()[3] as nat == 0xa54ff53a;
    assert SquareRootBits(11, 3, 0x510e527f) && PrimeAt(4) == 11 && Initial()[4] as nat == 0x510e527f;
    assert SquareRootBits(13, 3, 0x9b05688c) && PrimeAt(5) == 13 && Initial()[5] as nat == 0x9b05688c;
    assert SquareRootBits(17, 4, 0x1f83d9ab) && PrimeAt(6) == 17 && Initial()[6] as nat == 0x1f83d9ab;
    assert SquareRootBits(19, 4, 0x5be0cd19) && PrimeAt(7) == 19 && Initial()[7] as nat == 0x5be0cd19;
  }

  /** `Ch` takes each bit from `y` where `x` has a one, and from `z` where it has a zero. */
  lemma ChChooses(x: Word, y: Word, z: Word)
    ensures x & Ch(x, y, z) == x & y && !x & Ch(x, y, z) == !x & z
  {}

  /** `Maj` has each bit that at least two of the words share. */
  lemma MajIsMajority(x: Word, y: Word, z: Word)
    ensures Maj(x, y, z) == (x & y) | (x & z) | (y & z) && Maj(x, y, z) == (x | y) & (x | z) & (y | z)
  {}

  lemma CubeRoots0()
    ensures CubeRootBits(2, 1, 0x428a2f98)
    ensures CubeRootBits(3, 1, 0x71374491)
    ensures CubeRootBits(5, 1, 0xb5c0fbcf)
    ensures CubeRootBits(7, 1, 0xe9b5dba5)
    ensures CubeRootBits(11, 2, 0x3956c25b)
    ensures CubeRootBits(13, 2, 0x59f111f1)
    ensures CubeRootBits(17, 2, 0x923f82a4)
    ensures CubeRootBits(19, 2, 0xab1c5ed5)
  {}

  lemma RoundConstants0()
    ensures forall t :: 0 <= t < 8 ==> IsRoundConstant(t)
  {
    hide CubeRootBits;
    CubeRoots0();
    assert PrimeAt(0) == 2 && K(0) as nat == 0x428a2f98;
    assert PrimeAt(1) == 3 && K(1) as nat == 0x71374491;
    assert PrimeAt(2) == 5 && K(2) as nat == 0xb5c0fbcf;
    assert PrimeAt(3) == 7 && K(3) as nat == 0xe9b5dba5;
    assert PrimeAt(4) == 11 && K(4) as nat == 0x3956c25b;
    assert PrimeAt(5) == 13 && K(5) as nat == 0x59f111f1;
    assert PrimeAt(6) == 17 && K(6) as nat == 0x923f82a4;
    assert PrimeAt(7) == 19 && K(7) as nat == 0xab1c5ed5;
  }

  lemma CubeRoots8()
    ensures CubeRootBits(23, 2, 0xd807aa98)
    ensures CubeRootBits(29, 3, 0x12835b01)
    ensures CubeRootBits(31, 3, 0x243185be)
    ensures CubeRootBits(37, 3, 0x550c7dc3)
    ensures CubeRootBits(41, 3, 0x72be5d74)
    ensures CubeRootBits(43, 3, 0x80deb1fe)
    ensures CubeRootBits(47, 3, 0x9bdc06a7)
    ensures CubeRootBits(53, 3, 0xc19bf174)
  {}

  lemma RoundConstants8()
    ensures forall t :: 8 <= t < 16 ==> IsRoundConstant(t)
  {
    hide CubeRootBits;
    CubeRoots8();
    assert PrimeAt(8) == 23 && K(8) as nat == 0xd807aa98;
    assert PrimeAt(9) == 29 && K(9) as nat == 0x12835b01;
    assert PrimeAt(10) == 31 && K(10) as nat == 0x243185be;
    assert PrimeAt(11) == 37 && K(11) as nat == 0x550c7dc3;
    assert PrimeAt(12) == 41 && K(12) as nat == 0x72be5d74;
    assert PrimeAt(13) == 43 && K(13) as nat == 0x80deb1fe;
    assert PrimeAt(14) == 47 && K(14) as nat == 0x9bdc06a7;
    assert PrimeAt(15) == 53 && K(15) as nat == 0xc19bf174;
  }

  lemma CubeRoots16()
    ensures CubeRootBits(59, 3, 0xe49b69c1)
    ensures CubeRootBits(61, 3, 0xefbe4786)
    ensures CubeRootBits(67, 4, 0x0fc19dc6)
    ensures CubeRootBits(71, 4, 0x240ca1cc)
    ensures CubeRootBits(73, 4, 0x2de92c6f)
    ensures CubeRootBits(79, 4, 0x4a7484aa)
    ensures CubeRootBits(83, 4, 0x5cb0a9dc)
    ensures CubeRootBits(89, 4, 0x76f988da)
  {}

  lemma RoundConstants16()
    ensures forall t :: 16 <= t < 24 ==> IsRoundConstant(t)
  {
    hide CubeRootBits;
    CubeRoots16();
    assert PrimeAt(16) == 59 && K(16) as nat == 0xe49b69c1;
    assert PrimeAt(17) == 61 && K(17) as nat == 0xefbe4786;
    assert PrimeAt(18) == 67 && K(18) as nat == 0x0fc19dc6;
    assert PrimeAt(19) == 71 && K(19) as nat == 0x240ca1cc;
    assert PrimeAt(20) == 73 && K(20) as nat == 0x2de92c6f;
    assert PrimeAt(21) == 79 && K(21) as nat == 0x4a7484aa;
    assert PrimeAt(22) == 83 && K(22) as nat == 0x5cb0a9dc;
    assert PrimeAt(23) == 89 && K(23) as nat == 0x76f988da;
  }

  lemma CubeRoots24()
    ensures CubeRootBits(97, 4, 0x983e5152)
    ensures CubeRootBits(101, 4, 0xa831c66d)
    ensures CubeRootBits(103, 4, 0xb00327c8)
    ensures CubeRootBits(107, 4, 0xbf597fc7)
    ensures CubeRootBits(109, 4, 0xc6e00bf3)
    ensures CubeRootBits(113, 4, 0xd5a79147)
    ensures CubeRootBits(127, 5, 0x06ca6351)
    ensures CubeRootBits(131, 5, 0x14292967)
  {}

  lemma RoundConstants24()
    ensures forall t :: 24 <= t < 32 ==> IsRoundConstant(t)
  {
    hide CubeRootBits;
    CubeRoots24();
    assert PrimeAt(24) == 97 && K(24) as nat == 0x983e5152;
    assert PrimeAt(25) == 101 && K(25) as nat == 0xa831c66d;
    assert PrimeAt(26) == 103 && K(26) as nat == 0xb00327c8;
    assert PrimeAt(27) == 107 && K(27) as nat == 0xbf597fc7;
    assert PrimeAt(28) == 109 && K(28) as nat == 0xc6e00bf3;
    assert PrimeAt(29) == 113 && K(29) as nat == 0xd5a79147;
    assert PrimeAt(30) == 127 && K(30) as nat == 0x06ca6351;
    assert PrimeAt(31) == 131 && K(31) as nat == 0x14292967;
  }

  lemma CubeRoots32()
    ensures CubeRootBits(137, 5, 0x27b70a85)
    ensures CubeRootBits(139, 5, 0x2e1b2138)
    ensures CubeRootBits(149, 5, 0x4d2c6dfc)
    ensures CubeRootBits(151, 5, 0x53380d13)
    ensures CubeRootBits(157, 5, 0x650a7354)
    ensures CubeRootBits(163, 5, 0x766a0abb)
    ensures CubeRootBits(167, 5, 0x81c2c92e)
    ensures CubeRootBits(173, 5, 0x92722c85)
  {}

  lemma RoundConstants32()
    ensures forall t :: 32 <= t < 40 ==> IsRoundConstant(t)
  {
    hide CubeRootBits;
    CubeRoots32();
    assert PrimeAt(32) == 137 && K(32) as nat == 0x27b70a85;
    assert PrimeAt(33) == 139 && K(33) as nat == 0x2e1b2138;
    assert PrimeAt(34) == 149 && K(34) as nat == 0x4d2c6dfc;
    assert PrimeAt(35) == 151 && K(35) as nat == 0x53380d13;
    assert PrimeAt(36) == 157 && K(36) as nat == 0x650a7354;
    assert PrimeAt(37) == 163 && K(37) as nat == 0x766a0abb;
    assert PrimeAt(38) == 167 && K(38) as nat == 0x81c2c92e;
    assert PrimeAt(39) == 173 && K(39) as nat == 0x92722c85;
  }

  lemma CubeRoots40()
    ensures CubeRootBits(179, 5, 0xa2bfe8a1)
    ensures CubeRootBits(181, 5, 0xa81a664b)
    ensures CubeRootBits(191, 5, 0xc24b8b70)
    ensures CubeRootBits(193, 5, 0xc76c51a3)
    ensures CubeRootBits(197, 5, 0xd192e819)
    ensures CubeRootBits(199, 5, 0xd6990624)
    ensures CubeRootBits(211, 5, 0xf40e3585)
    ensures CubeRootBits(223, 6, 0x106aa070)
  {}

  lemma RoundConstants40()
    ensures forall t :: 40 <= t < 48 ==> IsRoundConstant(t)
  {
    hide CubeRootBits;
    CubeRoots40();
    assert PrimeAt(40) == 179 && K(40) as nat == 0xa2bfe8a1;
    assert PrimeAt(41) == 181 && K(41) as nat == 0xa81a664b;
    assert PrimeAt(42) == 191 && K(42) as nat == 0xc24b8b70;
    assert PrimeAt(43) == 193 && K(43) as nat == 0xc76c51a3;
    assert PrimeAt(44) == 197 && K(44) as nat == 0xd192e819;
    assert PrimeAt(45) == 199 && K(45) as nat == 0xd6990624;
    assert PrimeAt(46) == 211 && K(46) as nat == 0xf40e3585;
    assert PrimeAt(47) == 223 && K(47) as nat == 0x106aa070;
  }

  lemma CubeRoots48()
    ensures CubeRootBits(227, 6, 0x19a4c116)
    ensures CubeRootBits(229, 6, 0x1e376c08)
    ensures CubeRootBits(233, 6, 0x2748774c)
    ensures CubeRootBits(239, 6, 0x34b0bcb5)
    ensures CubeRootBits(241, 6, 0x391c0cb3)
    ensures CubeRootBits(251, 6, 0x4ed8aa4a)
    ensures CubeRootBits(257, 6, 0x5b9cca4f)
    ensures CubeRootBits(263, 6, 0x682e6ff3)
  {}

  lemma RoundConstants48()
    ensures forall t :: 48 <= t < 56 ==> IsRoundConstant(t)
  {
    hide CubeRootBits;
    CubeRoots48();
    assert PrimeAt(48) == 227 && K(48) as nat == 0x19a4c116;
    assert PrimeAt(49) == 229 && K(49) as nat == 0x1e376c08;
    assert PrimeAt(50) == 233 && K(50) as nat == 0x2748774c;
    assert PrimeAt(51) == 239 && K(51) as nat == 0x34b0bcb5;
    assert PrimeAt(52) == 241 && K(52) as nat == 0x391c0cb3;
    assert PrimeAt(53) == 251 && K(53) as nat == 0x4ed8aa4a;
    assert PrimeAt(54) == 257 && K(54) as nat == 0x5b9cca4f;
    assert PrimeAt(55) == 263 && K(55) as nat == 0x682e6ff3;
  }

  lemma CubeRoots56()
    ensures CubeRootBits(269, 6, 0x748f82ee)
    ensures CubeRootBits(271, 6, 0x78a5636f)
    ensures CubeRootBits(277, 6, 0x84c87814)
    ensures CubeRootBits(281, 6, 0x8cc70208)
    ensures CubeRootBits(283, 6, 0x90befffa)
    ensures CubeRootBits(293, 6, 0xa4506ceb)
    ensures CubeRootBits(307, 6, 0xbef9a3f7)
    ensures CubeRootBits(311, 6, 0xc67178f2)
  {}

  lemma RoundConstants56()
    ensures forall t :: 56 <= t < 64 ==> IsRoundConstant(t)
  {
    hide CubeRootBits;
    CubeRoots56();
    assert PrimeAt(56) == 269 && K(56) as nat == 0x748f82ee;
    assert PrimeAt(57) == 271 && K(57) as nat == 0x78a5636f;
    assert PrimeAt(58) == 277 && K(58) as nat == 0x84c87814;
    assert PrimeAt(59) == 281 && K(59) as nat == 0x8cc70208;
    assert PrimeAt(60) == 283 && K(60) as nat == 0x90befffa;
    assert PrimeAt(61) == 293 && K(61) as nat == 0xa4506ceb;
    assert PrimeAt(62) == 307 && K(62) as nat == 0xbef9a3f7;
    assert PrimeAt(63) == 311 && K(63) as nat == 0xc67178f2;
  }
}
