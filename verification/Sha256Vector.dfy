/** The digest of a fixed message, `abc`, the first example of FIPS 180-4: word by word and round by round. */
module Sha256Vector {
  import opened Sha256Spec

  /** The message schedule. */
  function WordRow(i: nat): (row: seq<Word>)
    requires i < 8
    ensures |row| == 8
  {
    match i
    case 0 => [0x61626380, 0x00000000, 0x00000000, 0x00000000, 0x00000000, 0x00000000, 0x00000000, 0x00000000]
    case 1 => [0x00000000, 0x00000000, 0x00000000, 0x00000000, 0x00000000, 0x00000000, 0x00000000, 0x00000018]
    case 2 => [0x61626380, 0x000f0000, 0x7da86405, 0x600003c6, 0x3e9d7b78, 0x0183fc00, 0x12dcbfdb, 0xe2e2c38e]
    case 3 => [0xc8215c1a, 0xb73679a2, 0xe5bc3909, 0x32663c5b, 0x9d209d67, 0xec8726cb, 0x702138a4, 0xd3b7973b]
    case 4 => [0x93f5997f, 0x3b68ba73, 0xaff4ffc1, 0xf10a5c62, 0x0a8b3996, 0x72af830a, 0x9409e33e, 0x24641522]
    case 5 => [0x9f47bf94, 0xf0a64f5a, 0x3e246a79, 0x27333ba3, 0x0c4763f2, 0x840abf27, 0x7a290d5d, 0x065c43da]
    case 6 => [0xfb3e89cb, 0xcc7617db, 0xb9e66c34, 0xa9993667, 0x84badedd, 0xc21462bc, 0x1487472c, 0xb20f7a99]
    case _ => [0xef57b9cd, 0xebe6b238, 0x9fe3095e, 0x78bc8d4b, 0xa43fcf15, 0x668b2ff8, 0xeeaba2cc, 0x12b1edeb]
  }

  function W(t: nat): Word
    requires t < 64
  {
    WordRow(t / 8)[t % 8]
  }

  function Words(): (w: seq<Word>)
    ensures |w| == 64
  {
    seq(64, t requires 0 <= t < 64 => W(t))
  }

  /** What the four functions of section 4.1.2 give at the working variables of a round. */
  datatype Mixed = Mixed(bigSigma1: Word, ch: Word, bigSigma0: Word, maj: Word)

  predicate Mixes(v: Vars, m: Mixed) {
    && BigSigma1(v.e) == m.bigSigma1 && Ch(v.e, v.f, v.g) == m.ch
    && BigSigma0(v.a) == m.bigSigma0 && Maj(v.a, v.b, v.c) == m.maj
  }

  function Next(v: Vars, m: Mixed, k: Word, w: Word): Vars {
    Advanced(v, Sum(v.h, m.bigSigma1, m.ch, k, w), Plus(m.bigSigma0, m.maj))
  }

  lemma FirstTemp(v: Vars, m: Mixed, k: Word, w: Word)
    requires Mixes(v, m)
    ensures Temp1(v, k, w) == Sum(v.h, m.bigSigma1, m.ch, k, w)
  {
    hide BigSigma1, BigSigma0, Ch, Maj, Sum;
  }

  lemma SecondTemp(v: Vars, m: Mixed)
    requires Mixes(v, m)
    ensures Temp2(v) == Plus(m.bigSigma0, m.maj)
  {
    hide BigSigma1, BigSigma0, Ch, Maj, Plus;
  }

  lemma RoundAdvances(v: Vars, k: Word, w: Word, t1: Word, t2: Word)
    requires Temp1(v, k, w) == t1 && Temp2(v) == t2
    ensures Round(v, k, w) == Advanced(v, t1, t2)
  {
    hide Temp1, Temp2, Advanced;
  }

  lemma RoundMixes(v: Vars, m: Mixed, k: Word, w: Word)
    requires Mixes(v, m)
    ensures Round(v, k, w) == Next(v, m, k, w)
  {
    hide Mixes, Temp1, Temp2, Sum, Plus, Advanced, Round;
    FirstTemp(v, m, k, w);
    SecondTemp(v, m);
    RoundAdvances(v, k, w, Sum(v.h, m.bigSigma1, m.ch, k, w), Plus(m.bigSigma0, m.maj));
  }

  /** The working variables after `n` rounds over the message. */
  predicate After(n: nat, v: Vars)
    requires n <= 64
  {
    Rounds(Initial(), Words(), n) == v
  }

  lemma OneRound(t: nat, v: Vars, m: Mixed, k: Word, w: Word)
    requires t < 64 && After(t, v) && Mixes(v, m) && K(t) == k && W(t) == w
    ensures After(t + 1, Next(v, m, k, w))
  {
    hide Round, Mixes, Next, K, W, Initial;
    RoundMixes(v, m, k, w);
  }

  lemma Extended2a()
    ensures Extension(0x00000000, 0x00000000, 0x00000000, 0x61626380) == 0x61626380
    ensures Extension(0x00000018, 0x00000000, 0x00000000, 0x00000000) == 0x000f0000
    ensures Extension(0x61626380, 0x00000000, 0x00000000, 0x00000000) == 0x7da86405
    ensures Extension(0x000f0000, 0x00000000, 0x00000000, 0x00000000) == 0x600003c6
  {}

  lemma Extended2b()
    ensures Extension(0x7da86405, 0x00000000, 0x00000000, 0x00000000) == 0x3e9d7b78
    ensures Extension(0x600003c6, 0x00000000, 0x00000000, 0x00000000) == 0x0183fc00
    ensures Extension(0x3e9d7b78, 0x00000018, 0x00000000, 0x00000000) == 0x12dcbfdb
    ensures Extension(0x0183fc00, 0x61626380, 0x00000000, 0x00000000) == 0xe2e2c38e
  {}

  lemma Extended3a()
    ensures Extension(0x12dcbfdb, 0x000f0000, 0x00000000, 0x00000000) == 0xc8215c1a
    ensures Extension(0xe2e2c38e, 0x7da86405, 0x00000000, 0x00000000) == 0xb73679a2
    ensures Extension(0xc8215c1a, 0x600003c6, 0x00000000, 0x00000000) == 0xe5bc3909
    ensures Extension(0xb73679a2, 0x3e9d7b78, 0x00000000, 0x00000000) == 0x32663c5b
  {}

  lemma Extended3b()
    ensures Extension(0xe5bc3909, 0x0183fc00, 0x00000000, 0x00000000) == 0x9d209d67
    ensures Extension(0x32663c5b, 0x12dcbfdb, 0x00000000, 0x00000000) == 0xec8726cb
    ensures Extension(0x9d209d67, 0xe2e2c38e, 0x00000018, 0x00000000) == 0x702138a4
    ensures Extension(0xec8726cb, 0xc8215c1a, 0x61626380, 0x00000018) == 0xd3b7973b
  {}

  lemma Extended4a()
    ensures Extension(0x702138a4, 0xb73679a2, 0x000f0000, 0x61626380) == 0x93f5997f
    ensures Extension(0xd3b7973b, 0xe5bc3909, 0x7da86405, 0x000f0000) == 0x3b68ba73
    ensures Extension(0x93f5997f, 0x32663c5b, 0x600003c6, 0x7da86405) == 0xaff4ffc1
    ensures Extension(0x3b68ba73, 0x9d209d67, 0x3e9d7b78, 0x600003c6) == 0xf10a5c62
  {}

  lemma Extended4b()
    ensures Extension(0xaff4ffc1, 0xec8726cb, 0x0183fc00, 0x3e9d7b78) == 0x0a8b3996
    ensures Extension(0xf10a5c62, 0x702138a4, 0x12dcbfdb, 0x0183fc00) == 0x72af830a
    ensures Extension(0x0a8b3996, 0xd3b7973b, 0xe2e2c38e, 0x12dcbfdb) == 0x9409e33e
    ensures Extension(0x72af830a, 0x93f5997f, 0xc8215c1a, 0xe2e2c38e) == 0x24641522
  {}

  lemma Extended5a()
    ensures Extension(0x9409e33e, 0x3b68ba73, 0xb73679a2, 0xc8215c1a) == 0x9f47bf94
    ensures Extension(0x24641522, 0xaff4ffc1, 0xe5bc3909, 0xb73679a2) == 0xf0a64f5a
    ensures Extension(0x9f47bf94, 0xf10a5c62, 0x32663c5b, 0xe5bc3909) == 0x3e246a79
    ensures Extension(0xf0a64f5a, 0x0a8b3996, 0x9d209d67, 0x32663c5b) == 0x27333ba3
  {}

  lemma Extended5b()
    ensures Extension(0x3e246a79, 0x72af830a, 0xec8726cb, 0x9d209d67) == 0x0c4763f2
    ensures Extension(0x27333ba3, 0x9409e33e, 0x702138a4, 0xec8726cb) == 0x840abf27
    ensures Extension(0x0c4763f2, 0x24641522, 0xd3b7973b, 0x702138a4) == 0x7a290d5d
    ensures Extension(0x840abf27, 0x9f47bf94, 0x93f5997f, 0xd3b7973b) == 0x065c43da
  {}

  lemma Extended6a()
    ensures Extension(0x7a290d5d, 0xf0a64f5a, 0x3b68ba73, 0x93f5997f) == 0xfb3e89cb
    ensures Extension(0x065c43da, 0x3e246a79, 0xaff4ffc1, 0x3b68ba73) == 0xcc7617db
    ensures Extension(0xfb3e89cb, 0x27333ba3, 0xf10a5c62, 0xaff4ffc1) == 0xb9e66c34
    ensures Extension(0xcc7617db, 0x0c4763f2, 0x0a8b3996, 0xf10a5c62) == 0xa9993667
  {}

  lemma Extended6b()
    ensures Extension(0xb9e66c34, 0x840abf27, 0x72af830a, 0x0a8b3996) == 0x84badedd
    ensures Extension(0xa9993667, 0x7a290d5d, 0x9409e33e, 0x72af830a) == 0xc21462bc
    ensures Extension(0x84badedd, 0x065c43da, 0x24641522, 0x9409e33e) == 0x1487472c
    ensures Extension(0xc21462bc, 0xfb3e89cb, 0x9f47bf94, 0x24641522) == 0xb20f7a99
  {}

  lemma Extended7a()
    ensures Extension(0x1487472c, 0xcc7617db, 0xf0a64f5a, 0x9f47bf94) == 0xef57b9cd
    ensures Extension(0xb20f7a99, 0xb9e66c34, 0x3e246a79, 0xf0a64f5a) == 0xebe6b238
    ensures Extension(0xef57b9cd, 0xa9993667, 0x27333ba3, 0x3e246a79) == 0x9fe3095e
    ensures Extension(0xebe6b238, 0x84badedd, 0x0c4763f2, 0x27333ba3) == 0x78bc8d4b
  {}

  lemma Extended7b()
    ensures Extension(0x9fe3095e, 0xc21462bc, 0x840abf27, 0x0c4763f2) == 0xa43fcf15
    ensures Extension(0x78bc8d4b, 0x1487472c, 0x7a290d5d, 0x840abf27) == 0x668b2ff8
    ensures Extension(0xa43fcf15, 0xb20f7a99, 0x065c43da, 0x7a290d5d) == 0xeeaba2cc
    ensures Extension(0x668b2ff8, 0xef57b9cd, 0xfb3e89cb, 0x065c43da) == 0x12b1edeb
  {}

  lemma Mixed0()
    ensures Mixes(Vars(0x6a09e667, 0xbb67ae85, 0x3c6ef372, 0xa54ff53a, 0x510e527f, 0x9b05688c, 0x1f83d9ab, 0x5be0cd19),
                  Mixed(0x3587272b, 0x1f85c98c, 0xce20b47e, 0x3a6fe667))
    ensures Mixes(Vars(0x5d6aebcd, 0x6a09e667, 0xbb67ae85, 0x3c6ef372, 0xfa2a4622, 0x510e527f, 0x9b05688c, 0x1f83d9ab),
                  Mixed(0x5a94fd2d, 0x510f6aae, 0xa29f64d1, 0x7b6beec5))
    ensures Mixes(Vars(0x5a6ad9ad, 0x5d6aebcd, 0x6a09e667, 0xbb67ae85, 0x78ce7989, 0xfa2a4622, 0x510e527f, 0x9b05688c),
                  Mixed(0x73f0e495, 0x790a4276, 0x3096d054, 0x5a6aebed))
    ensures Mixes(Vars(0xc8c347a7, 0x5a6ad9ad, 0x5d6aebcd, 0x6a09e667, 0xf92939eb, 0x78ce7989, 0xfa2a4622, 0x510e527f),
                  Mixed(0x0607743c, 0x7a0a7f89, 0xc21008d0, 0x586acbad))
    ensures Mixes(Vars(0xd550f666, 0xc8c347a7, 0x5a6ad9ad, 0x5d6aebcd, 0x24e00850, 0xf92939eb, 0x78ce7989, 0xfa2a4622),
                  Mixed(0x3a933432, 0x782e79c9, 0x45bb0c4b, 0xd842d7a7))
    ensures Mixes(Vars(0x04409a6a, 0xd550f666, 0xc8c347a7, 0x5a6ad9ad, 0x43ada245, 0x24e00850, 0xf92939eb, 0x78ce7989),
                  Mixed(0x8b77e19c, 0xb8a019ea, 0x5029ac8f, 0xc440d666))
    ensures Mixes(Vars(0x2b4209f5, 0x04409a6a, 0xd550f666, 0xc8c347a7, 0x714260ad, 0x43ada245, 0x24e00850, 0xf92939eb),
                  Mixed(0x015b7776, 0x45a02855, 0x0d5e0cc0, 0x05409a66))
    ensures Mixes(Vars(0xe5030380, 0x2b4209f5, 0x04409a6a, 0xd550f666, 0x9b27a401, 0x714260ad, 0x43ada245, 0x24e00850),
                  Mixed(0x158dfaa9, 0x518a2245, 0x2949eb6c, 0x25420be0))
  {}

  lemma Mixed1()
    ensures Mixes(Vars(0x85a07b5f, 0xe5030380, 0x2b4209f5, 0x04409a6a, 0x0c657a79, 0x9b27a401, 0x714260ad, 0x43ada245),
                  Mixed(0x99ad25c0, 0x79272085, 0xba794dc2, 0xa5020bd5))
    ensures Mixes(Vars(0x8e04ecb9, 0x85a07b5f, 0xe5030380, 0x2b4209f5, 0x32ca2d8c, 0x0c657a79, 0x9b27a401, 0x714260ad),
                  Mixed(0xe45bb7ea, 0x8965a809, 0x15ffad31, 0x85006b99))
    ensures Mixes(Vars(0x8c87346b, 0x8e04ecb9, 0x85a07b5f, 0xe5030380, 0x1cc92596, 0x32ca2d8c, 0x0c657a79, 0x9b27a401),
                  Mixed(0x8e2276bc, 0x10ec7fed, 0x5cac0711, 0x8c847c7b))
    ensures Mixes(Vars(0x4798a3f4, 0x8c87346b, 0x8e04ecb9, 0x85a07b5f, 0x436b23e8, 0x1cc92596, 0x32ca2d8c, 0x0c657a79),
                  Mixed(0x699435ca, 0x30c92d84, 0x6ccbc526, 0x8e84a4f9))
    ensures Mixes(Vars(0xf71fc5a9, 0x4798a3f4, 0x8c87346b, 0x8e04ecb9, 0x816fd6e9, 0x436b23e8, 0x1cc92596, 0x32ca2d8c),
                  Mixed(0xccdee661, 0x1deb23fe, 0x2f9eee48, 0xc79fa5e9))
    ensures Mixes(Vars(0x87912990, 0xf71fc5a9, 0x4798a3f4, 0x8c87346b, 0x1e578218, 0x816fd6e9, 0x436b23e8, 0x1cc92596),
                  Mixed(0x08bb98f7, 0x416fa3e8, 0x29c634f3, 0xc799a1b0))
    ensures Mixes(Vars(0xd932eb16, 0x87912990, 0xf71fc5a9, 0x4798a3f4, 0x745a48de, 0x1e578218, 0x816fd6e9, 0x436b23e8),
                  Mixed(0x4f3b8d50, 0x95779639, 0x25562836, 0xd713e990))
    ensures Mixes(Vars(0xc0645fde, 0xd932eb16, 0x87912990, 0xf71fc5a9, 0x0b92f20c, 0x745a48de, 0x1e578218, 0x816fd6e9),
                  Mixed(0xb8d63f93, 0x1457401c, 0xdf906fd4, 0xc1306b96))
  {}

  lemma Mixed2()
    ensures Mixes(Vars(0xb0fa238e, 0xc0645fde, 0xd932eb16, 0x87912990, 0x07590dcd, 0x0b92f20c, 0x745a48de, 0x1e578218),
                  Mixed(0x213b6995, 0x7312401e, 0x58c535f1, 0xd0726b9e))
    ensures Mixes(Vars(0x21da9a9b, 0xb0fa238e, 0xc0645fde, 0xd932eb16, 0x8034229c, 0x07590dcd, 0x0b92f20c, 0x745a48de),
                  Mixed(0x3b81984e, 0x0b92d08c, 0x76c5c4f5, 0xa0fa1b9e))
    ensures Mixes(Vars(0xc2fbd9d1, 0x21da9a9b, 0xb0fa238e, 0xc0645fde, 0x846ee454, 0x8034229c, 0x07590dcd, 0x0b92f20c),
                  Mixed(0xeff31c0f, 0x8335299d, 0x5157a6a1, 0xa0fa9b9b))
    ensures Mixes(Vars(0xfe777bbf, 0xc2fbd9d1, 0x21da9a9b, 0xb0fa238e, 0xcc899961, 0x846ee454, 0x8034229c, 0x07590dcd),
                  Mixed(0xefc707b0, 0x843ca2dc, 0xff8cd2ad, 0xe2fbdb9b))
    ensures Mixes(Vars(0xe1f20c33, 0xfe777bbf, 0xc2fbd9d1, 0x21da9a9b, 0xb0638179, 0xcc899961, 0x846ee454, 0x8034229c),
                  Mixed(0xf8373ead, 0x840de565, 0x51d3431b, 0xe2f359b3))
    ensures Mixes(Vars(0x9dc68b63, 0xe1f20c33, 0xfe777bbf, 0xc2fbd9d1, 0x8ada8930, 0xb0638179, 0xcc899961, 0x846ee454),
                  Mixed(0x897ea930, 0xc4439171, 0xa640c29b, 0xfdf60b33))
    ensures Mixes(Vars(0xc2606d6d, 0x9dc68b63, 0xe1f20c33, 0xfe777bbf, 0xe1257970, 0x8ada8930, 0xb0638179, 0xcc899961),
                  Mixed(0x7f24093a, 0x90428939, 0x9a43bf51, 0xc1e20d63))
    ensures Mixes(Vars(0xa7a3623f, 0xc2606d6d, 0x9dc68b63, 0xe1f20c33, 0x49f5114a, 0xe1257970, 0x8ada8930, 0xb0638179),
                  Mixed(0xfae64fc3, 0xc32f9970, 0x759d1b0a, 0x87e26b6f))
  {}

  lemma Mixed3()
    ensures Mixes(Vars(0xc5d53d8d, 0xa7a3623f, 0xc2606d6d, 0x9dc68b63, 0xaa47c347, 0x49f5114a, 0xe1257970, 0x8ada8930),
                  Mixed(0x55bdf420, 0x49653972, 0xc9ed56dd, 0xc7e16d2d))
    ensures Mixes(Vars(0x1c2c2838, 0xc5d53d8d, 0xa7a3623f, 0xc2606d6d, 0x2823ef91, 0xaa47c347, 0x49f5114a, 0xe1257970),
                  Mixed(0xa7724357, 0x69d7d34b, 0xf66b0b1f, 0x85a5283d))
    ensures Mixes(Vars(0xcde8037d, 0x1c2c2838, 0xc5d53d8d, 0xa7a3623f, 0x14383d8e, 0x2823ef91, 0xaa47c347, 0x49f5114a),
                  Mixed(0x958ca0fb, 0xaa67efc1, 0xc89998a8, 0xcdec293d))
    ensures Mixes(Vars(0xb62ec4bc, 0xcde8037d, 0x1c2c2838, 0xc5d53d8d, 0xc74c6516, 0x14383d8e, 0x2823ef91, 0xaa47c347),
                  Mixed(0x5ff7537b, 0x2c2baf87, 0xb37cf281, 0x9c2c003c))
    ensures Mixes(Vars(0x77d37528, 0xb62ec4bc, 0xcde8037d, 0x1c2c2838, 0xedffbff8, 0xc74c6516, 0x14383d8e, 0x2823ef91),
                  Mixed(0xe375bd7e, 0xd54c2516, 0xf963c20e, 0xf7ea453c))
    ensures Mixes(Vars(0x363482c9, 0x77d37528, 0xb62ec4bc, 0xcde8037d, 0x6112a3b7, 0xedffbff8, 0xc74c6516, 0x14383d8e),
                  Mixed(0x2239b36a, 0xe75ee7b0, 0x89cfb5ce, 0x3636c4a8))
    ensures Mixes(Vars(0xa0060b30, 0x363482c9, 0x77d37528, 0xb62ec4bc, 0xade79437, 0x6112a3b7, 0xedffbff8, 0xc74c6516),
                  Mixed(0xab883974, 0x611aabff, 0x69a8407c, 0x36160328))
    ensures Mixes(Vars(0xea992a22, 0xa0060b30, 0x363482c9, 0x77d37528, 0x0109ab3a, 0xade79437, 0x6112a3b7, 0xedffbff8),
                  Mixed(0x0b919a99, 0x611380b7, 0x8f1995eb, 0xa2140a20))
  {}

  lemma Mixed4()
    ensures Mixes(Vars(0x73b33bf5, 0xea992a22, 0xa0060b30, 0x363482c9, 0xba591112, 0x0109ab3a, 0xade79437, 0x6112a3b7),
                  Mixed(0x4436a63b, 0x05af8537, 0x4fa886aa, 0xe2932b30))
    ensures Mixes(Vars(0x98e12507, 0x73b33bf5, 0xea992a22, 0xa0060b30, 0x9cd9f5f6, 0xba591112, 0x0109ab3a, 0xade79437),
                  Mixed(0x085a07a7, 0x99591b1a, 0x4a90902b, 0xfab12b27))
    ensures Mixes(Vars(0xfe604df5, 0x98e12507, 0x73b33bf5, 0xea992a22, 0x59249dd3, 0x9cd9f5f6, 0xba591112, 0x0109ab3a),
                  Mixed(0x65415f48, 0xba5995d2, 0x91003786, 0xfae12df5))
    ensures Mixes(Vars(0xa9a7738c, 0xfe604df5, 0x98e12507, 0x73b33bf5, 0x085f3833, 0x59249dd3, 0x9cd9f5f6, 0xba591112),
                  Mixed(0xe5dc6e83, 0x9c84ddd7, 0x2bc2a37e, 0xb8e16585))
    ensures Mixes(Vars(0x65a0cfe4, 0xa9a7738c, 0xfe604df5, 0x98e12507, 0xf4b002d6, 0x085f3833, 0x59249dd3, 0x9cd9f5f6),
                  Mixed(0x590d3d71, 0x09149d13, 0xe5748f69, 0xeda04fe4))
    ensures Mixes(Vars(0x41a65cb1, 0x65a0cfe4, 0xa9a7738c, 0xfe604df5, 0x0772a26b, 0xf4b002d6, 0x085f3833, 0x59249dd3),
                  Mixed(0x582c115e, 0x0c3d1a52, 0x2c915f18, 0x61a65fa4))
    ensures Mixes(Vars(0x34df1604, 0x41a65cb1, 0x65a0cfe4, 0xa9a7738c, 0xa507a53d, 0x0772a26b, 0xf4b002d6, 0x085f3833),
                  Mixed(0xd2f220b2, 0x55b2a2eb, 0xc14e73aa, 0x65a65ea4))
    ensures Mixes(Vars(0x6dc57a8a, 0x34df1604, 0x41a65cb1, 0x65a0cfe4, 0xf0781bc8, 0xa507a53d, 0x0772a26b, 0xf4b002d6),
                  Mixed(0x66d20b14, 0xa702a12b, 0x5ac8193e, 0x65c75e80))
  {}

  lemma Mixed5()
    ensures Mixes(Vars(0x79ea687a, 0x6dc57a8a, 0x34df1604, 0x41a65cb1, 0x1efbc0a0, 0xf0781bc8, 0xa507a53d, 0x0772a26b),
                  Mixed(0xe9986075, 0xb17c259d, 0x7408bcaa, 0x7dcf7a0a))
    ensures Mixes(Vars(0xd6670766, 0x79ea687a, 0x6dc57a8a, 0x34df1604, 0x26352d63, 0x1efbc0a0, 0xf0781bc8, 0xa507a53d),
                  Mixed(0x3a6aa383, 0xd67912a8, 0x12b2e9b8, 0x7de76a6a))
    ensures Mixes(Vars(0xdf46652f, 0xd6670766, 0x79ea687a, 0x6dc57a8a, 0x838b2711, 0x26352d63, 0x1efbc0a0, 0xf0781bc8),
                  Mixed(0x61add539, 0x1e71e5a1, 0xc73bdc05, 0xdf66656e))
    ensures Mixes(Vars(0x17aa0dfe, 0xdf46652f, 0xd6670766, 0x79ea687a, 0xdecd4715, 0x838b2711, 0x26352d63, 0x1efbc0a0),
                  Mixed(0xd363665b, 0xa2b92f73, 0x422dc671, 0xd766056e))
    ensures Mixes(Vars(0x9d4baf93, 0x17aa0dfe, 0xdf46652f, 0xd6670766, 0xfda24c2e, 0xdecd4715, 0x838b2711, 0x26352d63),
                  Mixed(0xef0f2a07, 0xde896715, 0xb5704fcc, 0x9f4a2dbf))
    ensures Mixes(Vars(0x26628815, 0x9d4baf93, 0x17aa0dfe, 0xdf46652f, 0xa80f11f0, 0xfda24c2e, 0xdecd4715, 0x838b2711),
                  Mixed(0xfb3dc5f1, 0xfec24625, 0x8311c588, 0x176a8d97))
    ensures Mixes(Vars(0x72ab4b91, 0x26628815, 0x9d4baf93, 0x17aa0dfe, 0xb7755da1, 0xa80f11f0, 0xfda24c2e, 0xdecd4715),
                  Mixed(0x8845eb06, 0xe88711ae, 0xad0f0274, 0x366b8b91))
    ensures Mixes(Vars(0xa14c14b0, 0x72ab4b91, 0x26628815, 0x9d4baf93, 0xd57b94a9, 0xb7755da1, 0xa80f11f0, 0xfda24c2e),
                  Mixed(0x8fa515ca, 0xbd7515f1, 0xbd84cdc9, 0x226a0891))
  {}

  lemma Mixed6()
    ensures Mixes(Vars(0x4172328d, 0xa14c14b0, 0x72ab4b91, 0x26628815, 0xfecf0bc6, 0xd57b94a9, 0xb7755da1, 0xa80f11f0),
                  Mixed(0x04a106b1, 0xd57b54a1, 0x0cfcb237, 0x616a1291))
    ensures Mixes(Vars(0x05757ceb, 0x4172328d, 0xa14c14b0, 0x72ab4b91, 0xbd714038, 0xfecf0bc6, 0xd57b94a9, 0xb7755da1),
                  Mixed(0x5d427776, 0xfc4b9481, 0xf3f6d884, 0x017434a9))
    ensures Mixes(Vars(0xf11bfaa8, 0x05757ceb, 0x4172328d, 0xa14c14b0, 0x6e5c390c, 0xbd714038, 0xfecf0bc6, 0xd57b94a9),
                  Mixed(0x3e283d54, 0xbcd302ca, 0x86ebd5b1, 0x41737aa9))
    ensures Mixes(Vars(0x7a0508a1, 0xf11bfaa8, 0x05757ceb, 0x4172328d, 0x52f1ccf7, 0x6e5c390c, 0xbd714038, 0xfecf0bc6),
                  Mixed(0x3b47e2a3, 0xef50080c, 0x0fa817e8, 0x711578a9))
    ensures Mixes(Vars(0x886e7a22, 0x7a0508a1, 0xf11bfaa8, 0x05757ceb, 0x49231c1e, 0x52f1ccf7, 0x6e5c390c, 0xbd714038),
                  Mixed(0x6b63a737, 0x667d2d16, 0xcae757da, 0xf80f7aa0))
    ensures Mixes(Vars(0x101fd28f, 0x886e7a22, 0x7a0508a1, 0xf11bfaa8, 0x529e7d00, 0x49231c1e, 0x52f1ccf7, 0x6e5c390c),
                  Mixed(0xee7eaa12, 0x40639cf7, 0x2f35481d, 0x180f5aa3))
    ensures Mixes(Vars(0xf5702fdb, 0x101fd28f, 0x886e7a22, 0x7a0508a1, 0x9f4787c3, 0x529e7d00, 0x49231c1e, 0x52f1ccf7),
                  Mixed(0x55cd1720, 0x52261d1c, 0x433ccfa2, 0x907e7a8b))
    ensures Mixes(Vars(0x3ec45cdb, 0xf5702fdb, 0x101fd28f, 0x886e7a22, 0xe50e1b4f, 0x9f4787c3, 0x529e7d00, 0x49231c1e),
                  Mixed(0xd1653e5c, 0x97966743, 0x381b8def, 0x34545edb))
  {}

  lemma Mixed7()
    ensures Mixes(Vars(0x38cc9913, 0x3ec45cdb, 0xf5702fdb, 0x101fd28f, 0x54cb266b, 0xe50e1b4f, 0x9f4787c3, 0x529e7d00),
                  Mixed(0x05aa8057, 0xcf0e83cb, 0x34ceacc3, 0x3cc41ddb))
    ensures Mixes(Vars(0xfcd1887b, 0x38cc9913, 0x3ec45cdb, 0xf5702fdb, 0x9b5e906c, 0x54cb266b, 0xe50e1b4f, 0x9f4787c3),
                  Mixed(0x10b627de, 0x744a0b6b, 0xfaca6b61, 0x3cc4985b))
    ensures Mixes(Vars(0xc062d46f, 0xfcd1887b, 0x38cc9913, 0x3ec45cdb, 0x7e44008e, 0x9b5e906c, 0x54cb266b, 0xe50e1b4f),
                  Mixed(0x0a369fbd, 0x1acf266d, 0xd837090c, 0xf8c0987b))
    ensures Mixes(Vars(0xffb70472, 0xc062d46f, 0xfcd1887b, 0x38cc9913, 0x6d83bfc6, 0x7e44008e, 0x9b5e906c, 0x54cb266b),
                  Mixed(0x20a45dbe, 0xfe5c00ae, 0x406bf75a, 0xfcf3847b))
    ensures Mixes(Vars(0xb6ae8fff, 0xffb70472, 0xc062d46f, 0xfcd1887b, 0xb21bad3d, 0x6d83bfc6, 0x7e44008e, 0x9b5e906c),
                  Mixed(0x5ca8b318, 0x6c47ad86, 0x2869e851, 0xf6a6847f))
    ensures Mixes(Vars(0xb85e2ce9, 0xb6ae8fff, 0xffb70472, 0xc062d46f, 0x961f4894, 0xb21bad3d, 0x6d83bfc6, 0x7e44008e),
                  Mixed(0x4f6ef480, 0xfb9bbf56, 0x71e9ef2a, 0xbebe0cfb))
    ensures Mixes(Vars(0x04d24d6c, 0xb85e2ce9, 0xb6ae8fff, 0xffb70472, 0x948d25b6, 0x961f4894, 0xb21bad3d, 0x6d83bfc6),
                  Mixed(0x2a127e78, 0xb61f889d, 0x236105da, 0xb4de0ded))
    ensures Mixes(Vars(0xd39a2165, 0x04d24d6c, 0xb85e2ce9, 0xb6ae8fff, 0xfb121210, 0x948d25b6, 0x961f4894, 0xb21bad3d),
                  Mixed(0x88fa2277, 0x940d4894, 0x174d83c6, 0x90da2d6d))
  {}

  lemma Constants0()
    ensures K(0) == 0x428a2f98 && W(0) == 0x61626380
    ensures K(1) == 0x71374491 && W(1) == 0x00000000
    ensures K(2) == 0xb5c0fbcf && W(2) == 0x00000000
    ensures K(3) == 0xe9b5dba5 && W(3) == 0x00000000
    ensures K(4) == 0x3956c25b && W(4) == 0x00000000
    ensures K(5) == 0x59f111f1 && W(5) == 0x00000000
    ensures K(6) == 0x923f82a4 && W(6) == 0x00000000
    ensures K(7) == 0xab1c5ed5 && W(7) == 0x00000000
  {}

  lemma Constants1()
    ensures K(8) == 0xd807aa98 && W(8) == 0x00000000
    ensures K(9) == 0x12835b01 && W(9) == 0x00000000
    ensures K(10) == 0x243185be && W(10) == 0x00000000
    ensures K(11) == 0x550c7dc3 && W(11) == 0x00000000
    ensures K(12) == 0x72be5d74 && W(12) == 0x00000000
    ensures K(13) == 0x80deb1fe && W(13) == 0x00000000
    ensures K(14) == 0x9bdc06a7 && W(14) == 0x00000000
    ensures K(15) == 0xc19bf174 && W(15) == 0x00000018
  {}

  lemma Constants2()
    ensures K(16) == 0xe49b69c1 && W(16) == 0x61626380
    ensures K(17) == 0xefbe4786 && W(17) == 0x000f0000
    ensures K(18) == 0x0fc19dc6 && W(18) == 0x7da86405
    ensures K(19) == 0x240ca1cc && W(19) == 0x600003c6
    ensures K(20) == 0x2de92c6f && W(20) == 0x3e9d7b78
    ensures K(21) == 0x4a7484aa && W(21) == 0x0183fc00
    ensures K(22) == 0x5cb0a9dc && W(22) == 0x12dcbfdb
    ensures K(23) == 0x76f988da && W(23) == 0xe2e2c38e
  {}

  lemma Constants3()
    ensures K(24) == 0x983e5152 && W(24) == 0xc8215c1a
    ensures K(25) == 0xa831c66d && W(25) == 0xb73679a2
    ensures K(26) == 0xb00327c8 && W(26) == 0xe5bc3909
    ensures K(27) == 0xbf597fc7 && W(27) == 0x32663c5b
    ensures K(28) == 0xc6e00bf3 && W(28) == 0x9d209d67
    ensures K(29) == 0xd5a79147 && W(29) == 0xec8726cb
    ensures K(30) == 0x06ca6351 && W(30) == 0x702138a4
    ensures K(31) == 0x14292967 && W(31) == 0xd3b7973b
  {}

  lemma Constants4()
    ensures K(32) == 0x27b70a85 && W(32) == 0x93f5997f
    ensures K(33) == 0x2e1b2138 && W(33) == 0x3b68ba73
    ensures K(34) == 0x4d2c6dfc && W(34) == 0xaff4ffc1
    ensures K(35) == 0x53380d13 && W(35) == 0xf10a5c62
    ensures K(36) == 0x650a7354 && W(36) == 0x0a8b3996
    ensures K(37) == 0x766a0abb && W(37) == 0x72af830a
    ensures K(38) == 0x81c2c92e && W(38) == 0x9409e33e
    ensures K(39) == 0x92722c85 && W(39) == 0x24641522
  {}

  lemma Constants5()
    ensures K(40) == 0xa2bfe8a1 && W(40) == 0x9f47bf94
    ensures K(41) == 0xa81a664b && W(41) == 0xf0a64f5a
    ensures K(42) == 0xc24b8b70 && W(42) == 0x3e246a79
    ensures K(43) == 0xc76c51a3 && W(43) == 0x27333ba3
    ensures K(44) == 0xd192e819 && W(44) == 0x0c4763f2
    ensures K(45) == 0xd6990624 && W(45) == 0x840abf27
    ensures K(46) == 0xf40e3585 && W(46) == 0x7a290d5d
    ensures K(47) == 0x106aa070 && W(47) == 0x065c43da
  {}

  lemma Constants6()
    ensures K(48) == 0x19a4c116 && W(48) == 0xfb3e89cb
    ensures K(49) == 0x1e376c08 && W(49) == 0xcc7617db
    ensures K(50) == 0x2748774c && W(50) == 0xb9e66c34
    ensures K(51) == 0x34b0bcb5 && W(51) == 0xa9993667
    ensures K(52) == 0x391c0cb3 && W(52) == 0x84badedd
    ensures K(53) == 0x4ed8aa4a && W(53) == 0xc21462bc
    ensures K(54) == 0x5b9cca4f && W(54) == 0x1487472c
    ensures K(55) == 0x682e6ff3 && W(55) == 0xb20f7a99
  {}

  lemma Constants7()
    ensures K(56) == 0x748f82ee && W(56) == 0xef57b9cd
    ensures K(57) == 0x78a5636f && W(57) == 0xebe6b238
    ensures K(58) == 0x84c87814 && W(58) == 0x9fe3095e
    ensures K(59) == 0x8cc70208 && W(59) == 0x78bc8d4b
    ensures K(60) == 0x90befffa && W(60) == 0xa43fcf15
    ensures K(61) == 0xa4506ceb && W(61) == 0x668b2ff8
    ensures K(62) == 0xbef9a3f7 && W(62) == 0xeeaba2cc
    ensures K(63) == 0xc67178f2 && W(63) == 0x12b1edeb
  {}

  lemma Rounds0()
    requires After(0,
                   Vars(0x6a09e667, 0xbb67ae85, 0x3c6ef372, 0xa54ff53a, 0x510e527f, 0x9b05688c, 0x1f83d9ab, 0x5be0cd19))
    ensures After(8,
                  Vars(0x85a07b5f, 0xe5030380, 0x2b4209f5, 0x04409a6a, 0x0c657a79, 0x9b27a401, 0x714260ad, 0x43ada245))
  {
    hide After, Mixes, K, W;
    Mixed0();
    Constants0();
    OneRound(0, Vars(0x6a09e667, 0xbb67ae85, 0x3c6ef372, 0xa54ff53a, 0x510e527f, 0x9b05688c, 0x1f83d9ab, 0x5be0cd19),
             Mixed(0x3587272b, 0x1f85c98c, 0xce20b47e, 0x3a6fe667), 0x428a2f98, 0x61626380);
    OneRound(1, Vars(0x5d6aebcd, 0x6a09e667, 0xbb67ae85, 0x3c6ef372, 0xfa2a4622, 0x510e527f, 0x9b05688c, 0x1f83d9ab),
             Mixed(0x5a94fd2d, 0x510f6aae, 0xa29f64d1, 0x7b6beec5), 0x71374491, 0x00000000);
    OneRound(2, Vars(0x5a6ad9ad, 0x5d6aebcd, 0x6a09e667, 0xbb67ae85, 0x78ce7989, 0xfa2a4622, 0x510e527f, 0x9b05688c),
             Mixed(0x73f0e495, 0x790a4276, 0x3096d054, 0x5a6aebed), 0xb5c0fbcf, 0x00000000);
    OneRound(3, Vars(0xc8c347a7, 0x5a6ad9ad, 0x5d6aebcd, 0x6a09e667, 0xf92939eb, 0x78ce7989, 0xfa2a4622, 0x510e527f),
             Mixed(0x0607743c, 0x7a0a7f89, 0xc21008d0, 0x586acbad), 0xe9b5dba5, 0x00000000);
    OneRound(4, Vars(0xd550f666, 0xc8c347a7, 0x5a6ad9ad, 0x5d6aebcd, 0x24e00850, 0xf92939eb, 0x78ce7989, 0xfa2a4622),
             Mixed(0x3a933432, 0x782e79c9, 0x45bb0c4b, 0xd842d7a7), 0x3956c25b, 0x00000000);
    OneRound(5, Vars(0x04409a6a, 0xd550f666, 0xc8c347a7, 0x5a6ad9ad, 0x43ada245, 0x24e00850, 0xf92939eb, 0x78ce7989),
             Mixed(0x8b77e19c, 0xb8a019ea, 0x5029ac8f, 0xc440d666), 0x59f111f1, 0x00000000);
    OneRound(6, Vars(0x2b4209f5, 0x04409a6a, 0xd550f666, 0xc8c347a7, 0x714260ad, 0x43ada245, 0x24e00850, 0xf92939eb),
             Mixed(0x015b7776, 0x45a02855, 0x0d5e0cc0, 0x05409a66), 0x923f82a4, 0x00000000);
    OneRound(7, Vars(0xe5030380, 0x2b4209f5, 0x04409a6a, 0xd550f666, 0x9b27a401, 0x714260ad, 0x43ada245, 0x24e00850),
             Mixed(0x158dfaa9, 0x518a2245, 0x2949eb6c, 0x25420be0), 0xab1c5ed5, 0x00000000);
  }

  lemma Rounds1()
    requires After(8,
                   Vars(0x85a07b5f, 0xe5030380, 0x2b4209f5, 0x04409a6a, 0x0c657a79, 0x9b27a401, 0x714260ad, 0x43ada245))
    ensures After(16,
                  Vars(0xb0fa238e, 0xc0645fde, 0xd932eb16, 0x87912990, 0x07590dcd, 0x0b92f20c, 0x745a48de, 0x1e578218))
  {
    hide After, Mixes, K, W;
    Mixed1();
    Constants1();
    OneRound(8, Vars(0x85a07b5f, 0xe5030380, 0x2b4209f5, 0x04409a6a, 0x0c657a79, 0x9b27a401, 0x714260ad, 0x43ada245),
             Mixed(0x99ad25c0, 0x79272085, 0xba794dc2, 0xa5020bd5), 0xd807aa98, 0x00000000);
    OneRound(9, Vars(0x8e04ecb9, 0x85a07b5f, 0xe5030380, 0x2b4209f5, 0x32ca2d8c, 0x0c657a79, 0x9b27a401, 0x714260ad),
             Mixed(0xe45bb7ea, 0x8965a809, 0x15ffad31, 0x85006b99), 0x12835b01, 0x00000000);
    OneRound(10, Vars(0x8c87346b, 0x8e04ecb9, 0x85a07b5f, 0xe5030380, 0x1cc92596, 0x32ca2d8c, 0x0c657a79, 0x9b27a401),
             Mixed(0x8e2276bc, 0x10ec7fed, 0x5cac0711, 0x8c847c7b), 0x243185be, 0x00000000);
    OneRound(11, Vars(0x4798a3f4, 0x8c87346b, 0x8e04ecb9, 0x85a07b5f, 0x436b23e8, 0x1cc92596, 0x32ca2d8c, 0x0c657a79),
             Mixed(0x699435ca, 0x30c92d84, 0x6ccbc526, 0x8e84a4f9), 0x550c7dc3, 0x00000000);
    OneRound(12, Vars(0xf71fc5a9, 0x4798a3f4, 0x8c87346b, 0x8e04ecb9, 0x816fd6e9, 0x436b23e8, 0x1cc92596, 0x32ca2d8c),
             Mixed(0xccdee661, 0x1deb23fe, 0x2f9eee48, 0xc79fa5e9), 0x72be5d74, 0x00000000);
    OneRound(13, Vars(0x87912990, 0xf71fc5a9, 0x4798a3f4, 0x8c87346b, 0x1e578218, 0x816fd6e9, 0x436b23e8, 0x1cc92596),
             Mixed(0x08bb98f7, 0x416fa3e8, 0x29c634f3, 0xc799a1b0), 0x80deb1fe, 0x00000000);
    OneRound(14, Vars(0xd932eb16, 0x87912990, 0xf71fc5a9, 0x4798a3f4, 0x745a48de, 0x1e578218, 0x816fd6e9, 0x436b23e8),
             Mixed(0x4f3b8d50, 0x95779639, 0x25562836, 0xd713e990), 0x9bdc06a7, 0x00000000);
    OneRound(15, Vars(0xc0645fde, 0xd932eb16, 0x87912990, 0xf71fc5a9, 0x0b92f20c, 0x745a48de, 0x1e578218, 0x816fd6e9),
             Mixed(0xb8d63f93, 0x1457401c, 0xdf906fd4, 0xc1306b96), 0xc19bf174, 0x00000018);
  }

  lemma Rounds2()
    requires After(16,
                   Vars(0xb0fa238e, 0xc0645fde, 0xd932eb16, 0x87912990, 0x07590dcd, 0x0b92f20c, 0x745a48de, 0x1e578218))
    ensures After(24,
                  Vars(0xc5d53d8d, 0xa7a3623f, 0xc2606d6d, 0x9dc68b63, 0xaa47c347, 0x49f5114a, 0xe1257970, 0x8ada8930))
  {
    hide After, Mixes, K, W;
    Mixed2();
    Constants2();
    OneRound(16, Vars(0xb0fa238e, 0xc0645fde, 0xd932eb16, 0x87912990, 0x07590dcd, 0x0b92f20c, 0x745a48de, 0x1e578218),
             Mixed(0x213b6995, 0x7312401e, 0x58c535f1, 0xd0726b9e), 0xe49b69c1, 0x61626380);
    OneRound(17, Vars(0x21da9a9b, 0xb0fa238e, 0xc0645fde, 0xd932eb16, 0x8034229c, 0x07590dcd, 0x0b92f20c, 0x745a48de),
             Mixed(0x3b81984e, 0x0b92d08c, 0x76c5c4f5, 0xa0fa1b9e), 0xefbe4786, 0x000f0000);
    OneRound(18, Vars(0xc2fbd9d1, 0x21da9a9b, 0xb0fa238e, 0xc0645fde, 0x846ee454, 0x8034229c, 0x07590dcd, 0x0b92f20c),
             Mixed(0xeff31c0f, 0x8335299d, 0x5157a6a1, 0xa0fa9b9b), 0x0fc19dc6, 0x7da86405);
    OneRound(19, Vars(0xfe777bbf, 0xc2fbd9d1, 0x21da9a9b, 0xb0fa238e, 0xcc899961, 0x846ee454, 0x8034229c, 0x07590dcd),
             Mixed(0xefc707b0, 0x843ca2dc, 0xff8cd2ad, 0xe2fbdb9b), 0x240ca1cc, 0x600003c6);
    OneRound(20, Vars(0xe1f20c33, 0xfe777bbf, 0xc2fbd9d1, 0x21da9a9b, 0xb0638179, 0xcc899961, 0x846ee454, 0x8034229c),
             Mixed(0xf8373ead, 0x840de565, 0x51d3431b, 0xe2f359b3), 0x2de92c6f, 0x3e9d7b78);
    OneRound(21, Vars(0x9dc68b63, 0xe1f20c33, 0xfe777bbf, 0xc2fbd9d1, 0x8ada8930, 0xb0638179, 0xcc899961, 0x846ee454),
             Mixed(0x897ea930, 0xc4439171, 0xa640c29b, 0xfdf60b33), 0x4a7484aa, 0x0183fc00);
    OneRound(22, Vars(0xc2606d6d, 0x9dc68b63, 0xe1f20c33, 0xfe777bbf, 0xe1257970, 0x8ada8930, 0xb0638179, 0xcc899961),
             Mixed(0x7f24093a, 0x90428939, 0x9a43bf51, 0xc1e20d63), 0x5cb0a9dc, 0x12dcbfdb);
    OneRound(23, Vars(0xa7a3623f, 0xc2606d6d, 0x9dc68b63, 0xe1f20c33, 0x49f5114a, 0xe1257970, 0x8ada8930, 0xb0638179),
             Mixed(0xfae64fc3, 0xc32f9970, 0x759d1b0a, 0x87e26b6f), 0x76f988da, 0xe2e2c38e);
  }

  lemma Rounds3()
    requires After(24,
                   Vars(0xc5d53d8d, 0xa7a3623f, 0xc2606d6d, 0x9dc68b63, 0xaa47c347, 0x49f5114a, 0xe1257970, 0x8ada8930))
    ensures After(32,
                  Vars(0x73b33bf5, 0xea992a22, 0xa0060b30, 0x363482c9, 0xba591112, 0x0109ab3a, 0xade79437, 0x6112a3b7))
  {
    hide After, Mixes, K, W;
    Mixed3();
    Constants3();
    OneRound(24, Vars(0xc5d53d8d, 0xa7a3623f, 0xc2606d6d, 0x9dc68b63, 0xaa47c347, 0x49f5114a, 0xe1257970, 0x8ada8930),
             Mixed(0x55bdf420, 0x49653972, 0xc9ed56dd, 0xc7e16d2d), 0x983e5152, 0xc8215c1a);
    OneRound(25, Vars(0x1c2c2838, 0xc5d53d8d, 0xa7a3623f, 0xc2606d6d, 0x2823ef91, 0xaa47c347, 0x49f5114a, 0xe1257970),
             Mixed(0xa7724357, 0x69d7d34b, 0xf66b0b1f, 0x85a5283d), 0xa831c66d, 0xb73679a2);
    OneRound(26, Vars(0xcde8037d, 0x1c2c2838, 0xc5d53d8d, 0xa7a3623f, 0x14383d8e, 0x2823ef91, 0xaa47c347, 0x49f5114a),
             Mixed(0x958ca0fb, 0xaa67efc1, 0xc89998a8, 0xcdec293d), 0xb00327c8, 0xe5bc3909);
    OneRound(27, Vars(0xb62ec4bc, 0xcde8037d, 0x1c2c2838, 0xc5d53d8d, 0xc74c6516, 0x14383d8e, 0x2823ef91, 0xaa47c347),
             Mixed(0x5ff7537b, 0x2c2baf87, 0xb37cf281, 0x9c2c003c), 0xbf597fc7, 0x32663c5b);
    OneRound(28, Vars(0x77d37528, 0xb62ec4bc, 0xcde8037d, 0x1c2c2838, 0xedffbff8, 0xc74c6516, 0x14383d8e, 0x2823ef91),
             Mixed(0xe375bd7e, 0xd54c2516, 0xf963c20e, 0xf7ea453c), 0xc6e00bf3, 0x9d209d67);
    OneRound(29, Vars(0x363482c9, 0x77d37528, 0xb62ec4bc, 0xcde8037d, 0x6112a3b7, 0xedffbff8, 0xc74c6516, 0x14383d8e),
             Mixed(0x2239b36a, 0xe75ee7b0, 0x89cfb5ce, 0x3636c4a8), 0xd5a79147, 0xec8726cb);
    OneRound(30, Vars(0xa0060b30, 0x363482c9, 0x77d37528, 0xb62ec4bc, 0xade79437, 0x6112a3b7, 0xedffbff8, 0xc74c6516),
             Mixed(0xab883974, 0x611aabff, 0x69a8407c, 0x36160328), 0x06ca6351, 0x702138a4);
    OneRound(31, Vars(0xea992a22, 0xa0060b30, 0x363482c9, 0x77d37528, 0x0109ab3a, 0xade79437, 0x6112a3b7, 0xedffbff8),
             Mixed(0x0b919a99, 0x611380b7, 0x8f1995eb, 0xa2140a20), 0x14292967, 0xd3b7973b);
  }

  lemma Rounds4()
    requires After(32,
                   Vars(0x73b33bf5, 0xea992a22, 0xa0060b30, 0x363482c9, 0xba591112, 0x0109ab3a, 0xade79437, 0x6112a3b7))
    ensures After(40,
                  Vars(0x79ea687a, 0x6dc57a8a, 0x34df1604, 0x41a65cb1, 0x1efbc0a0, 0xf0781bc8, 0xa507a53d, 0x0772a26b))
  {
    hide After, Mixes, K, W;
    Mixed4();
    Constants4();
    OneRound(32, Vars(0x73b33bf5, 0xea992a22, 0xa0060b30, 0x363482c9, 0xba591112, 0x0109ab3a, 0xade79437, 0x6112a3b7),
             Mixed(0x4436a63b, 0x05af8537, 0x4fa886aa, 0xe2932b30), 0x27b70a85, 0x93f5997f);
    OneRound(33, Vars(0x98e12507, 0x73b33bf5, 0xea992a22, 0xa0060b30, 0x9cd9f5f6, 0xba591112, 0x0109ab3a, 0xade79437),
             Mixed(0x085a07a7, 0x99591b1a, 0x4a90902b, 0xfab12b27), 0x2e1b2138, 0x3b68ba73);
    OneRound(34, Vars(0xfe604df5, 0x98e12507, 0x73b33bf5, 0xea992a22, 0x59249dd3, 0x9cd9f5f6, 0xba591112, 0x0109ab3a),
             Mixed(0x65415f48, 0xba5995d2, 0x91003786, 0xfae12df5), 0x4d2c6dfc, 0xaff4ffc1);
    OneRound(35, Vars(0xa9a7738c, 0xfe604df5, 0x98e12507, 0x73b33bf5, 0x085f3833, 0x59249dd3, 0x9cd9f5f6, 0xba591112),
             Mixed(0xe5dc6e83, 0x9c84ddd7, 0x2bc2a37e, 0xb8e16585), 0x53380d13, 0xf10a5c62);
    OneRound(36, Vars(0x65a0cfe4, 0xa9a7738c, 0xfe604df5, 0x98e12507, 0xf4b002d6, 0x085f3833, 0x59249dd3, 0x9cd9f5f6),
             Mixed(0x590d3d71, 0x09149d13, 0xe5748f69, 0xeda04fe4), 0x650a7354, 0x0a8b3996);
    OneRound(37, Vars(0x41a65cb1, 0x65a0cfe4, 0xa9a7738c, 0xfe604df5, 0x0772a26b, 0xf4b002d6, 0x085f3833, 0x59249dd3),
             Mixed(0x582c115e, 0x0c3d1a52, 0x2c915f18, 0x61a65fa4), 0x766a0abb, 0x72af830a);
    OneRound(38, Vars(0x34df1604, 0x41a65cb1, 0x65a0cfe4, 0xa9a7738c, 0xa507a53d, 0x0772a26b, 0xf4b002d6, 0x085f3833),
             Mixed(0xd2f220b2, 0x55b2a2eb, 0xc14e73aa, 0x65a65ea4), 0x81c2c92e, 0x9409e33e);
    OneRound(39, Vars(0x6dc57a8a, 0x34df1604, 0x41a65cb1, 0x65a0cfe4, 0xf0781bc8, 0xa507a53d, 0x0772a26b, 0xf4b002d6),
             Mixed(0x66d20b14, 0xa702a12b, 0x5ac8193e, 0x65c75e80), 0x92722c85, 0x24641522);
  }

  lemma Rounds5()
    requires After(40,
                   Vars(0x79ea687a, 0x6dc57a8a, 0x34df1604, 0x41a65cb1, 0x1efbc0a0, 0xf0781bc8, 0xa507a53d, 0x0772a26b))
    ensures After(48,
                  Vars(0x4172328d, 0xa14c14b0, 0x72ab4b91, 0x26628815, 0xfecf0bc6, 0xd57b94a9, 0xb7755da1, 0xa80f11f0))
  {
    hide After, Mixes, K, W;
    Mixed5();
    Constants5();
    OneRound(40, Vars(0x79ea687a, 0x6dc57a8a, 0x34df1604, 0x41a65cb1, 0x1efbc0a0, 0xf0781bc8, 0xa507a53d, 0x0772a26b),
             Mixed(0xe9986075, 0xb17c259d, 0x7408bcaa, 0x7dcf7a0a), 0xa2bfe8a1, 0x9f47bf94);
    OneRound(41, Vars(0xd6670766, 0x79ea687a, 0x6dc57a8a, 0x34df1604, 0x26352d63, 0x1efbc0a0, 0xf0781bc8, 0xa507a53d),
             Mixed(0x3a6aa383, 0xd67912a8, 0x12b2e9b8, 0x7de76a6a), 0xa81a664b, 0xf0a64f5a);
    OneRound(42, Vars(0xdf46652f, 0xd6670766, 0x79ea687a, 0x6dc57a8a, 0x838b2711, 0x26352d63, 0x1efbc0a0, 0xf0781bc8),
             Mixed(0x61add539, 0x1e71e5a1, 0xc73bdc05, 0xdf66656e), 0xc24b8b70, 0x3e246a79);
    OneRound(43, Vars(0x17aa0dfe, 0xdf46652f, 0xd6670766, 0x79ea687a, 0xdecd4715, 0x838b2711, 0x26352d63, 0x1efbc0a0),
             Mixed(0xd363665b, 0xa2b92f73, 0x422dc671, 0xd766056e), 0xc76c51a3, 0x27333ba3);
    OneRound(44, Vars(0x9d4baf93, 0x17aa0dfe, 0xdf46652f, 0xd6670766, 0xfda24c2e, 0xdecd4715, 0x838b2711, 0x26352d63),
             Mixed(0xef0f2a07, 0xde896715, 0xb5704fcc, 0x9f4a2dbf), 0xd192e819, 0x0c4763f2);
    OneRound(45, Vars(0x26628815, 0x9d4baf93, 0x17aa0dfe, 0xdf46652f, 0xa80f11f0, 0xfda24c2e, 0xdecd4715, 0x838b2711),
             Mixed(0xfb3dc5f1, 0xfec24625, 0x8311c588, 0x176a8d97), 0xd6990624, 0x840abf27);
    OneRound(46, Vars(0x72ab4b91, 0x26628815, 0x9d4baf93, 0x17aa0dfe, 0xb7755da1, 0xa80f11f0, 0xfda24c2e, 0xdecd4715),
             Mixed(0x8845eb06, 0xe88711ae, 0xad0f0274, 0x366b8b91), 0xf40e3585, 0x7a290d5d);
    OneRound(47, Vars(0xa14c14b0, 0x72ab4b91, 0x26628815, 0x9d4baf93, 0xd57b94a9, 0xb7755da1, 0xa80f11f0, 0xfda24c2e),
             Mixed(0x8fa515ca, 0xbd7515f1, 0xbd84cdc9, 0x226a0891), 0x106aa070, 0x065c43da);
  }

  lemma Rounds6()
    requires After(48,
                   Vars(0x4172328d, 0xa14c14b0, 0x72ab4b91, 0x26628815, 0xfecf0bc6, 0xd57b94a9, 0xb7755da1, 0xa80f11f0))
    ensures After(56,
                  Vars(0x38cc9913, 0x3ec45cdb, 0xf5702fdb, 0x101fd28f, 0x54cb266b, 0xe50e1b4f, 0x9f4787c3, 0x529e7d00))
  {
    hide After, Mixes, K, W;
    Mixed6();
    Constants6();
    OneRound(48, Vars(0x4172328d, 0xa14c14b0, 0x72ab4b91, 0x26628815, 0xfecf0bc6, 0xd57b94a9, 0xb7755da1, 0xa80f11f0),
             Mixed(0x04a106b1, 0xd57b54a1, 0x0cfcb237, 0x616a1291), 0x19a4c116, 0xfb3e89cb);
    OneRound(49, Vars(0x05757ceb, 0x4172328d, 0xa14c14b0, 0x72ab4b91, 0xbd714038, 0xfecf0bc6, 0xd57b94a9, 0xb7755da1),
             Mixed(0x5d427776, 0xfc4b9481, 0xf3f6d884, 0x017434a9), 0x1e376c08, 0xcc7617db);
    OneRound(50, Vars(0xf11bfaa8, 0x05757ceb, 0x4172328d, 0xa14c14b0, 0x6e5c390c, 0xbd714038, 0xfecf0bc6, 0xd57b94a9),
             Mixed(0x3e283d54, 0xbcd302ca, 0x86ebd5b1, 0x41737aa9), 0x2748774c, 0xb9e66c34);
    OneRound(51, Vars(0x7a0508a1, 0xf11bfaa8, 0x05757ceb, 0x4172328d, 0x52f1ccf7, 0x6e5c390c, 0xbd714038, 0xfecf0bc6),
             Mixed(0x3b47e2a3, 0xef50080c, 0x0fa817e8, 0x711578a9), 0x34b0bcb5, 0xa9993667);
    OneRound(52, Vars(0x886e7a22, 0x7a0508a1, 0xf11bfaa8, 0x05757ceb, 0x49231c1e, 0x52f1ccf7, 0x6e5c390c, 0xbd714038),
             Mixed(0x6b63a737, 0x667d2d16, 0xcae757da, 0xf80f7aa0), 0x391c0cb3, 0x84badedd);
    OneRound(53, Vars(0x101fd28f, 0x886e7a22, 0x7a0508a1, 0xf11bfaa8, 0x529e7d00, 0x49231c1e, 0x52f1ccf7, 0x6e5c390c),
             Mixed(0xee7eaa12, 0x40639cf7, 0x2f35481d, 0x180f5aa3), 0x4ed8aa4a, 0xc21462bc);
    OneRound(54, Vars(0xf5702fdb, 0x101fd28f, 0x886e7a22, 0x7a0508a1, 0x9f4787c3, 0x529e7d00, 0x49231c1e, 0x52f1ccf7),
             Mixed(0x55cd1720, 0x52261d1c, 0x433ccfa2, 0x907e7a8b), 0x5b9cca4f, 0x1487472c);
    OneRound(55, Vars(0x3ec45cdb, 0xf5702fdb, 0x101fd28f, 0x886e7a22, 0xe50e1b4f, 0x9f4787c3, 0x529e7d00, 0x49231c1e),
             Mixed(0xd1653e5c, 0x97966743, 0x381b8def, 0x34545edb), 0x682e6ff3, 0xb20f7a99);
  }

  lemma Rounds7()
    requires After(56,
                   Vars(0x38cc9913, 0x3ec45cdb, 0xf5702fdb, 0x101fd28f, 0x54cb266b, 0xe50e1b4f, 0x9f4787c3, 0x529e7d00))
    ensures After(64,
                  Vars(0x506e3058, 0xd39a2165, 0x04d24d6c, 0xb85e2ce9, 0x5ef50f24, 0xfb121210, 0x948d25b6, 0x961f4894))
  {
    hide After, Mixes, K, W;
    Mixed7();
    Constants7();
    OneRound(56, Vars(0x38cc9913, 0x3ec45cdb, 0xf5702fdb, 0x101fd28f, 0x54cb266b, 0xe50e1b4f, 0x9f4787c3, 0x529e7d00),
             Mixed(0x05aa8057, 0xcf0e83cb, 0x34ceacc3, 0x3cc41ddb), 0x748f82ee, 0xef57b9cd);
    OneRound(57, Vars(0xfcd1887b, 0x38cc9913, 0x3ec45cdb, 0xf5702fdb, 0x9b5e906c, 0x54cb266b, 0xe50e1b4f, 0x9f4787c3),
             Mixed(0x10b627de, 0x744a0b6b, 0xfaca6b61, 0x3cc4985b), 0x78a5636f, 0xebe6b238);
    OneRound(58, Vars(0xc062d46f, 0xfcd1887b, 0x38cc9913, 0x3ec45cdb, 0x7e44008e, 0x9b5e906c, 0x54cb266b, 0xe50e1b4f),
             Mixed(0x0a369fbd, 0x1acf266d, 0xd837090c, 0xf8c0987b), 0x84c87814, 0x9fe3095e);
    OneRound(59, Vars(0xffb70472, 0xc062d46f, 0xfcd1887b, 0x38cc9913, 0x6d83bfc6, 0x7e44008e, 0x9b5e906c, 0x54cb266b),
             Mixed(0x20a45dbe, 0xfe5c00ae, 0x406bf75a, 0xfcf3847b), 0x8cc70208, 0x78bc8d4b);
    OneRound(60, Vars(0xb6ae8fff, 0xffb70472, 0xc062d46f, 0xfcd1887b, 0xb21bad3d, 0x6d83bfc6, 0x7e44008e, 0x9b5e906c),
             Mixed(0x5ca8b318, 0x6c47ad86, 0x2869e851, 0xf6a6847f), 0x90befffa, 0xa43fcf15);
    OneRound(61, Vars(0xb85e2ce9, 0xb6ae8fff, 0xffb70472, 0xc062d46f, 0x961f4894, 0xb21bad3d, 0x6d83bfc6, 0x7e44008e),
             Mixed(0x4f6ef480, 0xfb9bbf56, 0x71e9ef2a, 0xbebe0cfb), 0xa4506ceb, 0x668b2ff8);
    OneRound(62, Vars(0x04d24d6c, 0xb85e2ce9, 0xb6ae8fff, 0xffb70472, 0x948d25b6, 0x961f4894, 0xb21bad3d, 0x6d83bfc6),
             Mixed(0x2a127e78, 0xb61f889d, 0x236105da, 0xb4de0ded), 0xbef9a3f7, 0xeeaba2cc);
    OneRound(63, Vars(0xd39a2165, 0x04d24d6c, 0xb85e2ce9, 0xb6ae8fff, 0xfb121210, 0x948d25b6, 0x961f4894, 0xb21bad3d),
             Mixed(0x88fa2277, 0x940d4894, 0x174d83c6, 0x90da2d6d), 0xc67178f2, 0x12b1edeb);
  }

  // ---------- the padded message and its schedule ----------

  const ABC: seq<Byte> := [0x61, 0x62, 0x63]

  function OneBlock(): Block {
    ABC + [0x80] + Zeros(52) + (Zeros(7) + [0x18])
  }

  lemma {:induction false} ZerosOut(n: nat)
    ensures BigEndian(0, n) == Zeros(n)
  {
    if n > 0 {
      ZerosOut(n - 1);
      assert Zeros(n) == Zeros(n - 1) + [0];
    }
  }

  lemma LengthOfAbc()
    ensures LengthField(3) == Zeros(7) + [0x18]
  {
    ZerosOut(7);
    hide Zeros;
    assert 8 * 3 % TWO64 == 24 && 24 / 256 == 0 && 24 % 256 == 24;
  }

  lemma PadOfAbc()
    ensures Pad(ABC) == OneBlock()
  {
    hide BigEndian, LengthField;
    LengthOfAbc();
  }

  lemma LoadedWords()
    ensures LoadBe32(0x61, 0x62, 0x63, 0x80) == 0x61626380
    ensures LoadBe32(0, 0, 0, 0) == 0 && LoadBe32(0, 0, 0, 0x18) == 0x18
  {}

  lemma FirstWords(t: nat, w: seq<Word>)
    requires t < 16 && |w| == t
    ensures NextWord(OneBlock(), w) == if t == 0 then 0x61626380 else if t == 15 then 0x18 else 0
  {
    hide LoadBe32;
    LoadedWords();
    var b := OneBlock();
    if 0 < t < 15 {
      assert b[4 * t] == 0 && b[4 * t + 1] == 0 && b[4 * t + 2] == 0 && b[4 * t + 3] == 0;
    }
  }

  lemma FirstRow(t: nat)
    requires t < 16
    ensures W(t) == if t == 0 then 0x61626380 else if t == 15 then 0x18 else 0
  {}

  predicate Extends(t: nat)
    requires 16 <= t < 64
  {
    W(t) == Extension(W(t - 2), W(t - 7), W(t - 15), W(t - 16))
  }

  /** Every word behind the sixteenth extends those in front of it. */
  lemma ExtendedWords(t: nat)
    requires 16 <= t < 64
    ensures Extends(t)
  {
    hide Extends;
    Row2();
    Row3();
    Row4();
    Row5();
    Row6();
    Row7();
  }

  lemma Row2()
    ensures Extends(16) && Extends(17) && Extends(18) && Extends(19)
    ensures Extends(20) && Extends(21) && Extends(22) && Extends(23)
  {
    hide Extension, W;
    Constants0();
    Constants1();
    Constants2();
    Extended2a();
    Extended2b();
  }

  lemma Row3()
    ensures Extends(24) && Extends(25) && Extends(26) && Extends(27)
    ensures Extends(28) && Extends(29) && Extends(30) && Extends(31)
  {
    hide Extension, W;
    Constants1();
    Constants2();
    Constants3();
    Extended3a();
    Extended3b();
  }

  lemma Row4()
    ensures Extends(32) && Extends(33) && Extends(34) && Extends(35)
    ensures Extends(36) && Extends(37) && Extends(38) && Extends(39)
  {
    hide Extension, W;
    Constants2();
    Constants3();
    Constants4();
    Extended4a();
    Extended4b();
  }

  lemma Row5()
    ensures Extends(40) && Extends(41) && Extends(42) && Extends(43)
    ensures Extends(44) && Extends(45) && Extends(46) && Extends(47)
  {
    hide Extension, W;
    Constants3();
    Constants4();
    Constants5();
    Extended5a();
    Extended5b();
  }

  lemma Row6()
    ensures Extends(48) && Extends(49) && Extends(50) && Extends(51)
    ensures Extends(52) && Extends(53) && Extends(54) && Extends(55)
  {
    hide Extension, W;
    Constants4();
    Constants5();
    Constants6();
    Extended6a();
    Extended6b();
  }

  lemma Row7()
    ensures Extends(56) && Extends(57) && Extends(58) && Extends(59)
    ensures Extends(60) && Extends(61) && Extends(62) && Extends(63)
  {
    hide Extension, W;
    Constants5();
    Constants6();
    Constants7();
    Extended7a();
    Extended7b();
  }

  lemma {:induction false} ScheduleOf(n: nat)
    requires n <= 64
    ensures Schedule(OneBlock(), n) == Words()[..n]
  {
    hide W, Extension, OneBlock, LoadBe32, NextWord;
    if n > 0 {
      ScheduleOf(n - 1);
      var w, t := Words()[..n - 1], n - 1;
      assert Words()[..n] == w + [W(t)];
      if t < 16 {
        FirstWords(t, w);
        FirstRow(t);
      } else {
        ExtendedWords(t);
        assert w[t - 2] == W(t - 2) && w[t - 7] == W(t - 7) && w[t - 15] == W(t - 15) && w[t - 16] == W(t - 16);
        ExtensionIs(w, t);
      }
    }
  }

  lemma ExtensionIs(w: seq<Word>, t: nat)
    requires 16 <= t < 64 && |w| == t
    ensures NextWord(OneBlock(), w) == Extension(w[t - 2], w[t - 7], w[t - 15], w[t - 16])
  {
    hide Extension, OneBlock, LoadBe32;
  }

  lemma AllRounds()
    ensures After(64,
                  Vars(0x506e3058, 0xd39a2165, 0x04d24d6c, 0xb85e2ce9, 0x5ef50f24, 0xfb121210, 0x948d25b6, 0x961f4894))
  {
    hide After;
    NoRounds();
    Rounds0();
    Rounds1();
    Rounds2();
    Rounds3();
    Rounds4();
    Rounds5();
    Rounds6();
    Rounds7();
  }

  lemma NoRounds()
    ensures After(0,
                  Vars(0x6a09e667, 0xbb67ae85, 0x3c6ef372, 0xa54ff53a, 0x510e527f, 0x9b05688c, 0x1f83d9ab, 0x5be0cd19))
  {}

  lemma AddedUp()
    ensures Added(Initial(),
                  Vars(0x506e3058, 0xd39a2165, 0x04d24d6c, 0xb85e2ce9, 0x5ef50f24, 0xfb121210, 0x948d25b6, 0x961f4894))
            == [0xba7816bf, 0x8f01cfea, 0x414140de, 0x5dae2223, 0xb00361a3, 0x96177a9c, 0xb410ff61, 0xf20015ad]
  {}

  lemma NextBytes(h: seq<Word>, i: nat)
    requires i < |h|
    ensures HashBytes(h[..i + 1]) == HashBytes(h[..i]) + WordBytes(h[i])
  {
    hide WordBytes;
    assert h[..i + 1][..i] == h[..i];
  }

  lemma DigestBytes()
    ensures HashBytes([0xba7816bf, 0x8f01cfea, 0x414140de, 0x5dae2223, 0xb00361a3, 0x96177a9c, 0xb410ff61, 0xf20015ad])
            == [0xba, 0x78, 0x16, 0xbf, 0x8f, 0x01, 0xcf, 0xea, 0x41, 0x41, 0x40, 0xde, 0x5d, 0xae, 0x22, 0x23]
             + [0xb0, 0x03, 0x61, 0xa3, 0x96, 0x17, 0x7a, 0x9c, 0xb4, 0x10, 0xff, 0x61, 0xf2, 0x00, 0x15, 0xad]
  {
    WordsOut();
    hide WordBytes;
    var h := [0xba7816bf, 0x8f01cfea, 0x414140de, 0x5dae2223, 0xb00361a3, 0x96177a9c, 0xb410ff61, 0xf20015ad];
    assert HashBytes(h[..0]) == [];
    NextBytes(h, 0);
    NextBytes(h, 1);
    NextBytes(h, 2);
    NextBytes(h, 3);
    NextBytes(h, 4);
    NextBytes(h, 5);
    NextBytes(h, 6);
    NextBytes(h, 7);
    assert h[..8] == h;
  }

  lemma WordsOut()
    ensures WordBytes(0xba7816bf) == [0xba, 0x78, 0x16, 0xbf]
    ensures WordBytes(0x8f01cfea) == [0x8f, 0x01, 0xcf, 0xea]
    ensures WordBytes(0x414140de) == [0x41, 0x41, 0x40, 0xde]
    ensures WordBytes(0x5dae2223) == [0x5d, 0xae, 0x22, 0x23]
    ensures WordBytes(0xb00361a3) == [0xb0, 0x03, 0x61, 0xa3]
    ensures WordBytes(0x96177a9c) == [0x96, 0x17, 0x7a, 0x9c]
    ensures WordBytes(0xb410ff61) == [0xb4, 0x10, 0xff, 0x61]
    ensures WordBytes(0xf20015ad) == [0xf2, 0x00, 0x15, 0xad]
  {}

  /** SHA-256 of `abc`. */
  lemma DigestOfAbc()
    ensures Sha256([0x61, 0x62, 0x63]) ==
            [0xba, 0x78, 0x16, 0xbf, 0x8f, 0x01, 0xcf, 0xea, 0x41, 0x41, 0x40, 0xde, 0x5d, 0xae, 0x22, 0x23]
            + [0xb0, 0x03, 0x61, 0xa3, 0x96, 0x17, 0x7a, 0x9c, 0xb4, 0x10, 0xff, 0x61, 0xf2, 0x00, 0x15, 0xad]
  {
    hide Compressed, Rounds, Schedule, Words, HashBytes, Pad, OneBlock, Added, Initial;
    PadOfAbc();
    OneBlockAbsorbed();
    BlockCompressed();
    DigestBytes();
  }

  lemma OneBlockAbsorbed()
    ensures Absorb(Initial(), OneBlock()) == Compressed(Initial(), OneBlock())
  {
    hide Compressed, OneBlock, Initial;
    var b := OneBlock();
    assert b[..64] == b && b[64..] == [];
  }

  lemma BlockCompressed()
    ensures Compressed(Initial(), OneBlock()) ==
            [0xba7816bf, 0x8f01cfea, 0x414140de, 0x5dae2223, 0xb00361a3, 0x96177a9c, 0xb410ff61, 0xf20015ad]
  {
    hide Rounds, Schedule, Words, OneBlock, Added, Initial;
    ScheduleOf(64);
    assert Words()[..64] == Words();
    AllRounds();
    AddedUp();
  }
}
