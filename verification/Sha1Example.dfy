/** The example "abc" of FIPS 180, computed by the specification. */
module Sha1Example {
  import opened Sha1Padding
  import opened Sha1

  function Abc(): Bytes {
    [0x61, 0x62, 0x63]
  }

  function Digest(): (d: Bytes)
    ensures |d| == 20
  {
    [0xa9, 0x99, 0x3e, 0x36, 0x47, 0x06, 0x81, 0x6a, 0xba, 0x3e,
     0x25, 0x71, 0x78, 0x50, 0xc2, 0x6c, 0x9c, 0xd0, 0xd8, 0x9d]
  }

  // ---------- the one block ----------

  function Zeros(n: nat): (z: Bytes)
    ensures |z| == n && forall i :: 0 <= i < n ==> z[i] == 0
  {
    seq(n, i requires 0 <= i < n => 0)
  }

  function TheBlock(): (b: Bytes)
    ensures |b| == 64
  {
    [0x61, 0x62, 0x63, 0x80] + Zeros(59) + [0x18]
  }

  lemma ValueOfFour(a: Byte, b: Byte, c: Byte, d: Byte)
    ensures Value([a, b, c, d]) == 0x100_0000 * a as nat + 0x1_0000 * b as nat + 0x100 * c as nat + d as nat
  {
    assert [a][..0] == [] && Value([a]) == a as nat;
    assert [a, b][..1] == [a] && Value([a, b]) == 256 * Value([a]) + b as nat;
    assert [a, b, c][..2] == [a, b] && Value([a, b, c]) == 256 * Value([a, b]) + c as nat;
    assert [a, b, c, d][..3] == [a, b, c];
  }

  lemma {:induction false} ValueOfZeros(n: nat)
    ensures Value(Zeros(n)) == 0
  {
    if n > 0 {
      ValueOfZeros(n - 1);
      assert Zeros(n)[..n - 1] == Zeros(n - 1);
    }
  }

  lemma PaddedAbc()
    ensures IsPadded(Abc(), TheBlock())
  {
    var tail := TheBlock()[56..];
    assert tail[..7] == Zeros(7) && tail == Zeros(7) + [0x18];
    ValueOfZeros(7);
    assert TheBlock()[..3] == Abc();
  }

  lemma FirstWord(t: nat, a: Byte, b: Byte, c: Byte, d: Byte)
    requires t < 16 && TheBlock()[4 * t..4 * t + 4] == [a, b, c, d]
    ensures Schedule(TheBlock(), t) == WordOf([a, b, c, d])
  {
    hide TheBlock, WordOf;
  }

  lemma ZeroWord(t: nat)
    requires 0 < t < 15
    ensures Schedule(TheBlock(), t) == 0
  {
    hide Schedule, WordOf;
    assert TheBlock()[4 * t..4 * t + 4] == [0, 0, 0, 0];
    FirstWord(t, 0, 0, 0, 0);
    ThreeWords();
  }

  // ---------- the message schedule ----------

  datatype Eight = Eight(w0: Word, w1: Word, w2: Word, w3: Word, w4: Word, w5: Word, w6: Word, w7: Word)

  /** W_t to W_(t+7). */
  ghost predicate Words(t: nat, e: Eight) {
    && Schedule(TheBlock(), t) == e.w0 && Schedule(TheBlock(), t + 1) == e.w1
    && Schedule(TheBlock(), t + 2) == e.w2 && Schedule(TheBlock(), t + 3) == e.w3
    && Schedule(TheBlock(), t + 4) == e.w4 && Schedule(TheBlock(), t + 5) == e.w5
    && Schedule(TheBlock(), t + 6) == e.w6 && Schedule(TheBlock(), t + 7) == e.w7
  }

  function Mix(x: Word, y: Word, z: Word, u: Word): Word {
    Rotl(Xor4(x, y, z, u), 1)
  }

  /** Eight words from the sixteen before them. */
  function Next(p: Eight, q: Eight): Eight {
    var a := Mix(q.w5, q.w0, p.w2, p.w0);
    var b := Mix(q.w6, q.w1, p.w3, p.w1);
    var c := Mix(q.w7, q.w2, p.w4, p.w2);
    var d := Mix(a, q.w3, p.w5, p.w3);
    var e := Mix(b, q.w4, p.w6, p.w4);
    Eight(a, b, c, d, e, Mix(c, q.w5, p.w7, p.w5), Mix(d, q.w6, q.w0, p.w6), Mix(e, q.w7, q.w1, p.w7))
  }

  lemma NextWord(t: nat)
    requires t >= 16
    ensures Schedule(TheBlock(), t) == Mix(Schedule(TheBlock(), t - 3), Schedule(TheBlock(), t - 8),
                                           Schedule(TheBlock(), t - 14), Schedule(TheBlock(), t - 16))
  {
    hide Rotl, Xor4, WordAt;
  }

  lemma NextWords(t: nat, p: Eight, q: Eight)
    requires t >= 16 && Words(t - 16, p) && Words(t - 8, q)
    ensures Words(t, Next(p, q))
  {
    hide Schedule, Mix;
    NextWord(t);
    NextWord(t + 1);
    NextWord(t + 2);
    NextWord(t + 3);
    NextWord(t + 4);
    NextWord(t + 5);
    NextWord(t + 6);
    NextWord(t + 7);
  }

  lemma ThreeWords()
    ensures WordOf([0, 0, 0, 0]) == 0 && WordOf([0, 0, 0, 0x18]) == 0x18
    ensures WordOf([0x61, 0x62, 0x63, 0x80]) == 0x61626380
  {
    hide Value;
    ValueOfFour(0, 0, 0, 0);
    ValueOfFour(0, 0, 0, 0x18);
    ValueOfFour(0x61, 0x62, 0x63, 0x80);
  }

  lemma WordZero()
    ensures Schedule(TheBlock(), 0) == 0x61626380
  {
    hide Schedule, WordOf;
    ThreeWords();
    FirstWord(0, 0x61, 0x62, 0x63, 0x80);
  }

  lemma WordFifteen()
    ensures Schedule(TheBlock(), 15) == 0x18
  {
    hide Schedule, WordOf;
    assert TheBlock()[60..64] == [0, 0, 0, 0x18];
    ThreeWords();
    FirstWord(15, 0, 0, 0, 0x18);
  }

  lemma Words0()
    ensures Words(0, Eight(0x61626380, 0, 0, 0, 0, 0, 0, 0))
  {
    hide Schedule;
    WordZero();
    ZeroWord(1);
    ZeroWord(2);
    ZeroWord(3);
    ZeroWord(4);
    ZeroWord(5);
    ZeroWord(6);
    ZeroWord(7);
  }

  lemma Words8()
    ensures Words(8, Eight(0, 0, 0, 0, 0, 0, 0, 0x00000018))
  {
    hide Schedule;
    WordFifteen();
    forall t | 8 <= t < 15 ensures Schedule(TheBlock(), t) == 0 { ZeroWord(t); }
  }

  lemma Words16()
    ensures Words(16, Eight(0xc2c4c700, 0, 0x00000030, 0x85898e01, 0, 0x00000060, 0x0b131c03, 0x00000030))
  {
    hide Words;
    Words0();
    Words8();
    NextWords(16, Eight(0x61626380, 0, 0, 0, 0, 0, 0, 0),
              Eight(0, 0, 0, 0, 0, 0, 0, 0x00000018));
  }

  lemma Words24()
    ensures Words(24, Eight(0x85898ec1, 0x16263806, 0, 0x00000180, 0x2c4c700c, 0x000000f0, 0x93afb507, 0x5898e048))
  {
    hide Words;
    Words8();
    Words16();
    NextWords(24, Eight(0, 0, 0, 0, 0, 0, 0, 0x00000018),
              Eight(0xc2c4c700, 0, 0x00000030, 0x85898e01, 0, 0x00000060, 0x0b131c03, 0x00000030));
  }

  lemma Words32()
    ensures Words(32,
                  Eight(0x8e9a9202, 0x00000600, 0xb131c0f0, 0x16263bc6, 0x4ebed41e, 0x626380a1, 0x16263806, 0x000018c0))
  {
    hide Words;
    Words16();
    Words24();
    NextWords(32, Eight(0xc2c4c700, 0, 0x00000030, 0x85898e01, 0, 0x00000060, 0x0b131c03, 0x00000030),
              Eight(0x85898ec1, 0x16263806, 0, 0x00000180, 0x2c4c700c, 0x000000f0, 0x93afb507, 0x5898e048));
  }

  lemma Words40()
    ensures Words(40,
                  Eight(0xd2e138c4, 0x00000f00, 0x3afb5079, 0x898e04e5, 0xe2ba3c2b, 0x000060c0, 0x053a37cd, 0x74458547))
  {
    hide Words;
    Words24();
    Words32();
    NextWords(40, Eight(0x85898ec1, 0x16263806, 0, 0x00000180, 0x2c4c700c, 0x000000f0, 0x93afb507, 0x5898e048),
              Eight(0x8e9a9202, 0x00000600, 0xb131c0f0, 0x16263bc6, 0x4ebed41e, 0x626380a1, 0x16263806, 0x000018c0));
  }

  lemma Words48()
    ensures Words(48,
                  Eight(0xda9415ed, 0x26380a16, 0x626383a1, 0x4ebf54de, 0x3835b44b, 0x0000f600, 0x1e84c7a3, 0x98e04d98))
  {
    hide Words;
    Words32();
    Words40();
    NextWords(48, Eight(0x8e9a9202, 0x00000600, 0xb131c0f0, 0x16263bc6, 0x4ebed41e, 0x626380a1, 0x16263806, 0x000018c0),
              Eight(0xd2e138c4, 0x00000f00, 0x3afb5079, 0x898e04e5, 0xe2ba3c2b, 0x000060c0, 0x053a37cd, 0x74458547));
  }

  lemma Words56()
    ensures Words(56,
                  Eight(0x651d16a0, 0x62658ca1, 0x458544d6, 0x44584cb7, 0x7ba06619, 0x6380aea2, 0x0ae55269, 0x627b49a1))
  {
    hide Words;
    Words40();
    Words48();
    NextWords(56, Eight(0xd2e138c4, 0x00000f00, 0x3afb5079, 0x898e04e5, 0xe2ba3c2b, 0x000060c0, 0x053a37cd, 0x74458547),
              Eight(0xda9415ed, 0x26380a16, 0x626383a1, 0x4ebf54de, 0x3835b44b, 0x0000f600, 0x1e84c7a3, 0x98e04d98));
  }

  lemma Words64()
    ensures Words(64,
                  Eight(0x7cd45c9d, 0x000f0000, 0xfb50753a, 0xec6765e8, 0xba3c2be2, 0x0060c000, 0x3a37cd05, 0x458546f4))
  {
    hide Words;
    Words48();
    Words56();
    NextWords(64, Eight(0xda9415ed, 0x26380a16, 0x626383a1, 0x4ebf54de, 0x3835b44b, 0x0000f600, 0x1e84c7a3, 0x98e04d98),
              Eight(0x651d16a0, 0x62658ca1, 0x458544d6, 0x44584cb7, 0x7ba06619, 0x6380aea2, 0x0ae55269, 0x627b49a1));
  }

  lemma Words72()
    ensures Words(72,
                  Eight(0xb8599dd6, 0x380a1a26, 0x01e02203, 0xe7cc3456, 0xe6e60b69, 0x00f60a00, 0x5795ef4f, 0x822e0879))
  {
    hide Words;
    Words56();
    Words64();
    NextWords(72, Eight(0x651d16a0, 0x62658ca1, 0x458544d6, 0x44584cb7, 0x7ba06619, 0x6380aea2, 0x0ae55269, 0x627b49a1),
              Eight(0x7cd45c9d, 0x000f0000, 0xfb50753a, 0xec6765e8, 0xba3c2be2, 0x0060c000, 0x3a37cd05, 0x458546f4));
  }

  // ---------- the rounds ----------

  function After(t: nat): State {
    Rounds(INITIAL_HASH, TheBlock(), t)
  }

  /** One round, from the values of its functions. */
  lemma NextRound(t: nat, a: Word, b: Word, c: Word, d: Word, e: Word, w: Word,
                  r: Word, f: Word, sum: Word, turned: Word)
    requires After(t) == State(a, b, c, d, e) && Schedule(TheBlock(), t) == w
    requires Rotl(a, 5) == r && F(t, b, c, d) == f && Sum5(r, f, e, K(t), w) == sum && Rotl(b, 30) == turned
    ensures After(t + 1) == State(sum, a, turned, c, d)
  {
    hide Rotl, F, Sum5, K, Schedule;
  }

  /** A round whose word is zero. */
  lemma ZeroRound(t: nat, a: Word, b: Word, c: Word, d: Word, e: Word, r: Word, f: Word, sum: Word, turned: Word)
    requires 0 < t < 15 && After(t) == State(a, b, c, d, e)
    requires Rotl(a, 5) == r && F(t, b, c, d) == f && Sum5(r, f, e, K(t), 0) == sum && Rotl(b, 30) == turned
    ensures After(t + 1) == State(sum, a, turned, c, d)
  {
    hide Rotl, F, Sum5, K, Schedule, After;
    ZeroWord(t);
    NextRound(t, a, b, c, d, e, 0, r, f, sum, turned);
  }

  lemma After0()
    ensures After(0) == State(0x67452301, 0xefcdab89, 0x98badcfe, 0x10325476, 0xc3d2e1f0)
  {
  }

  lemma After8()
    ensures After(8) == State(0x9e8c07d4, 0x993e30c1, 0x0ff1f290, 0xb3f52677, 0xf3763846)
  {
    hide After, Schedule;
    WordZero();
    After0();
    NextRound(0, 0x67452301, 0xefcdab89, 0x98badcfe, 0x10325476, 0xc3d2e1f0, 0x61626380,
              0xe8a4602c, 0x98badcfe, 0x0116fc33, 0x7bf36ae2);
    ZeroRound(1, 0x0116fc33, 0x67452301, 0x7bf36ae2, 0x98badcfe, 0x10325476,
              0x22df8660, 0xfbfbfefe, 0x8990536d, 0x59d148c0);
    ZeroRound(2, 0x8990536d, 0x0116fc33, 0x59d148c0, 0x7bf36ae2, 0x98badcfe,
              0x320a6db1, 0x7bf14ac0, 0xa1390f08, 0xc045bf0c);
    ZeroRound(3, 0xa1390f08, 0x8990536d, 0xc045bf0c, 0x59d148c0, 0x7bf36ae2,
              0x2721e114, 0xd0411b8c, 0xcdd8e11b, 0x626414db);
    ZeroRound(4, 0xcdd8e11b, 0xa1390f08, 0x626414db, 0xc045bf0c, 0x59d148c0,
              0xbb1c2379, 0x6064b40c, 0xcfd499de, 0x284e43c2);
    ZeroRound(5, 0xcfd499de, 0xcdd8e11b, 0x284e43c2, 0x626414db, 0xc045bf0c,
              0xfa933bd9, 0x2a6c55c2, 0x3fc7ca40, 0xf3763846);
    ZeroRound(6, 0x3fc7ca40, 0xcfd499de, 0xf3763846, 0x284e43c2, 0x626414db,
              0xf8f94807, 0xe35e5a46, 0x993e30c1, 0xb3f52677);
    ZeroRound(7, 0x993e30c1, 0x3fc7ca40, 0xb3f52677, 0xf3763846, 0x284e43c2,
              0x27c61833, 0xf3f53246, 0x9e8c07d4, 0x0ff1f290);
  }

  lemma After16()
    ensures After(16) == State(0x20bdd62f, 0x196bee77, 0x644a3da5, 0x1181ed99, 0x18c623f9)
  {
    hide After, Schedule;
    WordFifteen();
    After8();
    ZeroRound(8, 0x9e8c07d4, 0x993e30c1, 0x0ff1f290, 0xb3f52677, 0xf3763846,
              0xd180fa93, 0x2bf136b6, 0x4b6ae328, 0x664f8c30);
    ZeroRound(9, 0x4b6ae328, 0x9e8c07d4, 0x664f8c30, 0x0ff1f290, 0xb3f52677,
              0x6d5c6509, 0x077df410, 0x8351f929, 0x27a301f5);
    ZeroRound(10, 0x8351f929, 0x4b6ae328, 0x27a301f5, 0x664f8c30, 0x0ff1f290,
              0x6a3f2530, 0x27270d30, 0xfbda9e89, 0x12dab8ca);
    ZeroRound(11, 0xfbda9e89, 0x8351f929, 0x12dab8ca, 0x27a301f5, 0x664f8c30,
              0x7b53d13f, 0x26f2b8dc, 0x63188fe4, 0x60d47e4a);
    ZeroRound(12, 0x63188fe4, 0xfbda9e89, 0x60d47e4a, 0x12dab8ca, 0x27a301f5,
              0x6311fc8c, 0x60d03e4a, 0x4607b664, 0x7ef6a7a2);
    ZeroRound(13, 0x4607b664, 0x63188fe4, 0x7ef6a7a2, 0x60d47e4a, 0x12dab8ca,
              0xc0f6cc88, 0x62d4f7aa, 0x9128f695, 0x18c623f9);
    ZeroRound(14, 0x9128f695, 0x4607b664, 0x18c623f9, 0x7ef6a7a2, 0x60d47e4a,
              0x251ed2b2, 0x38f623e2, 0x196bee77, 0x1181ed99);
    NextRound(15, 0x196bee77, 0x9128f695, 0x1181ed99, 0x18c623f9, 0x7ef6a7a2, 0x00000018,
              0x2d7dcee3, 0x19c6e5f9, 0x20bdd62f, 0x644a3da5);
  }

  lemma After24()
    ensures After(24) == State(0xd541f12d, 0x21283486, 0x0ce88eff, 0x868dec32, 0x7f67875f)
  {
    hide After, Schedule;
    Words16();
    After16();
    NextRound(16, 0x20bdd62f, 0x196bee77, 0x644a3da5, 0x1181ed99, 0x18c623f9, 0xc2c4c700,
              0x17bac5e4, 0x00ca2dad, 0x4e925823, 0xc65afb9d);
    NextRound(17, 0x4e925823, 0x20bdd62f, 0xc65afb9d, 0x644a3da5, 0x1181ed99, 0x00000000,
              0xd24b0469, 0x445afb8d, 0x82aa6728, 0xc82f758b);
    NextRound(18, 0x82aa6728, 0x4e925823, 0xc82f758b, 0xc65afb9d, 0x644a3da5, 0x00000030,
              0x554ce510, 0xc84af39f, 0xdc64901d, 0xd3a49608);
    NextRound(19, 0xdc64901d, 0x82aa6728, 0xd3a49608, 0xc82f758b, 0xc65afb9d, 0x85898e01,
              0x8c9203bb, 0xcaa5168b, 0xfd9e1d7d, 0x20aa99ca);
    NextRound(20, 0xfd9e1d7d, 0xdc64901d, 0x20aa99ca, 0xd3a49608, 0xc82f758b, 0x00000000,
              0xb3c3afbf, 0x2f6a9fdf, 0x1a37b0ca, 0x77192407);
    NextRound(21, 0x1a37b0ca, 0xfd9e1d7d, 0x77192407, 0x20aa99ca, 0xd3a49608, 0x00000060,
              0x46f61943, 0xaa2da0b0, 0x33a23bfc, 0x7f67875f);
    NextRound(22, 0x33a23bfc, 0x1a37b0ca, 0x7f67875f, 0x77192407, 0x20aa99ca, 0x0b131c03,
              0x74477f86, 0x12491392, 0x21283486, 0x868dec32);
    NextRound(23, 0x21283486, 0x33a23bfc, 0x868dec32, 0x7f67875f, 0x77192407, 0x00000030,
              0x250690c4, 0xca485091, 0xd541f12d, 0x0ce88eff);
  }

  lemma After32()
    ensures After(32) == State(0x3b845d33, 0x1267b407, 0x717eebd7, 0xa0dc2d4b, 0xd2aa1365)
  {
    hide After, Schedule;
    Words24();
    After24();
    NextRound(24, 0xd541f12d, 0x21283486, 0x0ce88eff, 0x868dec32, 0x7f67875f, 0x85898ec1,
              0xa83e25ba, 0xab4d564b, 0xc7567dc6, 0x884a0d21);
    NextRound(25, 0xc7567dc6, 0xd541f12d, 0x884a0d21, 0x0ce88eff, 0x868dec32, 0x16263806,
              0xeacfb8d8, 0x51e372f3, 0x48413ba4, 0x75507c4b);
    NextRound(26, 0x48413ba4, 0xc7567dc6, 0x75507c4b, 0x884a0d21, 0x0ce88eff, 0x00000000,
              0x08277489, 0x3a4c0cac, 0xbe35fbd5, 0xb1d59f71);
    NextRound(27, 0xbe35fbd5, 0x48413ba4, 0xb1d59f71, 0x75507c4b, 0x884a0d21, 0x00000180,
              0xc6bf7ab7, 0x8cc4d89e, 0x4aa84d97, 0x12104ee9);
    NextRound(28, 0x4aa84d97, 0xbe35fbd5, 0x12104ee9, 0xb1d59f71, 0x75507c4b, 0x2c4c700c,
              0x5509b2e9, 0x1df02a4d, 0x8370b52e, 0x6f8d7ef5);
    NextRound(29, 0x8370b52e, 0x4aa84d97, 0x6f8d7ef5, 0x12104ee9, 0xb1d59f71, 0x000000f0,
              0x6e16a5d0, 0x37357d8b, 0xc5fbaf5d, 0xd2aa1365);
    NextRound(30, 0xc5fbaf5d, 0x8370b52e, 0xd2aa1365, 0x6f8d7ef5, 0x12104ee9, 0x93afb507,
              0xbf75ebb8, 0x3e57d8be, 0x1267b407, 0xa0dc2d4b);
    NextRound(31, 0x1267b407, 0xc5fbaf5d, 0xa0dc2d4b, 0xd2aa1365, 0x6f8d7ef5, 0x5898e048,
              0x4cf680e2, 0xb78d9173, 0x3b845d33, 0x717eebd7);
  }

  lemma After40()
    ensures After(40) == State(0x32de1cba, 0x4c986405, 0xf718e5cf, 0x03d447f6, 0xf72eec32)
  {
    hide After, Schedule;
    Words32();
    After32();
    NextRound(32, 0x3b845d33, 0x1267b407, 0x717eebd7, 0xa0dc2d4b, 0xd2aa1365, 0x8e9a9202,
              0x708ba667, 0xc3c5729b, 0x046faa0a, 0xc499ed01);
    NextRound(33, 0x046faa0a, 0x3b845d33, 0xc499ed01, 0x717eebd7, 0xa0dc2d4b, 0x00000600,
              0x8df54140, 0x8e635be5, 0x2c0ebc11, 0xcee1174c);
    NextRound(34, 0x2c0ebc11, 0x046faa0a, 0xcee1174c, 0xc499ed01, 0x717eebd7, 0xb131c0f0,
              0x81d78225, 0x0e175047, 0x21796ad4, 0x811bea82);
    NextRound(35, 0x21796ad4, 0x2c0ebc11, 0x811bea82, 0xcee1174c, 0xc499ed01, 0x16263bc6,
              0x2f2d5a84, 0x63f441df, 0xdcbbb0cb, 0x4b03af04);
    NextRound(36, 0xdcbbb0cb, 0x21796ad4, 0x4b03af04, 0x811bea82, 0xcee1174c, 0x4ebed41e,
              0x9776197b, 0xeb612f52, 0x0f511fd8, 0x085e5ab5);
    NextRound(37, 0x0f511fd8, 0xdcbbb0cb, 0x085e5ab5, 0x4b03af04, 0x811bea82, 0x626380a1,
              0xea23fb01, 0x9fe6457a, 0xdc63973f, 0xf72eec32);
    NextRound(38, 0xdc63973f, 0x0f511fd8, 0xf72eec32, 0x085e5ab5, 0x4b03af04, 0x16263806,
              0x8c72e7fb, 0xf021a95f, 0x4c986405, 0x03d447f6);
    NextRound(39, 0x4c986405, 0xdc63973f, 0x03d447f6, 0xf72eec32, 0x085e5ab5, 0x000018c0,
              0x930c80a9, 0x28993cfb, 0x32de1cba, 0xf718e5cf);
  }

  lemma After48()
    ensures After(48) == State(0xbead02ca, 0xa01b846c, 0x8714787c, 0x503ca382, 0xfb86c6ab)
  {
    hide After, Schedule;
    Words40();
    After40();
    NextRound(40, 0x32de1cba, 0x4c986405, 0xf718e5cf, 0x03d447f6, 0xf72eec32, 0xd2e138c4,
              0x5bc39746, 0x479865c7, 0xfc87dedf, 0x53261901);
    NextRound(41, 0xfc87dedf, 0x32de1cba, 0x53261901, 0xf718e5cf, 0x03d447f6, 0x00000f00,
              0x90fbdbff, 0x731e1d8b, 0x970a0d5c, 0x8cb7872e);
    NextRound(42, 0x970a0d5c, 0xfc87dedf, 0x8cb7872e, 0x53261901, 0xf718e5cf, 0x3afb5079,
              0xe141ab92, 0xdca79f0f, 0x7f193dc5, 0xff21f7b7);
    NextRound(43, 0x7f193dc5, 0x970a0d5c, 0xff21f7b7, 0x8cb7872e, 0x53261901, 0x898e04e5,
              0xe327b8af, 0x9f23873e, 0xee1b1aaf, 0x25c28357);
    NextRound(44, 0xee1b1aaf, 0x7f193dc5, 0x25c28357, 0xff21f7b7, 0x8cb7872e, 0xe2ba3c2b,
              0xc36355fd, 0x7f01b7d7, 0x40f28e09, 0x5fc64f71);
    NextRound(45, 0x40f28e09, 0xee1b1aaf, 0x5fc64f71, 0x25c28357, 0xff21f7b7, 0x000060c0,
              0x1e51c128, 0x6fc20b77, 0x1c51e1f2, 0xfb86c6ab);
    NextRound(46, 0x1c51e1f2, 0x40f28e09, 0xfb86c6ab, 0x5fc64f71, 0x25c28357, 0x053a37cd,
              0x8a3c3e43, 0x5bc6ce29, 0xa01b846c, 0x503ca382);
    NextRound(47, 0xa01b846c, 0x1c51e1f2, 0x503ca382, 0xfb86c6ab, 0x5fc64f71, 0x74458547,
              0x03708d94, 0x5814e3a2, 0xbead02ca, 0x8714787c);
  }

  lemma After56()
    ensures After(56) == State(0x5e6456af, 0x7b71f76d, 0x09fa7c76, 0x792410db, 0x8e11eb59)
  {
    hide After, Schedule;
    Words48();
    After48();
    NextRound(48, 0xbead02ca, 0xa01b846c, 0x8714787c, 0x503ca382, 0xfb86c6ab, 0xda9415ed,
              0xd5a05957, 0x801ca06c, 0xbaf39337, 0x2806e11b);
    NextRound(49, 0xbaf39337, 0xbead02ca, 0x2806e11b, 0x8714787c, 0x503ca382, 0x26380a16,
              0x5e7266f7, 0xae04605a, 0x120731c5, 0xafab40b2);
    NextRound(50, 0x120731c5, 0xbaf39337, 0xafab40b2, 0x2806e11b, 0x8714787c, 0x626383a1,
              0x40e638a2, 0xaaa3c133, 0x641db2ce, 0xeebce4cd);
    NextRound(51, 0x641db2ce, 0x120731c5, 0xeebce4cd, 0xafab40b2, 0x2806e11b, 0x4ebf54de,
              0x83b659cc, 0xaeaf60c5, 0x3847ad66, 0x4481cc71);
    NextRound(52, 0x3847ad66, 0x641db2ce, 0x4481cc71, 0xeebce4cd, 0xafab40b2, 0x3835b44b,
              0x08f5acc7, 0x649de4cd, 0xe490436d, 0x99076cb3);
    NextRound(53, 0xe490436d, 0x3847ad66, 0x99076cb3, 0x4481cc71, 0xeebce4cd, 0x0000f600,
              0x92086dbc, 0x1807ec73, 0x27e9f1d8, 0x8e11eb59);
    NextRound(54, 0x27e9f1d8, 0xe490436d, 0x8e11eb59, 0x99076cb3, 0x4481cc71, 0x1e84c7a3,
              0xfd3e3b04, 0x8c116b79, 0x7b71f76d, 0x792410db);
    NextRound(55, 0x7b71f76d, 0x27e9f1d8, 0x792410db, 0x8e11eb59, 0x99076cb3, 0x98e04d98,
              0x6e3eedaf, 0x2f21f1d9, 0x5e6456af, 0x09fa7c76);
  }

  lemma After64()
    ensures After(64) == State(0x6b61c9e1, 0xb66c020b, 0x9523272c, 0xf5d5b051, 0x8fd4b796)
  {
    hide After, Schedule;
    Words56();
    After56();
    NextRound(56, 0x5e6456af, 0x7b71f76d, 0x09fa7c76, 0x792410db, 0x8e11eb59, 0x651d16a0,
              0xcc8ad5eb, 0x7970747f, 0xc846093f, 0x5edc7ddb);
    NextRound(57, 0xc846093f, 0x5e6456af, 0x5edc7ddb, 0x09fa7c76, 0x792410db, 0x62658ca1,
              0x08c127f9, 0x5efc7cff, 0xd262ff50, 0xd79915ab);
    NextRound(58, 0xd262ff50, 0xc846093f, 0xd79915ab, 0x5edc7ddb, 0x09fa7c76, 0x458544d6,
              0x4c5fea1a, 0xdedc1dbb, 0x09d785fd, 0xf211824f);
    NextRound(59, 0x09d785fd, 0xd262ff50, 0xf211824f, 0xd79915ab, 0x5edc7ddb, 0x44584cb7,
              0x3af0bfa1, 0xd211974b, 0x3f52de5a, 0x3498bfd4);
    NextRound(60, 0x3f52de5a, 0x09d785fd, 0x3498bfd4, 0xf211824f, 0xd79915ab, 0x7ba06619,
              0xea5bcb47, 0xcf5eb866, 0xd756c147, 0x4275e17f);
    NextRound(61, 0xd756c147, 0x3f52de5a, 0x4275e17f, 0x3498bfd4, 0xf211824f, 0x6380aea2,
              0xead828fa, 0x49bf80f1, 0x548c9cb2, 0x8fd4b796);
    NextRound(62, 0x548c9cb2, 0xd756c147, 0x8fd4b796, 0x4275e17f, 0x3498bfd4, 0x0ae55269,
              0x9193964a, 0x1af797ae, 0xb66c020b, 0xf5d5b051);
    NextRound(63, 0xb66c020b, 0x548c9cb2, 0xf5d5b051, 0x8fd4b796, 0x4275e17f, 0x627b49a1,
              0xcd804176, 0x2e8d9b75, 0x6b61c9e1, 0x9523272c);
  }

  lemma After72()
    ensures After(72) == State(0x39859de7, 0xc199f8c7, 0x8fc96230, 0x125c24f0, 0xde37534a)
  {
    hide After, Schedule;
    Words64();
    After64();
    NextRound(64, 0x6b61c9e1, 0xb66c020b, 0x9523272c, 0xf5d5b051, 0x8fd4b796, 0x7cd45c9d,
              0x6c393c2d, 0xd69a9576, 0x19dfa7ac, 0xed9b0082);
    NextRound(65, 0x19dfa7ac, 0x6b61c9e1, 0xed9b0082, 0x9523272c, 0xf5d5b051, 0x000f0000,
              0x3bf4f583, 0x13d9ee4f, 0x101655f9, 0x5ad87278);
    NextRound(66, 0x101655f9, 0x19dfa7ac, 0x5ad87278, 0xed9b0082, 0x9523272c, 0xfb50753a,
              0x02cabf22, 0xae9cd556, 0x0c3df2b4, 0x0677e9eb);
    NextRound(67, 0x0c3df2b4, 0x101655f9, 0x0677e9eb, 0x5ad87278, 0xed9b0082, 0xec6765e8,
              0x87be5681, 0x4cb9ce6a, 0x78dd4d2b, 0x4405957e);
    NextRound(68, 0x78dd4d2b, 0x0c3df2b4, 0x4405957e, 0x0677e9eb, 0x5ad87278, 0xba3c2be2,
              0x1ba9a56f, 0x4e4f8e21, 0x497093c0, 0x030f7cad);
    NextRound(69, 0x497093c0, 0x78dd4d2b, 0x030f7cad, 0x4405957e, 0x0677e9eb, 0x0060c000,
              0x2e127809, 0x3fd7a4f8, 0x3f2588c2, 0xde37534a);
    NextRound(70, 0x3f2588c2, 0x497093c0, 0xde37534a, 0x030f7cad, 0x4405957e, 0x3a37cd05,
              0xe4b11847, 0x9448bc27, 0xc199f8c7, 0x125c24f0);
    NextRound(71, 0xc199f8c7, 0x3f2588c2, 0x125c24f0, 0xde37534a, 0x030f7cad, 0x458546f4,
              0x333f18f8, 0xf34eff78, 0x39859de7, 0x8fc96230);
  }

  lemma After80()
    ensures After(80) == State(0x42541b35, 0x5738d5e1, 0x21834873, 0x681e6df6, 0xd8fdf6ad)
  {
    hide After, Schedule;
    Words72();
    After72();
    NextRound(72, 0x39859de7, 0xc199f8c7, 0x8fc96230, 0x125c24f0, 0xde37534a, 0xb8599dd6,
              0x30b3bce7, 0x5c0cbe07, 0xedb42de4, 0xf0667e31);
    NextRound(73, 0xedb42de4, 0x39859de7, 0xf0667e31, 0x8fc96230, 0x125c24f0, 0x380a1a26,
              0xb685bc9d, 0x462a81e6, 0x11793f6f, 0xce616779);
    NextRound(74, 0x11793f6f, 0xedb42de4, 0xce616779, 0xf0667e31, 0x8fc96230, 0x01e02203,
              0x2f27ede2, 0xd3b334ac, 0x5ee76897, 0x3b6d0b79);
    NextRound(75, 0x5ee76897, 0x11793f6f, 0x3b6d0b79, 0xce616779, 0xf0667e31, 0xe7cc3456,
              0xdced12eb, 0xe475536f, 0x63f7dab7, 0xc45e4fdb);
    NextRound(76, 0x63f7dab7, 0x5ee76897, 0xc45e4fdb, 0x3b6d0b79, 0xce616779, 0xe6e60b69,
              0x7efb56ec, 0xa1d42c35, 0xa079b7d9, 0xd7b9da25);
    NextRound(77, 0xa079b7d9, 0x63f7dab7, 0xd7b9da25, 0xc45e4fdb, 0x3b6d0b79, 0x00f60a00,
              0x0f36fb34, 0x70104f49, 0x860d21cc, 0xd8fdf6ad);
    NextRound(78, 0x860d21cc, 0xa079b7d9, 0xd8fdf6ad, 0xd7b9da25, 0xc45e4fdb, 0x5795ef4f,
              0xc1a43990, 0xaf3d9b51, 0x5738d5e1, 0x681e6df6);
    NextRound(79, 0x5738d5e1, 0x860d21cc, 0x681e6df6, 0xd8fdf6ad, 0xd7b9da25, 0x822e0879,
              0xe71abc2a, 0x36eeba97, 0x42541b35, 0x21834873);
  }

  lemma HashOfAbc()
    ensures HashAfter(TheBlock(), 1) ==
            State(0xa9993e36, 0x4706816a, 0xba3e2571, 0x7850c26c, 0x9cd0d89d)
  {
    hide Rounds;
    After80();
    assert Block(TheBlock(), 0) == TheBlock();
    assert HashAfter(TheBlock(), 0) == INITIAL_HASH;
  }

  /** The published digest. */
  lemma DigestOfAbc()
    ensures IsDigest(Abc(), Digest())
  {
    hide HashAfter, Value;
    PaddedAbc();
    HashOfAbc();
    var d := Digest();
    assert d[0..4] == [d[0], d[1], d[2], d[3]];
    ValueOfFour(d[0], d[1], d[2], d[3]);
    assert d[4..8] == [d[4], d[5], d[6], d[7]];
    ValueOfFour(d[4], d[5], d[6], d[7]);
    assert d[8..12] == [d[8], d[9], d[10], d[11]];
    ValueOfFour(d[8], d[9], d[10], d[11]);
    assert d[12..16] == [d[12], d[13], d[14], d[15]];
    ValueOfFour(d[12], d[13], d[14], d[15]);
    assert d[16..20] == [d[16], d[17], d[18], d[19]];
    ValueOfFour(d[16], d[17], d[18], d[19]);
    assert Spells(d, HashAfter(TheBlock(), 1));
  }
}
