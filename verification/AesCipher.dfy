/** AES-256 on one block and in CBC mode, and its inversion. */
module AesCipher {
  import opened AesBlock

  const ROUNDS: nat := 14
  const KEY_SCHEDULE_BYTES: nat := 240

  function RoundKey(w: Bytes, round: nat): (k: Bytes)
    requires |w| == KEY_SCHEDULE_BYTES && round <= ROUNDS
    ensures |k| == 16
  {
    w[16 * round..16 * round + 16]
  }

  // ---------- one block ----------

  function Round(w: Bytes, s: Bytes, round: nat): (r: Bytes)
    requires |w| == KEY_SCHEDULE_BYTES && |s| == 16 && round <= ROUNDS
    ensures |r| == 16
  {
    AddRoundKey(MixColumns(ShiftRows(SubBytes(s))), RoundKey(w, round))
  }

  function InvRound(w: Bytes, s: Bytes, round: nat): (r: Bytes)
    requires |w| == KEY_SCHEDULE_BYTES && |s| == 16 && round <= ROUNDS
    ensures |r| == 16
  {
    InvSubBytes(InvShiftRows(InvMixColumns(AddRoundKey(s, RoundKey(w, round)))))
  }

  /** Rounds 1 to n. */
  function Rounds(w: Bytes, s: Bytes, n: nat): (r: Bytes)
    requires |w| == KEY_SCHEDULE_BYTES && |s| == 16 && n < ROUNDS
    ensures |r| == 16
  {
    if n == 0 then s else Round(w, Rounds(w, s, n - 1), n)
  }

  /** Rounds n down to 1, undone. */
  function InvRounds(w: Bytes, s: Bytes, n: nat): (r: Bytes)
    requires |w| == KEY_SCHEDULE_BYTES && |s| == 16 && n < ROUNDS
    ensures |r| == 16
    decreases n
  {
    if n == 0 then s else InvRounds(w, InvRound(w, s, n), n - 1)
  }

  /** The cipher of section 5.1 of FIPS 197. */
  function Cipher(w: Bytes, s: Bytes): (r: Bytes)
    requires |w| == KEY_SCHEDULE_BYTES && |s| == 16
    ensures |r| == 16
  {
    var t := Rounds(w, AddRoundKey(s, RoundKey(w, 0)), ROUNDS - 1);
    AddRoundKey(ShiftRows(SubBytes(t)), RoundKey(w, ROUNDS))
  }

  function InvCipher(w: Bytes, s: Bytes): (r: Bytes)
    requires |w| == KEY_SCHEDULE_BYTES && |s| == 16
    ensures |r| == 16
  {
    var t := InvSubBytes(InvShiftRows(AddRoundKey(s, RoundKey(w, ROUNDS))));
    AddRoundKey(InvRounds(w, t, ROUNDS - 1), RoundKey(w, 0))
  }

  /** Round n of the thirteen equal ones, written out: section 5.1 of FIPS 197 for a key schedule of 240 bytes. */
  lemma RoundWrittenOut(w: Bytes, s: Bytes, n: nat)
    requires |w| == 240 && |s| == 16 && 1 <= n <= 13
    ensures Rounds(w, s, n) == AddRoundKey(MixColumns(ShiftRows(SubBytes(Rounds(w, s, n - 1)))), w[16 * n..16 * n + 16])
  {
    hide AddRoundKey, MixColumns, ShiftRows, SubBytes;
  }

  /** The first addition, thirteen equal rounds, and the last one without MixColumns. */
  lemma CipherWrittenOut(w: Bytes, s: Bytes)
    requires |w| == 240 && |s| == 16
    ensures Rounds(w, s, 0) == s
    ensures Cipher(w, s) == AddRoundKey(ShiftRows(SubBytes(Rounds(w, AddRoundKey(s, w[0..16]), 13))), w[224..240])
  {
    hide AddRoundKey, MixColumns, ShiftRows, SubBytes;
  }

  lemma RoundInverse(w: Bytes, s: Bytes, round: nat)
    requires |w| == KEY_SCHEDULE_BYTES && |s| == 16 && round <= ROUNDS
    ensures InvRound(w, Round(w, s, round), round) == s && Round(w, InvRound(w, s, round), round) == s
  {
    hide AddRoundKey, MixColumns, InvMixColumns, ShiftRows, InvShiftRows, SubBytes, InvSubBytes, RoundKey;
    var k := RoundKey(w, round);
    SubBytesInverse(s);
    ShiftRowsInverse(SubBytes(s));
    MixColumnsInverse(ShiftRows(SubBytes(s)));
    AddRoundKeyTwice(MixColumns(ShiftRows(SubBytes(s))), k);
    var t := AddRoundKey(s, k);
    AddRoundKeyTwice(s, k);
    MixColumnsInverse(t);
    ShiftRowsInverse(InvMixColumns(t));
    SubBytesInverse(InvShiftRows(InvMixColumns(t)));
  }

  lemma {:induction false} RoundsInverse(w: Bytes, s: Bytes, n: nat)
    requires |w| == KEY_SCHEDULE_BYTES && |s| == 16 && n < ROUNDS
    ensures InvRounds(w, Rounds(w, s, n), n) == s && Rounds(w, InvRounds(w, s, n), n) == s
    decreases n
  {
    hide Round, InvRound;
    if n > 0 {
      RoundsInverse(w, s, n - 1);
      RoundInverse(w, Rounds(w, s, n - 1), n);
      RoundsInverse(w, InvRound(w, s, n), n - 1);
      RoundInverse(w, s, n);
    }
  }

  /** All 14 rounds are undone, in both orders, for every key schedule and every block. */
  lemma CipherInverse(w: Bytes, s: Bytes)
    requires |w| == KEY_SCHEDULE_BYTES && |s| == 16
    ensures InvCipher(w, Cipher(w, s)) == s && Cipher(w, InvCipher(w, s)) == s
  {
    hide AddRoundKey, ShiftRows, InvShiftRows, SubBytes, InvSubBytes, RoundKey, Rounds, InvRounds;
    var k0, k14 := RoundKey(w, 0), RoundKey(w, ROUNDS);
    var a := AddRoundKey(s, k0);
    var t := Rounds(w, a, ROUNDS - 1);
    AddRoundKeyTwice(ShiftRows(SubBytes(t)), k14);
    ShiftRowsInverse(SubBytes(t));
    SubBytesInverse(t);
    RoundsInverse(w, a, ROUNDS - 1);
    AddRoundKeyTwice(s, k0);
    var b := AddRoundKey(s, k14);
    var u := InvSubBytes(InvShiftRows(b));
    AddRoundKeyTwice(InvRounds(w, u, ROUNDS - 1), k0);
    RoundsInverse(w, u, ROUNDS - 1);
    SubBytesInverse(InvShiftRows(b));
    ShiftRowsInverse(b);
    AddRoundKeyTwice(s, k14);
  }

  // ---------- CBC, section 6.2 of NIST SP 800-38A ----------

  ghost predicate AreBlocks(bs: seq<Bytes>) {
    forall i :: 0 <= i < |bs| ==> |bs[i]| == 16
  }

  /** What block i is chained to: the ciphertext before it, or the initialization vector. */
  function Previous(iv: Bytes, cs: seq<Bytes>, i: nat): Bytes
    requires i <= |cs|
  {
    if i == 0 then iv else cs[i - 1]
  }

  /** cs encrypts ps: C_i = Cipher(P_i xor C_(i-1)). */
  ghost predicate Encrypts(w: Bytes, iv: Bytes, ps: seq<Bytes>, cs: seq<Bytes>)
    requires |w| == KEY_SCHEDULE_BYTES && |iv| == 16
  {
    && AreBlocks(ps) && AreBlocks(cs) && |ps| == |cs|
    && forall i :: 0 <= i < |ps| ==> cs[i] == EncryptOne(w, Previous(iv, cs, i), ps[i])
  }

  /** ps decrypts cs: P_i = InvCipher(C_i) xor C_(i-1). */
  ghost predicate Decrypts(w: Bytes, iv: Bytes, cs: seq<Bytes>, ps: seq<Bytes>)
    requires |w| == KEY_SCHEDULE_BYTES && |iv| == 16
  {
    && AreBlocks(ps) && AreBlocks(cs) && |ps| == |cs|
    && forall i :: 0 <= i < |cs| ==> ps[i] == DecryptOne(w, Previous(iv, cs, i), cs[i])
  }

  function EncryptOne(w: Bytes, prev: Bytes, p: Bytes): (c: Bytes)
    requires |w| == KEY_SCHEDULE_BYTES && |prev| == 16 && |p| == 16
    ensures |c| == 16
  {
    Cipher(w, AddRoundKey(p, prev))
  }

  function DecryptOne(w: Bytes, prev: Bytes, c: Bytes): (p: Bytes)
    requires |w| == KEY_SCHEDULE_BYTES && |prev| == 16 && |c| == 16
    ensures |p| == 16
  {
    AddRoundKey(InvCipher(w, c), prev)
  }

  lemma OneInverse(w: Bytes, prev: Bytes, p: Bytes, c: Bytes)
    requires |w| == KEY_SCHEDULE_BYTES && |prev| == 16 && |p| == 16 && |c| == 16
    ensures c == EncryptOne(w, prev, p) <==> p == DecryptOne(w, prev, c)
  {
    hide Cipher, InvCipher, AddRoundKey;
    CipherInverse(w, AddRoundKey(p, prev));
    AddRoundKeyTwice(p, prev);
    CipherInverse(w, c);
    AddRoundKeyTwice(InvCipher(w, c), prev);
  }

  /** For any number of blocks, ps decrypts cs if and only if cs encrypts ps. */
  lemma CbcInverse(w: Bytes, iv: Bytes, ps: seq<Bytes>, cs: seq<Bytes>)
    requires |w| == KEY_SCHEDULE_BYTES && |iv| == 16
    ensures Encrypts(w, iv, ps, cs) <==> Decrypts(w, iv, cs, ps)
  {
    hide EncryptOne, DecryptOne;
    if AreBlocks(ps) && AreBlocks(cs) && |ps| == |cs| {
      forall i | 0 <= i < |ps|
        ensures cs[i] == EncryptOne(w, Previous(iv, cs, i), ps[i]) <==>
                  ps[i] == DecryptOne(w, Previous(iv, cs, i), cs[i])
      {
        OneInverse(w, Previous(iv, cs, i), ps[i], cs[i]);
      }
    }
  }
}
