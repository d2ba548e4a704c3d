/** `UnverifiedAES256`: the transformations in place, on 16 bytes of a buffer from an offset on. */
module Aes256 {
  import opened AesXor
  import opened AesField
  import opened AesTables
  import AesBlock
  import AesCipher

  type Bytes = AesBlock.Bytes

  /** Everything outside the block at `off` is as it was. */
  ghost predicate SameElsewhere(was: Bytes, now: Bytes, off: nat) {
    |was| == |now| && off + 16 <= |now| &&
    forall i :: 0 <= i < |now| && !(off <= i < off + 16) ==> now[i] == was[i]
  }

  method AddRoundKey(block: array<Byte>, off: nat, key: Bytes)
    requires off + 16 <= block.Length && |key| == 16
    modifies block
    ensures block[off..off + 16] == AesBlock.AddRoundKey(old(block[off..off + 16]), key)
    ensures SameElsewhere(old(block[..]), block[..], off)
  {
    hide Xor;
    for i := 0 to 16
      invariant forall k :: off <= k < off + i ==> block[k] == Xor(old(block[k]), key[k - off])
      invariant forall k :: 0 <= k < block.Length && !(off <= k < off + i) ==> block[k] == old(block[k])
    {
      block[off + i] := Xor(block[off + i], key[i]);
    }
  }

  method SubBytes(block: array<Byte>, off: nat)
    requires off + 16 <= block.Length
    modifies block
    ensures block[off..off + 16] == AesBlock.SubBytes(old(block[off..off + 16]))
    ensures SameElsewhere(old(block[..]), block[..], off)
  {
    hide SBox;
    for i := 0 to 16
      invariant forall k :: off <= k < off + i ==> block[k] == SBox(old(block[k]))
      invariant forall k :: 0 <= k < block.Length && !(off <= k < off + i) ==> block[k] == old(block[k])
    {
      block[off + i] := SBox(block[off + i]);
    }
  }

  method InvSubBytes(block: array<Byte>, off: nat)
    requires off + 16 <= block.Length
    modifies block
    ensures block[off..off + 16] == AesBlock.InvSubBytes(old(block[off..off + 16]))
    ensures SameElsewhere(old(block[..]), block[..], off)
  {
    hide InvSBox;
    for i := 0 to 16
      invariant forall k :: off <= k < off + i ==> block[k] == InvSBox(old(block[k]))
      invariant forall k :: 0 <= k < block.Length && !(off <= k < off + i) ==> block[k] == old(block[k])
    {
      block[off + i] := InvSBox(block[off + i]);
    }
  }

  /** Moves each of four bytes to the place named before it, and the first to the last. */
  method Rotate(block: array<Byte>, a: nat, b: nat, c: nat, d: nat)
    requires a < block.Length && b < block.Length && c < block.Length && d < block.Length
    requires a != b && a != c && a != d && b != c && b != d && c != d
    modifies block
    ensures block[a] == old(block[b]) && block[b] == old(block[c]) && block[c] == old(block[d])
              && block[d] == old(block[a])
    ensures forall k :: 0 <= k < block.Length && k != a && k != b && k != c && k != d ==> block[k] == old(block[k])
  {
    var x := block[a];
    block[a] := block[b];
    block[b] := block[c];
    block[c] := block[d];
    block[d] := x;
  }

  method Swap(block: array<Byte>, a: nat, b: nat)
    requires a < block.Length && b < block.Length && a != b
    modifies block
    ensures block[a] == old(block[b]) && block[b] == old(block[a])
    ensures forall k :: 0 <= k < block.Length && k != a && k != b ==> block[k] == old(block[k])
  {
    block[a], block[b] := block[b], block[a];
  }

  method ShiftRows(block: array<Byte>, off: nat)
    requires off + 16 <= block.Length
    modifies block
    ensures block[off..off + 16] == AesBlock.ShiftRows(old(block[off..off + 16]))
    ensures SameElsewhere(old(block[..]), block[..], off)
  {
    hide AesBlock.ShiftRows, AesBlock.InvShiftRows;
    Rotate(block, off + 1, off + 5, off + 9, off + 13);
    Swap(block, off + 2, off + 10);
    Swap(block, off + 6, off + 14);
    Rotate(block, off + 3, off + 15, off + 11, off + 7);
    ShiftRowsTable(old(block[off..off + 16]), block[off..off + 16]);
  }

  /** ShiftRows byte by byte. */
  lemma ShiftRowsTable(s: Bytes, r: Bytes)
    requires |s| == |r| == 16
    requires r[0] == s[0] && r[1] == s[5] && r[2] == s[10] && r[3] == s[15]
    requires r[4] == s[4] && r[5] == s[9] && r[6] == s[14] && r[7] == s[3]
    requires r[8] == s[8] && r[9] == s[13] && r[10] == s[2] && r[11] == s[7]
    requires r[12] == s[12] && r[13] == s[1] && r[14] == s[6] && r[15] == s[11]
    ensures r == AesBlock.ShiftRows(s)
  {
    hide AesBlock.ShiftIndex;
    ShiftIndices();
  }

  lemma ShiftIndices()
    ensures AesBlock.ShiftIndex(0) == 0 && AesBlock.ShiftIndex(1) == 5 && AesBlock.ShiftIndex(2) == 10
              && AesBlock.ShiftIndex(3) == 15
    ensures AesBlock.ShiftIndex(4) == 4 && AesBlock.ShiftIndex(5) == 9 && AesBlock.ShiftIndex(6) == 14
              && AesBlock.ShiftIndex(7) == 3
    ensures AesBlock.ShiftIndex(8) == 8 && AesBlock.ShiftIndex(9) == 13 && AesBlock.ShiftIndex(10) == 2
              && AesBlock.ShiftIndex(11) == 7
    ensures AesBlock.ShiftIndex(12) == 12 && AesBlock.ShiftIndex(13) == 1 && AesBlock.ShiftIndex(14) == 6
              && AesBlock.ShiftIndex(15) == 11
  {
  }

  method InvShiftRows(block: array<Byte>, off: nat)
    requires off + 16 <= block.Length
    modifies block
    ensures block[off..off + 16] == AesBlock.InvShiftRows(old(block[off..off + 16]))
    ensures SameElsewhere(old(block[..]), block[..], off)
  {
    hide AesBlock.ShiftRows, AesBlock.InvShiftRows;
    Rotate(block, off + 1, off + 13, off + 9, off + 5);
    Swap(block, off + 2, off + 10);
    Swap(block, off + 6, off + 14);
    Rotate(block, off + 3, off + 7, off + 11, off + 15);
    InvShiftRowsTable(old(block[off..off + 16]), block[off..off + 16]);
  }

  lemma InvShiftRowsTable(s: Bytes, r: Bytes)
    requires |s| == |r| == 16
    requires r[0] == s[0] && r[1] == s[13] && r[2] == s[10] && r[3] == s[7]
    requires r[4] == s[4] && r[5] == s[1] && r[6] == s[14] && r[7] == s[11]
    requires r[8] == s[8] && r[9] == s[5] && r[10] == s[2] && r[11] == s[15]
    requires r[12] == s[12] && r[13] == s[9] && r[14] == s[6] && r[15] == s[3]
    ensures r == AesBlock.InvShiftRows(s)
  {
    hide AesBlock.InvShiftIndex;
    InvShiftIndices();
  }

  lemma InvShiftIndices()
    ensures AesBlock.InvShiftIndex(0) == 0 && AesBlock.InvShiftIndex(1) == 13 && AesBlock.InvShiftIndex(2) == 10
              && AesBlock.InvShiftIndex(3) == 7
    ensures AesBlock.InvShiftIndex(4) == 4 && AesBlock.InvShiftIndex(5) == 1 && AesBlock.InvShiftIndex(6) == 14
              && AesBlock.InvShiftIndex(7) == 11
    ensures AesBlock.InvShiftIndex(8) == 8 && AesBlock.InvShiftIndex(9) == 5 && AesBlock.InvShiftIndex(10) == 2
              && AesBlock.InvShiftIndex(11) == 15
    ensures AesBlock.InvShiftIndex(12) == 12 && AesBlock.InvShiftIndex(13) == 9 && AesBlock.InvShiftIndex(14) == 6
              && AesBlock.InvShiftIndex(15) == 3
  {
  }

  // ---------- MixColumns ----------

  ghost function ColumnIn(block: array<Byte>, k: nat): AesBlock.Column
    requires k + 4 <= block.Length
    reads block
  {
    AesBlock.Column(block[k], block[k + 1], block[k + 2], block[k + 3])
  }

  ghost predicate SameOutsideColumn(was: Bytes, now: Bytes, k: nat) {
    |was| == |now| && k + 4 <= |now| &&
    forall i :: 0 <= i < |now| && !(k <= i < k + 4) ==> now[i] == was[i]
  }

  method MixColumnsImpl(block: array<Byte>, k: nat)
    requires k + 4 <= block.Length
    modifies block
    ensures ColumnIn(block, k) == AesBlock.MixColumn(old(ColumnIn(block, k)))
    ensures SameOutsideColumn(old(block[..]), block[..], k)
  {
    hide Xor, XTime, Sum4;
    var a1, a2, a3 := [], [], [];
    for i := 0 to 4
      invariant |a1| == |a2| == |a3| == i
      invariant forall j :: 0 <= j < i ==> a1[j] == block[k + j] && a2[j] == XTime(a1[j]) && a3[j] == Mul3(a1[j])
    {
      var a := block[k + i];
      a1 := a1 + [a];
      a2 := a2 + [XTime(a)];
      a3 := a3 + [Xor(XTime(a), a)];
    }
    block[k] := Sum4(a2[0], a3[1], a1[2], a1[3]);
    block[k + 1] := Sum4(a1[0], a2[1], a3[2], a1[3]);
    block[k + 2] := Sum4(a1[0], a1[1], a2[2], a3[3]);
    block[k + 3] := Sum4(a3[0], a1[1], a1[2], a2[3]);
  }

  method InvMixColumnsImpl(block: array<Byte>, k: nat)
    requires k + 4 <= block.Length
    modifies block
    ensures ColumnIn(block, k) == AesBlock.InvMixColumn(old(ColumnIn(block, k)))
    ensures SameOutsideColumn(old(block[..]), block[..], k)
  {
    hide Xor, XTime, Sum4, Mul9, Mul11, Mul13, Mul14;
    var a9, a11, a13, a14 := [], [], [], [];
    for i := 0 to 4
      invariant block[..] == old(block[..])
      invariant |a9| == |a11| == |a13| == |a14| == i
      invariant forall j :: 0 <= j < i ==> a9[j] == Mul9(block[k + j]) && a11[j] == Mul11(block[k + j])
      invariant forall j :: 0 <= j < i ==> a13[j] == Mul13(block[k + j]) && a14[j] == Mul14(block[k + j])
    {
      var a := block[k + i];
      var m9, m11, m13, m14 := Multiples(a);
      a9, a11, a13, a14 := a9 + [m9], a11 + [m11], a13 + [m13], a14 + [m14];
    }
    block[k] := Sum4(a14[0], a11[1], a13[2], a9[3]);
    block[k + 1] := Sum4(a9[0], a14[1], a11[2], a13[3]);
    block[k + 2] := Sum4(a13[0], a9[1], a14[2], a11[3]);
    block[k + 3] := Sum4(a11[0], a13[1], a9[2], a14[3]);
  }

  method Multiples(a1: Byte) returns (a9: Byte, a11: Byte, a13: Byte, a14: Byte)
    ensures a9 == Mul9(a1) && a11 == Mul11(a1) && a13 == Mul13(a1) && a14 == Mul14(a1)
  {
    hide Xor, XTime;
    var a2 := XTime(a1);
    var a2_2 := XTime(a2);
    a9 := Xor(XTime(a2_2), a1);
    a11 := Xor(XTime(Xor(a2_2, a1)), a1);
    var a2a1_2 := XTime(Xor(a2, a1));
    a13 := Xor(XTime(a2a1_2), a1);
    a14 := XTime(Xor(a2a1_2, a1));
  }

  method MixColumns(block: array<Byte>, off: nat)
    requires off + 16 <= block.Length
    modifies block
    ensures block[off..off + 16] == AesBlock.MixColumns(old(block[off..off + 16]))
    ensures SameElsewhere(old(block[..]), block[..], off)
  {
    hide AesBlock.MixColumn, AesBlock.MixColumns;
    var i := 0;
    while i < 16
      invariant i <= 16 && i % 4 == 0
      invariant forall c :: 0 <= c < i / 4 ==>
                  ColumnIn(block, off + 4 * c) == AesBlock.MixColumn(old(ColumnIn(block, off + 4 * c)))
      invariant forall k :: 0 <= k < block.Length && !(off <= k < off + i) ==> block[k] == old(block[k])
    {
      assert ColumnIn(block, off + i) == old(ColumnIn(block, off + i));
      MixColumnsImpl(block, off + i);
      i := i + 4;
    }
    ghost var s, r := old(block[off..off + 16]), block[off..off + 16];
    Mixed(s, r);
  }

  lemma Mixed(s: Bytes, r: Bytes)
    requires |s| == |r| == 16
    requires forall c :: 0 <= c < 4 ==> AesBlock.ColumnAt(r, c) == AesBlock.MixColumn(AesBlock.ColumnAt(s, c))
    ensures r == AesBlock.MixColumns(s)
  {
    hide AesBlock.MixColumn, AesBlock.Join;
    AesBlock.JoinColumns(r);
  }

  method InvMixColumns(block: array<Byte>, off: nat)
    requires off + 16 <= block.Length
    modifies block
    ensures block[off..off + 16] == AesBlock.InvMixColumns(old(block[off..off + 16]))
    ensures SameElsewhere(old(block[..]), block[..], off)
  {
    hide AesBlock.InvMixColumn, AesBlock.InvMixColumns;
    var i := 0;
    while i < 16
      invariant i <= 16 && i % 4 == 0
      invariant forall c :: 0 <= c < i / 4 ==>
                  ColumnIn(block, off + 4 * c) == AesBlock.InvMixColumn(old(ColumnIn(block, off + 4 * c)))
      invariant forall k :: 0 <= k < block.Length && !(off <= k < off + i) ==> block[k] == old(block[k])
    {
      assert ColumnIn(block, off + i) == old(ColumnIn(block, off + i));
      InvMixColumnsImpl(block, off + i);
      i := i + 4;
    }
    ghost var s, r := old(block[off..off + 16]), block[off..off + 16];
    InvMixed(s, r);
  }

  lemma InvMixed(s: Bytes, r: Bytes)
    requires |s| == |r| == 16
    requires forall c :: 0 <= c < 4 ==> AesBlock.ColumnAt(r, c) == AesBlock.InvMixColumn(AesBlock.ColumnAt(s, c))
    ensures r == AesBlock.InvMixColumns(s)
  {
    hide AesBlock.InvMixColumn, AesBlock.Join;
    AesBlock.JoinColumns(r);
  }

  // ---------- one block ----------

  lemma SameTwice(a: Bytes, b: Bytes, c: Bytes, off: nat)
    requires SameElsewhere(a, b, off) && SameElsewhere(b, c, off)
    ensures SameElsewhere(a, c, off)
  {
  }

  method EncryptRound(w: Bytes, block: array<Byte>, off: nat, round: nat)
    requires |w| == 240 && off + 16 <= block.Length && round <= 14
    modifies block
    ensures block[off..off + 16] == AesCipher.Round(w, old(block[off..off + 16]), round)
    ensures SameElsewhere(old(block[..]), block[..], off)
  {
    hide AesBlock.AddRoundKey, AesBlock.MixColumns, AesBlock.ShiftRows, AesBlock.SubBytes, SameElsewhere,
        AesCipher.RoundKey;
    SubBytes(block, off);
    ghost var s1 := block[..];
    ShiftRows(block, off);
    ghost var s2 := block[..];
    MixColumns(block, off);
    ghost var s3 := block[..];
    AddRoundKey(block, off, AesCipher.RoundKey(w, round));
    SameTwice(old(block[..]), s1, s2, off);
    SameTwice(old(block[..]), s2, s3, off);
    SameTwice(old(block[..]), s3, block[..], off);
  }

  method DecryptRound(w: Bytes, block: array<Byte>, off: nat, round: nat)
    requires |w| == 240 && off + 16 <= block.Length && round <= 14
    modifies block
    ensures block[off..off + 16] == AesCipher.InvRound(w, old(block[off..off + 16]), round)
    ensures SameElsewhere(old(block[..]), block[..], off)
  {
    hide AesBlock.AddRoundKey, AesBlock.InvMixColumns, AesBlock.InvShiftRows, AesBlock.InvSubBytes, SameElsewhere,
         AesCipher.RoundKey;
    AddRoundKey(block, off, AesCipher.RoundKey(w, round));
    ghost var s1 := block[..];
    InvMixColumns(block, off);
    ghost var s2 := block[..];
    InvShiftRows(block, off);
    ghost var s3 := block[..];
    InvSubBytes(block, off);
    SameTwice(old(block[..]), s1, s2, off);
    SameTwice(old(block[..]), s2, s3, off);
    SameTwice(old(block[..]), s3, block[..], off);
  }

  method TransformECB(w: Bytes, block: array<Byte>, off: nat)
    requires |w| == 240 && off + 16 <= block.Length
    modifies block
    ensures block[off..off + 16] == AesCipher.Cipher(w, old(block[off..off + 16]))
    ensures SameElsewhere(old(block[..]), block[..], off)
  {
    hide AesBlock.AddRoundKey, AesBlock.ShiftRows, AesBlock.SubBytes, SameElsewhere, AesCipher.RoundKey,
        AesCipher.Round;
    AddRoundKey(block, off, AesCipher.RoundKey(w, 0));
    ghost var a := block[off..off + 16];
    var round := 1;
    while round < 14
      invariant 1 <= round <= 14
      invariant block[off..off + 16] == AesCipher.Rounds(w, a, round - 1)
      invariant SameElsewhere(old(block[..]), block[..], off)
    {
      ghost var before := block[..];
      EncryptRound(w, block, off, round);
      SameTwice(old(block[..]), before, block[..], off);
      round := round + 1;
    }
    ghost var s1 := block[..];
    SubBytes(block, off);
    ghost var s2 := block[..];
    ShiftRows(block, off);
    ghost var s3 := block[..];
    AddRoundKey(block, off, AesCipher.RoundKey(w, 14));
    SameTwice(old(block[..]), s1, s2, off);
    SameTwice(old(block[..]), s2, s3, off);
    SameTwice(old(block[..]), s3, block[..], off);
  }

  method InverseTransformECB(w: Bytes, block: array<Byte>, off: nat)
    requires |w| == 240 && off + 16 <= block.Length
    modifies block
    ensures block[off..off + 16] == AesCipher.InvCipher(w, old(block[off..off + 16]))
    ensures SameElsewhere(old(block[..]), block[..], off)
  {
    hide AesBlock.AddRoundKey, AesBlock.InvShiftRows, AesBlock.InvSubBytes, SameElsewhere, AesCipher.RoundKey,
        AesCipher.InvRound;
    AddRoundKey(block, off, AesCipher.RoundKey(w, 14));
    ghost var s1 := block[..];
    InvShiftRows(block, off);
    ghost var s2 := block[..];
    InvSubBytes(block, off);
    SameTwice(old(block[..]), s1, s2, off);
    SameTwice(old(block[..]), s2, block[..], off);
    ghost var t := block[off..off + 16];
    var round := 13;
    while round > 0
      invariant 0 <= round <= 13
      invariant AesCipher.InvRounds(w, t, 13) == AesCipher.InvRounds(w, block[off..off + 16], round)
      invariant SameElsewhere(old(block[..]), block[..], off)
    {
      ghost var before := block[..];
      DecryptRound(w, block, off, round);
      SameTwice(old(block[..]), before, block[..], off);
      round := round - 1;
    }
    ghost var before := block[..];
    AddRoundKey(block, off, AesCipher.RoundKey(w, 0));
    SameTwice(old(block[..]), before, block[..], off);
  }
}
