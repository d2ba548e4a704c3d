/** The layers of one AES round on a block of 16 bytes, column by column, and their inverses. */
module AesBlock {
  import opened AesXor
  import opened AesField
  import opened AesTables


  type Bytes = seq<Byte>

  // ---------- AddRoundKey ----------

  function AddRoundKey(s: Bytes, k: Bytes): (r: Bytes)
    requires |s| == |k|
    ensures |r| == |s| && forall i :: 0 <= i < |s| ==> r[i] == Xor(s[i], k[i])
  {
    seq(|s|, i requires 0 <= i < |s| => Xor(s[i], k[i]))
  }

  lemma AddRoundKeyTwice(s: Bytes, k: Bytes)
    requires |s| == |k|
    ensures AddRoundKey(AddRoundKey(s, k), k) == s
  {
    hide Xor;
    forall i | 0 <= i < |s| ensures Xor(Xor(s[i], k[i]), k[i]) == s[i] { XorCancels(k[i], s[i]); }
  }

  // ---------- SubBytes ----------

  function SubBytes(s: Bytes): (r: Bytes)
    ensures |r| == |s| && forall i :: 0 <= i < |s| ==> r[i] == SBox(s[i])
  {
    seq(|s|, i requires 0 <= i < |s| => SBox(s[i]))
  }

  function InvSubBytes(s: Bytes): (r: Bytes)
    ensures |r| == |s| && forall i :: 0 <= i < |s| ==> r[i] == InvSBox(s[i])
  {
    seq(|s|, i requires 0 <= i < |s| => InvSBox(s[i]))
  }

  lemma SubBytesInverse(s: Bytes)
    ensures InvSubBytes(SubBytes(s)) == s && SubBytes(InvSubBytes(s)) == s
  {
    hide SBox, InvSBox;
    forall i | 0 <= i < |s| ensures InvSBox(SBox(s[i])) == s[i] && SBox(InvSBox(s[i])) == s[i] {
      SBoxInverse(s[i]);
      InvSBoxInverse(s[i]);
    }
  }

  // ---------- ShiftRows, section 5.1.2 of FIPS 197 ----------

  /** Byte i of the block is row i % 4 of column i / 4; row r moves r columns to the left. */
  function ShiftIndex(i: nat): (j: nat)
    requires i < 16
    ensures j < 16
  {
    i % 4 + 4 * ((i / 4 + i % 4) % 4)
  }

  function InvShiftIndex(i: nat): (j: nat)
    requires i < 16
    ensures j < 16
  {
    i % 4 + 4 * ((i / 4 + 4 - i % 4) % 4)
  }

  function ShiftRows(s: Bytes): (r: Bytes)
    requires |s| == 16
    ensures |r| == 16 && forall i :: 0 <= i < 16 ==> r[i] == s[ShiftIndex(i)]
  {
    seq(16, i requires 0 <= i < 16 => s[ShiftIndex(i)])
  }

  function InvShiftRows(s: Bytes): (r: Bytes)
    requires |s| == 16
    ensures |r| == 16 && forall i :: 0 <= i < 16 ==> r[i] == s[InvShiftIndex(i)]
  {
    seq(16, i requires 0 <= i < 16 => s[InvShiftIndex(i)])
  }

  lemma ShiftIndexInverse(i: nat)
    requires i < 16
    ensures InvShiftIndex(ShiftIndex(i)) == i && ShiftIndex(InvShiftIndex(i)) == i
  {
    hide ShiftIndex, InvShiftIndex;
    var r, c := i % 4, i / 4;
    ShiftsTo(r, c);
    LeftAndRight(r, c);
    ShiftsTo(r, (c + r) % 4);
    ShiftsTo(r, (c + 4 - r) % 4);
  }

  lemma ShiftsTo(r: nat, c: nat)
    requires r < 4 && c < 4
    ensures ShiftIndex(r + 4 * c) == r + 4 * ((c + r) % 4)
    ensures InvShiftIndex(r + 4 * c) == r + 4 * ((c + 4 - r) % 4)
  {
    RowAndColumn(r, c);
  }

  lemma LeftAndRight(r: nat, c: nat)
    requires r < 4 && c < 4
    ensures ((c + r) % 4 + 4 - r) % 4 == c && ((c + 4 - r) % 4 + r) % 4 == c
  {
    assert (c + r) % 4 == if c + r < 4 then c + r else c + r - 4;
    assert (c + 4 - r) % 4 == if c < r then c + 4 - r else c - r;
  }

  lemma RowAndColumn(r: nat, c: nat)
    requires r < 4 && c < 4
    ensures (r + 4 * c) % 4 == r && (r + 4 * c) / 4 == c
  {
  }

  lemma ShiftRowsInverse(s: Bytes)
    requires |s| == 16
    ensures InvShiftRows(ShiftRows(s)) == s && ShiftRows(InvShiftRows(s)) == s
  {
    hide ShiftIndex, InvShiftIndex;
    forall i | 0 <= i < 16 ensures InvShiftRows(ShiftRows(s))[i] == s[i] && ShiftRows(InvShiftRows(s))[i] == s[i] {
      ShiftIndexInverse(i);
    }
  }

  // ---------- MixColumns ----------

  datatype Column = Column(a: Byte, b: Byte, c: Byte, d: Byte)

  function MixColumn(v: Column): Column {
    Column(Sum4(XTime(v.a), Mul3(v.b), v.c, v.d),
           Sum4(v.a, XTime(v.b), Mul3(v.c), v.d),
           Sum4(v.a, v.b, XTime(v.c), Mul3(v.d)),
           Sum4(Mul3(v.a), v.b, v.c, XTime(v.d)))
  }

  function InvMixColumn(v: Column): Column {
    Column(Sum4(Mul14(v.a), Mul11(v.b), Mul13(v.c), Mul9(v.d)),
           Sum4(Mul9(v.a), Mul14(v.b), Mul11(v.c), Mul13(v.d)),
           Sum4(Mul13(v.a), Mul9(v.b), Mul14(v.c), Mul11(v.d)),
           Sum4(Mul11(v.a), Mul13(v.b), Mul9(v.c), Mul14(v.d)))
  }

  // One row of the two matrices; the other rows are the same on rotated columns.
  function MixRow(a: Byte, b: Byte, c: Byte, d: Byte): Byte {
    Sum4(XTime(a), Mul3(b), c, d)
  }

  function InvMixRow(a: Byte, b: Byte, c: Byte, d: Byte): Byte {
    Sum4(Mul14(a), Mul11(b), Mul13(c), Mul9(d))
  }

  lemma MixColumnRows(v: Column)
    ensures MixColumn(v) ==
            Column(MixRow(v.a, v.b, v.c, v.d), MixRow(v.b, v.c, v.d, v.a), MixRow(v.c, v.d, v.a, v.b),
              MixRow(v.d, v.a, v.b, v.c))
  {
    hide Sum4, XTime, Mul3;
    Sum4Rotates(v.a, XTime(v.b), Mul3(v.c), v.d);
    Sum4Rotates(v.a, v.b, XTime(v.c), Mul3(v.d));
    Sum4Rotates(v.b, XTime(v.c), Mul3(v.d), v.a);
    Sum4Rotates(Mul3(v.a), v.b, v.c, XTime(v.d));
    Sum4Rotates(v.b, v.c, XTime(v.d), Mul3(v.a));
    Sum4Rotates(v.c, XTime(v.d), Mul3(v.a), v.b);
  }

  lemma InvMixColumnRows(v: Column)
    ensures InvMixColumn(v) ==
            Column(InvMixRow(v.a, v.b, v.c, v.d), InvMixRow(v.b, v.c, v.d, v.a),
                   InvMixRow(v.c, v.d, v.a, v.b), InvMixRow(v.d, v.a, v.b, v.c))
  {
    hide Sum4, Mul9, Mul11, Mul13, Mul14;
    Sum4Rotates(Mul9(v.a), Mul14(v.b), Mul11(v.c), Mul13(v.d));
    Sum4Rotates(Mul13(v.a), Mul9(v.b), Mul14(v.c), Mul11(v.d));
    Sum4Rotates(Mul9(v.b), Mul14(v.c), Mul11(v.d), Mul13(v.a));
    Sum4Rotates(Mul11(v.a), Mul13(v.b), Mul9(v.c), Mul14(v.d));
    Sum4Rotates(Mul13(v.b), Mul9(v.c), Mul14(v.d), Mul11(v.a));
    Sum4Rotates(Mul9(v.c), Mul14(v.d), Mul11(v.a), Mul13(v.b));
  }

  lemma InvMixRowOfMixRows(a: Byte, b: Byte, c: Byte, d: Byte)
    ensures InvMixRow(MixRow(a, b, c, d), MixRow(b, c, d, a), MixRow(c, d, a, b), MixRow(d, a, b, c)) == a
  {
    hide Sum4, XTime, Mul3, Mul9, Mul11, Mul13, Mul14;
    // rows of MixColumns with the terms of a, b, c and d in this order
    Sum4Rotates(a, XTime(b), Mul3(c), d);
    Sum4Rotates(a, b, XTime(c), Mul3(d));
    Sum4Rotates(b, XTime(c), Mul3(d), a);
    Sum4Rotates(Mul3(a), b, c, XTime(d));
    Sum4Rotates(b, c, XTime(d), Mul3(a));
    Sum4Rotates(c, XTime(d), Mul3(a), b);
    Sum14(XTime(a), Mul3(b), c, d);
    Sum11(a, XTime(b), Mul3(c), d);
    Sum13(a, b, XTime(c), Mul3(d));
    Sum9(Mul3(a), b, c, XTime(d));
    Transpose(Mul14(XTime(a)), Mul14(Mul3(b)), Mul14(c), Mul14(d),
              Mul11(a), Mul11(XTime(b)), Mul11(Mul3(c)), Mul11(d),
              Mul13(a), Mul13(b), Mul13(XTime(c)), Mul13(Mul3(d)),
              Mul9(Mul3(a)), Mul9(b), Mul9(c), Mul9(XTime(d)));
    InverseRow(a); InverseRow(b); InverseRow(c); InverseRow(d);
    Sum4OfOne(a);
  }

  lemma MixRowOfInvMixRows(a: Byte, b: Byte, c: Byte, d: Byte)
    ensures MixRow(InvMixRow(a, b, c, d), InvMixRow(b, c, d, a), InvMixRow(c, d, a, b), InvMixRow(d, a, b, c)) == a
  {
    hide Sum4, XTime, Mul3, Mul9, Mul11, Mul13, Mul14;
    Sum4Rotates(Mul9(a), Mul14(b), Mul11(c), Mul13(d));
    Sum4Rotates(Mul13(a), Mul9(b), Mul14(c), Mul11(d));
    Sum4Rotates(Mul9(b), Mul14(c), Mul11(d), Mul13(a));
    Sum4Rotates(Mul11(a), Mul13(b), Mul9(c), Mul14(d));
    Sum4Rotates(Mul13(b), Mul9(c), Mul14(d), Mul11(a));
    Sum4Rotates(Mul9(c), Mul14(d), Mul11(a), Mul13(b));
    Sum2(Mul14(a), Mul11(b), Mul13(c), Mul9(d));
    Sum3(Mul9(a), Mul14(b), Mul11(c), Mul13(d));
    Transpose(XTime(Mul14(a)), XTime(Mul11(b)), XTime(Mul13(c)), XTime(Mul9(d)),
              Mul3(Mul9(a)), Mul3(Mul14(b)), Mul3(Mul11(c)), Mul3(Mul13(d)),
              Mul13(a), Mul9(b), Mul14(c), Mul11(d),
              Mul11(a), Mul13(b), Mul9(c), Mul14(d));
    ForwardRow(a); ForwardRow(b); ForwardRow(c); ForwardRow(d);
    Sum4OfOne(a);
  }

  /** Section 5.3.3 of FIPS 197: InvMixColumns undoes MixColumns, and the other way round. */
  lemma MixColumnInverse(v: Column)
    ensures InvMixColumn(MixColumn(v)) == v && MixColumn(InvMixColumn(v)) == v
  {
    hide MixRow, InvMixRow, MixColumn, InvMixColumn;
    MixColumnRows(v);
    InvMixColumnRows(MixColumn(v));
    InvMixColumnRows(v);
    MixColumnRows(InvMixColumn(v));
    InvMixRowOfMixRows(v.a, v.b, v.c, v.d); MixRowOfInvMixRows(v.a, v.b, v.c, v.d);
    InvMixRowOfMixRows(v.b, v.c, v.d, v.a); MixRowOfInvMixRows(v.b, v.c, v.d, v.a);
    InvMixRowOfMixRows(v.c, v.d, v.a, v.b); MixRowOfInvMixRows(v.c, v.d, v.a, v.b);
    InvMixRowOfMixRows(v.d, v.a, v.b, v.c); MixRowOfInvMixRows(v.d, v.a, v.b, v.c);
  }

  function ColumnAt(s: Bytes, k: nat): Column
    requires |s| == 16 && k < 4
  {
    Column(s[4 * k], s[4 * k + 1], s[4 * k + 2], s[4 * k + 3])
  }

  function BytesOf(v: Column): (r: Bytes)
    ensures |r| == 4
  {
    [v.a, v.b, v.c, v.d]
  }

  function Join(v0: Column, v1: Column, v2: Column, v3: Column): (r: Bytes)
    ensures |r| == 16
    ensures ColumnAt(r, 0) == v0 && ColumnAt(r, 1) == v1 && ColumnAt(r, 2) == v2 && ColumnAt(r, 3) == v3
  {
    BytesOf(v0) + BytesOf(v1) + BytesOf(v2) + BytesOf(v3)
  }

  lemma JoinColumns(s: Bytes)
    requires |s| == 16
    ensures Join(ColumnAt(s, 0), ColumnAt(s, 1), ColumnAt(s, 2), ColumnAt(s, 3)) == s
  {
  }

  function MixColumns(s: Bytes): (r: Bytes)
    requires |s| == 16
    ensures |r| == 16
  {
    Join(MixColumn(ColumnAt(s, 0)), MixColumn(ColumnAt(s, 1)), MixColumn(ColumnAt(s, 2)), MixColumn(ColumnAt(s, 3)))
  }

  function InvMixColumns(s: Bytes): (r: Bytes)
    requires |s| == 16
    ensures |r| == 16
  {
    Join(InvMixColumn(ColumnAt(s, 0)), InvMixColumn(ColumnAt(s, 1)), InvMixColumn(ColumnAt(s, 2)),
        InvMixColumn(ColumnAt(s, 3)))
  }

  lemma MixColumnsInverse(s: Bytes)
    requires |s| == 16
    ensures InvMixColumns(MixColumns(s)) == s && MixColumns(InvMixColumns(s)) == s
  {
    hide MixColumn, InvMixColumn, ColumnAt, Join;
    JoinColumns(s);
    MixColumnInverse(ColumnAt(s, 0));
    MixColumnInverse(ColumnAt(s, 1));
    MixColumnInverse(ColumnAt(s, 2));
    MixColumnInverse(ColumnAt(s, 3));
  }
}
