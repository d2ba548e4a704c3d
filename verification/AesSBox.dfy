/** The substitution table is the one that section 5.1.1 of FIPS 197 defines. */
module AesSBox {
  import opened AesXor
  import opened AesTables

  /** b, if a has the bit of the mask. */
  function Term(a: Byte, mask: Byte, b: Byte): Byte {
    if a & mask != 0 then b else 0
  }

  /** The product in GF(2^8), section 4.2 of FIPS 197. */
  function Product(a: Byte, b: Byte): Byte {
    var b1 := XTime(b); var b2 := XTime(b1); var b3 := XTime(b2); var b4 := XTime(b3);
    var b5 := XTime(b4); var b6 := XTime(b5); var b7 := XTime(b6);
    Term(a, 1, b) ^ Term(a, 2, b1) ^ Term(a, 4, b2) ^ Term(a, 8, b3) ^ Term(a, 16, b4) ^ Term(a, 32, b5)
        ^ Term(a, 64, b6) ^ Term(a, 128, b7)
  }

  function Rotate(b: Byte, n: nat): Byte
    requires 0 < n < 8
  {
    (b << n) | (b >> (8 - n))
  }

  /** Bit i becomes the sum of the bits i, i+4, i+5, i+6 and i+7 and bit i of 0x63. */
  function Affine(b: Byte): Byte {
    b ^ Rotate(b, 1) ^ Rotate(b, 2) ^ Rotate(b, 3) ^ Rotate(b, 4) ^ 0x63
  }

  function InvAffine(b: Byte): Byte {
    Rotate(b, 1) ^ Rotate(b, 3) ^ Rotate(b, 6) ^ 0x05
  }

  lemma AffineBack(b: Byte)
    ensures Affine(InvAffine(b)) == b
  {
  }

  /** y is the multiplicative inverse of x; zero is mapped to itself. */
  ghost predicate IsInverse(x: Byte, y: Byte) {
    if x == 0 then y == 0 else Product(x, y) == 1
  }

  lemma InverseRow0(lo: Byte)
    requires lo <= 0x0F
    ensures IsInverse(0x00 + lo, InvAffine(SBoxRow0(lo)))
  {
  }

  lemma InverseRow1(lo: Byte)
    requires lo <= 0x0F
    ensures IsInverse(0x10 + lo, InvAffine(SBoxRow1(lo)))
  {
  }

  lemma InverseRow2(lo: Byte)
    requires lo <= 0x0F
    ensures IsInverse(0x20 + lo, InvAffine(SBoxRow2(lo)))
  {
  }

  lemma InverseRow3(lo: Byte)
    requires lo <= 0x0F
    ensures IsInverse(0x30 + lo, InvAffine(SBoxRow3(lo)))
  {
  }

  lemma InverseRow4(lo: Byte)
    requires lo <= 0x0F
    ensures IsInverse(0x40 + lo, InvAffine(SBoxRow4(lo)))
  {
  }

  lemma InverseRow5(lo: Byte)
    requires lo <= 0x0F
    ensures IsInverse(0x50 + lo, InvAffine(SBoxRow5(lo)))
  {
  }

  lemma InverseRow6(lo: Byte)
    requires lo <= 0x0F
    ensures IsInverse(0x60 + lo, InvAffine(SBoxRow6(lo)))
  {
  }

  lemma InverseRow7(lo: Byte)
    requires lo <= 0x0F
    ensures IsInverse(0x70 + lo, InvAffine(SBoxRow7(lo)))
  {
  }

  lemma InverseRow8(lo: Byte)
    requires lo <= 0x0F
    ensures IsInverse(0x80 + lo, InvAffine(SBoxRow8(lo)))
  {
  }

  lemma InverseRow9(lo: Byte)
    requires lo <= 0x0F
    ensures IsInverse(0x90 + lo, InvAffine(SBoxRow9(lo)))
  {
  }

  lemma InverseRowA(lo: Byte)
    requires lo <= 0x0F
    ensures IsInverse(0xA0 + lo, InvAffine(SBoxRowA(lo)))
  {
  }

  lemma InverseRowB(lo: Byte)
    requires lo <= 0x0F
    ensures IsInverse(0xB0 + lo, InvAffine(SBoxRowB(lo)))
  {
  }

  lemma InverseRowC(lo: Byte)
    requires lo <= 0x0F
    ensures IsInverse(0xC0 + lo, InvAffine(SBoxRowC(lo)))
  {
  }

  lemma InverseRowD(lo: Byte)
    requires lo <= 0x0F
    ensures IsInverse(0xD0 + lo, InvAffine(SBoxRowD(lo)))
  {
  }

  lemma InverseRowE(lo: Byte)
    requires lo <= 0x0F
    ensures IsInverse(0xE0 + lo, InvAffine(SBoxRowE(lo)))
  {
  }

  lemma InverseRowF(lo: Byte)
    requires lo <= 0x0F
    ensures IsInverse(0xF0 + lo, InvAffine(SBoxRowF(lo)))
  {
  }

  /** Every entry is the affine image of a multiplicative inverse of its index. */
  lemma SBoxIsStandard(x: Byte)
    ensures exists y :: IsInverse(x, y) && SBox(x) == Affine(y)
  {
    hide SBox, IsInverse, Affine, InvAffine;
    hide SBoxRow0, SBoxRow1, SBoxRow2, SBoxRow3, SBoxRow4, SBoxRow5, SBoxRow6, SBoxRow7, SBoxRow8, SBoxRow9,
        SBoxRowA, SBoxRowB, SBoxRowC, SBoxRowD, SBoxRowE, SBoxRowF;
    SBoxRows(x);
    var hi, lo := x >> 4, x & 0x0F;
    if hi == 0x0 { InverseRow0(lo); }
    else if hi == 0x1 { InverseRow1(lo); }
    else if hi == 0x2 { InverseRow2(lo); }
    else if hi == 0x3 { InverseRow3(lo); }
    else if hi == 0x4 { InverseRow4(lo); }
    else if hi == 0x5 { InverseRow5(lo); }
    else if hi == 0x6 { InverseRow6(lo); }
    else if hi == 0x7 { InverseRow7(lo); }
    else if hi == 0x8 { InverseRow8(lo); }
    else if hi == 0x9 { InverseRow9(lo); }
    else if hi == 0xA { InverseRowA(lo); }
    else if hi == 0xB { InverseRowB(lo); }
    else if hi == 0xC { InverseRowC(lo); }
    else if hi == 0xD { InverseRowD(lo); }
    else if hi == 0xE { InverseRowE(lo); }
    else { InverseRowF(lo); }
    AffineBack(SBox(x));
  }
}
