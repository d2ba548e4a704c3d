/** Bytes under exclusive or, as FIPS 197 adds them. */
module AesXor {
  type Byte = bv8

  function Xor(a: Byte, b: Byte): Byte {
    a ^ b
  }

  lemma XorSwap(a: Byte, b: Byte, c: Byte, d: Byte)
    ensures Xor(Xor(a, b), Xor(c, d)) == Xor(Xor(a, c), Xor(b, d))
  {
    hide Xor;
    XorAssoc(a, b, Xor(c, d));
    XorAssoc(b, c, d);
    XorCommutes(b, c);
    XorAssoc(c, b, d);
    XorAssoc(a, c, Xor(b, d));
  }

  lemma XorAssoc(a: Byte, b: Byte, c: Byte)
    ensures Xor(Xor(a, b), c) == Xor(a, Xor(b, c))
  {
  }

  lemma XorCommutes(a: Byte, b: Byte)
    ensures Xor(a, b) == Xor(b, a)
  {
  }

  lemma XorCancels(a: Byte, b: Byte)
    ensures Xor(a, a) == 0 && Xor(a, 0) == a && Xor(0, a) == a
    ensures Xor(Xor(b, a), a) == b && Xor(a, Xor(a, b)) == b
  {
  }

  /** Multiplication by x, modulo x^8 + x^4 + x^3 + x + 1 (GF_p8_mul3 in the program). */
  function XTime(a: Byte): Byte {
    if a >= 0x80 then (a << 1) ^ 0x1B else a << 1
  }

  lemma XTimeLinear(a: Byte, b: Byte)
    ensures XTime(Xor(a, b)) == Xor(XTime(a), XTime(b))
  {
    HighBit(a, b);
    if a >= 0x80 { if b >= 0x80 {} else {} } else { if b >= 0x80 {} else {} }
  }

  lemma HighBit(a: Byte, b: Byte)
    ensures a ^ b >= 0x80 <==> (a >= 0x80) != (b >= 0x80)
  {
  }
}

/** The arithmetic of GF(2^8) that MixColumns rests on, section 4 of FIPS 197. */
module AesField {
  import opened AesXor

  // The multiples of a byte that the program computes, by repeated XTime.
  function Mul3(a: Byte): Byte { Xor(XTime(a), a) }
  function Mul9(a: Byte): Byte { Xor(XTime(XTime(XTime(a))), a) }
  function Mul11(a: Byte): Byte { Xor(XTime(Xor(XTime(XTime(a)), a)), a) }
  function Mul13(a: Byte): Byte { Xor(XTime(XTime(Xor(XTime(a), a))), a) }
  function Mul14(a: Byte): Byte { XTime(Xor(XTime(Xor(XTime(a), a)), a)) }

  function Sum4(a: Byte, b: Byte, c: Byte, d: Byte): Byte {
    Xor(Xor(Xor(a, b), c), d)
  }

  // ---------- multiples by polynomials of degree at most 4 ----------

  /** Coefficients of 1, x, x^2, x^3, x^4. */
  datatype Poly = Poly(b0: bool, b1: bool, b2: bool, b3: bool, b4: bool)

  function Add(p: Poly, q: Poly): Poly {
    Poly(p.b0 != q.b0, p.b1 != q.b1, p.b2 != q.b2, p.b3 != q.b3, p.b4 != q.b4)
  }

  function TimesX(p: Poly): Poly {
    Poly(false, p.b0, p.b1, p.b2, p.b3)
  }

  const ONE := Poly(true, false, false, false, false)
  const ZERO := Poly(false, false, false, false, false)

  function Pick(b: bool, a: Byte): Byte {
    if b then a else 0
  }

  function Sum5(a: Byte, b: Byte, c: Byte, d: Byte, e: Byte): Byte {
    Xor(Xor(Xor(Xor(a, b), c), d), e)
  }

  function Power(a: Byte, k: nat): Byte {
    if k == 0 then a else XTime(Power(a, k - 1))
  }

  /** The product of a polynomial and a byte. */
  function Times(p: Poly, a: Byte): Byte {
    Sum5(Pick(p.b0, Power(a, 0)), Pick(p.b1, Power(a, 1)), Pick(p.b2, Power(a, 2)), Pick(p.b3, Power(a, 3)),
        Pick(p.b4, Power(a, 4)))
  }

  lemma PickAdds(b: bool, c: bool, a: Byte)
    ensures Xor(Pick(b, a), Pick(c, a)) == Pick(b != c, a)
  {
    hide Xor;
    XorCancels(a, a);
    XorCancels(0, 0);
  }

  lemma Sum5Adds(a: Byte, b: Byte, c: Byte, d: Byte, e: Byte, a': Byte, b': Byte, c': Byte, d': Byte, e': Byte)
    ensures Xor(Sum5(a, b, c, d, e), Sum5(a', b', c', d', e')) ==
            Sum5(Xor(a, a'), Xor(b, b'), Xor(c, c'), Xor(d, d'), Xor(e, e'))
  {
    hide Xor;
    XorSwap(a, b, a', b');
    XorSwap(Xor(a, b), c, Xor(a', b'), c');
    XorSwap(Xor(Xor(a, b), c), d, Xor(Xor(a', b'), c'), d');
    XorSwap(Xor(Xor(Xor(a, b), c), d), e, Xor(Xor(Xor(a', b'), c'), d'), e');
  }

  lemma TimesAdds(p: Poly, q: Poly, a: Byte)
    ensures Xor(Times(p, a), Times(q, a)) == Times(Add(p, q), a)
  {
    hide Xor, Pick, Sum5, Power;
    PickAdds(p.b0, q.b0, Power(a, 0));
    PickAdds(p.b1, q.b1, Power(a, 1));
    PickAdds(p.b2, q.b2, Power(a, 2));
    PickAdds(p.b3, q.b3, Power(a, 3));
    PickAdds(p.b4, q.b4, Power(a, 4));
    Sum5Adds(Pick(p.b0, Power(a, 0)), Pick(p.b1, Power(a, 1)), Pick(p.b2, Power(a, 2)), Pick(p.b3, Power(a, 3)),
        Pick(p.b4, Power(a, 4)),
             Pick(q.b0, Power(a, 0)), Pick(q.b1, Power(a, 1)), Pick(q.b2, Power(a, 2)), Pick(q.b3, Power(a, 3)),
                 Pick(q.b4, Power(a, 4)));
  }

  lemma PickShifts(b: bool, a: Byte)
    ensures XTime(Pick(b, a)) == Pick(b, XTime(a))
  {
  }

  lemma Sum5Shifts(a: Byte, b: Byte, c: Byte, d: Byte, e: Byte)
    ensures XTime(Sum5(a, b, c, d, e)) == Sum5(XTime(a), XTime(b), XTime(c), XTime(d), XTime(e))
  {
    hide Xor, XTime;
    XTimeLinear(a, b);
    XTimeLinear(Xor(a, b), c);
    XTimeLinear(Xor(Xor(a, b), c), d);
    XTimeLinear(Xor(Xor(Xor(a, b), c), d), e);
  }

  lemma Sum5Rotates(a: Byte, b: Byte, c: Byte, d: Byte)
    ensures Sum5(a, b, c, d, 0) == Sum5(0, a, b, c, d)
  {
    hide Xor;
    XorCancels(a, a);
    XorCancels(Xor(Xor(Xor(a, b), c), d), 0);
  }

  lemma PowerStep(a: Byte, k: nat)
    ensures XTime(Power(a, k)) == Power(a, k + 1)
  {
    hide XTime;
  }

  lemma TimesShifts(p: Poly, a: Byte)
    requires !p.b4
    ensures XTime(Times(p, a)) == Times(TimesX(p), a)
  {
    hide Xor, Pick, Sum5, Power, XTime;
    var a0, a1, a2, a3, a4 := Power(a, 0), Power(a, 1), Power(a, 2), Power(a, 3), Power(a, 4);
    Sum5Shifts(Pick(p.b0, a0), Pick(p.b1, a1), Pick(p.b2, a2), Pick(p.b3, a3), Pick(p.b4, a4));
    PickShifts(p.b0, a0); PickShifts(p.b1, a1); PickShifts(p.b2, a2); PickShifts(p.b3, a3);
    PowerStep(a, 0); PowerStep(a, 1); PowerStep(a, 2); PowerStep(a, 3);
    PickNone(a4); PickNone(a0); XTimeZero();
    Sum5Rotates(Pick(p.b0, a1), Pick(p.b1, a2), Pick(p.b2, a3), Pick(p.b3, a4));
  }

  lemma PickNone(a: Byte)
    ensures Pick(false, a) == 0
  {
  }

  lemma XTimeZero()
    ensures XTime(0) == 0
  {
  }

  lemma TimesOne(a: Byte)
    ensures Times(ONE, a) == a && Times(ZERO, a) == 0
  {
    hide Xor, XTime, Power;
    XorCancels(a, a);
    XorCancels(0, 0);
    PowerZero(a);
  }

  lemma PowerZero(a: Byte)
    ensures Power(a, 0) == a
  {
  }

  // ---------- the multiples are linear ----------

  lemma Linear3(a: Byte, b: Byte)
    ensures Mul3(Xor(a, b)) == Xor(Mul3(a), Mul3(b))
  {
    hide Xor, XTime;
    XTimeLinear(a, b);
    XorSwap(XTime(a), XTime(b), a, b);
  }

  lemma Sum3(a: Byte, b: Byte, c: Byte, d: Byte)
    ensures Mul3(Sum4(a, b, c, d)) == Sum4(Mul3(a), Mul3(b), Mul3(c), Mul3(d))
  {
    hide Xor, Mul3;
    Linear3(a, b);
    Linear3(Xor(a, b), c);
    Linear3(Xor(Xor(a, b), c), d);
  }

  lemma Linear9(a: Byte, b: Byte)
    ensures Mul9(Xor(a, b)) == Xor(Mul9(a), Mul9(b))
  {
    hide Xor, XTime;
    XTimeLinear(a, b);
    XTimeLinear(XTime(a), XTime(b));
    XTimeLinear(XTime(XTime(a)), XTime(XTime(b)));
    XorSwap(XTime(XTime(XTime(a))), XTime(XTime(XTime(b))), a, b);
  }

  lemma Sum9(a: Byte, b: Byte, c: Byte, d: Byte)
    ensures Mul9(Sum4(a, b, c, d)) == Sum4(Mul9(a), Mul9(b), Mul9(c), Mul9(d))
  {
    hide Xor, Mul9;
    Linear9(a, b);
    Linear9(Xor(a, b), c);
    Linear9(Xor(Xor(a, b), c), d);
  }

  lemma Linear11(a: Byte, b: Byte)
    ensures Mul11(Xor(a, b)) == Xor(Mul11(a), Mul11(b))
  {
    hide Xor, XTime;
    var u, v := Xor(XTime(XTime(a)), a), Xor(XTime(XTime(b)), b);
    XTimeLinear(a, b);
    XTimeLinear(XTime(a), XTime(b));
    XorSwap(XTime(XTime(a)), XTime(XTime(b)), a, b);
    XTimeLinear(u, v);
    XorSwap(XTime(u), XTime(v), a, b);
  }

  lemma Sum11(a: Byte, b: Byte, c: Byte, d: Byte)
    ensures Mul11(Sum4(a, b, c, d)) == Sum4(Mul11(a), Mul11(b), Mul11(c), Mul11(d))
  {
    hide Xor, Mul11;
    Linear11(a, b);
    Linear11(Xor(a, b), c);
    Linear11(Xor(Xor(a, b), c), d);
  }

  lemma Linear13(a: Byte, b: Byte)
    ensures Mul13(Xor(a, b)) == Xor(Mul13(a), Mul13(b))
  {
    hide Xor, XTime;
    var u, v := Xor(XTime(a), a), Xor(XTime(b), b);
    XTimeLinear(a, b);
    XorSwap(XTime(a), XTime(b), a, b);
    XTimeLinear(u, v);
    XTimeLinear(XTime(u), XTime(v));
    XorSwap(XTime(XTime(u)), XTime(XTime(v)), a, b);
  }

  lemma Sum13(a: Byte, b: Byte, c: Byte, d: Byte)
    ensures Mul13(Sum4(a, b, c, d)) == Sum4(Mul13(a), Mul13(b), Mul13(c), Mul13(d))
  {
    hide Xor, Mul13;
    Linear13(a, b);
    Linear13(Xor(a, b), c);
    Linear13(Xor(Xor(a, b), c), d);
  }

  lemma Linear14(a: Byte, b: Byte)
    ensures Mul14(Xor(a, b)) == Xor(Mul14(a), Mul14(b))
  {
    hide Xor, XTime;
    var u, v := Xor(XTime(a), a), Xor(XTime(b), b);
    XTimeLinear(a, b);
    XorSwap(XTime(a), XTime(b), a, b);
    XTimeLinear(u, v);
    XorSwap(XTime(u), XTime(v), a, b);
    XTimeLinear(Xor(XTime(u), a), Xor(XTime(v), b));
  }

  lemma Sum14(a: Byte, b: Byte, c: Byte, d: Byte)
    ensures Mul14(Sum4(a, b, c, d)) == Sum4(Mul14(a), Mul14(b), Mul14(c), Mul14(d))
  {
    hide Xor, Mul14;
    Linear14(a, b);
    Linear14(Xor(a, b), c);
    Linear14(Xor(Xor(a, b), c), d);
  }

  lemma Sum2(a: Byte, b: Byte, c: Byte, d: Byte)
    ensures XTime(Sum4(a, b, c, d)) == Sum4(XTime(a), XTime(b), XTime(c), XTime(d))
  {
    hide Xor, XTime;
    XTimeLinear(a, b);
    XTimeLinear(Xor(a, b), c);
    XTimeLinear(Xor(Xor(a, b), c), d);
  }

  lemma Sum4Adds(a: Byte, b: Byte, c: Byte, d: Byte, a': Byte, b': Byte, c': Byte, d': Byte)
    ensures Xor(Sum4(a, b, c, d), Sum4(a', b', c', d')) == Sum4(Xor(a, a'), Xor(b, b'), Xor(c, c'), Xor(d, d'))
  {
    hide Xor;
    XorSwap(a, b, a', b');
    XorSwap(Xor(a, b), c, Xor(a', b'), c');
    XorSwap(Xor(Xor(a, b), c), d, Xor(Xor(a', b'), c'), d');
  }

  /** A sum of four columns is the same by rows and by columns. */
  lemma Transpose(a1: Byte, b1: Byte, c1: Byte, d1: Byte, a2: Byte, b2: Byte, c2: Byte, d2: Byte,
                  a3: Byte, b3: Byte, c3: Byte, d3: Byte, a4: Byte, b4: Byte, c4: Byte, d4: Byte)
    ensures Sum4(Sum4(a1, b1, c1, d1), Sum4(a2, b2, c2, d2), Sum4(a3, b3, c3, d3), Sum4(a4, b4, c4, d4)) ==
            Sum4(Sum4(a1, a2, a3, a4), Sum4(b1, b2, b3, b4), Sum4(c1, c2, c3, c4), Sum4(d1, d2, d3, d4))
  {
    UnfoldSum4(Sum4(a1, b1, c1, d1), Sum4(a2, b2, c2, d2), Sum4(a3, b3, c3, d3), Sum4(a4, b4, c4, d4));
    UnfoldSum4(a1, a2, a3, a4); UnfoldSum4(b1, b2, b3, b4); UnfoldSum4(c1, c2, c3, c4); UnfoldSum4(d1, d2, d3, d4);
    hide Xor, Sum4;
    Sum4Adds(a1, b1, c1, d1, a2, b2, c2, d2);
    Sum4Adds(Xor(a1, a2), Xor(b1, b2), Xor(c1, c2), Xor(d1, d2), a3, b3, c3, d3);
    Sum4Adds(Xor(Xor(a1, a2), a3), Xor(Xor(b1, b2), b3), Xor(Xor(c1, c2), c3), Xor(Xor(d1, d2), d3), a4, b4, c4, d4);
  }

  lemma UnfoldSum4(a: Byte, b: Byte, c: Byte, d: Byte)
    ensures Sum4(a, b, c, d) == Xor(Xor(Xor(a, b), c), d)
  {
    hide Xor;
  }

  lemma Sum4Rotates(a: Byte, b: Byte, c: Byte, d: Byte)
    ensures Sum4(a, b, c, d) == Sum4(b, c, d, a)
  {
    hide Xor;
    XorAssoc(a, b, c);
    XorAssoc(a, Xor(b, c), d);
    XorCommutes(a, Xor(Xor(b, c), d));
  }

  lemma Sum4OfOne(a: Byte)
    ensures Sum4(a, 0, 0, 0) == a
  {
    hide Xor;
    XorCancels(a, a);
  }

  // ---------- products of two multiples ----------

  lemma TimesMul(p: Poly, a: Byte)
    requires !p.b4
    ensures Mul3(Times(p, a)) == Times(Add(TimesX(p), p), a)
  {
    hide Xor, XTime, Times;
    TimesShifts(p, a);
    TimesAdds(TimesX(p), p, a);
  }

  lemma TimesMuls(p: Poly, a: Byte)
    requires !p.b2 && !p.b3 && !p.b4
    ensures var x := TimesX(p); var xx := TimesX(x); var xxx := TimesX(xx);
            && Mul9(Times(p, a)) == Times(Add(xxx, p), a)
            && Mul11(Times(p, a)) == Times(Add(TimesX(Add(xx, p)), p), a)
            && Mul13(Times(p, a)) == Times(Add(TimesX(TimesX(Add(x, p))), p), a)
            && Mul14(Times(p, a)) == Times(TimesX(Add(TimesX(Add(x, p)), p)), a)
  {
    hide Xor, XTime, Times;
    var x := TimesX(p); var xx := TimesX(x); var xxx := TimesX(xx);
    TimesShifts(p, a); TimesShifts(x, a); TimesShifts(xx, a);
    TimesAdds(xxx, p, a);
    TimesAdds(xx, p, a); TimesShifts(Add(xx, p), a); TimesAdds(TimesX(Add(xx, p)), p, a);
    TimesAdds(x, p, a); TimesShifts(Add(x, p), a); TimesShifts(TimesX(Add(x, p)), a);
    TimesAdds(TimesX(TimesX(Add(x, p))), p, a);
    TimesAdds(TimesX(Add(x, p)), p, a); TimesShifts(Add(TimesX(Add(x, p)), p), a);
  }

  lemma TimesSum4(p: Poly, q: Poly, r: Poly, s: Poly, a: Byte)
    ensures Sum4(Times(p, a), Times(q, a), Times(r, a), Times(s, a)) == Times(Add(Add(Add(p, q), r), s), a)
  {
    hide Xor, Times;
    TimesAdds(p, q, a);
    TimesAdds(Add(p, q), r, a);
    TimesAdds(Add(Add(p, q), r), s, a);
  }

  const X := Poly(false, true, false, false, false)
  const X_1 := Poly(true, true, false, false, false)

  lemma TimesSmall(a: Byte)
    ensures Times(X, a) == XTime(a) && Times(X_1, a) == Mul3(a)
  {
    hide Xor, XTime, Times;
    TimesOne(a);
    TimesShifts(ONE, a);
    TimesMul(ONE, a);
  }

  /** The byte a contributes to row 0 of InvMixColumns after MixColumns only itself; the others cancel out. */
  lemma InverseRow(a: Byte)
    ensures Sum4(Mul14(XTime(a)), Mul11(a), Mul13(a), Mul9(Mul3(a))) == a
    ensures Sum4(Mul14(Mul3(a)), Mul11(XTime(a)), Mul13(a), Mul9(a)) == 0
    ensures Sum4(Mul14(a), Mul11(Mul3(a)), Mul13(XTime(a)), Mul9(a)) == 0
    ensures Sum4(Mul14(a), Mul11(a), Mul13(Mul3(a)), Mul9(XTime(a))) == 0
  {
    hide Xor, XTime, Times, Mul3, Mul9, Mul11, Mul13, Mul14, Sum4;
    TimesOne(a);
    TimesSmall(a);
    TimesMuls(ONE, a);
    TimesMuls(X, a);
    TimesMuls(X_1, a);
    var p9, p11, p13, p14 := Poly(true, false, false, true, false), Poly(true, true, false, true, false),
                             Poly(true, false, true, true, false), Poly(false, true, true, true, false);
    var x9, x11, x13, x14 := TimesX(p9), TimesX(p11), TimesX(p13), TimesX(p14);
    TimesSum4(x14, p11, p13, Add(x9, p9), a);
    TimesSum4(Add(x14, p14), x11, p13, p9, a);
    TimesSum4(p14, Add(x11, p11), x13, p9, a);
    TimesSum4(p14, p11, Add(x13, p13), x9, a);
  }

  /** The same for MixColumns after InvMixColumns. */
  lemma ForwardRow(a: Byte)
    ensures Sum4(XTime(Mul14(a)), Mul3(Mul9(a)), Mul13(a), Mul11(a)) == a
    ensures Sum4(XTime(Mul11(a)), Mul3(Mul14(a)), Mul9(a), Mul13(a)) == 0
    ensures Sum4(XTime(Mul13(a)), Mul3(Mul11(a)), Mul14(a), Mul9(a)) == 0
    ensures Sum4(XTime(Mul9(a)), Mul3(Mul13(a)), Mul11(a), Mul14(a)) == 0
  {
    hide Xor, XTime, Times, Mul3, Mul9, Mul11, Mul13, Mul14, Sum4;
    TimesOne(a);
    TimesMuls(ONE, a);
    var p9, p11, p13, p14 := Poly(true, false, false, true, false), Poly(true, true, false, true, false),
                             Poly(true, false, true, true, false), Poly(false, true, true, true, false);
    TimesShifts(p9, a); TimesShifts(p11, a); TimesShifts(p13, a); TimesShifts(p14, a);
    TimesMul(p9, a); TimesMul(p11, a); TimesMul(p13, a); TimesMul(p14, a);
    TimesSum4(TimesX(p14), Add(TimesX(p9), p9), p13, p11, a);
    TimesSum4(TimesX(p11), Add(TimesX(p14), p14), p9, p13, a);
    TimesSum4(TimesX(p13), Add(TimesX(p11), p11), p14, p9, a);
    TimesSum4(TimesX(p9), Add(TimesX(p13), p13), p11, p14, a);
  }
}
