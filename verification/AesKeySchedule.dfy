/** The key expansion of AES-256: section 5.2 of FIPS 197 with Nk = 8 and Nr = 14, and the program's byte-wise loop. */
module AesKeySchedule {
  import opened AesXor
  import opened AesTables
  import AesField
  import opened AesBlock

  const KEY_BYTES: nat := 32
  const KEY_SCHEDULE_BYTES: nat := 240

  // ---------- the word recurrence ----------

  function XorWords(u: Column, v: Column): Column {
    Column(Xor(u.a, v.a), Xor(u.b, v.b), Xor(u.c, v.c), Xor(u.d, v.d))
  }

  function SubWord(v: Column): Column {
    Column(SBox(v.a), SBox(v.b), SBox(v.c), SBox(v.d))
  }

  function RotWord(v: Column): Column {
    Column(v.b, v.c, v.d, v.a)
  }

  /** The round constant: x^(j-1) in the first byte. */
  function Rcon(j: nat): Column
    requires j > 0
  {
    Column(AesField.Power(1, j - 1), 0, 0, 0)
  }

  function Word(key: Bytes, i: nat): Column
    requires |key| == KEY_BYTES
  {
    if i < 8 then Column(key[4 * i], key[4 * i + 1], key[4 * i + 2], key[4 * i + 3])
    else
      var temp := Word(key, i - 1);
      XorWords(Word(key, i - 8),
               if i % 8 == 0 then XorWords(SubWord(RotWord(temp)), Rcon(i / 8))
               else if i % 8 == 4 then SubWord(temp)
               else temp)
  }

  function ByteAt(v: Column, c: nat): Byte
    requires c < 4
  {
    if c == 0 then v.a else if c == 1 then v.b else if c == 2 then v.c else v.d
  }

  /** Byte n of the expanded key. */
  function ExpandedByte(key: Bytes, n: nat): Byte
    requires |key| == KEY_BYTES
  {
    ByteAt(Word(key, n / 4), n % 4)
  }

  ghost predicate Expands(key: Bytes, w: Bytes)
    requires |key| == KEY_BYTES
  {
    |w| == KEY_SCHEDULE_BYTES && forall n :: 0 <= n < |w| ==> w[n] == ExpandedByte(key, n)
  }

  // ---------- the recurrence, byte by byte ----------

  lemma KeyByte(key: Bytes, n: nat)
    requires |key| == KEY_BYTES && n < 32
    ensures ExpandedByte(key, n) == key[n]
  {
    hide Xor, SBox;
    var i, c := n / 4, n % 4;
    assert n == 4 * i + c;
  }

  lemma PlainByte(key: Bytes, n: nat)
    requires |key| == KEY_BYTES && n >= 32 && n / 4 % 8 != 0 && n / 4 % 8 != 4
    ensures ExpandedByte(key, n) == Xor(ExpandedByte(key, n - 32), ExpandedByte(key, n - 4))
  {
    hide Xor, SBox, AesField.Power;
    Positions(n);
  }

  lemma SubstitutedByte(key: Bytes, n: nat)
    requires |key| == KEY_BYTES && n >= 32 && n / 4 % 8 == 4
    ensures ExpandedByte(key, n) == Xor(ExpandedByte(key, n - 32), SBox(ExpandedByte(key, n - 4)))
  {
    hide Xor, SBox, AesField.Power;
    Positions(n);
  }

  lemma Positions(n: nat)
    requires n >= 32
    ensures (n - 32) / 4 == n / 4 - 8 && (n - 32) % 4 == n % 4 && (n - 4) / 4 == n / 4 - 1 && (n - 4) % 4 == n % 4
  {
  }

  /** The four bytes of a word whose predecessor is rotated, substituted and masked. */
  lemma RotatedWord(key: Bytes, base: nat)
    requires |key| == KEY_BYTES && base > 0
    ensures var k := 32 * base;
            && ExpandedByte(key, k) ==
               Xor(Xor(ExpandedByte(key, k - 32), SBox(ExpandedByte(key, k - 3))), AesField.Power(1, base - 1))
            && ExpandedByte(key, k + 1) == Xor(ExpandedByte(key, k - 31), SBox(ExpandedByte(key, k - 2)))
            && ExpandedByte(key, k + 2) == Xor(ExpandedByte(key, k - 30), SBox(ExpandedByte(key, k - 1)))
            && ExpandedByte(key, k + 3) == Xor(ExpandedByte(key, k - 29), SBox(ExpandedByte(key, k - 4)))
  {
    hide Xor, SBox, AesField.Power, Word, ExpandedByte;
    var i := 8 * base;
    var temp, prev := Word(key, i - 1), Word(key, i - 8);
    RotatedStep(key, base);
    WordBytes(key, i);
    WordBytes(key, i - 1);
    WordBytes(key, i - 8);
    XorAssoc(prev.a, SBox(temp.b), AesField.Power(1, base - 1));
    XorCancels(SBox(temp.c), 0);
    XorCancels(SBox(temp.d), 0);
    XorCancels(SBox(temp.a), 0);
  }

  lemma WordBytes(key: Bytes, i: nat)
    requires |key| == KEY_BYTES
    ensures ExpandedByte(key, 4 * i) == Word(key, i).a && ExpandedByte(key, 4 * i + 1) == Word(key, i).b
    ensures ExpandedByte(key, 4 * i + 2) == Word(key, i).c && ExpandedByte(key, 4 * i + 3) == Word(key, i).d
  {
    hide Word, ExpandedByte;
    WordByte(key, i, 0);
    WordByte(key, i, 1);
    WordByte(key, i, 2);
    WordByte(key, i, 3);
  }

  lemma WordByte(key: Bytes, i: nat, c: nat)
    requires |key| == KEY_BYTES && c < 4
    ensures ExpandedByte(key, 4 * i + c) == ByteAt(Word(key, i), c)
  {
    hide Word, ByteAt;
    Quarter(i, c);
  }

  lemma Quarter(i: nat, c: nat)
    requires c < 4
    ensures (4 * i + c) / 4 == i && (4 * i + c) % 4 == c
  {
  }

  lemma RotatedStep(key: Bytes, base: nat)
    requires |key| == KEY_BYTES && base > 0
    ensures var i := 8 * base;
            Word(key, i) == XorWords(Word(key, i - 8), XorWords(SubWord(RotWord(Word(key, i - 1))), Rcon(base)))
  {
    hide XorWords, SubWord, RotWord, Rcon;
    assert 8 * base % 8 == 0 && 8 * base / 8 == base;
  }

  // ---------- the program ----------

  /** The first n bytes of w are those of the expanded key. */
  ghost predicate FilledTo(w: array<Byte>, key: Bytes, n: nat)
    requires |key| == KEY_BYTES
    reads w
  {
    w.Length == KEY_SCHEDULE_BYTES && n <= w.Length && forall i :: 0 <= i < n ==> w[i] == ExpandedByte(key, i)
  }

  method CopyKey(key: Bytes, w: array<Byte>)
    requires |key| == KEY_BYTES && w.Length == KEY_SCHEDULE_BYTES
    modifies w
    ensures FilledTo(w, key, 32)
  {
    hide ExpandedByte;
    for i := 0 to 32
      invariant FilledTo(w, key, i)
    {
      KeyByte(key, i);
      w[i] := key[i];
    }
  }

  method RotateFirstWord(key: Bytes, w: array<Byte>, base: nat)
    requires |key| == KEY_BYTES && 1 <= base <= 7 && FilledTo(w, key, 32 * base)
    modifies w
    ensures FilledTo(w, key, 32 * base + 4)
  {
    hide ExpandedByte, SBox, Xor, AesField.Power;
    var k := 32 * base;
    var prev := k - 32;
    var rcon := RoundConstant(base);
    RotatedWord(key, base);
    w[k] := Xor(Xor(w[prev], SBox(w[prev + 29])), rcon);
    w[k + 1] := Xor(w[prev + 1], SBox(w[prev + 30]));
    w[k + 2] := Xor(w[prev + 2], SBox(w[prev + 31]));
    w[k + 3] := Xor(w[prev + 3], SBox(w[prev + 28]));
  }

  /** 1 << (base - 1), which is x^(base-1) as long as no reduction is needed. */
  function RoundConstant(base: nat): (r: Byte)
    requires 1 <= base <= 7
    ensures r == AesField.Power(1, base - 1)
  {
    PowersOfX();
    if base == 1 then 0x01 else if base == 2 then 0x02 else if base == 3 then 0x04 else if base == 4 then 0x08
    else if base == 5 then 0x10 else if base == 6 then 0x20 else 0x40
  }

  lemma PowersOfX()
    ensures AesField.Power(1, 0) == 0x01 && AesField.Power(1, 1) == 0x02 && AesField.Power(1, 2) == 0x04
    ensures AesField.Power(1, 3) == 0x08 && AesField.Power(1, 4) == 0x10 && AesField.Power(1, 5) == 0x20
    ensures AesField.Power(1, 6) == 0x40
  {
    AesField.PowerStep(1, 0); AesField.PowerStep(1, 1); AesField.PowerStep(1, 2);
    AesField.PowerStep(1, 3); AesField.PowerStep(1, 4); AesField.PowerStep(1, 5);
  }

  method FillPlain(key: Bytes, w: array<Byte>, from: nat, to: nat)
    requires |key| == KEY_BYTES && 32 <= from <= to <= KEY_SCHEDULE_BYTES && FilledTo(w, key, from)
    requires forall n :: from <= n < to ==> n / 4 % 8 != 0 && n / 4 % 8 != 4
    modifies w
    ensures FilledTo(w, key, to)
  {
    hide ExpandedByte, Xor;
    for i := from to to
      invariant FilledTo(w, key, i)
    {
      PlainByte(key, i);
      w[i] := Xor(w[i - 32], w[i - 4]);
    }
  }

  method FillSubstituted(key: Bytes, w: array<Byte>, from: nat)
    requires |key| == KEY_BYTES && 32 <= from && from + 4 <= KEY_SCHEDULE_BYTES && FilledTo(w, key, from)
    requires from % 32 == 16
    modifies w
    ensures FilledTo(w, key, from + 4)
  {
    hide ExpandedByte, Xor, SBox;
    for i := from to from + 4
      invariant FilledTo(w, key, i)
    {
      SubstitutedByte(key, i);
      w[i] := Xor(w[i - 32], SBox(w[i - 4]));
    }
  }

  /** Fills all 240 bytes, leaving the last turn of the loop in its middle. */
  method MakeKeySchedule(key: Bytes, w: array<Byte>)
    requires |key| == KEY_BYTES && w.Length == KEY_SCHEDULE_BYTES
    modifies w
    ensures Expands(key, w[..])
  {
    hide ExpandedByte, FilledTo;
    CopyKey(key, w);
    var base := 1;
    while true
      invariant 1 <= base <= 7 && FilledTo(w, key, 32 * base)
      decreases 7 - base
    {
      var k := 32 * base;
      RotateFirstWord(key, w, base);
      FillPlain(key, w, k + 4, k + 16);
      if base == 7 {
        break;
      }
      FillSubstituted(key, w, k + 16);
      FillPlain(key, w, k + 20, k + 32);
      base := base + 1;
    }
    FilledWhole(w, key);
  }

  lemma FilledWhole(w: array<Byte>, key: Bytes)
    requires |key| == KEY_BYTES && FilledTo(w, key, 240)
    ensures Expands(key, w[..])
  {
    hide ExpandedByte;
  }
}
