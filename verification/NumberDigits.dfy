/** Zero, texts of digits, the kanji output, and which characters each style prints. */
module NumberDigits {
  import opened Wrappers
  import opened NumberParser
  import opened NumberReading
  import opened NumberRoundTrip
  import opened NumberPrinter
  import opened NumberText
  import opened NumberTextRoundTrip
  import opened NumberCandidates

  // ---------- texts of the same meaning ----------

  /** Only what the characters stand for matters. */
  lemma SameMeaning(s: string, t: string, trim: bool)
    requires Meaning(s) == Meaning(t) && (Known(s) <==> Known(t))
    ensures NormalForm(s, trim) == NormalForm(t, trim)
  {
    hide Known, Meaning, Normalize, KeptZeros, Decimal;
  }

  function Replaced(s: string, from: char, to: char): (t: string)
    ensures |t| == |s| && forall i :: 0 <= i < |s| ==> t[i] == if s[i] == from then to else s[i]
  {
    seq(|s|, i requires 0 <= i < |s| => if s[i] == from then to else s[i])
  }

  lemma SameCharacter(s: string, from: char, to: char, n: U64, trim: bool)
    requires KanjiNumberToArabicNumber(from) == Some(n) == KanjiNumberToArabicNumber(to)
    ensures NormalForm(Replaced(s, from, to), trim) == NormalForm(s, trim)
  {
    hide KanjiNumberToArabicNumber, NormalForm;
    NotInTable(from);
    NotInTable(to);
    var t := Replaced(s, from, to);
    assert forall i :: 0 <= i < |s| ==> Symbol(t[i]) == Symbol(s[i]);
    assert forall i :: 0 <= i < |s| ==>
      (KanjiNumberToArabicNumber(t[i]).Some? <==> KanjiNumberToArabicNumber(s[i]).Some?);
    SameMeaning(s, t, trim);
  }

  /** 零 may stand for 0 anywhere in a text. */
  lemma ZeroIsZero(s: string, trim: bool)
    ensures NormalForm(Replaced(s, '零', '0'), trim) == NormalForm(s, trim)
  {
    hide NormalForm;
    SameCharacter(s, '零', '0', 0, trim);
  }

  // ---------- zero ----------

  /** The one candidate of zero normalises to a single 0. */
  method PrintZero(input: string, trim: bool) returns (output: seq<NumberString>, arabic: string)
    requires IsDecimalInteger(input) && StripZeros(input) == ""
    ensures output == [NumberString("零", "大字", NumberOldKanji)]
    ensures NormalForm(output[0].value, trim) == Some(arabic) && arabic == "0"
  {
    var printed, ok, kanji;
    printed, output := ArabicToKanji(input, []);
    ok, kanji, arabic := NormalizeNumbers(output[0].value, trim);
    ZeroText(trim);
  }

  lemma ZeroText(trim: bool)
    ensures NormalForm("零", trim) == Some("0")
  {
    MeaningOfOne('零', 0);
    DigitsAreKept("0", trim);
    MeaningOfOne('0', 0);
    SameMeaning("零", "0", trim);
  }

  // ---------- texts of decimal digits ----------

  lemma {:induction false} DigitsStandForThemselves(s: string)
    requires AllDigits(s)
    ensures Known(s) && Meaning(s) == DigitValues(s) && Base10(DigitValues(s)) == NumericValue(s)
    decreases |s|
  {
    hide KanjiNumberToArabicNumber;
    forall i | 0 <= i < |s| ensures KanjiNumberToArabicNumber(s[i]) == Some(DigitOf(s[i])) { OneDigit(s[i]); }
    if s != "" {
      var k := |s| - 1;
      DigitsStandForThemselves(s[..k]);
      assert DigitValues(s)[..k] == DigitValues(s[..k]);
    }
  }

  lemma OneDigit(c: char)
    requires IsDigit(c)
    ensures KanjiNumberToArabicNumber(c) == Some(DigitOf(c)) && Symbol(c) == DigitOf(c)
  {
  }

  lemma {:induction false} ZerosInFront(s: string)
    requires AllDigits(s)
    ensures |SkipZeros(DigitValues(s))| == |StripZeros(s)|
    ensures s == Zeros(|s| - |StripZeros(s)|) + StripZeros(s)
    decreases |s|
  {
    hide StripZeros, SkipZeros, DigitValues, DigitOf;
    FrontDigit(s);
    if s != "" && s[0] == '0' {
      var t, n := s[1..], |s| - |StripZeros(s)|;
      ZerosInFront(t);
      OneMoreZero(n - 1);
      assert s == "0" + t && t == Zeros(n - 1) + StripZeros(t);
      assert "0" + (Zeros(n - 1) + StripZeros(t)) == "0" + Zeros(n - 1) + StripZeros(t);
    } else {
      assert Zeros(0) == "" && "" + s == s;
    }
  }

  lemma OneMoreZero(n: nat)
    ensures Zeros(n + 1) == "0" + Zeros(n)
  {
  }

  lemma FrontDigit(s: string)
    requires AllDigits(s)
    ensures StripZeros(s) == if s != "" && s[0] == '0' then StripZeros(s[1..]) else s
    ensures SkipZeros(DigitValues(s)) ==
            if s != "" && s[0] == '0' then SkipZeros(DigitValues(s[1..])) else DigitValues(s)
  {
    if s != "" { assert DigitValues(s)[1..] == DigitValues(s[1..]) && DigitValues(s)[0] == DigitOf(s[0]); }
  }

  /** A text of digits within 64 bits is kept as it is, zeros and all, or loses its leading zeros. */
  lemma DigitsAreKept(s: string, trim: bool)
    requires s != "" && AllDigits(s)
    ensures NormalForm(s, trim) ==
            if NumericValue(s) > U64_MAX then None
            else if !trim then Some(s)
            else Some(if StripZeros(s) == "" then "0" else StripZeros(s))
  {
    hide Known, Normalize, Decimal, SkipZeros, StripZeros, NumericValue, Base10, Meaning;
    var ns := DigitValues(s);
    DigitsStandForThemselves(s);
    NormalizeDigits(ns);
    ZerosInFront(s);
    if StripZeros(s) == "" {
      ValueWithoutZeros(s);
      EmptyValue();
      assert Zeros(|s|) == Zeros(|s| - 1) + "0";
      assert Zeros(|s|) + "" == Zeros(|s|);
      DecimalZero();
    } else {
      DecimalForm(s);
      assert "" + StripZeros(s) == StripZeros(s);
    }
  }

  lemma DecimalZero()
    ensures Decimal(0) == "0" && Zeros(0) == "" && "" + "0" == "0"
  {
  }

  lemma NormalizeDigits(ns: Tokens)
    requires ns != [] && forall i :: 0 <= i < |ns| ==> ns[i] < 10
    ensures Normalize(ns) == if Base10(ns) <= U64_MAX then Some(Base10(ns)) else None
  {
    hide Interpret;
  }

  // ---------- the kanji output ----------

  predicate IsArabicDigit(c: char) {
    '0' <= c <= '9' || '０' <= c <= '９'
  }

  predicate IsArabicZero(c: char) {
    c == '0' || c == '０'
  }

  /** The kanji output has no Arabic digit left; every other character stands for what it stood for. */
  lemma KanjiCharacter(c: char)
    ensures !IsArabicDigit(KanjiForm(c))
    ensures !IsArabicDigit(c) ==> KanjiForm(c) == c
    ensures IsArabicZero(c) ==> KanjiForm(c) == '〇'
    ensures !IsArabicZero(c) ==> KanjiNumberToArabicNumber(KanjiForm(c)) == KanjiNumberToArabicNumber(c)
  {
    if IsArabicDigit(c) {
      var d := c as int - if c <= '9' then '0' as int else '０' as int;
      if d < 5 { KanjiDigits(d); } else { KanjiDigits(d); }
    }
  }

  lemma KanjiDigits(d: nat)
    requires d < 10
    ensures !IsArabicDigit(KANJI_DIGITS[d]) && KANJI_DIGITS[0] == '〇'
    ensures d > 0 ==> KanjiNumberToArabicNumber(KANJI_DIGITS[d]) == Some(d)
  {
  }

  ghost predicate HasArabicZero(s: string) {
    exists i :: 0 <= i < |s| && IsArabicZero(s[i])
  }

  /**
    The kanji output is a number text of the same number, except that 〇, which it writes for an Arabic zero,
    is not in the table.
  */
  lemma KanjiOutput(s: string, trim: bool)
    ensures NormalForm(KanjiForms(s), trim) == if HasArabicZero(s) then None else NormalForm(s, trim)
    ensures forall i :: 0 <= i < |s| ==> !IsArabicDigit(KanjiForms(s)[i])
  {
    hide KanjiNumberToArabicNumber, KanjiForm, IsArabicZero, IsArabicDigit, NormalForm;
    var t := KanjiForms(s);
    forall i | 0 <= i < |s|
      ensures !IsArabicDigit(t[i])
      ensures !IsArabicZero(s[i]) ==> KanjiNumberToArabicNumber(t[i]) == KanjiNumberToArabicNumber(s[i])
      ensures IsArabicZero(s[i]) ==> t[i] == '〇'
    {
      KanjiCharacter(s[i]);
    }
    NoCircle();
    if HasArabicZero(s) {
      var i :| 0 <= i < |s| && IsArabicZero(s[i]);
      UnknownText(t, i, trim);
    } else {
      SymbolsAgree(s, t);
      SameOrUnknown(s, t, trim);
    }
  }

  lemma NoCircle()
    ensures KanjiNumberToArabicNumber('〇') == None
  {
  }

  lemma UnknownText(t: string, i: nat, trim: bool)
    requires i < |t| && KanjiNumberToArabicNumber(t[i]) == None
    ensures NormalForm(t, trim) == None
  {
    hide KanjiNumberToArabicNumber;
    assert !Known(t);
  }

  lemma SymbolsAgree(s: string, t: string)
    requires |s| == |t|
    requires forall i :: 0 <= i < |s| ==> KanjiNumberToArabicNumber(t[i]) == KanjiNumberToArabicNumber(s[i])
    ensures Known(s) <==> Known(t)
    ensures Known(s) ==> Meaning(s) == Meaning(t)
  {
    hide KanjiNumberToArabicNumber;
    if Known(s) {
      forall i | 0 <= i < |s| ensures Symbol(s[i]) == Symbol(t[i]) {
        NotInTable(s[i]);
        NotInTable(t[i]);
      }
    }
  }

  lemma SameOrUnknown(s: string, t: string, trim: bool)
    requires Known(s) <==> Known(t)
    requires Known(s) ==> Meaning(s) == Meaning(t)
    ensures NormalForm(s, trim) == NormalForm(t, trim)
  {
    hide Known, Meaning, Normalize, KeptZeros, Decimal;
  }

  // ---------- characters that are no part of a number ----------

  /** 卅 and 卌 are number characters, but no number contains them alone. */
  lemma ThirtyIsRefused(trim: bool)
    ensures Known("卅") && Meaning("卅") == [30] && NormalForm("卅", trim) == None
    ensures Known("卌") && Meaning("卌") == [40] && NormalForm("卌", trim) == None
  {
    hide Normalize;
    MeaningOfOne('卅', 30);
    MeaningOfOne('卌', 40);
    NoPlace(30);
    NoPlace(40);
  }

  lemma NoPlace(n: U64)
    requires n == 30 || n == 40
    ensures Normalize([n]) == None
  {
    hide ReduceDigits;
    DeclinedAlone(n);
    assert !ReadPlaces([n]).Accepted();
    assert MaxToken([n]) == n;
    InterpretIs([n], U64_MAX, 0);
  }

  lemma DeclinedAlone(n: U64)
    requires n == 30 || n == 40
    ensures ReduceDigits([n], 1000) == Declined([n]) == ReduceDigits([n], 100) == ReduceDigits([n], 10)
    ensures ReduceOnes([n]) == Declined([n])
  {
    hide CrowdedRun;
  }

  // ---------- the characters of each style ----------

  /** The digits of a style, 0 first where it has one, by their code points. */
  lemma DigitGlyphs(d: nat)
    requires d < 10
    ensures DigitText(NumberArabicAndKanjiHalfwidth, d) == [(0x30 + d) as char]
    ensures DigitText(NumberArabicAndKanjiFullwidth, d) == [(0xFF10 + d) as char]
    ensures d > 0 ==> DigitText(NumberKanji, d) == [Kanji()[d - 1]]
    ensures d > 0 ==> DigitText(NumberOldKanji, d) == [if d <= 3 then "壱弐参"[d - 1] else Kanji()[d - 1]]
    ensures DigitText(NumberOldKanji, 0) == ""
  {
    assert HALF_WIDTH_DIGITS[d] as int == 0x30 + d && FULL_WIDTH_DIGITS[d] as int == 0xFF10 + d;
  }

  function Kanji(): (s: string)
    ensures |s| == 9
  {
    "一二三四五六七八九"
  }

  /** The ranks of a style, by their code points. */
  lemma RankGlyphs(style: Style)
    ensures RankText(style, 1) == "" && RankText(style, 3) == "百"
    ensures RankText(style, 2) == if style.NumberOldKanji? then "拾" else "十"
    ensures RankText(style, 4) == if style.NumberOldKanji? then "阡" else "千"
    ensures BiggerRankText(style, 0) == "" && BiggerRankText(style, 1) == if style.NumberOldKanji? then "萬" else "万"
    ensures BiggerRankText(style, 2) == "億" && BiggerRankText(style, 3) == "兆" && BiggerRankText(style, 4) == "京"
  {
  }
}
