/** Printing a number and normalising the printed text. */
module NumberTextRoundTrip {
  import opened Wrappers
  import opened NumberParser
  import opened NumberRoundTrip
  import opened NumberPrinter
  import opened NumberText

  // ---------- the value of a string of digits ----------

  function NumericValue(s: string): nat
    requires AllDigits(s)
  {
    if s == "" then 0 else NumericValue(s[..|s| - 1]) * 10 + DigitOf(s[|s| - 1])
  }

  function GroupOf(segment: string): (g: Group)
    requires |segment| == DIGITS_IN_BIG_RANK && AllDigits(segment)
    ensures g.Valid()
  {
    Group(DigitOf(segment[0]), DigitOf(segment[1]), DigitOf(segment[2]), DigitOf(segment[3]))
  }

  function Groups(segments: seq<string>): (gs: seq<Group>)
    requires IsSegments(segments)
    ensures AllValid(gs) && |gs| == |segments|
    ensures forall i :: 0 <= i < |gs| ==> gs[i] == GroupOf(segments[i])
  {
    seq(|segments|, i requires 0 <= i < |segments| => GroupOf(segments[i]))
  }

  lemma NumericAppend(s: string, t: string)
    requires AllDigits(s) && AllDigits(t) && |t| == 1
    ensures NumericValue(s + t) == NumericValue(s) * 10 + DigitOf(t[0])
  {
    assert (s + t)[..|s|] == s;
  }

  lemma NumericAppendGroup(s: string, t: string)
    requires AllDigits(s) && AllDigits(t) && |t| == 4
    ensures NumericValue(s + t) == NumericValue(s) * 10000 + GroupOf(t).Value()
  {
    hide NumericValue, DigitOf;
    NumericAppend(s, t[..1]);
    NumericAppend(s + t[..1], t[1..2]);
    NumericAppend(s + t[..1] + t[1..2], t[2..3]);
    NumericAppend(s + t[..1] + t[1..2] + t[2..3], t[3..]);
    assert s + t[..1] + t[1..2] + t[2..3] + t[3..] == s + t;
  }

  /** The last 4r digits weigh what their groups weigh. */
  lemma {:induction false} NumericConcat(x: string, y: string, r: nat)
    requires AllDigits(x) && AllDigits(y) && |y| == 4 * r
    ensures NumericValue(x + y) == NumericValue(x) * Rank(r) + NumericValue(y)
  {
    hide NumericValue, AllDigits;
    if r == 0 {
      assert x + y == x && y == "";
      EmptyValue();
    } else {
      var k := |y| - 4;
      SplitDigits(y, k);
      BothDigits(x, y[..k]);
      var y', t := y[..k], y[k..];
      NumericConcat(x, y', r - 1);
      NumericConcatStep(x, y', t, Rank(r - 1));
      assert y' + t == y && x + y' + t == x + y;
    }
  }

  lemma EmptyValue()
    ensures NumericValue("") == 0
  {
  }

  lemma SplitDigits(s: string, k: nat)
    requires AllDigits(s) && k <= |s|
    ensures AllDigits(s[..k]) && AllDigits(s[k..])
  {
  }

  lemma BothDigits(s: string, t: string)
    requires AllDigits(s) && AllDigits(t)
    ensures AllDigits(s + t)
  {
  }

  lemma NumericConcatStep(x: string, y: string, t: string, rank: nat)
    requires AllDigits(x) && AllDigits(y) && AllDigits(t) && |t| == 4
    requires NumericValue(x + y) == NumericValue(x) * rank + NumericValue(y)
    ensures NumericValue(x + y + t) == NumericValue(x) * (10000 * rank) + NumericValue(y + t)
  {
    hide NumericValue, GroupOf, Group.Value;
    NumericAppendGroup(x + y, t);
    NumericAppendGroup(y, t);
    Scale(NumericValue(x), rank, NumericValue(y));
  }

  lemma Scale(a: nat, rank: nat, b: nat)
    ensures (a * rank + b) * 10000 == a * (10000 * rank) + b * 10000
  {
  }

  lemma {:induction false} SegmentsValue(p: string, r: nat)
    requires AllDigits(p) && |p| % DIGITS_IN_BIG_RANK == 0 && IsSegments(Segments(p)) && r <= |Segments(p)|
    ensures NumericValue(p[|p| - 4 * r..]) == GroupsValue(Groups(Segments(p)), r)
  {
    if r == 0 {
      assert p[|p|..] == "";
    } else {
      hide Weight, Rank, NumericValue, Segments, Groups, GroupOf, Group.Value;
      SegmentsValue(p, r - 1);
      var x, y := p[|p| - 4 * r..|p| - 4 * r + 4], p[|p| - 4 * r + 4..];
      assert p[|p| - 4 * r..] == x + y;
      assert Segments(p)[r - 1] == x;
      NumericConcat(x, y, r - 1);
      OneGroup(x);
      WeightIs(GroupOf(x), r - 1);
    }
  }

  lemma OneGroup(x: string)
    requires AllDigits(x) && |x| == 4
    ensures NumericValue(x) == GroupOf(x).Value()
  {
    NumericAppendGroup("", x);
    assert "" + x == x;
    assert NumericValue("") == 0;
  }

  lemma {:induction false} NumericLeadingZeros(n: nat, s: string)
    requires AllDigits(s)
    ensures AllDigits(Zeros(n) + s) && NumericValue(Zeros(n) + s) == NumericValue(s)
    decreases |s|, n
  {
    if s == "" {
      assert Zeros(n) + s == Zeros(n);
      if n > 0 {
        NumericLeadingZeros(n - 1, s);
        assert Zeros(n)[..n - 1] == Zeros(n - 1) == Zeros(n - 1) + s;
      }
    } else {
      var k := |s| - 1;
      NumericLeadingZeros(n, s[..k]);
      assert (Zeros(n) + s)[..n + k] == Zeros(n) + s[..k];
    }
  }

  /** Padding and grouping keep the value of the input. */
  lemma GroupedValue(input: string)
    requires IsDecimalInteger(input) && |input| <= 20 && IsSegments(Segments(Padded(input)))
    ensures var gs := Groups(Segments(Padded(input)));
            GroupsValue(gs, |gs|) == NumericValue(input)
  {
    hide NumericValue, GroupsValue, Segments, Groups;
    var p := Padded(input);
    var zeros := |p| - |input|;
    assert p == Zeros(zeros) + input;
    NumericLeadingZeros(zeros, input);
    SegmentsValue(p, |Segments(p)|);
    assert p[0..] == p;
  }

  // ---------- decimal notation ----------

  lemma {:induction false} DecimalOfValue(s: string)
    requires AllDigits(s) && s != "" && s[0] != '0'
    ensures NumericValue(s) > 0 && Decimal(NumericValue(s)) == s
  {
    hide Decimal, DigitOf;
    var k := |s| - 1;
    assert s == s[..k] + [s[k]];
    if k == 0 {
      EmptyValue();
      assert s[..0] == "";
      DecimalOfDigit(s[0]);
    } else {
      DecimalOfValue(s[..k]);
      DecimalStep(NumericValue(s[..k]), s[k]);
    }
  }

  lemma DecimalOfDigit(c: char)
    requires IsDigit(c)
    ensures Decimal(DigitOf(c)) == [c]
  {
  }

  lemma DecimalStep(q: nat, c: char)
    requires q > 0 && IsDigit(c)
    ensures Decimal(q * 10 + DigitOf(c)) == Decimal(q) + [c]
  {
    LastDigit(q, DigitOf(c));
  }

  lemma LastDigit(q: nat, d: nat)
    requires d < 10
    ensures (q * 10 + d) / 10 == q && (q * 10 + d) % 10 == d
  {
  }

  lemma {:induction false} ValueWithoutZeros(s: string)
    requires AllDigits(s)
    ensures AllDigits(StripZeros(s)) && NumericValue(StripZeros(s)) == NumericValue(s)
    decreases |s|
  {
    if s != "" && s[0] == '0' {
      ValueWithoutZeros(s[1..]);
      NumericLeadingZeros(1, s[1..]);
      assert Zeros(1) + s[1..] == s;
    }
  }

  /** The decimal form of a digit string's value is the string without its leading zeros. */
  lemma DecimalForm(input: string)
    requires AllDigits(input) && StripZeros(input) != ""
    ensures NumericValue(input) > 0 && Decimal(NumericValue(input)) == StripZeros(input)
  {
    ValueWithoutZeros(input);
    DecimalOfValue(StripZeros(input));
  }

  // ---------- what the printed characters stand for ----------

  function SpellingOf(style: Style): Spelling {
    match style
    case NumberArabicAndKanjiHalfwidth => Arabic
    case NumberArabicAndKanjiFullwidth => Arabic
    case NumberKanji => Kanji
    case NumberOldKanji => Formal
  }

  lemma MeaningConcat(s: string, t: string)
    ensures Meaning(s + t) == Meaning(s) + Meaning(t)
    ensures Known(s + t) <==> Known(s) && Known(t)
  {
    hide Symbol, KanjiNumberToArabicNumber;
    assert forall i :: 0 <= i < |s| ==> (s + t)[i] == s[i];
    assert forall i :: 0 <= i < |t| ==> (s + t)[|s| + i] == t[i];
  }

  lemma MeaningOfOne(c: char, n: U64)
    requires Symbol(c) == n
    ensures Meaning([c]) == [n]
    ensures Known([c]) <==> KanjiNumberToArabicNumber(c).Some?
  {
    hide Symbol, KanjiNumberToArabicNumber;
    assert [c][0] == c;
  }

  lemma MeaningOfEmpty()
    ensures Meaning("") == [] && Known("")
  {
  }

  lemma ArabicDigitMeaning(style: Style, d: nat)
    requires d < 10 && style.PlainDigits()
    ensures Meaning(DigitText(style, d)) == [d] && Known(DigitText(style, d))
  {
    var c := DigitText(style, d)[0];
    if style.NumberArabicAndKanjiHalfwidth? {
      assert HALF_WIDTH_DIGITS[d] as int == '0' as int + d;
    } else {
      assert FULL_WIDTH_DIGITS[d] as int == '０' as int + d;
    }
    MeaningOfOne(c, d);
  }

  lemma KanjiDigitMeaning(d: nat)
    requires 0 < d < 10
    ensures Meaning(DigitText(NumberKanji, d)) == [d] && Known(DigitText(NumberKanji, d))
  {
    MeaningOfOne(KANJI_DIGITS[d], d);
  }

  lemma OldDigitMeaning(d: nat)
    requires 0 < d < 10
    ensures Meaning(DigitText(NumberOldKanji, d)) == [d] && Known(DigitText(NumberOldKanji, d))
  {
    MeaningOfOne(OLD_KANJI_DIGITS[d - 1], d);
  }

  lemma DigitMeaning(style: Style, d: nat)
    requires 0 < d < 10 || (d == 0 && style.PlainDigits())
    ensures Meaning(DigitText(style, d)) == [d] && Known(DigitText(style, d))
  {
    hide DigitText, Known;
    if style.PlainDigits() { ArabicDigitMeaning(style, d); }
    else if style.NumberKanji? { KanjiDigitMeaning(d); }
    else { OldDigitMeaning(d); }
  }

  // ---------- groups ----------

  function UnitAt(i: nat): U64
    requires i < 3
  {
    if i == 0 then 1000 else if i == 1 then 100 else 10
  }

  lemma RankMeaning(style: Style, i: nat)
    requires !style.PlainDigits() && i < 3
    ensures Meaning(RankText(style, 4 - i)) == [UnitAt(i)]
    ensures Known(RankText(style, 4 - i)) <==> !(style.NumberOldKanji? && i == 0)
  {
    MeaningOfOne(RankText(style, 4 - i)[0], UnitAt(i));
  }

  lemma PlaceMeaning(style: Style, segment: string, i: nat)
    requires |segment| == DIGITS_IN_BIG_RANK && AllDigits(segment) && i < 3 && !style.PlainDigits()
    ensures Meaning(PlaceText(style, segment, i)) == Place(SpellingOf(style), DigitOf(segment[i]), UnitAt(i))
    ensures Known(PlaceText(style, segment, i)) <==> !(style.NumberOldKanji? && i == 0 && segment[i] != '0')
  {
    hide DigitText, RankText, Known, DigitOf;
    MeaningOfEmpty();
    if segment[i] != '0' {
      var d := DigitOf(segment[i]);
      RankMeaning(style, i);
      DigitMeaning(style, d);
      MeaningConcat(DigitText(style, d), RankText(style, 4 - i));
      assert "" + RankText(style, 4 - i) == RankText(style, 4 - i);
    }
  }

  lemma OnesMeaning(style: Style, segment: string)
    requires |segment| == DIGITS_IN_BIG_RANK && AllDigits(segment) && !style.PlainDigits()
    ensures Meaning(PlaceText(style, segment, 3)) == Ones(DigitOf(segment[3]))
    ensures Known(PlaceText(style, segment, 3))
  {
    hide DigitText, Known, DigitOf;
    MeaningOfEmpty();
    if segment[3] != '0' {
      var d := DigitOf(segment[3]);
      DigitMeaning(style, d);
      assert DigitText(style, d) + "" == DigitText(style, d);
    }
  }

  lemma PlacesMeaning(style: Style, segment: string)
    requires |segment| == DIGITS_IN_BIG_RANK && AllDigits(segment) && !style.PlainDigits()
    ensures Meaning(PlacesText(style, segment, 4)) == GroupTokens(SpellingOf(style), GroupOf(segment))
    ensures Known(PlacesText(style, segment, 4)) <==> !(style.NumberOldKanji? && segment[0] != '0')
  {
    hide PlaceText, Known, DigitOf, Place, Ones, Meaning;
    var p0, p1, p2, p3 := PlaceText(style, segment, 0), PlaceText(style, segment, 1),
                          PlaceText(style, segment, 2), PlaceText(style, segment, 3);
    PlaceMeaning(style, segment, 0);
    PlaceMeaning(style, segment, 1);
    PlaceMeaning(style, segment, 2);
    OnesMeaning(style, segment);
    UnrollPlaces(style, segment);
    MeaningConcat(p0, p1);
    MeaningConcat(p0 + p1, p2);
    MeaningConcat(p0 + p1 + p2, p3);
  }

  lemma UnrollPlaces(style: Style, segment: string)
    requires |segment| == DIGITS_IN_BIG_RANK && AllDigits(segment)
    ensures PlacesText(style, segment, 4) ==
            PlaceText(style, segment, 0) + PlaceText(style, segment, 1) + PlaceText(style, segment,
              2) + PlaceText(style, segment, 3)
  {
    hide PlaceText;
    assert PlacesText(style, segment, 1) == PlaceText(style, segment, 0);
    assert PlacesText(style, segment, 3) ==
           PlaceText(style, segment, 0) + PlaceText(style, segment, 1) + PlaceText(style, segment, 2);
  }

  function DigitValues(s: string): (ns: Tokens)
    requires AllDigits(s)
    ensures |ns| == |s| && forall i :: 0 <= i < |s| ==> ns[i] == DigitOf(s[i])
  {
    seq(|s|, i requires 0 <= i < |s| => DigitOf(s[i]))
  }

  lemma {:induction false} DigitsMeaning(style: Style, s: string)
    requires AllDigits(s) && style.PlainDigits()
    ensures Meaning(DigitsText(style, s)) == DigitValues(s) && Known(DigitsText(style, s))
  {
    hide DigitText, Known, DigitOf, Symbol, Meaning;
    if s == "" {
      MeaningOfEmpty();
    } else {
      var k := |s| - 1;
      var d := DigitOf(s[k]);
      DigitsMeaning(style, s[..k]);
      DigitMeaning(style, d);
      MeaningConcat(DigitsText(style, s[..k]), DigitText(style, d));
      assert DigitValues(s) == DigitValues(s[..k]) + [d];
    }
  }

  lemma {:induction false} StrippedValues(s: string)
    requires AllDigits(s)
    ensures AllDigits(StripZeros(s)) && DigitValues(StripZeros(s)) == SkipZeros(DigitValues(s))
    decreases |s|
  {
    hide DigitOf, IsDigit;
    if s != "" {
      assert DigitValues(s)[0] == DigitOf(s[0]);
      if s[0] == '0' {
        StrippedValues(s[1..]);
        assert DigitValues(s)[1..] == DigitValues(s[1..]);
      }
    }
  }

  lemma PlainSegmentMeaning(style: Style, segment: string)
    requires |segment| == DIGITS_IN_BIG_RANK && AllDigits(segment) && style.PlainDigits()
    ensures var text := DigitsText(style, StripZeros(segment));
            Known(text) && Meaning(text) == GroupTokens(Arabic, GroupOf(segment))
  {
    hide DigitsText, Known, DigitOf, Meaning, StripZeros, SkipZeros, IsDigit, DigitTokens;
    StrippedValues(segment);
    DigitsMeaning(style, StripZeros(segment));
    var g := GroupOf(segment);
    assert DigitValues(segment) == DigitTokens(g);
  }

  lemma SegmentMeaning(style: Style, segment: string)
    requires |segment| == DIGITS_IN_BIG_RANK && AllDigits(segment)
    ensures Meaning(SegmentText(style, segment)) == GroupTokens(SpellingOf(style), GroupOf(segment))
    ensures Known(SegmentText(style, segment)) <==> !(style.NumberOldKanji? && segment[0] != '0')
  {
    hide PlacesText, DigitsText, Known, GroupOf, GroupTokens, Meaning, StripZeros, IsDigit;
    if style.PlainDigits() {
      PlainSegmentMeaning(style, segment);
    } else {
      PlacesMeaning(style, segment);
    }
  }

  // ---------- whole numbers ----------

  lemma BiggerRankMeaning(style: Style, r: nat)
    requires 1 <= r < BIG_RANKS
    ensures Meaning(BiggerRankText(style, r)) == [Rank(r)]
    ensures Known(BiggerRankText(style, r)) <==> !(style.NumberOldKanji? && r == 1)
  {
    assert Rank(1) == 10000 && Rank(2) == 1_0000_0000 && Rank(3) == 1_0000_0000_0000;
    RankBounds(r);
    MeaningOfOne(BiggerRankText(style, r)[0], Rank(r));
  }

  lemma RanksZero(style: Style, segments: seq<string>)
    requires IsSegments(segments)
    ensures Known(RanksText(style, segments, 0))
    ensures Meaning(RanksText(style, segments, 0)) == NumberTokens(SpellingOf(style), Groups(segments), 0)
  {
    MeaningOfEmpty();
  }

  lemma RanksUnfold(style: Style, segments: seq<string>, r: nat)
    requires IsSegments(segments) && 0 < r <= |segments|
    ensures var text, below := SegmentText(style, segments[r - 1]), RanksText(style, segments, r - 1);
            RanksText(style, segments, r) == if text == "" then below else text + BiggerRankText(style, r - 1) + below
  {
    hide SegmentText, BiggerRankText;
    assert "" + RanksText(style, segments, r - 1) == RanksText(style, segments, r - 1);
  }

  lemma JoinMeaning(text: string, rank: string, below: string)
    ensures Meaning(text + rank + below) == Meaning(text) + (Meaning(rank) + Meaning(below))
    ensures Known(text + rank + below) <==> Known(text) && Known(rank) && Known(below)
  {
    hide Meaning, Known;
    MeaningConcat(text, rank);
    MeaningConcat(text + rank, below);
  }

  lemma {:induction false} RanksMeaning(style: Style, segments: seq<string>, r: nat)
    requires IsSegments(segments) && r <= |segments|
    ensures Meaning(RanksText(style, segments, r)) == NumberTokens(SpellingOf(style), Groups(segments), r)
  {
    hide RanksText, SegmentText, BiggerRankText, GroupTokens, Meaning, Rank, AllDigits, Group.Value, GroupOf, Groups,
         Known, NumberTokens, SpellingOf, Group.Valid;
    if r == 0 {
      RanksZero(style, segments);
    } else {
      RanksMeaning(style, segments, r - 1);
      var sp, gs := SpellingOf(style), Groups(segments);
      var segment, below := segments[r - 1], RanksText(style, segments, r - 1);
      var text, rank := SegmentText(style, segment), BiggerRankText(style, r - 1);
      SegmentMeaning(style, segment);
      SegmentEmpty(style, segment);
      RanksUnfold(style, segments, r);
      TokensUnfold(sp, gs, r);
      JoinMeaning(text, rank, below);
      RankTokens(style, r - 1);
    }
  }

  lemma RankTokens(style: Style, r: nat)
    requires r < BIG_RANKS
    ensures Meaning(BiggerRankText(style, r)) == if r == 0 then [] else (RankBounds(r); [Rank(r)])
  {
    hide BiggerRankText, Rank, Meaning, Known;
    if r == 0 {
      BiggerRankZero(style);
      MeaningOfEmpty();
    } else {
      BiggerRankMeaning(style, r);
    }
  }

  lemma TokensUnfold(sp: Spelling, gs: seq<Group>, r: nat)
    requires AllValid(gs) && 0 < r <= |gs|
    ensures NumberTokens(sp, gs, r) ==
            if gs[r - 1].Value() == 0 then NumberTokens(sp, gs, r - 1)
            else GroupTokens(sp, gs[r - 1])
                 + ((if r == 1 then [] else (RankBounds(r - 1); [Rank(r - 1)])) + NumberTokens(sp, gs, r - 1))
  {
    hide GroupTokens, Rank, Group.Value;
  }

  /** No group prints 阡, and no group of rank 1 prints 萬. */
  ghost predicate NoMissingSymbol(gs: seq<Group>, r: nat)
    requires r <= |gs|
  {
    && (forall i :: 0 <= i < r ==> gs[i].thousands == 0)
    && (r > 1 ==> gs[1].Value() == 0)
  }

  lemma {:induction false} RanksKnown(style: Style, segments: seq<string>, r: nat)
    requires IsSegments(segments) && r <= |segments|
    ensures Known(RanksText(style, segments, r)) <==> !style.NumberOldKanji? || NoMissingSymbol(Groups(segments), r)
  {
    hide RanksText, SegmentText, BiggerRankText, Meaning, AllDigits, Group.Value, GroupOf, Groups, Known, Rank,
         GroupTokens, SpellingOf, Group.Valid, AllValid;
    if r == 0 {
      RanksZero(style, segments);
    } else {
      RanksKnown(style, segments, r - 1);
      var segment, below := segments[r - 1], RanksText(style, segments, r - 1);
      var text, rank := SegmentText(style, segment), BiggerRankText(style, r - 1);
      SegmentMeaning(style, segment);
      SegmentEmpty(style, segment);
      ThousandsDigit(segment);
      RanksUnfold(style, segments, r);
      JoinMeaning(text, rank, below);
      if r == 1 {
        BiggerRankZero(style);
        MeaningOfEmpty();
      } else {
        BiggerRankMeaning(style, r - 1);
      }
    }
  }

  lemma BiggerRankZero(style: Style)
    ensures BiggerRankText(style, 0) == ""
  {
  }

  lemma ThousandsDigit(segment: string)
    requires |segment| == DIGITS_IN_BIG_RANK && AllDigits(segment)
    ensures GroupOf(segment).thousands == 0 <==> segment[0] == '0'
    ensures GroupOf(segment).Value() == 0 ==> segment[0] == '0'
  {
  }

  lemma SegmentEmpty(style: Style, segment: string)
    requires |segment| == DIGITS_IN_BIG_RANK && AllDigits(segment)
    ensures SegmentText(style, segment) == "" <==> GroupOf(segment).Value() == 0
  {
    hide SegmentText, GroupOf, SkipZeros;
    SegmentMeaning(style, segment);
    var sp, g := SpellingOf(style), GroupOf(segment);
    if g.Value() > 0 {
      hide GroupTokens;
      GroupPrintsSomething(sp, g);
    } else {
      NothingPrinted(sp, g);
    }
  }

  lemma NothingPrinted(sp: Spelling, g: Group)
    requires g.Valid() && g.Value() == 0
    ensures GroupTokens(sp, g) == []
  {
    if sp.Arabic? {
      hide SkipZeros, DigitTokens;
      AllZerosSkipped(DigitTokens(g));
    }
  }

  lemma {:induction false} AllZerosSkipped(ds: Tokens)
    requires forall i :: 0 <= i < |ds| ==> ds[i] == 0
    ensures SkipZeros(ds) == []
    decreases |ds|
  {
    if ds != [] { AllZerosSkipped(ds[1..]); }
  }
}
