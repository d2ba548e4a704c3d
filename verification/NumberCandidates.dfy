/** What `NormalizeNumbers` gives for every candidate that `ArabicToKanji` produces. */
module NumberCandidates {
  import opened Wrappers
  import opened NumberParser
  import opened NumberRoundTrip
  import opened NumberPrinter
  import opened NumberText
  import opened NumberTextRoundTrip

  // ---------- the variant with 廿 ----------

  predicate NoTenStart(t: string) {
    t == "" || t[0] != '拾'
  }

  lemma {:induction false} ReplaceConcat(s: string, t: string)
    requires NoTenStart(t)
    ensures ReplaceTwoTen(s + t) == ReplaceTwoTen(s) + ReplaceTwoTen(t)
    decreases |s|
  {
    hide ReplaceTwoTen;
    if s == "" {
      ReplaceNothing();
      assert s + t == t && "" + ReplaceTwoTen(t) == ReplaceTwoTen(t);
    } else {
      var n := if StartsTwoTen(s) then 2 else 1;
      assert StartsTwoTen(s + t) <==> StartsTwoTen(s);
      assert (s + t)[n..] == s[n..] + t;
      ReplaceStep(s);
      ReplaceStep(s + t);
      ReplaceConcat(s[n..], t);
    }
  }

  predicate StartsTwoTen(s: string) {
    |s| >= 2 && s[0] == '弐' && s[1] == '拾'
  }

  lemma ReplaceNothing()
    ensures ReplaceTwoTen("") == ""
  {
  }

  lemma ReplaceStep(s: string)
    requires s != ""
    ensures ReplaceTwoTen(s) == if StartsTwoTen(s) then "廿" + ReplaceTwoTen(s[2..]) else [s[0]] + ReplaceTwoTen(s[1..])
  {
  }

  lemma ReplaceShort(s: string)
    requires |s| <= 2
    ensures ReplaceTwoTen(s) == if s == "弐拾" then "廿" else s
  {
    if |s| == 1 {
      assert s[1..] == "";
    } else if |s| == 2 {
      assert s == [s[0], s[1]];
      assert s[1..] == [s[1]] && s[2..] == "" && [s[1]][1..] == "";
    }
  }

  lemma OldPlaceText(segment: string, i: nat)
    requires |segment| == DIGITS_IN_BIG_RANK && AllDigits(segment) && i < DIGITS_IN_BIG_RANK
    ensures var s := PlaceText(NumberOldKanji, segment, i);
            && |s| <= 2 && NoTenStart(s)
            && (s == "弐拾" <==> i == 2 && segment[i] == '2')
  {
    var s := PlaceText(NumberOldKanji, segment, i);
    if segment[i] != '0' {
      var d := DigitOf(segment[i]);
      OldDigits(d);
      assert i < 3 ==> s[1] == RankText(NumberOldKanji, 4 - i)[0];
      assert s[0] == OLD_KANJI_DIGITS[d - 1];
      assert i == 2 && d == 2 ==> s == "弐拾";
    }
  }

  lemma OldDigits(d: nat)
    requires 0 < d < 10
    ensures OLD_KANJI_DIGITS[d - 1] != '拾' && (OLD_KANJI_DIGITS[d - 1] == '弐' <==> d == 2)
  {
  }

  lemma TwentyPlaceMeaning(segment: string, i: nat)
    requires |segment| == DIGITS_IN_BIG_RANK && AllDigits(segment) && i < 3
    ensures var s := ReplaceTwoTen(PlaceText(NumberOldKanji, segment, i));
            && Meaning(s) == Place(FormalTwenty, DigitOf(segment[i]), UnitAt(i))
            && (Known(s) <==> !(i == 0 && segment[i] != '0'))
  {
    hide PlaceText, ReplaceTwoTen, Known, Meaning, IsDigit;
    OldPlaceText(segment, i);
    ReplaceShort(PlaceText(NumberOldKanji, segment, i));
    PlaceMeaning(NumberOldKanji, segment, i);
    TwentyMeaning();
  }

  lemma TwentyMeaning()
    ensures Meaning("廿") == [20] && Known("廿")
  {
    MeaningOfOne('廿', 20);
  }

  lemma TwentySegmentMeaning(segment: string)
    requires |segment| == DIGITS_IN_BIG_RANK && AllDigits(segment)
    ensures var s := ReplaceTwoTen(SegmentText(NumberOldKanji, segment));
            && Meaning(s) == GroupTokens(FormalTwenty, GroupOf(segment))
            && (Known(s) <==> segment[0] == '0')
    ensures NoTenStart(SegmentText(NumberOldKanji, segment))
  {
    hide PlaceText, Known, Place, Ones, Meaning, PlacesText, ReplaceTwoTen, IsDigit, DigitOf;
    var p0, p1 := PlaceText(NumberOldKanji, segment, 0), PlaceText(NumberOldKanji, segment, 1);
    var p2, p3 := PlaceText(NumberOldKanji, segment, 2), PlaceText(NumberOldKanji, segment, 3);
    UnrollPlaces(NumberOldKanji, segment);
    OldPlaceText(segment, 0);
    OldPlaceText(segment, 1);
    OldPlaceText(segment, 2);
    OldPlaceText(segment, 3);
    ReplaceShort(p3);
    ReplaceConcat(p0 + p1 + p2, p3);
    ReplaceConcat(p0 + p1, p2);
    ReplaceConcat(p0, p1);
    TwentyPlaceMeaning(segment, 0);
    TwentyPlaceMeaning(segment, 1);
    TwentyPlaceMeaning(segment, 2);
    OnesMeaning(NumberOldKanji, segment);
    MeaningConcat(ReplaceTwoTen(p0), ReplaceTwoTen(p1));
    MeaningConcat(ReplaceTwoTen(p0) + ReplaceTwoTen(p1), ReplaceTwoTen(p2));
    MeaningConcat(ReplaceTwoTen(p0) + ReplaceTwoTen(p1) + ReplaceTwoTen(p2), p3);
  }

  lemma BiggerRankUnreplaced(r: nat)
    requires r < BIG_RANKS
    ensures var s := BiggerRankText(NumberOldKanji, r);
            ReplaceTwoTen(s) == s && NoTenStart(s)
  {
    ReplaceShort(BiggerRankText(NumberOldKanji, r));
  }

  lemma ReplaceJoin(text: string, rank: string, below: string)
    requires NoTenStart(rank) && NoTenStart(below) && ReplaceTwoTen(rank) == rank
    ensures ReplaceTwoTen(text + rank + below) == ReplaceTwoTen(text) + rank + ReplaceTwoTen(below)
  {
    hide ReplaceTwoTen;
    ReplaceConcat(text + rank, below);
    ReplaceConcat(text, rank);
  }

  /** The 廿 variant prints the same groups, with 20 spelled as one token. */
  lemma {:induction false} TwentyRanksMeaning(segments: seq<string>, r: nat)
    requires IsSegments(segments) && r <= |segments|
    ensures var s := RanksText(NumberOldKanji, segments, r);
            && NoTenStart(s)
            && Meaning(ReplaceTwoTen(s)) == NumberTokens(FormalTwenty, Groups(segments), r)
            && (Known(ReplaceTwoTen(s)) <==> NoMissingSymbol(Groups(segments), r))
  {
    hide RanksText, Meaning, Known, NumberTokens, ReplaceTwoTen, Groups, NoMissingSymbol, NoTenStart, IsSegments;
    if r == 0 {
      TwentyRanksZero(segments);
    } else {
      TwentyRanksMeaning(segments, r - 1);
      TwentyRanksStep(segments, r);
    }
  }

  lemma TwentyRanksZero(segments: seq<string>)
    requires IsSegments(segments)
    ensures var s := RanksText(NumberOldKanji, segments, 0);
            && NoTenStart(s)
            && Meaning(ReplaceTwoTen(s)) == NumberTokens(FormalTwenty, Groups(segments), 0)
            && (Known(ReplaceTwoTen(s)) <==> NoMissingSymbol(Groups(segments), 0))
  {
    hide Groups;
    MeaningOfEmpty();
  }

  lemma TwentyRanksStep(segments: seq<string>, r: nat)
    requires IsSegments(segments) && 0 < r <= |segments|
    requires var s := RanksText(NumberOldKanji, segments, r - 1);
             && NoTenStart(s)
             && Meaning(ReplaceTwoTen(s)) == NumberTokens(FormalTwenty, Groups(segments), r - 1)
             && (Known(ReplaceTwoTen(s)) <==> NoMissingSymbol(Groups(segments), r - 1))
    ensures var s := RanksText(NumberOldKanji, segments, r);
            && NoTenStart(s)
            && Meaning(ReplaceTwoTen(s)) == NumberTokens(FormalTwenty, Groups(segments), r)
            && (Known(ReplaceTwoTen(s)) <==> NoMissingSymbol(Groups(segments), r))
  {
    hide RanksText, SegmentText, BiggerRankText, GroupTokens, Meaning, Rank, AllDigits, Group.Value, GroupOf, Groups,
         Known, NumberTokens, ReplaceTwoTen, Group.Valid, AllValid;
    var segment, below := segments[r - 1], RanksText(NumberOldKanji, segments, r - 1);
    var text, rank := SegmentText(NumberOldKanji, segment), BiggerRankText(NumberOldKanji, r - 1);
    TwentySegmentMeaning(segment);
    SegmentEmpty(NumberOldKanji, segment);
    ThousandsDigit(segment);
    RanksUnfold(NumberOldKanji, segments, r);
    TokensUnfold(FormalTwenty, Groups(segments), r);
    BiggerRankUnreplaced(r - 1);
    ReplaceJoin(text, rank, below);
    JoinMeaning(ReplaceTwoTen(text), rank, ReplaceTwoTen(below));
    RankTokens(NumberOldKanji, r - 1);
    RankKnown(r - 1);
  }

  lemma RankKnown(r: nat)
    requires r < BIG_RANKS
    ensures Known(BiggerRankText(NumberOldKanji, r)) <==> r != 1
  {
    if r == 0 { MeaningOfEmpty(); } else { BiggerRankMeaning(NumberOldKanji, r); }
  }

  // ---------- the round trips ----------

  /** Nonzero digit strings of at most 20 digits, the inputs that are printed with ranks. */
  ghost predicate Printable(input: string) {
    IsDecimalInteger(input) && StripZeros(input) != "" && |input| <= 20 && IsSegments(Segments(Padded(input)))
  }

  lemma PrintableInput(input: string)
    requires IsDecimalInteger(input) && StripZeros(input) != "" && |input| <= 20
    ensures Printable(input)
  {
    SegmentsValid(input);
  }

  function GroupsOf(input: string): (gs: seq<Group>)
    requires Printable(input)
    ensures AllValid(gs)
  {
    Groups(Segments(Padded(input)))
  }

  /** The main text of a style. */
  function MainText(style: Style, input: string): string
    requires Printable(input)
  {
    var segments := Segments(Padded(input));
    RanksText(style, segments, |segments|)
  }

  lemma {:induction false} FirstTokenNotZero(sp: Spelling, gs: seq<Group>, r: nat)
    requires r <= |gs| && AllValid(gs) && NumberTokens(sp, gs, r) != []
    ensures NumberTokens(sp, gs, r)[0] != 0
  {
    hide GroupTokens, Group.Value, Rank;
    TokensUnfold(sp, gs, r);
    if gs[r - 1].Value() == 0 {
      FirstTokenNotZero(sp, gs, r - 1);
    } else {
      GroupPrintsSomething(sp, gs[r - 1]);
    }
  }

  /** A text that means the printed groups normalises to the input without leading zeros, whatever the trim flag. */
  lemma TextNormalizes(text: string, sp: Spelling, input: string, trim: bool)
    requires Printable(input) && Meaning(text) == NumberTokens(sp, GroupsOf(input), |GroupsOf(input)|)
    ensures NormalForm(text, trim) ==
            if Known(text) && AllReadable(sp, GroupsOf(input), |GroupsOf(input)|) && NumericValue(input) <= U64_MAX
            then Some(StripZeros(input)) else None
  {
    hide Known, Normalize, Meaning, Decimal, NumericValue, StripZeros, GroupsOf, NumberTokens, AllReadable, IsSegments,
         GroupsValue;
    var gs, v := GroupsOf(input), NumericValue(input);
    ValueOfGroups(input);
    PrintedNumberNormalizes(sp, gs);
    EmptyTokens(sp, gs, |gs|);
    FirstTokenNotZero(sp, gs, |gs|);
    NothingSkipped(Meaning(text));
    assert Zeros(0) == "";
    assert "" + StripZeros(input) == StripZeros(input);
  }

  lemma ValueOfGroups(input: string)
    requires Printable(input)
    ensures GroupsValue(GroupsOf(input), |GroupsOf(input)|) == NumericValue(input) > 0
    ensures Decimal(NumericValue(input)) == StripZeros(input)
  {
    hide Decimal, NumericValue, StripZeros, GroupsValue, IsSegments, Groups, Segments;
    GroupedValue(input);
    DecimalForm(input);
  }

  lemma NothingSkipped(ns: Tokens)
    requires ns != [] && ns[0] != 0
    ensures KeptZeros(ns) == 0
  {
  }

  /**
    Kanji, half-width and full-width texts of every number up to 2^64-1 normalise to its decimal
    form; the texts of larger numbers are refused instead of wrapping around.
  */
  lemma KanjiRoundTrip(style: Style, input: string, trim: bool)
    requires Printable(input) && !style.NumberOldKanji?
    ensures NormalForm(MainText(style, input), trim) ==
            if NumericValue(input) <= U64_MAX then Some(StripZeros(input)) else None
  {
    hide RanksText, NumericValue, StripZeros, NormalForm, NumberTokens, Groups, Segments;
    var segments := Segments(Padded(input));
    RanksMeaning(style, segments, |segments|);
    RanksKnown(style, segments, |segments|);
    TextNormalizes(MainText(style, input), SpellingOf(style), input, trim);
  }

  /**
    The formal text normalises back if and only if no group has a 1 in its tens or hundreds (壱拾 and
    壱百 are refused), and neither 阡 nor 萬 is printed (the table does not know them).
  */
  lemma OldKanjiRoundTrip(input: string, trim: bool)
    requires Printable(input)
    ensures var gs := GroupsOf(input);
            NormalForm(MainText(NumberOldKanji, input), trim) ==
            if AllReadable(Formal, gs, |gs|) && NoMissingSymbol(gs, |gs|) && NumericValue(input) <= U64_MAX
            then Some(StripZeros(input)) else None
  {
    hide RanksText, NumericValue, StripZeros, NormalForm, NumberTokens, Groups, Segments, AllReadable, NoMissingSymbol;
    var segments := Segments(Padded(input));
    RanksMeaning(NumberOldKanji, segments, |segments|);
    RanksKnown(NumberOldKanji, segments, |segments|);
    TextNormalizes(MainText(NumberOldKanji, input), Formal, input, trim);
  }

  /** If 阡 and 萬 are given their values, the formal text means its number exactly when no tens or hundreds digit is
      1. */
  lemma OldKanjiMeaning(input: string)
    requires Printable(input)
    ensures var gs := GroupsOf(input);
            Normalize(Meaning(MainText(NumberOldKanji, input))) ==
            if AllReadable(Formal, gs, |gs|) && NumericValue(input) <= U64_MAX then Some(NumericValue(input)) else None
  {
    hide RanksText, NumericValue, StripZeros, Normalize, NumberTokens, Groups, Segments, AllReadable, Meaning,
        GroupsValue;
    var segments := Segments(Padded(input));
    RanksMeaning(NumberOldKanji, segments, |segments|);
    ValueOfGroups(input);
    PrintedNumberNormalizes(Formal, GroupsOf(input));
  }

  /** Writing 廿 for 弐拾 never changes the outcome. */
  lemma TwentyVariantAgrees(input: string, trim: bool)
    requires Printable(input)
    ensures var text := MainText(NumberOldKanji, input);
            NormalForm(ReplaceTwoTen(text), trim) == NormalForm(text, trim)
  {
    hide RanksText, NumericValue, StripZeros, NormalForm, NumberTokens, Groups, Segments, NoMissingSymbol,
        ReplaceTwoTen;
    var segments := Segments(Padded(input));
    TwentyRanksMeaning(segments, |segments|);
    TextNormalizes(ReplaceTwoTen(MainText(NumberOldKanji, input)), FormalTwenty, input, trim);
    OldKanjiRoundTrip(input, trim);
  }

  // ---------- every candidate of one call ----------

  lemma CandidateList(input: string, c: NumberString)
    requires Printable(input) && c in Candidates(Padded(input), |VARIATIONS|)
    ensures !c.style.NumberOldKanji? ==> c.value == MainText(c.style, input)
    ensures c.style.NumberOldKanji? ==>
              || c.value == MainText(NumberOldKanji, input)
              || ExtraText(c.value, MainText(NumberOldKanji, input), Padded(input))
  {
    hide RanksText, Segments, ReplaceTwoTen, Padded, IsSegments, StyleCandidates, Candidates, VARIATIONS;
    var p := Padded(input);
    var k := CandidateStyle(p, |VARIATIONS|, c);
    StyleCandidate(VARIATIONS[k], p, c);
  }

  lemma StyleCandidate(style: Style, p: string, c: NumberString)
    requires |p| % DIGITS_IN_BIG_RANK == 0 && IsSegments(Segments(p)) && c in StyleCandidates(style, p)
    ensures var text := RanksText(style, Segments(p), |Segments(p)|);
            && c.style == style
            && (c.value == text || (style.NumberOldKanji? && ExtraText(c.value, text, p)))
  {
    hide RanksText, Segments, ReplaceTwoTen, ContainsTwoTen, IsSegments, Description, OldExtras;
    var text := RanksText(style, Segments(p), |Segments(p)|);
    if c in OldExtras(text, p) {
      ExtraCandidate(text, p, c);
    }
  }

  ghost predicate ExtraText(value: string, text: string, p: string) {
    || value == ReplaceTwoTen(text)
    || (value == "拾" && p == "0010")
    || (value == "阡" && p == "1000")
  }

  lemma ExtraCandidate(text: string, p: string, c: NumberString)
    requires c in OldExtras(text, p)
    ensures c.style == NumberOldKanji && ExtraText(c.value, text, p)
  {
    hide ReplaceTwoTen, ContainsTwoTen, Description;
  }

  lemma {:induction false} CandidateStyle(p: string, n: nat, c: NumberString) returns (k: nat)
    requires |p| % DIGITS_IN_BIG_RANK == 0 && IsSegments(Segments(p)) && n <= |VARIATIONS|
    requires c in Candidates(p, n)
    ensures k < n && c in StyleCandidates(VARIATIONS[k], p)
  {
    hide StyleCandidates;
    if c in StyleCandidates(VARIATIONS[n - 1], p) {
      k := n - 1;
    } else {
      k := CandidateStyle(p, n - 1, c);
    }
  }

  lemma SingleTen(input: string, trim: bool)
    requires Printable(input) && Padded(input) == "0010"
    ensures NormalForm("拾", trim) == if NumericValue(input) <= U64_MAX then Some(StripZeros(input)) else None
  {
    hide NormalForm, NumericValue, StripZeros, Rank;
    var gs := GroupsOf(input);
    assert gs[0] == Group(0, 0, 1, 0) by { assert Segments("0010")[0] == "0010"; }
    TokensUnfold(Kanji, gs, 1);
    assert NumberTokens(Kanji, gs, 0) == [];
    assert GroupTokens(Kanji, gs[0]) == [10];
    MeaningOfOne('拾', 10);
    TextNormalizes("拾", Kanji, input, trim);
  }

  /** The formal text of ten is refused: it spells out the 1. */
  lemma FormalTenRefused(trim: bool)
    ensures Printable("10") && NormalForm(MainText(NumberOldKanji, "10"), trim) == None
  {
    hide NormalForm, NumericValue, MainText;
    assert StripZeros("10") == "10";
    PrintableInput("10");
    var gs := GroupsOf("10");
    assert Padded("10") == "0010";
    assert gs[0] == Group(0, 0, 1, 0) by { assert Segments("0010")[0] == "0010"; }
    assert !Readable(Formal, gs[0]);
    OldKanjiRoundTrip("10", trim);
  }

  lemma SingleThousand(trim: bool)
    ensures NormalForm("阡", trim) == None
  {
    assert KanjiNumberToArabicNumber("阡"[0]) == None;
  }

  /**
    No candidate is ever misread: each of them normalises to the digits it was made from, without
    their leading zeros, or is refused. The candidates that are not formal are refused only beyond 64 bits.
  */
  lemma CandidatesNeverMisread(input: string, c: NumberString, trim: bool)
    requires Printable(input) && c in Candidates(Padded(input), |VARIATIONS|)
    ensures NormalForm(c.value, trim) == Some(StripZeros(input)) || NormalForm(c.value, trim) == None
    ensures !c.style.NumberOldKanji? ==>
              (NormalForm(c.value, trim) == None <==> NumericValue(input) > U64_MAX)
  {
    hide NormalForm, NumericValue, StripZeros, Candidates, MainText, ReplaceTwoTen, Printable;
    CandidateList(input, c);
    if !c.style.NumberOldKanji? {
      KanjiRoundTrip(c.style, input, trim);
    } else {
      OldKanjiRoundTrip(input, trim);
      TwentyVariantAgrees(input, trim);
      SingleThousand(trim);
      if Padded(input) == "0010" { SingleTen(input, trim); }
    }
  }

  /** Prints a number in every style and normalises every candidate. */
  method PrintAndNormalize(input: string, trim: bool)
      returns (candidates: seq<NumberString>, results: seq<Option<string>>)
    requires IsDecimalInteger(input) && StripZeros(input) != "" && |input| <= 20
    ensures IsSegments(Segments(Padded(input))) && candidates == Candidates(Padded(input), |VARIATIONS|)
    ensures |results| == |candidates|
    ensures forall i :: 0 <= i < |candidates| ==> results[i] == NormalForm(candidates[i].value, trim)
    ensures forall i :: 0 <= i < |candidates| ==> results[i] == None || results[i] == Some(StripZeros(input))
    ensures forall i :: 0 <= i < |candidates| && !candidates[i].style.NumberOldKanji? ==>
              (results[i] == None <==> NumericValue(input) > U64_MAX)
  {
    hide NormalForm, StripZeros, NumericValue, Candidates, Printable, IsSegments;
    PrintableInput(input);
    var printed;
    printed, candidates := ArabicToKanji(input, []);
    results := [];
    for i := 0 to |candidates|
      invariant |results| == i
      invariant forall k :: 0 <= k < i ==> results[k] == NormalForm(candidates[k].value, trim)
    {
      var ok, kanji, arabic := NormalizeNumbers(candidates[i].value, trim);
      results := results + [if ok then Some(arabic) else None];
    }
    forall i | 0 <= i < |candidates|
      ensures results[i] == None || results[i] == Some(StripZeros(input))
      ensures !candidates[i].style.NumberOldKanji? ==> (results[i] == None <==> NumericValue(input) > U64_MAX)
    {
      assert candidates[i] in candidates;
      CandidatesNeverMisread(input, candidates[i], trim);
    }
  }
}
