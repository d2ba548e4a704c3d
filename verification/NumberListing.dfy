/** The candidates of a number, one by one, and the texts the normaliser accepts apart from printed numbers. */
module NumberListing {
  import opened Wrappers
  import opened NumberParser
  import opened NumberRoundTrip
  import opened NumberPrinter
  import opened NumberText
  import opened NumberTextRoundTrip
  import opened NumberCandidates

  // ---------- the list of candidates ----------

  /** Some group of four digits has a 2 in its tens. */
  ghost predicate TwentyInside(input: string)
    requires Printable(input)
  {
    exists i :: 0 <= i < |GroupsOf(input)| && GroupsOf(input)[i].tens == 2
  }

  /** Every candidate of a number, in order. */
  ghost function CandidatesOf(input: string): seq<NumberString>
    requires Printable(input)
  {
    var half := NumberString(MainText(NumberArabicAndKanjiHalfwidth, input), "数字", NumberArabicAndKanjiHalfwidth);
    var full := NumberString(MainText(NumberArabicAndKanjiFullwidth, input), "数字", NumberArabicAndKanjiFullwidth);
    var kanji := NumberString(MainText(NumberKanji, input), "漢数字", NumberKanji);
    var formal := MainText(NumberOldKanji, input);
    var twenty := NumberString(ReplaceTwoTen(formal), "大字", NumberOldKanji);
    var short, value := |input| <= 4, NumericValue(input);
    (if short then [] else [half, full]) + [kanji, NumberString(formal, "大字", NumberOldKanji)]
    + (if TwentyInside(input) then [twenty] else [])
    + (if short && value == 10 then [NumberString("拾", "大字", NumberOldKanji)] else [])
    + (if short && value == 1000 then [NumberString("阡", "大字", NumberOldKanji)] else [])
  }

  lemma {:induction false} ReplaceShortens(s: string)
    ensures |ReplaceTwoTen(s)| <= |s| && (|ReplaceTwoTen(s)| < |s| <==> ContainsTwoTen(s))
    decreases |s|
  {
    hide ReplaceTwoTen;
    if s == "" {
      ReplaceNothing();
    } else {
      var n := if StartsTwoTen(s) then 2 else 1;
      ReplaceStep(s);
      ReplaceShortens(s[n..]);
      if StartsTwoTen(s) {
        assert s[0] == '弐' && s[0 + 1] == '拾';
      } else {
        if ContainsTwoTen(s) {
          var i :| 0 <= i < |s| - 1 && s[i] == '弐' && s[i + 1] == '拾';
          assert s[1..][i - 1] == s[i] && s[1..][i] == s[i + 1];
        }
        if ContainsTwoTen(s[1..]) {
          var i :| 0 <= i < |s[1..]| - 1 && s[1..][i] == '弐' && s[1..][i + 1] == '拾';
          assert s[i + 1] == '弐' && s[i + 2] == '拾';
        }
      }
    }
  }

  /** How many of the r lower groups have a 2 in their tens. */
  function Twos(gs: seq<Group>, r: nat): (n: nat)
    requires r <= |gs|
    ensures n > 0 <==> exists i :: 0 <= i < r && gs[i].tens == 2
  {
    if r == 0 then 0 else Twos(gs, r - 1) + if gs[r - 1].tens == 2 then 1 else 0
  }

  /** Each of them saves one token. */
  lemma {:induction false} TwentySaves(gs: seq<Group>, r: nat)
    requires AllValid(gs) && r <= |gs|
    ensures |NumberTokens(FormalTwenty, gs, r)| + Twos(gs, r) == |NumberTokens(Formal, gs, r)|
  {
    hide GroupTokens, NumberTokens, Rank, Group.Value;
    if r == 0 {
      NoTokens(FormalTwenty, gs);
      NoTokens(Formal, gs);
    } else {
      TwentySaves(gs, r - 1);
      TokensUnfold(FormalTwenty, gs, r);
      TokensUnfold(Formal, gs, r);
      TwentySavesInGroup(gs[r - 1]);
    }
  }

  lemma TwentySavesInGroup(g: Group)
    requires g.Valid()
    ensures |GroupTokens(FormalTwenty, g)| + (if g.tens == 2 then 1 else 0) == |GroupTokens(Formal, g)|
    ensures g.Value() == 0 ==> g.tens == 0
  {
  }

  lemma TwentyFound(input: string)
    requires Printable(input)
    ensures ContainsTwoTen(MainText(NumberOldKanji, input)) <==> TwentyInside(input)
  {
    hide RanksText, ReplaceTwoTen, Known, NumberTokens, ContainsTwoTen, NoMissingSymbol, Groups, Segments, Padded;
    hide StripZeros, IsSegments, AllValid, Meaning, Twos;
    var segments, gs := Segments(Padded(input)), GroupsOf(input);
    var text := MainText(NumberOldKanji, input);
    ReplaceShortens(text);
    TwentyRanksMeaning(segments, |segments|);
    RanksMeaning(NumberOldKanji, segments, |segments|);
    TwentySaves(gs, |gs|);
    assert |Meaning(text)| == |text| && |Meaning(ReplaceTwoTen(text))| == |ReplaceTwoTen(text)|;
    assert Twos(gs, |gs|) > 0 <==> TwentyInside(input);
  }

  /** Four digits are 0010 or 1000 exactly if their value is 10 or 1000. */
  lemma FourDigits(p: string)
    requires AllDigits(p) && |p| == 4
    ensures p == "0010" <==> NumericValue(p) == 10
    ensures p == "1000" <==> NumericValue(p) == 1000
  {
    hide NumericValue;
    OneGroup(p);
    assert p == [p[0], p[1], p[2], p[3]];
    assert forall i :: 0 <= i < 4 ==> (DigitOf(p[i]) == 0 <==> p[i] == '0') && (DigitOf(p[i]) == 1 <==> p[i] == '1');
  }

  lemma PaddedValue(input: string)
    requires AllDigits(input)
    ensures AllDigits(Padded(input)) && NumericValue(Padded(input)) == NumericValue(input)
  {
    hide NumericValue;
    var zeros := (DIGITS_IN_BIG_RANK - |input| % DIGITS_IN_BIG_RANK) % DIGITS_IN_BIG_RANK;
    NumericLeadingZeros(zeros, input);
  }

  lemma SingleKanji(input: string)
    requires Printable(input)
    ensures Padded(input) == "0010" <==> |input| <= 4 && NumericValue(input) == 10
    ensures Padded(input) == "1000" <==> |input| <= 4 && NumericValue(input) == 1000
    ensures |Segments(Padded(input))| == 1 <==> |input| <= 4
  {
    hide NumericValue, StripZeros, Segments;
    PaddedValue(input);
    assert input != "";
    if |input| <= 4 {
      assert |Padded(input)| == 4;
      FourDigits(Padded(input));
    } else {
      assert |Padded(input)| > 4 && |"0010"| == 4 && |"1000"| == 4;
    }
  }

  lemma PlainListed(input: string, style: Style)
    requires Printable(input) && style.PlainDigits()
    ensures StyleCandidates(style, Padded(input)) ==
            if |input| <= 4 then [] else [NumberString(MainText(style, input), "数字", style)]
  {
    hide RanksText, NumericValue, Padded, Segments, StripZeros;
    SingleKanji(input);
  }

  lemma KanjiListed(input: string)
    requires Printable(input)
    ensures StyleCandidates(NumberKanji, Padded(input)) ==
            [NumberString(MainText(NumberKanji, input), "漢数字", NumberKanji)]
  {
    hide RanksText, Padded, Segments, StripZeros;
  }

  lemma FormalListed(input: string)
    requires Printable(input)
    ensures var text, d := MainText(NumberOldKanji, input), "大字";
            StyleCandidates(NumberOldKanji, Padded(input)) ==
            [NumberString(text, d, NumberOldKanji)]
            + (if TwentyInside(input) then [NumberString(ReplaceTwoTen(text), d, NumberOldKanji)] else [])
            + (if |input| <= 4 && NumericValue(input) == 10 then [NumberString("拾", d, NumberOldKanji)] else [])
            + (if |input| <= 4 && NumericValue(input) == 1000 then [NumberString("阡", d, NumberOldKanji)] else [])
  {
    hide MainText, ReplaceTwoTen, NumericValue, Padded, Segments, StripZeros, TwentyInside, StyleCandidates, OldExtras;
    var text, d := MainText(NumberOldKanji, input), "大字";
    FormalStyle(input);
    ExtrasListed(input);
    Behind([NumberString(text, d, NumberOldKanji)],
           if TwentyInside(input) then [NumberString(ReplaceTwoTen(text), d, NumberOldKanji)] else [],
           if |input| <= 4 && NumericValue(input) == 10 then [NumberString("拾", d, NumberOldKanji)] else [],
           if |input| <= 4 && NumericValue(input) == 1000 then [NumberString("阡", d, NumberOldKanji)] else []);
  }

  lemma FormalStyle(input: string)
    requires Printable(input)
    ensures var text := MainText(NumberOldKanji, input);
            StyleCandidates(NumberOldKanji, Padded(input)) ==
            [NumberString(text, "大字", NumberOldKanji)] + OldExtras(text, Padded(input))
  {
    hide RanksText, OldExtras, Padded, Segments, StripZeros;
  }

  lemma ExtrasListed(input: string)
    requires Printable(input)
    ensures var text, d := MainText(NumberOldKanji, input), "大字";
            OldExtras(text, Padded(input)) ==
            (if TwentyInside(input) then [NumberString(ReplaceTwoTen(text), d, NumberOldKanji)] else [])
            + (if |input| <= 4 && NumericValue(input) == 10 then [NumberString("拾", d, NumberOldKanji)] else [])
            + (if |input| <= 4 && NumericValue(input) == 1000 then [NumberString("阡", d, NumberOldKanji)] else [])
  {
    hide MainText, ReplaceTwoTen, ContainsTwoTen, NumericValue, Padded, Segments, StripZeros, TwentyInside;
    SingleKanji(input);
    TwentyFound(input);
  }

  lemma Behind(x: seq<NumberString>, a: seq<NumberString>, b: seq<NumberString>, c: seq<NumberString>)
    ensures x + (a + b + c) == x + a + b + c
  {
  }

  lemma FourStyles(p: string)
    requires |p| % DIGITS_IN_BIG_RANK == 0 && IsSegments(Segments(p))
    ensures Candidates(p, |VARIATIONS|) ==
            StyleCandidates(NumberArabicAndKanjiHalfwidth, p) + StyleCandidates(NumberArabicAndKanjiFullwidth, p)
            + StyleCandidates(NumberKanji, p) + StyleCandidates(NumberOldKanji, p)
  {
    hide StyleCandidates, Segments;
    assert Candidates(p, 0) == [];
    assert Candidates(p, 1) == [] + StyleCandidates(NumberArabicAndKanjiHalfwidth, p);
    assert Candidates(p, 2) == Candidates(p, 1) + StyleCandidates(NumberArabicAndKanjiFullwidth, p);
    assert Candidates(p, 3) == Candidates(p, 2) + StyleCandidates(NumberKanji, p);
  }

  /** All four styles are there, each once; the plain ones exactly beyond four digits. */
  lemma CandidatesListed(input: string)
    requires Printable(input)
    ensures Candidates(Padded(input), |VARIATIONS|) == CandidatesOf(input)
  {
    hide MainText, ReplaceTwoTen, NumericValue, Padded, Segments, StripZeros, TwentyInside, Candidates, StyleCandidates;
    FourStyles(Padded(input));
    PlainListed(input, NumberArabicAndKanjiHalfwidth);
    PlainListed(input, NumberArabicAndKanjiFullwidth);
    KanjiListed(input);
    FormalListed(input);
  }

  /** The program's output for a number: exactly these candidates behind what was there. */
  method PrintAll(input: string, prior: seq<NumberString>) returns (output: seq<NumberString>)
    requires IsDecimalInteger(input) && StripZeros(input) != "" && |input| <= 20
    ensures Printable(input) && output == prior + CandidatesOf(input)
  {
    hide Candidates, CandidatesOf, IsSegments;
    PrintableInput(input);
    var ok;
    ok, output := ArabicToKanji(input, prior);
    CandidatesListed(input);
  }
}
