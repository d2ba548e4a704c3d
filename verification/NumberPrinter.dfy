/**
  `NumberUtil::ArabicToKanji`: prints a string of decimal digits with kanji ranks in four styles.
  Text is a sequence of code points.
*/
module NumberPrinter {
  datatype Style =
    | NumberArabicAndKanjiHalfwidth
    | NumberArabicAndKanjiFullwidth
    | NumberKanji
    | NumberOldKanji
  {
    predicate PlainDigits() {
      NumberArabicAndKanjiHalfwidth? || NumberArabicAndKanjiFullwidth?
    }
  }

  datatype NumberString = NumberString(value: string, description: string, style: Style)

  const HALF_WIDTH_DIGITS: string := "0123456789"
  const FULL_WIDTH_DIGITS: string := "０１２３４５６７８９"
  const KANJI_DIGITS: string := "〇一二三四五六七八九"
  const OLD_KANJI_DIGITS: string := "壱弐参四五六七八九"
  const DIGITS_IN_BIG_RANK: nat := 4
  const BIG_RANKS: nat := 5

  predicate IsDigit(c: char) {
    '0' <= c <= '9'
  }

  ghost predicate AllDigits(s: string) {
    forall i :: 0 <= i < |s| ==> IsDigit(s[i])
  }

  function DigitOf(c: char): (d: nat)
    requires IsDigit(c)
    ensures d < 10 && (d == 0 <==> c == '0') && (d == 1 <==> c == '1')
  {
    c as int - '0' as int
  }

  /** The text of one digit; the formal style has none for zero. */
  function DigitText(style: Style, d: nat): string
    requires d < 10
  {
    match style
    case NumberArabicAndKanjiHalfwidth => [HALF_WIDTH_DIGITS[d]]
    case NumberArabicAndKanjiFullwidth => [FULL_WIDTH_DIGITS[d]]
    case NumberKanji => [KANJI_DIGITS[d]]
    case NumberOldKanji => if d == 0 then "" else [OLD_KANJI_DIGITS[d - 1]]
  }

  /** The text of the rank inside a group: ones, tens, hundreds, thousands for 1 to 4. */
  function RankText(style: Style, k: nat): string
    requires 1 <= k <= 4
  {
    if k == 1 then ""
    else if k == 2 then (if style.NumberOldKanji? then "拾" else "十")
    else if k == 3 then "百"
    else (if style.NumberOldKanji? then "阡" else "千")
  }

  function BiggerRankText(style: Style, r: nat): string
    requires r < BIG_RANKS
  {
    if r == 0 then ""
    else if r == 1 then (if style.NumberOldKanji? then "萬" else "万")
    else if r == 2 then "億"
    else if r == 3 then "兆"
    else "京"
  }

  // ---------- one group of four digits ----------

  function StripZeros(s: string): (r: string)
    ensures r != "" ==> r[0] != '0'
    ensures |r| <= |s| && (AllDigits(s) ==> AllDigits(r))
  {
    if s != "" && s[0] == '0' then StripZeros(s[1..]) else s
  }

  lemma {:induction false} StripZerosAppend(s: string, c: char)
    ensures StripZeros(s + [c]) == if StripZeros(s) == "" && c == '0' then "" else StripZeros(s) + [c]
    decreases |s|
  {
    if s == "" {
      assert s + [c] == [c];
      assert [c][1..] == "";
      assert "" + [c] == [c];
    } else if s[0] == '0' {
      assert (s + [c])[1..] == s[1..] + [c];
      StripZerosAppend(s[1..], c);
    }
  }

  function DigitsText(style: Style, s: string): string
    requires AllDigits(s)
  {
    if s == "" then "" else DigitsText(style, s[..|s| - 1]) + DigitText(style, DigitOf(s[|s| - 1]))
  }

  /** Digit and rank at index i of a group; a zero is silent, and so is the 1 of 十, 百 and 千. */
  function PlaceText(style: Style, segment: string, i: nat): string
    requires |segment| == DIGITS_IN_BIG_RANK && AllDigits(segment) && i < DIGITS_IN_BIG_RANK
  {
    if segment[i] == '0' then ""
    else
      (if style.NumberOldKanji? || i == DIGITS_IN_BIG_RANK - 1 || segment[i] != '1'
       then DigitText(style, DigitOf(segment[i])) else "")
      + RankText(style, DIGITS_IN_BIG_RANK - i)
  }

  function PlacesText(style: Style, segment: string, k: nat): string
    requires |segment| == DIGITS_IN_BIG_RANK && AllDigits(segment) && k <= DIGITS_IN_BIG_RANK
  {
    if k == 0 then "" else PlacesText(style, segment, k - 1) + PlaceText(style, segment, k - 1)
  }

  function SegmentText(style: Style, segment: string): string
    requires |segment| == DIGITS_IN_BIG_RANK && AllDigits(segment)
  {
    if style.PlainDigits() then DigitsText(style, StripZeros(segment))
    else PlacesText(style, segment, DIGITS_IN_BIG_RANK)
  }

  lemma StripStep(style: Style, segment: string, i: nat)
    requires i < |segment|
    ensures StripZeros(segment[..0]) == "" && DigitsText(style, "") == ""
    ensures StripZeros(segment[..i + 1]) ==
            if StripZeros(segment[..i]) == "" && segment[i] == '0' then "" else StripZeros(segment[..i]) + [segment[i]]
  {
    assert segment[..i + 1] == segment[..i] + [segment[i]];
    StripZerosAppend(segment[..i], segment[i]);
  }

  lemma DigitsTextAppend(style: Style, s: string, c: char)
    requires AllDigits(s) && IsDigit(c)
    ensures DigitsText(style, s + [c]) == DigitsText(style, s) + DigitText(style, DigitOf(c))
  {
    assert (s + [c])[..|s|] == s;
  }

  method RenderPlace(style: Style, segment: string, i: nat) returns (place: string)
    requires |segment| == DIGITS_IN_BIG_RANK && AllDigits(segment) && i < DIGITS_IN_BIG_RANK && segment[i] != '0'
    ensures place == PlaceText(style, segment, i)
  {
    hide DigitText, RankText;
    place := "";
    // The formal style spells out the 1 of every rank.
    if style.NumberOldKanji? || i == DIGITS_IN_BIG_RANK - 1 || segment[i] != '1' {
      place := place + DigitText(style, DigitOf(segment[i]));
    }
    place := place + RankText(style, DIGITS_IN_BIG_RANK - i);
  }

  lemma PlacesStep(style: Style, segment: string, i: nat)
    requires |segment| == DIGITS_IN_BIG_RANK && AllDigits(segment) && i < DIGITS_IN_BIG_RANK
    ensures PlacesText(style, segment, 0) == ""
    ensures PlacesText(style, segment, i + 1) ==
            if segment[i] == '0' then PlacesText(style, segment, i)
            else PlacesText(style, segment, i) + PlaceText(style, segment, i)
  {
  }

  method RenderSegment(style: Style, segment: string) returns (result: string)
    requires |segment| == DIGITS_IN_BIG_RANK && AllDigits(segment)
    ensures result == SegmentText(style, segment)
  {
    hide DigitText, StripZeros, DigitOf, IsDigit, DigitsText, PlaceText, PlacesText;
    result := "";
    PlacesStep(style, segment, 0);
    var leading := true;
    StripStep(style, segment, 0);
    for i := 0 to |segment|
      invariant leading <==> StripZeros(segment[..i]) == ""
      invariant style.PlainDigits() ==> result == DigitsText(style, StripZeros(segment[..i]))
      invariant !style.PlainDigits() ==> result == PlacesText(style, segment, i)
    {
      StripStep(style, segment, i);
      PlacesStep(style, segment, i);
      if leading && segment[i] == '0' {
        continue;
      }
      leading := false;
      if style.PlainDigits() {
        DigitsTextAppend(style, StripZeros(segment[..i]), segment[i]);
        result := result + DigitText(style, DigitOf(segment[i]));
      } else {
        if segment[i] == '0' {
          continue;
        }
        var place := RenderPlace(style, segment, i);
        result := result + place;
      }
    }
    assert segment[..|segment|] == segment;
  }

  // ---------- the whole number ----------

  ghost predicate IsSegments(segments: seq<string>) {
    |segments| <= BIG_RANKS &&
    forall i :: 0 <= i < |segments| ==> |segments[i]| == DIGITS_IN_BIG_RANK && AllDigits(segments[i])
  }

  /** The text of the r least significant groups, most significant first; empty groups get no rank. */
  function RanksText(style: Style, segments: seq<string>, r: nat): string
    requires IsSegments(segments) && r <= |segments|
  {
    if r == 0 then ""
    else
      var text := SegmentText(style, segments[r - 1]);
      (if text == "" then "" else text + BiggerRankText(style, r - 1)) + RanksText(style, segments, r - 1)
  }

  method RenderNumber(style: Style, segments: seq<string>) returns (result: string)
    requires IsSegments(segments)
    ensures result == RanksText(style, segments, |segments|)
  {
    hide SegmentText, BiggerRankText;
    result := "";
    var rank := |segments|;
    while rank > 0
      invariant 0 <= rank <= |segments|
      invariant result + RanksText(style, segments, rank) == RanksText(style, segments, |segments|)
    {
      rank := rank - 1;
      var text := RenderSegment(style, segments[rank]);
      var piece := "";
      if text != "" {
        piece := text + BiggerRankText(style, rank);
      }
      assert result + (piece + RanksText(style, segments, rank)) == result + piece + RanksText(style, segments, rank);
      result := result + piece;
    }
    assert result + "" == result;
  }

  /** Left-to-right replacement of every 弐拾 by 廿. */
  function ReplaceTwoTen(s: string): string {
    if s == "" then ""
    else if |s| >= 2 && s[0] == '弐' && s[1] == '拾' then "廿" + ReplaceTwoTen(s[2..])
    else [s[0]] + ReplaceTwoTen(s[1..])
  }

  predicate ContainsTwoTen(s: string) {
    exists i :: 0 <= i < |s| - 1 && s[i] == '弐' && s[i + 1] == '拾'
  }

  predicate IsDecimalInteger(s: string) {
    s != "" && forall i :: 0 <= i < |s| ==> IsDigit(s[i])
  }

  function Zeros(n: nat): (s: string)
    ensures |s| == n && forall i :: 0 <= i < n ==> s[i] == '0'
  {
    seq(n, _ => '0')
  }

  /** The digits padded with zeros in front to whole groups of four. */
  function Padded(input: string): (p: string)
    ensures |p| % DIGITS_IN_BIG_RANK == 0 && |p| < |input| + DIGITS_IN_BIG_RANK && |p| >= |input|
    ensures p[|p| - |input|..] == input
    ensures AllDigits(input) ==> AllDigits(p)
  {
    Zeros((DIGITS_IN_BIG_RANK - |input| % DIGITS_IN_BIG_RANK) % DIGITS_IN_BIG_RANK) + input
  }

  /** The groups of four digits, least significant first. */
  function Segments(p: string): (segments: seq<string>)
    requires |p| % DIGITS_IN_BIG_RANK == 0
    ensures |segments| == |p| / DIGITS_IN_BIG_RANK
    ensures forall r :: 0 <= r < |segments| ==> segments[r] == p[|p| - 4 * r - 4..|p| - 4 * r]
  {
    seq(|p| / DIGITS_IN_BIG_RANK, r requires 0 <= r < |p| / DIGITS_IN_BIG_RANK => p[|p| - 4 * r - 4..|p| - 4 * r])
  }

  lemma SegmentsValid(input: string)
    requires AllDigits(input) && |input| <= BIG_RANKS * DIGITS_IN_BIG_RANK
    ensures IsSegments(Segments(Padded(input)))
  {
    var p := Padded(input);
    var segments := Segments(p);
    forall r | 0 <= r < |segments|
      ensures |segments[r]| == DIGITS_IN_BIG_RANK && AllDigits(segments[r])
    {
      assert segments[r] == p[|p| - 4 * r - 4..|p| - 4 * r];
    }
  }

  function Description(style: Style): string {
    match style
    case NumberArabicAndKanjiHalfwidth => "数字"
    case NumberArabicAndKanjiFullwidth => "数字"
    case NumberKanji => "漢数字"
    case NumberOldKanji => "大字"
  }

  const VARIATIONS: seq<Style> :=
    [NumberArabicAndKanjiHalfwidth, NumberArabicAndKanjiFullwidth, NumberKanji, NumberOldKanji]

  /** Everything one style contributes for the padded input. */
  function StyleCandidates(style: Style, padded: string): seq<NumberString>
    requires |padded| % DIGITS_IN_BIG_RANK == 0 && IsSegments(Segments(padded))
  {
    var segments := Segments(padded);
    if |segments| == 1 && style.PlainDigits() then []
    else
      var text := RanksText(style, segments, |segments|);
      [NumberString(text, Description(style), style)] + (if style.NumberOldKanji? then OldExtras(text, padded) else [])
  }

  function OldExtras(text: string, padded: string): seq<NumberString> {
    var d := Description(NumberOldKanji);
    (if ContainsTwoTen(text) then [NumberString(ReplaceTwoTen(text), d, NumberOldKanji)] else [])
    + (if padded == "0010" then [NumberString("拾", d, NumberOldKanji)] else [])
    + (if padded == "1000" then [NumberString("阡", d, NumberOldKanji)] else [])
  }

  function Candidates(padded: string, k: nat): seq<NumberString>
    requires |padded| % DIGITS_IN_BIG_RANK == 0 && IsSegments(Segments(padded)) && k <= |VARIATIONS|
  {
    if k == 0 then [] else Candidates(padded, k - 1) + StyleCandidates(VARIATIONS[k - 1], padded)
  }

  method RenderStyle(style: Style, padded: string, segments: seq<string>) returns (output: seq<NumberString>)
    requires |padded| % DIGITS_IN_BIG_RANK == 0 && IsSegments(Segments(padded)) && segments == Segments(padded)
    ensures output == StyleCandidates(style, padded)
  {
    hide RanksText, Segments;
    output := [];
    if |segments| == 1 && style.PlainDigits() {
      return;
    }
    var result := RenderNumber(style, segments);
    output := output + [NumberString(result, Description(style), style)];
    if style.NumberOldKanji? {
      var extras := [];
      if ContainsTwoTen(result) {
        extras := extras + [NumberString(ReplaceTwoTen(result), Description(style), style)];
      }
      if padded == "0010" {
        extras := extras + [NumberString("拾", Description(style), style)];
      }
      if padded == "1000" {
        extras := extras + [NumberString("阡", Description(style), style)];
      }
      output := output + extras;
    }
  }

  method CountLeadingZeros(input: string) returns (i: nat)
    ensures i <= |input|
    ensures i == |input| <==> StripZeros(input) == ""
  {
    i := 0;
    while i < |input| && input[i] == '0'
      invariant i <= |input|
      invariant StripZeros(input[i..]) == StripZeros(input)
    {
      assert input[i..][1..] == input[i + 1..];
      i := i + 1;
    }
  }

  method SplitIntoSegments(padded: string) returns (segments: seq<string>)
    requires |padded| % DIGITS_IN_BIG_RANK == 0
    ensures segments == Segments(padded)
  {
    segments := [];
    var i := |padded| - DIGITS_IN_BIG_RANK;
    while i >= 0
      invariant -4 <= i <= |padded| - DIGITS_IN_BIG_RANK
      invariant i == |padded| - 4 * |segments| - 4
      invariant segments == Segments(padded)[..|segments|]
    {
      segments := segments + [padded[i..i + DIGITS_IN_BIG_RANK]];
      i := i - DIGITS_IN_BIG_RANK;
    }
  }

  lemma AcceptedInput(input: string)
    requires IsDecimalInteger(input)
    ensures input != "" && forall i :: 0 <= i < |input| ==> '0' <= input[i] <= '9'
    ensures StripZeros(input) == "" <==> forall i :: 0 <= i < |input| ==> input[i] == '0'
  {
    OnlyZeros(input);
  }

  lemma RefusedInput(input: string)
    requires !IsDecimalInteger(input)
    ensures input == "" || exists i :: 0 <= i < |input| && !('0' <= input[i] <= '9')
  {
  }

  lemma {:induction false} OnlyZeros(s: string)
    ensures StripZeros(s) == "" <==> forall i :: 0 <= i < |s| ==> s[i] == '0'
  {
    if s != "" && s[0] == '0' {
      OnlyZeros(s[1..]);
      assert forall i :: 1 <= i < |s| ==> s[i] == s[1..][i - 1];
    }
  }

  /** Appends all candidates to `prior`; fails for other text than digits and for nonzero input beyond 20 digits. */
  method ArabicToKanji(input: string, prior: seq<NumberString>) returns (ok: bool, output: seq<NumberString>)
    ensures ok <==> IsDecimalInteger(input) && (StripZeros(input) == "" || |input| <= 20)
    ensures ok <==>
              && input != "" && (forall i :: 0 <= i < |input| ==> '0' <= input[i] <= '9')
              && ((forall i :: 0 <= i < |input| ==> input[i] == '0') || |input| <= 20)
    ensures !ok ==> output == prior
    ensures ok && StripZeros(input) == "" ==> output == prior + [NumberString("零", "大字", NumberOldKanji)]
    ensures ok && StripZeros(input) != "" ==>
              && IsSegments(Segments(Padded(input)))
              && output == prior + Candidates(Padded(input), |VARIATIONS|)
  {
    hide RanksText, Padded, Segments, StyleCandidates, IsSegments, StripZeros, IsDigit;
    output := prior;
    if !IsDecimalInteger(input) {
      RefusedInput(input);
      return false, output;
    }
    AcceptedInput(input);
    var zeros := CountLeadingZeros(input);
    if zeros == |input| {
      output := output + [NumberString("零", "大字", NumberOldKanji)];
      return true, output;
    }
    if BIG_RANKS * DIGITS_IN_BIG_RANK < |input| {
      return false, output;
    }
    var padded := Padded(input);
    SegmentsValid(input);
    var segments := SplitIntoSegments(padded);
    for k := 0 to |VARIATIONS|
      invariant output == prior + Candidates(padded, k)
    {
      var more := RenderStyle(VARIATIONS[k], padded, segments);
      output := output + more;
    }
    ok := true;
  }
}
