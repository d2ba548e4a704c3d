/** `NumberUtil::NormalizeNumbers` on the UTF-8 bytes it reads, and the round trip on bytes. */
module NumberBytes {
  import opened Wrappers
  import opened NumberParser
  import opened NumberPrinter
  import opened NumberText
  import opened NumberTextRoundTrip
  import opened NumberCandidates
  import opened Utf8
  import opened Utf8Text

  /** The character of a code point; one that is no character stands for nothing, like NUL. */
  function CharOf(c: CodePoint): char {
    var n := c as int;
    if n < 0xD800 || 0xE000 <= n < 0x11_0000 then n as char else '\0'
  }

  function TextOf(cs: seq<CodePoint>): (s: string)
    ensures |s| == |cs| && forall i :: 0 <= i < |cs| ==> s[i] == CharOf(cs[i])
  {
    seq(|cs|, i requires 0 <= i < |cs| => CharOf(cs[i]))
  }

  /** A code point counts as a number character only if it is that character's own. */
  lemma CharOfMeans(c: CodePoint)
    requires KanjiNumberToArabicNumber(CharOf(c)).Some?
    ensures CharOf(c) as int == c as int
  {
  }

  /** What bytes normalise to: malformed UTF-8 is no number. */
  function BytesForm(b: seq<Byte>, trimLeadingZeros: bool): Option<string> {
    if IsValidUtf8(b) then NormalForm(TextOf(Utf8ToUtf32(b)), trimLeadingZeros) else None
  }

  lemma TextStep(b: seq<Byte>, c: CodePoint, rest: seq<Byte>)
    requires SplitFirst(b) == Split(c, rest)
    ensures TextOf(Utf8ToUtf32(b)) == [CharOf(c)] + TextOf(Utf8ToUtf32(rest)) && IsValidUtf8(b) == IsValidUtf8(rest)
  {
    hide SplitFirst, CharOf;
    assert Utf8ToUtf32(b) == [c] + Utf8ToUtf32(rest);
  }

  lemma TextStops(b: seq<Byte>)
    requires SplitFirst(b).Failed?
    ensures TextOf(Utf8ToUtf32(b)) == "" && (IsValidUtf8(b) <==> b == [])
  {
    hide SplitFirst;
    assert Utf8ToUtf32(b) == [];
  }

  lemma KnownStep(text: string, c: char, more: string)
    ensures Known(text + ([c] + more)) ==> KanjiNumberToArabicNumber(c).Some?
    ensures Known(text) && KanjiNumberToArabicNumber(c).Some? ==> Known(text + [c])
    ensures text + ([c] + more) == text + [c] + more
  {
    hide KanjiNumberToArabicNumber;
    var all := text + ([c] + more);
    assert all[|text|] == c;
  }

  /** Tokens of the number characters in front; `whole` says that nothing else follows. */
  method TokenizeUtf8(input: seq<Byte>) returns (numbers: Tokens, whole: bool)
    ensures whole <==> IsValidUtf8(input) && Known(TextOf(Utf8ToUtf32(input)))
    ensures whole ==> numbers == Meaning(TextOf(Utf8ToUtf32(input)))
  {
    hide KanjiNumberToArabicNumber, CharOf, SplitFirst, Utf8ToUtf32, IsValidUtf8, Known, Symbol;
    numbers := [];
    var begin := input;
    ghost var done, all := "", TextOf(Utf8ToUtf32(input));
    MeaningOfEmpty();
    assert "" + all == all;
    while begin != []
      invariant all == done + TextOf(Utf8ToUtf32(begin)) && IsValidUtf8(input) == IsValidUtf8(begin)
      invariant Known(done) && numbers == Meaning(done)
      decreases |begin|
    {
      var ok, c, rest := SplitFirstChar32(begin);
      if !ok {
        TextStops(begin);
        return numbers, false;
      }
      TextStep(begin, c, rest);
      KnownStep(done, CharOf(c), TextOf(Utf8ToUtf32(rest)));
      var n := KanjiNumberToArabicNumber(CharOf(c));
      if n.None? {
        return numbers, false;
      }
      NotInTable(CharOf(c));
      MeaningOfOne(CharOf(c), n.value);
      MeaningConcat(done, [CharOf(c)]);
      done := done + [CharOf(c)];
      numbers := numbers + [n.value];
      begin := rest;
    }
    NothingToSplit();
    TextStops([]);
    assert done + "" == done;
    whole := true;
  }

  method NormalizeNumbersUtf8(input: seq<Byte>, trimLeadingZeros: bool) returns (ok: bool, arabic: string)
    ensures ok <==> BytesForm(input, trimLeadingZeros).Some?
    ensures ok ==> arabic == BytesForm(input, trimLeadingZeros).value
  {
    hide Utf8ToUtf32, IsValidUtf8, Known, Normalize, Decimal, KeptZeros, Meaning;
    arabic := "";
    var numbers, whole := TokenizeUtf8(input);
    if !whole {
      return false, arabic;
    }
    ok, arabic := FormatNumbers(numbers, trimLeadingZeros);
  }

  // ---------- number characters as bytes ----------

  /** The code point of a number character. */
  function Point(c: char): CodePoint {
    if c <= '9' then
      match c
      case '0' => 0x0030
      case '1' => 0x0031
      case '2' => 0x0032
      case '3' => 0x0033
      case '4' => 0x0034
      case '5' => 0x0035
      case '6' => 0x0036
      case '7' => 0x0037
      case '8' => 0x0038
      case '9' => 0x0039
      case _ => 0
    else if c >= '０' then
      match c
      case '０' => 0xFF10
      case '１' => 0xFF11
      case '２' => 0xFF12
      case '３' => 0xFF13
      case '４' => 0xFF14
      case '５' => 0xFF15
      case '６' => 0xFF16
      case '７' => 0xFF17
      case '８' => 0xFF18
      case '９' => 0xFF19
      case _ => 0
    else
      match c
      case '零' => 0x96F6
      case '一' => 0x4E00
      case '二' => 0x4E8C
      case '三' => 0x4E09
      case '四' => 0x56DB
      case '五' => 0x4E94
      case '六' => 0x516D
      case '七' => 0x4E03
      case '八' => 0x516B
      case '九' => 0x4E5D
      case '十' => 0x5341
      case '百' => 0x767E
      case '千' => 0x5343
      case '万' => 0x4E07
      case '億' => 0x5104
      case '兆' => 0x5146
      case '京' => 0x4EAC
      case '壱' => 0x58F1
      case '弐' => 0x5F10
      case '参' => 0x53C2
      case '拾' => 0x62FE
      case '廿' => 0x5EFF
      case '卅' => 0x5345
      case '卌' => 0x534C
      case _ => 0
  }

  function Points(s: string): (cs: seq<CodePoint>)
    ensures |cs| == |s| && forall i :: 0 <= i < |s| ==> cs[i] == Point(s[i])
  {
    seq(|s|, i requires 0 <= i < |s| => Point(s[i]))
  }

  lemma HalfWidthPoint(c: char)
    requires '0' <= c <= '9'
    ensures CharOf(Point(c)) == c && Encodable(Point(c))
  {
  }

  lemma FullWidthPoint(c: char)
    requires '０' <= c <= '９'
    ensures CharOf(Point(c)) == c && Encodable(Point(c))
  {
  }

  lemma KanjiPoint(c: char)
    requires KanjiNumberToArabicNumber(c).Some? && '9' < c < '０'
    ensures CharOf(Point(c)) == c && Encodable(Point(c))
  {
  }

  lemma PointIs(c: char)
    requires KanjiNumberToArabicNumber(c).Some?
    ensures CharOf(Point(c)) == c && Encodable(Point(c))
  {
    hide CharOf, Point, Encodable;
    OnlyDigitsOutside(c);
    if c <= '9' { HalfWidthPoint(c); } else if c >= '０' { FullWidthPoint(c); } else { KanjiPoint(c); }
  }

  lemma OnlyDigitsOutside(c: char)
    requires KanjiNumberToArabicNumber(c).Some?
    ensures c <= '9' ==> '0' <= c
    ensures c >= '０' ==> c <= '９'
  {
  }

  /** The bytes of a text. */
  function Spelled(s: string): seq<Byte> {
    Utf32ToUtf8(Points(s))
  }

  /** On number characters, the normaliser gives for the bytes what it gives for the text. */
  lemma SpelledForm(s: string, trim: bool)
    requires Known(s)
    ensures BytesForm(Spelled(s), trim) == NormalForm(s, trim)
  {
    hide NormalForm, KanjiNumberToArabicNumber, Point, CharOf, Encodable, Utf32ToUtf8, Utf8ToUtf32, IsValidUtf8;
    forall i | 0 <= i < |s| ensures CharOf(Points(s)[i]) == s[i] && Encodable(Points(s)[i]) { PointIs(s[i]); }
    Utf32RoundTrip(Points(s));
    assert TextOf(Points(s)) == s;
  }

  /** Printing a number and normalising the printed bytes gives its decimal form, or fails beyond 64 bits. */
  lemma BytesRoundTrip(style: Style, input: string, trim: bool)
    requires Printable(input) && !style.NumberOldKanji?
    ensures BytesForm(Spelled(MainText(style, input)), trim) ==
            if NumericValue(input) <= U64_MAX then Some(StripZeros(input)) else None
  {
    hide NormalForm, RanksText, Known, NumericValue, StripZeros, Spelled, BytesForm;
    var segments := Segments(Padded(input));
    RanksKnown(style, segments, |segments|);
    SpelledForm(MainText(style, input), trim);
    KanjiRoundTrip(style, input, trim);
  }
}
