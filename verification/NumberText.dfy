/**
  `NumberUtil::NormalizeNumbers` on text, and what it gives for the texts that
  `NumberUtil::ArabicToKanji` prints.
*/
module NumberText {
  import opened Wrappers
  import opened NumberParser
  import opened NumberPrinter

  /** The kanji-number table: one entry per character, none for 阡, 萬 and 〇. */
  function KanjiNumberToArabicNumber(c: char): Option<U64> {
    if '0' <= c <= '9' then Some(c as int - '0' as int)
    else if '０' <= c <= '９' then Some(c as int - '０' as int)
    else match c
      case '零' => Some(0)
      case '一' => Some(1)
      case '二' => Some(2)
      case '三' => Some(3)
      case '四' => Some(4)
      case '五' => Some(5)
      case '六' => Some(6)
      case '七' => Some(7)
      case '八' => Some(8)
      case '九' => Some(9)
      case '十' => Some(10)
      case '百' => Some(100)
      case '千' => Some(1000)
      case '万' => Some(1_0000)
      case '億' => Some(1_0000_0000)
      case '兆' => Some(1_0000_0000_0000)
      case '京' => Some(1_0000_0000_0000_0000)
      case '壱' => Some(1)
      case '弐' => Some(2)
      case '参' => Some(3)
      case '拾' => Some(10)
      case '廿' => Some(20)
      case '卅' => Some(30)
      case '卌' => Some(40)
      case _ => None
  }

  /** The number a printed character stands for: its table entry, or the value of the two formal ranks the table
      lacks. */
  function Symbol(c: char): U64 {
    if c == '阡' then 1000
    else if c == '萬' then 10000
    else if KanjiNumberToArabicNumber(c).Some? then KanjiNumberToArabicNumber(c).value
    else 0
  }

  function Meaning(s: string): (ns: Tokens)
    ensures |ns| == |s| && forall i :: 0 <= i < |s| ==> ns[i] == Symbol(s[i])
  {
    seq(|s|, i requires 0 <= i < |s| => Symbol(s[i]))
  }

  predicate Known(s: string) {
    forall i :: 0 <= i < |s| ==> KanjiNumberToArabicNumber(s[i]).Some?
  }

  // ---------- the normaliser ----------

  /** What is kept in front when leading zeros are not trimmed: all of them, but one less when there is nothing else. */
  function KeptZeros(ns: Tokens): nat {
    var zeros := |ns| - |SkipZeros(ns)|;
    if zeros == |ns| && zeros > 0 then zeros - 1 else zeros
  }

  function KanjiForm(c: char): char {
    if '0' <= c <= '9' then KANJI_DIGITS[c as int - '0' as int]
    else if '０' <= c <= '９' then KANJI_DIGITS[c as int - '０' as int]
    else c
  }

  function KanjiForms(s: string): (t: string)
    ensures |t| == |s| && forall i :: 0 <= i < |s| ==> t[i] == KanjiForm(s[i])
  {
    seq(|s|, i requires 0 <= i < |s| => KanjiForm(s[i]))
  }

  /** The Arabic text a number text normalises to. */
  function NormalForm(s: string, trimLeadingZeros: bool): Option<string> {
    if !Known(s) then None
    else match Normalize(Meaning(s))
      case None => None
      case Some(n) => Some((if trimLeadingZeros then "" else Zeros(KeptZeros(Meaning(s)))) + Decimal(n))
  }

  method Tokenize(input: string) returns (numbers: Tokens, kanji: string)
    ensures |numbers| <= |input|
    ensures |numbers| == |input| <==> Known(input)
    ensures numbers == Meaning(input[..|numbers|]) && kanji == KanjiForms(input[..|numbers|])
  {
    hide KanjiNumberToArabicNumber;
    numbers, kanji := [], "";
    var begin := 0;
    while begin < |input|
      invariant begin == |numbers| == |kanji| <= |input|
      invariant forall i :: 0 <= i < begin ==> KanjiNumberToArabicNumber(input[i]).Some?
      invariant forall i :: 0 <= i < begin ==> numbers[i] == Symbol(input[i]) && kanji[i] == KanjiForm(input[i])
    {
      var n := KanjiNumberToArabicNumber(input[begin]);
      if n.None? {
        break;
      }
      NotInTable(input[begin]);
      kanji := kanji + [KanjiForm(input[begin])];
      numbers := numbers + [n.value];
      begin := begin + 1;
    }
    assert numbers == Meaning(input[..|numbers|]);
  }

  lemma NotInTable(c: char)
    requires KanjiNumberToArabicNumber(c).Some?
    ensures Symbol(c) == KanjiNumberToArabicNumber(c).value
  {
  }

  /** The last part of the normaliser: the number, behind the zeros that are kept. */
  method FormatNumbers(numbers: Tokens, trimLeadingZeros: bool) returns (ok: bool, arabic: string)
    ensures ok <==> Normalize(numbers).Some?
    ensures ok ==>
              var zeros := if trimLeadingZeros then "" else Zeros(KeptZeros(numbers));
              arabic == zeros + Decimal(Normalize(numbers).value)
  {
    hide Normalize, Decimal;
    arabic := "";
    if |numbers| == 0 {
      EmptyText();
      return false, arabic;
    }
    var n;
    ok, n := NormalizeNumbersHelper(numbers);
    if !ok {
      return false, arabic;
    }
    if !trimLeadingZeros {
      var zeros := SkipLeadingZeros(numbers, 0);
      assert numbers[0..] == numbers;
      if zeros == |numbers| {
        zeros := zeros - 1;
      }
      arabic := arabic + Zeros(zeros);
    }
    arabic := arabic + Decimal(n);
  }

  method NormalizeNumbers(input: string, trimLeadingZeros: bool)
    returns (ok: bool, kanji: string, arabic: string)
    ensures ok <==> NormalForm(input, trimLeadingZeros).Some?
    ensures ok ==> arabic == NormalForm(input, trimLeadingZeros).value && kanji == KanjiForms(input)
  {
    hide KanjiNumberToArabicNumber, Normalize, Decimal, KeptZeros;
    arabic := "";
    var numbers;
    numbers, kanji := Tokenize(input);
    if |numbers| < |input| {
      return false, kanji, arabic;
    }
    assert input[..|numbers|] == input;
    ok, arabic := FormatNumbers(numbers, trimLeadingZeros);
  }

  lemma EmptyText()
    ensures Normalize([]) == None
  {
  }
}
