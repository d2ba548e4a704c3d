/**
  `Util::SplitCSV`: splits a line at commas and unquotes fields inside a private copy of it.
  A `string` is a sequence of bytes here; the copy ends in a NUL byte, as `std::string` guarantees.
*/
module Csv {
  const QUOTE: char := '"'
  const COMMA: char := ','
  const NUL: char := '\0'

  predicate IsBlank(c: char) {
    c == ' ' || c == '\t'
  }

  // ---------- specification on the unread rest of the line ----------

  function SkipBlanks(s: string): (r: string)
    ensures |r| <= |s|
  {
    if s != "" && IsBlank(s[0]) then SkipBlanks(s[1..]) else s
  }

  function FromComma(s: string): (r: string)
    ensures |r| <= |s| && (r != "" ==> r[0] == COMMA)
  {
    if s == "" || s[0] == COMMA then s else FromComma(s[1..])
  }

  /** Unquotes what follows an opening quote, up to the closing quote or the end of the line. */
  function Unquoted(s: string): (r: (string, string))
    ensures |r.0| + |r.1| <= |s|
  {
    if s == "" then ("", "")
    else if s[0] != QUOTE then
      var r := Unquoted(s[1..]);
      ([s[0]] + r.0, r.1)
    else if |s| >= 2 && s[1] == QUOTE then
      var r := Unquoted(s[2..]);
      ([QUOTE] + r.0, r.1)
    else ("", s[1..])
  }

  /** An extra empty field: a field of k bytes ends right before a comma that is the last byte of the line. */
  function TrailingEmpty(s: string, k: nat): seq<string> {
    if k == |s| - 1 && s[k] == COMMA then [""] else []
  }

  function AfterComma(s: string): (r: string)
    ensures |r| <= |s| && (s != "" ==> |r| < |s|)
  {
    if s == "" then s else s[1..]
  }

  function Fields(s: string): (fields: seq<string>)
    decreases |s|
  {
    if s == "" then []
    else
      var b := SkipBlanks(s);
      if b != "" && b[0] == QUOTE then
        var r := Unquoted(b[1..]);
        [r.0] + TrailingEmpty(b[1..], |r.0|) + Fields(AfterComma(FromComma(r.1)))
      else
        var rest := FromComma(b);
        var k := |b| - |rest|;
        FromCommaShrinks(s, b);
        [b[..k]] + TrailingEmpty(b, k) + Fields(AfterComma(rest))
  }

  lemma FromCommaShrinks(s: string, b: string)
    requires s != "" && |b| <= |s|
    ensures |AfterComma(FromComma(b))| < |s|
  {
  }

  // ---------- the program ----------

  /** The part of the buffer from index i on still holds the input and its terminating NUL. */
  ghost predicate Intact(buf: array<char>, input: string, i: int)
    reads buf
  {
    && buf.Length == |input| + 1 && 0 <= i <= |input| && buf[|input|] == NUL
    && forall k :: i <= k < |input| ==> buf[k] == input[k]
  }

  method FindComma(buf: array<char>, input: string, from: nat) returns (str: nat)
    requires Intact(buf, input, from)
    ensures from <= str <= |input| && input[str..] == FromComma(input[from..])
    ensures input[from..str] == input[from..][..|input[from..]| - |FromComma(input[from..])|]
  {
    str := from;
    while str < |input| && buf[str] != COMMA
      invariant from <= str <= |input|
      invariant FromComma(input[str..]) == FromComma(input[from..])
    {
      assert input[str..][1..] == input[str + 1..];
      str := str + 1;
    }
  }

  method SkipSpaces(buf: array<char>, input: string, from: nat) returns (str: nat)
    requires Intact(buf, input, from)
    ensures from <= str <= |input| && input[str..] == SkipBlanks(input[from..])
  {
    str := from;
    while IsBlank(buf[str])
      invariant from <= str <= |input|
      invariant SkipBlanks(input[str..]) == SkipBlanks(input[from..])
      decreases |input| - str
    {
      assert input[str..][1..] == input[str + 1..];
      str := str + 1;
    }
  }

  /** The byte that unquoting yields next, and what it goes on with; nothing at a closing quote. */
  lemma UnquotedStep(s: string)
    requires s != ""
    ensures var r := Unquoted(s);
            if s[0] == QUOTE && !(|s| >= 2 && s[1] == QUOTE) then r == ("", s[1..])
            else
              var more := Unquoted(if s[0] == QUOTE then s[2..] else s[1..]);
              r.0 == [s[0]] + more.0 && r.1 == more.1
  {
  }

  lemma Assoc(done: string, c: char, more: string)
    ensures done + ([c] + more) == done + [c] + more
  {
  }

  /** Moves the unquoted bytes to the front of the field; the write cursor never passes the read cursor. */
  method Unquote(buf: array<char>, input: string, start: nat) returns (str: nat, end: nat)
    requires Intact(buf, input, start)
    modifies buf
    ensures start <= end <= str <= |input|
    ensures Intact(buf, input, end)
    ensures var r := Unquoted(input[start..]); buf[start..end] == r.0 && input[str..] == r.1
  {
    hide Unquoted;
    str, end := start, start;
    ghost var done := "";
    assert "" + Unquoted(input[start..]).0 == Unquoted(input[start..]).0;
    while str < |input|
      invariant start <= end <= str <= |input|
      invariant Intact(buf, input, end)
      invariant done == buf[start..end]
      invariant Unquoted(input[start..]) == (done + Unquoted(input[str..]).0, Unquoted(input[str..]).1)
    {
      ghost var rest := input[str..];
      UnquotedStep(rest);
      assert rest[1..] == input[str + 1..];
      if buf[str] == QUOTE {
        str := str + 1;
        if buf[str] != QUOTE {
          assert done + "" == done;
          return;
        }
        assert rest[2..] == input[str + 1..];
      }
      Assoc(done, rest[0], Unquoted(input[str + 1..]).0);
      buf[end] := buf[str];
      done := done + [buf[end]];
      end := end + 1;
      str := str + 1;
    }
    UnquotedEmpty();
    assert input[str..] == "" && done + "" == done;
  }

  lemma UnquotedEmpty()
    ensures Unquoted("") == ("", "")
  {
  }

  /** Reads one field: its bytes end up in buf[start..end], and the next comma is at str. */
  method NextField(buf: array<char>, input: string, from: nat) returns (start: nat, end: nat, str: nat)
    requires Intact(buf, input, from) && from < |input|
    modifies buf
    ensures from <= start <= end <= str <= |input|
    ensures Intact(buf, input, end)
    ensures Fields(input[from..]) ==
            [buf[start..end]] + TrailingEmpty(input[start..], end - start) + Fields(AfterComma(input[str..]))
  {
    hide Unquoted, SkipBlanks, FromComma, TrailingEmpty;
    str := SkipSpaces(buf, input, from);
    ghost var b := input[str..];
    if buf[str] == QUOTE {
      start := str + 1;
      assert b[1..] == input[start..];
      str, end := Unquote(buf, input, start);
      str := FindComma(buf, input, str);
    } else {
      start := str;
      str := FindComma(buf, input, str);
      end := str;
      assert buf[start..end] == input[start..end];
    }
  }

  method SplitCSV(input: string) returns (output: seq<string>)
    ensures output == Fields(input)
  {
    hide Fields;
    var buf := new char[|input| + 1](i => if 0 <= i < |input| then input[i] else NUL);
    var str, eos := 0, |input|;
    output := [];
    assert input[0..] == input && [] + Fields(input) == Fields(input);
    NoFields();
    while str < eos
      invariant 0 <= str <= eos + 1
      invariant str <= eos ==> Intact(buf, input, str)
      invariant Fields(input) == output + Fields(if str <= eos then input[str..] else "")
    {
      var start, end;
      start, end, str := NextField(buf, input, str);
      ghost var rest := AfterComma(input[str..]);
      ghost var before, field := output, buf[start..end];
      var endIsEmpty := buf[end] == COMMA && end == eos - 1;
      output := output + [buf[start..end]];
      if endIsEmpty {
        output := output + [""];
      }
      assert output == before + ([field] + TrailingEmpty(input[start..], end - start));
      str := str + 1;
      assert rest == if str <= eos then input[str..] else "";
      Append(before, [field] + TrailingEmpty(input[start..], end - start), Fields(rest));
    }
    assert str <= eos ==> input[str..] == "";
    assert output + [] == output;
  }

  lemma Append(a: seq<string>, b: seq<string>, c: seq<string>)
    ensures a + (b + c) == a + b + c
  {
  }

  lemma NoFields()
    ensures Fields("") == []
  {
  }

  // ---------- writing and reading back, section 2 of RFC 4180 ----------

  /** Every inner quote written twice. */
  function Doubled(field: string): string {
    if field == "" then ""
    else if field[0] == QUOTE then [QUOTE, QUOTE] + Doubled(field[1..])
    else [field[0]] + Doubled(field[1..])
  }

  function Quoted(field: string): string {
    [QUOTE] + Doubled(field) + [QUOTE]
  }

  /** Unquoting a quoted field gives the field, whatever bytes it holds. */
  lemma {:induction false} UnquoteQuoted(field: string, t: string)
    requires t == "" || t[0] != QUOTE
    ensures Unquoted(Doubled(field) + [QUOTE] + t) == (field, t)
  {
    var s := Doubled(field) + [QUOTE] + t;
    if field == "" {
      assert s == [QUOTE] + t;
      assert s[1..] == t;
    } else {
      var rest := Doubled(field[1..]) + [QUOTE] + t;
      UnquoteQuoted(field[1..], t);
      if field[0] == QUOTE {
        assert s == [QUOTE, QUOTE] + rest;
        assert s[2..] == rest;
      } else {
        assert s == [field[0]] + rest;
        assert s[1..] == rest;
      }
      assert field == [field[0]] + field[1..];
    }
  }

  lemma {:induction false} DoubledNotShorter(field: string)
    ensures |Doubled(field)| >= |field|
  {
    if field != "" { DoubledNotShorter(field[1..]); }
  }

  /** Nothing but spaces and tabs. */
  predicate AllBlank(s: string) {
    forall i :: 0 <= i < |s| ==> s[i] == ' ' || s[i] == '\t'
  }

  predicate NoComma(s: string) {
    forall i :: 0 <= i < |s| ==> s[i] != ','
  }

  lemma {:induction false} BlanksSkipped(blanks: string, s: string)
    requires AllBlank(blanks) && (s == "" || (s[0] != ' ' && s[0] != '\t'))
    ensures SkipBlanks(blanks + s) == s
  {
    if blanks == "" {
      assert blanks + s == s;
    } else {
      BlanksSkipped(blanks[1..], s);
      assert (blanks + s)[1..] == blanks[1..] + s;
    }
  }

  /**
    A quoted field is read back from any place of a line: blanks in front of it are skipped, what stands
    between its closing quote and the comma is dropped, and no empty field is added.
  */
  lemma QuotedField(blanks: string, field: string, junk: string, t: string)
    requires AllBlank(blanks) && NoComma(junk) && (junk == "" || junk[0] != '"') && (t == "" || t[0] == ',')
    ensures Fields(blanks + Quoted(field) + junk + t) == [field] + Fields(AfterComma(t))
  {
    hide Unquoted, SkipBlanks, FromComma;
    var x := Quoted(field) + junk + t;
    var s := blanks + x;
    var u := Doubled(field) + [QUOTE] + (junk + t);
    assert blanks + Quoted(field) + junk + t == s && x[1..] == u;
    BlanksSkipped(blanks, x);
    UnquoteQuoted(field, junk + t);
    DoubledNotShorter(field);
    CommaBehind(junk, t);
    assert u[|Doubled(field)|] == QUOTE;
    assert TrailingEmpty(u, |field|) == [];
    assert [field] + [] == [field];
  }

  // ---------- lines of quoted and unquoted fields ----------

  /** A field behind blanks, written with quotes and anything but a comma behind them, or written as it is. */
  datatype Item = InQuotes(blanks: string, value: string, junk: string) | Bare(blanks: string, value: string)

  /** Unquoted values hold no comma and start with neither a blank nor a quote; they may be empty. */
  predicate Plain(item: Item) {
    && AllBlank(item.blanks)
    && match item
       case InQuotes(_, _, junk) => NoComma(junk) && (junk != "" ==> junk[0] != '"')
       case Bare(_, value) => NoComma(value) && (value != "" ==> value[0] != ' ' && value[0] != '\t' && value[0] != '"')
  }

  predicate AllPlain(items: seq<Item>) {
    forall i :: 0 <= i < |items| ==> Plain(items[i])
  }

  function Text(item: Item): string {
    if item.InQuotes? then item.blanks + Quoted(item.value) + item.junk else item.blanks + item.value
  }

  function Line(items: seq<Item>): string {
    if items == [] then ""
    else if |items| == 1 then Text(items[0])
    else Text(items[0]) + [COMMA] + Line(items[1..])
  }

  function Values(items: seq<Item>): (vs: seq<string>)
    ensures |vs| == |items| && forall i :: 0 <= i < |items| ==> vs[i] == items[i].value
  {
    seq(|items|, i requires 0 <= i < |items| => items[i].value)
  }

  /** The last field is not written at all, and it stands alone or behind a quoted field. */
  predicate LosesLast(items: seq<Item>) {
    && items != [] && items[|items| - 1] == Bare("", "")
    && (|items| == 1 || items[|items| - 2].InQuotes?)
  }

  lemma BareField(blanks: string, field: string, t: string)
    requires Plain(Bare(blanks, field)) && (t == "" || t[0] == ',') && blanks + field + t != ""
    ensures Fields(blanks + field + t) == [field] + (if t == "," then [""] else []) + Fields(AfterComma(t))
  {
    hide SkipBlanks, FromComma;
    var b := field + t;
    var s := blanks + b;
    assert blanks + field + t == s;
    assert b != "" ==> b[0] == if field == "" then t[0] else field[0];
    BlanksSkipped(blanks, b);
    CommaBehind(field, t);
    assert b[..|field|] == field;
  }

  lemma {:induction false} EmptyLine(items: seq<Item>)
    ensures Line(items) == "" <==> items == [] || items == [Bare("", "")]
  {
    if |items| == 1 {
      assert items == [items[0]];
      TextEmpty(items[0]);
    }
  }

  lemma TextEmpty(item: Item)
    ensures Text(item) == "" <==> item == Bare("", "")
  {
    assert |Text(item)| == if item.InQuotes? then |item.blanks| + |Quoted(item.value)| + |item.junk|
                           else |item.blanks| + |item.value|;
  }

  lemma OneItem(item: Item)
    requires Plain(item)
    ensures Fields(Text(item)) == if item == Bare("", "") then [] else [item.value]
  {
    hide Fields, Quoted, Plain;
    NoFields();
    TextEmpty(item);
    assert Text(item) + "" == Text(item);
    if item.InQuotes? {
      PlainQuoted(item);
      QuotedField(item.blanks, item.value, item.junk, "");
    } else if item != Bare("", "") {
      BareField(item.blanks, item.value, "");
    }
  }

  lemma PlainQuoted(item: Item)
    requires Plain(item) && item.InQuotes?
    ensures AllBlank(item.blanks) && NoComma(item.junk) && (item.junk == "" || item.junk[0] != '"')
  {
  }

  lemma FirstItem(item: Item, rest: string)
    requires Plain(item)
    ensures Fields(Text(item) + [COMMA] + rest) ==
            [item.value] + (if item.Bare? && rest == "" then [""] else []) + Fields(rest)
  {
    hide Fields, Quoted, Plain;
    var t := [COMMA] + rest;
    assert Text(item) + [COMMA] + rest == Text(item) + t && t[1..] == rest;
    assert t == "," <==> rest == "";
    if item.InQuotes? {
      PlainQuoted(item);
      QuotedField(item.blanks, item.value, item.junk, t);
      assert [item.value] + [] == [item.value];
    } else {
      BareField(item.blanks, item.value, t);
    }
  }

  lemma ValuesSplit(items: seq<Item>)
    requires items != []
    ensures Values(items) == [items[0].value] + Values(items[1..])
  {
  }

  /**
    Splitting a line gives back its fields, except for a last field of no characters that stands
    alone or behind a quoted one: exactly that one is lost.
  */
  lemma {:induction false} SplitLine(items: seq<Item>)
    requires AllPlain(items)
    ensures Fields(Line(items)) == if LosesLast(items) then Values(items[..|items| - 1]) else Values(items)
  {
    hide Fields, Text, Plain, LosesLast, Line, Values;
    NoFields();
    NoItems();
    if |items| == 1 {
      LineStep(items);
      LosesOnly(items);
      OneItem(items[0]);
    } else if |items| > 1 {
      var rest := items[1..];
      SplitLine(rest);
      LineStep(items);
      FirstItem(items[0], Line(rest));
      EmptyLine(rest);
      ValuesSplit(items);
      LosesLastStep(items);
      if LosesLast(items) {
        ValuesSplit(items[..|items| - 1]);
        assert items[..|items| - 1][1..] == rest[..|rest| - 1];
      }
    }
  }

  lemma NoItems()
    ensures Values([]) == [] && Line([]) == "" && !LosesLast([])
  {
  }

  lemma LineStep(items: seq<Item>)
    requires items != []
    ensures Line(items) == if |items| == 1 then Text(items[0]) else Text(items[0]) + [COMMA] + Line(items[1..])
  {
    hide Text;
  }

  lemma LosesOnly(items: seq<Item>)
    requires |items| == 1
    ensures LosesLast(items) <==> items[0] == Bare("", "")
    ensures Values(items) == [items[0].value] && items[..0] == []
  {
  }

  lemma LosesLastStep(items: seq<Item>)
    requires |items| > 1
    ensures var rest := items[1..];
            && (LosesLast(items) <==> LosesLast(rest) && (|rest| > 1 || items[0].InQuotes?))
            && (rest == [Bare("", "")] <==> |rest| == 1 && LosesLast(rest))
            && (rest == [Bare("", "")] ==> Values(rest) == [""] && Values(rest[..0]) == [])
  {
    assert Values([]) == [];
  }

  /** Every field in quotes, with inner quotes doubled, and commas between them. */
  function Joined(fields: seq<string>): string {
    Line(AllQuoted(fields))
  }

  function AllQuoted(fields: seq<string>): (items: seq<Item>)
    ensures |items| == |fields| && forall i :: 0 <= i < |items| ==> items[i] == InQuotes("", fields[i], "")
  {
    seq(|fields|, i requires 0 <= i < |fields| => InQuotes("", fields[i], ""))
  }

  /** Splitting what was joined gives back every list of fields of arbitrary bytes. */
  lemma SplitJoined(fields: seq<string>)
    ensures Fields(Joined(fields)) == fields
  {
    hide Fields, Line;
    SplitLine(AllQuoted(fields));
    assert Values(AllQuoted(fields)) == fields;
  }

  /** A comma at the end of a line adds an empty field if and only if the last field is not quoted. */
  lemma TrailingComma(items: seq<Item>)
    requires AllPlain(items) && items != []
    ensures Fields(Line(items) + [COMMA]) == Values(items) + if items[|items| - 1].Bare? then [""] else []
  {
    hide Fields, Line;
    LineAppend(items, Bare("", ""));
    var more := items + [Bare("", "")];
    assert Line(items) + [COMMA] + "" == Line(items) + [COMMA];
    SplitLine(more);
    assert more[..|items|] == items && Values(more) == Values(items) + [""];
  }

  /** `"a",` has one field here, where RFC 4180 has two; `a,` has two. */
  lemma TrailingCommaExamples()
    ensures Fields("\"a\",") == ["a"] && Fields("a,") == ["a", ""]
  {
    hide Fields;
    assert Doubled("a") == "a" by { assert "a"[1..] == ""; }
    assert Quoted("a") == "\"a\"" && "" + Quoted("a") + "" == Quoted("a");
    assert Line([InQuotes("", "a", "")]) + [COMMA] == "\"a\"," && Line([Bare("", "a")]) == "a";
    TrailingComma([InQuotes("", "a", "")]);
    TrailingComma([Bare("", "a")]);
    assert Quoted("a") + "," == "\"a\"," && "a" + [COMMA] == "a,";
    assert Values([InQuotes("", "a", "")]) == ["a"] == Values([Bare("", "a")]);
    assert ["a"] + [""] == ["a", ""] && ["a"] + [] == ["a"];
  }

  lemma {:induction false} LineAppend(items: seq<Item>, item: Item)
    requires items != []
    ensures Line(items + [item]) == Line(items) + [COMMA] + Text(item)
  {
    hide Text;
    var more := items + [item];
    assert more[1..] == items[1..] + [item];
    if |items| == 1 {
      assert more[1..] == [item];
    } else {
      LineAppend(items[1..], item);
      assert Line(more) == Text(items[0]) + [COMMA] + Line(items[1..] + [item]);
    }
  }

  lemma {:induction false} CommaBehind(field: string, t: string)
    requires (t == "" || t[0] == COMMA) && forall i :: 0 <= i < |field| ==> field[i] != COMMA
    ensures FromComma(field + t) == t
  {
    if field == "" {
      assert field + t == t;
    } else {
      CommaBehind(field[1..], t);
      assert (field + t)[1..] == field[1..] + t;
    }
  }
}
