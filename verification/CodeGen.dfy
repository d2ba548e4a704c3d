/**
  `BasicCodeGenByteArrayStreamBuf`: a buffered stream that prints the bytes put into it as the
  definition of a C array. The sink is a text that never fails.
*/
module CodeGen {
  import opened Wrappers

  type Byte = b: nat | b < 256

  const BYTES_ON_ONE_LINE: nat := 20

  // ---------- rendering without a buffer ----------

  const HEX_DIGITS: string := "0123456789ABCDEF"

  function Hex(b: Byte): string {
    [HEX_DIGITS[b / 16], HEX_DIGITS[b % 16]]
  }

  /** The text of the byte that `count` bytes precede: a new line for every twentieth. */
  function RenderByte(b: Byte, count: nat): (s: string)
    ensures |s| == 6
  {
    (if count % BYTES_ON_ONE_LINE == 0 then "\n" else " ") + "0x" + Hex(b) + ","
  }

  function Render(bytes: seq<Byte>, count: nat): string {
    if bytes == [] then ""
    else Render(bytes[..|bytes| - 1], count) + RenderByte(bytes[|bytes| - 1], count + |bytes| - 1)
  }

  function Header(name: string): string {
    "alignas(std::max_align_t) constexpr char k" + name + "_data[] = {"
  }

  function Trailer(name: string, count: nat): string {
    "};\n" + "constexpr size_t k" + name + "_size = " + Decimal(count) + ";\n"
  }

  function Footer(name: string, count: nat): string {
    (if count != 0 then "\n" else "") + Trailer(name, count)
  }

  /** The whole definition of an array, printed from its bytes at once. */
  function Definition(name: string, bytes: seq<Byte>): string {
    Header(name) + Render(bytes, 0) + Footer(name, |bytes|)
  }

  lemma {:induction false} RenderConcat(a: seq<Byte>, b: seq<Byte>, count: nat)
    ensures Render(a + b, count) == Render(a, count) + Render(b, count + |a|)
  {
    hide RenderByte, Render;
    if b == [] {
      EmptyRenders(count + |a|);
      assert a + b == a && Render(a, count) + "" == Render(a, count);
    } else {
      RenderLast(b, count + |a|);
      RenderLast(a + b, count);
      var k := |b| - 1;
      RenderConcat(a, b[..k], count);
      assert (a + b)[..|a| + k] == a + b[..k];
      Assoc(Render(a, count), Render(b[..k], count + |a|), RenderByte(b[k], count + |a| + k));
    }
  }

  lemma RenderLast(bytes: seq<Byte>, count: nat)
    requires bytes != []
    ensures var k := |bytes| - 1; Render(bytes, count) == Render(bytes[..k], count) + RenderByte(bytes[k], count + k)
  {
    hide RenderByte;
  }

  lemma Assoc(a: string, b: string, c: string)
    ensures a + b + c == a + (b + c)
  {
  }

  /** Byte i is printed in the six characters from 6i on, so the text determines the bytes and the lines. */
  lemma {:induction false} RenderAt(bytes: seq<Byte>, i: nat)
    requires i < |bytes|
    ensures |Render(bytes, 0)| == 6 * |bytes|
    ensures Render(bytes, 0)[6 * i..6 * i + 6] == RenderByte(bytes[i], i)
  {
    hide RenderByte;
    var k := |bytes| - 1;
    if i < k {
      RenderAt(bytes[..k], i);
      assert Render(bytes, 0)[6 * i..6 * i + 6] == Render(bytes[..k], 0)[6 * i..6 * i + 6];
    } else if k > 0 {
      RenderAt(bytes[..k], 0);
    }
  }

  lemma HexInjective(a: Byte, b: Byte)
    requires Hex(a) == Hex(b)
    ensures a == b
  {
    assert HEX_DIGITS[a / 16] == Hex(a)[0] && HEX_DIGITS[a % 16] == Hex(a)[1];
    assert HEX_DIGITS[b / 16] == Hex(b)[0] && HEX_DIGITS[b % 16] == Hex(b)[1];
    HexDigitInjective(a / 16, b / 16);
    HexDigitInjective(a % 16, b % 16);
  }

  lemma HexDigitInjective(i: nat, j: nat)
    requires i < 16 && j < 16 && HEX_DIGITS[i] == HEX_DIGITS[j]
    ensures i == j
  {
  }

  /** Different byte sequences never print the same body. */
  lemma RenderInjective(a: seq<Byte>, b: seq<Byte>)
    requires Render(a, 0) == Render(b, 0)
    ensures a == b
  {
    hide Render, Hex;
    assert |a| == |b| by {
      EmptyRenders(0);
      if a != [] { RenderAt(a, 0); }
      if b != [] { RenderAt(b, 0); }
    }
    forall i | 0 <= i < |a|
      ensures a[i] == b[i]
    {
      RenderAt(a, i);
      RenderAt(b, i);
      assert RenderByte(a[i], i)[3..5] == Hex(a[i]) && RenderByte(b[i], i)[3..5] == Hex(b[i]) by {
        HexInside(a[i], i);
        HexInside(b[i], i);
      }
      HexInjective(a[i], b[i]);
    }
  }

  lemma HexInside(b: Byte, count: nat)
    ensures RenderByte(b, count)[3..5] == Hex(b)
  {
  }

  // ---------- reading the text back ----------

  function HexValue(c: char): int {
    if '0' <= c <= '9' then c as int - '0' as int else if 'A' <= c <= 'F' then c as int - 'A' as int + 10 else -1
  }

  lemma HexReads(b: Byte)
    ensures 16 * HexValue(Hex(b)[0]) + HexValue(Hex(b)[1]) == b
  {
    HexDigitReads(b / 16);
    HexDigitReads(b % 16);
  }

  lemma HexDigitReads(d: nat)
    requires d < 16
    ensures HexValue(HEX_DIGITS[d]) == d
  {
  }

  /** Every byte is printed as two hexadecimal digits between 0x and a comma, twenty of them on a line. */
  lemma RenderReads(bytes: seq<Byte>, i: nat)
    requires i < |bytes| && 6 * i + 6 <= |Render(bytes, 0)|
    ensures var t := Render(bytes, 0)[6 * i..6 * i + 6];
            && t[0] == (if i % 20 == 0 then '\n' else ' ') && t[1..3] == "0x" && t[5] == ','
            && 16 * HexValue(t[3]) + HexValue(t[4]) == bytes[i]
  {
    hide Render;
    RenderAt(bytes, i);
    HexReads(bytes[i]);
  }

  /** The printed size is read back as the number of bytes. */
  lemma SizeReads(name: string, bytes: seq<Byte>) returns (front: string, size: string)
    ensures Definition(name, bytes) == front + "constexpr size_t k" + name + "_size = " + size + ";\n"
    ensures ReadDecimal(size) == |bytes|
  {
    hide Render, Header, Decimal;
    DecimalReads(|bytes|);
    size := Decimal(|bytes|);
    var body := if |bytes| != 0 then "\n" else "";
    front := Header(name) + Render(bytes, 0) + body + "};\n";
    var rest := "constexpr size_t k" + name + "_size = " + size + ";\n";
    assert "};\n" + "constexpr size_t k" + name + "_size = " + size + ";\n" == "};\n" + rest;
    assert Header(name) + Render(bytes, 0) + (body + ("};\n" + rest)) == front + rest;
    assert front + rest == front + "constexpr size_t k" + name + "_size = " + size + ";\n";
  }

  /** What stands around the bytes. */
  lemma HeaderExample()
    ensures Header("A") == "alignas(std::max_align_t) constexpr char kA_data[] = {"
  {
  }

  lemma TrailerExample()
    ensures Trailer("A", 7) == "};\nconstexpr size_t kA_size = 7;\n"
  {
    hide Decimal;
    SevenInDecimal();
    assert "};\n" + "constexpr size_t k" == "};\nconstexpr size_t k";
    assert "};\nconstexpr size_t k" + "A" == "};\nconstexpr size_t kA";
    assert "};\nconstexpr size_t kA" + "_size = " == "};\nconstexpr size_t kA_size = ";
    assert "};\nconstexpr size_t kA_size = " + "7" == "};\nconstexpr size_t kA_size = 7";
  }

  lemma SevenInDecimal()
    ensures Decimal(7) == "7"
  {
  }

  /** The bytes end with a line break, unless there are none. */
  lemma FooterBreaks(name: string, count: nat)
    ensures count == 0 ==> Footer(name, count) == Trailer(name, count)
    ensures count > 0 ==> Footer(name, count) == "\n" + Trailer(name, count)
  {
    hide Trailer;
    assert "" + Trailer(name, count) == Trailer(name, count);
  }

  // ---------- the buffered program ----------

  class CodeGenByteArrayStreamBuf {
    const buffer: array<Byte>
    var pptr: nat
    var text: string
    var isOpen: bool
    var name: string
    var outputCount: nat

    /** The put area lies in the buffer. */
    ghost predicate Valid()
      reads this
    {
      pptr <= buffer.Length
    }

    /** Bytes that were accepted but not printed yet. */
    ghost function Pending(): seq<Byte>
      requires Valid()
      reads this, buffer
    {
      buffer[..pptr]
    }

    /** While a definition is open: `bytes` were put into it, and all but the pending ones are printed behind
        `before`. */
    ghost predicate Holds(before: string, bytes: seq<Byte>)
      reads this, buffer
    {
      && Valid() && isOpen && |bytes| == outputCount + pptr
      && text == before + Render(bytes[..outputCount], 0)
      && Pending() == bytes[outputCount..]
    }

    constructor (size: nat)
      ensures Valid() && !isOpen && text == "" && Pending() == [] && buffer.Length == size
      ensures fresh(buffer)
    {
      buffer := new Byte[size](_ => 0);
      pptr, text, isOpen, name, outputCount := 0, "", false, "", 0;
    }

    method WriteBytes(bytes: seq<Byte>)
      modifies this`text, this`outputCount
      ensures text == old(text) + Render(bytes, old(outputCount))
      ensures outputCount == old(outputCount) + |bytes|
    {
      hide RenderByte;
      var begin := 0;
      while begin < |bytes|
        invariant begin <= |bytes| && outputCount == old(outputCount) + begin
        invariant text == old(text) + Render(bytes[..begin], old(outputCount))
      {
        assert bytes[..begin + 1][..begin] == bytes[..begin];
        text := text + RenderByte(bytes[begin], outputCount);
        begin := begin + 1;
        outputCount := outputCount + 1;
      }
      assert bytes[..begin] == bytes;
    }

    method Overflow(c: Option<Byte>) returns (ok: bool)
      requires Valid()
      modifies this
      ensures Valid() && isOpen == old(isOpen) && name == old(name)
      ensures ok <==> isOpen
      ensures !ok ==> pptr == old(pptr) && text == old(text) && outputCount == old(outputCount)
      ensures ok ==> pptr == 0
      ensures ok ==> var bytes := old(Pending()) + (if c.Some? then [c.value] else []);
                     && text == old(text) + Render(bytes, old(outputCount))
                     && outputCount == old(outputCount) + |bytes|
    {
      hide Render;
      if !isOpen {
        return false;
      }
      ghost var pending := Pending();
      EmptyRenders(outputCount);
      if 0 < pptr {
        WriteBytes(buffer[..pptr]);
      }
      assert text == old(text) + Render(pending, old(outputCount)) && outputCount == old(outputCount) + |pending|;
      if c.Some? {
        RenderConcat(pending, [c.value], old(outputCount));
        WriteBytes([c.value]);
      } else {
        assert pending + [] == pending;
      }
      pptr := 0;
      return true;
    }

    method OpenVarDef(varName: string) returns (ok: bool)
      requires Valid()
      modifies this
      ensures Valid() && pptr == old(pptr)
      ensures ok <==> !old(isOpen) && varName != ""
      ensures !ok ==> text == old(text) && isOpen == old(isOpen) && name == old(name) && outputCount == old(outputCount)
      ensures ok ==> name == varName && Holds(old(text) + Header(varName), old(Pending()))
    {
      if isOpen || varName == "" {
        return false;
      }
      name := varName;
      text := text + Header(name);
      outputCount := 0;
      isOpen := true;
      assert text + "" == text;
      return true;
    }

    method CloseVarDef(ghost before: string, ghost bytes: seq<Byte>) returns (ok: bool)
      requires Valid() && (isOpen ==> Holds(before, bytes))
      modifies this
      ensures Valid() && !isOpen && name == old(name)
      ensures ok <==> old(isOpen)
      ensures !ok ==> text == old(text) && pptr == old(pptr)
      ensures ok ==> pptr == 0 && text == before + Render(bytes, 0) + Footer(name, |bytes|)
    {
      hide Render, Trailer;
      if !isOpen {
        return false;
      }
      Flushed(before, bytes, []);
      assert bytes + [] == bytes;
      var _ := Overflow(None);
      ghost var body := text;
      if outputCount != 0 {
        text := text + "\n";
      }
      Assoc(body, if outputCount != 0 then "\n" else "", Trailer(name, outputCount));
      text := text + Trailer(name, outputCount);
      isOpen := false;
      return true;
    }

    /** Printing the pending bytes and more prints everything that was put in, and more. */
    lemma Flushed(before: string, bytes: seq<Byte>, more: seq<Byte>)
      requires Holds(before, bytes)
      ensures text + Render(Pending() + more, outputCount) == before + Render(bytes + more, 0)
      ensures outputCount + |Pending() + more| == |bytes + more|
    {
      hide Render;
      var printed, pending := bytes[..outputCount], bytes[outputCount..];
      RenderConcat(printed, pending + more, 0);
      assert printed + (pending + more) == bytes + more;
      Assoc(before, Render(printed, 0), Render(pending + more, outputCount));
    }

    /** std::streambuf::sputc: stores into the put area, or hands a byte that finds it full to Overflow. */
    method Put(c: Byte, ghost before: string, ghost bytes: seq<Byte>) returns (ok: bool)
      requires Valid()
      modifies this, buffer
      ensures Valid() && isOpen == old(isOpen) && name == old(name)
      ensures old(Holds(before, bytes)) ==> ok && Holds(before, bytes + [c])
      ensures !isOpen ==> (ok <==> old(pptr) < buffer.Length) && text == old(text)
      ensures !isOpen ==> Pending() == if ok then old(Pending()) + [c] else old(Pending())
    {
      hide Render;
      if pptr < buffer.Length {
        buffer[pptr] := c;
        pptr := pptr + 1;
        assert buffer[..pptr] == old(buffer[..pptr]) + [c];
        assert Holds(before, bytes + [c]) <== old(Holds(before, bytes)) by {
          if old(Holds(before, bytes)) { StoredMore(before, bytes, [c], old(text), old(outputCount)); }
        }
        return true;
      }
      if Holds(before, bytes) { Flushed(before, bytes, [c]); }
      ok := Overflow(Some(c));
      assert (bytes + [c])[..|bytes| + 1] == bytes + [c];
    }

    lemma StoredMore(before: string, bytes: seq<Byte>, more: seq<Byte>, oldText: string, oldCount: nat)
      requires Valid() && isOpen && text == oldText && outputCount == oldCount <= |bytes|
      requires oldText == before + Render(bytes[..oldCount], 0)
      requires buffer[..pptr] == bytes[oldCount..] + more
      ensures Holds(before, bytes + more)
    {
      hide Render;
      assert (bytes + more)[..oldCount] == bytes[..oldCount];
      assert (bytes + more)[oldCount..] == bytes[oldCount..] + more;
    }

    /** Writes a block: into the put area if it fits, else straight to the sink behind what is pending. */
    method Xsputn(s: seq<Byte>, ghost before: string, ghost bytes: seq<Byte>)
      requires Valid()
      modifies this, buffer
      ensures Valid() && isOpen == old(isOpen) && name == old(name)
      ensures old(Holds(before, bytes)) ==> Holds(before, bytes + s)
      ensures !isOpen && |s| <= buffer.Length - old(pptr) ==> Pending() == old(Pending()) + s && text == old(text)
      // Without an open definition, a block that does not fit still reaches the sink.
      ensures !isOpen && |s| > buffer.Length - old(pptr) ==>
                Pending() == old(Pending()) && text == old(text) + Render(s, old(outputCount))
    {
      hide Render;
      if |s| <= buffer.Length - pptr {
        ghost var was := buffer[..pptr];
        forall i | 0 <= i < |s| {
          buffer[pptr + i] := s[i];
        }
        pptr := pptr + |s|;
        assert buffer[..pptr] == was + s;
        if old(Holds(before, bytes)) { StoredMore(before, bytes, s, old(text), old(outputCount)); }
      } else {
        if Holds(before, bytes) {
          Flushed(before, bytes, []);
          RenderConcat(bytes, s, 0);
          Assoc(before, Render(bytes, 0), Render(s, |bytes|));
          assert bytes + [] == bytes;
        }
        var _ := Overflow(None);
        WriteBytes(s);
        assert (bytes + s)[..|bytes| + |s|] == bytes + s;
      }
    }

    method Sync(ghost before: string, ghost bytes: seq<Byte>) returns (ok: bool)
      requires Valid()
      modifies this
      ensures Valid() && isOpen == old(isOpen) && name == old(name)
      ensures ok <==> isOpen
      ensures old(Holds(before, bytes)) ==> Holds(before, bytes) && pptr == 0
    {
      hide Render;
      if Holds(before, bytes) { Flushed(before, bytes, []); }
      ok := Overflow(None);
      assert bytes + [] == bytes && bytes[..|bytes|] == bytes;
    }
  }

  lemma EmptyRenders(count: nat)
    ensures Render([], count) == ""
  {
  }

  // ---------- whole runs ----------

  datatype Op = PutByte(c: Byte) | WriteBlock(s: seq<Byte>) | Flush

  function OpBytes(op: Op): seq<Byte> {
    match op
    case PutByte(c) => [c]
    case WriteBlock(s) => s
    case Flush => []
  }

  function BytesOf(ops: seq<Op>): seq<Byte> {
    if ops == [] then [] else BytesOf(ops[..|ops| - 1]) + OpBytes(ops[|ops| - 1])
  }

  method Apply(stream: CodeGenByteArrayStreamBuf, op: Op, ghost before: string, ghost bytes: seq<Byte>)
    requires stream.Holds(before, bytes)
    modifies stream, stream.buffer
    ensures stream.name == old(stream.name) && stream.Holds(before, bytes + OpBytes(op))
  {
    hide Render;
    match op {
      case PutByte(c) =>
        var _ := stream.Put(c, before, bytes);
      case WriteBlock(s) =>
        stream.Xsputn(s, before, bytes);
      case Flush =>
        var _ := stream.Sync(before, bytes);
        assert bytes + [] == bytes;
    }
  }

  /**
    For every buffer size and every sequence of writes and flushes, the emitted text is the
    unbuffered definition of all bytes; bytes put in before the definition was opened come first.
  */
  method EmitDefinition(stream: CodeGenByteArrayStreamBuf, name: string, ops: seq<Op>)
    requires stream.Valid() && !stream.isOpen && name != ""
    modifies stream, stream.buffer
    ensures stream.Valid() && !stream.isOpen && stream.pptr == 0
    ensures stream.text == old(stream.text) + Definition(name, old(stream.Pending()) + BytesOf(ops))
  {
    hide Render, Header, Footer, OpBytes, BytesOf, Definition;
    ghost var first := stream.Pending();
    ghost var before := stream.text + Header(name);
    var _ := stream.OpenVarDef(name);
    NoOps();
    assert ops[..0] == [] && first + [] == first;
    for i := 0 to |ops|
      invariant stream.name == name && stream.Holds(before, first + BytesOf(ops[..i]))
    {
      Apply(stream, ops[i], before, first + BytesOf(ops[..i]));
      OneMoreOp(ops, i, first);
    }
    assert ops[..|ops|] == ops;
    ghost var bytes := first + BytesOf(ops);
    var _ := stream.CloseVarDef(before, bytes);
    WholeDefinition(old(stream.text), name, bytes);
  }

  lemma NoOps()
    ensures BytesOf([]) == []
  {
  }

  lemma OneMoreOp(ops: seq<Op>, i: nat, first: seq<Byte>)
    requires i < |ops|
    ensures first + BytesOf(ops[..i]) + OpBytes(ops[i]) == first + BytesOf(ops[..i + 1])
  {
    hide OpBytes;
    assert ops[..i + 1][..i] == ops[..i];
  }

  lemma WholeDefinition(text: string, name: string, bytes: seq<Byte>)
    ensures text + Header(name) + Render(bytes, 0) + Footer(name, |bytes|) == text + Definition(name, bytes)
  {
    hide Render, Header, Footer;
    Assoc(text, Header(name), Render(bytes, 0));
    Assoc(text, Header(name) + Render(bytes, 0), Footer(name, |bytes|));
  }
}
