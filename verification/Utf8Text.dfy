/** Whole UTF-8 strings: validity, conversion to and from code points, and iteration in both directions. */
module Utf8Text {
  import opened Utf8

  // ---------- forward ----------

  function Utf8ToUtf32(s: seq<Byte>): seq<CodePoint>
    decreases |s|
  {
    match SplitFirst(s)
    case Failed => []
    case Split(c, rest) => [c] + Utf8ToUtf32(rest)
  }

  predicate IsValidUtf8(s: seq<Byte>)
    decreases |s|
  {
    s == [] || (SplitFirst(s).Split? && IsValidUtf8(SplitFirst(s).rest))
  }

  function Utf32ToUtf8(cs: seq<CodePoint>): seq<Byte> {
    if cs == [] then [] else CodepointToUtf8(cs[0]) + Utf32ToUtf8(cs[1..])
  }

  predicate AllEncodable(cs: seq<CodePoint>) {
    forall i :: 0 <= i < |cs| ==> Encodable(cs[i])
  }

  method ToUtf32(s: seq<Byte>) returns (codepoints: seq<CodePoint>)
    ensures codepoints == Utf8ToUtf32(s)
  {
    hide SplitFirst;
    codepoints := [];
    var ok, c, rest := SplitFirstChar32(s);
    while ok
      invariant ok ==> codepoints + [c] + Utf8ToUtf32(rest) == Utf8ToUtf32(s)
      invariant !ok ==> codepoints == Utf8ToUtf32(s)
      decreases |rest|, ok
    {
      codepoints := codepoints + [c];
      ghost var before := rest;
      ok, c, rest := SplitFirstChar32(rest);
      if ok {
        assert codepoints + Utf8ToUtf32(before) == codepoints + [c] + Utf8ToUtf32(rest);
      } else {
        assert Utf8ToUtf32(before) == [];
        assert codepoints + [] == codepoints;
      }
    }
  }

  method ToUtf8(cs: seq<CodePoint>) returns (output: seq<Byte>)
    ensures output == Utf32ToUtf8(cs)
  {
    hide CodepointToUtf8;
    output := [];
    for i := 0 to |cs|
      invariant output + Utf32ToUtf8(cs[i..]) == Utf32ToUtf8(cs)
    {
      assert cs[i..][0] == cs[i] && cs[i..][1..] == cs[i + 1..];
      assert output + (CodepointToUtf8(cs[i]) + Utf32ToUtf8(cs[i + 1..])) ==
             output + CodepointToUtf8(cs[i]) + Utf32ToUtf8(cs[i + 1..]);
      output := output + CodepointToUtf8(cs[i]);
    }
    assert output + [] == output;
  }

  method CheckValidUtf8(s: seq<Byte>) returns (valid: bool)
    ensures valid == IsValidUtf8(s)
  {
    hide SplitFirst;
    var rest := s;
    while rest != []
      invariant IsValidUtf8(rest) == IsValidUtf8(s)
      decreases |rest|
    {
      var ok, first, tail := SplitFirstChar32(rest);
      if !ok {
        return false;
      }
      rest := tail;
    }
    valid := true;
  }

  /** Code points survive the way to UTF-8 and back. */
  lemma {:induction false} Utf32RoundTrip(cs: seq<CodePoint>)
    requires AllEncodable(cs)
    ensures IsValidUtf8(Utf32ToUtf8(cs)) && Utf8ToUtf32(Utf32ToUtf8(cs)) == cs
  {
    hide CodepointToUtf8, SplitFirst, Encodable;
    if cs == [] {
      NothingToSplit();
    } else {
      Utf32RoundTrip(cs[1..]);
      EncodeDecode(cs[0]);
      assert cs == [cs[0]] + cs[1..];
    }
  }

  lemma NothingToSplit()
    ensures SplitFirst([]) == Failed
  {
  }

  /** A valid string is rebuilt from its code points if and only if all of them are encodable. */
  lemma {:induction false} Utf8RoundTrip(s: seq<Byte>)
    requires IsValidUtf8(s)
    ensures Utf32ToUtf8(Utf8ToUtf32(s)) == s <==> AllEncodable(Utf8ToUtf32(s))
    ensures |Utf32ToUtf8(Utf8ToUtf32(s))| == |s| <==> AllEncodable(Utf8ToUtf32(s))
    ensures |Utf32ToUtf8(Utf8ToUtf32(s))| <= |s|
    decreases |s|
  {
    hide CodepointToUtf8, SplitFirst, Encodable;
    if s == [] {
      NothingToSplit();
    } else {
      var c, rest := SplitFirst(s).codepoint, SplitFirst(s).rest;
      var cs := Utf8ToUtf32(s);
      assert cs[0] == c && cs[1..] == Utf8ToUtf32(rest);
      Utf8RoundTrip(rest);
      DecodeEncode(s);
      DecodedLength(s);
      assert AllEncodable(cs) <==> Encodable(c) && AllEncodable(cs[1..]);
    }
  }

  // ---------- backward ----------

  /** How many trailing bytes end s. */
  function TrailingCount(s: seq<Byte>): (k: nat)
    ensures k <= |s|
  {
    if s == [] || !IsUtf8TrailingByte(s[|s| - 1]) then 0 else 1 + TrailingCount(s[..|s| - 1])
  }

  function SplitLast(s: seq<Byte>): (r: Split)
    ensures r.Split? ==> |r.rest| < |s|
  {
    var k := TrailingCount(s);
    if k == |s| then Failed
    else match SplitFirst(s[|s| - k - 1..])
      case Failed => Failed
      case Split(c, rest) => if rest == [] then Split(c, s[..|s| - k - 1]) else Failed
  }

  method SplitLastChar32(s: seq<Byte>) returns (ok: bool, rest: seq<Byte>, last: CodePoint)
    ensures ok <==> SplitLast(s).Split?
    ensures ok ==> SplitLast(s) == Split(last, rest)
    ensures !ok ==> rest == []
  {
    hide SplitFirst, IsUtf8TrailingByte;
    if |s| == 0 {
      return false, [], 0;
    }
    var it := |s|;
    assert s[..it] == s;
    while it > 0 && IsUtf8TrailingByte(s[it - 1])
      invariant 0 <= it <= |s|
      invariant TrailingCount(s) == |s| - it + TrailingCount(s[..it])
    {
      assert s[..it][..it - 1] == s[..it - 1];
      it := it - 1;
    }
    if it == 0 {
      return false, [], 0;
    }
    var piece := s[it - 1..];
    var good, after;
    good, last, after := SplitFirstChar32(piece);
    if !good || after != [] {
      return false, [], last;
    }
    return true, s[..it - 1], last;
  }

  function ReverseUtf8ToUtf32(s: seq<Byte>): seq<CodePoint>
    decreases |s|
  {
    match SplitLast(s)
    case Failed => []
    case Split(c, rest) => [c] + ReverseUtf8ToUtf32(rest)
  }

  function Reversed(cs: seq<CodePoint>): seq<CodePoint> {
    if cs == [] then [] else Reversed(cs[1..]) + [cs[0]]
  }

  /** One well-formed character of c and nothing else. */
  predicate IsChar(piece: seq<Byte>, c: CodePoint) {
    SplitFirst(piece) == Split(c, [])
  }

  /** Only the first byte of a character is not a trailing byte. */
  lemma CharBytes(piece: seq<Byte>, c: CodePoint)
    requires IsChar(piece, c)
    ensures piece != [] && !IsUtf8TrailingByte(piece[0])
    ensures forall i :: 1 <= i < |piece| ==> IsUtf8TrailingByte(piece[i])
  {
    hide LeadBits, Accumulate, InRange;
  }

  lemma CharFirst(piece: seq<Byte>, c: CodePoint, t: seq<Byte>)
    requires IsChar(piece, c)
    ensures SplitFirst(piece + t) == Split(c, t)
  {
    hide SequenceLength, LeadBits, InRange, IsUtf8TrailingByte, Accumulate;
    var n := SequenceLength(piece[0]);
    assert n == |piece|;
    AccumulatePrefix(piece, t, n);
    OpensSplits(piece + t, n);
    assert (piece + t)[n..] == t;
  }

  lemma {:induction false} AccumulatePrefix(piece: seq<Byte>, t: seq<Byte>, n: nat)
    requires 1 <= n <= |piece|
    ensures Accumulate(piece + t, n) == Accumulate(piece, n)
  {
    hide LeadBits, Extend;
    if n > 1 { AccumulatePrefix(piece, t, n - 1); }
  }

  /** The first character of a string that splits. */
  lemma FirstChar(s: seq<Byte>) returns (piece: seq<Byte>)
    requires SplitFirst(s).Split?
    ensures var r := SplitFirst(s); IsChar(piece, r.codepoint) && s == piece + r.rest
  {
    hide SequenceLength, LeadBits, InRange, IsUtf8TrailingByte, Accumulate;
    var n := SequenceLength(s[0]);
    piece := s[..n];
    assert s == piece + s[n..];
    AccumulatePrefix(piece, s[n..], n);
    OpensSplits(piece, n);
    assert piece[n..] == [];
  }

  lemma {:induction false} TrailingSuffix(p: seq<Byte>, k: nat)
    requires k < |p| && !IsUtf8TrailingByte(p[|p| - 1 - k])
    requires forall i :: |p| - k <= i < |p| ==> IsUtf8TrailingByte(p[i])
    ensures TrailingCount(p) == k
    decreases k
  {
    hide IsUtf8TrailingByte;
    if k > 0 {
      TrailingSuffix(p[..|p| - 1], k - 1);
    }
  }

  /** Reading backwards takes exactly the last character. */
  lemma CharLast(p: seq<Byte>, piece: seq<Byte>, c: CodePoint)
    requires IsChar(piece, c)
    ensures SplitLast(p + piece) == Split(c, p)
  {
    hide SplitFirst, IsUtf8TrailingByte;
    var s := p + piece;
    CharBytes(piece, c);
    assert s[|p|] == piece[0];
    TrailingSuffix(s, |piece| - 1);
    assert s[|p|..] == piece && s[..|p|] == p;
  }

  /** Whatever is read backwards is a character at the end. */
  lemma LastChar(s: seq<Byte>) returns (piece: seq<Byte>)
    requires SplitLast(s).Split?
    ensures var r := SplitLast(s); IsChar(piece, r.codepoint) && s == r.rest + piece
  {
    hide SplitFirst;
    piece := s[|s| - TrailingCount(s) - 1..];
  }

  /** A character behind a valid string is read last. */
  lemma {:induction false} AppendChar(p: seq<Byte>, piece: seq<Byte>, c: CodePoint)
    requires IsValidUtf8(p) && IsChar(piece, c)
    ensures IsValidUtf8(p + piece) && Utf8ToUtf32(p + piece) == Utf8ToUtf32(p) + [c]
    decreases |p|
  {
    hide SplitFirst, IsChar;
    NothingToSplit();
    if p == [] {
      assert p + piece == piece;
      CharSplits(piece, c);
      assert Utf8ToUtf32([]) == [];
    } else {
      var first := FirstChar(p);
      var a, rest := SplitFirst(p).codepoint, SplitFirst(p).rest;
      AppendChar(rest, piece, c);
      CharFirst(first, a, rest + piece);
      assert p + piece == first + (rest + piece);
    }
  }

  lemma CharSplits(piece: seq<Byte>, c: CodePoint)
    requires IsChar(piece, c)
    ensures SplitFirst(piece) == Split(c, [])
  {
  }

  /** A valid string is empty or ends in a character behind a valid string. */
  lemma {:induction false} ValidLast(s: seq<Byte>) returns (p: seq<Byte>, piece: seq<Byte>, c: CodePoint)
    requires IsValidUtf8(s) && s != []
    ensures s == p + piece && IsValidUtf8(p) && IsChar(piece, c)
    decreases |s|
  {
    hide SplitFirst, IsChar;
    var a, rest := SplitFirst(s).codepoint, SplitFirst(s).rest;
    var first := FirstChar(s);
    if rest == [] {
      p, piece, c := [], first, a;
    } else {
      var q;
      q, piece, c := ValidLast(rest);
      p := first + q;
      CharFirst(first, a, q);
      assert first + q + piece == first + (q + piece);
    }
  }

  /**
    On every valid string the reverse iteration yields the code points of the forward iteration in
    reverse, and consumes the whole string.
  */
  lemma {:induction false} ReverseIteration(s: seq<Byte>)
    requires IsValidUtf8(s)
    ensures ReverseUtf8ToUtf32(s) == Reversed(Utf8ToUtf32(s))
    ensures Unread(s) == [] && UnreadBackward(s) == []
    decreases |s|
  {
    hide SplitFirst, SplitLast, IsChar;
    if s == [] {
      EmptyIteration();
    } else {
      var p, piece, c := ValidLast(s);
      CharLast(p, piece, c);
      ReverseIteration(p);
      AppendChar(p, piece, c);
      ReversedAppend(Utf8ToUtf32(p), c);
      ValidIsRead(s);
    }
  }

  /** What is left when forward iteration stops. */
  function Unread(s: seq<Byte>): seq<Byte>
    decreases |s|
  {
    if SplitFirst(s).Failed? then s else Unread(SplitFirst(s).rest)
  }

  function UnreadBackward(s: seq<Byte>): seq<Byte>
    decreases |s|
  {
    if SplitLast(s).Failed? then s else UnreadBackward(SplitLast(s).rest)
  }

  lemma EmptyIteration()
    ensures ReverseUtf8ToUtf32([]) == [] == Utf8ToUtf32([]) && Unread([]) == [] == UnreadBackward([])
  {
  }

  /** Forward iteration reads everything exactly on valid strings. */
  lemma {:induction false} ValidIsRead(s: seq<Byte>)
    ensures IsValidUtf8(s) <==> Unread(s) == []
    decreases |s|
  {
    hide SplitFirst;
    NothingToSplit();
    if SplitFirst(s).Split? { ValidIsRead(SplitFirst(s).rest); }
  }

  /** Backward iteration, too, reads everything exactly on valid strings. */
  lemma {:induction false} ValidIsReadBackward(s: seq<Byte>)
    ensures IsValidUtf8(s) <==> UnreadBackward(s) == []
    decreases |s|
  {
    hide SplitFirst, SplitLast, IsChar;
    if IsValidUtf8(s) {
      ReverseIteration(s);
    } else if SplitLast(s).Split? {
      var c, p := SplitLast(s).codepoint, SplitLast(s).rest;
      var piece := LastChar(s);
      ValidIsReadBackward(p);
      if IsValidUtf8(p) {
        AppendChar(p, piece, c);
        assert false;
      }
    }
  }

  lemma {:induction false} ReversedAppend(cs: seq<CodePoint>, c: CodePoint)
    ensures Reversed(cs + [c]) == [c] + Reversed(cs)
  {
    if cs == [] {
      assert [] + [c] == [c];
      assert [c][1..] == [];
    } else {
      ReversedAppend(cs[1..], c);
      assert (cs + [c])[1..] == cs[1..] + [c];
    }
  }

  // ---------- the iterators ----------

  class ConstChar32Iterator {
    var text: seq<Byte>
    var current: CodePoint
    var done: bool

    /** The code points that are still to come. */
    ghost function Remaining(): seq<CodePoint>
      reads this
    {
      if done then [] else [current] + Utf8ToUtf32(text)
    }

    constructor (utf8: seq<Byte>)
      ensures Remaining() == Utf8ToUtf32(utf8)
    {
      text, current, done := utf8, 0, false;
      new;
      Next();
    }

    method Get() returns (c: CodePoint)
      requires !done
      ensures Remaining() != [] && c == Remaining()[0]
    {
      c := current;
    }

    method Next()
      modifies this
      ensures Remaining() == if old(Remaining()) == [] then [] else old(Remaining())[1..]
      ensures !old(done) ==> Remaining() == Utf8ToUtf32(old(text))
      ensures !done ==> |text| < |old(text)|
      ensures old(done) ==> done
    {
      hide SplitFirst;
      if !done {
        var ok;
        ok, current, text := SplitFirstChar32(text);
        done := !ok;
      }
    }

    method Done() returns (r: bool)
      ensures r <==> Remaining() == []
    {
      r := done;
    }
  }

  class ConstChar32ReverseIterator {
    var text: seq<Byte>
    var current: CodePoint
    var done: bool

    ghost function Remaining(): seq<CodePoint>
      reads this
    {
      if done then [] else [current] + ReverseUtf8ToUtf32(text)
    }

    constructor (utf8: seq<Byte>)
      ensures Remaining() == ReverseUtf8ToUtf32(utf8)
    {
      text, current, done := utf8, 0, false;
      new;
      Next();
    }

    method Get() returns (c: CodePoint)
      requires !done
      ensures Remaining() != [] && c == Remaining()[0]
    {
      c := current;
    }

    method Next()
      modifies this
      ensures Remaining() == if old(Remaining()) == [] then [] else old(Remaining())[1..]
      ensures !old(done) ==> Remaining() == ReverseUtf8ToUtf32(old(text))
      ensures !done ==> |text| < |old(text)|
      ensures old(done) ==> done
    {
      hide SplitLast;
      if !done {
        var ok;
        ok, text, current := SplitLastChar32(text);
        done := !ok;
      }
    }

    method Done() returns (r: bool)
      ensures r <==> Remaining() == []
    {
      r := done;
    }
  }

  lemma MoveFirst(a: seq<CodePoint>, b: seq<CodePoint>)
    requires b != []
    ensures a + b == a + [b[0]] + b[1..]
  {
  }

  /** Runs the forward iterator to its end. */
  method IterateForward(s: seq<Byte>) returns (codepoints: seq<CodePoint>)
    ensures codepoints == Utf8ToUtf32(s)
  {
    hide Utf8ToUtf32;
    var it := new ConstChar32Iterator(s);
    codepoints := [];
    while !it.done
      invariant codepoints + it.Remaining() == Utf8ToUtf32(s)
      decreases if it.done then 0 else 1 + |it.text|
    {
      var c := it.Get();
      MoveFirst(codepoints, it.Remaining());
      codepoints := codepoints + [c];
      it.Next();
    }
    assert codepoints + [] == codepoints;
  }

  /** Runs the reverse iterator to its end: on valid strings it yields the forward code points in reverse. */
  method IterateBackward(s: seq<Byte>) returns (codepoints: seq<CodePoint>)
    ensures codepoints == ReverseUtf8ToUtf32(s)
    ensures IsValidUtf8(s) ==> codepoints == Reversed(Utf8ToUtf32(s))
  {
    hide ReverseUtf8ToUtf32, Utf8ToUtf32, IsValidUtf8, Reversed;
    var it := new ConstChar32ReverseIterator(s);
    codepoints := [];
    while !it.done
      invariant codepoints + it.Remaining() == ReverseUtf8ToUtf32(s)
      decreases if it.done then 0 else 1 + |it.text|
    {
      var c := it.Get();
      MoveFirst(codepoints, it.Remaining());
      codepoints := codepoints + [c];
      it.Next();
    }
    assert codepoints + [] == codepoints;
    if IsValidUtf8(s) { ReverseIteration(s); }
  }
}
