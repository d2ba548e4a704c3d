/**
  The UTF-8 codec of `Util`: section 2 of RFC 2279, with sequences of up to six bytes.
  A string is a sequence of bytes; `char` is unsigned.
*/
module Utf8 {
  type Byte = bv8
  type CodePoint = bv32

  predicate IsUtf8TrailingByte(c: Byte) {
    c & 0xC0 == 0x80
  }

  /** The length that a leading byte announces; 0 for a byte that cannot lead. */
  function SequenceLength(lead: Byte): (n: nat)
    ensures n <= 6
  {
    if lead < 0x80 then 1
    else if IsUtf8TrailingByte(lead) then 0
    else if lead & 0xE0 == 0xC0 then 2
    else if lead & 0xF0 == 0xE0 then 3
    else if lead & 0xF8 == 0xF0 then 4
    else if lead & 0xFC == 0xF8 then 5
    else if lead & 0xFE == 0xFC then 6
    else 0
  }

  function LeadBits(lead: Byte): CodePoint {
    var n := SequenceLength(lead);
    if n == 1 then lead as CodePoint
    else if n == 2 then (lead & 0x1F) as CodePoint
    else if n == 3 then (lead & 0x0F) as CodePoint
    else if n == 4 then (lead & 0x07) as CodePoint
    else if n == 5 then (lead & 0x03) as CodePoint
    else (lead & 0x01) as CodePoint
  }

  /** The code points that need n bytes. */
  function MinValue(n: nat): CodePoint {
    if n <= 1 then 0 else if n == 2 then 0x80 else if n == 3 then 0x800
    else if n == 4 then 0x10000 else if n == 5 then 0x200000 else 0x4000000
  }

  function MaxValue(n: nat): CodePoint {
    if n <= 1 then 0x7F else if n == 2 then 0x7FF else if n == 3 then 0xFFFF
    else if n == 4 then 0x1FFFFF else if n == 5 then 0x3FFFFFF else 0x7FFFFFFF
  }

  /** A value that is not shorter to write than n bytes, and not longer. */
  predicate InRange(value: CodePoint, n: nat) {
    !(value < MinValue(n) || MaxValue(n) < value)
  }

  function Extend(value: CodePoint, trailing: Byte): CodePoint {
    (value << 6) + (trailing & 0x3F) as CodePoint
  }

  /** The value of the first n bytes of s. */
  function Accumulate(s: seq<Byte>, n: nat): CodePoint
    requires 1 <= n <= |s|
  {
    if n == 1 then LeadBits(s[0]) else Extend(Accumulate(s, n - 1), s[n - 1])
  }

  /** A well-formed sequence of n bytes opens s. */
  predicate Opens(s: seq<Byte>, n: nat) {
    && 1 <= n <= |s| && SequenceLength(s[0]) == n
    && (forall i :: 1 <= i < n ==> IsUtf8TrailingByte(s[i]))
    && InRange(Accumulate(s, n), n)
  }

  function CodepointToUtf8(c: CodePoint): (s: seq<Byte>)
    ensures |s| <= 6
  {
    if c == 0 then []
    else if c < 0x80 then [(c & 0xFF) as Byte]
    else if c < 0x800 then [0xC0 + ((c >> 6) & 0x1F) as Byte, Trail(c)]
    else if c < 0x10000 then [0xE0 + ((c >> 12) & 0x0F) as Byte, Trail(c >> 6), Trail(c)]
    else if c < 0x200000 then [0xF0 + ((c >> 18) & 0x07) as Byte, Trail(c >> 12), Trail(c >> 6), Trail(c)]
    else if c < 0x8000000 then
      [0xF8 + ((c >> 24) & 0x03) as Byte, Trail(c >> 18), Trail(c >> 12), Trail(c >> 6), Trail(c)]
    else
      [0xFC + ((c >> 30) & 0x01) as Byte, Trail(c >> 24), Trail(c >> 18), Trail(c >> 12), Trail(c >> 6), Trail(c)]
  }

  function Trail(c: CodePoint): Byte {
    0x80 + (c & 0x3F) as Byte
  }

  // ---------- decoding one character ----------

  datatype Split = Failed | Split(codepoint: CodePoint, rest: seq<Byte>)

  function SplitFirst(s: seq<Byte>): (r: Split)
    ensures r.Split? ==> |r.rest| < |s|
  {
    if s == [] || SequenceLength(s[0]) == 0 then Failed
    else
      var n := SequenceLength(s[0]);
      if Opens(s, n) then Split(Accumulate(s, n), s[n..]) else Failed
  }

  method SplitFirstChar32(s: seq<Byte>) returns (ok: bool, first: CodePoint, rest: seq<Byte>)
    ensures ok <==> SplitFirst(s).Split?
    ensures ok ==> SplitFirst(s) == Split(first, rest)
    ensures !ok ==> first == 0 && rest == []
  {
    hide SequenceLength, LeadBits, InRange, Extend, IsUtf8TrailingByte;
    if |s| == 0 {
      return false, 0, [];
    }
    var lead := s[0];
    var n := SequenceLength(lead);
    if n == 0 {
      return false, 0, [];
    }
    if n == 1 {
      SingleByte(s);
      return true, lead as CodePoint, s[1..];
    }
    if |s| < n {
      return false, 0, [];
    }
    var result := LeadBits(lead);
    for i := 1 to n
      invariant forall j :: 1 <= j < i ==> IsUtf8TrailingByte(s[j])
      invariant result == Accumulate(s, i)
    {
      if !IsUtf8TrailingByte(s[i]) {
        return false, 0, [];
      }
      result := Extend(result, s[i]);
    }
    if !InRange(result, n) {
      return false, 0, [];
    }
    return true, result, s[n..];
  }

  lemma SingleByte(s: seq<Byte>)
    requires s != [] && SequenceLength(s[0]) == 1
    ensures Opens(s, 1) && Accumulate(s, 1) == s[0] as CodePoint
  {
  }

  // ---------- encode, then decode ----------

  /** The code points on which encoder and decoder agree. */
  predicate Encodable(c: CodePoint) {
    0 < c <= 0x3FFFFFF || 0x8000000 <= c <= 0x7FFFFFFF
  }

  function Drop6(c: CodePoint): CodePoint {
    c >> 6
  }

  /** c without its last j groups of six bits. */
  function Down(c: CodePoint, j: nat): CodePoint {
    if j == 0 then c else if j == 1 then c >> 6 else if j == 2 then c >> 12
    else if j == 3 then c >> 18 else if j == 4 then c >> 24 else c >> 30
  }

  lemma DownStep(c: CodePoint, j: nat)
    requires 1 <= j <= 5
    ensures Down(c, j) == Drop6(Down(c, j - 1))
  {
    hide Down, Drop6;
    if j == 1 { DownOne(c); } else if j == 2 { DownTwo(c); } else if j == 3 { DownThree(c); }
    else if j == 4 { DownFour(c); } else { DownFive(c); }
  }

  lemma DownOne(c: CodePoint)
    ensures Down(c, 1) == Drop6(Down(c, 0))
  {
  }

  lemma DownTwo(c: CodePoint)
    ensures Down(c, 2) == Drop6(Down(c, 1))
  {
  }

  lemma DownThree(c: CodePoint)
    ensures Down(c, 3) == Drop6(Down(c, 2))
  {
  }

  lemma DownFour(c: CodePoint)
    ensures Down(c, 4) == Drop6(Down(c, 3))
  {
  }

  lemma DownFive(c: CodePoint)
    ensures Down(c, 5) == Drop6(Down(c, 4))
  {
  }

  lemma ExtendTrail(c: CodePoint)
    ensures Extend(Drop6(c), Trail(c)) == c && IsUtf8TrailingByte(Trail(c))
  {
  }

  lemma Lead1(c: CodePoint)
    requires c < 0x80
    ensures var b := (c & 0xFF) as Byte; SequenceLength(b) == 1 && LeadBits(b) == c
  {
  }

  lemma Lead2(c: CodePoint)
    requires 0x80 <= c < 0x800
    ensures var b := 0xC0 + ((c >> 6) & 0x1F) as Byte; SequenceLength(b) == 2 && LeadBits(b) == c >> 6
  {
  }

  lemma Lead3(c: CodePoint)
    requires 0x800 <= c < 0x10000
    ensures var b := 0xE0 + ((c >> 12) & 0x0F) as Byte; SequenceLength(b) == 3 && LeadBits(b) == c >> 12
  {
  }

  lemma Lead4(c: CodePoint)
    requires 0x10000 <= c < 0x200000
    ensures var b := 0xF0 + ((c >> 18) & 0x07) as Byte; SequenceLength(b) == 4 && LeadBits(b) == c >> 18
  {
  }

  lemma Lead5(c: CodePoint)
    requires 0x200000 <= c <= 0x3FFFFFF
    ensures var b := 0xF8 + ((c >> 24) & 0x03) as Byte; SequenceLength(b) == 5 && LeadBits(b) == c >> 24
  {
  }

  lemma Lead6(c: CodePoint)
    requires 0x4000000 <= c <= 0x7FFFFFFF
    ensures var b := 0xFC + ((c >> 30) & 0x01) as Byte; SequenceLength(b) == 6 && LeadBits(b) == c >> 30
  {
  }

  function EncodedLength(c: CodePoint): nat {
    if c == 0 then 0 else if c < 0x80 then 1 else if c < 0x800 then 2 else if c < 0x10000 then 3
    else if c < 0x200000 then 4 else if c < 0x8000000 then 5 else 6
  }

  lemma LengthRange(c: CodePoint)
    requires Encodable(c)
    ensures 1 <= EncodedLength(c) && InRange(c, EncodedLength(c))
  {
    hide InRange;
    Ranges(c);
  }

  lemma Ranges(c: CodePoint)
    ensures 0 < c < 0x80 ==> InRange(c, 1)
    ensures 0x80 <= c < 0x800 ==> InRange(c, 2)
    ensures 0x800 <= c < 0x10000 ==> InRange(c, 3)
    ensures 0x10000 <= c < 0x200000 ==> InRange(c, 4)
    ensures 0x200000 <= c <= 0x3FFFFFF ==> InRange(c, 5)
    ensures 0x8000000 <= c <= 0x7FFFFFFF ==> InRange(c, 6)
  {
  }

  /** Every byte of an encoded character: a lead that announces its length, then six bits at a time. */
  lemma EncodedBytes(c: CodePoint)
    requires Encodable(c)
    ensures var s, n := CodepointToUtf8(c), EncodedLength(c);
            && |s| == n && n >= 1
            && SequenceLength(s[0]) == n && LeadBits(s[0]) == Down(c, n - 1)
            && forall k :: 1 <= k < n ==> s[k] == Trail(Down(c, n - 1 - k))
  {
    hide Trail, SequenceLength, LeadBits;
    if c < 0x80 { Lead1(c); }
    else if c < 0x800 { Lead2(c); }
    else if c < 0x10000 { Lead3(c); }
    else if c < 0x200000 { Lead4(c); }
    else if c < 0x8000000 { Lead5(c); }
    else { Lead6(c); }
  }

  /** Reading k bytes of an encoded character leaves out its last n - k groups of six bits. */
  lemma {:induction false} AccumulateEncoded(s: seq<Byte>, c: CodePoint, n: nat, k: nat)
    requires 1 <= k <= n <= |s| && n <= 6 && LeadBits(s[0]) == Down(c, n - 1)
    requires forall i :: 1 <= i < n ==> s[i] == Trail(Down(c, n - 1 - i))
    ensures Accumulate(s, k) == Down(c, n - k)
  {
    hide Trail, LeadBits, Extend, Down, Drop6;
    if k > 1 {
      AccumulateEncoded(s, c, n, k - 1);
      DownStep(c, n - k + 1);
      ExtendTrail(Down(c, n - k));
    }
  }

  lemma OpensSplits(s: seq<Byte>, n: nat)
    requires Opens(s, n)
    ensures SplitFirst(s) == Split(Accumulate(s, n), s[n..])
  {
    hide SequenceLength, LeadBits, InRange, Extend, IsUtf8TrailingByte;
  }

  lemma EncodedOpens(c: CodePoint, t: seq<Byte>)
    requires Encodable(c)
    ensures var s, n := CodepointToUtf8(c) + t, EncodedLength(c);
            Opens(s, n) && Accumulate(s, n) == c && s[n..] == t
  {
    hide CodepointToUtf8, EncodedLength, Trail, SequenceLength, LeadBits, Extend, IsUtf8TrailingByte, InRange, Down;
    var e, n := CodepointToUtf8(c), EncodedLength(c);
    var s := e + t;
    EncodedBytes(c);
    LengthRange(c);
    assert forall i :: 0 <= i < n ==> s[i] == e[i];
    AccumulateEncoded(s, c, n, n);
    DownZero(c);
    forall i | 1 <= i < n
      ensures IsUtf8TrailingByte(s[i])
    {
      ExtendTrail(Down(c, n - 1 - i));
    }
  }

  lemma DownZero(c: CodePoint)
    ensures Down(c, 0) == c
  {
  }

  lemma LongLeads(c: CodePoint)
    ensures SequenceLength(0xF8 + ((c >> 24) & 0x03) as Byte) == 5
    ensures SequenceLength(0xFC + ((c >> 30) & 0x01) as Byte) == 6
    ensures InRange(c, 5) ==> c <= 0x3FFFFFF
    ensures InRange(c, 6) ==> c <= 0x7FFFFFFF
  {
  }

  lemma NotDecodable(c: CodePoint)
    requires !Encodable(c)
    ensures SplitFirst(CodepointToUtf8(c)) != Split(c, [])
  {
    hide SequenceLength, InRange, Trail, Accumulate;
    LongLeads(c);
  }

  /** Encoding and then decoding gives the code point back, in front of any text, exactly on the encodable ones. */
  lemma EncodeDecode(c: CodePoint)
    ensures Encodable(c) <==> forall t :: SplitFirst(CodepointToUtf8(c) + t) == Split(c, t)
  {
    hide CodepointToUtf8, SplitFirst, Encodable, EncodedLength, Opens, Accumulate;
    if Encodable(c) {
      forall t
        ensures SplitFirst(CodepointToUtf8(c) + t) == Split(c, t)
      {
        EncodedOpens(c, t);
        OpensSplits(CodepointToUtf8(c) + t, EncodedLength(c));
      }
    } else {
      NotDecodable(c);
      assert CodepointToUtf8(c) + [] == CodepointToUtf8(c);
    }
  }

  // ---------- decode, then encode ----------

  /** The value read before a trailing byte leaves room for six more bits. */
  predicate Small(v: CodePoint, n: nat, k: nat) {
    if n == 6 then
      v < (if k == 1 then 0x2 else if k == 2 then 0x80 else if k == 3 then 0x2000 else if k == 4 then 0x80000
          else 0x2000000)
    else
      v < (if k == 1 then 0x20 else if k == 2 then 0x800 else if k == 3 then 0x20000 else 0x800000)
  }

  lemma SmallLead(lead: Byte)
    requires SequenceLength(lead) >= 2
    ensures Small(LeadBits(lead), SequenceLength(lead), 1)
  {
  }

  lemma SmallStep6(v: CodePoint, b: Byte)
    ensures v < 0x2 ==> Extend(v, b) < 0x80
    ensures v < 0x80 ==> Extend(v, b) < 0x2000
    ensures v < 0x2000 ==> Extend(v, b) < 0x80000
    ensures v < 0x80000 ==> Extend(v, b) < 0x2000000
  {
  }

  lemma SmallStep(v: CodePoint, b: Byte)
    ensures v < 0x20 ==> Extend(v, b) < 0x800
    ensures v < 0x800 ==> Extend(v, b) < 0x20000
    ensures v < 0x20000 ==> Extend(v, b) < 0x800000
  {
  }

  lemma {:induction false} AccumulateSmall(s: seq<Byte>, k: nat)
    requires s != [] && 1 <= k < SequenceLength(s[0]) && k <= |s|
    ensures Small(Accumulate(s, k), SequenceLength(s[0]), k)
  {
    hide SequenceLength, LeadBits, Extend;
    if k == 1 {
      SmallLead(s[0]);
    } else {
      AccumulateSmall(s, k - 1);
      if SequenceLength(s[0]) == 6 {
        SmallStep6(Accumulate(s, k - 1), s[k - 1]);
      } else {
        SmallStep(Accumulate(s, k - 1), s[k - 1]);
      }
    }
  }

  lemma ExtendUndone(v: CodePoint, b: Byte)
    requires v < 0x4000000 && IsUtf8TrailingByte(b)
    ensures Drop6(Extend(v, b)) == v && Trail(Extend(v, b)) == b
  {
  }

  lemma SmallIsSmall(v: CodePoint, n: nat, k: nat)
    requires Small(v, n, k)
    ensures v < 0x4000000
  {
  }

  /** The value of the first k bytes follows from the whole value. */
  lemma {:induction false} AccumulateDown(s: seq<Byte>, n: nat, k: nat)
    requires Opens(s, n) && 1 <= k <= n
    ensures Accumulate(s, k) == Down(Accumulate(s, n), n - k)
    decreases n - k
  {
    hide SequenceLength, LeadBits, Extend, Down, Drop6, Trail, InRange, IsUtf8TrailingByte, Small, Accumulate;
    var c := Accumulate(s, n);
    if k == n {
      DownZero(c);
    } else {
      AccumulateDown(s, n, k + 1);
      DownStep(c, n - k);
      AccumulateUndone(s, n, k);
    }
  }

  /** Byte k follows from the whole value. */
  lemma TrailingByte(s: seq<Byte>, n: nat, k: nat)
    requires Opens(s, n) && 1 <= k < n
    ensures s[k] == Trail(Down(Accumulate(s, n), n - 1 - k))
  {
    hide SequenceLength, LeadBits, Extend, Down, Drop6, Trail, InRange, IsUtf8TrailingByte, Small, Accumulate;
    AccumulateDown(s, n, k + 1);
    AccumulateUndone(s, n, k);
  }

  lemma AccumulateUndone(s: seq<Byte>, n: nat, k: nat)
    requires Opens(s, n) && 1 <= k < n
    ensures Drop6(Accumulate(s, k + 1)) == Accumulate(s, k) && s[k] == Trail(Accumulate(s, k + 1))
  {
    hide SequenceLength, LeadBits, Extend, Drop6, Trail, InRange, IsUtf8TrailingByte, Small, Accumulate;
    AccumulateSmall(s, k);
    SmallIsSmall(Accumulate(s, k), n, k);
    ExtendUndone(Accumulate(s, k), s[k]);
    AccumulateStep(s, k);
  }

  lemma AccumulateStep(s: seq<Byte>, k: nat)
    requires 1 <= k < |s|
    ensures Accumulate(s, k + 1) == Extend(Accumulate(s, k), s[k])
  {
    hide Extend, LeadBits;
  }

  lemma LeadInjective(a: Byte, b: Byte)
    requires SequenceLength(a) == SequenceLength(b) != 0 && LeadBits(a) == LeadBits(b)
    ensures a == b
  {
  }

  lemma LengthOf(c: CodePoint, n: nat)
    requires InRange(c, n) && 1 <= n <= 6
    ensures Encodable(c) ==> EncodedLength(c) == n
    ensures !Encodable(c) ==> EncodedLength(c) < n
  {
  }

  /** What was decoded is exactly what encoding would write, for the encodable code points and for no others. */
  lemma DecodeEncode(s: seq<Byte>)
    requires SplitFirst(s).Split?
    ensures var r := SplitFirst(s);
            Encodable(r.codepoint) <==> s == CodepointToUtf8(r.codepoint) + r.rest
  {
    hide SequenceLength, LeadBits, Accumulate, Down, Trail, InRange, IsUtf8TrailingByte, CodepointToUtf8, EncodedLength,
         Encodable;
    var n := SequenceLength(s[0]);
    var c := Accumulate(s, n);
    LengthOf(c, n);
    EncodingLength(c);
    if Encodable(c) {
      var e := CodepointToUtf8(c);
      EncodedBytes(c);
      AccumulateDown(s, n, 1);
      LeadValue(s);
      LeadInjective(s[0], e[0]);
      forall k | 1 <= k < n
        ensures s[k] == e[k]
      {
        TrailingByte(s, n, k);
      }
      assert s == e + s[n..];
    }
  }

  lemma EncodingLength(c: CodePoint)
    ensures |CodepointToUtf8(c)| == EncodedLength(c)
  {
    hide Trail;
  }

  lemma LeadValue(s: seq<Byte>)
    requires s != []
    ensures Accumulate(s, 1) == LeadBits(s[0])
  {
  }

  /** A decoded code point is never longer when it is encoded, and shorter when it is not encodable. */
  lemma DecodedLength(s: seq<Byte>)
    requires SplitFirst(s).Split?
    ensures var r := SplitFirst(s);
            && |CodepointToUtf8(r.codepoint)| <= |s| - |r.rest|
            && (Encodable(r.codepoint) <==> |CodepointToUtf8(r.codepoint)| == |s| - |r.rest|)
  {
    hide SequenceLength, LeadBits, Accumulate, InRange, IsUtf8TrailingByte, CodepointToUtf8, EncodedLength, Encodable;
    var n := SequenceLength(s[0]);
    LengthOf(Accumulate(s, n), n);
    EncodingLength(Accumulate(s, n));
  }

  // ---------- everything the decoder reads ----------

  /** The last code point that six bytes can hold. */
  const LAST: CodePoint := 0x7FFFFFFF

  function StandardLength(c: CodePoint): (n: nat)
    ensures 1 <= n <= 6
  {
    if c < 0x80 then 1 else if c < 0x800 then 2 else if c < 0x10000 then 3
    else if c < 0x200000 then 4 else if c < 0x4000000 then 5 else 6
  }

  /** The sequence of section 2 of RFC 2279, from 0 on. */
  function Standard(c: CodePoint): (s: seq<Byte>)
    ensures |s| == StandardLength(c)
  {
    if c < 0x80 then [(c & 0xFF) as Byte]
    else if c < 0x800 then [0xC0 + ((c >> 6) & 0x1F) as Byte, Trail(c)]
    else if c < 0x10000 then [0xE0 + ((c >> 12) & 0x0F) as Byte, Trail(c >> 6), Trail(c)]
    else if c < 0x200000 then [0xF0 + ((c >> 18) & 0x07) as Byte, Trail(c >> 12), Trail(c >> 6), Trail(c)]
    else if c < 0x4000000 then
      [0xF8 + ((c >> 24) & 0x03) as Byte, Trail(c >> 18), Trail(c >> 12), Trail(c >> 6), Trail(c)]
    else
      [0xFC + ((c >> 30) & 0x01) as Byte, Trail(c >> 24), Trail(c >> 18), Trail(c >> 12), Trail(c >> 6), Trail(c)]
  }

  lemma StandardBytes(c: CodePoint)
    requires c <= LAST
    ensures var s, n := Standard(c), StandardLength(c);
            && SequenceLength(s[0]) == n && LeadBits(s[0]) == Down(c, n - 1)
            && forall k :: 1 <= k < n ==> s[k] == Trail(Down(c, n - 1 - k))
  {
    hide Trail, SequenceLength, LeadBits;
    if c < 0x80 { Lead1(c); }
    else if c < 0x800 { Lead2(c); }
    else if c < 0x10000 { Lead3(c); }
    else if c < 0x200000 { Lead4(c); }
    else if c < 0x4000000 { Lead5(c); }
    else { Lead6(c); }
  }

  lemma StandardRange(c: CodePoint, n: nat)
    requires 1 <= n <= 6
    ensures InRange(c, n) <==> c <= LAST && n == StandardLength(c)
  {
    if n == 1 {} else if n == 2 {} else if n == 3 {} else if n == 4 {} else if n == 5 {} else {}
  }

  /** Decoding yields a code point exactly in front of its standard sequence. */
  lemma DecodesStandard(s: seq<Byte>, c: CodePoint, rest: seq<Byte>)
    ensures SplitFirst(s) == Split(c, rest) <==> c <= LAST && s == Standard(c) + rest
  {
    hide SplitFirst, Standard, Opens, Accumulate;
    if SplitFirst(s) == Split(c, rest) { DecodedIsStandard(s); }
    if c <= LAST && s == Standard(c) + rest {
      StandardOpens(c, rest);
      OpensSplits(s, StandardLength(c));
    }
  }

  lemma StandardOpens(c: CodePoint, t: seq<Byte>)
    requires c <= LAST
    ensures var s, n := Standard(c) + t, StandardLength(c);
            Opens(s, n) && Accumulate(s, n) == c && s[n..] == t
  {
    hide Standard, StandardLength, Trail, SequenceLength, LeadBits, Extend, IsUtf8TrailingByte, InRange, Down;
    var e, n := Standard(c), StandardLength(c);
    var s := e + t;
    StandardBytes(c);
    StandardRange(c, n);
    assert forall i :: 0 <= i < n ==> s[i] == e[i];
    AccumulateEncoded(s, c, n, n);
    DownZero(c);
    forall i | 1 <= i < n ensures IsUtf8TrailingByte(s[i]) { ExtendTrail(Down(c, n - 1 - i)); }
  }

  lemma DecodedIsStandard(s: seq<Byte>)
    requires SplitFirst(s).Split?
    ensures var r := SplitFirst(s); r.codepoint <= LAST && s == Standard(r.codepoint) + r.rest
  {
    hide SequenceLength, LeadBits, Accumulate, Down, Trail, InRange, IsUtf8TrailingByte, Standard, StandardLength;
    var n := SequenceLength(s[0]);
    var c := Accumulate(s, n);
    StandardRange(c, n);
    var e := Standard(c);
    StandardBytes(c);
    AccumulateDown(s, n, 1);
    LeadValue(s);
    LeadInjective(s[0], e[0]);
    forall k | 1 <= k < n ensures s[k] == e[k] { TrailingByte(s, n, k); }
    assert s == e + s[n..];
  }

  /** The encoder writes the standard sequence exactly for the encodable code points. */
  lemma EncodesStandard(c: CodePoint)
    ensures CodepointToUtf8(c) == Standard(c) && c <= LAST <==> Encodable(c)
  {
    hide Trail;
    if !Encodable(c) && c <= LAST {
      EncodingLength(c);
      assert |CodepointToUtf8(c)| < StandardLength(c);
    }
  }

  /** What is read but not written: a NUL byte as 0, and six bytes with an even lead as 0x4000000 to 0x7FFFFFF. */
  lemma OnlyDecoded(s: seq<Byte>, c: CodePoint, rest: seq<Byte>)
    requires SplitFirst(s) == Split(c, rest) && !Encodable(c)
    ensures c == 0 || 0x4000000 <= c <= 0x7FFFFFF
    ensures c == 0 ==> s == [0] + rest
    ensures c != 0 ==> |s| == 6 + |rest| && s[0] == 0xFC
  {
    hide SplitFirst, Trail;
    DecodesStandard(s, c, rest);
    if c != 0 { assert Standard(c)[0] == 0xFC by { EvenLead(c); } }
  }

  lemma EvenLead(c: CodePoint)
    requires 0x4000000 <= c <= 0x7FFFFFF
    ensures 0xFC + ((c >> 30) & 0x01) as Byte == 0xFC
  {
  }
}
