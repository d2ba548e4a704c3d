/** The blocks a message is padded to before it is hashed, section 5.1.1 of FIPS 180-4. */
module Sha1Padding {
  newtype Byte = x: int | 0 <= x < 256
  type Bytes = seq<Byte>

  const MESSAGE_BLOCK_BYTES: nat := 64
  const DATA_BIT_LENGTH_BYTES: nat := 8
  const SIZE_LIMIT: nat := 0x1_0000_0000_0000_0000  // size_t and uint64_t have 64 bits
  const MESSAGE_LIMIT: nat := 0x2000_0000_0000_0000  // 2^61 bytes are 2^64 bits

  // ---------- big-endian numbers ----------

  function Power256(n: nat): (p: nat)
    ensures p > 0
  {
    if n == 0 then 1 else 256 * Power256(n - 1)
  }

  /** The number n bytes stand for, the most significant byte first. */
  function Value(s: Bytes): nat {
    if s == [] then 0 else 256 * Value(s[..|s| - 1]) + s[|s| - 1] as nat
  }

  /** The n low bytes of v. */
  function BigEndian(v: nat, n: nat): (s: Bytes)
    ensures |s| == n
  {
    if n == 0 then [] else BigEndian(v / 256, n - 1) + [(v % 256) as Byte]
  }

  lemma {:induction false} BigEndianValue(v: nat, n: nat)
    ensures Value(BigEndian(v, n)) == v % Power256(n)
    decreases n
  {
    if n > 0 {
      BigEndianValue(v / 256, n - 1);
      var s := BigEndian(v, n);
      assert s[..n - 1] == BigEndian(v / 256, n - 1);
      DivMod(v, Power256(n - 1));
    }
  }

  lemma DivMod(v: nat, p: nat)
    requires p > 0
    ensures v % (256 * p) == 256 * ((v / 256) % p) + v % 256
  {
    var q, r := (v / 256) / p, (v / 256) % p;
    assert v / 256 == q * p + r;
    assert v == 256 * (q * p + r) + v % 256;
    Remainder(v, 256 * p, q, 256 * r + v % 256);
  }

  lemma Remainder(v: nat, m: nat, q: nat, r: nat)
    requires m > 0 && r < m && v == q * m + r
    ensures v % m == r
  {
    var d := v / m - q;
    assert d * m == r - v % m by { assert v == (v / m) * m + v % m; }
    AtLeastOne(d, m);
  }

  lemma AtLeastOne(d: int, m: int)
    requires m >= 0
    ensures d >= 1 ==> d * m >= m
    ensures d <= -1 ==> d * m <= -m
  {
    if d >= 1 { assert d * m == (d - 1) * m + m; }
    if d <= -1 { assert d * m == (d + 1) * m - m; }
  }

  // ---------- the padding ----------

  /** p is the padded form of m: the message, the bit 1, as few zeros as fit, the length in bits. */
  ghost predicate IsPadded(m: Bytes, p: Bytes) {
    var n := |p| - DATA_BIT_LENGTH_BYTES;
    && |p| % MESSAGE_BLOCK_BYTES == 0
    && |m| < n <= |m| + MESSAGE_BLOCK_BYTES
    && p[..|m|] == m
    && p[|m|] == 0x80
    && (forall k :: |m| < k < n ==> p[k] == 0)
    && Value(p[n..]) == 8 * |m|
  }

  lemma PaddedUnique(m: Bytes, p: Bytes, q: Bytes)
    requires IsPadded(m, p) && IsPadded(m, q)
    ensures p == q
  {
    hide Value;
    assert |p| == |q|;
    var n := |p| - 8;
    ValueUnique(p[n..], q[n..]);
    forall k | 0 <= k < |p| ensures p[k] == q[k] {
      if k < |m| {
        assert p[..|m|][k] == q[..|m|][k];
      } else if k >= n {
        assert p[n..][k - n] == q[n..][k - n];
      }
    }
  }

  lemma {:induction false} ValueUnique(s: Bytes, t: Bytes)
    requires |s| == |t| && Value(s) == Value(t)
    ensures s == t
    decreases |s|
  {
    if s != [] {
      var k := |s| - 1;
      ValueUnique(s[..k], t[..k]);
      assert s == s[..k] + [s[k]] && t == t[..k] + [t[k]];
    }
  }

  /** How many blocks the program counts, in 64-bit arithmetic. */
  function GetTotalMessageCount(size: nat): nat {
    var minimumSize := (size + 1 + DATA_BIT_LENGTH_BYTES) % SIZE_LIMIT;
    (minimumSize + MESSAGE_BLOCK_BYTES - 1) % SIZE_LIMIT / MESSAGE_BLOCK_BYTES
  }

  /** No carry is lost while the blocks are counted. */
  predicate Countable(size: nat) {
    size + 1 + DATA_BIT_LENGTH_BYTES + MESSAGE_BLOCK_BYTES - 1 < SIZE_LIMIT
  }

  /** What the blocks hold together; the length field has 64 bits and wraps. */
  function PaddedMessage(m: Bytes): (p: Bytes)
    requires Countable(|m|)
    ensures |p| == MESSAGE_BLOCK_BYTES * GetTotalMessageCount(|m|)
  {
    var zeros := MESSAGE_BLOCK_BYTES * GetTotalMessageCount(|m|) - |m| - 9;
    m + [0x80] + seq(zeros, _ => 0) + BigEndian(8 * |m| % SIZE_LIMIT, 8)
  }

  /** All blocks of a string; where the count has wrapped, there are none, or the first one only. */
  function Messages(m: Bytes): (p: Bytes)
    requires |m| < SIZE_LIMIT
    ensures |p| == MESSAGE_BLOCK_BYTES * GetTotalMessageCount(|m|)
  {
    if Countable(|m|) then PaddedMessage(m)
    else (CountWraps(|m|); m[..MESSAGE_BLOCK_BYTES * GetTotalMessageCount(|m|)])
  }

  lemma CountWraps(size: nat)
    requires size < SIZE_LIMIT && !Countable(size)
    ensures GetTotalMessageCount(size) <= 1 && 2 * MESSAGE_BLOCK_BYTES <= size && MESSAGE_LIMIT <= size
  {
  }

  /** The blocks are what the standard asks for if and only if the length in bits fits its field. */
  lemma MessagesAreStandard(m: Bytes)
    requires |m| < SIZE_LIMIT
    ensures IsPadded(m, Messages(m)) <==> |m| < MESSAGE_LIMIT
  {
    hide PaddedMessage, GetTotalMessageCount, Value;
    if Countable(|m|) { PaddingIsStandard(m); } else { CountWraps(|m|); }
  }

  /** A longer message has no padded form at all. */
  lemma TooLongForStandard(m: Bytes, p: Bytes)
    requires IsPadded(m, p)
    ensures |m| < MESSAGE_LIMIT
  {
    hide Value;
    BelowPower(p[|p| - 8..]);
    SizeLimitIsPower();
  }

  lemma {:induction false} BelowPower(s: Bytes)
    ensures Value(s) < Power256(|s|)
  {
    if s != [] { BelowPower(s[..|s| - 1]); }
  }

  lemma PaddingIsStandard(m: Bytes)
    requires Countable(|m|)
    ensures IsPadded(m, PaddedMessage(m)) <==> |m| < MESSAGE_LIMIT
  {
    hide BigEndian, Value, GetTotalMessageCount;
    var p := PaddedMessage(m);
    var n := |p| - 8;
    PaddedFront(m);
    assert p[n..] == BigEndian(8 * |m| % SIZE_LIMIT, 8);
    BigEndianValue(8 * |m| % SIZE_LIMIT, 8);
    SizeLimitIsPower();
    LengthFits(|m|);
  }

  lemma PaddedFront(m: Bytes)
    requires Countable(|m|)
    ensures var p := PaddedMessage(m); var n := |p| - 8;
            |m| < n <= |m| + 64 && |p| % 64 == 0 && p[..|m|] == m && p[|m|] == 0x80
            && forall k :: |m| < k < n ==> p[k] == 0
  {
    hide BigEndian, GetTotalMessageCount;
    CountBounds(|m|);
    assert PaddedMessage(m)[..|m|] == m;
  }

  lemma LengthFits(size: nat)
    ensures 8 * size % SIZE_LIMIT == 8 * size <==> size < MESSAGE_LIMIT
    ensures 8 * size % SIZE_LIMIT % SIZE_LIMIT == 8 * size % SIZE_LIMIT
  {
  }

  lemma SizeLimitIsPower()
    ensures SIZE_LIMIT == Power256(8)
  {
    assert Power256(4) == 256 * 256 * 256 * 256;
  }

  // ---------- block by block ----------

  function Block(p: Bytes, i: nat): (b: Bytes)
    requires MESSAGE_BLOCK_BYTES * (i + 1) <= |p|
    ensures |b| == MESSAGE_BLOCK_BYTES
  {
    p[MESSAGE_BLOCK_BYTES * i..MESSAGE_BLOCK_BYTES * (i + 1)]
  }

  /** Byte k of the padded message, by where it lies. */
  function PaddedByte(m: Bytes, k: nat): Byte
    requires k < MESSAGE_BLOCK_BYTES * GetTotalMessageCount(|m|)
  {
    var n := MESSAGE_BLOCK_BYTES * GetTotalMessageCount(|m|) - 8;
    if k < |m| then m[k]
    else if k == |m| then 0x80
    else if k < n then 0
    else BigEndian(8 * |m| % SIZE_LIMIT, 8)[k - n]
  }

  lemma CountBounds(size: nat)
    requires Countable(size)
    ensures size + 9 <= MESSAGE_BLOCK_BYTES * GetTotalMessageCount(size) < size + 9 + MESSAGE_BLOCK_BYTES
  {
  }

  /** From cursor on, block i holds zeros only, or zeros and the length field. */
  lemma RestOfBlock(m: Bytes, i: nat, cursor: nat, j: nat)
    requires Countable(|m|) && i < GetTotalMessageCount(|m|) && cursor <= j < 64
    requires if cursor == 0 then |m| < 64 * i else 64 * i + cursor == |m| + 1
    ensures PaddedByte(m, 64 * i + j) == if cursor > 56 || j < 56 then 0 else BigEndian(8 * |m| % SIZE_LIMIT, 8)[j - 56]
  {
    hide GetTotalMessageCount, BigEndian;
    CountBounds(|m|);
  }

  /** The first cursor bytes of a block are message and end marker, the others the rest of the block. */
  lemma BlockFilled(m: Bytes, i: nat, cursor: nat, d: Bytes)
    requires Countable(|m|) && i < GetTotalMessageCount(|m|) && |d| == 64 && cursor <= 64
    requires cursor == 0 ==> |m| < 64 * i
    requires 0 < cursor ==> 64 * i + cursor == |m| + 1 || (cursor == 64 && 64 * (i + 1) <= |m|)
    requires forall j :: 0 <= j < cursor ==> d[j] == if 64 * i + j < |m| then m[64 * i + j] else 0x80
    requires forall j :: cursor <= j < 64 ==>
               d[j] == if cursor > 56 || j < 56 then 0 else BigEndian(8 * |m| % SIZE_LIMIT, 8)[j - 56]
    ensures d == Block(PaddedMessage(m), i)
  {
    hide GetTotalMessageCount, BigEndian, PaddedByte, PaddedMessage, Block, Countable;
    forall j | 0 <= j < 64 ensures d[j] == PaddedByte(m, 64 * i + j) {
      if j < cursor { FrontOfBlock(m, 64 * i + j); } else { RestOfBlock(m, i, cursor, j); }
    }
    IsBlock(m, i, d);
  }

  lemma IsBlock(m: Bytes, i: nat, d: Bytes)
    requires Countable(|m|) && i < GetTotalMessageCount(|m|) && |d| == 64
    requires forall j :: 0 <= j < 64 ==> d[j] == PaddedByte(m, 64 * i + j)
    ensures d == Block(PaddedMessage(m), i)
  {
    hide GetTotalMessageCount, BigEndian, PaddedByte, PaddedMessage;
    forall j | 0 <= j < 64 ensures d[j] == Block(PaddedMessage(m), i)[j] {
      PaddedAt(m, 64 * i + j);
    }
  }

  lemma FrontOfBlock(m: Bytes, k: nat)
    requires k <= |m| && k < MESSAGE_BLOCK_BYTES * GetTotalMessageCount(|m|)
    ensures PaddedByte(m, k) == if k < |m| then m[k] else 0x80
  {
  }

  lemma PaddedAt(m: Bytes, k: nat)
    requires Countable(|m|) && k < |PaddedMessage(m)|
    ensures PaddedMessage(m)[k] == PaddedByte(m, k)
  {
    hide GetTotalMessageCount, BigEndian;
  }

  class PaddedMessageIterator {
    const source: Bytes
    const numTotalMessage: nat
    var messageIndex: nat

    ghost predicate Valid()
      reads this
    {
      |source| < SIZE_LIMIT && numTotalMessage == GetTotalMessageCount(|source|) && messageIndex <= numTotalMessage
    }

    constructor (source: Bytes)
      requires |source| < SIZE_LIMIT
      ensures Valid() && this.source == source && messageIndex == 0
    {
      this.source := source;
      numTotalMessage := GetTotalMessageCount(|source|);
      messageIndex := 0;
    }

    predicate HasMessage()
      reads this
    {
      messageIndex < numTotalMessage
    }

    /** The next block of the padded message, whatever dest held before. */
    method FillNextMessage(dest: array<Byte>)
      requires Valid() && HasMessage() && dest.Length == MESSAGE_BLOCK_BYTES
      modifies dest
      ensures dest[..] == Block(Messages(source), messageIndex)
    {
      hide BigEndian, PaddedMessage, GetTotalMessageCount, PaddedByte, Countable;
      if !Countable(|source|) { CountWraps(|source|); }
      var base := messageIndex * MESSAGE_BLOCK_BYTES;
      var cursor := 0;
      if base < |source| {
        var rest := |source| - base;
        if rest >= MESSAGE_BLOCK_BYTES {
          forall i | 0 <= i < MESSAGE_BLOCK_BYTES { dest[i] := source[base + i]; }
          if Countable(|source|) { BlockFilled(source, messageIndex, MESSAGE_BLOCK_BYTES, dest[..]); }
          return;
        }
        forall i | 0 <= i < rest { dest[i] := source[base + i]; }
        cursor := rest;
      }
      if base + cursor == |source| {
        dest[cursor] := 0x80;
        cursor := cursor + 1;
      }
      var limit := MESSAGE_BLOCK_BYTES - DATA_BIT_LENGTH_BYTES;
      if cursor > limit {
        forall i | cursor <= i < MESSAGE_BLOCK_BYTES { dest[i] := 0; }
      } else {
        forall i | cursor <= i < limit { dest[i] := 0; }
        var bitLength := |source| * 8 % SIZE_LIMIT;
        var field := BigEndian(bitLength, 8);
        forall i | limit <= i < MESSAGE_BLOCK_BYTES { dest[i] := field[i - limit]; }
      }
      BlockFilled(source, messageIndex, cursor, dest[..]);
    }

    method MoveNext()
      requires Valid() && HasMessage()
      modifies this`messageIndex
      ensures Valid() && messageIndex == old(messageIndex) + 1
    {
      messageIndex := messageIndex + 1;
    }
  }

  lemma BlocksJoin(p: Bytes, i: nat)
    requires MESSAGE_BLOCK_BYTES * (i + 1) <= |p|
    ensures p[..MESSAGE_BLOCK_BYTES * i] + Block(p, i) == p[..MESSAGE_BLOCK_BYTES * (i + 1)]
  {
  }

  /** The blocks the iterator yields, one after the other. */
  method ConcatenateMessages(source: Bytes) returns (all: Bytes)
    requires |source| < SIZE_LIMIT
    ensures all == Messages(source)
    ensures IsPadded(source, all) <==> |source| < MESSAGE_LIMIT
  {
    hide Messages, Block, IsPadded, GetTotalMessageCount;
    all := [];
    ghost var p := Messages(source);
    var message := new Byte[MESSAGE_BLOCK_BYTES](_ => 0);
    var it := new PaddedMessageIterator(source);
    while it.HasMessage()
      invariant it.Valid() && it.source == source && fresh(it)
      invariant all == p[..MESSAGE_BLOCK_BYTES * it.messageIndex]
      decreases it.numTotalMessage - it.messageIndex
    {
      it.FillNextMessage(message);
      all := all + message[..];
      BlocksJoin(p, it.messageIndex);
      it.MoveNext();
    }
    MessagesAreStandard(source);
  }
}
