/** SHA-1, section 6.1.2 of FIPS 180-4. */
module Sha1 {
  import opened Sha1Padding

  type Word = bv32

  // ---------- sections 3.2, 4.1.1 and 4.2.1 ----------

  function Rotl(x: Word, n: nat): Word
    requires 0 < n < 32
  {
    (x << n) | (x >> (32 - n))
  }

  function Add(x: Word, y: Word): Word {
    x + y
  }

  function Sum5(x: Word, y: Word, z: Word, u: Word, v: Word): Word {
    x + y + z + u + v
  }

  function Xor4(x: Word, y: Word, z: Word, u: Word): Word {
    x ^ y ^ z ^ u
  }

  function F(t: nat, x: Word, y: Word, z: Word): Word {
    if t < 20 then (x & y) ^ (!x & z)
    else if t < 40 then x ^ y ^ z
    else if t < 60 then (x & y) ^ (x & z) ^ (y & z)
    else x ^ y ^ z
  }

  function K(t: nat): Word {
    if t < 20 then 0x5a827999
    else if t < 40 then 0x6ed9eba1
    else if t < 60 then 0x8f1bbcdc
    else 0xca62c1d6
  }

  /** Each constant is the integer part of 2^30 times a square root: of 2, 3, 5 and 10. */
  lemma ConstantsAreRoots(t: nat)
    ensures var k := K(t) as nat;
            var n := if t < 20 then 2 else if t < 40 then 3 else if t < 60 then 5 else 10;
            k * k <= n * 0x1000_0000_0000_0000 < (k + 1) * (k + 1)
  {
    assert 0x5a827999 as Word as nat == 0x5a827999 && 0x6ed9eba1 as Word as nat == 0x6ed9eba1;
    assert 0x8f1bbcdc as Word as nat == 0x8f1bbcdc && 0xca62c1d6 as Word as nat == 0xca62c1d6;
  }

  /** Rounds 0 to 19 choose: y where x has a bit, z elsewhere. */
  lemma ChoosesBits(t: nat, x: Word, y: Word, z: Word)
    requires t < 20
    ensures F(t, x, y, z) & x == y & x && F(t, x, y, z) & !x == z & !x
  {
  }

  /** Rounds 20 to 39 and 60 to 79 add without carry. */
  lemma AddsBits(t: nat, x: Word, y: Word, z: Word)
    requires 20 <= t < 40 || 60 <= t < 80
    ensures F(t, x, y, z) == x ^ y ^ z
  {
  }

  /** Rounds 40 to 59 take the majority: x where x and y agree, z elsewhere. */
  lemma MajorityOfBits(t: nat, x: Word, y: Word, z: Word)
    requires 40 <= t < 60
    ensures F(t, x, y, z) & !(x ^ y) == x & !(x ^ y) && F(t, x, y, z) & (x ^ y) == z & (x ^ y)
  {
  }

  // ---------- the specification ----------

  datatype State = State(a: Word, b: Word, c: Word, d: Word, e: Word)

  const INITIAL_HASH := State(0x67452301, 0xefcdab89, 0x98badcfe, 0x10325476, 0xc3d2e1f0)

  /** Word t of a block, most significant byte first. */
  function WordAt(block: Bytes, t: nat): Word
    requires |block| == MESSAGE_BLOCK_BYTES && t < 16
  {
    WordOf(block[4 * t..4 * t + 4])
  }

  function WordOf(s: Bytes): Word
    requires |s| == 4
  {
    ValueBound(s);
    Value(s) as Word
  }

  lemma ValueBound(s: Bytes)
    requires |s| == 4
    ensures Value(s) < 0x1_0000_0000
  {
    BelowPower(s);
    assert Power256(4) == 0x1_0000_0000;
  }

  /** W_t of the message schedule. */
  function Schedule(block: Bytes, t: nat): Word
    requires |block| == MESSAGE_BLOCK_BYTES
  {
    if t < 16 then WordAt(block, t)
    else Rotl(Xor4(Schedule(block, t - 3), Schedule(block, t - 8), Schedule(block, t - 14), Schedule(block, t - 16)), 1)
  }

  function Round(s: State, t: nat, w: Word): State {
    State(Sum5(Rotl(s.a, 5), F(t, s.b, s.c, s.d), s.e, K(t), w), s.a, Rotl(s.b, 30), s.c, s.d)
  }

  /** The working variables after t rounds. */
  function Rounds(s: State, block: Bytes, t: nat): State
    requires |block| == MESSAGE_BLOCK_BYTES
  {
    if t == 0 then s else Round(Rounds(s, block, t - 1), t - 1, Schedule(block, t - 1))
  }

  function AddStates(s: State, u: State): State {
    State(Add(s.a, u.a), Add(s.b, u.b), Add(s.c, u.c), Add(s.d, u.d), Add(s.e, u.e))
  }

  /** The hash value after the first n blocks of p. */
  function HashAfter(p: Bytes, n: nat): State
    requires MESSAGE_BLOCK_BYTES * n <= |p|
  {
    if n == 0 then INITIAL_HASH
    else
      var h := HashAfter(p, n - 1);
      AddStates(h, Rounds(h, Block(p, n - 1), 80))
  }

  /** The 20 bytes d spell the five words of h. */
  ghost predicate Spells(d: Bytes, h: State) {
    && |d| == 20
    && Value(d[0..4]) == h.a as nat && Value(d[4..8]) == h.b as nat && Value(d[8..12]) == h.c as nat
    && Value(d[12..16]) == h.d as nat && Value(d[16..20]) == h.e as nat
  }

  /** d is the SHA-1 digest of m. */
  ghost predicate IsDigest(m: Bytes, d: Bytes) {
    exists p :: IsPadded(m, p) && Spells(d, HashAfter(p, |p| / MESSAGE_BLOCK_BYTES))
  }

  // ---------- the program ----------

  lemma ScheduleStep(block: Bytes, t: nat)
    requires |block| == MESSAGE_BLOCK_BYTES
    ensures t < 16 ==> Schedule(block, t) == WordOf(block[4 * t..4 * t + 4])
    ensures t >= 16 ==>
              Schedule(block, t) == Rotl(Xor4(Schedule(block, t - 3), Schedule(block, t - 8),
                                              Schedule(block, t - 14), Schedule(block, t - 16)), 1)
  {
    hide WordOf, Rotl, Xor4;
  }

  method FillSchedule(message: array<Byte>, w: array<Word>)
    requires message.Length == MESSAGE_BLOCK_BYTES && w.Length == 80
    modifies w
    ensures forall t :: 0 <= t < 80 ==> w[t] == Schedule(message[..], t)
  {
    hide WordOf, Rotl, Xor4, Schedule;
    ghost var block := message[..];
    for i := 0 to 16
      invariant forall t :: 0 <= t < i ==> w[t] == Schedule(block, t)
    {
      w[i] := WordOf(message[4 * i..4 * i + 4]);
      ScheduleStep(block, i);
      assert message[4 * i..4 * i + 4] == block[4 * i..4 * i + 4];
    }
    for t := 16 to 80
      invariant forall k :: 0 <= k < t ==> w[k] == Schedule(block, k)
    {
      ScheduleStep(block, t);
      w[t] := Rotl(Xor4(w[t - 3], w[t - 8], w[t - 14], w[t - 16]), 1);
    }
  }

  lemma SumSwaps(x: Word, y: Word, z: Word, u: Word, v: Word)
    ensures Sum5(x, y, z, u, v) == Sum5(x, y, z, v, u)
  {
  }

  method RunRounds(h: State, w: array<Word>, ghost block: Bytes) returns (s: State)
    requires |block| == MESSAGE_BLOCK_BYTES && w.Length == 80
    requires forall t :: 0 <= t < 80 ==> w[t] == Schedule(block, t)
    ensures s == Rounds(h, block, 80)
  {
    hide Schedule, Rotl, Sum5, F, K;
    var a, b, c, d, e := h.a, h.b, h.c, h.d, h.e;
    for t := 0 to 80
      invariant State(a, b, c, d, e) == Rounds(h, block, t)
    {
      SumSwaps(Rotl(a, 5), F(t, b, c, d), e, w[t], K(t));
      var sum := Sum5(Rotl(a, 5), F(t, b, c, d), e, w[t], K(t));
      e := d;
      d := c;
      c := Rotl(b, 30);
      b := a;
      a := sum;
    }
    s := State(a, b, c, d, e);
  }

  method AsByteStream(h: array<Word>) returns (str: Bytes)
    requires h.Length == 5
    ensures Spells(str, State(h[0], h[1], h[2], h[3], h[4]))
  {
    hide BigEndian, Value;
    str := [];
    for i := 0 to 5
      invariant |str| == 4 * i
      invariant forall k :: 0 <= k < i ==> Value(str[4 * k..4 * k + 4]) == h[k] as nat
    {
      var bytes := BigEndian(h[i] as nat, 4);
      WordBytes(h[i]);
      ghost var was := str;
      str := str + bytes;
      assert forall k :: 0 <= k < i ==> str[4 * k..4 * k + 4] == was[4 * k..4 * k + 4];
      assert str[4 * i..4 * i + 4] == bytes;
    }
    assert forall k :: 0 <= k < 5 ==> str[4 * k..4 * k + 4] == str[4 * k..][..4];
  }

  lemma WordBytes(x: Word)
    ensures Value(BigEndian(x as nat, 4)) == x as nat
  {
    FourBytes(x as nat);
  }

  lemma FourBytes(v: nat)
    requires v < 0x1_0000_0000
    ensures Value(BigEndian(v, 4)) == v
  {
    hide BigEndian, Value;
    BigEndianValue(v, 4);
    assert Power256(4) == 0x1_0000_0000;
  }

  function StateOf(h: array<Word>): State
    requires h.Length == 5
    reads h
  {
    State(h[0], h[1], h[2], h[3], h[4])
  }

  method HashBlock(h: array<Word>, message: array<Byte>)
    requires h.Length == 5 && message.Length == MESSAGE_BLOCK_BYTES
    modifies h
    ensures StateOf(h) == AddStates(old(StateOf(h)), Rounds(old(StateOf(h)), message[..], 80))
  {
    hide Rounds, Schedule, Add;
    var w := new Word[80];
    FillSchedule(message, w);
    var s := RunRounds(StateOf(h), w, message[..]);
    h[0] := Add(h[0], s.a);
    h[1] := Add(h[1], s.b);
    h[2] := Add(h[2], s.c);
    h[3] := Add(h[3], s.d);
    h[4] := Add(h[4], s.e);
  }

  lemma NextHash(p: Bytes, i: nat)
    requires MESSAGE_BLOCK_BYTES * (i + 1) <= |p|
    ensures HashAfter(p, i + 1) == AddStates(HashAfter(p, i), Rounds(HashAfter(p, i), Block(p, i), 80))
  {
    hide Block, Rounds, AddStates;
  }

  method MakeDigest(source: Bytes) returns (digest: Bytes)
    requires |source| < SIZE_LIMIT
    ensures var p := Messages(source); Spells(digest, HashAfter(p, |p| / MESSAGE_BLOCK_BYTES))
    ensures IsDigest(source, digest) <==> |source| < MESSAGE_LIMIT
  {
    hide Messages, Block, IsPadded, Rounds, Spells, AddStates, HashAfter, Countable, GetTotalMessageCount;
    var h := new Word[5];
    h[0], h[1], h[2], h[3], h[4] := 0x67452301, 0xefcdab89, 0x98badcfe, 0x10325476, 0xc3d2e1f0;
    ghost var p := Messages(source);
    NoHash(p);
    var message := new Byte[MESSAGE_BLOCK_BYTES](_ => 0);
    var it := new PaddedMessageIterator(source);
    while it.HasMessage()
      invariant it.Valid() && it.source == source && fresh(it)
      invariant StateOf(h) == HashAfter(p, it.messageIndex)
      decreases it.numTotalMessage - it.messageIndex
    {
      it.FillNextMessage(message);
      HashBlock(h, message);
      NextHash(p, it.messageIndex);
      it.MoveNext();
    }
    digest := AsByteStream(h);
    DigestIsStandard(source, digest);
  }

  /** Beyond the standard's limit there is no digest to give. */
  lemma DigestIsStandard(m: Bytes, d: Bytes)
    requires |m| < SIZE_LIMIT && Spells(d, HashAfter(Messages(m), |Messages(m)| / MESSAGE_BLOCK_BYTES))
    ensures IsDigest(m, d) <==> |m| < MESSAGE_LIMIT
  {
    hide Messages, IsPadded, Spells, HashAfter;
    MessagesAreStandard(m);
    if IsDigest(m, d) {
      var p :| IsPadded(m, p) && Spells(d, HashAfter(p, |p| / MESSAGE_BLOCK_BYTES));
      TooLongForStandard(m, p);
    }
  }

  lemma NoHash(p: Bytes)
    ensures HashAfter(p, 0) == INITIAL_HASH
  {
  }

  /** A message has exactly one digest. */
  lemma DigestUnique(m: Bytes, d: Bytes, e: Bytes)
    requires IsDigest(m, d) && IsDigest(m, e)
    ensures d == e
  {
    hide IsPadded, HashAfter, Value;
    var p :| IsPadded(m, p) && Spells(d, HashAfter(p, |p| / MESSAGE_BLOCK_BYTES));
    var q :| IsPadded(m, q) && Spells(e, HashAfter(q, |q| / MESSAGE_BLOCK_BYTES));
    PaddedUnique(m, p, q);
    ValueUnique(d[0..4], e[0..4]);
    ValueUnique(d[4..8], e[4..8]);
    ValueUnique(d[8..12], e[8..12]);
    ValueUnique(d[12..16], e[12..16]);
    ValueUnique(d[16..20], e[16..20]);
    assert d == d[0..4] + d[4..8] + d[8..12] + d[12..16] + d[16..20];
    assert e == e[0..4] + e[4..8] + e[8..12] + e[12..16] + e[16..20];
  }
}
