/**
  The JIS X 0208 bitmap: `GenerateJisX0208Bitmap` compresses a table of character categories into
  a 64-bit index and a list of blocks, and `IsJisX0208Char` looks code points up in them by rank.
  Words are natural numbers; shifts and truncation to 64 bits are written out.
*/
module JisX0208 {
  import opened Wrappers

  datatype Category = Ascii | JisX0201 | JisX0208 | JisX0212 | JisX0213 | UnicodeOnly

  /** The entries of CATEGORY_BITMAP; absent categories count as 0. */
  function CategoryBitmap(c: Category): nat {
    match c
    case JisX0208 => 1
    case JisX0212 => 2
    case JisX0213 => 3
    case _ => 0
  }

  predicate Listed(categories: seq<Category>, codepoint: nat) {
    codepoint < |categories| && CategoryBitmap(categories[codepoint]) != 0
  }

  // ---------- bits of natural numbers ----------

  function Pow2(k: nat): (p: nat)
    ensures p > 0
  {
    if k == 0 then 1 else 2 * Pow2(k - 1)
  }

  function ShiftRight(x: nat, k: nat): nat {
    if k == 0 then x else ShiftRight(x / 2, k - 1)
  }

  predicate Bit(x: nat, k: nat) {
    ShiftRight(x, k) % 2 == 1
  }

  function ShiftLeft(x: nat, k: nat): nat {
    if k == 0 then x else 2 * ShiftLeft(x, k - 1)
  }

  function PopCount(x: nat): nat {
    if x == 0 then 0 else x % 2 + PopCount(x / 2)
  }

  /** The k low bits of x. */
  function Low(x: nat, k: nat): nat {
    if k == 0 then 0 else x % 2 + 2 * Low(x / 2, k - 1)
  }

  lemma {:induction false} LowIsRemainder(x: nat, k: nat)
    ensures Low(x, k) == x % Pow2(k)
  {
    if k > 0 {
      LowIsRemainder(x / 2, k - 1);
      RemainderStep(x, Pow2(k - 1));
    }
  }

  lemma RemainderStep(x: nat, p: nat)
    requires p > 0
    ensures x % (2 * p) == x % 2 + 2 * (x / 2 % p)
  {
    var h := x / 2;
    var q, r := h / p, h % p;
    assert h == p * q + r;
    assert x == (2 * p) * q + (2 * r + x % 2);
    UniqueRemainder(x, 2 * p, q, 2 * r + x % 2);
  }

  lemma UniqueRemainder(x: nat, m: nat, q: nat, r: nat)
    requires m > 0 && x == m * q + r && r < m
    ensures x % m == r
  {
    var d: int := x / m - q;
    assert m * d == r - x % m;
    assert 0 < m * d + m && m * d < m;
  }

  /** Number of set bits among the k low ones. */
  function Rank(x: nat, k: nat): (r: nat)
    ensures r <= k
  {
    if k == 0 then 0 else Rank(x, k - 1) + (if Bit(x, k - 1) then 1 else 0)
  }

  /** Adding a power of two above all set bits sets exactly that bit. */
  lemma {:induction false} SetHighBit(x: nat, i: nat, j: nat)
    requires x < Pow2(i)
    ensures Bit(x + Pow2(i), j) <==> j == i || Bit(x, j)
  {
    if j == 0 {
      if i > 0 { assert (x + Pow2(i)) % 2 == x % 2; }
    } else if i == 0 {
      assert x == 0 && (x + Pow2(0)) / 2 == 0;
      ZeroBits(j - 1);
    } else {
      assert (x + Pow2(i)) / 2 == x / 2 + Pow2(i - 1);
      SetHighBit(x / 2, i - 1, j - 1);
    }
  }

  lemma {:induction false} ZeroBits(j: nat)
    ensures !Bit(0, j)
  {
    if j > 0 { ZeroBits(j - 1); }
  }

  /** A number below 2^k has no bit from k on. */
  lemma {:induction false} NoHighBit(x: nat, k: nat, j: nat)
    requires x < Pow2(k) && j >= k
    ensures !Bit(x, j)
  {
    if j == 0 {
    } else if k == 0 {
      ZeroBits(j);
    } else {
      NoHighBit(x / 2, k - 1, j - 1);
    }
  }

  lemma {:induction false} NonZeroHasBit(x: nat) returns (j: nat)
    requires x > 0
    ensures Bit(x, j)
  {
    if x % 2 == 1 {
      j := 0;
    } else {
      var i := NonZeroHasBit(x / 2);
      j := i + 1;
    }
  }

  // ---------- rank by population count ----------

  lemma {:induction false} RankHalf(x: nat, k: nat)
    ensures Rank(x, k + 1) == x % 2 + Rank(x / 2, k)
  {
    if k == 0 {
      assert Rank(x, 0) == 0;
    } else {
      RankHalf(x, k - 1);
      assert Bit(x, k) == Bit(x / 2, k - 1);
    }
  }

  lemma {:induction false} PopCountOfLow(x: nat, k: nat)
    ensures PopCount(Low(x, k)) == Rank(x, k)
  {
    hide PopCount, Rank;
    if k == 0 {
      NothingCounted(x);
    } else {
      PopCountOfLow(x / 2, k - 1);
      RankHalf(x, k - 1);
      PopCountStep(x % 2, Low(x / 2, k - 1));
    }
  }

  lemma NothingCounted(x: nat)
    ensures PopCount(0) == 0 == Rank(x, 0)
  {
  }

  lemma PopCountStep(b: nat, y: nat)
    requires b < 2
    ensures PopCount(b + 2 * y) == b + PopCount(y)
  {
    assert (b + 2 * y) % 2 == b && (b + 2 * y) / 2 == y;
  }

  lemma {:induction false} PopCountOfShift(x: nat, k: nat)
    ensures PopCount(ShiftLeft(x, k)) == PopCount(x)
  {
    if k > 0 {
      PopCountOfShift(x, k - 1);
      PopCountStep(0, ShiftLeft(x, k - 1));
    }
  }

  lemma {:induction false} LowOfShift(x: nat, m: nat, k: nat)
    ensures Low(ShiftLeft(x, m), m + k) == ShiftLeft(Low(x, k), m)
  {
    if m > 0 {
      LowOfShift(x, m - 1, k);
      var y := ShiftLeft(x, m - 1);
      assert (2 * y) / 2 == y && (2 * y) % 2 == 0;
      assert Low(2 * y, m + k) == 2 * Low(y, m + k - 1);
    }
  }

  /** x << m in 64 bits. */
  function ShiftLeft64(x: nat, m: nat): nat {
    ShiftLeft(x, m) % 0x1_0000_0000_0000_0000
  }

  /** Shifting bit i to the top and counting gives the number of set bits up to and including bit i. */
  lemma RankByPopCount(x: nat, i: nat)
    requires i < 64
    ensures PopCount(ShiftLeft64(x, 63 - i)) == Rank(x, i + 1)
  {
    var m := 63 - i;
    Pow2Of64();
    LowIsRemainder(ShiftLeft(x, m), 64);
    LowOfShift(x, m, i + 1);
    PopCountOfShift(Low(x, i + 1), m);
    PopCountOfLow(x, i + 1);
  }

  lemma Pow2Of64()
    ensures Pow2(64) == 0x1_0000_0000_0000_0000
  {
    Pow2Of8();
    hide Pow2;
    Pow2Adds(8, 8);
    Pow2Adds(16, 16);
    Pow2Adds(32, 32);
  }

  lemma Pow2Of8()
    ensures Pow2(8) == 0x100
  {
    assert Pow2(4) == 16;
  }

  lemma {:induction false} Pow2Adds(a: nat, b: nat)
    ensures Pow2(a + b) == Pow2(a) * Pow2(b)
  {
    if b > 0 { Pow2Adds(a, b - 1); }
  }

  // ---------- the generator ----------

  /** w holds the categories of the 32 code points from 32 * i on, least significant bit first. */
  ghost predicate IsWord(w: nat, categories: seq<Category>, i: nat) {
    w < Pow2(32) && forall j :: 0 <= j < 32 ==> (Bit(w, j) <==> Listed(categories, 32 * i + j))
  }

  ghost predicate AreWords(words: seq<nat>, categories: seq<Category>) {
    && |words| == (|categories| + 31) / 32
    && forall i :: 0 <= i < |words| ==> IsWord(words[i], categories, i)
  }

  /** Packs at most 32 code points from `start` on into one word. */
  method PackWord(categories: seq<Category>, i: nat) returns (bits: nat)
    requires 32 * i < |categories|
    ensures IsWord(bits, categories, i)
  {
    hide Bit, CategoryBitmap;
    bits := 0;
    var j := 0;
    forall k ensures !Bit(0, k) { ZeroBits(k); }
    while j < 32 && 32 * i + j < |categories|
      invariant 0 <= j <= 32 && 32 * i + j <= |categories|
      invariant bits < Pow2(j)
      invariant forall k :: 0 <= k < 32 ==> (Bit(bits, k) <==> k < j && Listed(categories, 32 * i + k))
    {
      var bit := if CategoryBitmap(categories[32 * i + j]) != 0 then 1 else 0;
      ghost var was := bits;
      assert bit * Pow2(j) == if bit == 0 then 0 else Pow2(j);
      // bits |= bit << j, where bits has no bit from j on
      bits := bits + bit * Pow2(j);
      forall k | 0 <= k < 32
        ensures Bit(bits, k) <==> k < j + 1 && Listed(categories, 32 * i + k)
      {
        SetHighBit(was, j, k);
        assert Bit(was, k) <==> k < j && Listed(categories, 32 * i + k);
      }
      j := j + 1;
    }
    Pow2Grows(j, 32);
  }

  lemma {:induction false} Pow2Grows(a: nat, b: nat)
    requires a <= b
    ensures Pow2(a) <= Pow2(b)
  {
    if a < b { Pow2Grows(a, b - 1); }
  }

  method PackWords(categories: seq<Category>) returns (words: seq<nat>)
    ensures AreWords(words, categories)
  {
    hide IsWord;
    words := [];
    while 32 * |words| < |categories|
      invariant |words| <= (|categories| + 31) / 32
      invariant forall i :: 0 <= i < |words| ==> IsWord(words[i], categories, i)
    {
      var bits := PackWord(categories, |words|);
      words := words + [bits];
    }
  }

  function BlockEnd(words: seq<nat>, key: nat): nat {
    if 32 * key + 32 <= |words| then 32 * key + 32 else |words|
  }

  /** The words of block `key`; the last block may be short. */
  function Block(words: seq<nat>, key: nat): seq<nat>
    requires 32 * key <= |words|
  {
    words[32 * key..BlockEnd(words, key)]
  }

  predicate HasValue(block: seq<nat>) {
    exists i :: 0 <= i < |block| && block[i] > 0
  }

  function BlockCount(words: seq<nat>): nat {
    (|words| + 31) / 32
  }

  /** The index marks the blocks that have a value, and data lists exactly those, in order. */
  ghost predicate Compressed(words: seq<nat>, index: nat, data: seq<seq<nat>>, n: nat) {
    && n <= BlockCount(words) && index < Pow2(n)
    && |data| == Rank(index, n)
    && forall key :: 0 <= key < n ==> BlockStored(words, index, data, key)
  }

  ghost predicate BlockStored(words: seq<nat>, index: nat, data: seq<seq<nat>>, key: nat)
    requires key < BlockCount(words)
  {
    && (Bit(index, key) <==> HasValue(Block(words, key)))
    && (Bit(index, key) ==> Rank(index, key) < |data| && data[Rank(index, key)] == Block(words, key))
  }

  lemma {:induction false} RankKept(x: nat, i: nat, k: nat)
    requires x < Pow2(i) && k <= i
    ensures Rank(x + Pow2(i), k) == Rank(x, k)
  {
    hide Bit;
    if k > 0 {
      RankKept(x, i, k - 1);
      SetHighBit(x, i, k - 1);
    }
  }

  lemma StoreBlock(words: seq<nat>, index: nat, data: seq<seq<nat>>, key: nat)
    requires key < BlockCount(words) && Compressed(words, index, data, key) && HasValue(Block(words, key))
    ensures Compressed(words, index + Pow2(key), data + [Block(words, key)], key + 1)
  {
    hide Bit, HasValue, Block;
    var index', data' := index + Pow2(key), data + [Block(words, key)];
    SetHighBit(index, key, key);
    RankKept(index, key, key);
    forall k | 0 <= k < key + 1
      ensures BlockStored(words, index', data', k)
    {
      SetHighBit(index, key, k);
      RankKept(index, key, k);
      if k < key { assert BlockStored(words, index, data, k); }
    }
  }

  lemma SkipBlock(words: seq<nat>, index: nat, data: seq<seq<nat>>, key: nat)
    requires key < BlockCount(words) && Compressed(words, index, data, key) && !HasValue(Block(words, key))
    ensures Compressed(words, index, data, key + 1)
  {
    hide Bit, HasValue, Block;
    NoHighBit(index, key, key);
  }

  method CompressBlocks(words: seq<nat>) returns (index: nat, data: seq<seq<nat>>)
    ensures Compressed(words, index, data, BlockCount(words))
  {
    hide Compressed, Block;
    index, data := 0, [];
    var key := 0;
    NothingCompressed(words);
    while key < BlockCount(words)
      invariant key <= BlockCount(words)
      invariant Compressed(words, index, data, key)
    {
      var block := words[32 * key..BlockEnd(words, key)];
      BlockIs(words, key);
      var hasValue := false;
      for i := 0 to |block|
        invariant hasValue <==> exists k :: 0 <= k < i && block[k] > 0
      {
        if block[i] > 0 { hasValue := true; }
      }
      if hasValue {
        StoreBlock(words, index, data, key);
        index := index + Pow2(key);
        data := data + [block];
      } else {
        SkipBlock(words, index, data, key);
      }
      key := key + 1;
    }
  }

  lemma NothingCompressed(words: seq<nat>)
    ensures Compressed(words, 0, [], 0)
  {
  }

  lemma BlockIs(words: seq<nat>, key: nat)
    requires key < BlockCount(words)
    ensures Block(words, key) == words[32 * key..BlockEnd(words, key)]
  {
  }

  /** Index and blocks of the bitmap; the caller passes the categories of the code points below 65536. */
  method GenerateJisX0208Bitmap(categories: seq<Category>) returns (index: nat, data: seq<seq<nat>>)
    ensures IsBitmapOf(index, data, categories)
    ensures |categories| <= 65536 ==> index < 0x1_0000_0000_0000_0000
  {
    hide Compressed, AreWords;
    var words := PackWords(categories);
    index, data := CompressBlocks(words);
    if |categories| <= 65536 { IndexFits(words, categories, index, data); }
  }

  /** The index of 65536 code points has at most 64 bits. */
  lemma IndexFits(words: seq<nat>, categories: seq<Category>, index: nat, data: seq<seq<nat>>)
    requires |categories| <= 65536 && AreWords(words, categories) && Compressed(words, index, data, BlockCount(words))
    ensures index < 0x1_0000_0000_0000_0000
  {
    hide Pow2, IsWord, BlockStored, Rank;
    Pow2Grows(BlockCount(words), 64);
    Pow2Of64();
  }

  ghost predicate IsBitmapOf(index: nat, data: seq<seq<nat>>, categories: seq<Category>) {
    exists words :: AreWords(words, categories) && Compressed(words, index, data, BlockCount(words))
  }

  // ---------- the lookup ----------

  /** The element of a 32-word row; C++ fills a row whose initializer is short with zeros. */
  function RowWord(row: seq<nat>, i: nat): nat {
    if i < |row| then row[i] else 0
  }

  /** The answer for a code point, or None if a row outside the table would be read. */
  function IsJisX0208Char(index: nat, data: seq<seq<nat>>, codepoint: nat): Option<bool> {
    if codepoint <= 0x7F then Some(true)
    else if 65377 <= codepoint <= 65439 then Some(true)
    else if codepoint < 65536 then
      var i := codepoint / 1024;
      if !Bit(index, i) then Some(false)
      else
        var row: int := PopCount(ShiftLeft64(index, 63 - i)) - 1;
        if 0 <= row < |data| then Some(Bit(RowWord(data[row], codepoint % 1024 / 32), codepoint % 32)) else None
    else Some(false)
  }

  /** The word of a code point in its block. */
  lemma BlockWord(words: seq<nat>, categories: seq<Category>, codepoint: nat)
    requires AreWords(words, categories) && 32 * (codepoint / 1024) <= |words|
    ensures Bit(RowWord(Block(words, codepoint / 1024), codepoint % 1024 / 32), codepoint % 32) <==>
              Listed(categories, codepoint)
  {
    hide Bit, Listed, Pow2, Block, RowWord;
    var key, i, j := codepoint / 1024, codepoint % 1024 / 32, codepoint % 32;
    Position(codepoint);
    WordInRow(words, key, i);
    if 32 * key + i < |words| {
      assert IsWord(words[32 * key + i], categories, 32 * key + i);
    } else {
      ZeroBits(j);
      NotListed(words, categories, codepoint);
    }
  }

  lemma Position(codepoint: nat)
    ensures var key, i, j := codepoint / 1024, codepoint % 1024 / 32, codepoint % 32;
            codepoint == 32 * (32 * key + i) + j && i < 32 && j < 32 && (32 * key + i) / 32 == key
  {
    var key, r := codepoint / 1024, codepoint % 1024;
    assert codepoint == 1024 * key + r;
    assert codepoint % 32 == r % 32;
  }

  lemma WordInRow(words: seq<nat>, key: nat, i: nat)
    requires 32 * key <= |words| && i < 32
    ensures RowWord(Block(words, key), i) == if 32 * key + i < |words| then words[32 * key + i] else 0
  {
  }

  lemma NotListed(words: seq<nat>, categories: seq<Category>, codepoint: nat)
    requires AreWords(words, categories) && 32 * |words| <= codepoint
    ensures !Listed(categories, codepoint)
  {
    hide IsWord;
  }

  /** A listed code point gives its block a value. */
  lemma ListedBlockHasValue(words: seq<nat>, categories: seq<Category>, codepoint: nat)
    requires AreWords(words, categories) && Listed(categories, codepoint)
    ensures codepoint / 1024 < BlockCount(words) && HasValue(Block(words, codepoint / 1024))
  {
    hide Bit, Listed, IsWord, Block, RowWord;
    var key, i, j := codepoint / 1024, codepoint % 1024 / 32, codepoint % 32;
    Position(codepoint);
    if 32 * key + i >= |words| { NotListed(words, categories, codepoint); assert false; }
    BlockWord(words, categories, codepoint);
    ZeroBits(j);
    WordInRow(words, key, i);
    InBlock(words, key, i);
  }

  lemma InBlock(words: seq<nat>, key: nat, i: nat)
    requires i < 32 && 32 * key + i < |words|
    ensures i < |Block(words, key)| && Block(words, key)[i] == words[32 * key + i]
  {
  }

  /**
    Every lookup in a generated bitmap stays inside the table, and answers true for a code point
    below 65536 outside the two shortcuts exactly when its category is listed.
  */
  lemma LookupAgrees(index: nat, data: seq<seq<nat>>, categories: seq<Category>, codepoint: nat)
    requires IsBitmapOf(index, data, categories)
    ensures IsJisX0208Char(index, data, codepoint) ==
            Some(codepoint <= 0x7F || 65377 <= codepoint <= 65439
              || (codepoint < 65536 && Listed(categories, codepoint)))
    ensures Listed(categories, codepoint) <==>
              && codepoint < |categories|
              && (categories[codepoint].JisX0208? || categories[codepoint].JisX0212? || categories[codepoint].JisX0213?)
  {
    ListedMeans(categories, codepoint);
    hide Bit, PopCount, ShiftLeft64, Block, RowWord, AreWords, HasValue;
    if 0x7F < codepoint < 65536 && !(65377 <= codepoint <= 65439) {
      var words :| AreWords(words, categories) && Compressed(words, index, data, BlockCount(words));
      var key := codepoint / 1024;
      RankByPopCount(index, key);
      if Listed(categories, codepoint) {
        ListedBlockHasValue(words, categories, codepoint);
      }
      if Bit(index, key) {
        BitOfStored(words, index, data, key);
        BlockWord(words, categories, codepoint);
      } else if key < BlockCount(words) {
        assert BlockStored(words, index, data, key);
      }
    }
  }

  lemma ListedMeans(categories: seq<Category>, codepoint: nat)
    ensures Listed(categories, codepoint) <==>
              && codepoint < |categories|
              && (categories[codepoint].JisX0208? || categories[codepoint].JisX0212? || categories[codepoint].JisX0213?)
  {
  }

  lemma BitOfStored(words: seq<nat>, index: nat, data: seq<seq<nat>>, key: nat)
    requires Compressed(words, index, data, BlockCount(words)) && Bit(index, key)
    ensures key < BlockCount(words)
    ensures Rank(index, key + 1) == Rank(index, key) + 1 && Rank(index, key) < |data|
    ensures data[Rank(index, key)] == Block(words, key)
  {
    hide Bit, Block, HasValue;
    if key >= BlockCount(words) { NoHighBit(index, BlockCount(words), key); }
    assert BlockStored(words, index, data, key);
  }
}
