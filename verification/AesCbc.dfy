/** `UnverifiedAES256::TransformCBC` and its inverse, in place over any number of blocks. */
module AesCbc {
  import opened AesXor
  import AesBlock
  import opened AesCipher
  import Aes256
  import AesKeySchedule

  type Bytes = AesBlock.Bytes

  function ExpandedKey(key: Bytes): (w: Bytes)
    requires |key| == 32
    ensures |w| == KEY_SCHEDULE_BYTES
  {
    seq(KEY_SCHEDULE_BYTES, n requires 0 <= n < KEY_SCHEDULE_BYTES => AesKeySchedule.ExpandedByte(key, n))
  }

  /** Section 5.1.4 of FIPS 197: round r adds the words 4r to 4r + 3 of the key schedule. */
  lemma RoundKeyWords(key: Bytes, r: nat, c: nat)
    requires |key| == 32 && r <= ROUNDS && c < 4
    ensures AesBlock.ColumnAt(RoundKey(ExpandedKey(key), r), c) == AesKeySchedule.Word(key, 4 * r + c)
  {
    hide AesKeySchedule.ExpandedByte, AesKeySchedule.Word;
    AesKeySchedule.WordBytes(key, 4 * r + c);
  }

  function BlockAt(s: Bytes, i: nat): (b: Bytes)
    requires 16 * i + 16 <= |s|
    ensures |b| == 16
  {
    s[16 * i..16 * i + 16]
  }

  /** The first n blocks of a buffer. */
  function BlocksOf(s: Bytes, n: nat): (bs: seq<Bytes>)
    requires 16 * n <= |s|
    ensures |bs| == n && AreBlocks(bs)
    ensures forall i :: 0 <= i < n ==> bs[i] == BlockAt(s, i)
  {
    seq(n, i requires 0 <= i < n => BlockAt(s, i))
  }

  method MakeSchedule(key: Bytes) returns (w: Bytes)
    requires |key| == 32
    ensures w == ExpandedKey(key)
  {
    hide AesKeySchedule.ExpandedByte;
    var a := new Byte[KEY_SCHEDULE_BYTES](_ => 0);
    AesKeySchedule.MakeKeySchedule(key, a);
    w := a[..];
  }

  method EncryptBlock(w: Bytes, block: array<Byte>, off: nat, vec: Bytes)
    requires |w| == KEY_SCHEDULE_BYTES && |vec| == 16 && off + 16 <= block.Length
    modifies block
    ensures block[off..off + 16] == EncryptOne(w, vec, old(block[off..off + 16]))
    ensures Aes256.SameElsewhere(old(block[..]), block[..], off)
  {
    hide Cipher, AesBlock.AddRoundKey, Aes256.SameElsewhere;
    Aes256.AddRoundKey(block, off, vec);
    ghost var mid := block[..];
    Aes256.TransformECB(w, block, off);
    Aes256.SameTwice(old(block[..]), mid, block[..], off);
  }

  method DecryptBlock(w: Bytes, block: array<Byte>, off: nat, prev: Bytes)
    requires |w| == KEY_SCHEDULE_BYTES && |prev| == 16 && off + 16 <= block.Length
    modifies block
    ensures block[off..off + 16] == DecryptOne(w, prev, old(block[off..off + 16]))
    ensures Aes256.SameElsewhere(old(block[..]), block[..], off)
  {
    hide InvCipher, AesBlock.AddRoundKey, Aes256.SameElsewhere;
    Aes256.InverseTransformECB(w, block, off);
    ghost var mid := block[..];
    Aes256.AddRoundKey(block, off, prev);
    Aes256.SameTwice(old(block[..]), mid, block[..], off);
  }

  /** Blocks in front of a changed block stay, and so does everything behind it. */
  lemma OneMoreBlock(was: Bytes, now: Bytes, i: nat)
    requires Aes256.SameElsewhere(was, now, 16 * i)
    ensures BlocksOf(now, i + 1) == BlocksOf(was, i) + [BlockAt(now, i)]
    ensures now[16 * (i + 1)..] == was[16 * (i + 1)..]
  {
    forall j | 0 <= j < i ensures BlockAt(now, j) == BlockAt(was, j) {}
  }

  lemma EncryptsOneMore(w: Bytes, iv: Bytes, ps: seq<Bytes>, cs: seq<Bytes>, p: Bytes, c: Bytes)
    requires |w| == KEY_SCHEDULE_BYTES && |iv| == 16 && |p| == 16 && |c| == 16 && Encrypts(w, iv, ps, cs)
    requires c == EncryptOne(w, Previous(iv, cs, |cs|), p)
    ensures Encrypts(w, iv, ps + [p], cs + [c])
  {
    hide EncryptOne;
    forall i | 0 <= i < |ps| + 1
      ensures (cs + [c])[i] == EncryptOne(w, Previous(iv, cs + [c], i), (ps + [p])[i])
    {
      if i < |ps| { assert cs[i] == EncryptOne(w, Previous(iv, cs, i), ps[i]); }
    }
  }

  lemma DecryptsOneMore(w: Bytes, iv: Bytes, cs: seq<Bytes>, ps: seq<Bytes>, c: Bytes, p: Bytes)
    requires |w| == KEY_SCHEDULE_BYTES && |iv| == 16 && |p| == 16 && |c| == 16 && Decrypts(w, iv, cs, ps)
    requires p == DecryptOne(w, Previous(iv, cs, |cs|), c)
    ensures Decrypts(w, iv, cs + [c], ps + [p])
  {
    hide DecryptOne;
    forall i | 0 <= i < |ps| + 1
      ensures (ps + [p])[i] == DecryptOne(w, Previous(iv, cs + [c], i), (cs + [c])[i])
    {
      if i < |ps| { assert ps[i] == DecryptOne(w, Previous(iv, cs, i), cs[i]); }
    }
  }

  method TransformCBC(key: Bytes, iv: Bytes, block: array<Byte>, count: nat)
    requires |key| == 32 && |iv| == 16 && 16 * count <= block.Length
    modifies block
    ensures Encrypts(ExpandedKey(key), iv, BlocksOf(old(block[..]), count), BlocksOf(block[..], count))
    ensures block[16 * count..] == old(block[16 * count..])
  {
    hide EncryptOne, ExpandedKey, Encrypts, BlocksOf, Aes256.SameElsewhere;
    var w := MakeSchedule(key);
    var vec := iv;
    ghost var was := block[..];
    NoBlocks(w, iv, was, was);
    for i := 0 to count
      invariant vec == Previous(iv, BlocksOf(block[..], i), i)
      invariant Encrypts(w, iv, BlocksOf(was, i), BlocksOf(block[..], i))
      invariant block[16 * i..] == was[16 * i..]
    {
      ghost var before := block[..];
      NextBlock(was, before, i);
      ghost var ps, cs := BlocksOf(was, i), BlocksOf(before, i);
      EncryptBlock(w, block, 16 * i, vec);
      vec := block[16 * i..16 * i + 16];
      OneMoreBlock(before, block[..], i);
      EncryptsOneMore(w, iv, ps, cs, BlockAt(was, i), vec);
    }
  }

  lemma NoBlocks(w: Bytes, iv: Bytes, a: Bytes, b: Bytes)
    requires |w| == KEY_SCHEDULE_BYTES && |iv| == 16
    ensures Encrypts(w, iv, BlocksOf(a, 0), BlocksOf(b, 0)) && Decrypts(w, iv, BlocksOf(a, 0), BlocksOf(b, 0))
  {
    hide EncryptOne, DecryptOne;
  }

  /** The next block is still the original one. */
  lemma NextBlock(was: Bytes, now: Bytes, i: nat)
    requires |was| == |now| && 16 * i + 16 <= |was| && now[16 * i..] == was[16 * i..]
    ensures BlockAt(now, i) == BlockAt(was, i) && now[16 * (i + 1)..] == was[16 * (i + 1)..]
    ensures BlocksOf(was, i + 1) == BlocksOf(was, i) + [BlockAt(was, i)]
  {
    assert BlockAt(now, i) == now[16 * i..][..16] && BlockAt(was, i) == was[16 * i..][..16];
    assert now[16 * (i + 1)..] == now[16 * i..][16..] && was[16 * (i + 1)..] == was[16 * i..][16..];
  }

  method InverseTransformCBC(key: Bytes, iv: Bytes, block: array<Byte>, count: nat)
    requires |key| == 32 && |iv| == 16 && 16 * count <= block.Length
    modifies block
    ensures Decrypts(ExpandedKey(key), iv, BlocksOf(old(block[..]), count), BlocksOf(block[..], count))
    ensures block[16 * count..] == old(block[16 * count..])
  {
    hide DecryptOne, ExpandedKey, Decrypts, BlocksOf, Aes256.SameElsewhere;
    var w := MakeSchedule(key);
    var prev := iv;
    ghost var was := block[..];
    NoBlocks(w, iv, was, was);
    for i := 0 to count
      invariant prev == Previous(iv, BlocksOf(was, i), i)
      invariant Decrypts(w, iv, BlocksOf(was, i), BlocksOf(block[..], i))
      invariant block[16 * i..] == was[16 * i..]
    {
      ghost var before := block[..];
      NextBlock(was, before, i);
      ghost var cs, ps := BlocksOf(was, i), BlocksOf(before, i);
      var current := block[16 * i..16 * i + 16];
      DecryptBlock(w, block, 16 * i, prev);
      OneMoreBlock(before, block[..], i);
      DecryptsOneMore(w, iv, cs, ps, current, block[16 * i..16 * i + 16]);
      prev := current;
    }
  }

  /** Decrypted blocks are determined by the ciphertext. */
  lemma DecryptsUnique(w: Bytes, iv: Bytes, cs: seq<Bytes>, ps: seq<Bytes>, qs: seq<Bytes>)
    requires |w| == KEY_SCHEDULE_BYTES && |iv| == 16 && Decrypts(w, iv, cs, ps) && Decrypts(w, iv, cs, qs)
    ensures ps == qs
  {
    hide DecryptOne;
  }

  lemma {:induction false} EncryptsUnique(w: Bytes, iv: Bytes, ps: seq<Bytes>, cs: seq<Bytes>, ds: seq<Bytes>, n: nat)
    requires |w| == KEY_SCHEDULE_BYTES && |iv| == 16 && Encrypts(w, iv, ps, cs) && Encrypts(w, iv, ps, ds) && n <= |ps|
    ensures forall i :: 0 <= i < n ==> cs[i] == ds[i]
    decreases n
  {
    hide EncryptOne;
    if n > 0 { EncryptsUnique(w, iv, ps, cs, ds, n - 1); }
  }

  /** Equal blocks and an equal rest make equal buffers. */
  lemma SameBuffer(a: Bytes, b: Bytes, n: nat)
    requires |a| == |b| && 16 * n <= |a| && BlocksOf(a, n) == BlocksOf(b, n) && a[16 * n..] == b[16 * n..]
    ensures a == b
  {
    forall k | 0 <= k < |a|
      ensures a[k] == b[k]
    {
      if k < 16 * n {
        assert BlockAt(a, k / 16) == BlockAt(b, k / 16) by { assert BlocksOf(a, n)[k / 16] == BlocksOf(b, n)[k / 16]; }
        assert a[k] == BlockAt(a, k / 16)[k % 16] && b[k] == BlockAt(b, k / 16)[k % 16];
      } else {
        assert a[k] == a[16 * n..][k - 16 * n] && b[k] == b[16 * n..][k - 16 * n];
      }
    }
  }

  /** Transforming a buffer and transforming it back restores every byte, in place. */
  method TransformAndBack(key: Bytes, iv: Bytes, block: array<Byte>, count: nat)
    requires |key| == 32 && |iv| == 16 && 16 * count <= block.Length
    modifies block
    ensures block[..] == old(block[..])
  {
    hide Encrypts, Decrypts, ExpandedKey, BlocksOf;
    ghost var was, w := block[..], ExpandedKey(key);
    TransformCBC(key, iv, block, count);
    ghost var mid := block[..];
    InverseTransformCBC(key, iv, block, count);
    CbcInverse(w, iv, BlocksOf(was, count), BlocksOf(mid, count));
    DecryptsUnique(w, iv, BlocksOf(mid, count), BlocksOf(was, count), BlocksOf(block[..], count));
    assert mid[16 * count..] == was[16 * count..];
    SameBuffer(was, block[..], count);
  }
}
