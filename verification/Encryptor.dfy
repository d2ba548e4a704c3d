/** Strings and buffers under AES-256/CBC with the padding of section 6.3 of RFC 5652. */
module Encryptor {
  import opened Wrappers
  import opened AesXor
  import opened AesCipher
  import opened AesCbc

  const BLOCK_SIZE: nat := 16

  datatype Key = Key(key: Bytes, iv: Bytes, isAvailable: bool)

  predicate ValidKey(key: Key) {
    |key.key| == 32 && |key.iv| == 16
  }

  /** The smallest multiple of the block size that is strictly greater than size. */
  function GetEncryptedSize(size: nat): (r: nat)
    ensures r % BLOCK_SIZE == 0 && size < r
    ensures forall m: nat :: m % BLOCK_SIZE == 0 && size < m ==> r <= m
  {
    (size / BLOCK_SIZE + 1) * BLOCK_SIZE
  }

  // ---------- what a ciphertext means ----------

  /** The padding of an n-byte message: as many bytes as are missing, each holding their number. */
  ghost predicate Pads(p: Bytes, s: Bytes) {
    && |p| < |s| <= |p| + BLOCK_SIZE && |s| % BLOCK_SIZE == 0
    && p == s[..|p|]
    && forall k :: |p| <= k < |s| ==> s[k] as nat == |s| - |p|
  }

  /** The blocks of c are the CBC encryption of the blocks of s. */
  ghost predicate EncryptsBuffer(key: Key, s: Bytes, c: Bytes)
    requires ValidKey(key)
  {
    && |s| == |c| && |s| % BLOCK_SIZE == 0
    && Encrypts(ExpandedKey(key.key), key.iv, BlocksOf(s, |s| / 16), BlocksOf(c, |s| / 16))
  }

  /** c is what the non-empty message p is encrypted to. */
  ghost predicate IsEncryption(key: Key, p: Bytes, c: Bytes)
    requires ValidKey(key)
  {
    p != [] && exists s :: Pads(p, s) && EncryptsBuffer(key, s, c)
  }

  lemma PadsUnique(p: Bytes, s: Bytes, t: Bytes)
    requires Pads(p, s) && Pads(p, t)
    ensures s == t
  {
    assert |s| == |t|;
    forall k | 0 <= k < |s| ensures s[k] == t[k] {
      if k < |p| { assert s[..|p|][k] == t[..|p|][k]; } else { SameByte(s[k], t[k]); }
    }
  }

  lemma SameByte(a: Byte, b: Byte)
    requires a as nat == b as nat
    ensures a == b
  {
    assert a == (a as nat) as Byte && b == (b as nat) as Byte;
  }

  /** The last byte alone tells where the message ends. */
  lemma UnpadsUnique(p: Bytes, q: Bytes, s: Bytes)
    requires Pads(p, s) && Pads(q, s)
    ensures p == q
  {
    assert s[|s| - 1] as nat == |s| - |p|;
  }

  lemma EncryptsBufferUnique(key: Key, s: Bytes, c: Bytes, d: Bytes)
    requires ValidKey(key) && EncryptsBuffer(key, s, c) && EncryptsBuffer(key, s, d)
    ensures c == d
  {
    hide ExpandedKey, Encrypts;
    var n := |s| / 16;
    EncryptsUnique(ExpandedKey(key.key), key.iv, BlocksOf(s, n), BlocksOf(c, n), BlocksOf(d, n), n);
    SameBuffer(c, d, n);
  }

  lemma DecryptsBufferUnique(key: Key, s: Bytes, t: Bytes, c: Bytes)
    requires ValidKey(key) && EncryptsBuffer(key, s, c) && EncryptsBuffer(key, t, c)
    ensures s == t
  {
    hide ExpandedKey, Encrypts, Decrypts, BlocksOf;
    var n, w := |s| / 16, ExpandedKey(key.key);
    CbcInverse(w, key.iv, BlocksOf(s, n), BlocksOf(c, n));
    CbcInverse(w, key.iv, BlocksOf(t, n), BlocksOf(c, n));
    DecryptsUnique(w, key.iv, BlocksOf(c, n), BlocksOf(s, n), BlocksOf(t, n));
    SameBuffer(s, t, n);
  }

  /** A message has one ciphertext, and a ciphertext has one message. */
  lemma OneToOne(key: Key, p: Bytes, c: Bytes, q: Bytes, d: Bytes)
    requires ValidKey(key) && IsEncryption(key, p, c) && IsEncryption(key, q, d)
    ensures p == q <==> c == d
  {
    hide EncryptsBuffer, Pads;
    var s :| Pads(p, s) && EncryptsBuffer(key, s, c);
    var t :| Pads(q, t) && EncryptsBuffer(key, t, d);
    if p == q {
      PadsUnique(p, s, t);
      EncryptsBufferUnique(key, s, c, d);
    }
    if c == d {
      DecryptsBufferUnique(key, s, t, c);
      UnpadsUnique(p, q, s);
    }
  }

  // ---------- buffers ----------

  /** A null size pointer is None. */
  predicate Usable(key: Key, buf: array?<Byte>, size: Option<nat>) {
    key.isAvailable && buf != null && size.Some? && size.value != 0
  }

  method EncryptArray(key: Key, buf: array?<Byte>, bufSize: Option<nat>) returns (ok: bool, newSize: Option<nat>)
    requires ValidKey(key)
    requires Usable(key, buf, bufSize) ==> GetEncryptedSize(bufSize.value) <= buf.Length
    modifies buf
    ensures ok <==> Usable(key, buf, bufSize)
    ensures !ok ==> newSize == bufSize && (buf != null ==> buf[..] == old(buf[..]))
    ensures ok ==> newSize == Some(GetEncryptedSize(bufSize.value))
    ensures ok ==> IsEncryption(key, old(buf[..bufSize.value]), buf[..newSize.value])
    ensures ok ==> buf[newSize.value..] == old(buf[newSize.value..])
  {
    hide ExpandedKey, Encrypts, BlocksOf, IsEncryption;
    if !key.isAvailable || buf == null || bufSize == None || bufSize.value == 0 {
      return false, bufSize;
    }
    var size := bufSize.value;
    var encSize := GetEncryptedSize(size);
    var padding := (encSize - size) as Byte;
    for i := size to encSize
      invariant buf[..size] == old(buf[..size]) && buf[encSize..] == old(buf[encSize..])
      invariant forall k :: size <= k < i ==> buf[k] == padding
    {
      buf[i] := padding;
    }
    ghost var padded := buf[..];
    TransformCBC(key.key, key.iv, buf, encSize / BLOCK_SIZE);
    Encrypted(key, old(buf[..size]), padded, buf[..], encSize);
    return true, Some(encSize);
  }

  lemma Encrypted(key: Key, p: Bytes, padded: Bytes, now: Bytes, n: nat)
    requires ValidKey(key) && p != [] && n % 16 == 0 && |p| < n <= |p| + 16 && n <= |padded| == |now|
    requires padded[..|p|] == p && forall k :: |p| <= k < n ==> padded[k] == (n - |p|) as Byte
    requires Encrypts(ExpandedKey(key.key), key.iv, BlocksOf(padded, n / 16), BlocksOf(now, n / 16))
    ensures IsEncryption(key, p, now[..n])
  {
    hide ExpandedKey, Encrypts;
    var s := padded[..n];
    assert Pads(p, s) by { assert s[..|p|] == padded[..|p|]; }
    PrefixBlocks(padded, n);
    PrefixBlocks(now, n);
    assert EncryptsBuffer(key, s, now[..n]);
  }

  lemma PrefixBlocks(s: Bytes, n: nat)
    requires n <= |s| && n % 16 == 0
    ensures BlocksOf(s[..n], n / 16) == BlocksOf(s, n / 16)
  {
    forall i | 0 <= i < n / 16 ensures BlockAt(s[..n], i) == BlockAt(s, i) {}
  }

  /** Decrypting a buffer is finding the one buffer that encrypts to it. */
  method DecryptBlocks(key: Key, buf: array<Byte>, size: nat)
    requires ValidKey(key) && size <= buf.Length && size % BLOCK_SIZE == 0
    modifies buf
    ensures EncryptsBuffer(key, buf[..size], old(buf[..size])) && buf[size..] == old(buf[size..])
  {
    hide ExpandedKey, Encrypts, Decrypts, BlocksOf;
    InverseTransformCBC(key.key, key.iv, buf, size / BLOCK_SIZE);
    var n := size / 16;
    CbcInverse(ExpandedKey(key.key), key.iv, BlocksOf(buf[..], n), BlocksOf(old(buf[..]), n));
    PrefixBlocks(buf[..], size);
    PrefixBlocks(old(buf[..]), size);
    assert old(buf[..])[..size] == old(buf[..size]) && buf[..][..size] == buf[..size];
  }

  /** c is somebody's encryption if and only if the buffer it decrypts to is padded. */
  lemma DecryptionMeans(key: Key, p: Bytes, s: Bytes, c: Bytes)
    requires ValidKey(key) && EncryptsBuffer(key, s, c)
    ensures IsEncryption(key, p, c) <==> p != [] && Pads(p, s)
  {
    hide Pads, EncryptsBuffer;
    if IsEncryption(key, p, c) {
      var t :| Pads(p, t) && EncryptsBuffer(key, t, c);
      DecryptsBufferUnique(key, s, t, c);
    }
  }

  /** Where the padding ends the message, if the last bytes are a padding of a non-empty message. */
  method FindMessage(buf: array<Byte>, size: nat) returns (ok: bool, length: nat)
    requires 0 < size <= buf.Length && size % BLOCK_SIZE == 0
    ensures ok <==> exists p :: p != [] && Pads(p, buf[..size])
    ensures ok ==> 0 < length <= size && Pads(buf[..length], buf[..size])
  {
    hide Pads;
    ghost var s := buf[..size];
    var padding := buf[size - 1];
    var paddingSize := padding as nat;
    if padding == 0 || paddingSize > BLOCK_SIZE || size <= paddingSize {
      forall p | p != [] ensures !Pads(p, s) { if Pads(p, s) { LastByte(p, s); assert false; } }
      return false, 0;
    }
    for i := size - paddingSize to size
      invariant forall k :: size - paddingSize <= k < i ==> s[k] == padding
    {
      if buf[i] != padding {
        assert s[i] != s[|s| - 1];
        forall p | p != [] ensures !Pads(p, s) { if Pads(p, s) { LastByte(p, s); assert false; } }
        return false, 0;
      }
    }
    length := size - paddingSize;
    IsPadded(s, length);
    assert buf[..length] == s[..length];
    ok := true;
  }

  lemma LastByte(p: Bytes, s: Bytes)
    requires Pads(p, s)
    ensures s[|s| - 1] as nat == |s| - |p| && s[|s| - 1] != 0 && s[|s| - 1] as nat <= BLOCK_SIZE
    ensures forall k :: |p| <= k < |s| ==> s[k] == s[|s| - 1]
  {
    forall k | |p| <= k < |s| ensures s[k] == s[|s| - 1] { SameByte(s[k], s[|s| - 1]); }
  }

  lemma IsPadded(s: Bytes, n: nat)
    requires n < |s| <= n + BLOCK_SIZE && |s| % BLOCK_SIZE == 0
    requires forall k :: n <= k < |s| ==> s[k] as nat == |s| - n
    ensures Pads(s[..n], s)
  {
  }

  method DecryptArray(key: Key, buf: array?<Byte>, bufSize: Option<nat>) returns (ok: bool, newSize: Option<nat>)
    requires ValidKey(key)
    requires Usable(key, buf, bufSize) ==> bufSize.value <= buf.Length
    modifies buf
    ensures ok <==> Usable(key, buf, bufSize) && exists p :: IsEncryption(key, p, old(buf[..bufSize.value]))
    ensures ok ==> newSize.Some? && newSize.value < bufSize.value
                   && IsEncryption(key, buf[..newSize.value], old(buf[..bufSize.value]))
    ensures !ok ==> newSize == bufSize
    // The buffer is decrypted before its padding is looked at, so a failure changes it too.
    ensures Usable(key, buf, bufSize) && bufSize.value % BLOCK_SIZE == 0 ==>
              && EncryptsBuffer(key, buf[..bufSize.value], old(buf[..bufSize.value]))
              && buf[bufSize.value..] == old(buf[bufSize.value..])
    ensures buf != null && !(Usable(key, buf, bufSize) && bufSize.value % BLOCK_SIZE == 0) ==> buf[..] == old(buf[..])
  {
    hide EncryptsBuffer, Pads;
    if !key.isAvailable || buf == null || bufSize == None || bufSize.value == 0 {
      return false, bufSize;
    }
    var size := bufSize.value;
    ghost var c := buf[..size];
    if size < BLOCK_SIZE || size % BLOCK_SIZE != 0 {
      NotBlocks(key, c);
      return false, bufSize;
    }
    DecryptBlocks(key, buf, size);
    var length;
    ok, length := FindMessage(buf, size);
    forall p ensures IsEncryption(key, p, c) <==> p != [] && Pads(p, buf[..size]) {
      DecryptionMeans(key, p, buf[..size], c);
    }
    if ok { PaddedIsShorter(buf[..length], buf[..size]); }
    newSize := if ok then Some(length) else bufSize;
  }

  lemma PaddedIsShorter(p: Bytes, s: Bytes)
    requires Pads(p, s)
    ensures |p| < |s|
  {
  }

  lemma NotBlocks(key: Key, c: Bytes)
    requires ValidKey(key) && |c| % BLOCK_SIZE != 0
    ensures !exists p :: IsEncryption(key, p, c)
  {
    hide Encrypts, Pads, ExpandedKey;
  }

  // ---------- strings ----------

  predicate HasText(data: Option<Bytes>) {
    data.Some? && data.value != []
  }

  /** `std::string::resize` to a greater or equal size: zero bytes are appended. */
  function Resized(data: Bytes, size: nat): (r: Bytes)
    requires |data| <= size
    ensures |r| == size && data <= r && forall i :: |data| <= i < size ==> r[i] == 0
  {
    data + seq(size - |data|, _ => 0)
  }

  /** A null string pointer is None. */
  method EncryptString(key: Key, data: Option<Bytes>) returns (ok: bool, newData: Option<Bytes>)
    requires ValidKey(key)
    ensures ok <==> key.isAvailable && HasText(data)
    ensures ok ==> newData.Some? && |newData.value| == GetEncryptedSize(|data.value|)
    ensures ok ==> IsEncryption(key, data.value, newData.value)
    // Without a key the string has already been resized.
    ensures !ok ==> newData == if HasText(data) then Some(Resized(data.value, GetEncryptedSize(|data.value|))) else data
  {
    hide IsEncryption;
    if data == None || data.value == [] {
      return false, data;
    }
    var size := |data.value|;
    var resized := Resized(data.value, GetEncryptedSize(size));
    var buf := new Byte[|resized|](i requires 0 <= i < |resized| => resized[i]);
    assert buf[..] == resized && buf[..size] == data.value;
    var newSize;
    ok, newSize := EncryptArray(key, buf, Some(size));
    assert ok ==> buf[..newSize.value] == buf[..];
    newData := Some(buf[..]);
  }

  method DecryptString(key: Key, data: Option<Bytes>) returns (ok: bool, newData: Option<Bytes>)
    requires ValidKey(key)
    ensures ok <==> key.isAvailable && data.Some? && exists p :: IsEncryption(key, p, data.value)
    ensures ok ==> newData.Some? && IsEncryption(key, newData.value, data.value)
    // A refused string of whole blocks is left decrypted, any other is left alone.
    ensures !ok && key.isAvailable && HasText(data) && |data.value| % BLOCK_SIZE == 0 ==>
              newData.Some? && EncryptsBuffer(key, newData.value, data.value)
    ensures !ok && !(key.isAvailable && HasText(data) && |data.value| % BLOCK_SIZE == 0) ==> newData == data
  {
    hide IsEncryption, EncryptsBuffer;
    if data == None || data.value == [] {
      if data == Some([]) { NoEmptyEncryption(key); }
      return false, data;
    }
    var text := data.value;
    var buf := new Byte[|text|](i requires 0 <= i < |text| => text[i]);
    assert buf[..] == text && buf[..|text|] == text;
    var newSize;
    ok, newSize := DecryptArray(key, buf, Some(|text|));
    assert buf[..|text|] == buf[..];
    newData := if ok then Some(buf[..newSize.value]) else Some(buf[..]);
  }

  lemma NoEmptyEncryption(key: Key)
    requires ValidKey(key)
    ensures !exists p :: IsEncryption(key, p, [])
  {
    hide Encrypts, ExpandedKey;
  }

  /** Every non-empty string comes back under every available key. */
  method EncryptAndDecryptString(key: Key, text: Bytes) returns (cipher: Bytes, back: Bytes)
    requires ValidKey(key) && key.isAvailable && text != []
    ensures IsEncryption(key, text, cipher) && |cipher| == GetEncryptedSize(|text|) && back == text
  {
    hide IsEncryption, EncryptsBuffer;
    var encrypted, c := EncryptString(key, Some(text));
    var decrypted, p := DecryptString(key, c);
    OneToOne(key, text, c.value, p.value, c.value);
    return c.value, p.value;
  }

  /** Every ciphertext that is accepted is exactly what encrypting its message gives. */
  method DecryptAndEncryptString(key: Key, cipher: Bytes) returns (accepted: bool, back: Bytes)
    requires ValidKey(key) && key.isAvailable
    ensures accepted <==> exists p :: IsEncryption(key, p, cipher)
    ensures accepted ==> back == cipher
  {
    hide EncryptsBuffer;
    var p;
    accepted, p := DecryptString(key, Some(cipher));
    back := [];
    if accepted {
      var encrypted, c := EncryptString(key, p);
      OneToOne(key, p.value, c.value, p.value, cipher);
      back := c.value;
    }
  }
}
