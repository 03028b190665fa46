/**
 The encrypted envelope (crypto/aesCBC.go): padding, CBC chaining around a block cipher that is
 only known to be a permutation per key, and a text encoding around the result.
 */
module Envelope {
  import opened Wrappers
  import opened Encodings

  const BLOCK_SIZE: nat := 16

  type Bytes = seq<Byte>

  /** The block cipher. Keys of other lengths than 16, 24 and 32 are refused. */
  datatype Cipher = Cipher(encrypt: (Bytes, Bytes) -> Bytes, decrypt: (Bytes, Bytes) -> Bytes)
  {
    ghost predicate Valid() {
      forall key: Bytes, b: Bytes | |b| == BLOCK_SIZE ::
        |encrypt(key, b)| == BLOCK_SIZE && |decrypt(key, b)| == BLOCK_SIZE && decrypt(key, encrypt(key, b)) == b
    }
  }

  predicate KeyLength(key: Bytes) {
    |key| == 16 || |key| == 24 || |key| == 32
  }

  // ---------- Padding ----------

  function Repeat(b: Byte, n: nat): Bytes {
    seq(n, i requires 0 <= i < n => b)
  }

  function PadLength(length: nat, blockSize: nat): Byte
    requires blockSize > 0
  {
    (blockSize - length % blockSize) % 256
  }

  function Padded(plaintext: Bytes, blockSize: nat): Bytes
    requires blockSize > 0
  {
    var n := PadLength(|plaintext|, blockSize);
    plaintext + Repeat(n, n)
  }

  method Pkcs5Padding(plaintext: Bytes, blockSize: nat) returns (padded: Bytes)
    requires blockSize > 0
    ensures padded == Padded(plaintext, blockSize)
  {
    padded := plaintext;
    var n := PadLength(|plaintext|, blockSize);
    for i := 0 to n
      invariant padded == plaintext + Repeat(n, i)
    {
      padded := padded + [n];
    }
  }

  /** o is what r holds before a padding of n bytes n, where n is the last byte of r. */
  predicate IsPadded(r: Bytes, o: Bytes) {
    r != [] && r == o + Repeat(r[|r| - 1], r[|r| - 1])
  }

  /** Unpadding succeeds exactly on padded inputs, and returns what was padded. */
  method Pkcs5UnPadding(r: Bytes) returns (o: Result<Bytes>)
    ensures o == UnPadded(r)
  {
    var l := |r|;
    if l == 0 {
      return Err("input padded bytes is empty");
    }
    var last := r[l - 1];
    if l - last < 0 {
      return Err("input padded bytes is invalid");
    }
    var pad := r[l - last..l];
    var isPad := true;
    for i := 0 to |pad|
      invariant isPad && pad[..i] == Repeat(last, i)
    {
      if pad[i] != last {
        isPad := false;
        assert pad[i] != Repeat(last, last)[i];
        break;
      }
      assert pad[..i + 1] == pad[..i] + [last];
    }
    if !isPad {
      return Err("remove pad error");
    }
    assert pad[..|pad|] == pad;
    return Ok(r[..l - last]);
  }

  function UnPadded(r: Bytes): Result<Bytes> {
    if r == [] then Err("input padded bytes is empty")
    else
      var n := r[|r| - 1];
      if n > |r| then Err("input padded bytes is invalid")
      else if r[|r| - n..] != Repeat(n, n) then Err("remove pad error")
      else Ok(r[..|r| - n])
  }

  lemma UnPaddedIff(r: Bytes, o: Bytes)
    ensures UnPadded(r) == Ok(o) <==> IsPadded(r, o)
  {
    if r != [] {
      var n := r[|r| - 1];
      if n <= |r| {
        assert r == r[..|r| - n] + r[|r| - n..];
      }
      if IsPadded(r, o) {
        assert r[..|r| - n] == o && r[|r| - n..] == Repeat(n, n);
      }
    }
  }

  /** Padding can be taken off again, for every block size that a padding byte can name. */
  lemma PaddingRoundTrip(plaintext: Bytes, blockSize: nat)
    requires 0 < blockSize < 256
    ensures UnPadded(Padded(plaintext, blockSize)) == Ok(plaintext)
  {
    UnPaddedIff(Padded(plaintext, blockSize), plaintext);
  }

  /** Padding fills up to whole blocks, and always adds something. */
  lemma PaddedToBlocks(plaintext: Bytes)
    ensures |Padded(plaintext, BLOCK_SIZE)| % BLOCK_SIZE == 0
    ensures |plaintext| < |Padded(plaintext, BLOCK_SIZE)| <= |plaintext| + BLOCK_SIZE
  {
  }

  // ---------- Chaining ----------

  function XorBits(a: nat, b: nat, bits: nat): nat {
    if bits == 0 then 0 else (if a % 2 == b % 2 then 0 else 1) + 2 * XorBits(a / 2, b / 2, bits - 1)
  }

  lemma {:induction false} XorInvolution(a: nat, b: nat, bits: nat, limit: nat)
    requires limit == Power2(bits) && a < limit
    ensures XorBits(a, b, bits) < limit && XorBits(XorBits(a, b, bits), b, bits) == a
    decreases bits
  {
    if bits > 0 {
      XorInvolution(a / 2, b / 2, bits - 1, limit / 2);
      var x := XorBits(a, b, bits);
      assert x / 2 == XorBits(a / 2, b / 2, bits - 1);
      assert x % 2 == b % 2 <==> a % 2 == 0;
    }
  }

  function Power2(n: nat): nat {
    if n == 0 then 1 else 2 * Power2(n - 1)
  }

  function Xor(a: Byte, b: Byte): Byte {
    XorBits(a, b, 8) % 256
  }

  lemma XorTwice(a: Byte, b: Byte)
    ensures Xor(Xor(a, b), b) == a
  {
    Power2OfEight();
    XorBack(a, b, 8);
  }

  lemma Power2OfEight()
    ensures Power2(8) == 256
  {
    assert Power2(2) == 4 && Power2(4) == 16 && Power2(6) == 64;
  }

  lemma XorBack(a: Byte, b: Byte, bits: nat)
    requires Power2(bits) == 256
    ensures XorBits(XorBits(a, b, bits) % 256, b, bits) % 256 == a
  {
    var x := XorBits(a, b, bits);
    XorInvolution(a, b, bits, 256);
    assert x % 256 == x && XorBits(x, b, bits) == a;
  }

  function XorBlock(a: Bytes, b: Bytes): Bytes
    requires |a| == |b|
  {
    seq(|a|, i requires 0 <= i < |a| => Xor(a[i], b[i]))
  }

  lemma XorBlockTwice(a: Bytes, b: Bytes)
    requires |a| == |b|
    ensures XorBlock(XorBlock(a, b), b) == a
  {
    forall i | 0 <= i < |a| ensures XorBlock(XorBlock(a, b), b)[i] == a[i] {
      XorTwice(a[i], b[i]);
    }
  }

  /** CBC, section 6.2 of NIST SP 800-38A: each block is combined with the ciphertext before it. */
  function Chain(cipher: Cipher, key: Bytes, iv: Bytes, plain: Bytes): (c: Bytes)
    requires cipher.Valid() && |iv| == BLOCK_SIZE && |plain| % BLOCK_SIZE == 0
    ensures |c| == |plain|
    decreases |plain|
  {
    if plain == [] then []
    else
      var c := cipher.encrypt(key, XorBlock(plain[..BLOCK_SIZE], iv));
      c + Chain(cipher, key, c, plain[BLOCK_SIZE..])
  }

  function Unchain(cipher: Cipher, key: Bytes, iv: Bytes, text: Bytes): (p: Bytes)
    requires cipher.Valid() && |iv| == BLOCK_SIZE && |text| % BLOCK_SIZE == 0
    ensures |p| == |text|
    decreases |text|
  {
    if text == [] then []
    else
      var c := text[..BLOCK_SIZE];
      XorBlock(cipher.decrypt(key, c), iv) + Unchain(cipher, key, c, text[BLOCK_SIZE..])
  }

  lemma {:induction false} ChainRoundTrip(cipher: Cipher, key: Bytes, iv: Bytes, plain: Bytes)
    requires cipher.Valid() && |iv| == BLOCK_SIZE && |plain| % BLOCK_SIZE == 0
    ensures Unchain(cipher, key, iv, Chain(cipher, key, iv, plain)) == plain
    decreases |plain|
  {
    if plain != [] {
      var first, rest := plain[..BLOCK_SIZE], plain[BLOCK_SIZE..];
      var c := cipher.encrypt(key, XorBlock(first, iv));
      var text := Chain(cipher, key, iv, plain);
      assert text[..BLOCK_SIZE] == c && text[BLOCK_SIZE..] == Chain(cipher, key, c, rest);
      XorBlockTwice(first, iv);
      ChainRoundTrip(cipher, key, c, rest);
      assert plain == first + rest;
    }
  }

  // ---------- The envelope ----------

  /** iv is what the random source delivers. */
  function Encrypted(cipher: Cipher, key: Bytes, iv: Bytes, plaintext: Bytes, useBase64: seq<bool>): Result<Bytes>
    requires cipher.Valid() && |iv| == BLOCK_SIZE
  {
    if !KeyLength(key) then Err("crypto/aes: invalid key size")
    else
      PaddedToBlocks(plaintext);
      Ok(Encode(iv + Chain(cipher, key, iv, Padded(plaintext, BLOCK_SIZE)), useBase64))
  }

  function Decrypted(cipher: Cipher, key: Bytes, text: Bytes, useBase64: seq<bool>): Result<Bytes>
    requires cipher.Valid()
  {
    var data := Decode(text, useBase64);
    if data.Err? then data
    else if |data.value| < BLOCK_SIZE then Err("ciphertext too short")
    else if (|data.value| - BLOCK_SIZE) % BLOCK_SIZE != 0 then Err("ciphertext is not a multiple of the block size")
    else if !KeyLength(key) then Err("crypto/aes: invalid key size")
    else UnPadded(Unchain(cipher, key, data.value[..BLOCK_SIZE], data.value[BLOCK_SIZE..]))
  }

  method AesCbcEncrypt(cipher: Cipher, key: Bytes, iv: Bytes, plaintext: Bytes, useBase64: seq<bool>) returns (r: Result<Bytes>)
    requires cipher.Valid() && |iv| == BLOCK_SIZE
    ensures r == Encrypted(cipher, key, iv, plaintext, useBase64)
  {
    if !KeyLength(key) {
      return Err("crypto/aes: invalid key size");
    }
    var padded := Pkcs5Padding(plaintext, BLOCK_SIZE);
    PaddedToBlocks(plaintext);
    return Ok(Encode(iv + Chain(cipher, key, iv, padded), useBase64));
  }

  method AesCbcDecrypt(cipher: Cipher, key: Bytes, text: Bytes, useBase64: seq<bool>) returns (r: Result<Bytes>)
    requires cipher.Valid()
    ensures r == Decrypted(cipher, key, text, useBase64)
  {
    var data := Decode(text, useBase64);
    if data.Err? {
      return data;
    }
    if |data.value| < BLOCK_SIZE {
      return Err("ciphertext too short");
    }
    var iv, ciphertext := data.value[..BLOCK_SIZE], data.value[BLOCK_SIZE..];
    if |ciphertext| % BLOCK_SIZE != 0 {
      return Err("ciphertext is not a multiple of the block size");
    }
    if !KeyLength(key) {
      return Err("crypto/aes: invalid key size");
    }
    r := Pkcs5UnPadding(Unchain(cipher, key, iv, ciphertext));
  }

  /** Decryption finds the IV and the blocks that were encoded. */
  lemma ReadBack(cipher: Cipher, key: Bytes, iv: Bytes, blocks: Bytes, useBase64: seq<bool>)
    requires cipher.Valid() && |iv| == BLOCK_SIZE && |blocks| % BLOCK_SIZE == 0 && KeyLength(key)
    ensures Decrypted(cipher, key, Encode(iv + blocks, useBase64), useBase64) == UnPadded(Unchain(cipher, key, iv, blocks))
  {
    EncodingRoundTrip(iv + blocks, useBase64);
    assert (iv + blocks)[..BLOCK_SIZE] == iv && (iv + blocks)[BLOCK_SIZE..] == blocks;
  }

  /** Decrypting an encryption returns the plaintext: for every plaintext, key, IV and encoding. */
  lemma EnvelopeRoundTrip(cipher: Cipher, key: Bytes, iv: Bytes, plaintext: Bytes, useBase64: seq<bool>)
    requires cipher.Valid() && |iv| == BLOCK_SIZE
    ensures Encrypted(cipher, key, iv, plaintext, useBase64).Ok? <==> KeyLength(key)
    ensures KeyLength(key) ==> Decrypted(cipher, key, Encrypted(cipher, key, iv, plaintext, useBase64).value, useBase64) == Ok(plaintext)
  {
    if KeyLength(key) {
      var padded := Padded(plaintext, BLOCK_SIZE);
      PaddedToBlocks(plaintext);
      ReadBack(cipher, key, iv, Chain(cipher, key, iv, padded), useBase64);
      ChainRoundTrip(cipher, key, iv, padded);
      PaddingRoundTrip(plaintext, BLOCK_SIZE);
    }
  }

  /** Equal envelopes come from equal IVs and plaintexts: an envelope made again with a fresh IV is a different one. */
  lemma EnvelopeInjective(cipher: Cipher, key: Bytes, iv: Bytes, p: Bytes, iv': Bytes, p': Bytes, useBase64: seq<bool>)
    requires cipher.Valid() && |iv| == BLOCK_SIZE && |iv'| == BLOCK_SIZE && KeyLength(key)
    requires Encrypted(cipher, key, iv, p, useBase64) == Encrypted(cipher, key, iv', p', useBase64)
    ensures iv == iv' && p == p'
  {
    EnvelopeRoundTrip(cipher, key, iv, p, useBase64);
    EnvelopeRoundTrip(cipher, key, iv', p', useBase64);
    PaddedToBlocks(p);
    PaddedToBlocks(p');
    var a := iv + Chain(cipher, key, iv, Padded(p, BLOCK_SIZE));
    var b := iv' + Chain(cipher, key, iv', Padded(p', BLOCK_SIZE));
    EncodingRoundTrip(a, useBase64);
    EncodingRoundTrip(b, useBase64);
    assert a == b && a[..BLOCK_SIZE] == iv && b[..BLOCK_SIZE] == iv';
  }
}
