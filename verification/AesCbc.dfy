/** Encrypting and decrypting with AES in CBC mode (section 6.2 of NIST SP 800-38A), padding as in section 6.3 of
    RFC 5652, on the byte buffers the code works on. The block cipher is any per-key bijection. */
module AesCbc {
  import Base64
  import opened GoStrings
  import opened Sequences
  import opened Wrappers

  const BLOCK: nat := 16

  type Block = b: seq<Byte> | |b| == BLOCK witness seq(BLOCK, i => 0)

  datatype Cipher = Cipher(enc: Block -> Block, dec: Block -> Block)

  /** The cipher of each key; keys of another length than 16, 24 or 32 are refused. */
  type Aes = GoString -> Cipher

  ghost predicate Bijection(c: Cipher) {
    forall b: Block :: c.dec(c.enc(b)) == b
  }

  predicate ValidKey(key: GoString) {
    |key| == 16 || |key| == 24 || |key| == 32
  }

  datatype Result = Ok(text: GoString) | Error | Panic

  function Pow2(n: nat): nat {
    if n == 0 then 1 else 2 * Pow2(n - 1)
  }

  /** Bitwise exclusive or of two numbers of so many bits. */
  function XorBits(a: nat, b: nat, bits: nat): (r: nat)
    requires a < Pow2(bits) && b < Pow2(bits)
    ensures r < Pow2(bits)
  {
    if bits == 0 then 0
    else (if a % 2 == b % 2 then 0 else 1) + 2 * XorBits(a / 2, b / 2, bits - 1)
  }

  lemma HalfAndLow(low: nat, high: nat)
    requires low < 2
    ensures (low + 2 * high) / 2 == high && (low + 2 * high) % 2 == low
  {
  }

  lemma {:induction false} XorBitsTwice(a: nat, b: nat, bits: nat)
    requires a < Pow2(bits) && b < Pow2(bits)
    ensures XorBits(XorBits(a, b, bits), b, bits) == a
  {
    if bits == 0 {
    } else {
      XorBitsTwice(a / 2, b / 2, bits - 1);
      var low, high := if a % 2 == b % 2 then 0 else 1, XorBits(a / 2, b / 2, bits - 1);
      HalfAndLow(low, high);
      assert XorBits(a, b, bits) == low + 2 * high;
    }
  }

  /** Bit k of a number, the lowest being bit 0. */
  function Bit(n: nat, k: nat): nat {
    if k == 0 then n % 2 else Bit(n / 2, k - 1)
  }

  /** A bit of the result is set exactly if it is set in one of the two alone. */
  lemma {:induction false} XorBitsBit(a: nat, b: nat, bits: nat, k: nat)
    requires a < Pow2(bits) && b < Pow2(bits) && k < bits
    ensures Bit(XorBits(a, b, bits), k) == 1 <==> Bit(a, k) != Bit(b, k)
  {
    var low, high := if a % 2 == b % 2 then 0 else 1, XorBits(a / 2, b / 2, bits - 1);
    HalfAndLow(low, high);
    assert XorBits(a, b, bits) == low + 2 * high;
    if k == 0 {
    } else {
      XorBitsBit(a / 2, b / 2, bits - 1, k - 1);
    }
  }

  function XorByte(a: Byte, b: Byte): Byte {
    assert Pow2(8) == 256 by { assert Pow2(4) == 16; }
    XorBits(a, b, 8)
  }

  lemma XorByteTwice(a: Byte, b: Byte)
    ensures XorByte(XorByte(a, b), b) == a
  {
    assert Pow2(8) == 256 by { assert Pow2(4) == 16; }
    XorBitsTwice(a, b, 8);
  }

  lemma XorByteBit(a: Byte, b: Byte, k: nat)
    requires k < 8
    ensures Bit(XorByte(a, b), k) == 1 <==> Bit(a, k) != Bit(b, k)
  {
    assert Pow2(8) == 256 by { assert Pow2(4) == 16; }
    XorBitsBit(a, b, 8, k);
  }

  function Xor(a: Block, b: Block): Block {
    seq(BLOCK, i requires 0 <= i < BLOCK => XorByte(a[i], b[i]))
  }

  lemma XorTwice(a: Block, b: Block)
    ensures Xor(Xor(a, b), b) == a
  {
    forall i | 0 <= i < BLOCK ensures Xor(Xor(a, b), b)[i] == a[i] {
      XorByteTwice(a[i], b[i]);
    }
  }

  // ---------- What the modes compute ----------

  /** n bytes make whole blocks. */
  predicate WholeLength(n: int) {
    n == 0 || (n >= BLOCK && WholeLength(n - BLOCK))
  }

  lemma {:induction false} WholeLengthIff(n: nat)
    ensures WholeLength(n) <==> n % BLOCK == 0
  {
    if n < BLOCK {
    } else {
      WholeLengthIff(n - BLOCK);
    }
  }

  predicate Whole(data: seq<Byte>) {
    WholeLength(|data|)
  }

  function CbcEncrypt(c: Cipher, iv: Block, data: seq<Byte>): (r: seq<Byte>)
    requires Whole(data)
    ensures |r| == |data|
    decreases |data|
  {
    if data == [] then []
    else
      var first := c.enc(Xor(data[..BLOCK], iv));
      first + CbcEncrypt(c, first, data[BLOCK..])
  }

  function CbcDecrypt(c: Cipher, iv: Block, data: seq<Byte>): (r: seq<Byte>)
    requires Whole(data)
    ensures |r| == |data|
    decreases |data|
  {
    if data == [] then []
    else Xor(c.dec(data[..BLOCK]), iv) + CbcDecrypt(c, data[..BLOCK], data[BLOCK..])
  }

  lemma {:induction false} CbcInverts(c: Cipher, iv: Block, data: seq<Byte>)
    requires Bijection(c) && Whole(data)
    ensures CbcDecrypt(c, iv, CbcEncrypt(c, iv, data)) == data
    decreases |data|
  {
    if data == [] {
    } else {
      var first := c.enc(Xor(data[..BLOCK], iv));
      var cipher := CbcEncrypt(c, iv, data);
      assert cipher[..BLOCK] == first && cipher[BLOCK..] == CbcEncrypt(c, first, data[BLOCK..]);
      CbcInverts(c, first, data[BLOCK..]);
      XorTwice(data[..BLOCK], iv);
      assert data == data[..BLOCK] + data[BLOCK..];
    }
  }

  /** The cipher block at position p. */
  function BlockAt(data: seq<Byte>, p: nat): Block
    requires p + BLOCK <= |data|
  {
    data[p..p + BLOCK]
  }

  lemma LaterBlock(first: Block, rest: seq<Byte>, p: nat)
    requires BLOCK <= p && p <= |rest|
    ensures BlockAt(first + rest, p) == BlockAt(rest, p - BLOCK)
  {
    assert (first + rest)[p..p + BLOCK] == rest[p - BLOCK..p];
  }

  /** The cipher block at p enciphers the plain block there combined with the cipher block before. */
  predicate Chained(c: Cipher, iv: Block, data: seq<Byte>, cipher: seq<Byte>, p: nat)
    requires (p == 0 || p >= BLOCK) && p + BLOCK <= |data| == |cipher|
  {
    BlockAt(cipher, p) == c.enc(Xor(BlockAt(data, p), if p == 0 then iv else BlockAt(cipher, p - BLOCK)))
  }

  lemma ChainedLater(c: Cipher, iv: Block, plain: Block, rest: seq<Byte>, first: Block, cipherRest: seq<Byte>, p: nat)
    requires (p == BLOCK || p >= 2 * BLOCK) && p <= |rest| == |cipherRest|
    requires Chained(c, first, rest, cipherRest, p - BLOCK)
    ensures Chained(c, iv, plain + rest, first + cipherRest, p)
  {
    LaterBlock(plain, rest, p);
    LaterBlock(first, cipherRest, p);
    if p == BLOCK {
      assert BlockAt(first + cipherRest, 0) == first;
    } else {
      LaterBlock(first, cipherRest, p - BLOCK);
    }
  }

  /** Block by block, as the standard defines the mode: each plain block is combined with the cipher block before
      it, the first with the vector, and enciphered. */
  lemma {:induction false} ChainsBlocks(c: Cipher, iv: Block, data: seq<Byte>, p: nat)
    requires Whole(data) && WholeLength(p) && p + BLOCK <= |data|
    ensures Chained(c, iv, data, CbcEncrypt(c, iv, data), p)
    decreases p
  {
    var plain, rest := data[..BLOCK], data[BLOCK..];
    var first := c.enc(Xor(plain, iv));
    assert CbcEncrypt(c, iv, data) == first + CbcEncrypt(c, first, rest) && data == plain + rest;
    if p == 0 {
    } else {
      assert p == BLOCK || p >= 2 * BLOCK;
      ChainsBlocks(c, first, rest, p - BLOCK);
      ChainedLater(c, iv, plain, rest, first, CbcEncrypt(c, first, rest), p);
    }
  }

  function Padding(n: nat): (p: Byte)
    ensures 1 <= p <= BLOCK && WholeLength(n + p)
  {
    WholeLengthIff(n + BLOCK - n % BLOCK);
    BLOCK - n % BLOCK
  }

  function Pad(data: seq<Byte>): (r: seq<Byte>)
    ensures Whole(r) && |r| == |data| + Padding(|data|) && data <= r
    ensures forall i | |data| <= i < |r| :: r[i] as int == |r| - |data|
  {
    data + seq(Padding(|data|), i => Padding(|data|))
  }

  /** What unpadding the last byte says. */
  function Unpad(data: seq<Byte>): Result {
    if data == [] then Panic
    else
      var padding := data[|data| - 1] as int;
      if padding > |data| then Panic else Ok(data[..|data| - padding])
  }

  lemma UnpadInvertsPad(data: seq<Byte>)
    ensures Unpad(Pad(data)) == Ok(data)
  {
    assert Pad(data)[..|data|] == data;
  }

  function Encrypted(aes: Aes, key: GoString, iv: Block, original: GoString): Result {
    if !ValidKey(key) then Error
    else Ok(Base64.Encode(iv + CbcEncrypt(aes(key), iv, Pad(original))))
  }

  function Decrypted(aes: Aes, key: GoString, text: GoString): Result {
    var raw := Base64.Decode(text);
    if raw.None? || !ValidKey(key) then Error
    else if |raw.value| < BLOCK || !Whole(raw.value) then Panic
    else Unpad(CbcDecrypt(aes(key), raw.value[..BLOCK], raw.value[BLOCK..]))
  }

  predicate WholeRest(raw: seq<Byte>) {
    |raw| >= BLOCK && Whole(raw[BLOCK..])
  }

  lemma RawUndone(c: Cipher, iv: Block, original: GoString, raw: seq<Byte>)
    requires Bijection(c) && raw == iv + CbcEncrypt(c, iv, Pad(original))
    ensures |raw| >= BLOCK && Whole(raw)
    ensures Unpad(CbcDecrypt(c, raw[..BLOCK], raw[BLOCK..])) == Ok(original)
  {
    var padded := Pad(original);
    var cipher := CbcEncrypt(c, iv, padded);
    assert raw[..BLOCK] == iv && raw[BLOCK..] == cipher;
    CbcInverts(c, iv, padded);
    UnpadInvertsPad(original);
  }

  /** Decryption undoes encryption for every byte string, every valid key and every initialisation vector. */
  lemma DecryptUndoesEncrypt(aes: Aes, key: GoString, iv: Block, original: GoString)
    requires Bijection(aes(key)) && ValidKey(key)
    ensures Encrypted(aes, key, iv, original).Ok?
    ensures Decrypted(aes, key, Encrypted(aes, key, iv, original).text) == Ok(original)
  {
    var raw := iv + CbcEncrypt(aes(key), iv, Pad(original));
    RawUndone(aes(key), iv, original, raw);
    Base64.DecodeInvertsEncode(raw);
  }

  /** The raw ciphertext is the vector and the enciphered padded text: one block more than the text fills, and one for
      the vector; base64 makes four characters of every three bytes begun. */
  lemma CiphertextLength(aes: Aes, key: GoString, iv: Block, original: GoString)
    requires ValidKey(key)
    ensures var raw := 16 * (|original| / 16 + 2);
            var text := Encrypted(aes, key, iv, original).text;
            && Base64.Decode(text).Some? && |Base64.Decode(text).value| == raw
            && |text| == (raw + 2) / 3 * 4
            && Base64.Decode(text).value[..16] == iv
            && Base64.Decode(text).value[16..] == CbcEncrypt(aes(key), iv, Pad(original))
  {
    var raw := iv + CbcEncrypt(aes(key), iv, Pad(original));
    assert |raw| == 16 * (|original| / 16 + 2);
    Base64.EncodedChars(raw);
    Base64.DecodeInvertsEncode(raw);
  }

  // ---------- The code, on buffers ----------

  method WriteBlock(buffer: array<Byte>, p: nat, block: Block)
    requires p + BLOCK <= buffer.Length
    modifies buffer
    ensures buffer[..] == old(buffer[..])[..p] + block + old(buffer[..])[p + BLOCK..]
  {
    forall i | 0 <= i < BLOCK {
      buffer[p + i] := block[i];
    }
    assert buffer[..] == buffer[..p] + buffer[p..p + BLOCK] + buffer[p + BLOCK..];
  }

  /** One block more, seen from the front. */
  lemma EncryptStep(c: Cipher, previous: Block, src: seq<Byte>, n: nat)
    requires n < |src| && WholeLength(|src| - n)
    ensures n + BLOCK <= |src|
    ensures var block := c.enc(Xor(src[n..n + BLOCK], previous));
            CbcEncrypt(c, previous, src[n..]) == block + CbcEncrypt(c, block, src[n + BLOCK..])
  {
    var rest := src[n..];
    assert rest[..BLOCK] == src[n..n + BLOCK] && rest[BLOCK..] == src[n + BLOCK..];
  }

  /** One block more, seen from the back. */
  lemma DecryptStep(c: Cipher, cipher: seq<Byte>, n: nat)
    requires 2 * BLOCK <= n <= |cipher| && WholeLength(|cipher| - n)
    ensures var previous, current := cipher[n - 2 * BLOCK..n - BLOCK], cipher[n - BLOCK..n];
            CbcDecrypt(c, previous, cipher[n - BLOCK..]) ==
            Xor(c.dec(current), previous) + CbcDecrypt(c, current, cipher[n..])
  {
    var rest := cipher[n - BLOCK..];
    assert rest[..BLOCK] == cipher[n - BLOCK..n] && rest[BLOCK..] == cipher[n..];
  }

  /** The buffer when all but its first n bytes are decrypted. */
  ghost predicate DecryptedFrom(c: Cipher, cipher: seq<Byte>, n: nat, buffer: seq<Byte>) {
    BLOCK <= n <= |cipher| && WholeLength(n - BLOCK) && WholeLength(|cipher| - n) &&
    buffer == cipher[..n] + CbcDecrypt(c, cipher[n - BLOCK..n], cipher[n..])
  }

  /** Up to n the buffer is what it was, and beyond that what has been written. */
  lemma WhatIsRead(cipher: seq<Byte>, n: nat, done: seq<Byte>)
    requires 2 * BLOCK <= n <= |cipher|
    ensures var buffer := cipher[..n] + done;
            && buffer[n - BLOCK..n] == cipher[n - BLOCK..n]
            && buffer[n - 2 * BLOCK..n - BLOCK] == cipher[n - 2 * BLOCK..n - BLOCK]
            && buffer[..n - BLOCK] == cipher[..n - BLOCK] && buffer[n..] == done
  {
  }

  /** One block more: what is read is still cipher text, and what is written is its plain text. */
  lemma DecryptOneMore(c: Cipher, cipher: seq<Byte>, n: nat, buffer: seq<Byte>)
    requires DecryptedFrom(c, cipher, n, buffer) && n > BLOCK
    ensures 2 * BLOCK <= n <= |buffer|
    ensures var block := Xor(c.dec(buffer[n - BLOCK..n]), buffer[n - 2 * BLOCK..n - BLOCK]);
            DecryptedFrom(c, cipher, n - BLOCK, buffer[..n - BLOCK] + block + buffer[n..])
  {
    var done := CbcDecrypt(c, cipher[n - BLOCK..n], cipher[n..]);
    WhatIsRead(cipher, n, done);
    DecryptStep(c, cipher, n);
    Regroup(cipher[..n - BLOCK], Xor(c.dec(buffer[n - BLOCK..n]), buffer[n - 2 * BLOCK..n - BLOCK]), done);
  }

  /** The buffer begins with the vector; the cipher text of src fills the rest. */
  method CryptBlocksEncrypt(c: Cipher, buffer: array<Byte>, src: seq<Byte>)
    requires Whole(src) && BLOCK + |src| == buffer.Length
    modifies buffer
    ensures buffer[..] == old(buffer[..BLOCK]) + CbcEncrypt(c, old(buffer[..BLOCK]), src)
  {
    ghost var iv: Block := buffer[..BLOCK];
    var n := 0;
    assert src[0..] == src;
    while n < |src|
      invariant 0 <= n <= |src| && WholeLength(|src| - n)
      invariant iv + CbcEncrypt(c, iv, src) == buffer[..n + BLOCK] + CbcEncrypt(c, buffer[n..n + BLOCK], src[n..])
    {
      EncryptStep(c, buffer[n..n + BLOCK], src, n);
      ghost var done := buffer[..n + BLOCK];
      var block := c.enc(Xor(src[n..n + BLOCK], buffer[n..n + BLOCK]));
      WriteBlock(buffer, n + BLOCK, block);
      n := n + BLOCK;
      assert buffer[..n + BLOCK] == done + block && buffer[n..n + BLOCK] == block;
    }
    assert src[n..] == [] && buffer[..n + BLOCK] == buffer[..];
  }

  /** In place, from the last block to the first, so that each block's predecessor is still cipher text; the vector
      is the first block of the buffer. */
  method CryptBlocksDecrypt(c: Cipher, buffer: array<Byte>)
    requires BLOCK <= buffer.Length && WholeLength(buffer.Length)
    modifies buffer
    ensures buffer[..] == old(buffer[..BLOCK]) + CbcDecrypt(c, old(buffer[..BLOCK]), old(buffer[BLOCK..]))
  {
    ghost var cipher := buffer[..];
    var n := buffer.Length;
    assert cipher[n..] == [];
    while n > BLOCK
      invariant BLOCK <= n <= buffer.Length && DecryptedFrom(c, cipher, n, buffer[..])
    {
      DecryptOneMore(c, cipher, n, buffer[..]);
      var block := Xor(c.dec(buffer[n - BLOCK..n]), buffer[n - 2 * BLOCK..n - BLOCK]);
      assert buffer[n - BLOCK..n] == buffer[..][n - BLOCK..n];
      assert buffer[n - 2 * BLOCK..n - BLOCK] == buffer[..][n - 2 * BLOCK..n - BLOCK];
      WriteBlock(buffer, n - BLOCK, block);
      n := n - BLOCK;
    }
    assert cipher[n - BLOCK..n] == cipher[..BLOCK];
  }

  method EncryptAESCBC(aes: Aes, key: GoString, original: GoString, random: Option<Block>) returns (r: Result)
    ensures r == if random.Some? then Encrypted(aes, key, random.value, original) else Error
    ensures !r.Panic? && (r.Error? <==> random.None? || |key| !in {16, 24, 32})
  {
    if !ValidKey(key) { return Error; }
    var padding := BLOCK - |original| % BLOCK;
    var paddingText := original + seq(padding, i => padding as Byte);
    assert paddingText == Pad(original);
    var ciphertext := new Byte[BLOCK + |paddingText|](i => 0);
    if random.None? { return Error; }
    forall i | 0 <= i < BLOCK {
      ciphertext[i] := random.value[i];
    }
    assert ciphertext[..BLOCK] == random.value;
    CryptBlocksEncrypt(aes(key), ciphertext, paddingText);
    r := Ok(Base64.Encode(ciphertext[..]));
  }

  /** An error for text that is not base64 and for a key of another length; a panic for raw text that is shorter than
      the vector, or not whole blocks, or nothing but the vector, and for a last byte greater than the plain text is
      long; and otherwise the plain text without as many bytes as its last byte says, be they padding or not. */
  method DecryptAESCBC(aes: Aes, key: GoString, ciphertext: GoString) returns (r: Result)
    ensures r == Decrypted(aes, key, ciphertext)
    ensures r.Error? <==> Base64.Decode(ciphertext).None? || |key| !in {16, 24, 32}
    ensures !r.Error? ==>
              var raw := Base64.Decode(ciphertext).value;
              if |raw| <= 16 || |raw| % 16 != 0 then r.Panic?
              else
                WholeRest(raw)
                && var plain := CbcDecrypt(aes(key), raw[..16], raw[16..]);
                   var padding := plain[|plain| - 1] as int;
                   r == if padding > |raw| - 16 then Panic else Ok(plain[..|plain| - padding])
  {
    var decoded := Base64.Decode(ciphertext);
    if decoded.None? { return Error; }
    if !ValidKey(key) { return Error; }
    var raw := decoded.value;
    WholeLengthIff(|raw|);
    if |raw| < BLOCK { return Panic; }
    if |raw| % BLOCK != 0 { return Panic; }
    var plain := DecryptBytes(aes(key), raw);
    r := RemovePadding(plain);
  }

  method DecryptBytes(c: Cipher, raw: seq<Byte>) returns (plain: seq<Byte>)
    requires |raw| >= BLOCK && Whole(raw)
    ensures plain == CbcDecrypt(c, raw[..BLOCK], raw[BLOCK..])
  {
    var cipherBytes := new Byte[|raw|](i requires 0 <= i < |raw| => raw[i]);
    assert cipherBytes[..] == raw && cipherBytes[..BLOCK] == raw[..BLOCK] && cipherBytes[BLOCK..] == raw[BLOCK..];
    CryptBlocksDecrypt(c, cipherBytes);
    plain := cipherBytes[BLOCK..];
    assert plain == cipherBytes[..][BLOCK..];
  }

  method RemovePadding(plain: seq<Byte>) returns (r: Result)
    ensures r == Unpad(plain)
  {
    if |plain| == 0 { return Panic; }
    var padding := plain[|plain| - 1] as int;
    if padding > |plain| { return Panic; }
    r := Ok(plain[..|plain| - padding]);
  }
}
