/** AES-CBC with and without PKCS#7 padding, over an arbitrary keyed permutation of 16-byte blocks. */
module Crypto {
  import opened Basics

  const BLOCK_SIZE := 16

  datatype CryptoError =
    | BadKeyLength
    | BadIvLength
    | UnalignedInput
    | InvalidPadding

  /** The primitives the algorithms are built on: block encryption, block decryption, and the
      hexadecimal MD5 digest used for key derivation. */
  datatype Primitives = Primitives(
    encryptBlock: (bytes, bytes) -> bytes,
    decryptBlock: (bytes, bytes) -> bytes,
    md5Hex: bytes -> bytes)
  {
    /** Under every key the block functions are mutually inverse on 16-byte blocks, and a digest
        has 32 hexadecimal digits. */
    ghost predicate Lawful() {
      && (forall key: bytes, block: bytes | |block| == BLOCK_SIZE ::
            && |encryptBlock(key, block)| == BLOCK_SIZE
            && decryptBlock(key, encryptBlock(key, block)) == block)
      && (forall key: bytes, block: bytes | |block| == BLOCK_SIZE ::
            && |decryptBlock(key, block)| == BLOCK_SIZE
            && encryptBlock(key, decryptBlock(key, block)) == block)
      && (forall message: bytes :: |md5Hex(message)| == 32)
    }
  }

  type Suite = p: Primitives | p.Lawful()
    ghost witness Primitives((key, block) => block, (key, block) => block, message => seq(32, _ => 48))

  // ----- exclusive or -----

  function XorBits(a: nat, b: nat, bits: nat): (x: nat)
    decreases bits
  {
    if bits == 0 then 0
    else (if a % 2 == b % 2 then 0 else 1) + 2 * XorBits(a / 2, b / 2, bits - 1)
  }

  function Pow2(n: nat): nat {
    if n == 0 then 1 else 2 * Pow2(n - 1)
  }

  lemma {:induction false} XorBitsBound(a: nat, b: nat, bits: nat)
    ensures XorBits(a, b, bits) < Pow2(bits)
    decreases bits
  {
    if bits > 0 {
      XorBitsBound(a / 2, b / 2, bits - 1);
    }
  }

  /** Exclusive or with the same operand twice gives the first operand back. */
  lemma {:induction false} XorBitsCancels(a: nat, b: nat, bits: nat)
    requires a < Pow2(bits)
    ensures XorBits(XorBits(a, b, bits), b, bits) == a
    decreases bits
  {
    if bits > 0 {
      XorBitsCancels(a / 2, b / 2, bits - 1);
      var x := XorBits(a, b, bits);
      assert x / 2 == XorBits(a / 2, b / 2, bits - 1);
      assert x % 2 == if a % 2 == b % 2 then 0 else 1;
    }
  }

  /** Binary digit `i`, the least significant first. */
  function Bit(x: nat, i: nat): nat
    decreases i
  {
    if i == 0 then x % 2 else Bit(x / 2, i - 1)
  }

  /** Exclusive or, digit by digit. */
  lemma {:induction false} XorBit(a: nat, b: nat, bits: nat, i: nat)
    requires i < bits
    ensures Bit(XorBits(a, b, bits), i) == if Bit(a, i) == Bit(b, i) then 0 else 1
    decreases bits
  {
    var x := XorBits(a, b, bits);
    assert x % 2 == if a % 2 == b % 2 then 0 else 1;
    assert x / 2 == XorBits(a / 2, b / 2, bits - 1);
    if i > 0 {
      XorBit(a / 2, b / 2, bits - 1, i - 1);
    }
  }

  function XorByte(a: byte, b: byte): byte {
    XorBitsBound(a, b, 8);
    XorBits(a, b, 8)
  }

  function Xor(left: bytes, right: bytes): (x: bytes)
    requires |left| == |right|
    ensures |x| == |left|
    ensures forall i | 0 <= i < |x| :: x[i] == XorByte(left[i], right[i])
  {
    seq(|left|, i requires 0 <= i < |left| => XorByte(left[i], right[i]))
  }

  /** Every binary digit of the result is 1 exactly where the operands' digits differ. */
  lemma XorDigits(left: bytes, right: bytes, k: nat, i: nat)
    requires k < |left| == |right| && i < 8
    ensures Bit(Xor(left, right)[k], i) == if Bit(left[k], i) == Bit(right[k], i) then 0 else 1
  {
    XorBit(left[k], right[k], 8, i);
  }

  lemma XorCancels(left: bytes, right: bytes)
    requires |left| == |right|
    ensures Xor(Xor(left, right), right) == left
  {
    forall i | 0 <= i < |left|
      ensures Xor(Xor(left, right), right)[i] == left[i]
    {
      XorBitsCancels(left[i], right[i], 8);
    }
  }

  // ----- cipher block chaining -----

  function CbcEncrypt(suite: Suite, key: bytes, iv: bytes, plaintext: bytes): (ciphertext: bytes)
    requires |iv| == BLOCK_SIZE && |plaintext| % BLOCK_SIZE == 0
    ensures |ciphertext| == |plaintext|
    decreases |plaintext|
  {
    if plaintext == [] then []
    else
      var block := suite.encryptBlock(key, Xor(plaintext[..BLOCK_SIZE], iv));
      block + CbcEncrypt(suite, key, block, plaintext[BLOCK_SIZE..])
  }

  function CbcDecrypt(suite: Suite, key: bytes, iv: bytes, ciphertext: bytes): (plaintext: bytes)
    requires |iv| == BLOCK_SIZE && |ciphertext| % BLOCK_SIZE == 0
    ensures |plaintext| == |ciphertext|
    decreases |ciphertext|
  {
    if ciphertext == [] then []
    else
      var block := ciphertext[..BLOCK_SIZE];
      Xor(suite.decryptBlock(key, block), iv) + CbcDecrypt(suite, key, block, ciphertext[BLOCK_SIZE..])
  }

  function Block(data: bytes, j: nat): (block: bytes)
    requires BLOCK_SIZE * (j + 1) <= |data|
    ensures |block| == BLOCK_SIZE
  {
    data[BLOCK_SIZE * j..BLOCK_SIZE * (j + 1)]
  }

  /** What block `j` is chained with: the block of cipher text before it, or the initialisation vector. */
  function Chained(iv: bytes, ciphertext: bytes, j: nat): (block: bytes)
    requires |iv| == BLOCK_SIZE && BLOCK_SIZE * j <= |ciphertext|
    ensures |block| == BLOCK_SIZE
  {
    if j == 0 then iv else Block(ciphertext, j - 1)
  }

  lemma BlocksCons(first: bytes, rest: bytes, iv: bytes, j: nat)
    requires |first| == |iv| == BLOCK_SIZE && BLOCK_SIZE * (j + 1) <= |rest|
    ensures Block(first + rest, 0) == first && Block(first + rest, j + 1) == Block(rest, j)
    ensures Chained(iv, first + rest, j + 1) == Chained(first, rest, j)
  {
  }

  /** Each block of cipher text is the encryption of the block of plain text after exclusive or with the block of
      cipher text before it. */
  lemma {:induction false} EncryptedBlock(suite: Suite, key: bytes, iv: bytes, plaintext: bytes, j: nat)
    requires |iv| == BLOCK_SIZE && |plaintext| % BLOCK_SIZE == 0 && BLOCK_SIZE * (j + 1) <= |plaintext|
    ensures var ciphertext := CbcEncrypt(suite, key, iv, plaintext);
            Block(ciphertext, j) == suite.encryptBlock(key, Xor(Block(plaintext, j), Chained(iv, ciphertext, j)))
    decreases j
  {
    var first, rest := plaintext[..BLOCK_SIZE], plaintext[BLOCK_SIZE..];
    var block := suite.encryptBlock(key, Xor(first, iv));
    assert plaintext == first + rest;
    if j > 0 {
      EncryptedBlock(suite, key, block, rest, j - 1);
      BlocksCons(first, rest, iv, j - 1);
      BlocksCons(block, CbcEncrypt(suite, key, block, rest), iv, j - 1);
    }
  }

  lemma BlocksOfFront(data: bytes, n: nat, iv: bytes, j: nat)
    requires |iv| == BLOCK_SIZE && BLOCK_SIZE * (j + 1) <= n <= |data|
    ensures Block(data[..n], j) == Block(data, j) && Chained(iv, data[..n], j) == Chained(iv, data, j)
  {
    assert data[..n][BLOCK_SIZE * j..BLOCK_SIZE * (j + 1)] == data[BLOCK_SIZE * j..BLOCK_SIZE * (j + 1)];
    if j > 0 {
      assert data[..n][BLOCK_SIZE * (j - 1)..BLOCK_SIZE * j] == data[BLOCK_SIZE * (j - 1)..BLOCK_SIZE * j];
    }
  }

  lemma DecryptCons(suite: Suite, key: bytes, iv: bytes, block: bytes, rest: bytes)
    requires |iv| == |block| == BLOCK_SIZE && |rest| % BLOCK_SIZE == 0
    ensures CbcDecrypt(suite, key, iv, block + rest)
         == Xor(suite.decryptBlock(key, block), iv) + CbcDecrypt(suite, key, block, rest)
  {
    hide Xor;
    assert (block + rest)[..BLOCK_SIZE] == block && (block + rest)[BLOCK_SIZE..] == rest;
  }

  /** Each block of plain text is the decryption of the block of cipher text, after exclusive or with the block of
      cipher text before it. */
  lemma {:induction false} DecryptedBlock(suite: Suite, key: bytes, iv: bytes, ciphertext: bytes, j: nat)
    requires |iv| == BLOCK_SIZE && |ciphertext| % BLOCK_SIZE == 0 && BLOCK_SIZE * (j + 1) <= |ciphertext|
    ensures Block(CbcDecrypt(suite, key, iv, ciphertext), j)
         == Xor(suite.decryptBlock(key, Block(ciphertext, j)), Chained(iv, ciphertext, j))
    decreases j
  {
    var block, rest := ciphertext[..BLOCK_SIZE], ciphertext[BLOCK_SIZE..];
    assert ciphertext == block + rest;
    hide CbcDecrypt, Xor;
    DecryptCons(suite, key, iv, block, rest);
    var first, tail := Xor(suite.decryptBlock(key, block), iv), CbcDecrypt(suite, key, block, rest);
    if j > 0 {
      hide Block, Chained;
      DecryptedBlock(suite, key, block, rest, j - 1);
      BlocksCons(block, rest, iv, j - 1);
      BlocksCons(first, tail, iv, j - 1);
    } else {
      assert (first + tail)[..BLOCK_SIZE] == first;
    }
  }

  lemma {:induction false} CbcDecryptsEncrypted(suite: Suite, key: bytes, iv: bytes, plaintext: bytes)
    requires |iv| == BLOCK_SIZE && |plaintext| % BLOCK_SIZE == 0
    ensures CbcDecrypt(suite, key, iv, CbcEncrypt(suite, key, iv, plaintext)) == plaintext
    decreases |plaintext|
  {
    if plaintext != [] {
      var first, rest := plaintext[..BLOCK_SIZE], plaintext[BLOCK_SIZE..];
      var block := suite.encryptBlock(key, Xor(first, iv));
      var tail := CbcEncrypt(suite, key, block, rest);
      assert (block + tail)[..BLOCK_SIZE] == block && (block + tail)[BLOCK_SIZE..] == tail;
      CbcDecryptsEncrypted(suite, key, block, rest);
      XorCancels(first, iv);
    }
  }

  lemma {:induction false} CbcEncryptsDecrypted(suite: Suite, key: bytes, iv: bytes, ciphertext: bytes)
    requires |iv| == BLOCK_SIZE && |ciphertext| % BLOCK_SIZE == 0
    ensures CbcEncrypt(suite, key, iv, CbcDecrypt(suite, key, iv, ciphertext)) == ciphertext
    decreases |ciphertext|
  {
    if ciphertext != [] {
      var block, rest := ciphertext[..BLOCK_SIZE], ciphertext[BLOCK_SIZE..];
      var unlocked := suite.decryptBlock(key, block);
      var first := Xor(unlocked, iv);
      var tail := CbcDecrypt(suite, key, block, rest);
      assert (first + tail)[..BLOCK_SIZE] == first && (first + tail)[BLOCK_SIZE..] == tail;
      CbcEncryptsDecrypted(suite, key, block, rest);
      XorCancels(unlocked, iv);
    }
  }

  // ----- padding -----

  function PadLength(n: nat): (k: nat)
    ensures 1 <= k <= BLOCK_SIZE && (n + k) % BLOCK_SIZE == 0
  {
    BLOCK_SIZE - n % BLOCK_SIZE
  }

  function Pad(plaintext: bytes): (padded: bytes)
    ensures |padded| % BLOCK_SIZE == 0 && |padded| > |plaintext|
  {
    plaintext + seq(PadLength(|plaintext|), _ => PadLength(|plaintext|))
  }

  /** Padding fills up the last block, or adds one, with bytes that each say how many they are. */
  lemma PadSays(plaintext: bytes)
    ensures plaintext <= Pad(plaintext) && |Pad(plaintext)| % 16 == 0
    ensures 1 <= |Pad(plaintext)| - |plaintext| <= 16
    ensures forall i | |plaintext| <= i < |Pad(plaintext)| :: Pad(plaintext)[i] == |Pad(plaintext)| - |plaintext|
  {
  }

  /** Removes the padding, or rejects it: the last byte must lie in 1..16 and be repeated that often. */
  function Unpad(padded: bytes): (r: Result<bytes, CryptoError>)
    requires padded != [] && |padded| % BLOCK_SIZE == 0
  {
    var k := padded[|padded| - 1];
    if 1 <= k <= BLOCK_SIZE && forall i | |padded| - k <= i < |padded| :: padded[i] == k
    then Success(padded[..|padded| - k])
    else Failure(InvalidPadding)
  }

  /** Padding is the exact inverse of unpadding: a padded text opens to `plaintext` just when it is
      the padded form of `plaintext`. */
  lemma UnpadIffPadded(padded: bytes, plaintext: bytes)
    requires padded != [] && |padded| % BLOCK_SIZE == 0
    ensures Unpad(padded) == Success(plaintext) <==> padded == Pad(plaintext)
  {
    if Unpad(padded) == Success(plaintext) {
      var k := padded[|padded| - 1];
      assert |plaintext| == |padded| - k;
      assert PadLength(|plaintext|) == k;
      assert padded == plaintext + padded[|padded| - k..];
      assert padded[|padded| - k..] == seq(k, _ => k);
    }
    if padded == Pad(plaintext) {
      assert padded[..|plaintext|] == plaintext;
    }
  }

  // ----- the four entry points -----

  function Validate(key: bytes, iv: bytes): Result<(), CryptoError> {
    if |key| !in {16, 24, 32} then Failure(BadKeyLength)
    else if |iv| != BLOCK_SIZE then Failure(BadIvLength)
    else Success(())
  }

  function EncryptPadded(suite: Suite, plaintext: bytes, key: bytes, iv: bytes): Result<bytes, CryptoError> {
    var _ :- Validate(key, iv);
    Success(CbcEncrypt(suite, key, iv, Pad(plaintext)))
  }

  function DecryptPadded(suite: Suite, ciphertext: bytes, key: bytes, iv: bytes): Result<bytes, CryptoError> {
    var _ :- Validate(key, iv);
    if ciphertext == [] || |ciphertext| % BLOCK_SIZE != 0 then Failure(UnalignedInput)
    else Unpad(CbcDecrypt(suite, key, iv, ciphertext))
  }

  function EncryptUnpadded(suite: Suite, plaintext: bytes, key: bytes, iv: bytes): Result<bytes, CryptoError> {
    var _ :- Validate(key, iv);
    if |plaintext| % BLOCK_SIZE != 0 then Failure(UnalignedInput)
    else Success(CbcEncrypt(suite, key, iv, plaintext))
  }

  function DecryptUnpadded(suite: Suite, ciphertext: bytes, key: bytes, iv: bytes): Result<bytes, CryptoError> {
    var _ :- Validate(key, iv);
    if |ciphertext| % BLOCK_SIZE != 0 then Failure(UnalignedInput)
    else Success(CbcDecrypt(suite, key, iv, ciphertext))
  }

  /** What the entry points refuse: keys that are not those of AES, vectors that are not one block, and text that is not
      whole blocks, or for padded text no block at all. Encryption with padding refuses no text. */
  lemma Refusals(suite: Suite, text: bytes, key: bytes, iv: bytes)
    ensures EncryptPadded(suite, text, key, iv).Success? <==> |key| in {16, 24, 32} && |iv| == 16
    ensures EncryptUnpadded(suite, text, key, iv).Success? <==>
              |key| in {16, 24, 32} && |iv| == 16 && |text| % 16 == 0
    ensures DecryptUnpadded(suite, text, key, iv).Success? <==>
              |key| in {16, 24, 32} && |iv| == 16 && |text| % 16 == 0
    ensures DecryptPadded(suite, text, key, iv).Success? ==> |key| in {16, 24, 32} && |iv| == 16
    ensures |key| in {16, 24, 32} && |iv| == 16 ==>
              (DecryptPadded(suite, text, key, iv) == Failure(UnalignedInput) <==> text == [] || |text| % 16 != 0)
  {
  }

  /** Padded decryption inverts padded encryption in both directions and accepts nothing else. */
  lemma DecryptPaddedIffEncrypted(suite: Suite, plaintext: bytes, ciphertext: bytes, key: bytes, iv: bytes)
    ensures DecryptPadded(suite, ciphertext, key, iv) == Success(plaintext)
       <==> EncryptPadded(suite, plaintext, key, iv) == Success(ciphertext)
  {
    if Validate(key, iv).Success? {
      var padded := Pad(plaintext);
      CbcDecryptsEncrypted(suite, key, iv, padded);
      UnpadIffPadded(padded, plaintext);
      if ciphertext != [] && |ciphertext| % BLOCK_SIZE == 0 {
        var padded' := CbcDecrypt(suite, key, iv, ciphertext);
        CbcEncryptsDecrypted(suite, key, iv, ciphertext);
        UnpadIffPadded(padded', plaintext);
      }
    }
  }

  /** Unpadded decryption and encryption are mutually inverse, with the same inputs refused. */
  lemma DecryptUnpaddedIffEncrypted(suite: Suite, plaintext: bytes, ciphertext: bytes, key: bytes, iv: bytes)
    ensures DecryptUnpadded(suite, ciphertext, key, iv) == Success(plaintext)
       <==> EncryptUnpadded(suite, plaintext, key, iv) == Success(ciphertext)
  {
    if Validate(key, iv).Success? {
      if |plaintext| % BLOCK_SIZE == 0 {
        CbcDecryptsEncrypted(suite, key, iv, plaintext);
      }
      if |ciphertext| % BLOCK_SIZE == 0 {
        CbcEncryptsDecrypted(suite, key, iv, ciphertext);
      }
    }
  }
}
