/** Cipher feedback mode with 8-bit segments (section 6.3 of NIST SP 800-38A),
    which is what PyCrypto's AES.MODE_CFB does by default. The block cipher
    itself (AES, FIPS 197) is a parameter: every property below holds for any
    block function. */
module Cfb {
  import opened Bytes

  /** A 16-byte AES block: a key, an IV or a shift register. */
  type Block = s: seq<byte> | |s| == 16 witness seq(16, _ => 0 as byte)

  /** The forward block cipher: key, input block -> output block. */
  type BlockCipher = (Block, Block) -> Block

  /** The shift register after one ciphertext byte is fed in: drop the oldest byte, append c. */
  function Shift(register: Block, c: byte): (next: Block)

  {
    register[1..] + [c]
  }

  /** Encrypts byte by byte: each plaintext byte is XORed with the first byte of
      the cipher applied to the register, and the resulting ciphertext byte is shifted in. */
  function Encrypt(aes: BlockCipher, key: Block, register: Block, plain: seq<byte>): (cipher: seq<byte>)
    ensures |cipher| == |plain|
    decreases |plain|
  {
    if plain == [] then []
    else
      var c := Xor(plain[0], aes(key, register)[0]);
      [c] + Encrypt(aes, key, Shift(register, c), plain[1..])
  }

  /** Decryption runs the same keystream, shifting in the ciphertext byte it reads. */
  function Decrypt(aes: BlockCipher, key: Block, register: Block, cipher: seq<byte>): (plain: seq<byte>)
    ensures |plain| == |cipher|
    decreases |cipher|
  {
    if cipher == [] then []
    else
      [Xor(cipher[0], aes(key, register)[0])] + Decrypt(aes, key, Shift(register, cipher[0]), cipher[1..])
  }

  /** The register after a run of ciphertext bytes has been fed in. */
  function Feed(register: Block, cipher: seq<byte>): (next: Block)
    decreases |cipher|
  {
    if cipher == [] then register else Feed(Shift(register, cipher[0]), cipher[1..])
  }

  /** The register only ever holds the last 16 bytes of IV followed by ciphertext. */
  lemma {:induction false} FeedIsSuffix(register: Block, cipher: seq<byte>)
    ensures Feed(register, cipher) == (register + cipher)[|cipher|..]
    decreases |cipher|
  {
    if cipher != [] {
      var next := Shift(register, cipher[0]);
      assert next == (register + [cipher[0]])[1..];
      FeedIsSuffix(next, cipher[1..]);
      assert next + cipher[1..] == (register + cipher)[1..];
    }
  }

  /** Decryption of a concatenation splits at the boundary, continuing from the fed register. */
  lemma {:induction false} DecryptAppend(aes: BlockCipher, key: Block, register: Block, a: seq<byte>, b: seq<byte>)
    ensures Decrypt(aes, key, register, a + b)
         == Decrypt(aes, key, register, a) + Decrypt(aes, key, Feed(register, a), b)
    decreases |a|
  {
    if a == [] {
      assert a + b == b;
    } else {
      var next := Shift(register, a[0]);
      assert a + b == [a[0]] + (a[1..] + b);
      assert a == [a[0]] + a[1..];
      DecryptCons(aes, key, register, a[0], a[1..] + b);
      DecryptCons(aes, key, register, a[0], a[1..]);
      DecryptAppend(aes, key, next, a[1..], b);
    }
  }

  /** One step of encryption. */
  lemma EncryptCons(aes: BlockCipher, key: Block, register: Block, plain: seq<byte>)
    requires plain != []
    ensures Encrypt(aes, key, register, plain)
         == [Xor(plain[0], aes(key, register)[0])] + Encrypt(aes, key, Shift(register, Xor(plain[0], aes(key, register)[0])), plain[1..])
  {
  }

  /** One step of decryption. */
  lemma DecryptCons(aes: BlockCipher, key: Block, register: Block, c: byte, tail: seq<byte>)
    ensures Decrypt(aes, key, register, [c] + tail)
         == [Xor(c, aes(key, register)[0])] + Decrypt(aes, key, Shift(register, c), tail)
  {
    assert ([c] + tail)[0] == c && ([c] + tail)[1..] == tail;
  }

  /** One step of decrypting an encryption: the first byte comes back and both sides
      continue from the same register. */
  lemma DecryptEncryptHead(aes: BlockCipher, key: Block, register: Block, plain: seq<byte>)
    requires plain != []
    ensures var next := Shift(register, Xor(plain[0], aes(key, register)[0]));
      Decrypt(aes, key, register, Encrypt(aes, key, register, plain))
      == [plain[0]] + Decrypt(aes, key, next, Encrypt(aes, key, next, plain[1..]))
  {
    var k := aes(key, register)[0];
    var c := Xor(plain[0], k);
    var next := Shift(register, c);
    var tail := Encrypt(aes, key, next, plain[1..]);
    EncryptCons(aes, key, register, plain);
    DecryptCons(aes, key, register, c, tail);
    XorTwice(plain[0], k);
  }

  /** Decryption with the same key and register undoes encryption. */
  lemma {:induction false} DecryptEncrypt(aes: BlockCipher, key: Block, register: Block, plain: seq<byte>)
    ensures Decrypt(aes, key, register, Encrypt(aes, key, register, plain)) == plain
    decreases |plain|
  {
    if plain == [] {
      assert Encrypt(aes, key, register, plain) == [];
    } else {
      var next := Shift(register, Xor(plain[0], aes(key, register)[0]));
      DecryptEncryptHead(aes, key, register, plain);
      DecryptEncrypt(aes, key, next, plain[1..]);
      assert [plain[0]] + plain[1..] == plain;
    }
  }

  /** Self-synchronisation: decrypting IV followed by the ciphertext with that same IV yields
      16 bytes of garbage and then the plaintext, because after the 16 IV bytes have been
      fed in the register holds the IV again. */
  lemma SelfSynchronising(aes: BlockCipher, key: Block, iv: Block, plain: seq<byte>)
    ensures Decrypt(aes, key, iv, iv + Encrypt(aes, key, iv, plain))[16..] == plain
  {
    var cipher := Encrypt(aes, key, iv, plain);
    DecryptAppend(aes, key, iv, iv, cipher);
    FeedIsSuffix(iv, iv);
    assert (iv + iv)[16..] == iv;
    DecryptEncrypt(aes, key, iv, plain);
  }
}
