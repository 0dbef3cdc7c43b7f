/** The 32-bit words SM4 computes with: the left rotation of SM4_Rotl32,
    exclusive or, and the big-endian packing of bytes into words. */
module Word32 {

  type Byte = bv8
  type Word = bv32

  // ---------------------------------------------------------------------
  // SM4_Rotl32: rotate a 32-bit word n bits to the left
  // ---------------------------------------------------------------------

  /** Bit i of x (bit 0 is the least significant). */
  predicate Bit(x: Word, i: Word)
    requires i < 32
  {
    x & (1 << i) != 0
  }

  /** The macro's shift/OR expression. A shift by 32 - 0 is undefined for a
      32-bit operand, so the amount lies strictly between 0 and 32. */
  function Rotl(x: Word, n: Word): Word
    requires 0 < n < 32
  {
    (x << n) | (x >> (32 - n))
  }

  /** Rotl is a left rotation: bit i of the result is bit (i - n) mod 32 of x. */
  lemma RotlBit(x: Word, n: Word, i: Word)
    requires 0 < n < 32 && i < 32
    ensures Bit(Rotl(x, n), i) == Bit(x, (i - n) % 32)
  {
    if n <= 8 {
      RotlBitFrom1To8(x, n, i);
    } else if n <= 16 {
      RotlBitFrom9To16(x, n, i);
    } else if n <= 24 {
      RotlBitFrom17To24(x, n, i);
    } else {
      RotlBitFrom25To31(x, n, i);
    }
  }

  // The solver handles a shift by a constant cheaply and a shift by a
  // variable amount poorly, so the lemma above goes amount by amount.

  lemma RotlBitFrom1To8(x: Word, n: Word, i: Word)
    requires 0 < n <= 8 && i < 32
    ensures Bit(Rotl(x, n), i) == Bit(x, (i - n) % 32)
  {
    if n == 1 {} else if n == 2 {} else if n == 3 {} else if n == 4 {}
    else if n == 5 {} else if n == 6 {} else if n == 7 {} else { assert n == 8; }
  }

  lemma RotlBitFrom9To16(x: Word, n: Word, i: Word)
    requires 8 < n <= 16 && i < 32
    ensures Bit(Rotl(x, n), i) == Bit(x, (i - n) % 32)
  {
    if n == 9 {} else if n == 10 {} else if n == 11 {} else if n == 12 {}
    else if n == 13 {} else if n == 14 {} else if n == 15 {} else { assert n == 16; }
  }

  lemma RotlBitFrom17To24(x: Word, n: Word, i: Word)
    requires 16 < n <= 24 && i < 32
    ensures Bit(Rotl(x, n), i) == Bit(x, (i - n) % 32)
  {
    if n == 17 {} else if n == 18 {} else if n == 19 {} else if n == 20 {}
    else if n == 21 {} else if n == 22 {} else if n == 23 {} else { assert n == 24; }
  }

  lemma RotlBitFrom25To31(x: Word, n: Word, i: Word)
    requires 24 < n < 32 && i < 32
    ensures Bit(Rotl(x, n), i) == Bit(x, (i - n) % 32)
  {
    if n == 25 {} else if n == 26 {} else if n == 27 {} else if n == 28 {}
    else if n == 29 {} else if n == 30 {} else { assert n == 31; }
  }

  /** Rotating by n and then by 32 - n gives the word back, so every rotation
      is a bijection on words. */
  lemma RotlInverse(x: Word, n: Word)
    requires 0 < n < 32
    ensures Rotl(Rotl(x, n), 32 - n) == x
  {
    if n <= 4 {
      RotlInverseFrom1To4(x, n);
    } else if n <= 8 {
      RotlInverseFrom5To8(x, n);
    } else if n <= 12 {
      RotlInverseFrom9To12(x, n);
    } else if n <= 16 {
      RotlInverseFrom13To16(x, n);
    } else if n <= 20 {
      RotlInverseFrom17To20(x, n);
    } else if n <= 24 {
      RotlInverseFrom21To24(x, n);
    } else if n <= 28 {
      RotlInverseFrom25To28(x, n);
    } else {
      RotlInverseFrom29To31(x, n);
    }
  }

  // The same, four amounts at a time.

  lemma RotlInverseFrom1To4(x: Word, n: Word)
    requires 1 <= n <= 4
    ensures Rotl(Rotl(x, n), 32 - n) == x
  {
    if n == 1 {} else if n == 2 {} else if n == 3 {} else {}
  }

  lemma RotlInverseFrom5To8(x: Word, n: Word)
    requires 5 <= n <= 8
    ensures Rotl(Rotl(x, n), 32 - n) == x
  {
    if n == 5 {} else if n == 6 {} else if n == 7 {} else {}
  }

  lemma RotlInverseFrom9To12(x: Word, n: Word)
    requires 9 <= n <= 12
    ensures Rotl(Rotl(x, n), 32 - n) == x
  {
    if n == 9 {} else if n == 10 {} else if n == 11 {} else {}
  }

  lemma RotlInverseFrom13To16(x: Word, n: Word)
    requires 13 <= n <= 16
    ensures Rotl(Rotl(x, n), 32 - n) == x
  {
    if n == 13 {} else if n == 14 {} else if n == 15 {} else {}
  }

  lemma RotlInverseFrom17To20(x: Word, n: Word)
    requires 17 <= n <= 20
    ensures Rotl(Rotl(x, n), 32 - n) == x
  {
    if n == 17 {} else if n == 18 {} else if n == 19 {} else {}
  }

  lemma RotlInverseFrom21To24(x: Word, n: Word)
    requires 21 <= n <= 24
    ensures Rotl(Rotl(x, n), 32 - n) == x
  {
    if n == 21 {} else if n == 22 {} else if n == 23 {} else {}
  }

  lemma RotlInverseFrom25To28(x: Word, n: Word)
    requires 25 <= n <= 28
    ensures Rotl(Rotl(x, n), 32 - n) == x
  {
    if n == 25 {} else if n == 26 {} else if n == 27 {} else {}
  }

  lemma RotlInverseFrom29To31(x: Word, n: Word)
    requires 29 <= n <= 31
    ensures Rotl(Rotl(x, n), 32 - n) == x
  {
    if n == 29 {} else if n == 30 {} else {}
  }

  /** Rotation distributes over exclusive or, so a sum of rotations such as
      the transforms L and L' is linear. */
  lemma RotlXor(a: Word, b: Word, n: Word)
    requires 0 < n < 32
    ensures Rotl(a ^ b, n) == Rotl(a, n) ^ Rotl(b, n)
  {
    if n <= 4 {
      RotlXorFrom1To4(a, b, n);
    } else if n <= 8 {
      RotlXorFrom5To8(a, b, n);
    } else if n <= 12 {
      RotlXorFrom9To12(a, b, n);
    } else if n <= 16 {
      RotlXorFrom13To16(a, b, n);
    } else if n <= 20 {
      RotlXorFrom17To20(a, b, n);
    } else if n <= 24 {
      RotlXorFrom21To24(a, b, n);
    } else if n <= 28 {
      RotlXorFrom25To28(a, b, n);
    } else {
      RotlXorFrom29To31(a, b, n);
    }
  }

  lemma RotlXorFrom1To4(a: Word, b: Word, n: Word)
    requires 1 <= n <= 4
    ensures Rotl(a ^ b, n) == Rotl(a, n) ^ Rotl(b, n)
  {
    if n == 1 {} else if n == 2 {} else if n == 3 {} else {}
  }

  lemma RotlXorFrom5To8(a: Word, b: Word, n: Word)
    requires 5 <= n <= 8
    ensures Rotl(a ^ b, n) == Rotl(a, n) ^ Rotl(b, n)
  {
    if n == 5 {} else if n == 6 {} else if n == 7 {} else {}
  }

  lemma RotlXorFrom9To12(a: Word, b: Word, n: Word)
    requires 9 <= n <= 12
    ensures Rotl(a ^ b, n) == Rotl(a, n) ^ Rotl(b, n)
  {
    if n == 9 {} else if n == 10 {} else if n == 11 {} else {}
  }

  lemma RotlXorFrom13To16(a: Word, b: Word, n: Word)
    requires 13 <= n <= 16
    ensures Rotl(a ^ b, n) == Rotl(a, n) ^ Rotl(b, n)
  {
    if n == 13 {} else if n == 14 {} else if n == 15 {} else {}
  }

  lemma RotlXorFrom17To20(a: Word, b: Word, n: Word)
    requires 17 <= n <= 20
    ensures Rotl(a ^ b, n) == Rotl(a, n) ^ Rotl(b, n)
  {
    if n == 17 {} else if n == 18 {} else if n == 19 {} else {}
  }

  lemma RotlXorFrom21To24(a: Word, b: Word, n: Word)
    requires 21 <= n <= 24
    ensures Rotl(a ^ b, n) == Rotl(a, n) ^ Rotl(b, n)
  {
    if n == 21 {} else if n == 22 {} else if n == 23 {} else {}
  }

  lemma RotlXorFrom25To28(a: Word, b: Word, n: Word)
    requires 25 <= n <= 28
    ensures Rotl(a ^ b, n) == Rotl(a, n) ^ Rotl(b, n)
  {
    if n == 25 {} else if n == 26 {} else if n == 27 {} else {}
  }

  lemma RotlXorFrom29To31(a: Word, b: Word, n: Word)
    requires 29 <= n <= 31
    ensures Rotl(a ^ b, n) == Rotl(a, n) ^ Rotl(b, n)
  {
    if n == 29 {} else if n == 30 {} else {}
  }

  // ---------------------------------------------------------------------
  // Bytes and words: the cipher reads and writes big-endian 32-bit words
  // ---------------------------------------------------------------------

  /** Word j of a byte string, most significant byte first. */
  function Load(b: seq<Byte>, j: nat): Word
    requires 4 * j + 4 <= |b|
  {
    (b[4 * j] as Word << 24) | (b[4 * j + 1] as Word << 16)
      | (b[4 * j + 2] as Word << 8) | b[4 * j + 3] as Word
  }

  /** The four bytes of a word, most significant first. */
  function Store(w: Word): (r: seq<Byte>)
    ensures |r| == 4
  {
    [((w >> 24) & 0xFF) as Byte, ((w >> 16) & 0xFF) as Byte, ((w >> 8) & 0xFF) as Byte, (w & 0xFF) as Byte]
  }

  /** A 16-byte block as four words. */
  function Words(b: seq<Byte>): (r: seq<Word>)
    requires |b| == 16
    ensures |r| == 4
  {
    [Load(b, 0), Load(b, 1), Load(b, 2), Load(b, 3)]
  }

  /** Four words as a 16-byte block. */
  function Bytes(w: seq<Word>): (r: seq<Byte>)
    requires |w| == 4
    ensures |r| == 16
  {
    Store(w[0]) + Store(w[1]) + Store(w[2]) + Store(w[3])
  }

  /** The first 4 * (j + 1) bytes of a block: the first 4 * j, then word j. */
  lemma BytesPrefix(w: seq<Word>, j: nat)
    requires |w| == 4 && j < 4
    ensures Bytes(w)[..4 * j + 4] == Bytes(w)[..4 * j] + Store(w[j])
  {
    if j == 0 {
    } else if j == 1 {
    } else if j == 2 {
    } else {
    }
  }

  lemma LoadStore(w: Word)
    ensures Load(Store(w), 0) == w
  {
  }

  lemma StoreLoad(b: seq<Byte>, j: nat)
    requires 4 * j + 4 <= |b|
    ensures Store(Load(b, j)) == b[4 * j..4 * j + 4]
  {
  }

  /** A word reads back from wherever its four bytes were written. */
  lemma LoadAt(b: seq<Byte>, j: nat, w: Word)
    requires 4 * j + 4 <= |b| && b[4 * j..4 * j + 4] == Store(w)
    ensures Load(b, j) == w
  {
    assert b[4 * j] == Store(w)[0] && b[4 * j + 1] == Store(w)[1];
    assert b[4 * j + 2] == Store(w)[2] && b[4 * j + 3] == Store(w)[3];
    LoadStore(w);
  }

  /** Reading back a block that was written gives the words written. */
  lemma WordsOfBytes(w: seq<Word>)
    requires |w| == 4
    ensures Words(Bytes(w)) == w
  {
    var b := Bytes(w);
    assert b[0..4] == Store(w[0]);
    assert b[4..8] == Store(w[1]);
    assert b[8..12] == Store(w[2]);
    assert b[12..16] == Store(w[3]);
    LoadAt(b, 0, w[0]);
    LoadAt(b, 1, w[1]);
    LoadAt(b, 2, w[2]);
    LoadAt(b, 3, w[3]);
  }

  /** Writing out the words of a block gives back the block. */
  lemma BytesOfWords(b: seq<Byte>)
    requires |b| == 16
    ensures Bytes(Words(b)) == b
  {
    StoreLoad(b, 0);
    StoreLoad(b, 1);
    StoreLoad(b, 2);
    StoreLoad(b, 3);
    assert b == b[0..4] + b[4..8] + b[8..12] + b[12..16];
  }

  // ---------------------------------------------------------------------
  // Exclusive or
  // ---------------------------------------------------------------------

  /** The operator ^ under a name of its own, for the solver's sake: when the
      round equations are stated with ^ itself, the proofs that the round steps
      of the cipher compute Feistel.Round run out of resources; with Xor they
      stay well within bounds. */
  function Xor(a: Word, b: Word): Word
  {
    a ^ b
  }

  /** Brings the definition of Xor into a proof that needs the bits, such as
      that of Feistel.RoundUndo. */
  lemma XorDef(a: Word, b: Word)
    ensures Xor(a, b) == a ^ b
  {
  }
}
