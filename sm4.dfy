/** SM4 block cipher (GB/T 32907-2016): the key schedule, and single-block
    encryption and decryption over 16-byte caller buffers. */
module SM4 {
  import opened Word32
  import Feistel

  // ---------------------------------------------------------------------
  // The round transforms (section 6 of GB/T 32907-2016)
  // ---------------------------------------------------------------------

  /** The entry c of the sixteen values v0, ..., vF. */
  function Pick(c: bv8, v0: Byte, v1: Byte, v2: Byte, v3: Byte, v4: Byte, v5: Byte, v6: Byte, v7: Byte,
                v8: Byte, v9: Byte, vA: Byte, vB: Byte, vC: Byte, vD: Byte, vE: Byte, vF: Byte): Byte
  {
    if c == 0x0 then v0 else if c == 0x1 then v1 else if c == 0x2 then v2 else if c == 0x3 then v3
    else if c == 0x4 then v4 else if c == 0x5 then v5 else if c == 0x6 then v6 else if c == 0x7 then v7
    else if c == 0x8 then v8 else if c == 0x9 then v9 else if c == 0xA then vA else if c == 0xB then vB
    else if c == 0xC then vC else if c == 0xD then vD else if c == 0xE then vE else vF
  }

  /** The fixed S-box of section 6.2, one row per high nibble r of the input
      byte; the low nibble c selects the column. */
  function Sbox(b: Byte): Byte
  {
    var r := b >> 4;
    var c := b & 0xF;
    if r == 0x0 then Pick(c, 0xD6, 0x90, 0xE9, 0xFE, 0xCC, 0xE1, 0x3D, 0xB7, 0x16, 0xB6, 0x14, 0xC2, 0x28, 0xFB, 0x2C, 0x05)
    else if r == 0x1 then Pick(c, 0x2B, 0x67, 0x9A, 0x76, 0x2A, 0xBE, 0x04, 0xC3, 0xAA, 0x44, 0x13, 0x26, 0x49, 0x86, 0x06, 0x99)
    else if r == 0x2 then Pick(c, 0x9C, 0x42, 0x50, 0xF4, 0x91, 0xEF, 0x98, 0x7A, 0x33, 0x54, 0x0B, 0x43, 0xED, 0xCF, 0xAC, 0x62)
    else if r == 0x3 then Pick(c, 0xE4, 0xB3, 0x1C, 0xA9, 0xC9, 0x08, 0xE8, 0x95, 0x80, 0xDF, 0x94, 0xFA, 0x75, 0x8F, 0x3F, 0xA6)
    else if r == 0x4 then Pick(c, 0x47, 0x07, 0xA7, 0xFC, 0xF3, 0x73, 0x17, 0xBA, 0x83, 0x59, 0x3C, 0x19, 0xE6, 0x85, 0x4F, 0xA8)
    else if r == 0x5 then Pick(c, 0x68, 0x6B, 0x81, 0xB2, 0x71, 0x64, 0xDA, 0x8B, 0xF8, 0xEB, 0x0F, 0x4B, 0x70, 0x56, 0x9D, 0x35)
    else if r == 0x6 then Pick(c, 0x1E, 0x24, 0x0E, 0x5E, 0x63, 0x58, 0xD1, 0xA2, 0x25, 0x22, 0x7C, 0x3B, 0x01, 0x21, 0x78, 0x87)
    else if r == 0x7 then Pick(c, 0xD4, 0x00, 0x46, 0x57, 0x9F, 0xD3, 0x27, 0x52, 0x4C, 0x36, 0x02, 0xE7, 0xA0, 0xC4, 0xC8, 0x9E)
    else if r == 0x8 then Pick(c, 0xEA, 0xBF, 0x8A, 0xD2, 0x40, 0xC7, 0x38, 0xB5, 0xA3, 0xF7, 0xF2, 0xCE, 0xF9, 0x61, 0x15, 0xA1)
    else if r == 0x9 then Pick(c, 0xE0, 0xAE, 0x5D, 0xA4, 0x9B, 0x34, 0x1A, 0x55, 0xAD, 0x93, 0x32, 0x30, 0xF5, 0x8C, 0xB1, 0xE3)
    else if r == 0xA then Pick(c, 0x1D, 0xF6, 0xE2, 0x2E, 0x82, 0x66, 0xCA, 0x60, 0xC0, 0x29, 0x23, 0xAB, 0x0D, 0x53, 0x4E, 0x6F)
    else if r == 0xB then Pick(c, 0xD5, 0xDB, 0x37, 0x45, 0xDE, 0xFD, 0x8E, 0x2F, 0x03, 0xFF, 0x6A, 0x72, 0x6D, 0x6C, 0x5B, 0x51)
    else if r == 0xC then Pick(c, 0x8D, 0x1B, 0xAF, 0x92, 0xBB, 0xDD, 0xBC, 0x7F, 0x11, 0xD9, 0x5C, 0x41, 0x1F, 0x10, 0x5A, 0xD8)
    else if r == 0xD then Pick(c, 0x0A, 0xC1, 0x31, 0x88, 0xA5, 0xCD, 0x7B, 0xBD, 0x2D, 0x74, 0xD0, 0x12, 0xB8, 0xE5, 0xB4, 0xB0)
    else if r == 0xE then Pick(c, 0x89, 0x69, 0x97, 0x4A, 0x0C, 0x96, 0x77, 0x7E, 0x65, 0xB9, 0xF1, 0x09, 0xC5, 0x6E, 0xC6, 0x84)
    else Pick(c, 0x18, 0xF0, 0x7D, 0xEC, 0x3A, 0xDC, 0x4D, 0x20, 0x79, 0xEE, 0x5F, 0x3E, 0xD7, 0xCB, 0x39, 0x48)
  }

  /** The nonlinear transform tau: the S-box applied to each byte of a word. */
  function Tau(a: Word): Word
  {
    (Sbox((a >> 24) as Byte) as Word << 24) | (Sbox(((a >> 16) & 0xFF) as Byte) as Word << 16)
      | (Sbox(((a >> 8) & 0xFF) as Byte) as Word << 8) | Sbox((a & 0xFF) as Byte) as Word
  }

  /** The linear transform L of the round function. */
  function L(b: Word): Word
  {
    b ^ Rotl(b, 2) ^ Rotl(b, 10) ^ Rotl(b, 18) ^ Rotl(b, 24)
  }

  /** The linear transform L' of the key expansion. */
  function LKey(b: Word): Word
  {
    b ^ Rotl(b, 13) ^ Rotl(b, 23)
  }

  /** T = L o tau, the round function's mixing transform. */
  function T(x: Word): Word
  {
    L(Tau(x))
  }

  /** T' = L' o tau, used by the key expansion. */
  function TKey(x: Word): Word
  {
    LKey(Tau(x))
  }

  // ---------------------------------------------------------------------
  // Key expansion and the cipher (section 7 of GB/T 32907-2016)
  // ---------------------------------------------------------------------

  /** The system parameter FK. */
  const FK: seq<Word> := [0xA3B1BAC6, 0x56AA3350, 0x677D9197, 0xB27022DC]

  /** The fixed parameters CK[0..31]. */
  const CK: seq<Word> := [
    0x00070E15, 0x1C232A31, 0x383F464D, 0x545B6269,
    0x70777E85, 0x8C939AA1, 0xA8AFB6BD, 0xC4CBD2D9,
    0xE0E7EEF5, 0xFC030A11, 0x181F262D, 0x343B4249,
    0x50575E65, 0x6C737A81, 0x888F969D, 0xA4ABB2B9,
    0xC0C7CED5, 0xDCE3EAF1, 0xF8FF060D, 0x141B2229,
    0x30373E45, 0x4C535A61, 0x686F767D, 0x848B9299,
    0xA0A7AEB5, 0xBCC3CAD1, 0xD8DFE6ED, 0xF4FB0209,
    0x10171E25, 0x2C333A41, 0x484F565D, 0x646B7279
  ]

  /** K[0..3] = FK[0..3] ^ MK[0..3], the master key read as four words. */
  function KeyState(mk: seq<Byte>): (k: seq<Word>)
    requires |mk| == 16
    ensures |k| == 4
  {
    [Xor(FK[0], Load(mk, 0)), Xor(FK[1], Load(mk, 1)), Xor(FK[2], Load(mk, 2)), Xor(FK[3], Load(mk, 3))]
  }

  /** The 32 round keys: the words after the first four of the key expansion,
      which is the Feistel structure with T' and the keys CK. */
  function RoundKeys(mk: seq<Byte>): (rk: seq<Word>)
    requires |mk| == 16
    ensures |rk| == 32
  {
    Feistel.Chain(TKey, KeyState(mk), CK, 32)[4..]
  }

  /** The key expansion of section 7.3: the words K[0..3] of KeyState followed
      by the round keys satisfy K[i + 4] = K[i] ^ T'(K[i + 1] ^ K[i + 2] ^ K[i + 3] ^ CK[i]),
      which is the round of the structure under T' and CK[i]. */
  lemma KeyExpansion(mk: seq<Byte>, i: nat)
    requires |mk| == 16 && i < 32
    ensures var K := KeyState(mk) + RoundKeys(mk);
      K[i + 4] == Feistel.Round(TKey, K[i], K[i + 1], K[i + 2], K[i + 3], CK[i])
  {
    Feistel.ChainWords(TKey, KeyState(mk), CK, 32, i);
  }

  /** Encryption (section 7.1): the plaintext words through the 32 rounds with
      T under the round keys of mk, then R, as 16 bytes. */
  function EncryptBlock(mk: seq<Byte>, p: seq<Byte>): (c: seq<Byte>)
    requires |mk| == 16 && |p| == 16
    ensures |c| == 16
  {
    Bytes(Feistel.Run(T, Words(p), RoundKeys(mk)))
  }

  /** Decryption (section 7.2) is the same structure with the round keys in
      reverse order. */
  function DecryptBlock(mk: seq<Byte>, c: seq<Byte>): (p: seq<Byte>)
    requires |mk| == 16 && |c| == 16
    ensures |p| == 16
  {
    Bytes(Feistel.Run(T, Words(c), Feistel.Reverse(RoundKeys(mk))))
  }

  /** Decrypting a ciphertext under the key that produced it gives the
      plaintext back, for every key and block. */
  lemma DecryptEncrypt(mk: seq<Byte>, p: seq<Byte>)
    requires |mk| == 16 && |p| == 16
    ensures DecryptBlock(mk, EncryptBlock(mk, p)) == p
  {
    var rk := RoundKeys(mk);
    WordsOfBytes(Feistel.Run(T, Words(p), rk));
    Feistel.RoundTrip(T, Words(p), rk);
    BytesOfWords(p);
  }

  /** Encryption undoes decryption as well: under a fixed key the cipher is a
      permutation of the blocks. */
  lemma EncryptDecrypt(mk: seq<Byte>, c: seq<Byte>)
    requires |mk| == 16 && |c| == 16
    ensures EncryptBlock(mk, DecryptBlock(mk, c)) == c
  {
    var rk := RoundKeys(mk);
    WordsOfBytes(Feistel.Run(T, Words(c), Feistel.Reverse(rk)));
    Feistel.RoundTrip(T, Words(c), Feistel.Reverse(rk));
    Feistel.ReverseReverse(rk);
    BytesOfWords(c);
  }

  // ---------------------------------------------------------------------
  // The library entry points, over caller-provided arrays
  // ---------------------------------------------------------------------

  // The methods below compute the standard's algorithm one word at a time:
  // the words K[0..35] of the key expansion and X[0..35] of the rounds are
  // local sequences that each loop extends by one word, and one step of each
  // loop is a method of its own. The bodies of the library functions are not
  // part of this model; only their interfaces are.

  /** One step of the key expansion: the next key word from four. */
  method KeyWord(k0: Word, k1: Word, k2: Word, k3: Word, ck: Word) returns (k4: Word)
    ensures k4 == Feistel.Round(TKey, k0, k1, k2, k3, ck)
  {
    var tmp := Xor(Xor(Xor(k1, k2), k3), ck);
    var buf := Tau(tmp);
    k4 := Xor(k0, LKey(buf));
  }

  /** One round of the cipher: the next state word from four. */
  method CipherWord(x0: Word, x1: Word, x2: Word, x3: Word, rk: Word) returns (x4: Word)
    ensures x4 == Feistel.Round(T, x0, x1, x2, x3, rk)
  {
    var tmp := Xor(Xor(Xor(x1, x2), x3), rk);
    var buf := Tau(tmp);
    x4 := Xor(x0, L(buf));
  }

  /** The key expansion of SM4_KeySchedule: from the words K[0..3], the 32
      rounds with T' and CK; the round keys are the words the rounds produce. */
  method ExpandKey(K0: seq<Word>) returns (keys: seq<Word>)
    requires |K0| == 4
    ensures keys == Feistel.Chain(TKey, K0, CK, 32)[4..]
  {
    var K := K0;
    for i := 0 to 32
      invariant K == Feistel.Chain(TKey, K0, CK, i)
    {
      var w := KeyWord(K[i], K[i + 1], K[i + 2], K[i + 3], CK[i]);
      Feistel.ChainExtend(TKey, K0, CK, i, K, w);
      K := K + [w];
    }
    keys := K[4..];
  }

  /** SM4_KeySchedule: fills rk with the 32 round keys of the master key MK. */
  method KeySchedule(MK: array<Byte>, rk: array<Word>)
    requires MK.Length == 16 && rk.Length == 32
    modifies rk
    ensures rk[..] == RoundKeys(old(MK[..]))
  {
    var keys := ExpandKey(KeyState(MK[..]));
    StoreWords(keys, rk);
  }

  /** Copies the words of s into the array a of the same length. */
  method StoreWords(s: seq<Word>, a: array<Word>)
    requires |s| == a.Length
    modifies a
    ensures a[..] == s
  {
    for i := 0 to a.Length
      invariant a[..i] == s[..i]
    {
      a[i] := s[i];
    }
  }

  /** The rounds of SM4_Encrypt: the 32 rounds with T under rk[0..31],
      then R. */
  method EncryptRounds(x: seq<Word>, rk: array<Word>) returns (y: seq<Word>)
    requires |x| == 4 && rk.Length == 32
    ensures y == Feistel.Run(T, x, rk[..])
  {
    var X := x;
    for i := 0 to 32
      invariant X == Feistel.Chain(T, x, rk[..], i)
    {
      var w := CipherWord(X[i], X[i + 1], X[i + 2], X[i + 3], rk[i]);
      Feistel.ChainExtend(T, x, rk[..], i, X, w);
      X := X + [w];
    }
    y := [X[35], X[34], X[33], X[32]];
  }

  /** The rounds of SM4_Decrypt: the same rounds under rk[31], ..., rk[0]. */
  method DecryptRounds(x: seq<Word>, rk: array<Word>) returns (y: seq<Word>)
    requires |x| == 4 && rk.Length == 32
    ensures y == Feistel.Run(T, x, Feistel.Reverse(rk[..]))
  {
    ghost var keys := Feistel.Reverse(rk[..]);
    var X := x;
    for i := 0 to 32
      invariant X == Feistel.Chain(T, x, keys, i)
    {
      var w := CipherWord(X[i], X[i + 1], X[i + 2], X[i + 3], rk[31 - i]);
      Feistel.ChainExtend(T, x, keys, i, X, w);
      X := X + [w];
    }
    y := [X[35], X[34], X[33], X[32]];
  }

  /** The input of SM4_Encrypt and SM4_Decrypt: the 16 bytes as four
      big-endian words. */
  method LoadWords(b: array<Byte>) returns (x: seq<Word>)
    requires b.Length == 16
    ensures x == Words(b[..])
  {
    x := [];
    for j := 0 to 4
      invariant |x| == j && forall k :: 0 <= k < j ==> x[k] == Load(b[..], k)
    {
      var w := (b[4 * j] as Word << 24) | (b[4 * j + 1] as Word << 16) | (b[4 * j + 2] as Word << 8) | b[4 * j + 3] as Word;
      x := x + [w];
    }
  }

  /** The output of SM4_Encrypt and SM4_Decrypt: four words written to b,
      most significant byte first. */
  method StoreBytes(y: seq<Word>, b: array<Byte>)
    requires |y| == 4 && b.Length == 16
    modifies b
    ensures b[..] == Bytes(y)
  {
    for j := 0 to 4
      invariant b[..4 * j] == Bytes(y)[..4 * j]
    {
      BytesPrefix(y, j);
      PutWord(y[j], b, j);
    }
    assert b[..] == b[..16];
  }

  /** One word of the output: the four bytes of w at 4 * j, ..., 4 * j + 3,
      after the bytes before them, which are left as they were. */
  method PutWord(w: Word, b: array<Byte>, j: nat)
    requires 4 * j + 4 <= b.Length
    modifies b
    ensures b[..4 * j + 4] == old(b[..4 * j]) + Store(w)
    ensures b[4 * j + 4..] == old(b[4 * j + 4..])
  {
    b[4 * j] := ((w >> 24) & 0xFF) as Byte;
    b[4 * j + 1] := ((w >> 16) & 0xFF) as Byte;
    b[4 * j + 2] := ((w >> 8) & 0xFF) as Byte;
    b[4 * j + 3] := (w & 0xFF) as Byte;
    assert b[..4 * j + 4] == old(b[..4 * j]) + Store(w);
  }

  /** SM4_Encrypt: CipherText receives the encryption of PlainText under MK.
      The three buffers may be the same array: the inputs are read in full
      before the output is written. The model reads the block first and then
      computes the round keys; both steps only read the inputs, so their
      order does not affect the result. */
  method Encrypt(MK: array<Byte>, PlainText: array<Byte>, CipherText: array<Byte>)
    requires MK.Length == 16 && PlainText.Length == 16 && CipherText.Length == 16
    modifies CipherText
    ensures CipherText[..] == EncryptBlock(old(MK[..]), old(PlainText[..]))
  {
    ghost var mk, t := MK[..], PlainText[..];
    var x := LoadWords(PlainText);
    var rk := new Word[32];
    KeySchedule(MK, rk);
    var y := EncryptRounds(x, rk);
    assert y == Feistel.Run(T, Words(t), RoundKeys(mk));
    StoreBytes(y, CipherText);
  }

  /** SM4_Decrypt: PlainText receives the decryption of CipherText under MK,
      with the same steps as Encrypt and the round keys taken last to first. */
  method Decrypt(MK: array<Byte>, CipherText: array<Byte>, PlainText: array<Byte>)
    requires MK.Length == 16 && CipherText.Length == 16 && PlainText.Length == 16
    modifies PlainText
    ensures PlainText[..] == DecryptBlock(old(MK[..]), old(CipherText[..]))
  {
    ghost var mk, t := MK[..], CipherText[..];
    var x := LoadWords(CipherText);
    var rk := new Word[32];
    KeySchedule(MK, rk);
    var y := DecryptRounds(x, rk);
    assert y == Feistel.Run(T, Words(t), Feistel.Reverse(RoundKeys(mk)));
    StoreBytes(y, PlainText);
  }

  // ---------------------------------------------------------------------
  // SM4_SelfCheck: the example of appendix A.1 of GB/T 32907-2016
  // ---------------------------------------------------------------------

  /** The key of the example, which is also its plaintext. */
  const StdKey: seq<Byte> := [0x01, 0x23, 0x45, 0x67, 0x89, 0xAB, 0xCD, 0xEF, 0xFE, 0xDC, 0xBA, 0x98, 0x76, 0x54, 0x32, 0x10]

  /** The ciphertext of the example. */
  const StdCipher: seq<Byte> := [0x68, 0x1E, 0xDF, 0x34, 0xD2, 0x06, 0x96, 0x5E, 0x86, 0xB3, 0xE9, 0x4F, 0x53, 0x6E, 0x42, 0x46]

  /** The self-check passes when encrypting the example's plaintext gives its
      ciphertext and decrypting its ciphertext gives its plaintext. */
  predicate SelfCheckPasses()
  {
    EncryptBlock(StdKey, StdKey) == StdCipher && DecryptBlock(StdKey, StdCipher) == StdKey
  }

  /** SM4_SelfCheck: 0 when both directions of the example agree, 1 otherwise. */
  method SelfCheck() returns (r: int)
    ensures r == 0 || r == 1
    ensures r == 0 <==> SelfCheckPasses()
  {
    r := CheckExample(StdKey, StdKey, StdCipher);
  }

  /** The self-check over the data of an example: encrypts the plaintext and
      decrypts the ciphertext into new buffers and compares them with the
      expected ones. */
  method CheckExample(key: seq<Byte>, plaintext: seq<Byte>, ciphertext: seq<Byte>) returns (r: int)
    requires |key| == 16 && |plaintext| == 16 && |ciphertext| == 16
    ensures r == 0 || r == 1
    ensures r == 0 <==> EncryptBlock(key, plaintext) == ciphertext && DecryptBlock(key, ciphertext) == plaintext
  {
    var enOutput := EncryptExample(key, plaintext);
    var deOutput := DecryptExample(key, ciphertext);
    var plain := ArrayOf(plaintext);
    var cipher := ArrayOf(ciphertext);
    r := Compare(enOutput, cipher, deOutput, plain);
  }

  /** SM4_Encrypt of the example's key and plaintext into a new buffer. */
  method EncryptExample(key: seq<Byte>, plaintext: seq<Byte>) returns (enOutput: array<Byte>)
    requires |key| == 16 && |plaintext| == 16
    ensures fresh(enOutput) && enOutput[..] == EncryptBlock(key, plaintext)
  {
    var k := ArrayOf(key);
    var plain := ArrayOf(plaintext);
    enOutput := new Byte[16];
    Encrypt(k, plain, enOutput);
  }

  /** SM4_Decrypt of the example's key and ciphertext into a new buffer. */
  method DecryptExample(key: seq<Byte>, ciphertext: seq<Byte>) returns (deOutput: array<Byte>)
    requires |key| == 16 && |ciphertext| == 16
    ensures fresh(deOutput) && deOutput[..] == DecryptBlock(key, ciphertext)
  {
    var k := ArrayOf(key);
    var cipher := ArrayOf(ciphertext);
    deOutput := new Byte[16];
    Decrypt(k, cipher, deOutput);
  }

  /** The comparison of the self-check: 1 at the first index where en
      differs from c or de differs from p, 0 when there is none. */
  method Compare(en: array<Byte>, c: array<Byte>, de: array<Byte>, p: array<Byte>) returns (r: int)
    requires en.Length == 16 && c.Length == 16 && de.Length == 16 && p.Length == 16
    ensures r == 0 || r == 1
    ensures r == 0 <==> en[..] == c[..] && de[..] == p[..]
  {
    for i := 0 to 16
      invariant en[..i] == c[..i] && de[..i] == p[..i]
    {
      if en[i] != c[i] || de[i] != p[i] {
        return 1;
      }
    }
    assert en[..] == en[..16] && c[..] == c[..16] && de[..] == de[..16] && p[..] == p[..16];
    return 0;
  }

  /** A new array holding the bytes of s. */
  method ArrayOf(s: seq<Byte>) returns (a: array<Byte>)
    ensures fresh(a) && a[..] == s
  {
    a := new Byte[|s|](i requires 0 <= i < |s| => s[i]);
  }
}
