/** The byte strings through which SM2 passes its big numbers: a scalar or a
    coordinate is SM2_NUMWORD = SM2_NUMBITS / SM2_WORDSIZE = 32 bytes, most
    significant byte first. */
module BigNum {

  /** An unsigned char of the byte buffers, as a number. */
  type Octet = x: int | 0 <= x < 256

  const WordSize: nat := 8
  const NumBits: nat := 256
  const NumWord: nat := NumBits / WordSize

  /** 256 to the power len: the count of len-byte strings. */
  function Pow256(len: nat): (p: nat)
    ensures p > 0
  {
    if len == 0 then 1 else 256 * Pow256(len - 1)
  }

  /** The number a big-endian byte string stands for. */
  function Decode(b: seq<Octet>): (x: nat)
    ensures x < Pow256(|b|)
  {
    if |b| == 0 then 0 else Decode(b[..|b| - 1]) * 256 + b[|b| - 1]
  }

  /** The len low-order bytes of x, most significant first. */
  function Encode(x: nat, len: nat): (b: seq<Octet>)
    ensures |b| == len
  {
    if len == 0 then [] else Encode(x / 256, len - 1) + [x % 256]
  }

  /** A number below 256^len reads back from its len-byte encoding. */
  lemma {:induction false} DecodeEncode(x: nat, len: nat)
    requires x < Pow256(len)
    ensures Decode(Encode(x, len)) == x
  {
    if len > 0 {
      DecodeEncode(x / 256, len - 1);
      var b := Encode(x, len);
      assert b[..len - 1] == Encode(x / 256, len - 1);
    }
  }

  /** Every byte string is the encoding of the number it stands for. */
  lemma {:induction false} EncodeDecode(b: seq<Octet>)
    ensures Encode(Decode(b), |b|) == b
  {
    if |b| > 0 {
      var m := |b| - 1;
      var x := Decode(b);
      assert x / 256 == Decode(b[..m]) && x % 256 == b[m];
      EncodeDecode(b[..m]);
      assert b == b[..m] + [b[m]];
    }
  }
}
