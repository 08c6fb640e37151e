/**
 * Fixed-width big-endian integers, as written by Python's
 * struct formats '>I', '>Q', '>i', '>q' and read back by ntohl/ntohl64.
 */
module ByteOrder {
  type Byte = b: int | 0 <= b < 256

  /** 256^width: the number of distinct values of a width-byte field. */
  function Pow256(width: nat): (r: nat)
    ensures r > 0
  {
    if width == 0 then 1 else 256 * Pow256(width - 1)
  }

  lemma Pow256Values()
    ensures Pow256(4) == 0x1_0000_0000
    ensures Pow256(8) == 0x1_0000_0000_0000_0000
  {
  }

  /** The unsigned value of a big-endian byte string. */
  function DecodeUnsigned(s: seq<Byte>): (r: nat)
    ensures r < Pow256(|s|)
  {
    if |s| == 0 then 0 else DecodeUnsigned(s[..|s| - 1]) * 256 + s[|s| - 1]
  }

  /** The big-endian encoding of n in exactly width bytes; it is the inverse of DecodeUnsigned. */
  function EncodeUnsigned(n: nat, width: nat): (r: seq<Byte>)
    requires n < Pow256(width)
    ensures |r| == width
    ensures DecodeUnsigned(r) == n
  {
    if width == 0 then []
    else
      var prefix := EncodeUnsigned(n / 256, width - 1);
      assert (prefix + [n % 256])[..width - 1] == prefix;
      prefix + [n % 256]
  }

  lemma {:induction false} EncodeDecodeUnsigned(s: seq<Byte>)
    ensures EncodeUnsigned(DecodeUnsigned(s), |s|) == s
  {
    if |s| > 0 {
      var init := s[..|s| - 1];
      EncodeDecodeUnsigned(init);
      assert s == init + [s[|s| - 1]];
    }
  }

  /** A field of at least one byte splits evenly into a negative and a non-negative half. */
  lemma Pow256Half(width: nat)
    ensures width > 0 ==> Pow256(width) == 2 * (Pow256(width) / 2)
  {
    if width > 0 {
      assert Pow256(width) == 2 * (128 * Pow256(width - 1));
    }
  }

  /** Two's-complement reading of a big-endian byte string. */
  function DecodeSigned(s: seq<Byte>): (r: int)
    ensures |s| > 0 ==> -(Pow256(|s|) / 2) <= r < Pow256(|s|) / 2
  {
    var u := DecodeUnsigned(s);
    Pow256Half(|s|);
    if u >= Pow256(|s|) / 2 then u - Pow256(|s|) else u
  }

  /** Two's-complement big-endian encoding of n in width bytes; DecodeSigned undoes it. */
  function EncodeSigned(n: int, width: nat): (r: seq<Byte>)
    requires width > 0
    requires -(Pow256(width) / 2) <= n < Pow256(width) / 2
    ensures |r| == width
    ensures DecodeSigned(r) == n
  {
    if n < 0 then EncodeUnsigned(n + Pow256(width), width) else EncodeUnsigned(n, width)
  }
}
