/**
 * Big-endian ("network order") byte images of unsigned integers.
 *
 * The NTP packet fields (`htobe64`/`be64toh`) and the socket address fields
 * (`htonl`/`ntohl`, `htons`/`ntohs`) are stored in memory most significant
 * byte first. The model keeps those fields as their byte image and converts
 * with the two functions below, so that the round trips of the source's
 * byte-order conversions are lemmas about them.
 */
module ByteOrder {

  type byte = bv8

  /** 256 to the power n: the number of values an n-byte field can hold. */
  function Pow256(n: nat): (r: nat)
    ensures r > 0
  {
    if n == 0 then 1 else 256 * Pow256(n - 1)
  }

  /** The unsigned value whose big-endian image is `bs`. */
  function FromBigEndian(bs: seq<byte>): (v: nat)
    ensures v < Pow256(|bs|)
  {
    if bs == [] then 0
    else
      var high := FromBigEndian(bs[..|bs| - 1]);
      assert high <= Pow256(|bs| - 1) - 1;
      high * 256 + bs[|bs| - 1] as nat
  }

  /** The n-byte big-endian image of `v`. */
  function ToBigEndian(v: nat, n: nat): (bs: seq<byte>)
    requires v < Pow256(n)
    ensures |bs| == n
  {
    if n == 0 then []
    else ToBigEndian(v / 256, n - 1) + [(v % 256) as byte]
  }

  lemma ByteValue(r: nat)
    requires r < 256
    ensures (r as byte) as nat == r
  {
    // Splitting the range keeps the solver's bit-vector reasoning small.
    if r < 16 {
    } else if r < 32 {
    } else if r < 64 {
    } else if r < 128 {
    } else {
    }
  }

  lemma QuotientBound(v: nat, p: nat)
    requires v < 256 * p
    ensures v / 256 < p
  {
  }

  /** Decoding an encoded value gives the value back (be64toh(htobe64(v)) == v). */
  lemma {:induction false} DecodeEncode(v: nat, n: nat)
    requires v < Pow256(n)
    ensures FromBigEndian(ToBigEndian(v, n)) == v
  {
    if n > 0 {
      var q, r := v / 256, v % 256;
      assert v == q * 256 + r;
      QuotientBound(v, Pow256(n - 1));
      var high := ToBigEndian(q, n - 1);
      var bs := high + [r as byte];
      assert bs == ToBigEndian(v, n);
      assert bs[..n - 1] == high;
      ByteValue(r);
      DecodeEncode(q, n - 1);
      assert FromBigEndian(bs) == FromBigEndian(high) * 256 + r;
    }
  }

  /** Encoding a decoded image gives the image back (htobe64(be64toh(s)) == s). */
  lemma {:induction false} EncodeDecode(bs: seq<byte>)
    ensures ToBigEndian(FromBigEndian(bs), |bs|) == bs
  {
    if bs != [] {
      var n := |bs|;
      var v := FromBigEndian(bs);
      var high := FromBigEndian(bs[..n - 1]);
      assert v / 256 == high && v % 256 == bs[n - 1] as nat;
      EncodeDecode(bs[..n - 1]);
      assert bs == bs[..n - 1] + [bs[n - 1]];
    }
  }

  /** Equal-length images are equal exactly when their values are. */
  lemma FromBigEndianInjective(a: seq<byte>, b: seq<byte>)
    requires |a| == |b|
    ensures FromBigEndian(a) == FromBigEndian(b) <==> a == b
  {
    if FromBigEndian(a) == FromBigEndian(b) {
      EncodeDecode(a);
      EncodeDecode(b);
    }
  }

  /** The image of zero is all zero bytes, and only zero has that image. */
  lemma {:induction false} ZeroImage(bs: seq<byte>)
    ensures FromBigEndian(bs) == 0 <==> forall i :: 0 <= i < |bs| ==> bs[i] == 0
  {
    if bs != [] {
      ZeroImage(bs[..|bs| - 1]);
      assert forall i :: 0 <= i < |bs| - 1 ==> bs[..|bs| - 1][i] == bs[i];
    }
  }
}
