/** The integers of a published RSA key, as Base64urlUInt values (section 2 of RFC 7518). */
module KeyEncoding {
  import opened Prelude
  import opened Base64Url

  function BitLength(n: nat): nat {
    if n == 0 then 0 else 1 + BitLength(n / 2)
  }

  function ByteLength(n: nat): nat {
    (BitLength(n) + 7) / 8
  }

  /** int.to_bytes(length, "big"): None where Python raises OverflowError. */
  function ToBytes(n: nat, length: nat): (bytes: Option<seq<Byte>>)
    ensures bytes.Some? ==> |bytes.value| == length
  {
    if length == 0 then if n == 0 then Some([]) else None
    else
      var high := ToBytes(n / 256, length - 1);
      if high.None? then None else Some(high.value + [n % 256])
  }

  function FromBytes(bytes: seq<Byte>): nat {
    if bytes == [] then 0 else FromBytes(bytes[..|bytes| - 1]) * 256 + bytes[|bytes| - 1]
  }

  function EncodeInteger(n: nat): Option<string> {
    var bytes := ToBytes(n, ByteLength(n));
    if bytes.None? then None else Some(EncodeUnpadded(bytes.value))
  }

  function DecodeInteger(text: string): Option<nat> {
    var bytes := DecodeUnpadded(text);
    if bytes.None? then None else Some(FromBytes(bytes.value))
  }

  lemma FourBits(n: nat)
    ensures n >= 16 ==> BitLength(n) == 4 + BitLength(n / 16)
    ensures 0 < n < 16 ==> 1 <= BitLength(n) <= 4
  {
    var n1 := n / 2;
    var n2 := n1 / 2;
    var n3 := n2 / 2;
    assert n3 / 2 == n / 16;
    assert n3 > 0 ==> BitLength(n3) == 1 + BitLength(n / 16);
    assert n2 > 0 ==> BitLength(n2) == 1 + BitLength(n3);
    assert n1 > 0 ==> BitLength(n1) == 1 + BitLength(n2);
  }

  lemma SixteenTwice(n: nat)
    ensures n / 16 / 16 == n / 256
    ensures n >= 256 <==> n / 16 >= 16
    ensures n >= 16 <==> n / 16 > 0
  {
  }

  lemma EightBits(n: nat)
    ensures n >= 256 ==> BitLength(n) == 8 + BitLength(n / 256)
    ensures 0 < n < 256 ==> 1 <= BitLength(n) <= 8
  {
    SixteenTwice(n);
    FourBits(n);
    if n >= 16 {
      FourBits(n / 16);
    }
  }

  lemma ByteLengthStep(n: nat)
    requires n > 0
    ensures ByteLength(n) == 1 + ByteLength(n / 256)
  {
    EightBits(n);
  }

  /** The computed length always fits, and loses nothing. */
  lemma {:induction false} ToBytesRoundTrip(n: nat)
    ensures var bytes := ToBytes(n, ByteLength(n));
            && bytes.Some? && FromBytes(bytes.value) == n
            && (n > 0 ==> bytes.value != [] && bytes.value[0] != 0)
  {
    if n == 0 {
    } else {
      ByteLengthStep(n);
      ToBytesRoundTrip(n / 256);
      var high := ToBytes(n / 256, ByteLength(n / 256)).value;
      assert (high + [n % 256])[..|high|] == high;
    }
  }

  /** The big-endian octets of `n` without a leading zero. */
  function Octets(n: nat): (bytes: seq<Byte>)
    ensures |bytes| == ByteLength(n)
  {
    ToBytesRoundTrip(n);
    ToBytes(n, ByteLength(n)).value
  }

  lemma OctetsStep(n: nat)
    requires n > 0
    ensures Octets(n) == Octets(n / 256) + [n % 256]
  {
    ByteLengthStep(n);
  }

  lemma LowOctet(high: nat, low: Byte)
    ensures (high * 256 + low) / 256 == high && (high * 256 + low) % 256 == low
  {
  }

  /** It is the least length that fits: every other octet string for `n` is this one behind zero octets. */
  lemma {:induction false} ByteLengthIsMinimal(bytes: seq<Byte>)
    ensures var n := FromBytes(bytes);
            var zeros := |bytes| - ByteLength(n);
            && zeros >= 0
            && bytes[zeros..] == Octets(n)
            && forall i :: 0 <= i < zeros ==> bytes[i] == 0
  {
    if bytes == [] {
    } else {
      var high, low := bytes[..|bytes| - 1], bytes[|bytes| - 1];
      var n, m := FromBytes(bytes), FromBytes(high);
      ByteLengthIsMinimal(high);
      LowOctet(m, low);
      var zeros := |high| - ByteLength(m);
      if n > 0 {
        ByteLengthStep(n);
        OctetsStep(n);
        assert bytes[zeros..] == high[zeros..] + [low];
      } else {
        assert forall i :: 0 <= i < |high| ==> bytes[i] == high[i];
      }
    }
  }

  /** Decoding the published text gives the key's integer back, so the encoder is injective. */
  lemma IntegerRoundTrip(n: nat)
    ensures EncodeInteger(n).Some? && DecodeInteger(EncodeInteger(n).value) == Some(n)
    ensures n > 0 ==> var bytes := DecodeUnpadded(EncodeInteger(n).value).value; bytes != [] && bytes[0] != 0
  {
    ToBytesRoundTrip(n);
    UnpaddedRoundTrip(ToBytes(n, ByteLength(n)).value);
  }

  lemma EncodingIsInjective(m: nat, n: nat)
    requires EncodeInteger(m) == EncodeInteger(n)
    ensures m == n
  {
    IntegerRoundTrip(m);
    IntegerRoundTrip(n);
  }
}
