/** Base64url with the padding stripped and put back, as in section 5 of RFC 4648. */
module Base64Url {
  import opened Prelude

  type Byte = b: int | 0 <= b < 256

  function Digit(n: int): char
    requires 0 <= n < 64
  {
    if n < 26 then ('A' as int + n) as char
    else if n < 52 then ('a' as int + n - 26) as char
    else if n < 62 then ('0' as int + n - 52) as char
    else if n == 62 then '-' else '_'
  }

  function ValueOf(c: char): (value: Option<int>)
    ensures value.Some? ==> 0 <= value.value < 64
  {
    if 'A' <= c <= 'Z' then Some(c as int - 'A' as int)
    else if 'a' <= c <= 'z' then Some(c as int - 'a' as int + 26)
    else if '0' <= c <= '9' then Some(c as int - '0' as int + 52)
    else if c == '-' then Some(62)
    else if c == '_' then Some(63)
    else None
  }

  lemma DigitRoundTrip(n: int)
    requires 0 <= n < 64
    ensures ValueOf(Digit(n)) == Some(n)
  {
  }

  // ---------------------------------------------------------------------
  // The standard codec, with padding
  // ---------------------------------------------------------------------

  function Encode(bytes: seq<Byte>): string {
    if bytes == [] then []
    else if |bytes| == 1 then [Digit(bytes[0] / 4), Digit(bytes[0] % 4 * 16), '=', '=']
    else if |bytes| == 2 then
      [Digit(bytes[0] / 4), Digit(bytes[0] % 4 * 16 + bytes[1] / 16), Digit(bytes[1] % 16 * 4), '=']
    else Quad(bytes[0], bytes[1], bytes[2]) + Encode(bytes[3..])
  }

  function Quad(a: Byte, b: Byte, c: Byte): (quad: string)
    ensures |quad| == 4
  {
    [Digit(a / 4), Digit(a % 4 * 16 + b / 16), Digit(b % 16 * 4 + c / 64), Digit(c % 64)]
  }

  function Decode(text: string): Option<seq<Byte>> {
    if text == [] then Some([])
    else if |text| < 4 then None
    else
      var a, b, c, d := ValueOf(text[0]), ValueOf(text[1]), ValueOf(text[2]), ValueOf(text[3]);
      if a.None? || b.None? then None
      else if |text| == 4 && text[2] == '=' && text[3] == '=' then Some(Join(a.value, b.value, 0, 0)[..1])
      else if c.None? then None
      else if |text| == 4 && text[3] == '=' then Some(Join(a.value, b.value, c.value, 0)[..2])
      else if d.None? then None
      else
        var rest := Decode(text[4..]);
        if rest.None? then None
        else
          Some(Join(a.value, b.value, c.value, d.value) + rest.value)
  }

  /** Four sextets as three bytes. */
  function Join(w: int, x: int, y: int, z: int): seq<Byte>
    requires 0 <= w < 64 && 0 <= x < 64 && 0 <= y < 64 && 0 <= z < 64
  {
    [w * 4 + x / 16, x % 16 * 16 + y / 4, y % 4 * 64 + z]
  }

  // ---------------------------------------------------------------------
  // Without padding
  // ---------------------------------------------------------------------

  /** rstrip("=") */
  function Strip(text: string): string {
    if text != [] && text[|text| - 1] == '=' then Strip(text[..|text| - 1]) else text
  }

  function Pads(count: nat): string {
    seq(count, _ => '=')
  }

  function EncodeUnpadded(bytes: seq<Byte>): string {
    Strip(Encode(bytes))
  }

  function DecodeUnpadded(text: string): Option<seq<Byte>> {
    Decode(text + Pads(-|text| % 4))
  }

  // ---------------------------------------------------------------------
  // Round trip
  // ---------------------------------------------------------------------

  ghost predicate UrlSafe(text: string) {
    forall i :: 0 <= i < |text| ==> ValueOf(text[i]).Some?
  }

  lemma UrlSafeConcat(a: string, b: string)
    requires UrlSafe(a) && UrlSafe(b)
    ensures UrlSafe(a + b)
  {
    forall i | 0 <= i < |a + b| ensures ValueOf((a + b)[i]).Some? {
      assert (a + b)[i] == if i < |a| then a[i] else b[i - |a|];
    }
  }

  lemma QuadDigits(a: Byte, b: Byte, c: Byte)
    ensures var quad := Quad(a, b, c);
            && UrlSafe(quad)
            && ValueOf(quad[0]).value == a / 4 && ValueOf(quad[1]).value == a % 4 * 16 + b / 16
            && ValueOf(quad[2]).value == b % 16 * 4 + c / 64 && ValueOf(quad[3]).value == c % 64
  {
    DigitRoundTrip(a / 4);
    DigitRoundTrip(a % 4 * 16 + b / 16);
    DigitRoundTrip(b % 16 * 4 + c / 64);
    DigitRoundTrip(c % 64);
  }

  /** Splitting 24 bits into four sextets and joining them again. */
  lemma Regroup(a: Byte, b: Byte, c: Byte)
    ensures Join(a / 4, a % 4 * 16 + b / 16, b % 16 * 4 + c / 64, c % 64) == [a, b, c]
  {
    assert (a % 4 * 16 + b / 16) / 16 == a % 4 && (a % 4 * 16 + b / 16) % 16 == b / 16;
    assert (b % 16 * 4 + c / 64) / 4 == b % 16 && (b % 16 * 4 + c / 64) % 4 == c / 64;
  }

  lemma DecodeQuad(quad: string, rest: string)
    requires |quad| == 4 && UrlSafe(quad) && Decode(rest).Some?
    ensures var w, x, y, z := ValueOf(quad[0]), ValueOf(quad[1]), ValueOf(quad[2]), ValueOf(quad[3]);
            Decode(quad + rest) == Some(Join(w.value, x.value, y.value, z.value) + Decode(rest).value)
  {
    var text := quad + rest;
    assert text[4..] == rest;
    assert text[0] == quad[0] && text[1] == quad[1] && text[2] == quad[2] && text[3] == quad[3];
    assert ValueOf('=').None?;
  }

  lemma EncodeGroup(bytes: seq<Byte>)
    requires |bytes| >= 3
    ensures Encode(bytes) == Quad(bytes[0], bytes[1], bytes[2]) + Encode(bytes[3..])
  {
  }

  /** A final group of `count` bytes, padded to four characters, decodes to its first `count` bytes. */
  lemma DecodeLast(quad: string, count: int)
    requires |quad| == 4 && UrlSafe(quad) && 1 <= count <= 2
    ensures var w, x, y := ValueOf(quad[0]).value, ValueOf(quad[1]).value, ValueOf(quad[2]).value;
            var text := if count == 1 then [quad[0], quad[1], '=', '='] else [quad[0], quad[1], quad[2], '='];
            Decode(text) == Some(Join(w, x, if count == 1 then 0 else y, 0)[..count])
  {
    assert ValueOf('=').None?;
  }

  lemma TwoBytesRoundTrip(a: Byte, b: Byte)
    ensures Decode(Encode([a, b])) == Some([a, b])
  {
    QuadDigits(a, b, 0);
    var quad := Quad(a, b, 0);
    DecodeLast(quad, 2);
    Regroup(a, b, 0);
    assert Encode([a, b]) == [quad[0], quad[1], quad[2], '='];
    assert [a, b, 0][..2] == [a, b];
  }

  lemma OneByteRoundTrip(a: Byte)
    ensures Decode(Encode([a])) == Some([a])
  {
    QuadDigits(a, 0, 0);
    var quad := Quad(a, 0, 0);
    DecodeLast(quad, 1);
    Regroup(a, 0, 0);
    assert Encode([a]) == [quad[0], quad[1], '=', '='];
    assert [a, 0, 0][..1] == [a];
  }

  lemma {:induction false} PaddedRoundTrip(bytes: seq<Byte>)
    ensures Decode(Encode(bytes)) == Some(bytes)
  {
    if |bytes| >= 3 {
      var a, b, c := bytes[0], bytes[1], bytes[2];
      PaddedRoundTrip(bytes[3..]);
      EncodeGroup(bytes);
      QuadDigits(a, b, c);
      DecodeQuad(Quad(a, b, c), Encode(bytes[3..]));
      Regroup(a, b, c);
      assert bytes == [a, b, c] + bytes[3..];
    } else if |bytes| == 2 {
      TwoBytesRoundTrip(bytes[0], bytes[1]);
      assert bytes == [bytes[0], bytes[1]];
    } else if |bytes| == 1 {
      OneByteRoundTrip(bytes[0]);
      assert bytes == [bytes[0]];
    }
  }

  lemma {:induction false} StripPads(text: string, count: nat)
    requires UrlSafe(text)
    ensures Strip(text + Pads(count)) == text
  {
    if count == 0 {
      assert text + Pads(count) == text;
    } else {
      var padded := text + Pads(count);
      assert padded[..|padded| - 1] == text + Pads(count - 1);
      StripPads(text, count - 1);
    }
  }

  /** If an encoding is URL-safe text and padding, the text is what stripping leaves. */
  lemma Stripped(bytes: seq<Byte>, text: string, count: nat)
    requires Encode(bytes) == text + Pads(count) && UrlSafe(text) && count == -|text| % 4
    ensures EncodeUnpadded(bytes) == text && Encode(bytes) == text + Pads(-|text| % 4)
  {
    StripPads(text, count);
  }

  /** The encoding is URL-safe text of minimal length, then the padding that the decoder puts back. */
  ghost predicate WellShaped(bytes: seq<Byte>) {
    var text := EncodeUnpadded(bytes);
    && UrlSafe(text)
    && |text| == (8 * |bytes| + 5) / 6
    && Encode(bytes) == text + Pads(-|text| % 4)
  }

  lemma EmptyShape()
    ensures WellShaped([])
  {
    Stripped([], [], 0);
  }

  /** The digits of a last single byte are the first two of a zero-filled group. */
  lemma OneByteShape(a: Byte)
    ensures WellShaped([a])
  {
    QuadDigits(a, 0, 0);
    assert Pads(2) == ['=', '='];
    Stripped([a], Quad(a, 0, 0)[..2], 2);
  }

  /** And those of a last pair of bytes are the first three. */
  lemma TwoByteShape(a: Byte, b: Byte)
    ensures WellShaped([a, b])
  {
    QuadDigits(a, b, 0);
    assert Pads(1) == ['='];
    Stripped([a, b], Quad(a, b, 0)[..3], 1);
  }

  lemma JoinGroup(quad: string, rest: string)
    requires |quad| == 4
    ensures quad + (rest + Pads(-|rest| % 4)) == (quad + rest) + Pads(-|quad + rest| % 4)
  {
    assert -(4 + |rest|) % 4 == -|rest| % 4;
  }

  lemma PrependGroup(bytes: seq<Byte>, quad: string, rest: string)
    requires |bytes| >= 3 && |quad| == 4 && UrlSafe(quad) && UrlSafe(rest)
    requires Encode(bytes) == quad + (rest + Pads(-|rest| % 4))
    requires |rest| == (8 * |bytes[3..]| + 5) / 6
    ensures WellShaped(bytes)
  {
    UrlSafeConcat(quad, rest);
    JoinGroup(quad, rest);
    Stripped(bytes, quad + rest, -|quad + rest| % 4);
  }

  lemma GroupShape(bytes: seq<Byte>)
    requires |bytes| >= 3 && WellShaped(bytes[3..])
    ensures WellShaped(bytes)
  {
    EncodeGroup(bytes);
    QuadDigits(bytes[0], bytes[1], bytes[2]);
    PrependGroup(bytes, Quad(bytes[0], bytes[1], bytes[2]), EncodeUnpadded(bytes[3..]));
  }

  lemma {:induction false} EncodingShape(bytes: seq<Byte>)
    ensures WellShaped(bytes)
  {
    if bytes == [] {
      EmptyShape();
    } else if |bytes| == 1 {
      OneByteShape(bytes[0]);
      assert bytes == [bytes[0]];
    } else if |bytes| == 2 {
      TwoByteShape(bytes[0], bytes[1]);
      assert bytes == [bytes[0], bytes[1]];
    } else {
      EncodingShape(bytes[3..]);
      GroupShape(bytes);
    }
  }

  // ---------------------------------------------------------------------
  // Which characters the bytes become
  // ---------------------------------------------------------------------

  /** The character stands for the number: A to Z, a to z, 0 to 9, then the two that are safe in a URL. */
  predicate StandsFor(c: char, n: int) {
    || ('A' <= c <= 'Z' && n == c as int - 'A' as int)
    || ('a' <= c <= 'z' && n == c as int - 'a' as int + 26)
    || ('0' <= c <= '9' && n == c as int - '0' as int + 52)
    || (c == '-' && n == 62)
    || (c == '_' && n == 63)
  }

  function ByteAt(bytes: seq<Byte>, i: nat): Byte {
    if i < |bytes| then bytes[i] else 0
  }

  /** The six bits of two bytes from bit `offset` on: the low bits of the first, then the high bits of the second. */
  function SixBits(a: Byte, b: Byte, offset: nat): int {
    if offset == 0 then a / 4
    else if offset == 2 then a % 64
    else if offset == 4 then a % 16 * 4 + b / 64
    else a % 4 * 16 + b / 16
  }

  /** The six bits of `bytes`, continued with zeros, from bit `6 * k` on. */
  function Sextet(bytes: seq<Byte>, k: nat): int {
    SixBits(ByteAt(bytes, 6 * k / 8), ByteAt(bytes, 6 * k / 8 + 1), 6 * k % 8)
  }

  lemma SextetOfRest(bytes: seq<Byte>, k: nat)
    requires |bytes| >= 3
    ensures Sextet(bytes, k + 4) == Sextet(bytes[3..], k)
  {
    assert 6 * (k + 4) / 8 == 6 * k / 8 + 3 && 6 * (k + 4) % 8 == 6 * k % 8;
  }

  lemma DigitStands(n: int)
    requires 0 <= n < 64
    ensures StandsFor(Digit(n), n)
  {
  }

  lemma QuadStands(a: Byte, b: Byte, c: Byte)
    ensures var quad := Quad(a, b, c);
            && StandsFor(quad[0], SixBits(a, b, 0)) && StandsFor(quad[1], SixBits(a, b, 6))
            && StandsFor(quad[2], SixBits(b, c, 4)) && StandsFor(quad[3], SixBits(c, 0, 2))
  {
    DigitStands(a / 4);
    DigitStands(a % 4 * 16 + b / 16);
    DigitStands(b % 16 * 4 + c / 64);
    DigitStands(c % 64);
  }

  lemma OneByteQuad(bytes: seq<Byte>)
    requires |bytes| == 1
    ensures |Encode(bytes)| == 4 && Encode(bytes)[..2] == Quad(bytes[0], 0, 0)[..2]
  {
  }

  lemma TwoByteQuad(bytes: seq<Byte>)
    requires |bytes| == 2
    ensures |Encode(bytes)| == 4 && Encode(bytes)[..3] == Quad(bytes[0], bytes[1], 0)[..3]
  {
  }

  /** The first characters of an encoding are those of the group that its first bytes begin. */
  lemma LeadingQuad(bytes: seq<Byte>, k: nat)
    requires k < 4 && 6 * k < 8 * |bytes|
    ensures k < |Encode(bytes)|
    ensures Encode(bytes)[k] == Quad(ByteAt(bytes, 0), ByteAt(bytes, 1), ByteAt(bytes, 2))[k]
  {
    if |bytes| >= 3 {
      EncodeGroup(bytes);
    } else if |bytes| == 2 {
      TwoByteQuad(bytes);
      assert Encode(bytes)[k] == Encode(bytes)[..3][k];
    } else {
      OneByteQuad(bytes);
      assert Encode(bytes)[k] == Encode(bytes)[..2][k];
    }
  }

  lemma SextetInGroup(bytes: seq<Byte>)
    ensures Sextet(bytes, 0) == SixBits(ByteAt(bytes, 0), ByteAt(bytes, 1), 0)
    ensures Sextet(bytes, 1) == SixBits(ByteAt(bytes, 0), ByteAt(bytes, 1), 6)
    ensures Sextet(bytes, 2) == SixBits(ByteAt(bytes, 1), ByteAt(bytes, 2), 4)
    ensures Sextet(bytes, 3) == SixBits(ByteAt(bytes, 2), 0, 2)
  {
  }

  lemma EncodedGroup(bytes: seq<Byte>, k: nat)
    requires k < 4 && 6 * k < 8 * |bytes|
    ensures k < |Encode(bytes)| && StandsFor(Encode(bytes)[k], Sextet(bytes, k))
  {
    LeadingQuad(bytes, k);
    QuadStands(ByteAt(bytes, 0), ByteAt(bytes, 1), ByteAt(bytes, 2));
    SextetInGroup(bytes);
    assert k == 0 || k == 1 || k == 2 || k == 3;
  }

  /** Character number `k` of a padded encoding, up to the padding, stands for sextet number `k` of the bytes. */
  lemma {:induction false} EncodedSextet(bytes: seq<Byte>, k: nat)
    requires 6 * k < 8 * |bytes|
    ensures k < |Encode(bytes)| && StandsFor(Encode(bytes)[k], Sextet(bytes, k))
  {
    if k < 4 {
      EncodedGroup(bytes, k);
    } else {
      EncodeGroup(bytes);
      EncodedSextet(bytes[3..], k - 4);
      SextetOfRest(bytes, k - 4);
    }
  }

  /** So the text is the bits of the bytes, six to a character, the last ones filled up with zeros. */
  lemma TextIsSextets(bytes: seq<Byte>)
    ensures var text := EncodeUnpadded(bytes);
            |text| == (8 * |bytes| + 5) / 6 && forall k :: 0 <= k < |text| ==> StandsFor(text[k], Sextet(bytes, k))
  {
    EncodingShape(bytes);
    var text := EncodeUnpadded(bytes);
    forall k | 0 <= k < |text| ensures StandsFor(text[k], Sextet(bytes, k)) {
      EncodedSextet(bytes, k);
    }
  }

  /** Stripping the padding and restoring it from the length alone is the identity on all byte strings. */
  lemma UnpaddedRoundTrip(bytes: seq<Byte>)
    ensures DecodeUnpadded(EncodeUnpadded(bytes)) == Some(bytes)
  {
    EncodingShape(bytes);
    PaddedRoundTrip(bytes);
  }
}
