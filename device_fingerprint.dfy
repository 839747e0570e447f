/** The device-fingerprint hook's generateHash, after the SHA-256 call: the
    digest bytes written as lower-case hexadecimal, two digits per byte. */
module DeviceFingerprint {
  import opened Text

  /** An element of the Uint8Array view of the digest. */
  type Byte = x: int | 0 <= x < 256

  /** SHA-256 digests are 32 bytes long. */
  const DigestLength: nat := 32

  predicate IsLowerHexDigit(c: char) {
    '0' <= c <= '9' || 'a' <= c <= 'f'
  }

  /** The two characters a byte is written as: the digit of b / 16, then
      that of b % 16, lower case. */
  function HexByte(b: Byte): (h: string)
    ensures |h| == 2
    ensures forall i :: 0 <= i < |h| ==> IsLowerHexDigit(h[i])
    ensures DigitValue(h[0]) == b / 16 && DigitValue(h[1]) == b % 16
  {
    [DigitChar(b / 16), DigitChar(b % 16)]
  }

  /** HexByte is `b.toString(16).padStart(2, '0')`: the radix-16 text of b,
      padded to two characters with zeros. */
  lemma HexByteIsPaddedRadix(b: Byte)
    ensures HexByte(b) == PadStart(Radix(b, 16), 2, '0')
  {
    if b < 16 {
      assert Radix(b, 16) == [DigitChar(b)];
      assert PadStart(Radix(b, 16), 2, '0') == Repeat('0', 1) + [DigitChar(b)];
      assert DigitChar(0) == '0';
    } else {
      DivMod(b, 16);
      assert Radix(b / 16, 16) == [DigitChar(b / 16)];
      assert Radix(b, 16) == [DigitChar(b / 16)] + [DigitChar(b % 16)];
    }
  }

  /** `hashArray.map(b => b.toString(16).padStart(2, '0')).join('')` */
  function HexEncode(bytes: seq<Byte>): (s: string)
    ensures |s| == 2 * |bytes|
    decreases |bytes|
  {
    if bytes == [] then "" else HexByte(bytes[0]) + HexEncode(bytes[1..])
  }

  /** The text is made only of lower-case hexadecimal digits. */
  lemma {:induction false} HexEncodeLower(bytes: seq<Byte>)
    ensures forall i :: 0 <= i < |HexEncode(bytes)| ==> IsLowerHexDigit(HexEncode(bytes)[i])
    decreases |bytes|
  {
    if bytes != [] {
      HexEncodeLower(bytes[1..]);
      LowerHexConcat(HexByte(bytes[0]), HexEncode(bytes[1..]));
    }
  }

  lemma LowerHexConcat(a: string, b: string)
    requires forall i :: 0 <= i < |a| ==> IsLowerHexDigit(a[i])
    requires forall i :: 0 <= i < |b| ==> IsLowerHexDigit(b[i])
    ensures forall i :: 0 <= i < |a + b| ==> IsLowerHexDigit((a + b)[i])
  {
    forall i | 0 <= i < |a + b| ensures IsLowerHexDigit((a + b)[i]) {
      if i >= |a| {
        assert (a + b)[i] == b[i - |a|];
      }
    }
  }

  /** Byte i is written at positions 2i and 2i + 1: its high digit, then
      its low digit. */
  lemma HexEncodePairs(bytes: seq<Byte>, i: nat)
    requires i < |bytes|
    ensures 16 * DigitValue(HexEncode(bytes)[2 * i]) + DigitValue(HexEncode(bytes)[2 * i + 1]) == bytes[i]
  {
    HexEncodeAt(bytes, i);
    DivMod(bytes[i], 16);
  }

  /** Positions 2i and 2i + 1 of the text are the two digits of byte i. */
  lemma {:induction false} HexEncodeAt(bytes: seq<Byte>, i: nat)
    requires i < |bytes|
    ensures HexEncode(bytes)[2 * i] == HexByte(bytes[i])[0]
    ensures HexEncode(bytes)[2 * i + 1] == HexByte(bytes[i])[1]
    decreases i
  {
    var h, t := HexByte(bytes[0]), bytes[1..];
    assert HexEncode(bytes) == h + HexEncode(t);
    if i > 0 {
      HexEncodeAt(t, i - 1);
      assert t[i - 1] == bytes[i];
      assert 2 * i - 2 == 2 * (i - 1);
      assert HexEncode(bytes)[2 * i] == HexEncode(t)[2 * (i - 1)];
      assert HexEncode(bytes)[2 * i + 1] == HexEncode(t)[2 * (i - 1) + 1];
    }
  }

  /** Reading the text back two digits at a time. */
  function HexDecode(s: string): seq<int>
    decreases |s|
  {
    if |s| < 2 then [] else [16 * DigitValue(s[0]) + DigitValue(s[1])] + HexDecode(s[2..])
  }

  /** Splitting the text into pairs and parsing each recovers the bytes. */
  lemma {:induction false} HexRoundTrip(bytes: seq<Byte>)
    ensures HexDecode(HexEncode(bytes)) == bytes
    decreases |bytes|
  {
    if bytes != [] {
      var s, h := HexEncode(bytes), HexByte(bytes[0]);
      assert s == h + HexEncode(bytes[1..]);
      assert s[0] == h[0] && s[1] == h[1];
      assert s[2..] == HexEncode(bytes[1..]);
      assert 16 * DigitValue(s[0]) + DigitValue(s[1]) == bytes[0] by {
        DivMod(bytes[0], 16);
      }
      HexRoundTrip(bytes[1..]);
      assert HexDecode(s) == [bytes[0]] + bytes[1..];
    }
  }

  /** Different digests give different fingerprint hashes. */
  lemma HexEncodeInjective(a: seq<Byte>, b: seq<Byte>)
    requires HexEncode(a) == HexEncode(b)
    ensures a == b
  {
    HexRoundTrip(a);
    HexRoundTrip(b);
  }

  /** The stored fingerprint hash of a SHA-256 digest has 64 characters. */
  lemma DigestHexLength(digest: seq<Byte>)
    requires |digest| == DigestLength
    ensures |HexEncode(digest)| == 64
  {
  }
}
