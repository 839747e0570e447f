/** The block digest of the voting booth (generateVoteHash): a 32-bit
    multiply-by-31 string hash, in the style of Java's String.hashCode, over
    the UTF-16 code units of "voter|party|timestamp|previous", written as
    "BLK" followed by 16 upper-case hexadecimal digits of its magnitude.
    It is not a cryptographic digest and covers no device fingerprint. */
module VoteHash {
  import opened Types
  import opened Text

  const GenesisMarker: string := "GENESIS"
  const TwoTo31: int := 0x8000_0000
  const TwoTo32: int := 0x1_0000_0000

  /** A UTF-16 code unit, the value charCodeAt returns. */
  type CodeUnit = x: int | 0 <= x < 0x1_0000

  /** The text that is hashed. A null or empty previous digest is replaced by
      the genesis marker (`previousHash || 'GENESIS'`). */
  function HashInput(voterRef: string, partyId: string, timestamp: string, previousHash: Option<string>): string {
    voterRef + "|" + partyId + "|" + timestamp + "|" + (if Truthy(previousHash) then previousHash.value else GenesisMarker)
  }

  /** The UTF-16 code units of a string: one per character of the Basic
      Multilingual Plane, a surrogate pair for any other character. */
  function Utf16(s: string): (r: seq<CodeUnit>)
    ensures |r| >= |s|
  {
    if s == [] then []
    else
      var c := s[0] as int;
      (if c < 0x1_0000 then [c] else [0xD800 + (c - 0x1_0000) / 0x400, 0xDC00 + (c - 0x1_0000) % 0x400])
      + Utf16(s[1..])
  }

  /** ECMAScript ToInt32: the integer congruent to x modulo 2^32 in [-2^31, 2^31). */
  function ToInt32(x: int): (r: int)
    ensures -TwoTo31 <= r < TwoTo31
    ensures (r - x) % TwoTo32 == 0
  {
    var m := x % TwoTo32;
    if m >= TwoTo31 then m - TwoTo32 else m
  }

  /** ToInt32 only depends on its argument modulo 2^32. */
  lemma ToInt32Congruent(x: int, y: int)
    requires (x - y) % TwoTo32 == 0
    ensures ToInt32(x) == ToInt32(y)
  {
    assert x % TwoTo32 == y % TwoTo32 by {
      var k := (x - y) / TwoTo32;
      assert x == y + k * TwoTo32;
      ModShift(y, k);
    }
  }

  lemma ModShift(y: int, k: int)
    ensures (y + k * TwoTo32) % TwoTo32 == y % TwoTo32
  {
  }

  /** The accumulator after the given code units: starting from 0, each unit
      c turns h into ToInt32(31 * h + c). */
  function Accumulate(units: seq<CodeUnit>): (h: int)
    ensures -TwoTo31 <= h < TwoTo31
  {
    if units == [] then 0
    else ToInt32(31 * Accumulate(units[..|units| - 1]) + units[|units| - 1])
  }

  function Abs(h: int): nat {
    if h < 0 then -h else h
  }

  /** 'BLK' + Math.abs(hash).toString(16).toUpperCase().padStart(16, '0') */
  function Render(h: int): string {
    "BLK" + PadStart(Upper(Radix(Abs(h), 16)), 16, '0')
  }

  /** The digest generateVoteHash returns for these inputs. */
  function VoteHashOf(voterRef: string, partyId: string, timestamp: string, previousHash: Option<string>): string {
    Render(Accumulate(Utf16(HashInput(voterRef, partyId, timestamp, previousHash))))
  }

  /** generateVoteHash: the loop over the code units, with the shift-and-subtract
      form of the multiplication and the `hash & hash` truncation to 32 bits. */
  method GenerateVoteHash(voterRef: string, partyId: string, timestamp: string, previousHash: Option<string>)
    returns (digest: string)
    ensures digest == VoteHashOf(voterRef, partyId, timestamp, previousHash)
  {
    var data := Utf16(HashInput(voterRef, partyId, timestamp, previousHash));
    var hash := 0;
    for i := 0 to |data|
      invariant hash == Accumulate(data[..i])
    {
      var c := data[i];
      var shifted := ToInt32(hash * 32);   // hash << 5
      hash := shifted - hash + c;
      hash := ToInt32(hash);               // hash & hash
      StepAgrees(hash, shifted, data[..i], c);
      assert data[..i + 1] == data[..i] + [c];
    }
    assert data[..|data|] == data;
    digest := "BLK" + PadStart(Upper(Radix(Abs(hash), 16)), 16, '0');
  }

  lemma StepAgrees(next: int, shifted: int, done: seq<CodeUnit>, c: CodeUnit)
    requires shifted == ToInt32(Accumulate(done) * 32)
    requires next == ToInt32(shifted - Accumulate(done) + c)
    ensures next == Accumulate(done + [c])
  {
    var h := Accumulate(done);
    assert (done + [c])[..|done|] == done;
    assert (shifted - h + c) - (31 * h + c) == shifted - h * 32;
    ToInt32Congruent(shifted - h + c, 31 * h + c);
  }

  /** Every digest is "BLK" and 16 upper-case hexadecimal digits, the first 8
      of them zeros, and the digits spell the magnitude of the accumulator. */
  lemma RenderShape(h: int)
    requires -TwoTo31 <= h < TwoTo31
    ensures |Render(h)| == 19
    ensures Render(h)[..3] == "BLK"
    ensures forall i :: 3 <= i < 11 ==> Render(h)[i] == '0'
    ensures forall i :: 3 <= i < 19 ==> IsHexDigit(Render(h)[i]) && !('a' <= Render(h)[i] <= 'z')
    ensures ParseRadix(Render(h)[3..], 16) == Abs(h)
  {
    var n := Abs(h);
    var digits := Radix(n, 16);
    var upper := Upper(digits);
    PowConstants();
    RadixLength(n, 16, 8);
    var padded := PadStart(upper, 16, '0');
    assert Render(h) == "BLK" + padded;
    assert Render(h)[3..] == padded;
    assert ParseRadix(upper, 16) == n by {
      ParseRadixOfRadix(n, 16);
      ParseRadixUpper(digits, 16);
    }
    ParsePadded(upper, 16, 16);
  }

  /** A stored digest always has the shape above; in particular it is never empty. */
  lemma VoteHashShape(voterRef: string, partyId: string, timestamp: string, previousHash: Option<string>)
    ensures |VoteHashOf(voterRef, partyId, timestamp, previousHash)| == 19
    ensures VoteHashOf(voterRef, partyId, timestamp, previousHash)[..3] == "BLK"
    ensures ParseRadix(VoteHashOf(voterRef, partyId, timestamp, previousHash)[3..], 16)
         == Abs(Accumulate(Utf16(HashInput(voterRef, partyId, timestamp, previousHash))))
  {
    RenderShape(Accumulate(Utf16(HashInput(voterRef, partyId, timestamp, previousHash))));
  }

  /** A null predecessor, an empty one and the literal "GENESIS" are hashed alike. */
  lemma GenesisAliases(voterRef: string, partyId: string, timestamp: string)
    ensures VoteHashOf(voterRef, partyId, timestamp, None) == VoteHashOf(voterRef, partyId, timestamp, Some(GenesisMarker))
    ensures VoteHashOf(voterRef, partyId, timestamp, Some("")) == VoteHashOf(voterRef, partyId, timestamp, None)
  {
  }
}
