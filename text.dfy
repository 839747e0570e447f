/** The string operations of JavaScript that the pages rely on: rendering a
    non-negative integer in a radix (Number.prototype.toString), padStart,
    ASCII case mapping and substring search (String.prototype.includes). */
module Text {

  function Pow(b: nat, k: nat): nat {
    if k == 0 then 1 else b * Pow(b, k - 1)
  }

  /** The digit character for d, lower-case above 9, as toString(radix) writes it. */
  function DigitChar(d: nat): (c: char)
    requires d < 16
    ensures DigitValue(c) == d
    ensures IsHexDigit(c) && !('A' <= c <= 'Z')
  {
    if d < 10 then ('0' as int + d) as char else ('a' as int + d - 10) as char
  }

  predicate IsDecimalDigit(c: char) {
    '0' <= c <= '9'
  }

  predicate IsHexDigit(c: char) {
    '0' <= c <= '9' || 'a' <= c <= 'f' || 'A' <= c <= 'F'
  }

  /** The value of a digit character of either case; 0 for any other character. */
  function DigitValue(c: char): nat {
    if '0' <= c <= '9' then (c as int) - ('0' as int)
    else if 'a' <= c <= 'f' then (c as int) - ('a' as int) + 10
    else if 'A' <= c <= 'F' then (c as int) - ('A' as int) + 10
    else 0
  }

  /** n written in the given radix, most significant digit first, with no
      leading zeros ("0" for zero). */
  function Radix(n: nat, base: nat): (s: string)
    requires 2 <= base <= 16
    ensures |s| >= 1
    ensures forall i :: 0 <= i < |s| ==> DigitValue(s[i]) < base && IsHexDigit(s[i]) && !('A' <= s[i] <= 'Z')
    decreases n
  {
    if n < base then [DigitChar(n)]
    else
      DivMod(n, base);
      var prefix, last := Radix(n / base, base), [DigitChar(n % base)];
      DigitsConcat(prefix, last, base);
      prefix + last
  }

  lemma DigitsConcat(a: string, b: string, base: nat)
    requires forall i :: 0 <= i < |a| ==> DigitValue(a[i]) < base && IsHexDigit(a[i]) && !('A' <= a[i] <= 'Z')
    requires forall i :: 0 <= i < |b| ==> DigitValue(b[i]) < base && IsHexDigit(b[i]) && !('A' <= b[i] <= 'Z')
    ensures forall i :: 0 <= i < |a + b| ==> DigitValue((a + b)[i]) < base && IsHexDigit((a + b)[i]) && !('A' <= (a + b)[i] <= 'Z')
  {
    forall i | 0 <= i < |a + b|
      ensures DigitValue((a + b)[i]) < base && IsHexDigit((a + b)[i]) && !('A' <= (a + b)[i] <= 'Z')
    {
      if i < |a| {
        assert (a + b)[i] == a[i];
      } else {
        assert (a + b)[i] == b[i - |a|];
      }
    }
  }

  /** The powers the voter id, the one-time password and the digest use. */
  lemma PowConstants()
    ensures Pow(10, 5) == 100000 && Pow(10, 6) == 1000000 && Pow(10, 9) == 1000000000
    ensures Pow(16, 8) == 0x1_0000_0000
  {
  }

  /** The value of a digit string in the given radix (parseInt on a string
      made only of digits). */
  function ParseRadix(s: string, base: nat): nat {
    if s == [] then 0 else ParseRadix(s[..|s| - 1], base) * base + DigitValue(s[|s| - 1])
  }

  lemma {:induction false} ParseRadixOfRadix(n: nat, base: nat)
    requires 2 <= base <= 16
    ensures ParseRadix(Radix(n, base), base) == n
    decreases n
  {
    if n >= base {
      var s := Radix(n, base);
      var q, d := n / base, n % base;
      DivMod(n, base);
      assert s == Radix(q, base) + [DigitChar(d)];
      assert s[..|s| - 1] == Radix(q, base);
      assert DigitValue(s[|s| - 1]) == d;
      ParseRadixOfRadix(q, base);
      assert ParseRadix(s, base) == ParseRadix(s[..|s| - 1], base) * base + DigitValue(s[|s| - 1]);
      assert ParseRadix(s, base) == q * base + d;
    }
  }

  /** A number below base^k has at most k digits. */
  lemma {:induction false} RadixLength(n: nat, base: nat, k: nat)
    requires 2 <= base <= 16 && k >= 1 && n < Pow(base, k)
    ensures |Radix(n, base)| <= k
    decreases n
  {
    if n >= base {
      DivMod(n, base);
      assert Pow(base, 1) == base;
      assert k >= 2;
      assert n / base < Pow(base, k - 1) by {
        assert Pow(base, k) == base * Pow(base, k - 1);
        DivBelow(n, base, Pow(base, k - 1));
      }
      RadixLength(n / base, base, k - 1);
    }
  }

  /** A number of at least base^k has more than k digits. */
  lemma {:induction false} RadixLengthAtLeast(n: nat, base: nat, k: nat)
    requires 2 <= base <= 16 && n >= Pow(base, k)
    ensures |Radix(n, base)| > k
    decreases k
  {
    if k > 0 {
      var p := Pow(base, k - 1);
      assert Pow(base, k) == base * p;
      PowPositive(base, k - 1);
      DivAtLeast(n, base, p);
      QuotientPositive(n, base);
      assert |Radix(n, base)| == |Radix(n / base, base)| + 1;
      RadixLengthAtLeast(n / base, base, k - 1);
    }
  }

  lemma {:induction false} PowPositive(b: nat, k: nat)
    requires b >= 1
    ensures Pow(b, k) >= 1
  {
    if k > 0 {
      PowPositive(b, k - 1);
    }
  }

  lemma DivAtLeast(n: nat, b: nat, m: nat)
    requires b >= 1 && n >= b * m
    ensures n / b >= m
  {
    var q := n / b;
    assert n == q * b + n % b;
    assert b * (q + 1) == b * q + b;
    MulCancel(b, m, q + 1);
  }

  lemma QuotientPositive(n: nat, b: nat)
    requires b >= 1 && n / b >= 1
    ensures n >= b
  {
    var q := n / b;
    assert n == q * b + n % b;
    assert q * b >= b;
  }

  lemma DivMod(n: nat, b: nat)
    requires 2 <= b
    ensures n == (n / b) * b + n % b
    ensures n >= b ==> 1 <= n / b < n
  {
  }

  lemma DivBelow(n: nat, b: nat, m: nat)
    requires b >= 1 && n < b * m
    ensures n / b < m
  {
    var q := n / b;
    assert b * q <= n;
    MulCancel(b, q, m);
  }

  lemma MulCancel(b: nat, q: nat, m: nat)
    requires b >= 1 && b * q < b * m
    ensures q < m
  {
  }

  function Repeat(c: char, n: nat): string {
    seq(n, _ => c)
  }

  /** String.prototype.padStart with a one-character fill. */
  function PadStart(s: string, width: nat, fill: char): (r: string)
    ensures |r| == if |s| >= width then |s| else width
    ensures r[|r| - |s|..] == s
    ensures forall i :: 0 <= i < |r| - |s| ==> r[i] == fill
  {
    if |s| >= width then s else Repeat(fill, width - |s|) + s
  }

  /** Padding decimal digits with zeros gives decimal digits. */
  lemma PaddedDecimal(s: string, width: nat)
    requires forall i :: 0 <= i < |s| ==> IsDecimalDigit(s[i])
    ensures forall i :: 0 <= i < |PadStart(s, width, '0')| ==> IsDecimalDigit(PadStart(s, width, '0')[i])
  {
    if |s| < width {
      var z := Repeat('0', width - |s|);
      forall i | 0 <= i < |z + s| ensures IsDecimalDigit((z + s)[i]) {
        if i >= |z| {
          assert (z + s)[i] == s[i - |z|];
        }
      }
    }
  }

  /** Padding with zeros does not change the value of a digit string. */
  lemma ParsePadded(s: string, width: nat, base: nat)
    ensures ParseRadix(PadStart(s, width, '0'), base) == ParseRadix(s, base)
  {
    if |s| < width {
      ParseRadixLeadingZeros(width - |s|, s, base);
    }
  }

  /** Leading zeros do not change the value of a digit string. */
  lemma {:induction false} ParseRadixLeadingZeros(k: nat, s: string, base: nat)
    ensures ParseRadix(Repeat('0', k) + s, base) == ParseRadix(s, base)
    decreases |s|
  {
    if s == [] {
      ParseRadixZeros(k, base);
      assert Repeat('0', k) + s == Repeat('0', k);
    } else {
      var t := Repeat('0', k) + s;
      assert t[..|t| - 1] == Repeat('0', k) + s[..|s| - 1];
      ParseRadixLeadingZeros(k, s[..|s| - 1], base);
    }
  }

  lemma {:induction false} ParseRadixZeros(k: nat, base: nat)
    ensures ParseRadix(Repeat('0', k), base) == 0
  {
    if k > 0 {
      assert Repeat('0', k)[..k - 1] == Repeat('0', k - 1);
      ParseRadixZeros(k - 1, base);
    }
  }

  function UpperChar(c: char): char {
    if 'a' <= c <= 'z' then ((c as int) - 32) as char else c
  }

  function LowerChar(c: char): char {
    if 'A' <= c <= 'Z' then ((c as int) + 32) as char else c
  }

  /** String.prototype.toUpperCase, for the ASCII letters. */
  function Upper(s: string): string {
    seq(|s|, i requires 0 <= i < |s| => UpperChar(s[i]))
  }

  /** String.prototype.toLowerCase, for the ASCII letters. */
  function Lower(s: string): string {
    seq(|s|, i requires 0 <= i < |s| => LowerChar(s[i]))
  }

  /** Upper-casing a digit string does not change its value. */
  lemma {:induction false} ParseRadixUpper(s: string, base: nat)
    ensures ParseRadix(Upper(s), base) == ParseRadix(s, base)
    decreases |s|
  {
    if s != [] {
      assert Upper(s)[..|s| - 1] == Upper(s[..|s| - 1]);
      ParseRadixUpper(s[..|s| - 1], base);
    }
  }

  /** q occurs in s at position i. */
  ghost predicate OccursAt(s: string, q: string, i: int) {
    0 <= i && i + |q| <= |s| && s[i..i + |q|] == q
  }

  /** String.prototype.includes. */
  predicate Contains(s: string, q: string)
    decreases |s|
  {
    if |q| > |s| then false
    else if s[..|q|] == q then true
    else Contains(s[1..], q)
  }

  lemma {:induction false} ContainsIffOccurs(s: string, q: string)
    ensures Contains(s, q) <==> exists i :: OccursAt(s, q, i)
    decreases |s|
  {
    if |q| > |s| {
    } else if s[..|q|] == q {
      assert OccursAt(s, q, 0);
    } else {
      ContainsIffOccurs(s[1..], q);
      if exists i :: OccursAt(s[1..], q, i) {
        var i :| OccursAt(s[1..], q, i);
        assert s[1..][i..i + |q|] == s[i + 1..i + 1 + |q|];
        assert OccursAt(s, q, i + 1);
      }
      if exists i :: OccursAt(s, q, i) {
        var i :| OccursAt(s, q, i);
        assert i != 0;
        assert s[1..][i - 1..i - 1 + |q|] == s[i..i + |q|];
        assert OccursAt(s[1..], q, i - 1);
      }
    }
  }

  /** Number.prototype.toString() of an integer. */
  function DecimalOfInt(n: int): string {
    if n < 0 then "-" + Radix(-n, 10) else Radix(n, 10)
  }
}
