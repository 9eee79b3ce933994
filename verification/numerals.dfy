/** The integer conversions the record header uses: "%d", "%0Nd" and "%x". */
module Numerals {

  /** The digit characters of a base, in order of value. */
  function Alphabet(base: nat): string
    requires base <= 16
  {
    "0123456789abcdef"[..base]
  }

  function DigitChar(d: nat): (c: char)
    requires d < 16
    ensures c == "0123456789abcdef"[d]
  {
    if d < 10 then ('0' as int + d) as char else ('a' as int + d - 10) as char
  }

  /** The inverse of DigitChar on lower-case hexadecimal digits. */
  function DigitValue(c: char): nat
  {
    if '0' <= c <= '9' then c as int - '0' as int
    else if 'a' <= c <= 'f' then c as int - 'a' as int + 10
    else 0
  }

  /** n written in the given base, most significant digit first, without
      leading zeros ("0" for zero). */
  function Digits(n: nat, base: nat): (s: string)
    requires 2 <= base <= 16
    ensures 1 <= |s|
    ensures forall i :: 0 <= i < |s| ==> s[i] in Alphabet(base)
    decreases n
  {
    if n < base then [DigitChar(n)] else Digits(n / base, base) + [DigitChar(n % base)]
  }

  /** Reads a digit string back as a number (the reference for Digits). */
  function Parse(s: string, base: nat): nat
    decreases |s|
  {
    if |s| == 0 then 0 else Parse(s[..|s| - 1], base) * base + DigitValue(s[|s| - 1])
  }

  lemma DigitCharValue(d: nat)
    requires d < 16
    ensures DigitValue(DigitChar(d)) == d
  {
  }

  lemma DivShrinks(n: nat, base: nat)
    requires 2 <= base <= n
    ensures 0 < n / base < n
    ensures (n / base) * base + n % base == n
  {
    var q := n / base;
    assert q * base <= n;
    assert q * base >= q * 2;
  }

  function Pow(base: nat, k: nat): nat
  {
    if k == 0 then 1 else base * Pow(base, k - 1)
  }

  /** Digits is a faithful rendering: reading its output back gives n. */
  lemma {:induction false} DigitsRoundTrip(n: nat, base: nat)
    requires 2 <= base <= 16
    ensures Parse(Digits(n, base), base) == n
    decreases n
  {
    var s := Digits(n, base);
    if n < base {
      assert s[..0] == [];
      DigitCharValue(n);
    } else {
      var q, r := n / base, n % base;
      DivShrinks(n, base);
      var front := Digits(q, base);
      assert s == front + [DigitChar(r)];
      assert s[..|s| - 1] == front;
      DigitsRoundTrip(q, base);
      DigitCharValue(r);
      assert Parse(s, base) == Parse(front, base) * base + r;
    }
  }

  lemma QuotientBound(n: nat, base: nat, p: nat)
    requires 2 <= base && n < base * p
    ensures n / base < p
  {
    var q := n / base;
    assert q * base <= n;
    assert (p - q) * base == p * base - q * base > 0;
  }

  /** A number below base^k needs at most k digits. */
  lemma {:induction false} DigitsLength(n: nat, base: nat, k: nat)
    requires 2 <= base <= 16 && 1 <= k && n < Pow(base, k)
    ensures |Digits(n, base)| <= k
    decreases k
  {
    if n >= base {
      assert k > 1;
      QuotientBound(n, base, Pow(base, k - 1));
      DigitsLength(n / base, base, k - 1);
    }
  }

  /** "%0wd" on a non-negative value: the digits, left-padded with zeros to
      at least w characters. */
  function ZeroPad(s: string, width: nat): (r: string)
    ensures |r| == if |s| < width then width else |s|
    ensures r[|r| - |s|..] == s
    ensures forall i :: 0 <= i < |r| - |s| ==> r[i] == '0'
  {
    if |s| < width then seq(width - |s|, _ => '0') + s else s
  }

  /** "%u"-style decimal of a WORD: one to five digits. */
  function WordDecimal(w: nat): (s: string)
    requires w < 0x1_0000
    ensures 1 <= |s| <= 5
    ensures Parse(s, 10) == w
  {
    DigitsLength(w, 10, 5);
    DigitsRoundTrip(w, 10);
    Digits(w, 10)
  }

  /** "%x" of a DWORD: one to eight lower-case hexadecimal digits. */
  function DWordHex(v: nat): (s: string)
    requires v < 0x1_0000_0000
    ensures 1 <= |s| <= 8
    ensures Parse(s, 16) == v
  {
    DigitsLength(v, 16, 8);
    DigitsRoundTrip(v, 16);
    Digits(v, 16)
  }

  /** "%d" of a ULONG: the value is reinterpreted as a signed 32-bit integer,
      so values from 2^31 on print as negative numbers. */
  function SignedDecimal(v: nat): (s: string)
    requires v < 0x1_0000_0000
    ensures 1 <= |s| <= 11
    ensures v < 0x8000_0000 ==> Parse(s, 10) == v
    ensures v >= 0x8000_0000 ==> s[0] == '-' && Parse(s[1..], 10) == 0x1_0000_0000 - v
    ensures forall i :: 0 <= i < |s| ==> s[i] in "-0123456789"
  {
    if v < 0x8000_0000 then
      DigitsLength(v, 10, 10);
      DigitsRoundTrip(v, 10);
      Digits(v, 10)
    else
      DigitsLength(0x1_0000_0000 - v, 10, 10);
      DigitsRoundTrip(0x1_0000_0000 - v, 10);
      assert ("-" + Digits(0x1_0000_0000 - v, 10))[1..] == Digits(0x1_0000_0000 - v, 10);
      "-" + Digits(0x1_0000_0000 - v, 10)
  }
}
