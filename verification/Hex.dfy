/** Python's `{n:0wX}`: upper-case hexadecimal, zero-padded to at least w digits. */
module Hex {

  const DIGITS := "0123456789ABCDEF"

  function Digits(n: nat): (s: string)
    ensures s != ""
  {
    if n < 16 then [DIGITS[n]] else Digits(n / 16) + [DIGITS[n % 16]]
  }

  function Zeros(k: nat): string { seq(k, _ => '0') }

  function Format(n: nat, width: nat): string {
    var s := Digits(n);
    Zeros(if |s| < width then width - |s| else 0) + s
  }

  ghost function DigitValue(c: char): nat {
    if '0' <= c <= '9' then (c - '0') as nat
    else if 'A' <= c <= 'F' then (c - 'A') as nat + 10
    else 0
  }

  // Reads a hexadecimal number back.
  ghost function Value(s: string): nat {
    if s == "" then 0 else 16 * Value(s[..|s| - 1]) + DigitValue(s[|s| - 1])
  }

  ghost predicate IsHex(s: string) { forall c | c in s :: '0' <= c <= '9' || 'A' <= c <= 'F' }

  lemma DigitRoundTrip(d: nat)
    requires d < 16
    ensures DigitValue(DIGITS[d]) == d && IsHex([DIGITS[d]])
  {
    assert DIGITS[..10] == "0123456789" && DIGITS[10..] == "ABCDEF";
  }

  lemma {:induction false} DigitsRoundTrip(n: nat)
    ensures Value(Digits(n)) == n && IsHex(Digits(n))
  {
    DigitRoundTrip(n % 16);
    if n < 16 {
      assert Digits(n)[..0] == "";
    } else {
      DigitsRoundTrip(n / 16);
      assert Digits(n)[..|Digits(n)| - 1] == Digits(n / 16);
    }
  }

  lemma {:induction false} LeadingZeros(k: nat, s: string)
    ensures Value(Zeros(k) + s) == Value(s)
  {
    var z := Zeros(k) + s;
    if s != "" {
      assert z[..|z| - 1] == Zeros(k) + s[..|s| - 1];
      LeadingZeros(k, s[..|s| - 1]);
    } else if k > 0 {
      assert z[..k - 1] == Zeros(k - 1) + "";
      LeadingZeros(k - 1, "");
    }
  }

  // Formatting loses nothing: the number can be read back, whatever its width.
  lemma FormatRoundTrip(n: nat, width: nat)
    ensures Value(Format(n, width)) == n
    ensures IsHex(Format(n, width))
  {
    DigitsRoundTrip(n);
    hide Digits;
    hide Value;
    hide DigitValue;
    var s := Digits(n);
    LeadingZeros(if |s| < width then width - |s| else 0, s);
  }

  lemma FormatInjective(m: nat, n: nat, width: nat)
    ensures Format(m, width) == Format(n, width) <==> m == n
  {
    FormatRoundTrip(m, width);
    FormatRoundTrip(n, width);
  }

  function Power16(k: nat): (p: nat)
    ensures p > 0
  {
    if k == 0 then 1 else 16 * Power16(k - 1)
  }

  lemma {:induction false} DigitsCount(n: nat, k: nat)
    requires k > 0
    ensures |Digits(n)| <= k <==> n < Power16(k)
    decreases k
  {
    if n >= 16 && k > 1 {
      DigitsCount(n / 16, k - 1);
    } else if k > 1 {
      assert Power16(k) >= 16 by { assert Power16(k - 1) >= 1; }
    } else {
      assert Power16(1) == 16 * Power16(0);
    }
  }

  // A number that fits is printed in exactly the given width, and any other one in more.
  lemma FormatWidth(n: nat, width: nat)
    requires width > 0
    ensures |Format(n, width)| >= width
    ensures |Format(n, width)| == width <==> n < Power16(width)
  {
    DigitsCount(n, width);
  }
}
