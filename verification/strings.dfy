/** Decimal text as Python formats it: `str(n)`, `str.zfill`, and the
    zero-padded `f"{n:0Nd}"` fields of keys and ISO 8601 dates. */
module Strings {

  predicate IsDigit(c: char)
  {
    '0' <= c <= '9'
  }

  predicate AllDigits(s: string)
  {
    forall i :: 0 <= i < |s| ==> IsDigit(s[i])
  }

  function DigitChar(d: int): (c: char)
    requires 0 <= d < 10
    ensures IsDigit(c) && DigitValue(c) == d
  {
    ('0' as int + d) as char
  }

  function DigitValue(c: char): (d: int)
    requires IsDigit(c)
    ensures 0 <= d < 10
  {
    c as int - '0' as int
  }

  /** The number a string of decimal digits denotes (leading zeros allowed). */
  function DigitsValue(s: string): nat
    requires AllDigits(s)
  {
    if |s| == 0 then 0 else DigitsValue(s[..|s| - 1]) * 10 + DigitValue(s[|s| - 1])
  }

  /** `str(n)` for a non-negative integer: digits without leading zeros. */
  function NatToString(n: nat): (s: string)
    ensures |s| >= 1 && AllDigits(s)
    ensures n >= 10 ==> s[0] != '0'
  {
    if n < 10 then [DigitChar(n)] else NatToString(n / 10) + [DigitChar(n % 10)]
  }

  /** `str(n)` for any integer. */
  function IntToString(n: int): (s: string)
    ensures |s| >= 1
    ensures n >= 0 <==> s[0] != '-'
  {
    if n < 0 then "-" + NatToString(-n) else NatToString(n)
  }

  function Pow10(k: nat): (p: nat)
    ensures p >= 1
  {
    if k == 0 then 1 else 10 * Pow10(k - 1)
  }

  /** `str(n)` reads back as `n`. */
  lemma {:induction false} NatToStringValue(n: nat)
    ensures DigitsValue(NatToString(n)) == n
  {
    if n >= 10 {
      var s := NatToString(n);
      assert s[..|s| - 1] == NatToString(n / 10);
      NatToStringValue(n / 10);
    }
  }

  /** A number below 10^k takes at most k digits. */
  lemma {:induction false} NatToStringLength(n: nat, k: nat)
    requires k >= 1 && n < Pow10(k)
    ensures |NatToString(n)| <= k
  {
    if n >= 10 {
      assert k >= 2;
      NatToStringLength(n / 10, k - 1);
    }
  }

  function Zeros(k: nat): (s: string)
    ensures |s| == k && AllDigits(s)
    ensures forall i :: 0 <= i < k ==> s[i] == '0'
  {
    seq(k, i => '0')
  }

  /** Python's `s.zfill(width)`: pad with '0' on the left, after a leading sign. */
  function ZFill(s: string, width: nat): (r: string)
    ensures |r| == if |s| >= width then |s| else width
    ensures |s| >= width ==> r == s
  {
    if |s| >= width then s
    else if |s| > 0 && (s[0] == '+' || s[0] == '-') then [s[0]] + Zeros(width - |s|) + s[1..]
    else Zeros(width - |s|) + s
  }

  /** Leading zeros do not change the value of a digit string. */
  lemma {:induction false} LeadingZerosValue(k: nat, s: string)
    requires AllDigits(s)
    ensures AllDigits(Zeros(k) + s)
    ensures DigitsValue(Zeros(k) + s) == DigitsValue(s)
    decreases |s|, k
  {
    var t := Zeros(k) + s;
    if |s| == 0 {
      assert t == Zeros(k);
      if k > 0 {
        assert t[..|t| - 1] == Zeros(k - 1) + "";
        LeadingZerosValue(k - 1, "");
      }
    } else {
      assert t[..|t| - 1] == Zeros(k) + s[..|s| - 1];
      LeadingZerosValue(k, s[..|s| - 1]);
    }
  }

  /** Padding a digit string keeps it a digit string of the same value. */
  lemma ZFillDigits(s: string, width: nat)
    requires AllDigits(s)
    ensures AllDigits(ZFill(s, width))
    ensures DigitsValue(ZFill(s, width)) == DigitsValue(s)
  {
    if |s| < width {
      if |s| > 0 {
        assert IsDigit(s[0]);
      }
      LeadingZerosValue(width - |s|, s);
    }
  }

  /** `zfill` to a width is idempotent: "6" and "06" pad to the same text. */
  lemma ZFillIdempotent(s: string, width: nat)
    ensures ZFill(ZFill(s, width), width) == ZFill(s, width)
  {
  }

  /** `f"{n:0{width}d}"`, which equals `str(n).zfill(width)`. */
  function FormatInt(n: int, width: nat): string
  {
    ZFill(IntToString(n), width)
  }

  /** A non-negative number below 10^width prints as exactly `width` digits
      that read back as the number. */
  lemma FormatNat(n: nat, width: nat)
    requires width >= 1 && n < Pow10(width)
    ensures |FormatInt(n, width)| == width
    ensures AllDigits(FormatInt(n, width))
    ensures DigitsValue(FormatInt(n, width)) == n
  {
    NatToStringLength(n, width);
    NatToStringValue(n);
    ZFillDigits(NatToString(n), width);
  }

  /** `%02d` for a number below 100 (`strftime`'s `%H` and `%M`): the tens
      digit, then the units digit. */
  function TwoDigits(n: nat): (s: string)
    requires n < 100
    ensures |s| == 2 && AllDigits(s) && DigitsValue(s) == n
  {
    var s := [DigitChar(n / 10), DigitChar(n % 10)];
    assert DigitsValue(s[..1]) == n / 10;
    s
  }

  /** The two-digit field is `str(n).zfill(2)`. */
  lemma TwoDigitsIsFormatInt(n: nat)
    requires n < 100
    ensures TwoDigits(n) == FormatInt(n, 2)
  {
    if n >= 10 {
      assert NatToString(n / 10) == [DigitChar(n / 10)];
    }
  }

  /** Distinct non-negative numbers print differently at any width. */
  lemma FormatNatInjective(a: nat, b: nat, width: nat)
    requires FormatInt(a, width) == FormatInt(b, width)
    ensures a == b
  {
    NatToStringValue(a);
    NatToStringValue(b);
    ZFillDigits(NatToString(a), width);
    ZFillDigits(NatToString(b), width);
  }

  /** A digit string holds no separator character. */
  lemma DigitsHaveNo(s: string, sep: char)
    requires AllDigits(s) && !IsDigit(sep)
    ensures sep !in s
  {
    assert forall i :: 0 <= i < |s| ==> s[i] != sep;
  }

  /** Text joined at a separator that occurs in neither left part splits back
      into the same parts. */
  lemma SplitAtSeparator(a: string, b: string, c: string, d: string, sep: char)
    requires sep !in a && sep !in c
    requires a + [sep] + b == c + [sep] + d
    ensures a == c && b == d
  {
    var s := a + [sep] + b;
    var t := c + [sep] + d;
    var k := if |a| < |c| then |a| else |c|;
    assert s[k] == t[k];
    assert a == s[..|a|];
    assert c == (c + [sep] + d)[..|c|];
    assert b == s[|a| + 1..];
    assert d == (c + [sep] + d)[|c| + 1..];
  }
}
