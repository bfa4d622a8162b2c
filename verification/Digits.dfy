/** Numbers as digit text: zero-padded printing, reading back, and text order. */
module Digits {
  import opened TextOrder

  predicate IsDigit(c: char)
  {
    '0' <= c <= '9'
  }

  predicate AllDigits(s: string)
  {
    forall c | c in s :: IsDigit(c)
  }

  function IntOf(s: string): nat
    requires AllDigits(s)
  {
    if s == [] then 0
    else
      assert s[|s| - 1] in s;
      10 * IntOf(s[..|s| - 1]) + DigitValue(s[|s| - 1])
  }

  function DigitValue(c: char): (d: nat)
    requires IsDigit(c)
    ensures d < 10
  {
    c as int - '0' as int
  }

  function Decimal(n: nat): string
  {
    if n < 10 then ['0' + n as char] else Decimal(n / 10) + ['0' + (n % 10) as char]
  }

  function ZeroPad(s: string, width: nat): string
    decreases width - |s|
  {
    if |s| >= width then s else ZeroPad("0" + s, width)
  }

  /** The number at least as wide as asked, zeros in front, a minus sign counting as one place. */
  function Formatted(n: int, width: nat): string
  {
    if n < 0 then "-" + ZeroPad(Decimal(-n), if width == 0 then 0 else width - 1) else ZeroPad(Decimal(n), width)
  }

  lemma {:induction false} DecimalReads(n: nat)
    ensures AllDigits(Decimal(n)) && IntOf(Decimal(n)) == n
  {
    if n >= 10 {
      DecimalReads(n / 10);
      assert Decimal(n)[..|Decimal(n)| - 1] == Decimal(n / 10);
    } else {
      assert Decimal(n)[..0] == [];
    }
  }

  lemma {:induction false} LeadingZero(s: string)
    requires AllDigits(s)
    ensures AllDigits("0" + s) && IntOf("0" + s) == IntOf(s)
  {
    assert forall c | c in "0" + s :: c == '0' || c in s;
    if s != [] {
      LeadingZero(s[..|s| - 1]);
      assert ("0" + s)[..|s|] == "0" + s[..|s| - 1];
    } else {
      assert ("0" + s)[..0] == [];
    }
  }

  lemma {:induction false} ZeroPadReads(s: string, width: nat)
    requires AllDigits(s)
    ensures AllDigits(ZeroPad(s, width)) && IntOf(ZeroPad(s, width)) == IntOf(s)
    ensures |ZeroPad(s, width)| == if |s| >= width then |s| else width
    decreases width - |s|
  {
    if |s| < width {
      LeadingZero(s);
      ZeroPadReads("0" + s, width);
    }
  }

  function Power10(k: nat): nat
  {
    if k == 0 then 1 else 10 * Power10(k - 1)
  }

  lemma {:induction false} DecimalLength(n: nat, k: nat)
    requires k > 0 && n < Power10(k)
    ensures |Decimal(n)| <= k
  {
    if n >= 10 {
      assert k > 1 by { assert Power10(1) == 10 by { assert Power10(0) == 1; } }
      DecimalLength(n / 10, k - 1);
    }
  }

  /** A number that fits its width prints to exactly that width, and reads back. */
  lemma FormattedReads(n: nat, width: nat)
    requires width > 0 && n < Power10(width)
    ensures |Formatted(n, width)| == width && AllDigits(Formatted(n, width)) && IntOf(Formatted(n, width)) == n
  {
    DecimalReads(n);
    DecimalLength(n, width);
    ZeroPadReads(Decimal(n), width);
  }

  /** Of a negative number the sign takes one of the places. */
  lemma NegativeReads(n: int, width: nat)
    requires n < 0 && width > 1 && -n < Power10(width - 1)
    ensures |Formatted(n, width)| == width && Formatted(n, width)[0] == '-'
    ensures AllDigits(Formatted(n, width)[1..]) && IntOf(Formatted(n, width)[1..]) == -n
  {
    FormattedReads(-n, width - 1);
    assert Formatted(n, width) == "-" + Formatted(-n, width - 1);
  }

  lemma {:induction false} SameWidthSameNumber(s: string, t: string)
    requires AllDigits(s) && AllDigits(t) && |s| == |t| && IntOf(s) == IntOf(t)
    ensures s == t
  {
    if s != [] {
      assert s[|s| - 1] in s && t[|t| - 1] in t;
      SameWidthSameNumber(s[..|s| - 1], t[..|t| - 1]);
      assert s == s[..|s| - 1] + [s[|s| - 1]] && t == t[..|t| - 1] + [t[|t| - 1]];
    }
  }

  lemma {:induction false} IntOfBound(s: string)
    requires AllDigits(s)
    ensures IntOf(s) < Power10(|s|)
  {
    if s != [] {
      assert s[|s| - 1] in s;
      IntOfBound(s[..|s| - 1]);
    }
  }

  lemma FourDigits(s: string)
    requires AllDigits(s) && |s| == 4
    ensures IntOf(s) < 10000
  {
    IntOfBound(s);
    assert Power10(2) == 100 && Power10(4) == 10000;
  }

  /** Digit text is the printed form of its number. */
  lemma DigitsAreFormatted(s: string)
    requires AllDigits(s) && s != []
    ensures Formatted(IntOf(s), |s|) == s
  {
    IntOfBound(s);
    FormattedReads(IntOf(s), |s|);
    SameWidthSameNumber(s, Formatted(IntOf(s), |s|));
  }

  /** Text order of joined texts compares the first parts, then the second. */
  lemma {:induction false} AtMostJoined(a: string, b: string, c: string, d: string)
    requires |a| == |c|
    ensures AtMost(a + b, c + d) <==> if a == c then AtMost(b, d) else AtMost(a, c)
  {
    if a != [] {
      AtMostJoined(a[1..], b, c[1..], d);
      assert (a + b)[1..] == a[1..] + b && (c + d)[1..] == c[1..] + d;
      assert a == [a[0]] + a[1..] && c == [c[0]] + c[1..];
    } else {
      assert a + b == b && c + d == d;
    }
  }

  /** Among digit texts of one width, text order is the order of the numbers. */
  lemma {:induction false} TextOrderIsNumberOrder(s: string, t: string)
    requires AllDigits(s) && AllDigits(t) && |s| == |t|
    ensures AtMost(s, t) <==> IntOf(s) <= IntOf(t)
  {
    if s != [] {
      var a, c := s[..|s| - 1], t[..|t| - 1];
      assert s[|s| - 1] in s && t[|t| - 1] in t;
      TextOrderIsNumberOrder(a, c);
      AtMostJoined(a, [s[|s| - 1]], c, [t[|t| - 1]]);
      assert s == a + [s[|s| - 1]] && t == c + [t[|t| - 1]];
      if a != c && IntOf(a) == IntOf(c) { SameWidthSameNumber(a, c); }
    }
  }
}
