/** Numbers written in decimal: with a fixed number of digits, and without leading zeros. */
module Decimals {

  predicate IsDigit(c: char) {
    '0' <= c <= '9'
  }

  predicate AllDigits(s: string) {
    forall i :: 0 <= i < |s| ==> IsDigit(s[i])
  }

  function DigitChar(n: nat): (c: char)
    requires n < 10
    ensures IsDigit(c) && c as int - 48 == n
  {
    '0' + n as char
  }

  /** The last `width` digits of n. */
  function Padded(n: nat, width: nat): (s: string)
    ensures |s| == width && AllDigits(s)
  {
    if width == 0 then "" else Padded(n / 10, width - 1) + [DigitChar(n % 10)]
  }

  function Power10(width: nat): nat {
    if width == 0 then 1 else 10 * Power10(width - 1)
  }

  function Read(s: string): nat
    requires AllDigits(s)
  {
    if s == "" then 0 else 10 * Read(s[..|s| - 1]) + (s[|s| - 1] as int - 48)
  }

  lemma {:induction false} PaddedReads(n: nat, width: nat)
    requires n < Power10(width)
    ensures Read(Padded(n, width)) == n
  {
    if width > 0 {
      PaddedReads(n / 10, width - 1);
      assert Padded(n, width)[..width - 1] == Padded(n / 10, width - 1);
    }
  }

  lemma PaddedInjective(a: nat, b: nat, width: nat)
    requires a < Power10(width) && b < Power10(width) && Padded(a, width) == Padded(b, width)
    ensures a == b
  {
    PaddedReads(a, width);
    PaddedReads(b, width);
  }

  /** n without leading zeros. */
  function Decimal(n: nat): (s: string)
    ensures s != "" && AllDigits(s)
    ensures n > 0 ==> s[0] != '0'
  {
    if n < 10 then [DigitChar(n)] else Decimal(n / 10) + [DigitChar(n % 10)]
  }

  lemma {:induction false} DecimalReads(n: nat)
    ensures Read(Decimal(n)) == n
  {
    if n < 10 {
      assert Decimal(n)[..0] == "";
    } else {
      DecimalReads(n / 10);
      assert Decimal(n)[..|Decimal(n)| - 1] == Decimal(n / 10);
    }
  }

  lemma {:induction false} ReadDecimal(s: string)
    requires s != "" && AllDigits(s) && s[0] != '0'
    ensures Decimal(Read(s)) == s && Read(s) > 0
    decreases |s|
  {
    var front := s[..|s| - 1];
    if front == "" {
      assert Read(front) == 0;
    } else {
      ReadDecimal(front);
    }
    assert s == front + [s[|s| - 1]];
  }

  /** n has at most `width` digits just when it is below the power. */
  lemma {:induction false} DecimalLength(n: nat, width: nat)
    requires width > 0
    ensures |Decimal(n)| <= width <==> n < Power10(width)
    decreases width
  {
    if n >= 10 {
      if width > 1 {
        DecimalLength(n / 10, width - 1);
      } else {
        assert Power10(1) == 10 * Power10(0);
      }
    } else {
      PowerIsLarge(width);
    }
  }

  lemma {:induction false} PowerIsLarge(width: nat)
    ensures Power10(width) >= 1 && (width > 0 ==> Power10(width) >= 10)
  {
    if width > 0 {
      PowerIsLarge(width - 1);
    }
  }
}
