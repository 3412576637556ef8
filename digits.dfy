/**
 * Decimal rendering of natural numbers, as Python's str() of a non-negative int
 * and strftime's %d/%m/%H/%M/%S (two digits, zero-padded) and %Y (unpadded) produce it,
 * together with the parser that inverts it.
 */
module Digits {

  predicate IsDigit(c: char) {
    '0' <= c <= '9'
  }

  predicate AllDigits(s: string) {
    forall i :: 0 <= i < |s| ==> IsDigit(s[i])
  }

  function DigitChar(d: nat): (c: char)
    requires d < 10
    ensures IsDigit(c) && c as int == '0' as int + d
  {
    ['0', '1', '2', '3', '4', '5', '6', '7', '8', '9'][d]
  }

  function DigitValue(c: char): (d: nat)
    requires IsDigit(c)
    ensures d < 10 && DigitChar(d) == c
  {
    (c as int - '0' as int) as nat
  }

  /** Shortest decimal form of n, most significant digit first. */
  function Decimal(n: nat): (s: string)
    ensures |s| > 0 && AllDigits(s)
    ensures |s| > 1 ==> s[0] != '0'
  {
    if n < 10 then [DigitChar(n)] else Decimal(n / 10) + [DigitChar(n % 10)]
  }

  /** The value of a string of digits, most significant digit first. */
  function ParseDecimal(s: string): nat
    requires AllDigits(s)
  {
    if s == [] then 0 else 10 * ParseDecimal(s[..|s| - 1]) + DigitValue(s[|s| - 1])
  }

  /** Two-digit zero-padded form, as strftime writes day, month, hour, minute and second. */
  function Pad2(n: nat): (s: string)
    requires n < 100
    ensures |s| == 2 && AllDigits(s)
  {
    [DigitChar(n / 10), DigitChar(n % 10)]
  }

  lemma {:induction false} DecimalRoundTrip(n: nat)
    ensures ParseDecimal(Decimal(n)) == n
  {
    var s := Decimal(n);
    if n >= 10 {
      DecimalRoundTrip(n / 10);
      assert s[..|s| - 1] == Decimal(n / 10);
    }
  }

  lemma Pad2RoundTrip(n: nat)
    requires n < 100
    ensures ParseDecimal(Pad2(n)) == n
  {
    var s := Pad2(n);
    assert s[..1][..0] == [];
    assert ParseDecimal(s[..1]) == n / 10;
    assert ParseDecimal(s) == 10 * (n / 10) + n % 10;
  }

  /** The decimal form of n has exactly four digits iff n is a four-digit number. */
  lemma DecimalLengthFour(n: nat)
    ensures |Decimal(n)| == 4 <==> 1000 <= n <= 9999
  {
    DecimalLengthBounds(n, 4);
    DecimalLengthBounds(n, 3);
    assert Power10(3) == 1000 && Power10(4) == 10000;
  }

  /** n has at most k digits exactly when n < 10^k. */
  lemma {:induction false} DecimalLengthBounds(n: nat, k: nat)
    requires k > 0
    ensures |Decimal(n)| <= k <==> n < Power10(k)
  {
    if n < 10 {
      Power10AtLeast(k);
    } else if k == 1 {
      assert Power10(1) == 10;
    } else {
      DecimalLengthBounds(n / 10, k - 1);
    }
  }

  function Power10(k: nat): nat {
    if k == 0 then 1 else 10 * Power10(k - 1)
  }

  lemma {:induction false} Power10AtLeast(k: nat)
    requires k > 0
    ensures Power10(k) >= 10
  {
    if k > 1 { Power10AtLeast(k - 1); }
  }
}
