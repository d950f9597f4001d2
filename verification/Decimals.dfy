/** Numbers written in decimal, as array keys, version numbers and storage keys are. */
module Decimals {
  import opened Bytes

  /** A number in decimal, without leading zeros. */
  function Decimal(n: nat): (d: Bytes)
    ensures d != [] && 0 !in d
  {
    (if n < 10 then [] else Decimal(n / 10)) + [48 + n % 10]
  }

  function Zeros(n: nat): (z: Bytes)
    ensures |z| == n && forall i :: 0 <= i < n ==> z[i] == 48
  {
    seq(n, _ => 48)
  }

  /** A number in decimal, padded with zeros to a width. */
  function Padded(n: nat, width: nat): Bytes {
    var d := Decimal(n);
    if |d| >= width then d else Zeros(width - |d|) + d
  }

  function Parse(b: Bytes): int {
    if b == [] then 0 else 10 * Parse(b[..|b| - 1]) + (b[|b| - 1] as int - 48)
  }

  function Pow10(n: nat): nat {
    if n == 0 then 1 else 10 * Pow10(n - 1)
  }

  lemma Pow10Ten()
    ensures Pow10(10) == 10_000_000_000
  {
    assert Pow10(5) == 100000;
    assert Pow10(10) == 10 * 10 * 10 * 10 * 10 * Pow10(5);
  }

  lemma {:induction false} DecimalLength(n: nat, digits: nat)
    requires digits > 0 && n < Pow10(digits)
    ensures |Decimal(n)| <= digits
  {
    if n >= 10 {
      DecimalLength(n / 10, digits - 1);
    }
  }

  lemma {:induction false} ParseDecimal(n: nat)
    ensures Parse(Decimal(n)) == n
  {
    var d := Decimal(n);
    if n < 10 {
      assert Parse(d[..0]) == 0;
    } else {
      ParseDecimal(n / 10);
      assert d[..|d| - 1] == Decimal(n / 10);
    }
  }

  lemma {:induction false} ParseZeros(n: nat, b: Bytes)
    ensures Parse(Zeros(n) + b) == Parse(b)
    decreases n + |b|
  {
    var all := Zeros(n) + b;
    if b != [] {
      assert all[..|all| - 1] == Zeros(n) + b[..|b| - 1];
      ParseZeros(n, b[..|b| - 1]);
    } else if n > 0 {
      assert all[..|all| - 1] == Zeros(n - 1) + b;
      ParseZeros(n - 1, b);
    }
  }

  /** Leading zeros or not, a number reads back. */
  lemma ParsePadded(n: nat, width: nat)
    ensures Parse(Padded(n, width)) == n
  {
    ParseDecimal(n);
    if |Decimal(n)| < width {
      ParseZeros(width - |Decimal(n)|, Decimal(n));
    }
  }
}
