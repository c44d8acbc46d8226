/** Numbers in decimal, as `to_string` prints them. */
module Decimals {
  import opened Wrappers

  type Bytes = seq<byte>

  const ZERO: byte := 48

  function Decimal(n: nat): Bytes {
    if n < 10 then [ZERO + n as byte] else Decimal(n / 10) + [ZERO + (n % 10) as byte]
  }

  predicate IsDigit(b: byte) {
    48 <= b < 58
  }

  /** A decimal number without a leading zero. */
  predicate IsDecimal(d: Bytes) {
    && d != []
    && (forall i :: 0 <= i < |d| ==> IsDigit(d[i]))
    && (|d| > 1 ==> d[0] != ZERO)
  }

  function DigitValue(b: byte): nat
    requires IsDigit(b)
  {
    b as int - 48
  }

  function Value(d: Bytes): nat
    requires forall i :: 0 <= i < |d| ==> IsDigit(d[i])
  {
    if d == [] then 0 else 10 * Value(d[..|d| - 1]) + DigitValue(d[|d| - 1])
  }

  lemma {:induction false} DecimalParses(n: nat)
    ensures IsDecimal(Decimal(n)) && Value(Decimal(n)) == n
    ensures n > 0 ==> Decimal(n)[0] != ZERO
  {
    if n >= 10 {
      DecimalParses(n / 10);
      var d := Decimal(n);
      assert d[..|d| - 1] == Decimal(n / 10);
    } else {
      assert Decimal(n)[..0] == [];
    }
  }

  lemma {:induction false} DecimalIsUnique(d: Bytes)
    requires IsDecimal(d)
    ensures Decimal(Value(d)) == d
  {
    var init, last := d[..|d| - 1], DigitValue(d[|d| - 1]);
    assert d == init + [d[|d| - 1]];
    if init == [] {
      assert Value(init) == 0;
    } else {
      DecimalIsUnique(init);
      PositiveValue(init);
      assert Value(d) / 10 == Value(init) && Value(d) % 10 == last;
    }
  }

  lemma {:induction false} PositiveValue(d: Bytes)
    requires IsDecimal(d) && d[0] != ZERO
    ensures Value(d) > 0
  {
    if |d| > 1 { PositiveValue(d[..|d| - 1]); } else { assert d[..0] == []; }
  }

  function Pow10(i: nat): (p: nat)
    ensures p > 0
  {
    if i == 0 then 1 else 10 * Pow10(i - 1)
  }

  /** The `i`-th digit from the right is that of the number, as an ASCII digit. */
  lemma {:induction false} DigitFromRight(n: nat, i: nat)
    requires i < |Decimal(n)|
    ensures Decimal(n)[|Decimal(n)| - 1 - i] as int == 48 + n / Pow10(i) % 10
  {
    if i > 0 {
      DigitFromRight(n / 10, i - 1);
      DivideTwice(n, Pow10(i - 1));
    }
  }

  lemma DivideTwice(n: nat, p: nat)
    requires p > 0
    ensures n / 10 / p == n / (10 * p)
  {
    var q, r := n / (10 * p), n % (10 * p);
    assert n == q * (10 * p) + r && 0 <= r < 10 * p;
    assert n == 10 * (q * p) + r;
    assert n / 10 == q * p + r / 10;
    assert 0 <= r / 10 < p;
    QuotientIs(n / 10, p, q, r / 10);
  }

  lemma Multiples(a: nat, b: nat, p: nat)
    ensures a < b ==> a * p + p <= b * p
  {
    if a < b {
      var d: nat := b - a - 1;
      assert b * p == a * p + p + d * p;
    }
  }

  lemma QuotientIs(x: nat, p: nat, q: nat, r: nat)
    requires x == q * p + r && r < p
    ensures x / p == q
  {
    var d := x / p;
    assert x == d * p + x % p;
    Multiples(d, q, p);
    Multiples(q, d, p);
  }

  /** Different numbers print differently. */
  lemma DecimalIsInjective(m: nat, n: nat)
    requires Decimal(m) == Decimal(n)
    ensures m == n
  {
    DecimalParses(m);
    DecimalParses(n);
  }
}
