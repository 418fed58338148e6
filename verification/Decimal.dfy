/** Decimal numerals as character codes. */
module Decimal {
  type Digit = d: int | 48 <= d <= 57 witness 48

  function Dec(n: nat): (d: seq<Digit>)
    ensures |d| >= 1
    ensures d[0] == 48 ==> n == 0 && |d| == 1
  {
    if n < 10 then [48 + n] else Dec(n / 10) + [48 + n % 10]
  }

  /** The numeral as plain character codes. */
  function Digits(n: nat): (d: seq<int>)
    ensures d == Dec(n) && forall i | 0 <= i < |d| :: 48 <= d[i] <= 57
  {
    var d := Dec(n);
    seq(|d|, i requires 0 <= i < |d| => d[i])
  }

  function Value(d: seq<Digit>): nat {
    if d == [] then 0
    else
      var last: int := d[|d| - 1];
      Value(d[..|d| - 1]) * 10 + (last - 48)
  }

  predicate IsDigit(c: int) {
    48 <= c <= 57
  }

  predicate AllDigits(s: seq<int>) {
    forall k | 0 <= k < |s| :: IsDigit(s[k])
  }

  lemma {:induction false} ValueOfDec(n: nat)
    ensures Value(Dec(n)) == n
  {
    if n >= 10 {
      ValueOfDec(n / 10);
      assert Dec(n)[..|Dec(n)| - 1] == Dec(n / 10);
    } else {
      assert Dec(n)[..0] == [];
    }
  }

  /** Numerals below 10^k have at most k digits. */
  lemma {:induction false} DecLength(n: nat, k: nat, bound: nat)
    requires k >= 1 && n < bound && bound <= PowTen(k)
    ensures |Dec(n)| <= k
    decreases k
  {
    assert PowTen(1) == 10 * PowTen(0) == 10;
    if n >= 10 {
      DecLength(n / 10, k - 1, PowTen(k - 1));
    }
  }

  function PowTen(k: nat): nat {
    if k == 0 then 1 else 10 * PowTen(k - 1)
  }
}
