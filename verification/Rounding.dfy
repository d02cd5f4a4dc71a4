/** round(x, 4) on exact numbers, and ratios. */
module Rounding {

  /** round(x, 4): the nearest multiple of 1/10000, ties to the even one. */
  function Round4(x: real): (r: real)
    ensures -0.00005 <= r - x <= 0.00005
  {
    var units := x * 10000.0;
    var below := units.Floor;
    var rest := units - below as real;
    (if rest < 0.5 || (rest == 0.5 && below % 2 == 0) then below else below + 1) as real / 10000.0
  }

  /** Rounding never crosses a bound that is itself a multiple of 1/10000. */
  lemma Round4Between(x: real, lo: int, hi: int)
    requires lo as real / 10000.0 <= x <= hi as real / 10000.0
    ensures lo as real / 10000.0 <= Round4(x) <= hi as real / 10000.0
  {
    var units := x * 10000.0;
    var below := units.Floor;
    assert lo <= below <= hi;
    if below == hi { assert units == hi as real; }
  }

  /** The nearest multiple wins, and of two equally near the even one. */
  lemma Round4Exactly(x: real, n: int)
    requires -0.5 <= x * 10000.0 - n as real <= 0.5
    requires x * 10000.0 - n as real == 0.5 || x * 10000.0 - n as real == -0.5 ==> n % 2 == 0
    ensures Round4(x) == n as real / 10000.0
  {
    var below := (x * 10000.0).Floor;
    assert below == n || below == n - 1;
  }

  /** Adding an even number of ten-thousandths before or after rounding is the same. */
  lemma Round4Shift(x: real, n: int)
    ensures Round4(x + (2 * n) as real / 10000.0) == Round4(x) + (2 * n) as real / 10000.0
  {
    var moved := x + (2 * n) as real / 10000.0;
    assert moved * 10000.0 == x * 10000.0 + (2 * n) as real;
    assert (moved * 10000.0).Floor == (x * 10000.0).Floor + 2 * n;
  }

  function Least(a: real, b: real): real {
    if a <= b then a else b
  }

  lemma Round4Cap(x: real)
    ensures Round4(Least(x, 0.9999)) == Least(Round4(x), 0.9999)
  {
    Round4Between(0.9999, 9999, 9999);
    if x <= 0.9999 { Round4Monotone(x, 0.9999); } else { Round4Monotone(0.9999, x); }
  }

  lemma Round4Positive(x: real)
    ensures x > 0.00005 ==> Round4(x) >= 0.0001
  {
    if x > 0.00005 {
      var below := (x * 10000.0).Floor;
      assert x * 10000.0 > 0.5;
      assert below >= 0;
    }
  }

  lemma Round4Monotone(x: real, y: real)
    requires x <= y
    ensures Round4(x) <= Round4(y)
  {
    var i, j := (x * 10000.0).Floor, (y * 10000.0).Floor;
    assert i <= j;
  }

  /** part / whole, 0 when the whole is empty. */
  function Ratio(part: nat, whole: nat): real {
    if whole == 0 then 0.0 else part as real / whole as real
  }

  lemma RatioOfWhole(whole: nat)
    requires whole > 0
    ensures Ratio(whole, whole) == 1.0
  {
  }

  lemma RatioRange(part: nat, whole: nat)
    ensures part <= whole ==> 0.0 <= Ratio(part, whole) <= 1.0
    ensures Ratio(0, whole) == 0.0
  {
  }
}
