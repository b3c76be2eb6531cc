/**
 * The modulo-11 check-digit rule of the Receita Federal, stated once
 * independently of how the validators loop: a weighted sum of digits, and
 * the digit that brings that sum to a multiple of 11 (0 when the required
 * amount would be 10 or 11).
 */
module Mod11 {

  /** Σ ds[i] * ws[i]. */
  function WeightedSum(ds: seq<int>, ws: seq<int>): int
    requires |ds| == |ws|
  {
    if |ds| == 0 then 0 else ds[0] * ws[0] + WeightedSum(ds[1..], ws[1..])
  }

  /**
   * The check digit of a weighted sum: `11 - sum mod 11`, replaced by 0 when
   * that is 10 or 11.
   */
  function CheckDigit(sum: int): (d: nat)
    ensures d < 10
    ensures d == 0 <==> sum % 11 <= 1
    ensures d != 0 ==> (sum + d) % 11 == 0
  {
    var r := 11 - sum % 11;
    if r >= 10 then 0 else r
  }

  /** Extending both sequences by one element adds one term to the sum. */
  lemma {:induction false} WeightedSumSnoc(ds: seq<int>, ws: seq<int>, d: int, w: int)
    requires |ds| == |ws|
    ensures WeightedSum(ds + [d], ws + [w]) == WeightedSum(ds, ws) + d * w
  {
    if |ds| > 0 {
      assert (ds + [d])[1..] == ds[1..] + [d];
      assert (ws + [w])[1..] == ws[1..] + [w];
      WeightedSumSnoc(ds[1..], ws[1..], d, w);
    }
  }

  /** A weighted sum of non-negative digits with positive weights is non-negative. */
  lemma {:induction false} WeightedSumNonNegative(ds: seq<int>, ws: seq<int>)
    requires |ds| == |ws|
    requires forall i :: 0 <= i < |ds| ==> ds[i] >= 0 && ws[i] > 0
    ensures WeightedSum(ds, ws) >= 0
  {
    if |ds| > 0 {
      WeightedSumNonNegative(ds[1..], ws[1..]);
    }
  }

  /**
   * With positive weights and non-negative digits, the sum is zero exactly
   * when every digit is zero.
   */
  lemma {:induction false} WeightedSumZero(ds: seq<int>, ws: seq<int>)
    requires |ds| == |ws|
    requires forall i :: 0 <= i < |ds| ==> ds[i] >= 0 && ws[i] > 0
    ensures WeightedSum(ds, ws) == 0 <==> forall i :: 0 <= i < |ds| ==> ds[i] == 0
  {
    if |ds| > 0 {
      WeightedSumZero(ds[1..], ws[1..]);
      WeightedSumNonNegative(ds[1..], ws[1..]);
      if ds[0] > 0 {
        assert ds[0] * ws[0] > 0;
      }
      assert forall i :: 1 <= i < |ds| ==> ds[i] == ds[1..][i - 1];
    }
  }

  /** Replacing one digit changes the sum by the difference times that digit's weight. */
  lemma {:induction false} WeightedSumUpdate(ds: seq<int>, ws: seq<int>, k: nat, v: int)
    requires |ds| == |ws| && k < |ds|
    ensures WeightedSum(ds[k := v], ws) == WeightedSum(ds, ws) + (v - ds[k]) * ws[k]
  {
    if k == 0 {
      assert ds[k := v][1..] == ds[1..];
    } else {
      assert ds[k := v][1..] == ds[1..][k - 1 := v];
      WeightedSumUpdate(ds[1..], ws[1..], k - 1, v);
    }
  }

  /** A nonzero digit difference times a weight in 2..10 is never a multiple of 11, since 11 is prime. */
  lemma SmallProductNotMultiple(a: int, w: int)
    requires -9 <= a <= 9 && a != 0 && 2 <= w <= 10
    ensures (a * w) % 11 != 0
  {
    if w == 2 { assert a * w == a + a; }
    else if w == 3 { assert a * w == a + a + a; }
    else if w == 4 { assert a * w == 4 * a; }
    else if w == 5 { assert a * w == 5 * a; }
    else if w == 6 { assert a * w == 6 * a; }
    else if w == 7 { assert a * w == 7 * a; }
    else if w == 8 { assert a * w == 8 * a; }
    else if w == 9 { assert a * w == 9 * a; }
    else { assert a * w == 10 * a; }
  }

  /**
   * A nonzero check digit is tied to the sum's remainder: moving the sum by
   * anything but a multiple of 11 changes the check digit.
   */
  lemma CheckDigitDetectsShift(sum: int, x: int)
    requires CheckDigit(sum) != 0 && x % 11 != 0
    ensures CheckDigit(sum + x) != CheckDigit(sum)
  {
  }
}
