/**
 * `isValidCnpj`: after removing `.`, `-` and `/`, the first 12 characters
 * are the body and the next two the check digits. Two passes of weighted
 * sums over the body, read from its right end, must reproduce the check
 * digits. A body whose first sum is 0 is rejected outright. Characters the
 * input lacks read as 0, because `charAt` past the end yields "" and ""
 * coerces to 0.
 */
module Cnpj {
  import opened Text
  import opened Mod11

  /**
   * The weight loop of `isValidCnpj` after `n` of its 12 rounds. Round `i`
   * takes body character `11 - i` with weight `2 + (i + shift) % 8`. The
   * first pass has shift 0; the second has shift 1 and starts from twice
   * the first check digit.
   */
  function PassSum(c: string, shift: nat, n: nat): nat
    requires AllDigits(c) && n <= 12
  {
    if n == 0 then 0
    else PassSum(c, shift, n - 1) + NumAt(c, 11 - (n - 1)) * (2 + ((n - 1) + shift) % 8)
  }

  /** `isValidCnpj`, on document text. */
  predicate IsValidCnpj(s: string)
    requires IsDocumentText(s)
  {
    var t := Strip(s, DocumentSeparators);
    StripDocumentIsDigits(s);
    var c := Substr(t, 0, 12);
    var dv := Substr(t, 12, 2);
    var sum1 := PassSum(c, 0, 12);
    if sum1 == 0 then false
    else
      var r1 := 11 - sum1 % 11;
      var d1 := if r1 > 9 then 0 else r1;
      if NumAt(dv, 0) != d1 then false
      else
        var sum2 := d1 * 2 + PassSum(c, 1, 12);
        var r2 := 11 - sum2 % 11;
        var d2 := if r2 > 9 then 0 else r2;
        NumAt(dv, 1) == d2
  }

  // ---------------------------------------------------------------------
  // The rule stated independently of the loops: the Receita Federal's
  // weights applied left to right to the 14 digit positions.
  // ---------------------------------------------------------------------

  /** Weights of the first check digit, for body positions 0..11. */
  const FirstWeights: seq<int> := [5, 4, 3, 2] + [9, 8, 7, 6] + [5, 4, 3, 2]

  /** Weights of the second check digit, for body positions 0..11 and the first check digit. */
  const SecondWeights: seq<int> := [6, 5, 4, 3] + [2, 9, 8, 7] + [6, 5, 4, 3] + [2]

  /**
   * The 14 digit positions the validator looks at: the digits of `t`, with
   * 0 wherever `t` is too short.
   */
  function Padded(t: string): (p: seq<int>)
    requires AllDigits(t)
    ensures |p| == 14
    ensures forall i :: 0 <= i < 14 ==> 0 <= p[i] < 10
    ensures forall i :: 0 <= i < 14 && i < |t| ==> p[i] == DigitVal(t[i])
    ensures forall i :: |t| <= i < 14 ==> p[i] == 0
  {
    seq(14, i requires 0 <= i < 14 => NumAt(t, i))
  }

  /**
   * The CNPJ rule on 14 digit values: the body is not all zeros, and each
   * check digit is the modulo-11 check digit of the digits before it.
   */
  predicate CnpjRule(p: seq<int>)
    requires |p| == 14
  {
    WeightedSum(p[..12], FirstWeights) != 0
    && p[12] == CheckDigit(WeightedSum(p[..12], FirstWeights))
    && p[13] == CheckDigit(WeightedSum(p[..13], SecondWeights))
  }

  // ---------------------------------------------------------------------
  // The loops compute the reference sums.
  // ---------------------------------------------------------------------

  /** The body digits as the loop reads them. */
  function Body(c: string): (b: seq<int>)
    requires AllDigits(c)
    ensures |b| == 12
    ensures forall k :: 0 <= k < 12 ==> b[k] == NumAt(c, k)
  {
    seq(12, k requires 0 <= k < 12 => NumAt(c, k))
  }

  /** The weight the loop gives body position `k`, for a pass with offset `shift`. */
  function LoopWeights(shift: nat): (w: seq<int>)
    ensures |w| == 12
    ensures forall k :: 0 <= k < 12 ==> w[k] == 2 + (11 - k + shift) % 8
  {
    seq(12, k requires 0 <= k < 12 => 2 + (11 - k + shift) % 8)
  }

  /**
   * After `n` rounds the loop has summed the last `n` body positions, each
   * with its weight: a suffix of the left-to-right weighted sum.
   */
  lemma {:induction false} PassSumIsSuffixSum(c: string, shift: nat, n: nat)
    requires AllDigits(c) && n <= 12
    ensures PassSum(c, shift, n) == WeightedSum(Body(c)[12 - n..], LoopWeights(shift)[12 - n..])
  {
    if n > 0 {
      PassSumIsSuffixSum(c, shift, n - 1);
      var b := Body(c)[12 - n..];
      var w := LoopWeights(shift)[12 - n..];
      assert b[1..] == Body(c)[12 - (n - 1)..];
      assert w[1..] == LoopWeights(shift)[12 - (n - 1)..];
      assert b[0] == NumAt(c, 11 - (n - 1));
      assert w[0] == 2 + ((n - 1) + shift) % 8;
    }
  }

  lemma FirstWeightsFromLoop()
    ensures LoopWeights(0) == FirstWeights
  {
    var w := LoopWeights(0);
    assert w[0] == 5 && w[1] == 4 && w[2] == 3 && w[3] == 2;
    assert w[4] == 9 && w[5] == 8 && w[6] == 7 && w[7] == 6;
    assert w[8] == 5 && w[9] == 4 && w[10] == 3 && w[11] == 2;
  }

  lemma SecondWeightsFromLoop()
    ensures LoopWeights(1) + [2] == SecondWeights
  {
    var w := LoopWeights(1);
    assert w[0] == 6 && w[1] == 5 && w[2] == 4 && w[3] == 3;
    assert w[4] == 2 && w[5] == 9 && w[6] == 8 && w[7] == 7;
    assert w[8] == 6 && w[9] == 5 && w[10] == 4 && w[11] == 3;
  }

  /**
   * The two weight loops compute the reference sums: the first pass is the
   * weighted sum of the body with the first-digit weights, and the second
   * pass plus twice the first check digit is the weighted sum of body and
   * first check digit with the second-digit weights.
   */
  lemma PassesAreReferenceSums(c: string, d1: int)
    requires AllDigits(c)
    ensures PassSum(c, 0, 12) == WeightedSum(Body(c), FirstWeights)
    ensures d1 * 2 + PassSum(c, 1, 12) == WeightedSum(Body(c) + [d1], SecondWeights)
  {
    PassSumIsSuffixSum(c, 0, 12);
    PassSumIsSuffixSum(c, 1, 12);
    assert Body(c)[0..] == Body(c);
    assert LoopWeights(0)[0..] == LoopWeights(0);
    assert LoopWeights(1)[0..] == LoopWeights(1);
    FirstWeightsFromLoop();
    SecondWeightsFromLoop();
    WeightedSumSnoc(Body(c), LoopWeights(1), d1, 2);
  }

  /** The body and check-digit strings, read as the loop reads them, are the padded positions. */
  lemma SplitIsPadded(t: string)
    requires AllDigits(t)
    ensures AllDigits(Substr(t, 0, 12)) && AllDigits(Substr(t, 12, 2))
    ensures Body(Substr(t, 0, 12)) == Padded(t)[..12]
    ensures NumAt(Substr(t, 12, 2), 0) == Padded(t)[12]
    ensures NumAt(Substr(t, 12, 2), 1) == Padded(t)[13]
  {
    var c := Substr(t, 0, 12);
    assert Body(c) == Padded(t)[..12] by {
      forall k | 0 <= k < 12 ensures Body(c)[k] == Padded(t)[..12][k] {
        if k < |t| {
          assert k < |c| && c[k] == t[k];
        }
      }
    }
  }

  /** `isValidCnpj` accepts exactly the inputs whose padded digits satisfy the CNPJ rule. */
  lemma IsValidCnpjIff(s: string)
    requires IsDocumentText(s)
    ensures AllDigits(Strip(s, DocumentSeparators))
    ensures IsValidCnpj(s) <==> CnpjRule(Padded(Strip(s, DocumentSeparators)))
  {
    var t := Strip(s, DocumentSeparators);
    StripDocumentIsDigits(s);
    var p := Padded(t);
    SplitIsPadded(t);
    var c := Substr(t, 0, 12);
    var sum1 := PassSum(c, 0, 12);
    PassesAreReferenceSums(c, CheckDigit(sum1));
    assert p[..13] == p[..12] + [p[12]];
  }

  // ---------------------------------------------------------------------
  // Consequences.
  // ---------------------------------------------------------------------

  /** The verdict depends only on the 14 padded positions. */
  lemma SamePaddedSameVerdict(a: string, b: string)
    requires IsDocumentText(a) && IsDocumentText(b)
    requires AllDigits(Strip(a, DocumentSeparators)) && AllDigits(Strip(b, DocumentSeparators))
    requires Padded(Strip(a, DocumentSeparators)) == Padded(Strip(b, DocumentSeparators))
    ensures IsValidCnpj(a) <==> IsValidCnpj(b)
  {
    IsValidCnpjIff(a);
    IsValidCnpjIff(b);
  }

  /** Every digit after the fourteenth is ignored. */
  lemma IgnoresTail(t: string)
    requires AllDigits(t) && |t| >= 14
    ensures IsDocumentText(t) && IsDocumentText(t[..14])
    ensures IsValidCnpj(t) <==> IsValidCnpj(t[..14])
  {
    StripNothingToDrop(t, DocumentSeparators);
    StripNothingToDrop(t[..14], DocumentSeparators);
    assert Padded(t) == Padded(t[..14]);
    SamePaddedSameVerdict(t, t[..14]);
  }

  function Zeros(n: nat): (z: string)
    ensures |z| == n && AllDigits(z)
    ensures forall i :: 0 <= i < n ==> z[i] == '0'
  {
    seq(n, _ => '0')
  }

  /** A digit string shorter than 14 is judged as if it were padded with zeros on the right. */
  lemma MissingDigitsAreZero(t: string)
    requires AllDigits(t) && |t| < 14
    ensures IsDocumentText(t) && IsDocumentText(t + Zeros(14 - |t|))
    ensures IsValidCnpj(t) <==> IsValidCnpj(t + Zeros(14 - |t|))
  {
    var u := t + Zeros(14 - |t|);
    assert AllDigits(u) by {
      forall i | 0 <= i < |u| ensures IsDigit(u[i]) {
        if i >= |t| { assert u[i] == '0'; }
      }
    }
    StripNothingToDrop(t, DocumentSeparators);
    StripNothingToDrop(u, DocumentSeparators);
    assert Padded(t) == Padded(u) by {
      forall i | 0 <= i < 14 ensures Padded(t)[i] == Padded(u)[i] {
        if i >= |t| { assert u[i] == '0'; }
      }
    }
    SamePaddedSameVerdict(t, u);
  }

  /** A body of zeros is rejected, whatever its check digits. */
  lemma ZeroBodyIsInvalid(s: string)
    requires IsDocumentText(s)
    requires AllDigits(Strip(s, DocumentSeparators))
    requires forall k :: 0 <= k < 12 ==> Padded(Strip(s, DocumentSeparators))[k] == 0
    ensures !IsValidCnpj(s)
  {
    IsValidCnpjIff(s);
    var p := Padded(Strip(s, DocumentSeparators));
    WeightedSumZero(p[..12], FirstWeights);
  }

  /** A nonzero body is accepted with at most one pair of check digits. */
  lemma BodyDeterminesCheckDigits(a: string, b: string)
    requires IsDocumentText(a) && IsDocumentText(b)
    requires AllDigits(Strip(a, DocumentSeparators)) && AllDigits(Strip(b, DocumentSeparators))
    requires Padded(Strip(a, DocumentSeparators))[..12] == Padded(Strip(b, DocumentSeparators))[..12]
    requires IsValidCnpj(a) && IsValidCnpj(b)
    ensures Padded(Strip(a, DocumentSeparators)) == Padded(Strip(b, DocumentSeparators))
  {
    IsValidCnpjIff(a);
    IsValidCnpjIff(b);
    var p := Padded(Strip(a, DocumentSeparators));
    var q := Padded(Strip(b, DocumentSeparators));
    assert p[..13] == p[..12] + [p[12]];
    assert q[..13] == q[..12] + [q[12]];
    assert p[..13] == q[..13];
    assert p == p[..13] + [p[13]];
    assert q == q[..13] + [q[13]];
  }

  // The concrete examples evaluate one pass per lemma.

  /** What `isValidCnpj` decides on a digit string once its two passes are evaluated. */
  lemma DecideFromPasses(t: string, body: string, dv: string, first: int, second: int, e1: int, e2: int)
    requires AllDigits(t) && |t| <= 14
    requires Substr(t, 0, 12) == body && Substr(t, 12, 2) == dv
    requires AllDigits(body) && AllDigits(dv)
    requires PassSum(body, 0, 12) == first && PassSum(body, 1, 12) == second
    requires NumAt(dv, 0) == e1 && NumAt(dv, 1) == e2
    ensures IsDocumentText(t)
    ensures IsValidCnpj(t) <==> first != 0 && e1 == CheckDigit(first) && e2 == CheckDigit(e1 * 2 + second)
  {
    StripNothingToDrop(t, DocumentSeparators);
  }

  lemma ReferenceSplit()
    ensures Substr("11444777000161", 0, 12) == "114447770001"
    ensures Substr("11444777000161", 12, 2) == "61"
  {}
  lemma ReferenceDigits()
    ensures AllDigits("11444777000161") && AllDigits("114447770001") && AllDigits("61")
  {}
  lemma ReferenceCheckDigits() ensures NumAt("61", 0) == 6 && NumAt("61", 1) == 1 {}
  lemma ReferenceFirstPass() ensures PassSum("114447770001", 0, 12) == 214 {}
  lemma ReferenceSecondPass() ensures PassSum("114447770001", 1, 12) == 218 {}
  lemma ReferenceArithmetic() ensures CheckDigit(214) == 6 && CheckDigit(6 * 2 + 218) == 1 {}

  /** The reference number `11444777000161` passes. */
  lemma ReferenceCnpjIsValid(t: string)
    requires t == "11444777000161"
    ensures IsDocumentText(t) && IsValidCnpj(t)
  {
    ReferenceSplit();
    ReferenceDigits();
    ReferenceCheckDigits();
    ReferenceFirstPass();
    ReferenceSecondPass();
    ReferenceArithmetic();
    DecideFromPasses(t, "114447770001", "61", 214, 218, 6, 1);
  }

  lemma TwelveDigitsSplit()
    ensures Substr("000000000037", 0, 12) == "000000000037"
    ensures Substr("000000000037", 12, 2) == ""
  {}
  lemma TwelveDigitsDigits() ensures AllDigits("000000000037") && NumAt("", 0) == 0 && NumAt("", 1) == 0 {}
  lemma TwelveDigitsFirstPass() ensures PassSum("000000000037", 0, 12) == 23 {}
  lemma TwelveDigitsSecondPass() ensures PassSum("000000000037", 1, 12) == 33 {}
  lemma TwelveDigitsArithmetic() ensures CheckDigit(23) == 0 && CheckDigit(0 * 2 + 33) == 0 {}

  /**
   * Twelve digits with no check digits at all can pass: both missing check
   * digits read as 0, and this body's check digits happen to be 0.
   */
  lemma TwelveDigitsCanPass(t: string)
    requires t == "000000000037"
    ensures |t| == 12 && IsDocumentText(t) && IsValidCnpj(t)
  {
    TwelveDigitsSplit();
    TwelveDigitsDigits();
    TwelveDigitsFirstPass();
    TwelveDigitsSecondPass();
    TwelveDigitsArithmetic();
    DecideFromPasses(t, t, "", 23, 33, 0, 0);
  }
}
