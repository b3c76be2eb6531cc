/**
 * `isValidCpf`: the CPF (individual taxpayer number) validator. The model
 * follows the JavaScript step by step, including its coercions: the input
 * loses only `.` and `-`, so a `/` survives and turns the arithmetic into
 * NaN, which makes every `!=` comparison true.
 */
module Cpf {
  import opened Text
  import opened JsNumber
  import opened Mod11

  /** The ten placeholder numbers rejected before any arithmetic. */
  const Repeated: set<string> := {
    "00000000000", "11111111111", "22222222222", "33333333333", "44444444444",
    "55555555555", "66666666666", "77777777777", "88888888888", "99999999999"
  }

  /** Weights of digits 1..9 for the first check digit. */
  const FirstWeights: seq<int> := [10, 9, 8, 7, 6, 5, 4, 3, 2]

  /** Weights of digits 1..10 for the second check digit. */
  const SecondWeights: seq<int> := [11, 10, 9, 8, 7, 6, 5, 4, 3, 2]

  /**
   * `soma` after `for (i = 1; i <= n; i++) soma += Number(cpf.charAt(i - 1)) * (top - i)`,
   * starting from 0.
   */
  function LoopSum(s: string, n: nat, top: int): Number
  {
    if n == 0 then Num(0)
    else Add(LoopSum(s, n - 1, top), Mul(CharAtNumber(s, n - 1), Num(top - n)))
  }

  /**
   * `resto = 11 - (soma - Math.floor(soma / 11) * 11)`, then 0 if it is 10 or
   * 11. Dafny's `/` by a positive divisor is floor division, as `Math.floor`.
   */
  function Resto(soma: Number): Number {
    if soma.NaN? then NaN
    else
      var resto := 11 - (soma.value - (soma.value / 11) * 11);
      Num(if resto == 10 || resto == 11 then 0 else resto)
  }

  /** `isValidCpf(cpf)` for an input over digits, `.`, `-` and `/`. */
  predicate IsValidCpf(cpf: string)
    requires IsDocumentText(cpf)
  {
    var s := Strip(cpf, CpfSeparators);
    StripKeepsDocumentText(cpf, CpfSeparators);
    if |s| != 11 || s in Repeated then false
    else if LooseNe(Resto(LoopSum(s, 9, 11)), CharAtNumber(s, 9)) then false
    else !LooseNe(Resto(LoopSum(s, 10, 12)), CharAtNumber(s, 10))
  }

  // ----- the rule, stated independently of the loops -----

  predicate IsRepdigit(s: string) {
    forall i :: 0 <= i < |s| ==> s[i] == s[0]
  }

  /** The Receita Federal rule on the eleven digit values of a CPF. */
  predicate CheckDigitsHold(d: seq<int>)
    requires |d| == 11
  {
    && d[9] == CheckDigit(WeightedSum(d[..9], FirstWeights))
    && d[10] == CheckDigit(WeightedSum(d[..10], SecondWeights))
  }

  /** What `isValidCpf` accepts, after its own separator removal. */
  predicate CpfRule(s: string) {
    |s| == 11 && AllDigits(s) && !IsRepdigit(s) && CheckDigitsHold(Digits(s))
  }

  /** The weights `top - 1, top - 2, …` of an `n`-step loop. */
  function Countdown(hi: int, n: nat): (ws: seq<int>)
    ensures |ws| == n
  {
    seq(n, k => hi - k)
  }

  // ----- lemmas connecting the loops to the rule -----

  lemma WeightsAreCountdowns()
    ensures FirstWeights == Countdown(10, 9)
    ensures SecondWeights == Countdown(11, 10)
  {
  }

  /** Over digits the loop computes the weighted sum with weights `top - 1` down. */
  lemma {:induction false} LoopSumOfDigits(s: string, n: nat, top: int)
    requires n <= |s| && AllDigits(s[..n])
    ensures LoopSum(s, n, top) == Num(WeightedSum(Digits(s[..n]), Countdown(top - 1, n)))
  {
    if n > 0 {
      assert AllDigits(s[..n - 1]) by {
        assert forall i :: 0 <= i < n - 1 ==> s[..n - 1][i] == s[..n][i];
      }
      LoopSumOfDigits(s, n - 1, top);
      assert IsDigit(s[n - 1]) by { assert s[..n][n - 1] == s[n - 1]; }
      assert Digits(s[..n]) == Digits(s[..n - 1]) + [DigitVal(s[n - 1])];
      assert Countdown(top - 1, n) == Countdown(top - 1, n - 1) + [top - n];
      WeightedSumSnoc(Digits(s[..n - 1]), Countdown(top - 1, n - 1), DigitVal(s[n - 1]), top - n);
    }
  }

  /** The loop after `n` rounds has read only the first `n` characters. */
  lemma {:induction false} LoopSumReadsPrefix(s: string, t: string, n: nat, top: int)
    requires n <= |s| && n <= |t| && s[..n] == t[..n]
    ensures LoopSum(s, n, top) == LoopSum(t, n, top)
  {
    if n > 0 {
      assert s[..n - 1] == t[..n - 1] by {
        assert s[..n - 1] == s[..n][..n - 1] && t[..n - 1] == t[..n][..n - 1];
      }
      LoopSumReadsPrefix(s, t, n - 1, top);
      assert s[n - 1] == s[..n][n - 1] && t[n - 1] == t[..n][n - 1];
    }
  }

  /** One more round of the loop over a digit adds that digit times its weight. */
  lemma LoopSumStep(s: string, n: nat, top: int, v: int)
    requires n < |s| && IsDigit(s[n]) && LoopSum(s, n, top) == Num(v)
    ensures LoopSum(s, n + 1, top) == Num(v + DigitVal(s[n]) * (top - (n + 1)))
  {}

  /** One character that is not a digit among the first `n` makes the loop NaN. */
  lemma {:induction false} LoopSumNaN(s: string, n: nat, top: int, k: nat)
    requires k < n <= |s| && !IsDigit(s[k])
    ensures LoopSum(s, n, top).NaN?
  {
    if k < n - 1 {
      LoopSumNaN(s, n - 1, top, k);
    }
  }

  lemma RestoIsCheckDigit(v: int)
    ensures Resto(Num(v)) == Num(CheckDigit(v))
  {
  }

  /** The ten literals are exactly the 11-digit strings of one repeated digit. */
  lemma RepeatedIsRepdigit(s: string)
    requires |s| == 11 && AllDigits(s)
    ensures s in Repeated <==> IsRepdigit(s)
  {
    if IsRepdigit(s) {
      var c := s[0];
      assert s == seq(11, _ => c);
      if c == '0' { assert seq(11, _ => c) == "00000000000"; }
      else if c == '1' { assert seq(11, _ => c) == "11111111111"; }
      else if c == '2' { assert seq(11, _ => c) == "22222222222"; }
      else if c == '3' { assert seq(11, _ => c) == "33333333333"; }
      else if c == '4' { assert seq(11, _ => c) == "44444444444"; }
      else if c == '5' { assert seq(11, _ => c) == "55555555555"; }
      else if c == '6' { assert seq(11, _ => c) == "66666666666"; }
      else if c == '7' { assert seq(11, _ => c) == "77777777777"; }
      else if c == '8' { assert seq(11, _ => c) == "88888888888"; }
      else { assert IsDigit(s[0]); assert seq(11, _ => c) == "99999999999"; }
    }
  }

  lemma RepeatedAreDigits(s: string)
    requires s in Repeated
    ensures AllDigits(s)
  {
  }

  /** An 11-digit string passes the loops exactly when the rule's check digits match. */
  lemma DigitStringLoops(s: string)
    requires |s| == 11 && AllDigits(s)
    ensures !LooseNe(Resto(LoopSum(s, 9, 11)), CharAtNumber(s, 9))
      <==> Digits(s)[9] == CheckDigit(WeightedSum(Digits(s)[..9], FirstWeights))
    ensures !LooseNe(Resto(LoopSum(s, 10, 12)), CharAtNumber(s, 10))
      <==> Digits(s)[10] == CheckDigit(WeightedSum(Digits(s)[..10], SecondWeights))
  {
    var d := Digits(s);
    assert s[..11] == s;
    assert Digits(s[..9]) == d[..9];
    assert Digits(s[..10]) == d[..10];
    LoopSumOfDigits(s, 9, 11);
    LoopSumOfDigits(s, 10, 12);
    WeightsAreCountdowns();
    RestoIsCheckDigit(WeightedSum(d[..9], FirstWeights));
    RestoIsCheckDigit(WeightedSum(d[..10], SecondWeights));
  }

  /** An 11-character string holding a `/` never passes both loops. */
  lemma SlashFailsLoops(s: string, k: nat)
    requires |s| == 11 && k < 11 && !IsDigit(s[k])
    ensures LooseNe(Resto(LoopSum(s, 9, 11)), CharAtNumber(s, 9))
      || LooseNe(Resto(LoopSum(s, 10, 12)), CharAtNumber(s, 10))
  {
    if k < 9 {
      LoopSumNaN(s, 9, 11, k);
    }
  }

  /**
   * `isValidCpf` is true exactly when the input, without `.` and `-`, is
   * eleven digits, not all the same digit, whose last two are the check
   * digits of the Receita Federal rule. In particular any `/` makes it false.
   */
  lemma IsValidCpfIff(cpf: string)
    requires IsDocumentText(cpf)
    ensures IsValidCpf(cpf) <==> CpfRule(Strip(cpf, CpfSeparators))
  {
    var s := Strip(cpf, CpfSeparators);
    StripKeepsDocumentText(cpf, CpfSeparators);
    if |s| == 11 {
      if AllDigits(s) {
        RepeatedIsRepdigit(s);
        DigitStringLoops(s);
      } else {
        var k :| 0 <= k < 11 && !IsDigit(s[k]);
        assert s !in Repeated by {
          if s in Repeated { RepeatedAreDigits(s); }
        }
        SlashFailsLoops(s, k);
      }
    }
  }

  /**
   * The nine leading digits determine the two check digits: two digit
   * sequences that satisfy the rule and agree on digits 1..9 are equal.
   */
  lemma BodyDeterminesCheckDigits(d: seq<int>, e: seq<int>)
    requires |d| == 11 && |e| == 11
    requires CheckDigitsHold(d) && CheckDigitsHold(e)
    requires d[..9] == e[..9]
    ensures d == e
  {
    assert d[9] == e[9];
    assert d[..10] == d[..9] + [d[9]];
    assert e[..10] == e[..9] + [e[9]];
    assert d[10] == e[10];
    assert d == d[..10] + [d[10]];
    assert e == e[..10] + [e[10]];
  }

  /**
   * So changing either check digit of a valid CPF makes it invalid: two
   * valid inputs whose first nine digits agree are the same number.
   */
  lemma ChangedCheckDigitFails(a: string, b: string)
    requires IsDocumentText(a) && IsDocumentText(b)
    requires IsValidCpf(a) && IsValidCpf(b)
    requires Strip(a, CpfSeparators)[..9] == Strip(b, CpfSeparators)[..9]
    ensures Strip(a, CpfSeparators) == Strip(b, CpfSeparators)
  {
    var s, t := Strip(a, CpfSeparators), Strip(b, CpfSeparators);
    IsValidCpfIff(a);
    IsValidCpfIff(b);
    var ds, dt := Digits(s), Digits(t);
    assert ds[..9] == dt[..9] by {
      forall i | 0 <= i < 9 ensures ds[i] == dt[i] {
        assert s[..9][i] == t[..9][i];
      }
    }
    BodyDeterminesCheckDigits(ds, dt);
    forall i | 0 <= i < 11 ensures s[i] == t[i] {
      assert DigitVal(s[i]) == DigitVal(t[i]);
    }
  }

  /**
   * When the first check digit is not 0, changing any one of digits 1..9
   * breaks the rule: the first sum moves by the difference times a weight in
   * 2..10, never a multiple of 11, so the first check digit no longer fits.
   */
  lemma ChangedBodyDigitBreaksRule(d: seq<int>, k: nat, v: int)
    requires |d| == 11 && CheckDigitsHold(d) && d[9] != 0
    requires k < 9 && 0 <= v < 10 && 0 <= d[k] < 10 && v != d[k]
    ensures !CheckDigitsHold(d[k := v])
  {
    var e := d[k := v];
    assert e[..9] == d[..9][k := v];
    WeightedSumUpdate(d[..9], FirstWeights, k, v);
    assert FirstWeights[k] == 10 - k;
    SmallProductNotMultiple(v - d[k], 10 - k);
    CheckDigitDetectsShift(WeightedSum(d[..9], FirstWeights), (v - d[k]) * (10 - k));
    assert e[9] == d[9];
  }

  /** The same on digit strings: the rule rejects any change of one of digits 1..9. */
  lemma ChangedBodyDigitBreaksCpfRule(s: string, k: nat, c: char)
    requires CpfRule(s) && DigitVal(s[9]) != 0
    requires k < 9 && IsDigit(c) && c != s[k]
    ensures AllDigits(s[k := c]) && !CpfRule(s[k := c])
  {
    var t := s[k := c];
    assert AllDigits(t) by {
      forall i | 0 <= i < |t| ensures IsDigit(t[i]) {
        if i != k { assert t[i] == s[i]; }
      }
    }
    var ds := Digits(s);
    assert Digits(t) == ds[k := DigitVal(c)] by {
      forall i | 0 <= i < 11 ensures Digits(t)[i] == ds[k := DigitVal(c)][i] {
        if i != k { assert t[i] == s[i]; }
      }
    }
    ChangedBodyDigitBreaksRule(ds, k, DigitVal(c));
  }

  /**
   * A valid CPF written as plain digits whose tenth digit is not 0 is
   * rejected once any one of its first nine digits is changed.
   */
  lemma ChangedBodyDigitFails(s: string, k: nat, c: char)
    requires |s| == 11 && AllDigits(s) && IsValidCpf(s) && DigitVal(s[9]) != 0
    requires k < 9 && IsDigit(c) && c != s[k]
    ensures IsDocumentText(s[k := c]) && !IsValidCpf(s[k := c])
  {
    StripNothingToDrop(s, CpfSeparators);
    IsValidCpfIff(s);
    ChangedBodyDigitBreaksCpfRule(s, k, c);
    var t := s[k := c];
    StripNothingToDrop(t, CpfSeparators);
    IsValidCpfIff(t);
  }

  /** A `/` anywhere in the input makes `isValidCpf` false. */
  lemma SlashIsNotRemoved(cpf: string)
    requires IsDocumentText(cpf) && '/' in cpf
    ensures !IsValidCpf(cpf)
  {
    var s := Strip(cpf, CpfSeparators);
    StripMembers(cpf, CpfSeparators);
    IsValidCpfIff(cpf);
    var k :| 0 <= k < |s| && s[k] == '/';
    assert !IsDigit(s[k]);
  }

  // The concrete examples below evaluate one loop per lemma: the verifier
  // evaluates a function on literal arguments, but not the whole validator
  // on a literal at once.

  /** What `isValidCpf` decides on an 11-digit string once its loops are evaluated. */
  lemma DecideFromLoops(cpf: string, first: int, second: int, e1: int, e2: int)
    requires |cpf| == 11 && AllDigits(cpf) && cpf !in Repeated
    requires LoopSum(cpf, 9, 11) == Num(first) && LoopSum(cpf, 10, 12) == Num(second)
    requires DigitVal(cpf[9]) == e1 && DigitVal(cpf[10]) == e2
    ensures IsDocumentText(cpf)
    ensures IsValidCpf(cpf) <==> e1 == CheckDigit(first) && e2 == CheckDigit(second)
  {
    StripNothingToDrop(cpf, CpfSeparators);
    RestoIsCheckDigit(first);
    RestoIsCheckDigit(second);
  }

  lemma ReferenceDigits() ensures AllDigits("52998224725") {}
  lemma ReferenceNotRepeated() ensures "52998224725" !in Repeated {}
  lemma ReferenceFirstSum(s: string) requires s == "52998224725" ensures LoopSum(s, 9, 11) == Num(295) {
    LoopSumStep(s, 0, 11, 0); LoopSumStep(s, 1, 11, 50); LoopSumStep(s, 2, 11, 68);
    LoopSumStep(s, 3, 11, 140); LoopSumStep(s, 4, 11, 203); LoopSumStep(s, 5, 11, 251);
    LoopSumStep(s, 6, 11, 261); LoopSumStep(s, 7, 11, 269); LoopSumStep(s, 8, 11, 281);
  }
  lemma ReferenceSecondSum(s: string) requires s == "52998224725" ensures LoopSum(s, 10, 12) == Num(347) {
    LoopSumStep(s, 0, 12, 0); LoopSumStep(s, 1, 12, 55); LoopSumStep(s, 2, 12, 75);
    LoopSumStep(s, 3, 12, 156); LoopSumStep(s, 4, 12, 228); LoopSumStep(s, 5, 12, 284);
    LoopSumStep(s, 6, 12, 296); LoopSumStep(s, 7, 12, 306); LoopSumStep(s, 8, 12, 322);
    LoopSumStep(s, 9, 12, 343);
  }
  lemma ReferenceCheckChars()
    ensures AllDigits("52998224725") && DigitVal("52998224725"[9]) == 2 && DigitVal("52998224725"[10]) == 5
  {}
  lemma ReferenceArithmetic() ensures CheckDigit(295) == 2 && CheckDigit(347) == 5 {}

  /** The reference number `52998224725` passes. */
  lemma ReferenceCpfIsValid(cpf: string)
    requires cpf == "52998224725"
    ensures IsDocumentText(cpf) && IsValidCpf(cpf)
  {
    ReferenceDigits();
    ReferenceNotRepeated();
    ReferenceFirstSum(cpf);
    ReferenceSecondSum(cpf);
    ReferenceCheckChars();
    ReferenceArithmetic();
    DecideFromLoops(cpf, 295, 347, 2, 5);
  }

  /** Changing any one of the first nine digits of `52998224725` makes it fail. */
  lemma ReferenceWithWrongBodyDigitFails(cpf: string, k: nat, c: char)
    requires cpf == "52998224725" && k < 9 && IsDigit(c) && c != cpf[k]
    ensures IsDocumentText(cpf[k := c]) && !IsValidCpf(cpf[k := c])
  {
    ReferenceCpfIsValid(cpf);
    ReferenceCheckChars();
    ChangedBodyDigitFails(cpf, k, c);
  }

  lemma WrongLastDigits() ensures AllDigits("52998224726") {}
  lemma WrongLastNotRepeated() ensures "52998224726" !in Repeated {}
  lemma WrongLastSums(s: string)
    requires s == "52998224726"
    ensures LoopSum(s, 9, 11) == Num(295) && LoopSum(s, 10, 12) == Num(347)
  {
    var r := "52998224725";
    ReferenceFirstSum(r);
    ReferenceSecondSum(r);
    assert s[..10] == r[..10];
    LoopSumReadsPrefix(s, r, 9, 11);
    LoopSumReadsPrefix(s, r, 10, 12);
  }
  lemma WrongLastCheckChars()
    ensures AllDigits("52998224726") && DigitVal("52998224726"[9]) == 2 && DigitVal("52998224726"[10]) == 6
  {}

  /** Changing the last digit of the reference number makes it fail. */
  lemma ReferenceWithWrongLastDigitFails(cpf: string)
    requires cpf == "52998224726"
    ensures IsDocumentText(cpf) && !IsValidCpf(cpf)
  {
    WrongLastDigits();
    WrongLastNotRepeated();
    WrongLastSums(cpf);
    WrongLastCheckChars();
    ReferenceArithmetic();
    DecideFromLoops(cpf, 295, 347, 2, 6);
  }

  lemma BlindSpotDigits() ensures AllDigits("10000000108") && AllDigits("20000000108") {}
  lemma BlindSpotNotRepeated() ensures "10000000108" !in Repeated && "20000000108" !in Repeated {}
  lemma BlindSpotFirstSum(s: string) requires s == "10000000108" ensures LoopSum(s, 9, 11) == Num(12) {
    LoopSumStep(s, 0, 11, 0); LoopSumStep(s, 1, 11, 10); LoopSumStep(s, 2, 11, 10);
    LoopSumStep(s, 3, 11, 10); LoopSumStep(s, 4, 11, 10); LoopSumStep(s, 5, 11, 10);
    LoopSumStep(s, 6, 11, 10); LoopSumStep(s, 7, 11, 10); LoopSumStep(s, 8, 11, 10);
  }
  lemma BlindSpotSecondSum(s: string) requires s == "10000000108" ensures LoopSum(s, 10, 12) == Num(14) {
    LoopSumStep(s, 0, 12, 0); LoopSumStep(s, 1, 12, 11); LoopSumStep(s, 2, 12, 11);
    LoopSumStep(s, 3, 12, 11); LoopSumStep(s, 4, 12, 11); LoopSumStep(s, 5, 12, 11);
    LoopSumStep(s, 6, 12, 11); LoopSumStep(s, 7, 12, 11); LoopSumStep(s, 8, 12, 11);
    LoopSumStep(s, 9, 12, 14);
  }
  lemma BlindSpotTwinFirstSum(s: string) requires s == "20000000108" ensures LoopSum(s, 9, 11) == Num(22) {
    LoopSumStep(s, 0, 11, 0); LoopSumStep(s, 1, 11, 20); LoopSumStep(s, 2, 11, 20);
    LoopSumStep(s, 3, 11, 20); LoopSumStep(s, 4, 11, 20); LoopSumStep(s, 5, 11, 20);
    LoopSumStep(s, 6, 11, 20); LoopSumStep(s, 7, 11, 20); LoopSumStep(s, 8, 11, 20);
  }
  lemma BlindSpotTwinSecondSum(s: string) requires s == "20000000108" ensures LoopSum(s, 10, 12) == Num(25) {
    LoopSumStep(s, 0, 12, 0); LoopSumStep(s, 1, 12, 22); LoopSumStep(s, 2, 12, 22);
    LoopSumStep(s, 3, 12, 22); LoopSumStep(s, 4, 12, 22); LoopSumStep(s, 5, 12, 22);
    LoopSumStep(s, 6, 12, 22); LoopSumStep(s, 7, 12, 22); LoopSumStep(s, 8, 12, 22);
    LoopSumStep(s, 9, 12, 25);
  }
  lemma BlindSpotCheckChars()
    ensures AllDigits("10000000108") && DigitVal("10000000108"[9]) == 0 && DigitVal("10000000108"[10]) == 8
    ensures AllDigits("20000000108") && DigitVal("20000000108"[9]) == 0 && DigitVal("20000000108"[10]) == 8
  {}
  lemma BlindSpotArithmetic()
    ensures CheckDigit(12) == 0 && CheckDigit(14) == 8 && CheckDigit(22) == 0 && CheckDigit(25) == 8
  {}

  lemma BlindSpotIsValid(a: string)
    requires a == "10000000108"
    ensures IsDocumentText(a) && IsValidCpf(a)
  {
    BlindSpotDigits();
    BlindSpotNotRepeated();
    BlindSpotFirstSum(a);
    BlindSpotSecondSum(a);
    BlindSpotCheckChars();
    BlindSpotArithmetic();
    DecideFromLoops(a, 12, 14, 0, 8);
  }

  lemma BlindSpotTwinIsValid(b: string)
    requires b == "20000000108"
    ensures IsDocumentText(b) && IsValidCpf(b)
  {
    BlindSpotDigits();
    BlindSpotNotRepeated();
    BlindSpotTwinFirstSum(b);
    BlindSpotTwinSecondSum(b);
    BlindSpotCheckChars();
    BlindSpotArithmetic();
    DecideFromLoops(b, 22, 25, 0, 8);
  }

  /**
   * The first digit has weight 11 in the second sum, which is 0 modulo 11;
   * when the first sum moves between remainders 0 and 1 the first check digit
   * stays 0 as well, so a change of digit 1 can go unnoticed: both inputs
   * pass although they differ only there.
   */
  lemma FirstDigitChangeCanPass(a: string, b: string)
    requires a == "10000000108" && b == "20000000108"
    ensures IsDocumentText(a) && IsDocumentText(b)
    ensures IsValidCpf(a) && IsValidCpf(b)
    ensures a[1..] == b[1..] && a[0] != b[0]
  {
    BlindSpotIsValid(a);
    BlindSpotTwinIsValid(b);
  }
}
