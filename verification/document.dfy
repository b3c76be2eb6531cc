/**
 * `isValidCpfOrCnpj`: removes `.`, `-` and `/`, then tries the CNPJ
 * validator when more than eleven characters remain and the CPF validator
 * otherwise (or when the CNPJ validator said no).
 */
module Document {
  import opened Text
  import Cpf
  import Cnpj

  /** `isValidCpfOrCnpj`, on document text. */
  predicate IsValidCpfOrCnpj(s: string)
    requires IsDocumentText(s)
  {
    var number := Strip(s, DocumentSeparators);
    StripKeepsDocumentText(s, DocumentSeparators);
    if |number| > 11 && Cnpj.IsValidCnpj(number) then true
    else Cpf.IsValidCpf(number)
  }

  /** Once `.`, `-` and `/` are gone, removing them again (or only some of them) changes nothing. */
  lemma StrippedIsFixed(s: string)
    requires IsDocumentText(s)
    ensures AllDigits(Strip(s, DocumentSeparators))
    ensures Strip(Strip(s, DocumentSeparators), DocumentSeparators) == Strip(s, DocumentSeparators)
    ensures Strip(Strip(s, DocumentSeparators), CpfSeparators) == Strip(s, DocumentSeparators)
  {
    var n := Strip(s, DocumentSeparators);
    StripDocumentIsDigits(s);
    StripNothingToDrop(n, DocumentSeparators);
    StripNothingToDrop(n, CpfSeparators);
  }

  /**
   * The router accepts exactly the inputs whose digits form a CNPJ (when
   * there are more than eleven) or a CPF.
   */
  lemma IsValidCpfOrCnpjIff(s: string)
    requires IsDocumentText(s)
    ensures AllDigits(Strip(s, DocumentSeparators))
    ensures IsValidCpfOrCnpj(s) <==>
      (|Strip(s, DocumentSeparators)| > 11 && Cnpj.CnpjRule(Cnpj.Padded(Strip(s, DocumentSeparators))))
      || Cpf.CpfRule(Strip(s, DocumentSeparators))
  {
    var n := Strip(s, DocumentSeparators);
    StrippedIsFixed(s);
    StripKeepsDocumentText(s, DocumentSeparators);
    Cnpj.IsValidCnpjIff(n);
    Cpf.IsValidCpfIff(n);
  }

  /**
   * By digit count: fewer than eleven digits never pass, eleven digits are
   * judged by the CPF rule alone, and more than eleven by the CNPJ rule
   * alone, twelve and thirteen included.
   */
  lemma RoutedByLength(s: string)
    requires IsDocumentText(s)
    ensures AllDigits(Strip(s, DocumentSeparators))
    ensures |Strip(s, DocumentSeparators)| < 11 ==> !IsValidCpfOrCnpj(s)
    ensures |Strip(s, DocumentSeparators)| == 11 ==> (IsValidCpfOrCnpj(s) <==> Cpf.CpfRule(Strip(s, DocumentSeparators)))
    ensures |Strip(s, DocumentSeparators)| > 11 ==>
      (IsValidCpfOrCnpj(s) <==> Cnpj.CnpjRule(Cnpj.Padded(Strip(s, DocumentSeparators))))
  {
    IsValidCpfOrCnpjIff(s);
  }

  /**
   * Twelve digits can pass the router: `000000000037` is accepted through
   * the CNPJ validator, which reads its two missing check digits as 0.
   */
  lemma TwelveDigitsAccepted(s: string)
    requires s == "000000000037"
    ensures |s| == 12 && IsDocumentText(s) && IsValidCpfOrCnpj(s)
  {
    Cnpj.TwelveDigitsCanPass(s);
    StripNothingToDrop(s, DocumentSeparators);
  }

  /** A CPF with a `/` in front of its check digits. */
  function SlashBeforeCheckDigits(d: string): (s: string)
    requires |d| == 11
    ensures |s| == 12 && s[9] == '/'
  {
    d[..9] + "/" + d[9..]
  }

  /**
   * Writing a valid CPF with a `/` before its check digits makes
   * `isValidCpf` reject it, because it keeps the `/`, while
   * `isValidCpfOrCnpj` accepts it.
   */
  lemma SlashedCpfSplitsVerdicts(d: string)
    requires AllDigits(d) && |d| == 11
    requires Cpf.CpfRule(d)
    ensures IsDocumentText(SlashBeforeCheckDigits(d))
    ensures IsValidCpfOrCnpj(SlashBeforeCheckDigits(d))
    ensures !Cpf.IsValidCpf(SlashBeforeCheckDigits(d))
  {
    var s := SlashBeforeCheckDigits(d);
    assert d == d[..9] + d[9..];
    assert IsDocumentText(s) by {
      forall i | 0 <= i < |s| ensures IsDigit(s[i]) || s[i] in DocumentSeparators {
        if i < 9 { assert s[i] == d[i]; }
        else if i > 9 { assert s[i] == d[i - 1]; }
      }
    }
    StripConcat(d[..9] + "/", d[9..], DocumentSeparators);
    StripConcat(d[..9], "/", DocumentSeparators);
    StripNothingToDrop(d[..9], DocumentSeparators);
    StripNothingToDrop(d[9..], DocumentSeparators);
    assert Strip("/", DocumentSeparators) == "";
    assert Strip(s, DocumentSeparators) == d;
    RoutedByLength(s);
    assert '/' in s by { assert s[9] == '/'; }
    Cpf.SlashIsNotRemoved(s);
  }

  /** The reference CPF, written `529982247/25`, splits the two validators. */
  lemma ReferenceSlashedCpf(d: string)
    requires d == "52998224725"
    ensures IsDocumentText(SlashBeforeCheckDigits(d))
    ensures IsValidCpfOrCnpj(SlashBeforeCheckDigits(d)) && !Cpf.IsValidCpf(SlashBeforeCheckDigits(d))
  {
    Cpf.ReferenceCpfIsValid(d);
    Cpf.ReferenceDigits();
    StripNothingToDrop(d, CpfSeparators);
    Cpf.IsValidCpfIff(d);
    SlashedCpfSplitsVerdicts(d);
  }
}
