/**
 * `formatCPForCNPJ`: returns nothing for an empty input; otherwise removes
 * `.`, `-` and `/`, picks a mask by the number of characters left, and
 * hands both to `StringMask.apply`. That library is outside the model and
 * appears as the function parameter `apply`. `FillMask` is a reference
 * reading of the mask convention it is used with: each `0` takes the next
 * digit and every other mask character is copied.
 */
module Format {
  import opened Text

  datatype Option<T> = None | Some(value: T)

  /** Mask characters: digit slots `0` and the document separators. */
  predicate IsMask(m: string) {
    forall i :: 0 <= i < |m| ==> m[i] == '0' || m[i] in DocumentSeparators
  }

  /** The number of digit slots in a mask. */
  function Slots(m: string): nat {
    if |m| == 0 then 0 else (if m[0] == '0' then 1 else 0) + Slots(m[1..])
  }

  lemma {:induction false} SlotsConcat(a: string, b: string)
    ensures Slots(a + b) == Slots(a) + Slots(b)
  {
    if |a| == 0 {
      assert a + b == b;
    } else {
      assert (a + b)[1..] == a[1..] + b;
      SlotsConcat(a[1..], b);
    }
  }

  const ShortMask: string := "0000-00"
  const EightDigitMask: string := "00.000.000"
  const CpfMask: string := "000.000.000-00"
  const CnpjMask: string := EightDigitMask + "/0000-00"

  lemma CnpjMaskIsSourceLiteral()
    ensures CnpjMask == "00.000.000/0000-00"
  {}

  /** The `switch` on the length of the stripped input. */
  function MaskFor(length: nat): (m: string)
    ensures IsMask(m)
    ensures length in {6, 8, 11, 14} ==> Slots(m) == length
    ensures length !in {6, 8, 11, 14} ==> m == ""
  {
    SlotsConcat(EightDigitMask, "/0000-00");
    match length
    case 14 => CnpjMask
    case 11 => CpfMask
    case 8 => EightDigitMask
    case 6 => ShortMask
    case _ => ""
  }

  /**
   * `formatCPForCNPJ` with the masking library as the parameter `apply`:
   * `None` is the `undefined` returned for an empty input.
   */
  function FormatCpfOrCnpj(apply: (string, string) -> string, s: string): Option<string>
  {
    if s == "" then None
    else
      var digits := Strip(s, DocumentSeparators);
      Some(apply(digits, MaskFor(|digits|)))
  }

  /**
   * Whatever the masking function, it is handed the input without `.`, `-`
   * and `/`, every other character kept as often as it occurs (and in order,
   * by `StripConcat`), and a mask with one slot per remaining character for
   * the lengths 6, 8, 11 and 14, the empty mask for any other length.
   */
  lemma FormatArguments(apply: (string, string) -> string, s: string)
    ensures FormatCpfOrCnpj(apply, s).None? <==> s == ""
    ensures s != "" ==>
      FormatCpfOrCnpj(apply, s) == Some(apply(Strip(s, DocumentSeparators), MaskFor(|Strip(s, DocumentSeparators)|)))
    ensures forall i :: 0 <= i < |Strip(s, DocumentSeparators)| ==> Strip(s, DocumentSeparators)[i] !in DocumentSeparators
    ensures forall c :: multiset(Strip(s, DocumentSeparators))[c] == if c in DocumentSeparators then 0 else multiset(s)[c]
    ensures |Strip(s, DocumentSeparators)| in {6, 8, 11, 14} ==>
      IsMask(MaskFor(|Strip(s, DocumentSeparators)|)) && Slots(MaskFor(|Strip(s, DocumentSeparators)|)) == |Strip(s, DocumentSeparators)|
    ensures |Strip(s, DocumentSeparators)| !in {6, 8, 11, 14} ==> MaskFor(|Strip(s, DocumentSeparators)|) == ""
  {
    var d := Strip(s, DocumentSeparators);
    StripMembers(s, DocumentSeparators);
    StripMultiset(s, DocumentSeparators);
    forall i | 0 <= i < |d| ensures d[i] !in DocumentSeparators {
      assert d[i] in d;
    }
  }

  /**
   * Reference masking: each `0` of the mask takes the next input character
   * and every other mask character is copied; output stops when the input
   * runs out at a slot.
   */
  function FillMask(d: string, m: string): (r: string)
    ensures Slots(m) == |d| ==> |r| == |m|
  {
    if |m| == 0 then ""
    else if m[0] == '0' then
      (if |d| == 0 then "" else [d[0]] + FillMask(d[1..], m[1..]))
    else [m[0]] + FillMask(d, m[1..])
  }

  /** Counting the slots before position `i + 1` of `m` is counting them in `m[0]` and before position `i` of the rest. */
  lemma SlotsPrefix(m: string, i: nat)
    requires i < |m|
    ensures Slots(m[..i + 1]) == (if m[0] == '0' then 1 else 0) + Slots(m[1..][..i])
  {
    assert m[..i + 1][1..] == m[1..][..i];
  }

  /**
   * With as many digits as slots, the filled mask keeps every separator of
   * the mask in place and puts the digits, in order, in the slots.
   */
  lemma {:induction false} FillMaskShape(d: string, m: string)
    requires Slots(m) == |d|
    ensures |FillMask(d, m)| == |m|
    ensures forall i :: 0 <= i < |m| && m[i] != '0' ==> FillMask(d, m)[i] == m[i]
    ensures forall i :: 0 <= i < |m| && m[i] == '0' ==>
      Slots(m[..i]) < |d| && FillMask(d, m)[i] == d[Slots(m[..i])]
  {
    if |m| > 0 {
      var r := FillMask(d, m);
      var d' := if m[0] == '0' then d[1..] else d;
      FillMaskShape(d', m[1..]);
      assert r == [r[0]] + FillMask(d', m[1..]);
      forall i | 1 <= i < |m| ensures r[i] == FillMask(d', m[1..])[i - 1] && m[i] == m[1..][i - 1] {
      }
      forall i | 1 <= i < |m| && m[i] == '0' ensures Slots(m[..i]) < |d| && r[i] == d[Slots(m[..i])] {
        SlotsPrefix(m, i - 1);
      }
      assert m[..0] == "";
    }
  }

  /**
   * Removing the separators from a filled mask gives back the digits: the
   * round trip of formatting.
   */
  lemma {:induction false} StripFillMask(d: string, m: string)
    requires AllDigits(d) && IsMask(m) && Slots(m) == |d|
    ensures Strip(FillMask(d, m), DocumentSeparators) == d
    ensures IsDocumentText(FillMask(d, m))
  {
    if |m| > 0 {
      assert IsMask(m[1..]) by {
        forall i | 0 <= i < |m[1..]| ensures m[1..][i] == '0' || m[1..][i] in DocumentSeparators {
          assert m[1..][i] == m[i + 1];
        }
      }
      if m[0] == '0' {
        assert AllDigits(d[1..]) by {
          forall i | 0 <= i < |d[1..]| ensures IsDigit(d[1..][i]) {
            assert d[1..][i] == d[i + 1];
          }
        }
        StripFillMask(d[1..], m[1..]);
        assert d == [d[0]] + d[1..];
      } else {
        StripFillMask(d, m[1..]);
      }
      var r := FillMask(d, m);
      assert r[1..] == FillMask(if m[0] == '0' then d[1..] else d, m[1..]);
      assert IsDocumentText(r) by {
        forall i | 0 <= i < |r| ensures IsDigit(r[i]) || r[i] in DocumentSeparators {
          if i > 0 { assert r[i] == r[1..][i - 1]; }
        }
      }
    }
  }

  /**
   * With the reference masking, a document of 6, 8, 11 or 14 digits is
   * formatted to its mask's length, the result is document text, and
   * removing its separators gives the digits back.
   */
  lemma FormatRoundTrip(s: string)
    requires IsDocumentText(s)
    requires |Strip(s, DocumentSeparators)| in {6, 8, 11, 14}
    ensures FormatCpfOrCnpj(FillMask, s).Some?
    ensures var f := FormatCpfOrCnpj(FillMask, s).value;
      && |f| == |MaskFor(|Strip(s, DocumentSeparators)|)|
      && IsDocumentText(f)
      && Strip(f, DocumentSeparators) == Strip(s, DocumentSeparators)
  {
    var d := Strip(s, DocumentSeparators);
    StripDocumentIsDigits(s);
    assert s != "";
    StripFillMask(d, MaskFor(|d|));
  }

  /** With the reference masking, formatting an already formatted document changes nothing. */
  lemma FormatIdempotent(s: string)
    requires IsDocumentText(s)
    requires |Strip(s, DocumentSeparators)| in {6, 8, 11, 14}
    ensures FormatCpfOrCnpj(FillMask, s).Some?
    ensures FormatCpfOrCnpj(FillMask, FormatCpfOrCnpj(FillMask, s).value) == FormatCpfOrCnpj(FillMask, s)
  {
    FormatRoundTrip(s);
  }

  /** Separators in the input do not matter, as long as it is not empty. */
  lemma FormatIgnoresSeparators(apply: (string, string) -> string, a: string, b: string)
    requires a != "" && b != ""
    requires Strip(a, DocumentSeparators) == Strip(b, DocumentSeparators)
    ensures FormatCpfOrCnpj(apply, a) == FormatCpfOrCnpj(apply, b)
  {
  }

  /**
   * A length with no mask of its own gets the empty mask; with the
   * reference masking that formats to "".
   */
  lemma OtherLengthsFormatEmpty(s: string)
    requires s != "" && |Strip(s, DocumentSeparators)| !in {6, 8, 11, 14}
    ensures FormatCpfOrCnpj(FillMask, s) == Some("")
  {
  }
}
