/**
 * Character classes and the string operations the front-end helpers share:
 * removing separator characters (`s.replace(/\.|-|\//g, '')`), keeping only
 * decimal digits (`s.replace(/\D/g, '')`), `substr` and the numeric value
 * JavaScript gives to `s.charAt(i)` for a digit string.
 */
module Text {

  predicate IsDigit(c: char) {
    '0' <= c <= '9'
  }

  /** The value of a decimal digit character. */
  function DigitVal(c: char): (d: nat)
    requires IsDigit(c)
    ensures d < 10
  {
    (c as int) - ('0' as int)
  }

  predicate AllDigits(s: string) {
    forall i :: 0 <= i < |s| ==> IsDigit(s[i])
  }

  /** The digit values of a digit string, position by position. */
  function Digits(s: string): (ds: seq<nat>)
    requires AllDigits(s)
    ensures |ds| == |s|
    ensures forall i :: 0 <= i < |s| ==> ds[i] == DigitVal(s[i]) && ds[i] < 10
  {
    seq(|s|, i requires 0 <= i < |s| => DigitVal(s[i]))
  }

  /** The characters `isValidCpf` removes before validating. */
  const CpfSeparators: set<char> := {'.', '-'}

  /** The characters `isValidCnpj`, `isValidCpfOrCnpj` and `formatCPForCNPJ` remove. */
  const DocumentSeparators: set<char> := {'.', '-', '/'}

  /** A raw CPF/CNPJ as a user types it: digits interleaved with `.`, `-` and `/`. */
  predicate IsDocumentText(s: string) {
    forall i :: 0 <= i < |s| ==> IsDigit(s[i]) || s[i] in DocumentSeparators
  }

  /**
   * `s.replace(re, '')` for a global regular expression that matches exactly
   * the single characters in `drop`.
   */
  function Strip(s: string, drop: set<char>): (r: string)
    ensures |r| <= |s|
  {
    if |s| == 0 then ""
    else if s[0] in drop then Strip(s[1..], drop)
    else [s[0]] + Strip(s[1..], drop)
  }

  /** The result holds exactly the input's characters that are not dropped. */
  lemma {:induction false} StripMembers(s: string, drop: set<char>)
    ensures forall c :: c in Strip(s, drop) <==> c in s && c !in drop
  {
    if |s| > 0 {
      StripMembers(s[1..], drop);
      assert s == [s[0]] + s[1..];
    }
  }

  /**
   * Removing characters commutes with concatenation: every kept character
   * stays in place relative to every other kept character.
   */
  lemma {:induction false} StripConcat(a: string, b: string, drop: set<char>)
    ensures Strip(a + b, drop) == Strip(a, drop) + Strip(b, drop)
  {
    if |a| == 0 {
      assert a + b == b;
    } else {
      assert (a + b)[1..] == a[1..] + b;
      StripConcat(a[1..], b, drop);
    }
  }

  /** Each character occurs in the result as often as in the input, or not at all if dropped. */
  lemma {:induction false} StripMultiset(s: string, drop: set<char>)
    ensures forall c :: multiset(Strip(s, drop))[c] == if c in drop then 0 else multiset(s)[c]
  {
    if |s| > 0 {
      StripMultiset(s[1..], drop);
      assert s == [s[0]] + s[1..];
      assert multiset(s) == multiset{s[0]} + multiset(s[1..]);
    }
  }

  /** Removing characters that do not occur changes nothing. */
  lemma {:induction false} StripNothingToDrop(s: string, drop: set<char>)
    requires forall i :: 0 <= i < |s| ==> s[i] !in drop
    ensures Strip(s, drop) == s
  {
    if |s| > 0 {
      StripNothingToDrop(s[1..], drop);
      assert s == [s[0]] + s[1..];
    }
  }

  /** Two removals in a row are one removal of the union. */
  lemma {:induction false} StripTwice(s: string, first: set<char>, second: set<char>)
    ensures Strip(Strip(s, first), second) == Strip(s, first + second)
  {
    if |s| > 0 {
      StripTwice(s[1..], first, second);
      if s[0] !in first {
        assert Strip(s, first) == [s[0]] + Strip(s[1..], first);
        StripConcat([s[0]], Strip(s[1..], first), second);
        if s[0] in second {
          assert Strip([s[0]], second) == "";
        } else {
          assert Strip([s[0]], second) == [s[0]];
        }
      }
    }
  }

  /** A document text with its separators removed is a digit string. */
  lemma StripDocumentIsDigits(s: string)
    requires IsDocumentText(s)
    ensures AllDigits(Strip(s, DocumentSeparators))
  {
    var r := Strip(s, DocumentSeparators);
    StripMembers(s, DocumentSeparators);
    forall i | 0 <= i < |r| ensures IsDigit(r[i]) {
      assert r[i] in r;
    }
  }

  /** Removing separators from document text leaves document text. */
  lemma StripKeepsDocumentText(s: string, drop: set<char>)
    requires IsDocumentText(s)
    ensures IsDocumentText(Strip(s, drop))
  {
    var r := Strip(s, drop);
    StripMembers(s, drop);
    forall i | 0 <= i < |r| ensures IsDigit(r[i]) || r[i] in DocumentSeparators {
      assert r[i] in r;
    }
  }

  /** `string.replace(/\D/g, '')`: keeps the characters `0`-`9`, in order. */
  function JustNumbers(s: string): (r: string)
    ensures AllDigits(r)
    ensures |r| <= |s|
    ensures forall c :: IsDigit(c) ==> (c in r <==> c in s)
  {
    if |s| == 0 then ""
    else if IsDigit(s[0]) then [s[0]] + JustNumbers(s[1..])
    else JustNumbers(s[1..])
  }

  /** Filtering digits a second time changes nothing. */
  lemma {:induction false} JustNumbersIdempotent(s: string)
    ensures JustNumbers(JustNumbers(s)) == JustNumbers(s)
  {
    var r := JustNumbers(s);
    JustNumbersOfDigits(r);
  }

  lemma {:induction false} JustNumbersOfDigits(s: string)
    requires AllDigits(s)
    ensures JustNumbers(s) == s
  {
    if |s| > 0 {
      JustNumbersOfDigits(s[1..]);
      assert s == [s[0]] + s[1..];
    }
  }

  /** Keeping the digits commutes with concatenation, so the kept digits stay in their order. */
  lemma {:induction false} JustNumbersConcat(a: string, b: string)
    ensures JustNumbers(a + b) == JustNumbers(a) + JustNumbers(b)
  {
    if |a| == 0 {
      assert a + b == b;
    } else {
      assert (a + b)[1..] == a[1..] + b;
      JustNumbersConcat(a[1..], b);
    }
  }

  /** Each digit occurs in the result as often as in the input, and nothing else occurs. */
  lemma {:induction false} JustNumbersMultiset(s: string)
    ensures forall c :: multiset(JustNumbers(s))[c] == if IsDigit(c) then multiset(s)[c] else 0
  {
    if |s| > 0 {
      JustNumbersMultiset(s[1..]);
      assert s == [s[0]] + s[1..];
      assert multiset(s) == multiset{s[0]} + multiset(s[1..]);
    }
  }

  /**
   * On document text, keeping the digits and removing `.`, `-`, `/` are the
   * same operation.
   */
  lemma {:induction false} JustNumbersIsStrip(s: string)
    requires IsDocumentText(s)
    ensures JustNumbers(s) == Strip(s, DocumentSeparators)
  {
    if |s| > 0 {
      assert IsDocumentText(s[1..]) by {
        forall i | 0 <= i < |s[1..]| ensures IsDigit(s[1..][i]) || s[1..][i] in DocumentSeparators {
          assert s[1..][i] == s[i + 1];
        }
      }
      JustNumbersIsStrip(s[1..]);
    }
  }

  /**
   * JavaScript's `s.substr(start, length)` for non-negative arguments: the
   * part of `s` from `start`, at most `length` characters, empty when `start`
   * lies beyond the end.
   */
  function Substr(s: string, start: nat, length: nat): (r: string)
    ensures |r| == if start >= |s| then 0 else if start + length <= |s| then length else |s| - start
    ensures forall i :: 0 <= i < |r| ==> r[i] == s[start + i]
  {
    if start >= |s| then ""
    else if start + length <= |s| then s[start..start + length]
    else s[start..]
  }

  /**
   * The number JavaScript makes of `s.charAt(i)` for a digit string `s`:
   * the digit's value, or 0 when `i` is past the end (`charAt` yields "",
   * and "" coerces to 0).
   */
  function NumAt(s: string, i: nat): (d: nat)
    requires AllDigits(s)
    ensures d < 10
    ensures i >= |s| ==> d == 0
  {
    if i < |s| then DigitVal(s[i]) else 0
  }
}
