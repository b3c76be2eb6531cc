/**
 * `removeAccents`: every character found in the table of accented letters
 * is replaced by the letter at the same position of the table of plain
 * letters; every other character is copied. The tables are written as
 * concatenations of one group per base letter. Each side equals the source's
 * 46-character literal, character for character.
 */
module Accents {

  const LowerA: string := "áàãâä"
  const LowerE: string := "éèêë"
  const LowerI: string := "íìîï"
  const LowerO: string := "óòõôö"
  const LowerU: string := "úùûü"
  const UpperA: string := "ÁÀÃÂÄ"
  const UpperE: string := "ÉÈÊË"
  const UpperI: string := "ÍÌÎÏ"
  const UpperO: string := "ÓÒÕÖÔ"
  const UpperU: string := "ÚÙÛÜ"

  /** The lower-case half of the accented table, ending in `ç`. */
  const LowerAccented: string := LowerA + LowerE + LowerI + LowerO + LowerU + "ç"
  /** The upper-case half of the accented table, ending in `Ç`. */
  const UpperAccented: string := UpperA + UpperE + UpperI + UpperO + UpperU + "Ç"

  /** `stringWithAccents`. */
  const Accented: string := LowerAccented + UpperAccented

  /** `stringWithoutAccents`. */
  const Plain: string :=
    "aaaaa" + "eeee" + "iiii" + "ooooo" + "uuuu" + "c" +
    "AAAAA" + "EEEE" + "IIII" + "OOOOO" + "UUUU" + "C"

  /** The grouped tables spell out the two 46-character literals of `removeAccents`. */
  lemma LowerAccentedIsSourceLiteral()
    ensures LowerAccented == "áàãâäéèêëíìîïóòõôöúùûüç"
  {}

  lemma UpperAccentedIsSourceLiteral()
    ensures UpperAccented == "ÁÀÃÂÄÉÈÊËÍÌÎÏÓÒÕÖÔÚÙÛÜÇ"
  {}

  lemma PlainIsSourceLiteral()
    ensures Plain == "aaaaaeeeeiiiiooooouuuucAAAAAEEEEIIIIOOOOOUUUUC"
  {}

  /**
   * `indexOf` of one character: the first position holding `c`, or -1 when
   * there is none.
   */
  function IndexOf(s: string, c: char): (r: int)
    ensures r == -1 <==> c !in s
    ensures r != -1 ==> 0 <= r < |s| && s[r] == c
    ensures r != -1 ==> forall j :: 0 <= j < r ==> s[j] != c
  {
    if |s| == 0 then -1
    else if s[0] == c then 0
    else
      var k := IndexOf(s[1..], c);
      if k == -1 then -1 else k + 1
  }

  lemma TableLengths()
    ensures |Accented| == 46 && |Plain| == 46
  {}

  // ---------------------------------------------------------------------
  // Transliteration through a pair of tables, stated for any tables so
  // that its properties do not depend on the two literals.
  // ---------------------------------------------------------------------

  /**
   * One character through the tables `from` and `to`: the character of `to`
   * at the first position where `c` occurs in `from`, or `c` itself.
   */
  function Translate(from: string, to: string, c: char): (d: char)
    requires |from| == |to|
    ensures c !in from ==> d == c
    ensures c in from ==> d in to
  {
    var k := IndexOf(from, c);
    if k != -1 then to[k] else c
  }

  /** Every character of `s` through the tables. */
  function Transliterate(from: string, to: string, s: string): (r: string)
    requires |from| == |to|
    ensures |r| == |s|
    ensures forall i :: 0 <= i < |s| ==> r[i] == Translate(from, to, s[i])
  {
    seq(|s|, i requires 0 <= i < |s| => Translate(from, to, s[i]))
  }

  predicate Distinct(s: string) {
    forall i, j :: 0 <= i < j < |s| ==> s[i] != s[j]
  }

  /** No character of `to` occurs in `from`. */
  predicate Separated(from: string, to: string) {
    forall j :: 0 <= j < |to| ==> to[j] !in from
  }

  /** With a repetition-free `from`, the character at each position of `from` becomes the one at that position of `to`. */
  lemma TranslateFollowsTable(from: string, to: string, k: nat)
    requires |from| == |to| && Distinct(from) && k < |from|
    ensures Translate(from, to, from[k]) == to[k]
  {
  }

  /** When no character of `to` occurs in `from`, nothing of `from` survives translation. */
  lemma TranslateLeavesNone(from: string, to: string, c: char)
    requires |from| == |to| && Separated(from, to)
    ensures Translate(from, to, c) !in from
  {
    var k := IndexOf(from, c);
    if k == -1 {
      assert c !in from;
    } else {
      assert to[k] !in from;
    }
  }

  /** With separated tables, translating a second time changes nothing. */
  lemma TransliterateIdempotent(from: string, to: string, s: string)
    requires |from| == |to| && Separated(from, to)
    ensures Transliterate(from, to, Transliterate(from, to, s)) == Transliterate(from, to, s)
  {
    var r := Transliterate(from, to, s);
    forall i | 0 <= i < |r| ensures Translate(from, to, r[i]) == r[i] {
      TranslateLeavesNone(from, to, s[i]);
    }
  }

  /** Text with no character of `from` comes back unchanged. */
  lemma TransliterateKeepsOthers(from: string, to: string, s: string)
    requires |from| == |to|
    requires forall i :: 0 <= i < |s| ==> s[i] !in from
    ensures Transliterate(from, to, s) == s
  {}

  /** Translation works character by character, so it commutes with concatenation. */
  lemma TransliterateConcat(from: string, to: string, a: string, b: string)
    requires |from| == |to|
    ensures Transliterate(from, to, a + b) == Transliterate(from, to, a) + Transliterate(from, to, b)
  {}

  /** The piece the loop appends for position `i` is the translated character. */
  lemma PieceIsTranslated(from: string, to: string, s: string, i: nat, k: int)
    requires |from| == |to| && i < |s| && k == IndexOf(from, s[i])
    ensures (if k != -1 then to[k..k + 1] else s[i..i + 1]) == [Translate(from, to, s[i])]
  {
    if k != -1 {
      SliceOne(to, k);
    } else {
      SliceOne(s, i);
    }
  }

  lemma SliceOne(t: string, k: int)
    requires 0 <= k < |t|
    ensures t[k..k + 1] == [t[k]]
  {}

  // ---------------------------------------------------------------------
  // removeAccents is transliteration through the two tables.
  // ---------------------------------------------------------------------

  /** One character as the loop body treats it. */
  function Unaccent(c: char): char {
    TableLengths();
    Translate(Accented, Plain, c)
  }

  /** `removeAccents`, character by character. */
  function RemoveAccents(s: string): (r: string)
    ensures |r| == |s|
    ensures forall i :: 0 <= i < |s| ==> r[i] == Unaccent(s[i])
  {
    TableLengths();
    Transliterate(Accented, Plain, s)
  }

  /**
   * The loop of `removeAccents`, appending one piece per input character:
   * `stringWithoutAccents.substr(k, 1)` for an accented character at table
   * position `k`, the character itself otherwise.
   */
  method RemoveAccentsLoop(s: string) returns (result: string)
    ensures result == RemoveAccents(s)
  {
    TableLengths();
    result := "";
    var i := 0;
    while i < |s|
      invariant 0 <= i <= |s|
      invariant result == RemoveAccents(s[..i])
    {
      var k := IndexOf(Accented, s[i]);
      var piece := if k != -1 then Plain[k..k + 1] else s[i..i + 1];
      PieceIsTranslated(Accented, Plain, s, i, k);
      RemoveAccentsStep(s, i);
      result := result + piece;
      i := i + 1;
    }
    assert s[..i] == s;
  }

  /** Extending the input by one character extends the result by its unaccented form. */
  lemma RemoveAccentsStep(s: string, i: nat)
    requires i < |s|
    ensures RemoveAccents(s[..i + 1]) == RemoveAccents(s[..i]) + [Unaccent(s[i])]
  {
    assert s[..i + 1] == s[..i] + [s[i]];
    RemoveAccentsConcat(s[..i], [s[i]]);
  }

  // ---------------------------------------------------------------------
  // The accented table has no repeated character, so each of its positions
  // is found by `indexOf`.
  // ---------------------------------------------------------------------

  predicate InRange(s: string, lo: char, hi: char) {
    forall i :: 0 <= i < |s| ==> lo <= s[i] <= hi
  }

  lemma InRangeConcat(a: string, b: string, lo: char, hi: char)
    requires InRange(a, lo, hi) && InRange(b, lo, hi)
    ensures InRange(a + b, lo, hi)
  {
    forall i | 0 <= i < |a + b| ensures lo <= (a + b)[i] <= hi {
      if i >= |a| { assert (a + b)[i] == b[i - |a|]; }
    }
  }

  /** Two repetition-free strings whose characters differ pairwise concatenate to one. */
  lemma DistinctConcat(a: string, b: string)
    requires Distinct(a) && Distinct(b)
    requires forall i, j :: 0 <= i < |a| && 0 <= j < |b| ==> a[i] != b[j]
    ensures Distinct(a + b)
  {
    forall i, j | 0 <= i < j < |a + b| ensures (a + b)[i] != (a + b)[j] {
      if j < |a| {
      } else if i < |a| {
        assert (a + b)[j] == b[j - |a|];
      } else {
        assert (a + b)[i] == b[i - |a|] && (a + b)[j] == b[j - |a|];
      }
    }
  }

  /** A string below a bound and one at or above it share no character. */
  lemma SeparatedByRange(a: string, b: string, alo: char, ahi: char, blo: char, bhi: char)
    requires InRange(a, alo, ahi) && InRange(b, blo, bhi)
    requires ahi < blo || bhi < alo
    ensures forall i, j :: 0 <= i < |a| && 0 <= j < |b| ==> a[i] != b[j]
  {}

  lemma GroupsAreDistinct()
    ensures Distinct(LowerA) && Distinct(LowerE) && Distinct(LowerI) && Distinct(LowerO) && Distinct(LowerU)
    ensures Distinct(UpperA) && Distinct(UpperE) && Distinct(UpperI) && Distinct(UpperO) && Distinct(UpperU)
  {}

  lemma LowerGroupRanges()
    ensures InRange(LowerA, 'à', 'ä') && InRange(LowerE, 'è', 'ë') && InRange(LowerI, 'ì', 'ï')
    ensures InRange(LowerO, 'ò', 'ö') && InRange(LowerU, 'ù', 'ü')
  {}

  lemma UpperGroupRanges()
    ensures InRange(UpperA, 'À', 'Ä') && InRange(UpperE, 'È', 'Ë') && InRange(UpperI, 'Ì', 'Ï')
    ensures InRange(UpperO, 'Ò', 'Ö') && InRange(UpperU, 'Ù', 'Ü')
  {}

  /** Five groups in increasing code ranges, each repetition-free, give a repetition-free string. */
  lemma FiveGroupsDistinct(g1: string, g2: string, g3: string, g4: string, g5: string,
                           l1: char, h1: char, l2: char, h2: char, l3: char, h3: char,
                           l4: char, h4: char, l5: char, h5: char)
    requires Distinct(g1) && Distinct(g2) && Distinct(g3) && Distinct(g4) && Distinct(g5)
    requires InRange(g1, l1, h1) && InRange(g2, l2, h2) && InRange(g3, l3, h3)
    requires InRange(g4, l4, h4) && InRange(g5, l5, h5)
    requires l1 <= h1 < l2 <= h2 < l3 <= h3 < l4 <= h4 < l5 <= h5
    ensures Distinct(g1 + g2 + g3 + g4 + g5) && InRange(g1 + g2 + g3 + g4 + g5, l1, h5)
  {
    var p := g1;
    SeparatedByRange(p, g2, l1, h1, l2, h2);
    DistinctConcat(p, g2);
    assert InRange(g1, l1, h2) && InRange(g2, l1, h2);
    InRangeConcat(g1, g2, l1, h2);
    p := g1 + g2;
    SeparatedByRange(p, g3, l1, h2, l3, h3);
    DistinctConcat(p, g3);
    assert InRange(p, l1, h3) && InRange(g3, l1, h3);
    InRangeConcat(p, g3, l1, h3);
    p := p + g3;
    SeparatedByRange(p, g4, l1, h3, l4, h4);
    DistinctConcat(p, g4);
    assert InRange(p, l1, h4) && InRange(g4, l1, h4);
    InRangeConcat(p, g4, l1, h4);
    p := p + g4;
    SeparatedByRange(p, g5, l1, h4, l5, h5);
    DistinctConcat(p, g5);
    assert InRange(p, l1, h5) && InRange(g5, l1, h5);
    InRangeConcat(p, g5, l1, h5);
  }

  /** Appending a character the string lacks keeps it repetition-free. */
  lemma DistinctSnoc(a: string, c: char)
    requires Distinct(a) && c !in a
    ensures Distinct(a + [c])
  {
    DistinctConcat(a, [c]);
  }

  lemma LowerAccentedDistinct()
    ensures Distinct(LowerAccented) && InRange(LowerAccented, 'à', 'ü')
  {
    GroupsAreDistinct();
    LowerGroupRanges();
    var p := LowerA + LowerE + LowerI + LowerO + LowerU;
    FiveGroupsDistinct(LowerA, LowerE, LowerI, LowerO, LowerU,
      'à', 'ä', 'è', 'ë', 'ì', 'ï', 'ò', 'ö', 'ù', 'ü');
    assert 'ç' !in p;
    DistinctSnoc(p, 'ç');
    InRangeConcat(p, "ç", 'à', 'ü');
  }

  lemma UpperAccentedDistinct()
    ensures Distinct(UpperAccented) && InRange(UpperAccented, 'À', 'Ü')
  {
    GroupsAreDistinct();
    UpperGroupRanges();
    var p := UpperA + UpperE + UpperI + UpperO + UpperU;
    FiveGroupsDistinct(UpperA, UpperE, UpperI, UpperO, UpperU,
      'À', 'Ä', 'È', 'Ë', 'Ì', 'Ï', 'Ò', 'Ö', 'Ù', 'Ü');
    assert 'Ç' !in p;
    DistinctSnoc(p, 'Ç');
    InRangeConcat(p, "Ç", 'À', 'Ü');
  }

  /** No character occurs twice in the accented table. */
  lemma AccentedDistinct()
    ensures Distinct(Accented) && InRange(Accented, 'À', 'ü')
  {
    LowerAccentedDistinct();
    UpperAccentedDistinct();
    SeparatedByRange(LowerAccented, UpperAccented, 'à', 'ü', 'À', 'Ü');
    DistinctConcat(LowerAccented, UpperAccented);
    assert InRange(LowerAccented, 'À', 'ü') && InRange(UpperAccented, 'À', 'ü');
    InRangeConcat(LowerAccented, UpperAccented, 'À', 'ü');
  }

  /** The plain table holds only ASCII letters. */
  lemma PlainIsAscii()
    ensures InRange(Plain, 'A', 'u')
  {
    assert InRange("aaaaa" + "eeee" + "iiii" + "ooooo" + "uuuu" + "c", 'A', 'u');
    assert InRange("AAAAA" + "EEEE" + "IIII" + "OOOOO" + "UUUU" + "C", 'A', 'u');
    InRangeConcat("aaaaa" + "eeee" + "iiii" + "ooooo" + "uuuu" + "c",
      "AAAAA" + "EEEE" + "IIII" + "OOOOO" + "UUUU" + "C", 'A', 'u');
  }

  // ---------------------------------------------------------------------
  // What removeAccents does.
  // ---------------------------------------------------------------------

  /** No plain letter occurs in the accented table. */
  lemma TablesSeparated()
    ensures Separated(Accented, Plain)
  {
    AccentedDistinct();
    PlainIsAscii();
    forall j | 0 <= j < |Plain| ensures Plain[j] !in Accented {
      forall i | 0 <= i < |Accented| ensures Accented[i] != Plain[j] {
        assert 'À' <= Accented[i] && Plain[j] <= 'u';
      }
    }
  }

  /** Every accented letter becomes the plain letter at the same table position. */
  lemma UnaccentFollowsTable(k: nat)
    requires k < |Accented|
    ensures |Plain| == |Accented| && Unaccent(Accented[k]) == Plain[k]
  {
    TableLengths();
    AccentedDistinct();
    TranslateFollowsTable(Accented, Plain, k);
  }

  /** A character outside the accented table is copied unchanged. */
  lemma UnaccentKeepsOthers(c: char)
    requires c !in Accented
    ensures Unaccent(c) == c
  {}

  /** Removing accents from the result of removing accents changes nothing. */
  lemma RemoveAccentsIdempotent(s: string)
    ensures RemoveAccents(RemoveAccents(s)) == RemoveAccents(s)
  {
    TableLengths();
    TablesSeparated();
    TransliterateIdempotent(Accented, Plain, s);
  }

  /** The result contains no character of the accented table. */
  lemma RemoveAccentsLeavesNoAccent(s: string)
    ensures forall i :: 0 <= i < |s| ==> RemoveAccents(s)[i] !in Accented
  {
    TableLengths();
    TablesSeparated();
    forall i | 0 <= i < |s| ensures RemoveAccents(s)[i] !in Accented {
      TranslateLeavesNone(Accented, Plain, s[i]);
    }
  }

  /** A string without accented characters comes back unchanged. */
  lemma RemoveAccentsKeepsPlainText(s: string)
    requires forall i :: 0 <= i < |s| ==> s[i] !in Accented
    ensures RemoveAccents(s) == s
  {}

  /** Removing accents works character by character, so it commutes with concatenation. */
  lemma RemoveAccentsConcat(a: string, b: string)
    ensures RemoveAccents(a + b) == RemoveAccents(a) + RemoveAccents(b)
  {}
}
