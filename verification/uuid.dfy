/**
 * `generateUUID`: in the template `xxxxxxxx-xxxx-4xxx-yxxx-xxxxxxxxxxxx`
 * each `x` and `y` is replaced, left to right, by one call of the
 * callback. The callback draws `r = Math.random() * 16 | 0` and writes `r`
 * in lower-case hexadecimal for an `x`, and `(r & 0x3) | 0x8` for a `y`.
 * The 31 draws are the parameter `nibbles`; each lies in 0..15.
 */
module Uuid {

  /** The replacement template. */
  const Template: string := "xxxxxxxx" + "-" + "xxxx" + "-" + "4xxx" + "-" + "yxxx" + "-" + "xxxxxxxxxxxx"

  lemma TemplateIsSourceLiteral()
    ensures Template == "xxxxxxxx-xxxx-4xxx-yxxx-xxxxxxxxxxxx"
  {}

  predicate IsPlaceholder(c: char) {
    c == 'x' || c == 'y'
  }

  /** How many characters the regular expression `/[xy]/g` matches. */
  function Placeholders(t: string): nat {
    if |t| == 0 then 0 else (if IsPlaceholder(t[0]) then 1 else 0) + Placeholders(t[1..])
  }

  predicate AreNibbles(ns: seq<nat>) {
    forall i :: 0 <= i < |ns| ==> ns[i] < 16
  }

  /** `v.toString(16)` for a value below 16: one lower-case hexadecimal digit. */
  function HexDigit(v: nat): (c: char)
    requires v < 16
    ensures '0' <= c <= '9' || 'a' <= c <= 'f'
  {
    if v < 10 then (('0' as int) + v) as char else (('a' as int) + v - 10) as char
  }

  predicate IsLowerHex(c: char) {
    '0' <= c <= '9' || 'a' <= c <= 'f'
  }

  /** The value of a lower-case hexadecimal digit. */
  function HexVal(c: char): (v: nat)
    requires IsLowerHex(c)
    ensures v < 16
    ensures '0' <= c <= '9' ==> v < 10
  {
    if c <= '9' then (c as int) - ('0' as int) else (c as int) - ('a' as int) + 10
  }

  /** Hexadecimal digits and their values are in one-to-one correspondence. */
  lemma HexRoundTrip(v: nat, c: char)
    requires v < 16 && IsLowerHex(c)
    ensures HexVal(HexDigit(v)) == v
    ensures HexDigit(HexVal(c)) == c
  {}

  /** `(r & 0x3) | 0x8`: the RFC 4122 variant bits `10` over the two low bits of `r`. */
  function VariantNibble(r: nat): (v: nat)
    requires r < 16
    ensures 8 <= v < 12 && v % 4 == r % 4
  {
    (((r as bv8) & 0x3) | 0x8) as nat
  }

  /** One callback result. */
  function Replacement(c: char, r: nat): (d: char)
    requires IsPlaceholder(c) && r < 16
    ensures IsLowerHex(d)
  {
    if c == 'x' then HexDigit(r) else HexDigit(VariantNibble(r))
  }

  /**
   * `t.replace(/[xy]/g, callback)`: every placeholder takes the next draw,
   * every other character is kept.
   */
  function Fill(t: string, ns: seq<nat>): (u: string)
    requires Placeholders(t) == |ns| && AreNibbles(ns)
    ensures |u| == |t|
    ensures forall i :: 0 <= i < |t| && !IsPlaceholder(t[i]) ==> u[i] == t[i]
  {
    if |t| == 0 then ""
    else if IsPlaceholder(t[0]) then [Replacement(t[0], ns[0])] + Fill(t[1..], ns[1..])
    else [t[0]] + Fill(t[1..], ns)
  }

  /** `generateUUID`, with its 31 random draws as the parameter. */
  function GenerateUuid(nibbles: seq<nat>): (u: string)
    requires |nibbles| == 31 && AreNibbles(nibbles)
    ensures |u| == 36
  {
    TemplateLayout();
    Fill(Template, nibbles)
  }

  // ---------------------------------------------------------------------
  // The layout of the result.
  // ---------------------------------------------------------------------

  lemma {:induction false} PlaceholdersConcat(a: string, b: string)
    ensures Placeholders(a + b) == Placeholders(a) + Placeholders(b)
  {
    if |a| == 0 {
      assert a + b == b;
    } else {
      assert (a + b)[1..] == a[1..] + b;
      PlaceholdersConcat(a[1..], b);
    }
  }

  lemma AreNibblesConcat(ns1: seq<nat>, ns2: seq<nat>)
    requires AreNibbles(ns1) && AreNibbles(ns2)
    ensures AreNibbles(ns1 + ns2)
  {
    forall i | 0 <= i < |ns1 + ns2| ensures (ns1 + ns2)[i] < 16 {
      if i >= |ns1| { assert (ns1 + ns2)[i] == ns2[i - |ns1|]; }
    }
  }

  /** Replacing in a concatenation replaces in each part, each with its own draws. */
  lemma {:induction false} FillConcat(a: string, b: string, ns1: seq<nat>, ns2: seq<nat>)
    requires Placeholders(a) == |ns1| && AreNibbles(ns1)
    requires Placeholders(b) == |ns2| && AreNibbles(ns2)
    ensures Placeholders(a + b) == |ns1 + ns2| && AreNibbles(ns1 + ns2)
    ensures Fill(a + b, ns1 + ns2) == Fill(a, ns1) + Fill(b, ns2)
  {
    PlaceholdersConcat(a, b);
    AreNibblesConcat(ns1, ns2);
    if |a| == 0 {
      assert a + b == b;
      assert ns1 + ns2 == ns2;
    } else {
      assert (a + b)[1..] == a[1..] + b;
      PlaceholdersConcat(a[1..], b);
      if IsPlaceholder(a[0]) {
        assert AreNibbles(ns1[1..]) by {
          forall i | 0 <= i < |ns1[1..]| ensures ns1[1..][i] < 16 {
            assert ns1[1..][i] == ns1[i + 1];
          }
        }
        FillConcat(a[1..], b, ns1[1..], ns2);
        assert (ns1 + ns2)[1..] == ns1[1..] + ns2;
      } else {
        FillConcat(a[1..], b, ns1, ns2);
      }
    }
  }

  /** The hexadecimal digits of a sequence of draws. */
  function HexString(ns: seq<nat>): (u: string)
    requires AreNibbles(ns)
    ensures |u| == |ns|
    ensures forall i :: 0 <= i < |ns| ==> u[i] == HexDigit(ns[i])
  {
    seq(|ns|, i requires 0 <= i < |ns| => HexDigit(ns[i]))
  }

  /** A run of `x` is replaced by the hexadecimal digits of its draws. */
  lemma {:induction false} FillRun(t: string, ns: seq<nat>)
    requires forall i :: 0 <= i < |t| ==> t[i] == 'x'
    requires |t| == |ns| && AreNibbles(ns)
    ensures Placeholders(t) == |t|
    ensures Fill(t, ns) == HexString(ns)
  {
    if |t| > 0 {
      FillRun(t[1..], ns[1..]);
      assert HexString(ns) == [HexDigit(ns[0])] + HexString(ns[1..]);
    }
  }

  lemma FixedNoPlaceholders()
    ensures Placeholders("-") == 0 && Placeholders("4") == 0
  {}

  lemma TemplateRuns()
    ensures forall i :: 0 <= i < 8 ==> "xxxxxxxx"[i] == 'x'
    ensures forall i :: 0 <= i < 4 ==> "xxxx"[i] == 'x'
    ensures forall i :: 0 <= i < 3 ==> "xxx"[i] == 'x'
    ensures forall i :: 0 <= i < 12 ==> "xxxxxxxxxxxx"[i] == 'x'
  {}

  /**
   * The template holds 31 placeholders, and the pieces of its layout have
   * the placeholder counts the layout lemma below needs.
   */
  lemma TemplateLayout()
    ensures Placeholders(Template) == 31
  {
    TemplateRuns();
    FixedNoPlaceholders();
    FillRunCounts();
    assert "4xxx" == "4" + "xxx";
    assert "yxxx" == "y" + "xxx";
    PlaceholdersConcat("4", "xxx");
    PlaceholdersConcat("y", "xxx");
    assert Placeholders("y") == 1;
    var t1 := "xxxxxxxx" + "-";
    var t2 := t1 + "xxxx";
    var t3 := t2 + "-";
    var t4 := t3 + "4xxx";
    var t5 := t4 + "-";
    var t6 := t5 + "yxxx";
    var t7 := t6 + "-";
    PlaceholdersConcat("xxxxxxxx", "-");
    PlaceholdersConcat(t1, "xxxx");
    PlaceholdersConcat(t2, "-");
    PlaceholdersConcat(t3, "4xxx");
    PlaceholdersConcat(t4, "-");
    PlaceholdersConcat(t5, "yxxx");
    PlaceholdersConcat(t6, "-");
    PlaceholdersConcat(t7, "xxxxxxxxxxxx");
  }

  lemma FillRunCounts()
    ensures Placeholders("xxxxxxxx") == 8 && Placeholders("xxxx") == 4
    ensures Placeholders("xxx") == 3 && Placeholders("xxxxxxxxxxxx") == 12
  {
    TemplateRuns();
    FillRun("xxxxxxxx", seq(8, _ => 0));
    FillRun("xxxx", seq(4, _ => 0));
    FillRun("xxx", seq(3, _ => 0));
    FillRun("xxxxxxxxxxxx", seq(12, _ => 0));
  }

  lemma AreNibblesSlice(n: seq<nat>, a: nat, b: nat)
    requires AreNibbles(n) && a <= b <= |n|
    ensures AreNibbles(n[a..b])
  {
    forall i | 0 <= i < b - a ensures n[a..b][i] < 16 {
      assert n[a..b][i] == n[a + i];
    }
  }

  lemma FixedPieces()
    ensures Fill("-", []) == "-" && Fill("4", []) == "4"
  {
    FixedNoPlaceholders();
  }

  lemma VersionGroup(ns: seq<nat>)
    requires |ns| == 3 && AreNibbles(ns)
    ensures Placeholders("4xxx") == 3
    ensures Fill("4xxx", ns) == "4" + HexString(ns)
  {
    TemplateRuns();
    FixedPieces();
    FillRun("xxx", ns);
    assert "4xxx" == "4" + "xxx";
    FillConcat("4", "xxx", [], ns);
    assert [] + ns == ns;
  }

  lemma VariantGroup(v: nat, ns: seq<nat>)
    requires v < 16 && |ns| == 3 && AreNibbles(ns)
    ensures Placeholders("yxxx") == 4 && AreNibbles([v] + ns)
    ensures Fill("yxxx", [v] + ns) == [HexDigit(VariantNibble(v))] + HexString(ns)
  {
    TemplateRuns();
    FillRun("xxx", ns);
    assert Placeholders("y") == 1 && Fill("y", [v]) == [HexDigit(VariantNibble(v))];
    assert "yxxx" == "y" + "xxx";
    FillConcat("y", "xxx", [v], ns);
  }

  lemma LeadingCount()
    ensures Placeholders("xxxxxxxx" + "-" + "xxxx" + "-" + "4xxx" + "-") == 15
  {
    var t1 := "xxxxxxxx" + "-";
    var t2 := t1 + "xxxx";
    var t3 := t2 + "-";
    var t4 := t3 + "4xxx";
    FillRunCounts();
    FixedNoPlaceholders();
    TemplateRuns();
    VersionGroup([0, 0, 0]);
    PlaceholdersConcat("xxxxxxxx", "-");
    PlaceholdersConcat(t1, "xxxx");
    PlaceholdersConcat(t2, "-");
    PlaceholdersConcat(t3, "4xxx");
    PlaceholdersConcat(t4, "-");
  }

  /** The template up to the variant group: draws 0..14. */
  lemma LeadingLayout(m: seq<nat>)
    requires |m| == 15 && AreNibbles(m)
    ensures AreNibbles(m[..8]) && AreNibbles(m[8..12]) && AreNibbles(m[12..])
    ensures Placeholders("xxxxxxxx" + "-" + "xxxx" + "-" + "4xxx" + "-") == 15
    ensures Fill("xxxxxxxx" + "-" + "xxxx" + "-" + "4xxx" + "-", m) ==
      HexString(m[..8]) + "-" + HexString(m[8..12]) + "-" + "4" + HexString(m[12..]) + "-"
  {
    AreNibblesSlice(m, 0, 8);
    AreNibblesSlice(m, 8, 12);
    AreNibblesSlice(m, 12, 15);
    AreNibblesSlice(m, 0, 12);
    var t1 := "xxxxxxxx" + "-";
    var t2 := t1 + "xxxx";
    var t3 := t2 + "-";
    var t4 := t3 + "4xxx";
    FillRunCounts();
    FixedNoPlaceholders();
    VersionGroup(m[12..]);
    PlaceholdersConcat("xxxxxxxx", "-");
    PlaceholdersConcat(t1, "xxxx");
    PlaceholdersConcat(t2, "-");
    PlaceholdersConcat(t3, "4xxx");
    PlaceholdersConcat(t4, "-");
    assert Fill(t1, m[..8]) == HexString(m[..8]) + "-" by {
      TemplateRuns();
      FillRun("xxxxxxxx", m[..8]);
      FixedPieces();
      FillConcat("xxxxxxxx", "-", m[..8], []);
      assert m[..8] + [] == m[..8];
    }
    assert Fill(t2, m[..12]) == Fill(t1, m[..8]) + HexString(m[8..12]) by {
      TemplateRuns();
      FillRun("xxxx", m[8..12]);
      FillConcat(t1, "xxxx", m[..8], m[8..12]);
      assert m[..8] + m[8..12] == m[..12];
    }
    assert Fill(t3, m[..12]) == Fill(t2, m[..12]) + "-" by {
      FixedPieces();
      FillConcat(t2, "-", m[..12], []);
      assert m[..12] + [] == m[..12];
    }
    assert Fill(t4, m) == Fill(t3, m[..12]) + "4" + HexString(m[12..]) by {
      FillConcat(t3, "4xxx", m[..12], m[12..]);
      assert m[..12] + m[12..] == m;
    }
    assert Fill(t4 + "-", m) == Fill(t4, m) + "-" by {
      FixedPieces();
      FillConcat(t4, "-", m, []);
      assert m + [] == m;
    }
  }

  /** Appending the variant group and the last run to any prefix. */
  lemma TrailingPieces(t: string, m: seq<nat>, v: nat, ns: seq<nat>, tail: seq<nat>)
    requires Placeholders(t) == |m| && AreNibbles(m)
    requires v < 16 && |ns| == 3 && AreNibbles(ns) && |tail| == 12 && AreNibbles(tail)
    ensures Placeholders(t + "yxxx" + "-" + "xxxxxxxxxxxx") == |m + [v] + ns + tail|
    ensures AreNibbles(m + [v] + ns + tail)
    ensures Fill(t + "yxxx" + "-" + "xxxxxxxxxxxx", m + [v] + ns + tail) ==
      Fill(t, m) + [HexDigit(VariantNibble(v))] + HexString(ns) + "-" + HexString(tail)
  {
    VariantGroup(v, ns);
    FillConcat(t, "yxxx", m, [v] + ns);
    assert m + ([v] + ns) == m + [v] + ns;
    FixedPieces();
    FillConcat(t + "yxxx", "-", m + [v] + ns, []);
    assert m + [v] + ns + [] == m + [v] + ns;
    TemplateRuns();
    FillRun("xxxxxxxxxxxx", tail);
    FillConcat(t + "yxxx" + "-", "xxxxxxxxxxxx", m + [v] + ns, tail);
  }

  /** The template from the variant group on: draws 15..30 after the leading part. */
  lemma TrailingLayout(n: seq<nat>)
    requires |n| == 31 && AreNibbles(n)
    ensures AreNibbles(n[..15]) && AreNibbles(n[16..19]) && AreNibbles(n[19..])
    ensures Placeholders("xxxxxxxx" + "-" + "xxxx" + "-" + "4xxx" + "-") == 15
    ensures Placeholders(Template) == 31
    ensures Fill(Template, n) ==
      Fill("xxxxxxxx" + "-" + "xxxx" + "-" + "4xxx" + "-", n[..15])
      + [HexDigit(VariantNibble(n[15]))] + HexString(n[16..19]) + "-" + HexString(n[19..])
  {
    AreNibblesSlice(n, 0, 15);
    AreNibblesSlice(n, 16, 19);
    AreNibblesSlice(n, 19, 31);
    assert n[19..] == n[19..31];
    LeadingCount();
    TrailingPieces("xxxxxxxx" + "-" + "xxxx" + "-" + "4xxx" + "-", n[..15], n[15], n[16..19], n[19..]);
    assert n[..15] + [n[15]] + n[16..19] + n[19..] == n;
  }

  /** The result of `generateUUID` piece by piece: the draws in hexadecimal around the fixed characters. */
  lemma GenerateUuidLayout(n: seq<nat>)
    requires |n| == 31 && AreNibbles(n)
    ensures AreNibbles(n[..8]) && AreNibbles(n[8..12]) && AreNibbles(n[12..15])
    ensures AreNibbles(n[16..19]) && AreNibbles(n[19..])
    ensures GenerateUuid(n) ==
      HexString(n[..8]) + "-" + HexString(n[8..12]) + "-" + "4" + HexString(n[12..15]) + "-"
      + [HexDigit(VariantNibble(n[15]))] + HexString(n[16..19]) + "-" + HexString(n[19..])
  {
    TrailingLayout(n);
    var m := n[..15];
    LeadingLayout(m);
    assert m[..8] == n[..8] && m[8..12] == n[8..12] && m[12..] == n[12..15];
  }

  /** The character at position `i` of a generated UUID, read off the layout. */
  function LayoutAt(n: seq<nat>, i: nat): (c: char)
    requires |n| == 31 && AreNibbles(n) && i < 36
  {
    if i < 8 then HexDigit(n[i])
    else if i == 8 || i == 13 || i == 18 || i == 23 then '-'
    else if i < 13 then HexDigit(n[i - 1])
    else if i == 14 then '4'
    else if i < 18 then HexDigit(n[i - 3])
    else if i == 19 then HexDigit(VariantNibble(n[15]))
    else if i < 23 then HexDigit(n[i - 4])
    else HexDigit(n[i - 5])
  }

  lemma GenerateUuidAt(n: seq<nat>)
    requires |n| == 31 && AreNibbles(n)
    ensures forall i :: 0 <= i < 36 ==> GenerateUuid(n)[i] == LayoutAt(n, i)
  {
    GenerateUuidLayout(n);
    var a := HexString(n[..8]) + "-";
    var b := a + HexString(n[8..12]) + "-" + "4";
    var c := b + HexString(n[12..15]) + "-";
    var d := c + [HexDigit(VariantNibble(n[15]))] + HexString(n[16..19]) + "-";
    var u := GenerateUuid(n);
    assert u == d + HexString(n[19..]);
    assert |a| == 9 && |b| == 15 && |c| == 19 && |d| == 24;
    forall i | 0 <= i < 36 ensures u[i] == LayoutAt(n, i) {
      if i >= 24 {
        assert u[i] == HexString(n[19..])[i - 24];
      } else if i >= 19 {
        assert u[i] == d[i];
      } else if i >= 15 {
        assert u[i] == c[i];
      } else if i >= 9 {
        assert u[i] == b[i];
      } else {
        assert u[i] == a[i];
      }
    }
  }

  // ---------------------------------------------------------------------
  // What a generated UUID looks like, and which draws can be read back from it.
  // ---------------------------------------------------------------------

  /** Positions that hold a fixed character: the four dashes and the version digit. */
  predicate IsFixedPosition(i: int) {
    i == 8 || i == 13 || i == 14 || i == 18 || i == 23
  }

  /**
   * A version-4, variant-1 UUID in the lower-case text form of section 3 of
   * RFC 4122, with the version and variant bits of section 4.4: dashes at 8,
   * 13, 18 and 23, version digit `4` at 14, one of `8`, `9`, `a`, `b` at 19,
   * lower-case hexadecimal elsewhere.
   */
  predicate IsUuidV4(u: string) {
    && |u| == 36
    && u[8] == '-' && u[13] == '-' && u[18] == '-' && u[23] == '-'
    && u[14] == '4'
    && (u[19] == '8' || u[19] == '9' || u[19] == 'a' || u[19] == 'b')
    && forall i :: 0 <= i < 36 && !IsFixedPosition(i) ==> IsLowerHex(u[i])
  }

  /** Every generated string is a version-4 UUID. */
  lemma GenerateUuidIsV4(n: seq<nat>)
    requires |n| == 31 && AreNibbles(n)
    ensures IsUuidV4(GenerateUuid(n))
  {
    GenerateUuidAt(n);
    var v := VariantNibble(n[15]);
    assert v == 8 || v == 9 || v == 10 || v == 11;
  }

  /** Where draw `k` lands in the result. */
  function SlotPosition(k: nat): (i: nat)
    requires k < 31
    ensures i < 36 && !IsFixedPosition(i)
  {
    if k < 8 then k
    else if k < 12 then k + 1
    else if k < 15 then k + 3
    else if k < 19 then k + 4
    else k + 5
  }

  /** Reads the draws back from a UUID; for the variant position only its two low bits are there to read. */
  function Extract(u: string): (n: seq<nat>)
    requires IsUuidV4(u)
    ensures |n| == 31 && AreNibbles(n)
  {
    seq(31, k requires 0 <= k < 31 =>
      if k == 15 then HexVal(u[19]) - 8 else HexVal(u[SlotPosition(k)]))
  }

  /**
   * Reading a generated UUID gives back every draw except the one behind
   * the variant digit, of which only the remainder modulo 4 survives.
   */
  lemma ExtractGenerate(n: seq<nat>)
    requires |n| == 31 && AreNibbles(n)
    ensures IsUuidV4(GenerateUuid(n)) && Extract(GenerateUuid(n)) == n[15 := n[15] % 4]
  {
    GenerateUuidAt(n);
    GenerateUuidIsV4(n);
    var u := GenerateUuid(n);
    var e := Extract(u);
    forall k | 0 <= k < 31 ensures e[k] == n[15 := n[15] % 4][k] {
      if k == 15 {
        HexRoundTrip(VariantNibble(n[15]), u[19]);
      } else {
        HexRoundTrip(n[k], u[SlotPosition(k)]);
      }
    }
  }

  /** Every version-4 UUID is generated by some draws: the ones read back from it. */
  lemma GenerateExtract(u: string)
    requires IsUuidV4(u)
    ensures GenerateUuid(Extract(u)) == u
  {
    var n := Extract(u);
    GenerateUuidAt(n);
    var g := GenerateUuid(n);
    forall i | 0 <= i < 36 ensures g[i] == u[i] {
      if i == 19 {
        HexRoundTrip(0, u[19]);
        assert VariantNibble(n[15]) == HexVal(u[19]);
      } else if !IsFixedPosition(i) {
        HexRoundTrip(0, u[i]);
      }
    }
  }
}
