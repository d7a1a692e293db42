/** The four sequential code generators. Each one reads the live code that
    `ORDER BY code DESC` puts first among those `LIKE 'P%'`, reads a number
    off it, adds one and pads the result with zeros:

    - asset groups (`NTS`) and asset flows (`DTS`) accept the top code only
      when it matches `^P(\d+)$`;
    - asset types (`LTS`) accept it only when it is exactly 6 characters long
      and read it with `parseInt`;
    - products (`HHDV`) accept it when it is at least 9 characters long and
      read it with `parseInt`.

    The lemmas show what the formatting keeps (the number reads back) and the
    two gaps it has: padding never truncates, and "greatest" is the
    character-wise order, not the numeric one. */
module CodeGen {
  import opened Common
  import opened Text

  /** The first code of `ORDER BY code DESC` among the codes starting with `prefix`. */
  function TopCode(codes: seq<string>, prefix: string): Option<string> {
    if codes == [] then None
    else
      var rest := TopCode(codes[1..], prefix);
      if !HasPrefix(codes[0], prefix) then rest
      else if rest.Some? && LexLe(codes[0], rest.value) then rest
      else Some(codes[0])
  }

  /** `TopCode` finds a code with the prefix exactly when there is one, and it
      is the greatest of them. */
  lemma {:induction false} TopCodeIsGreatest(codes: seq<string>, prefix: string)
    ensures TopCode(codes, prefix).None? <==> forall i :: 0 <= i < |codes| ==> !HasPrefix(codes[i], prefix)
    ensures TopCode(codes, prefix).Some? ==>
      var t := TopCode(codes, prefix).value;
      && t in codes && HasPrefix(t, prefix)
      && forall i :: 0 <= i < |codes| && HasPrefix(codes[i], prefix) ==> LexLe(codes[i], t)
  {
    if codes != [] {
      var tail := codes[1..];
      TopCodeIsGreatest(tail, prefix);
      assert forall i :: 1 <= i < |codes| ==> codes[i] == tail[i - 1];
      var rest := TopCode(tail, prefix);
      if HasPrefix(codes[0], prefix) {
        if rest.Some? && LexLe(codes[0], rest.value) {
        } else {
          LexLeRefl(codes[0]);
          if rest.Some? {
            LexLeTotal(codes[0], rest.value);
            forall i | 1 <= i < |codes| && HasPrefix(codes[i], prefix)
              ensures LexLe(codes[i], codes[0])
            {
              LexLeTrans(codes[i], rest.value, codes[0]);
            }
          }
        }
      }
    }
  }

  /** The number `^P(\d+)$` captures in `code`, if it matches. */
  function NumberedSuffix(code: string, prefix: string): Option<nat> {
    if HasPrefix(code, prefix) && |code| > |prefix| && AllDigits(code[|prefix|..])
    then Some(DigitsValue(code[|prefix|..]))
    else None
  }

  /** `` `${prefix}${String(n).padStart(width, "0")}` `` */
  function FormatCode(prefix: string, n: int, width: nat): string {
    prefix + PadStart(IntToString(n), width, '0')
  }

  /** The number the NTS and DTS generators continue from: the captured number
      plus one (`parseInt` of a string of digits is its value, see
      `Text.ParseIntLeadingDigits`), or 1 without a matching top code. */
  function NextPatternNumber(top: Option<string>, prefix: string): int {
    match top
    case None => 1
    case Some(t) =>
      match NumberedSuffix(t, prefix)
      case None => 1
      case Some(k) => k + 1
  }

  /** `generateNextAssetCode` of the group and flow services. */
  function NextPatternCode(codes: seq<string>, prefix: string): (r: string)
    ensures |r| >= |prefix| + 3
  {
    FormatPrefix(prefix, NextPatternNumber(TopCode(codes, prefix), prefix), 3);
    FormatCode(prefix, NextPatternNumber(TopCode(codes, prefix), prefix), 3)
  }

  /** A formatted code starts with its prefix and is at least `width`
      characters longer. */
  lemma FormatPrefix(prefix: string, n: int, width: nat)
    ensures HasPrefix(FormatCode(prefix, n, width), prefix)
    ensures |FormatCode(prefix, n, width)| >= |prefix| + width
  {
    assert FormatCode(prefix, n, width)[..|prefix|] == prefix;
  }

  /** The number `generateNextTypeCode` continues from. */
  function NextTypeNumber(top: Option<string>): int {
    if top.Some? && |top.value| == 6 then
      match ParseInt(top.value[3..])
      case Some(k) => k + 1
      case None => 1
    else 1
  }

  /** `generateNextTypeCode`: "LTS" and at least three digits. */
  function NextTypeCode(codes: seq<string>): (r: string)
    ensures |r| >= 6
  {
    FormatPrefix("LTS", NextTypeNumber(TopCode(codes, "LTS")), 3);
    FormatCode("LTS", NextTypeNumber(TopCode(codes, "LTS")), 3)
  }

  /** The number `generateNextProductCode` continues from. */
  function NextProductNumber(top: Option<string>): int {
    if top.Some? && |top.value| >= 9 then
      match ParseInt(top.value[4..])
      case Some(k) => k + 1
      case None => 1
    else 1
  }

  /** `generateNextProductCode`: "HHDV" and at least six digits. */
  function NextProductCode(codes: seq<string>): (r: string)
    ensures |r| >= 10
  {
    FormatPrefix("HHDV", NextProductNumber(TopCode(codes, "HHDV")), 6);
    FormatCode("HHDV", NextProductNumber(TopCode(codes, "HHDV")), 6)
  }

  /** Every suggestion starts with its generator's prefix. */
  lemma SuggestionPrefixes(codes: seq<string>, prefix: string)
    ensures HasPrefix(NextPatternCode(codes, prefix), prefix)
    ensures HasPrefix(NextTypeCode(codes), "LTS")
    ensures HasPrefix(NextProductCode(codes), "HHDV")
  {
    FormatPrefix(prefix, NextPatternNumber(TopCode(codes, prefix), prefix), 3);
    FormatPrefix("LTS", NextTypeNumber(TopCode(codes, "LTS")), 3);
    FormatPrefix("HHDV", NextProductNumber(TopCode(codes, "HHDV")), 6);
  }

  // ---------------------------------------------------------------------
  // What the formatting keeps

  /** A formatted code matches `^P(\d+)$` and gives its number back, whatever the width. */
  lemma FormatRoundTrip(prefix: string, n: nat, width: nat)
    ensures NumberedSuffix(FormatCode(prefix, n, width), prefix) == Some(n)
  {
    var digits := PadStart(NatToString(n), width, '0');
    PaddedNumeral(n, width);
    var code := FormatCode(prefix, n, width);
    assert code[..|prefix|] == prefix && code[|prefix|..] == digits;
  }

  /** The code is exactly `|prefix| + width` long when the number has at most
      `width` digits; otherwise padding does not truncate and it is longer. */
  lemma FormatLength(prefix: string, n: nat, width: nat)
    requires width >= 1
    ensures |FormatCode(prefix, n, width)| == |prefix| + width <==> n < Pow10(width)
    ensures n >= Pow10(width) ==> |FormatCode(prefix, n, width)| == |prefix| + |NatToString(n)| > |prefix| + width
  {
    NatToStringLength(n, width);
  }
  /** A one-digit number is padded with two zeros. */
  lemma FormatDigit(prefix: string, n: nat)
    requires n < 10
    ensures FormatCode(prefix, n, 3) == prefix + ['0', '0', DigitChar(n)]
  {
    assert IntToString(n) == [DigitChar(n)];
    assert Repeat('0', 2) == ['0', '0'];
  }

  /** With a matching top code numbered k the suggestion is k + 1, formatted. */
  lemma PatternNext(codes: seq<string>, prefix: string, t: string, k: nat)
    requires TopCode(codes, prefix) == Some(t) && NumberedSuffix(t, prefix) == Some(k)
    ensures NextPatternCode(codes, prefix) == FormatCode(prefix, k + 1, 3)
  {
  }

  /** Without a top code that matches `^P(\d+)$` the numbering restarts at 1. */
  lemma PatternRestart(codes: seq<string>, prefix: string)
    requires TopCode(codes, prefix).None? || NumberedSuffix(TopCode(codes, prefix).value, prefix).None?
    ensures NextPatternCode(codes, prefix) == prefix + "001"
  {
    assert NextPatternNumber(TopCode(codes, prefix), prefix) == 1;
    FormatDigit(prefix, 1);
  }

  /** With a matching top code numbered k the suggestion is numbered k + 1. */
  lemma PatternSuccessor(codes: seq<string>, prefix: string, k: nat)
    requires TopCode(codes, prefix).Some? && NumberedSuffix(TopCode(codes, prefix).value, prefix) == Some(k)
    ensures NumberedSuffix(NextPatternCode(codes, prefix), prefix) == Some(k + 1)
    ensures k + 1 < 1000 ==> |NextPatternCode(codes, prefix)| == |prefix| + 3
  {
    assert NextPatternNumber(TopCode(codes, prefix), prefix) == k + 1;
    FormatRoundTrip(prefix, k + 1, 3);
    FormatLength(prefix, k + 1, 3);
    assert Pow10(3) == 1000 by {
      assert Pow10(1) == 10;
      assert Pow10(2) == 100;
    }
  }

  lemma Nts005Top()
    ensures TopCode(["NTS002", "NTS005", "X01"], "NTS") == Some("NTS005")
  {
    assert !HasPrefix("X01", "NTS") by {
      assert "X01"[..3][0] == 'X';
    }
    assert ["X01"][1..] == [];
    assert TopCode(["X01"], "NTS") == None;
    assert HasPrefix("NTS005", "NTS") by { assert "NTS005"[..3] == "NTS"; }
    assert ["NTS005", "X01"][1..] == ["X01"];
    assert TopCode(["NTS005", "X01"], "NTS") == Some("NTS005");
    assert LexLe("NTS002", "NTS005") by {
      assert "NTS002" == "NTS00" + "2" && "NTS005" == "NTS00" + "5";
      LexLeSharedPrefix("NTS00", "2", "5");
    }
    assert ["NTS002", "NTS005", "X01"][1..] == ["NTS005", "X01"];
  }

  lemma Nts005Number()
    ensures NumberedSuffix("NTS005", "NTS") == Some(5)
  {
    assert HasPrefix("NTS005", "NTS") by { assert "NTS005"[..3] == "NTS"; }
    assert "NTS005"[3..] == "005";
    assert DigitsValue("005") == 5 by {
      assert "005"[..2] == "00" && "00"[..1] == "0";
    }
  }

  /** `NTS005` is followed by `NTS006`. */
  lemma NextAfterNts005()
    ensures NextPatternCode(["NTS002", "NTS005", "X01"], "NTS") == "NTS006"
  {
    Nts005Top();
    Nts005Number();
    PatternNext(["NTS002", "NTS005", "X01"], "NTS", "NTS005", 5);
    FormatDigit("NTS", 6);
  }

  lemma Nts999Number()
    ensures NumberedSuffix("NTS999", "NTS") == Some(999)
  {
    assert HasPrefix("NTS999", "NTS") by { assert "NTS999"[..3] == "NTS"; }
    assert "NTS999"[3..] == "999";
    assert DigitsValue("999") == 999 by {
      assert "999"[..2] == "99" && "99"[..1] == "9";
    }
  }

  lemma Numeral1000()
    ensures FormatCode("NTS", 1000, 3) == "NTS1000"
  {
    assert IntToString(1000) == "1000" by {
      assert NatToString(1000) == NatToString(100) + "0";
      assert NatToString(100) == NatToString(10) + "0";
      assert NatToString(10) == "10";
    }
  }

  /** After `NTS999` comes `NTS1000`: seven characters, more than the six the
      code column and the code rule allow. */
  lemma NextAfterNts999()
    ensures NextPatternCode(["NTS999"], "NTS") == "NTS1000"
    ensures |NextPatternCode(["NTS999"], "NTS")| == 7
  {
    assert TopCode(["NTS999"], "NTS") == Some("NTS999") by {
      assert ["NTS999"][1..] == [];
      assert HasPrefix("NTS999", "NTS") by { assert "NTS999"[..3] == "NTS"; }
    }
    Nts999Number();
    PatternNext(["NTS999"], "NTS", "NTS999", 999);
    Numeral1000();
  }

  lemma Nts1000Top()
    ensures TopCode(["NTS999", "NTS1000"], "NTS") == Some("NTS999")
  {
    assert LexLe("NTS1000", "NTS999") by {
      assert "NTS1000" == "NTS" + "1000" && "NTS999" == "NTS" + "999";
      LexLeSharedPrefix("NTS", "1000", "999");
    }
    assert HasPrefix("NTS1000", "NTS") by { assert "NTS1000"[..3] == "NTS"; }
    assert HasPrefix("NTS999", "NTS") by { assert "NTS999"[..3] == "NTS"; }
    assert ["NTS1000"][1..] == [];
    assert TopCode(["NTS1000"], "NTS") == Some("NTS1000");
    assert ["NTS999", "NTS1000"][1..] == ["NTS1000"];
  }

  /** Once `NTS1000` exists the greatest code is still `NTS999` ("1" sorts
      before "9"), so the generator proposes `NTS1000` again: a code that is
      already taken. */
  lemma LexicographicGap()
    ensures NextPatternCode(["NTS999", "NTS1000"], "NTS") == "NTS1000"
    ensures "NTS1000" in ["NTS999", "NTS1000"]
  {
    Nts1000Top();
    Nts999Number();
    PatternNext(["NTS999", "NTS1000"], "NTS", "NTS999", 999);
    Numeral1000();
  }

  /** The type generator reads the top code's digits after `LTS` when it is 6
      characters long and they are digits. */
  lemma TypeCodeNumbered(codes: seq<string>, t: string)
    requires TopCode(codes, "LTS") == Some(t) && |t| == 6 && AllDigits(t[3..])
    ensures NextTypeCode(codes) == FormatCode("LTS", DigitsValue(t[3..]) + 1, 3)
  {
    var d := t[3..];
    ParseIntDigits(d);
    assert NextTypeNumber(Some(t)) == DigitsValue(d) + 1;
  }

  /** The type generator restarts at `LTS001` when there is no `LTS` code or
      the top one is not 6 characters long. */
  lemma TypeCodeRestart(codes: seq<string>)
    requires TopCode(codes, "LTS").None? || |TopCode(codes, "LTS").value| != 6
    ensures NextTypeCode(codes) == "LTS001"
  {
    assert NextTypeNumber(TopCode(codes, "LTS")) == 1;
    FormatDigit("LTS", 1);
  }

  lemma Parse1AB()
    ensures ParseInt("1AB") == Some(1)
  {
    assert "1AB" == "1" + "AB";
    ParseIntLeadingDigits("1", "AB");
    assert DigitsValue("1") == 1 by { assert "1"[..0] == []; }
  }

  lemma LenientNumber()
    ensures NextTypeNumber(Some("LTS1AB")) == 2
  {
    assert "LTS1AB"[3..] == "1AB";
    Parse1AB();
  }

  /** `parseInt` reads the leading digits only: after `LTS1AB` comes `LTS002`. */
  lemma TypeCodeLenientParse()
    ensures NextTypeCode(["LTS1AB"]) == "LTS002"
  {
    LenientTop();
    LenientNumber();
    TypeNext(["LTS1AB"], "LTS1AB", 2);
    Lts002();
  }

  lemma Lts001()
    ensures FormatCode("LTS", 1, 3) == "LTS001"
  {
    FormatDigit("LTS", 1);
  }

  lemma Lts002()
    ensures FormatCode("LTS", 2, 3) == "LTS002"
  {
    FormatDigit("LTS", 2);
  }

  /** The type suggestion continues from the number read off the top code. */
  lemma TypeNext(codes: seq<string>, t: string, n: int)
    requires TopCode(codes, "LTS") == Some(t) && NextTypeNumber(Some(t)) == n
    ensures NextTypeCode(codes) == FormatCode("LTS", n, 3)
  {
  }

  lemma LenientTop()
    ensures TopCode(["LTS1AB"], "LTS") == Some("LTS1AB")
  {
    assert HasPrefix("LTS1AB", "LTS") by { assert "LTS1AB"[..3] == "LTS"; }
    assert ["LTS1AB"][1..] == [];
  }

  lemma CollisionTop()
    ensures TopCode(["LTS001", "LTSABC"], "LTS") == Some("LTSABC")
  {
    assert LexLe("LTS001", "LTSABC") by {
      assert "LTS001" == "LTS" + "001" && "LTSABC" == "LTS" + "ABC";
      LexLeSharedPrefix("LTS", "001", "ABC");
    }
    assert HasPrefix("LTSABC", "LTS") by { assert "LTSABC"[..3] == "LTS"; }
    assert HasPrefix("LTS001", "LTS") by { assert "LTS001"[..3] == "LTS"; }
    assert ["LTSABC"][1..] == [];
    assert TopCode(["LTSABC"], "LTS") == Some("LTSABC");
    assert ["LTS001", "LTSABC"][1..] == ["LTSABC"];
  }

  lemma ParseAbc()
    ensures ParseInt("ABC").None?
  {
    assert !IsWhitespace('A');
    assert TrimStart("ABC") == "ABC";
    assert !IsDigit('A');
    assert LeadingDigits("ABC") == [];
  }

  lemma CollisionNumber()
    ensures NextTypeNumber(Some("LTSABC")) == 1
  {
    assert "LTSABC"[3..] == "ABC";
    ParseAbc();
  }

  /** A top code that does not parse restarts the numbering at a code that may
      already exist: with `LTS001` and `LTSABC` the suggestion is `LTS001`. */
  lemma TypeCodeCollision()
    ensures NextTypeCode(["LTS001", "LTSABC"]) == "LTS001"
  {
    CollisionTop();
    CollisionNumber();
    TypeNext(["LTS001", "LTSABC"], "LTSABC", 1);
    Lts001();
  }

  lemma Pow10Six()
    ensures Pow10(6) == 1000000
  {
    assert Pow10(2) == 100;
    assert Pow10(4) == 10000;
  }

  /** The product generator reads the digits after `HHDV` when the top code is
      at least 9 characters long and they are digits; up to 999999 the code is
      exactly 10 characters long. */
  lemma ProductCodeNumbered(codes: seq<string>, t: string)
    requires TopCode(codes, "HHDV") == Some(t) && |t| >= 9 && AllDigits(t[4..])
    ensures NextProductCode(codes) == FormatCode("HHDV", DigitsValue(t[4..]) + 1, 6)
    ensures DigitsValue(t[4..]) + 1 <= 999999 ==> |NextProductCode(codes)| == 10
  {
    var d := t[4..];
    ParseIntDigits(d);
    assert NextProductNumber(Some(t)) == DigitsValue(d) + 1;
    FormatLength("HHDV", DigitsValue(d) + 1, 6);
    Pow10Six();
  }

  /** The product generator restarts at `HHDV000001` without an `HHDV` code of
      at least 9 characters. */
  lemma ProductCodeRestart(codes: seq<string>)
    requires TopCode(codes, "HHDV").None? || |TopCode(codes, "HHDV").value| < 9
    ensures NextProductCode(codes) == "HHDV000001"
  {
    assert NextProductNumber(TopCode(codes, "HHDV")) == 1;
    assert IntToString(1) == [DigitChar(1)];
    assert Repeat('0', 5) == ['0', '0', '0', '0', '0'];
  }
}
