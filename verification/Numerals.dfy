/** White space, and numbers written out as digits. */
module Numerals {
  import opened Ascii

  const SPACES: string := " \t\n\r" + [11 as char, 12 as char]
  const DIGITS: string := "0123456789"

  predicate AllSpaces(s: string) {
    forall i | 0 <= i < |s| :: s[i] in SPACES
  }

  lemma SpacesAre(c: char)
    ensures IsSpace(c) <==> c in SPACES
  {
    var table := SPACES;
    assert table[0] == ' ' && table[1] == '\t' && table[2] == '\n' && table[3] == '\r';
    assert table[4] == 11 as char && table[5] == 12 as char;
  }

  lemma DigitsAre(c: char)
    ensures IsDigit(c) <==> c in DIGITS
    ensures IsOctalDigit(c) <==> c in DIGITS[..8]
  {
    if IsDigit(c) {
      var d := c as int - '0' as int;
      assert DIGITS[d] == c;
      assert d < 8 ==> DIGITS[..8][d] == c;
    }
  }

  const CAPITALS: string := "0123456789ABCDEF"
  const SMALL: string := "0123456789abcdef"

  /** A character that stands for a digit. */
  predicate Stands(c: char, d: nat) {
    d < 16 && (c == CAPITALS[d] || c == SMALL[d])
  }

  /** The text writes these digits, all below the radix. */
  predicate Writes(s: string, radix: nat, ds: seq<nat>) {
    |s| == |ds| && forall i | 0 <= i < |s| :: ds[i] < radix && Stands(s[i], ds[i])
  }

  /** The number that digits stand for, the last one counting once. */
  function NumberOf(radix: nat, ds: seq<nat>): nat {
    if ds == [] then 0 else radix * NumberOf(radix, ds[..|ds| - 1]) + ds[|ds| - 1]
  }

  lemma StandsFor(c: char, d: nat)
    requires Stands(c, d)
    ensures IsHexDigit(c) && DigitValue(c) == d
    ensures IsDigit(c) <==> d < 10
    ensures IsOctalDigit(c) <==> d < 8
  {
    if d < 10 {
      assert c == '0' + d as char;
    } else {
      assert c == 'A' + (d - 10) as char || c == 'a' + (d - 10) as char;
    }
  }

  /** What each digit of a text is to the character classes. */
  lemma AreDigits(s: string, radix: nat, ds: seq<nat>)
    requires Writes(s, radix, ds)
    ensures forall i | 0 <= i < |s| :: IsHexDigit(s[i]) && DigitValue(s[i]) == ds[i]
    ensures radix <= 10 ==> forall i | 0 <= i < |s| :: IsDigit(s[i])
    ensures radix <= 8 ==> forall i | 0 <= i < |s| :: IsOctalDigit(s[i])
  {
    forall i | 0 <= i < |s|
      ensures IsHexDigit(s[i]) && DigitValue(s[i]) == ds[i] && (radix <= 10 ==> IsDigit(s[i]))
      ensures radix <= 8 ==> IsOctalDigit(s[i])
    {
      StandsFor(s[i], ds[i]);
    }
  }

  lemma StandsForValue(c: char)
    requires IsHexDigit(c)
    ensures Stands(c, DigitValue(c))
  {
    var d := DigitValue(c);
    if IsDigit(c) {
      assert SMALL[d] == c;
    } else if 'a' <= c <= 'f' {
      assert SMALL[d] == c;
    } else {
      assert CAPITALS[d] == c;
    }
  }

  /** The digits that a text writes. */
  function DigitsOf(s: string): (ds: seq<nat>)
    requires forall i | 0 <= i < |s| :: IsHexDigit(s[i])
    ensures |ds| == |s| && forall i | 0 <= i < |s| :: ds[i] == DigitValue(s[i])
  {
    seq(|s|, i requires 0 <= i < |s| => DigitValue(s[i]))
  }

  lemma WritesItsDigits(s: string, radix: nat)
    requires forall i | 0 <= i < |s| :: IsHexDigit(s[i]) && DigitValue(s[i]) < radix
    ensures Writes(s, radix, DigitsOf(s))
  {
    forall i | 0 <= i < |s|
      ensures Stands(s[i], DigitsOf(s)[i])
    {
      StandsForValue(s[i]);
    }
  }

  lemma CapitalsOrSmall(c: char)
    ensures IsHexDigit(c) <==> c in CAPITALS + SMALL
  {
    if IsHexDigit(c) {
      StandsForValue(c);
    }
    if c in CAPITALS + SMALL {
      var i :| 0 <= i < 32 && (CAPITALS + SMALL)[i] == c;
      StandsFor(c, if i < 16 then i else i - 16);
    }
  }
}
