/** The texts that string_to_double() reads as zero: what strtod() of ISO C99 (section 7.20.1.3)
    takes in completely, in the "C" locale, with a mantissa of zeros. */
module Floats {
  import opened Ascii
  import Integers

  function SkipZeros(s: string): (r: string)
    ensures |r| <= |s|
  {
    if s != [] && s[0] == '0' then SkipZeros(s[1..]) else s
  }

  function SkipSign(s: string): (r: string) {
    if s != [] && (s[0] == '+' || s[0] == '-') then s[1..] else s
  }

  predicate IsExponent(s: string) {
    var digits := SkipSign(s);
    digits != [] && forall c | c in digits :: IsDigit(c)
  }

  /** Zeros with at most one point among them, at least one zero, and perhaps an exponent. */
  predicate ZeroMantissa(s: string, mark: string) {
    var tail := SkipZeros(s);
    var point := tail != [] && tail[0] == '.';
    var rest := if point then SkipZeros(tail[1..]) else tail;
    && (|tail| < |s| || (point && |rest| < |tail| - 1))
    && (rest == [] || (rest[0] in mark && IsExponent(rest[1..])))
  }

  /** string_to_double() succeeds and yields zero. A text of which nothing is converted counts as
      zero if it is empty, because then nothing is left over either. */
  predicate ReadsAsZero(text: string) {
    var data := Integers.CString(text);
    var s := SkipSign(Integers.SkipSpace(data));
    || data == []
    || ZeroMantissa(s, "eE")
    || (|s| > 2 && s[0] == '0' && (s[1] == 'x' || s[1] == 'X') && ZeroMantissa(s[2..], "pP"))
  }

  /** A word is no number. */
  lemma LettersAreNotZero(text: string)
    requires text != [] && IsNameStart(text[0])
    ensures !ReadsAsZero(text)
  {
  }
}
