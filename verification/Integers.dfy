/** Conversions between cdl_int and text: Cdl::string_to_integer and Cdl::integer_to_string. */
module Integers {
  import opened Wrappers
  import opened Ascii
  import opened Word64
  import opened Syntax
  import opened Numerals

  // ---------------------------------------------------------------------------------------
  // From text to integer.

  type Radix = r: nat | r == 8 || r == 10 || r == 16 witness 10

  predicate IsRadixDigit(radix: Radix, c: char) {
    IsHexDigit(c) && DigitValue(c) < radix
  }

  predicate AllDigits(radix: Radix, s: string) {
    forall i | 0 <= i < |s| :: IsRadixDigit(radix, s[i])
  }

  /** The characters a C string holds: everything before the first NUL. */
  function CString(s: string): (r: string)
    ensures '\0' !in r
    ensures '\0' !in s ==> r == s
  {
    if s == [] || s[0] == '\0' then [] else [s[0]] + CString(s[1..])
  }

  function SkipSpace(s: string): (r: string)
    ensures |r| <= |s|
  {
    if s != [] && IsSpace(s[0]) then SkipSpace(s[1..]) else s
  }

  /** Append one digit to a number, without any width. */
  function Next(radix: Radix, acc: int, c: char): (next: int)
    requires IsHexDigit(c)
    ensures acc >= 0 ==> next >= acc
  {
    radix * acc + DigitValue(c)
  }

  /** Split off the last digit. */
  function Split(radix: Radix, v: nat): (r: (nat, nat))
    ensures r.1 < radix && (v > 0 ==> r.0 < v)
  {
    (v / radix, v % radix)
  }

  function DigitChar(d: nat): (c: char)
    requires d < 16
    ensures IsHexDigit(c) && DigitValue(c) == d
    ensures IsDigit(c) <==> d < 10
  {
    if d < 10 then '0' + d as char else 'A' + (d - 10) as char
  }

  /** One of the digit loops: accumulate digits in 64-bit arithmetic and give up as soon as the
      accumulator gets smaller. */
  function Gather(radix: Radix, acc: int, s: string): (r: Option<(int, string)>)
    ensures r.Some? && InRange(acc) ==> InRange(r.value.0)
    decreases |s|
  {
    if s == [] || !IsRadixDigit(radix, s[0]) then Some((acc, s))
    else
      var next := Wrap(Next(radix, acc, s[0]));
      if next < acc then None else Gather(radix, next, s[1..])
  }

  function Finish(negative: bool, digits: Option<(int, string)>): (r: Option<int>)
    ensures r.Some? ==> digits.Some? && (InRange(digits.value.0) ==> InRange(r.value))
  {
    if digits.None? || digits.value.1 != [] then None
    else if !negative then Some(digits.value.0)
    else
      var acc := Wrap(0 - digits.value.0);
      if acc > 0 then None else Some(acc)
  }

  function ParseUnsigned(negative: bool, s: string): (r: Option<int>)
    ensures r.Some? ==> InRange(r.value)
  {
    if s == "0" then Some(0)
    else if |s| > 1 && s[0] == '0' && (s[1] == 'x' || s[1] == 'X') then
      if |s| == 2 || !IsHexDigit(s[2]) then None else Finish(negative, Gather(16, 0, s[2..]))
    else if |s| > 1 && s[0] == '0' && IsOctalDigit(s[1]) then
      Finish(negative, Gather(8, 0, s[1..]))
    else
      Finish(negative, Gather(10, 0, s))
  }

  /** A plus sign may stand in front of a minus sign. */
  function ParseSigned(data: string): (r: Option<int>)
    ensures r.Some? ==> InRange(r.value)
  {
    var s := if data != [] && data[0] == '+' then data[1..] else data;
    if s != [] && s[0] == '-' then ParseUnsigned(true, s[1..]) else ParseUnsigned(false, s)
  }

  /** What string_to_integer stores in its target, or None when it returns false. */
  function ParseInteger(data: string): (r: Option<int>)
    ensures r.Some? ==> InRange(r.value)
  {
    ParseSigned(SkipSpace(CString(data)))
  }

  method GatherDigits(radix: Radix, s: string, start: nat) returns (ok: bool, acc: int, ptr: nat)
    requires start <= |s|
    ensures ok == Gather(radix, 0, s[start..]).Some?
    ensures ok ==> ptr <= |s| && Gather(radix, 0, s[start..]) == Some((acc, s[ptr..]))
  {
    ok, acc, ptr := true, 0, start;
    while ptr < |s| && IsRadixDigit(radix, s[ptr])
      invariant start <= ptr <= |s|
      invariant Gather(radix, 0, s[start..]) == Gather(radix, acc, s[ptr..])
    {
      var newAcc := Wrap(Next(radix, acc, s[ptr]));
      if newAcc < acc {
        ok := false;
        return;
      }
      acc, ptr := newAcc, ptr + 1;
    }
  }

  /** Skip white space and the optional signs. */
  method ScanSign(s: string) returns (ptr: nat, negative: bool)
    ensures ptr <= |s|
    ensures ParseSigned(SkipSpace(s)) == ParseUnsigned(negative, s[ptr..])
  {
    ptr, negative := 0, false;
    while ptr < |s| && IsSpace(s[ptr])
      invariant 0 <= ptr <= |s|
      invariant SkipSpace(s[ptr..]) == SkipSpace(s)
    {
      ptr := ptr + 1;
    }
    assert s[ptr..] == SkipSpace(s);
    ptr, negative := ScanSigns(s, ptr);
  }

  method ScanSigns(s: string, start: nat) returns (ptr: nat, negative: bool)
    requires start <= |s|
    ensures ptr <= |s|
    ensures ParseSigned(s[start..]) == ParseUnsigned(negative, s[ptr..])
  {
    ptr, negative := start, false;
    if ptr < |s| && s[ptr] == '+' {
      assert s[start..][1..] == s[ptr + 1..];
      ptr := ptr + 1;
    }
    ghost var rest := s[ptr..];
    if ptr < |s| && s[ptr] == '-' {
      assert rest[1..] == s[ptr + 1..];
      ptr, negative := ptr + 1, true;
    }
  }

  /** Decide on the radix and skip its prefix; `done` is the special case of a lone zero and
      `bad` a hexadecimal prefix without a digit. */
  method ScanRadix(s: string, start: nat, ghost negative: bool)
    returns (ptr: nat, radix: Radix, done: bool, bad: bool)
    requires start <= |s|
    ensures ptr <= |s|
    ensures done ==> ParseUnsigned(negative, s[start..]) == Some(0)
    ensures bad ==> ParseUnsigned(negative, s[start..]) == None
    ensures !done && !bad ==>
              ParseUnsigned(negative, s[start..]) == Finish(negative, Gather(radix, 0, s[ptr..]))
  {
    ptr, radix, done, bad := start, 10, false, false;
    ghost var rest := s[start..];
    if ptr < |s| && s[ptr] == '0' {
      if ptr + 1 == |s| {
        assert rest == "0";
        done := true;
      } else if s[ptr + 1] == 'x' || s[ptr + 1] == 'X' {
        ptr, radix := ptr + 2, 16;
        assert rest[2..] == s[ptr..];
        bad := ptr == |s| || !IsHexDigit(s[ptr]);
      } else if IsOctalDigit(s[ptr + 1]) {
        ptr, radix := ptr + 1, 8;
        assert rest[1..] == s[ptr..];
      }
    }
  }

  method StringToInteger(data: string) returns (success: bool, target: int)
    ensures success == ParseInteger(data).Some?
    ensures success ==> ParseInteger(data) == Some(target)
  {
    target := 0;
    var s := CString(data);
    var start, negative := ScanSign(s);
    var ptr, radix, done, bad := ScanRadix(s, start, negative);
    if done || bad {
      return done, 0;
    }
    var acc;
    success, acc, ptr := GatherDigits(radix, s, ptr);
    if !success || ptr < |s| {
      return false, 0;
    }
    if negative {
      var newAcc := Wrap(0 - acc);
      if newAcc > 0 {
        return false, 0;
      }
      acc := newAcc;
    }
    return true, acc;
  }

  // ---------------------------------------------------------------------------------------
  // From integer to text.

  /** The digits of v without leading zeros; nothing for zero. */
  function Digits(radix: Radix, v: nat): (s: string)
    ensures AllDigits(radix, s) && AllDigits(16, s)
    ensures (s == []) == (v == 0)
    ensures v > 0 ==> s[0] != '0'
    decreases v
  {
    if v == 0 then []
    else Digits(radix, Split(radix, v).0) + [DigitChar(Split(radix, v).1)]
  }

  /** The low n hexadecimal digits of the two's complement representation of v. */
  function LowHex(v: int, n: nat): (s: string)
    ensures |s| == n
    ensures AllDigits(16, s)
    decreases n
  {
    if n == 0 then [] else LowHex(v / 16, n - 1) + [DigitChar(v % 16)]
  }

  const HALF: int := 0x1_0000_0000

  function Render(v: int, format: Format): string
    requires InRange(v)
  {
    match format
    case Default => if v == 0 then "0" else if v < 0 then "-" + Digits(10, -v) else Digits(10, v)
    case Octal => if v <= 0 then "0" else "0" + Digits(8, v)
    case Hex =>
      if v == 0 then "0x0"
      else if (v / HALF) % HALF == 0 then "0x" + LowHex(v, 8)
      else "0x" + LowHex(v / HALF, 8) + LowHex(v, 8)
  }

  const BUFFER: nat := 24

  /** A C string ends at its terminator. */
  lemma {:induction false} CStringTerminated(t: string)
    requires '\0' !in t
    ensures CString(t + ['\0']) == t
  {
    if t != [] {
      CStringTerminated(t[1..]);
      assert (t + ['\0'])[1..] == t[1..] + ['\0'];
    }
  }

  lemma RadixDigitsHaveNoNul(radix: Radix, s: string)
    requires AllDigits(radix, s)
    ensures '\0' !in s
  {
    assert !IsRadixDigit(radix, '\0');
  }

  function Power(radix: Radix, n: nat): nat {
    if n == 0 then 1 else radix * Power(radix, n - 1)
  }

  lemma SplitBelow(radix: Radix, v: nat, p: nat)
    requires v < radix * p
    ensures Split(radix, v).0 < p
  {
    if radix == 8 {} else if radix == 10 {} else {}
  }

  lemma SplitBelowPower(radix: Radix, v: nat, n: nat)
    requires 0 < v < Power(radix, n)
    ensures n > 0 && Split(radix, v).0 < Power(radix, n - 1)
  {
    SplitBelow(radix, v, Power(radix, n - 1));
  }

  lemma DigitsTail(radix: Radix, v: nat, tail: string)
    requires v > 0
    ensures Digits(radix, v) + tail
         == Digits(radix, Split(radix, v).0) + ([DigitChar(Split(radix, v).1)] + tail)
  {
  }

  /** One more digit is written, and the rest of the value needs one cell less. */
  lemma NextDigit(radix: Radix, value: nat, tail: seq<char>, cells: nat)
    requires 0 < value < Power(radix, cells)
    ensures var (rest, digit) := Split(radix, value);
            && cells > 0 && rest < Power(radix, cells - 1)
            && Digits(radix, value) + tail == Digits(radix, rest) + ([DigitChar(digit)] + tail)
  {
    DigitsTail(radix, value, tail);
    SplitBelowPower(radix, value, cells);
  }

  /** Write the digits of a positive value downwards; `spare` cells always stay free. */
  method PutDigits(buffer: array<char>, radix: Radix, start: nat, spare: nat) returns (ptr: nat)
    requires buffer.Length == BUFFER && buffer[BUFFER - 1] == '\0'
    requires spare < BUFFER - 2 && start < Power(radix, BUFFER - 2 - spare)
    modifies buffer
    ensures spare <= ptr < BUFFER - 1
    ensures buffer[ptr + 1..] == Digits(radix, start) + ['\0']
  {
    ptr := BUFFER - 2;
    var value := start;
    while value > 0
      invariant spare <= ptr < BUFFER - 1
      invariant 0 <= value < Power(radix, ptr - spare)
      invariant Digits(radix, start) + ['\0'] == Digits(radix, value) + buffer[ptr + 1..]
    {
      ghost var before := buffer[ptr + 1..];
      NextDigit(radix, value, before, ptr - spare);
      var digit := Split(radix, value).1;
      value := Split(radix, value).0;
      buffer[ptr] := DigitChar(digit);
      assert buffer[ptr..] == [DigitChar(digit)] + before;
      ptr := ptr - 1;
    }
  }

  /** Write eight hexadecimal digits downwards from ptr. */
  method PutHex(buffer: array<char>, value: int, ptr: int) returns (shifted: int, newPtr: int)
    requires buffer.Length == BUFFER && 8 <= ptr < BUFFER - 1
    modifies buffer
    ensures newPtr == ptr - 8 && shifted == value / HALF
    ensures buffer[newPtr + 1..] == LowHex(value, 8) + old(buffer[ptr + 1..])
  {
    shifted, newPtr := value, ptr;
    for i := 0 to 8
      invariant newPtr == ptr - i
      invariant shifted == Shifted(value, i)
      invariant buffer[newPtr + 1..] == LowHex(value, i) + old(buffer[ptr + 1..])
    {
      var tmp := shifted % 16;
      LowHexStep(value, i);
      ghost var before := buffer[newPtr + 1..];
      shifted := shifted / 16;
      buffer[newPtr] := DigitChar(tmp);
      assert buffer[newPtr..] == [DigitChar(tmp)] + before;
      newPtr := newPtr - 1;
    }
    ShiftedEight(value);
  }

  /** v after n right shifts by four bits. */
  function Shifted(v: int, n: nat): int
    decreases n
  {
    if n == 0 then v else Shifted(v / 16, n - 1)
  }

  /** The next digit to the left, and what is left after it. */
  lemma {:induction false} LowHexStep(v: int, n: nat)
    ensures LowHex(v, n + 1) == [DigitChar(Shifted(v, n) % 16)] + LowHex(v, n)
    ensures Shifted(v, n) / 16 == Shifted(v, n + 1)
    decreases n
  {
    if n > 0 {
      LowHexStep(v / 16, n - 1);
      assert LowHex(v, n + 1) == LowHex(v / 16, n) + [DigitChar(v % 16)];
    }
  }

  lemma ShiftedEight(v: int)
    ensures Shifted(v, 8) == v / HALF
  {
  }

  /** k shifted left by n hexadecimal digits. */
  function Scaled(k: int, n: nat): int
    decreases n
  {
    if n == 0 then k else 16 * Scaled(k, n - 1)
  }

  lemma {:induction false} LowHexCongruent(x: int, y: int, k: int, n: nat)
    requires x == y + Scaled(k, n)
    ensures LowHex(x, n) == LowHex(y, n)
    decreases n
  {
    if n > 0 {
      assert x / 16 == y / 16 + Scaled(k, n - 1) && x % 16 == y % 16;
      LowHexCongruent(x / 16, y / 16, k, n - 1);
    }
  }

  /** The largest magnitudes fit the buffer with room for a sign or a leading zero. */
  lemma BufferIsLargeEnough()
    ensures Power(10, BUFFER - 5) > MAX_INT
    ensures Power(8, BUFFER - 3) > MAX_INT
  {
    assert Power(10, 5) == 100_000;
    assert Power(10, 10) == 10_000_000_000;
    assert Power(10, 15) == 1_000_000_000_000_000;
    assert Power(10, 19) == 10_000_000_000_000_000_000;
    assert Power(8, 7) == 0x20_0000;
    assert Power(8, 14) == 0x400_0000_0000;
    assert Power(8, 21) == 0x8000_0000_0000_0000;
  }

  /** (tmp2 << 16) + tmp1 in signed 32-bit arithmetic: the low half of v, sign extended. */
  function LowHalf(v: int): int {
    var tmp1, tmp2 := v % 0x1_0000, (v / 0x1_0000) % 0x1_0000;
    var unsigned := tmp2 * 0x1_0000 + tmp1;
    if unsigned > 0x7FFF_FFFF then unsigned - HALF else unsigned
  }

  lemma LowHalfIsCongruent(v: int) returns (k: int)
    ensures LowHalf(v) == v + k * HALF
    ensures LowHalf(v) == 0 <==> v % HALF == 0
  {
    var unsigned := (v / 0x1_0000) % 0x1_0000 * 0x1_0000 + v % 0x1_0000;
    assert unsigned == v % HALF;
    k := if unsigned > 0x7FFF_FFFF then -(v / HALF) - 1 else -(v / HALF);
  }

  lemma ScaledEight(k: int)
    ensures Scaled(k, 8) == k * HALF
  {
  }

  lemma LowHalfKeepsDigits(v: int)
    ensures LowHex(LowHalf(v), 8) == LowHex(v, 8)
    ensures LowHalf(v) == 0 <==> v % HALF == 0
  {
    var k := LowHalfIsCongruent(v);
    ScaledEight(k);
    LowHexCongruent(LowHalf(v), v, k, 8);
  }

  /** Put the prefix in front of the digits and read the C string. */
  method FinishHex(buffer: array<char>, ptr: nat, ghost digits: string) returns (target: string)
    requires buffer.Length == BUFFER && 1 <= ptr < BUFFER - 1
    requires AllDigits(16, digits) && buffer[ptr + 1..] == digits + ['\0']
    modifies buffer
    ensures target == "0x" + digits
  {
    RadixDigitsHaveNoNul(16, digits);
    ghost var tail := buffer[ptr + 1..];
    buffer[ptr] := 'x';
    assert buffer[ptr..] == ['x'] + tail;
    buffer[ptr - 1] := '0';
    assert buffer[ptr - 1..] == ['0', 'x'] + tail;
    assert buffer[ptr - 1..] == ("0x" + digits) + ['\0'];
    CStringTerminated("0x" + digits);
    target := CString(buffer[ptr - 1..]);
  }

  method HexToString(start: int) returns (target: string)
    requires InRange(start) && start != 0
    ensures target == Render(start, Hex)
  {
    var buffer := new char[BUFFER];
    buffer[BUFFER - 1] := '\0';
    assert buffer[BUFFER - 1..] == ['\0'];
    var value, ptr := PutHex(buffer, start, BUFFER - 2);
    LowHalfKeepsDigits(value);
    value := LowHalf(value);
    ghost var digits := LowHex(start, 8);
    if value != 0 {
      ghost var high := LowHex(value, 8);
      value, ptr := PutHex(buffer, value, ptr);
      assert buffer[ptr + 1..] == (high + digits) + ['\0'];
      digits := high + digits;
    }
    target := FinishHex(buffer, ptr, digits);
  }

  method OctalToString(value: int) returns (target: string)
    requires InRange(value) && value != 0
    ensures target == Render(value, Octal)
  {
    BufferIsLargeEnough();
    var buffer := new char[BUFFER];
    buffer[BUFFER - 1] := '\0';
    var magnitude := if value > 0 then value else 0;
    var ptr := PutDigits(buffer, 8, magnitude, 1);
    buffer[ptr] := '0';
    ghost var text := "0" + Digits(8, magnitude);
    assert buffer[ptr..] == text + ['\0'];
    RadixDigitsHaveNoNul(8, text);
    CStringTerminated(text);
    target := CString(buffer[ptr..]);
  }

  method DecimalToString(start: int) returns (target: string)
    requires InRange(start) && start != 0
    ensures target == Render(start, Default)
  {
    var value, negative := start, start < 0;
    if negative {
      value := Wrap(0 - value);
      if value < 0 {
        MinimumDigits();
        return MIN_TEXT;
      }
    }
    BufferIsLargeEnough();
    var buffer := new char[BUFFER];
    buffer[BUFFER - 1] := '\0';
    var ptr := PutDigits(buffer, 10, value, 3);
    ghost var text := Digits(10, value);
    RadixDigitsHaveNoNul(10, text);
    if negative {
      buffer[ptr] := '-';
      assert buffer[ptr..] == ("-" + text) + ['\0'];
      text := "-" + text;
      ptr := ptr - 1;
    }
    ptr := ptr + 1;
    CStringTerminated(text);
    target := CString(buffer[ptr..]);
  }

  /** Every array access is within the 24-byte buffer, for every value and format. */
  method IntegerToString(value: int, format: Format) returns (target: string)
    requires InRange(value)
    ensures target == Render(value, format)
  {
    if value == 0 {
      target := if format.Hex? then "0x0" else "0";
    } else if format.Hex? {
      target := HexToString(value);
    } else if format.Octal? {
      target := OctalToString(value);
    } else {
      target := DecimalToString(value);
    }
  }

  lemma DigitsStep(q: nat, d: nat)
    requires d < 10 && (q > 0 || d > 0)
    ensures Digits(10, 10 * q + d) == Digits(10, q) + [DigitChar(d)]
  {
  }

  /** The text of the one value that cannot be negated, in three pieces. */
  const MIN_TEXT: string := "-" + ("9223372" + "036854" + "775808")

  lemma MinimumDigits()
    ensures Render(MIN_INT, Default) == MIN_TEXT
  {
    MinimumDigits7();
    MinimumDigits13();
    MinimumDigits19();
  }

  lemma MinimumDigits7()
    ensures Digits(10, 9223372) == "9223372"
  {
    DigitsStep(0, 9); DigitsStep(9, 2); DigitsStep(92, 2); DigitsStep(922, 3);
    DigitsStep(9223, 3); DigitsStep(92233, 7); DigitsStep(922337, 2);
  }

  lemma MinimumDigits13()
    ensures Digits(10, 9223372036854) == Digits(10, 9223372) + "036854"
  {
    DigitsStep(9223372, 0); DigitsStep(92233720, 3); DigitsStep(922337203, 6);
    DigitsStep(9223372036, 8); DigitsStep(92233720368, 5); DigitsStep(922337203685, 4);
  }

  lemma MinimumDigits16()
    ensures Digits(10, 9223372036854775) == Digits(10, 9223372036854) + "775"
  {
    DigitsStep(9223372036854, 7); DigitsStep(92233720368547, 7); DigitsStep(922337203685477, 5);
  }

  lemma MinimumDigits19()
    ensures Digits(10, 9223372036854775808) == Digits(10, 9223372036854) + "775808"
  {
    MinimumDigits16();
    DigitsStep(9223372036854775, 8); DigitsStep(92233720368547758, 0); DigitsStep(922337203685477580, 8);
  }

  // ---------------------------------------------------------------------------------------
  // The round trip.

  /** Horner's rule. */
  function Horner(radix: Radix, acc: int, ds: string): int
    requires AllDigits(16, ds)
    decreases |ds|
  {
    if ds == [] then acc else Horner(radix, Next(radix, acc, ds[0]), ds[1..])
  }

  lemma {:induction false} HornerAppend(radix: Radix, acc: int, ds: string, c: char)
    requires IsHexDigit(c) && AllDigits(16, ds)
    ensures Horner(radix, acc, ds + [c]) == Next(radix, Horner(radix, acc, ds), c)
    decreases |ds|
  {
    if ds != [] {
      HornerAppend(radix, Next(radix, acc, ds[0]), ds[1..], c);
      assert (ds + [c])[1..] == ds[1..] + [c];
    } else {
      assert [] + [c] == [c] && [c][1..] == [];
    }
  }

  lemma {:induction false} HornerGrows(radix: Radix, acc: nat, ds: string)
    requires AllDigits(16, ds)
    ensures Horner(radix, acc, ds) >= acc
    ensures ds != [] ==> acc <= Next(radix, acc, ds[0]) <= Horner(radix, acc, ds)
    decreases |ds|
  {
    if ds != [] {
      HornerGrows(radix, Next(radix, acc, ds[0]), ds[1..]);
    }
  }

  lemma GatherStep(radix: Radix, acc: nat, c: char, s: string)
    requires IsRadixDigit(radix, c) && acc <= Next(radix, acc, c) <= MAX_INT
    ensures Gather(radix, acc, [c] + s) == Gather(radix, Next(radix, acc, c), s)
  {
    assert ([c] + s)[1..] == s;
  }

  /** As long as the value fits, the digit loop computes it, whatever comes next. */
  lemma {:induction false} GatherPrefix(radix: Radix, acc: nat, ds: string, rest: string)
    requires AllDigits(radix, ds) && AllDigits(16, ds)
    requires Horner(radix, acc, ds) <= MAX_INT
    ensures Gather(radix, acc, ds + rest) == Gather(radix, Horner(radix, acc, ds), rest)
    decreases |ds|
  {
    if ds == [] {
      assert ds + rest == rest;
    } else {
      var tail := ds[1..] + rest;
      assert ds + rest == [ds[0]] + tail;
      HornerGrows(radix, acc, ds);
      GatherStep(radix, acc, ds[0], tail);
      GatherPrefix(radix, Next(radix, acc, ds[0]), ds[1..], rest);
    }
  }

  lemma GatherExact(radix: Radix, ds: string)
    requires AllDigits(radix, ds) && AllDigits(16, ds)
    requires Horner(radix, 0, ds) <= MAX_INT
    ensures Gather(radix, 0, ds) == Some((Horner(radix, 0, ds), ""))
  {
    GatherPrefix(radix, 0, ds, "");
    assert ds + "" == ds;
  }

  lemma {:induction false} GatherGrows(radix: Radix, acc: int, s: string)
    ensures Gather(radix, acc, s).Some? ==> Gather(radix, acc, s).value.0 >= acc
    decreases |s|
  {
    if s != [] && IsRadixDigit(radix, s[0]) {
      var next := Wrap(Next(radix, acc, s[0]));
      if next >= acc {
        GatherGrows(radix, next, s[1..]);
      }
    }
  }

  lemma {:induction false} HornerDigits(radix: Radix, v: nat)
    ensures Horner(radix, 0, Digits(radix, v)) == v
    decreases v
  {
    if v > 0 {
      var (q, d) := Split(radix, v);
      HornerDigits(radix, q);
      HornerAppend(radix, 0, Digits(radix, q), DigitChar(d));
      SplitNext(radix, v);
    }
  }

  lemma SplitNext(radix: Radix, v: nat)
    ensures Next(radix, Split(radix, v).0, DigitChar(Split(radix, v).1)) == v
  {
  }

  lemma {:induction false} HornerLowHex(v: nat, n: nat)
    ensures 0 <= Horner(16, 0, LowHex(v, n))
    ensures Shifted(v, n) == 0 ==> Horner(16, 0, LowHex(v, n)) == v
    decreases n
  {
    if n > 0 {
      HornerLowHex(v / 16, n - 1);
      HornerAppend(16, 0, LowHex(v / 16, n - 1), DigitChar(v % 16));
    }
  }

  lemma {:induction false} LowHexSplit(v: int, n: nat, m: nat)
    ensures LowHex(v, n + m) == LowHex(Shifted(v, m), n) + LowHex(v, m)
    decreases m
  {
    if m > 0 {
      LowHexSplit(v / 16, n, m - 1);
    }
  }

  lemma {:induction false} ShiftedPlus(v: int, n: nat, m: nat)
    ensures Shifted(v, n + m) == Shifted(Shifted(v, m), n)
    decreases m
  {
    if m > 0 {
      ShiftedPlus(v / 16, n, m - 1);
    }
  }

  /** The digits after 0x, as one number. */
  function HexDigitsOf(v: int): string {
    if (v / HALF) % HALF == 0 then LowHex(v, 8) else LowHex(v, 16)
  }

  lemma HexDigitsShown(v: int)
    requires 0 < v <= MAX_INT
    ensures Render(v, Hex) == "0x" + HexDigitsOf(v)
  {
    LowHexSplit(v, 8, 8);
    ShiftedEight(v);
  }

  lemma ShiftedSixteen(v: int)
    requires 0 <= v <= MAX_INT
    ensures Shifted(v, 16) == 0
  {
    ShiftedEight(v);
    ShiftedPlus(v, 8, 8);
    ShiftedEight(v / HALF);
  }

  lemma HexDigitsRead(v: int)
    requires 0 < v <= MAX_INT
    ensures Horner(16, 0, HexDigitsOf(v)) == v
  {
    var n := if (v / HALF) % HALF == 0 then 8 else 16;
    assert HexDigitsOf(v) == LowHex(v, n);
    ShiftedEight(v);
    ShiftedSixteen(v);
    HornerLowHex(v, n);
  }

  /** Decimal digits without a leading zero reach the decimal loop. */
  lemma ParseDecimal(ds: string)
    requires ds != [] && AllDigits(10, ds) && ds[0] != '0'
    ensures ParseInteger(ds) == Finish(false, Gather(10, 0, ds))
    ensures ParseInteger("-" + ds) == Finish(true, Gather(10, 0, ds))
  {
    RadixDigitsHaveNoNul(10, ds);
    assert IsDigit(ds[0]) && SkipSpace(ds) == ds;
    ParseNegated(ds);
  }

  lemma ParseNegated(ds: string)
    requires ds != [] && AllDigits(10, ds) && ds[0] != '0'
    ensures ParseInteger("-" + ds) == Finish(true, Gather(10, 0, ds))
  {
    RadixDigitsHaveNoNul(10, ds);
    var negated := "-" + ds;
    assert negated[0] == '-' && negated[1..] == ds;
    assert IsDigit(ds[0]) && SkipSpace(negated) == negated;
  }

  lemma DecimalReads(v: int)
    requires 0 < v <= MAX_INT
    ensures ParseInteger(Render(v, Default)) == Some(v)
    ensures ParseInteger(Render(-v, Default)) == Some(-v)
  {
    var ds := Digits(10, v);
    HornerDigits(10, v);
    GatherExact(10, ds);
    ParseDecimal(ds);
  }

  /** Which values survive the trip to text and back. */
  predicate Survives(v: int, format: Format) {
    if format.Default? then v != MIN_INT else v >= 0
  }

  /** A number with a radix prefix reaches the loop of that radix. */
  lemma ParseHex(ds: string)
    requires ds != [] && AllDigits(16, ds)
    ensures ParseInteger("0x" + ds) == Finish(false, Gather(16, 0, ds))
  {
    var s := "0x" + ds;
    assert s[2..] == ds;
    RadixDigitsHaveNoNul(16, ds);
    assert s != "0" && IsHexDigit(s[2]);
  }

  lemma ParseOctal(ds: string)
    requires ds != [] && AllDigits(8, ds)
    ensures ParseInteger("0" + ds) == Finish(false, Gather(8, 0, ds))
  {
    var s := "0" + ds;
    assert s[1..] == ds;
    RadixDigitsHaveNoNul(8, ds);
  }

  lemma ZeroReads(format: Format)
    ensures ParseInteger(Render(0, format)) == Some(0)
  {
    if format.Hex? {
      assert Gather(16, 0, "0") == Some((0, "")) by { GatherStep(16, 0, '0', ""); assert "0" + "" == "0"; }
      ParseHex("0");
    }
  }

  lemma PrefixedReads(v: int)
    requires 0 < v <= MAX_INT
    ensures ParseInteger(Render(v, Hex)) == ParseInteger(Render(v, Octal)) == Some(v)
  {
    var ds := HexDigitsOf(v);
    HexDigitsShown(v);
    HexDigitsRead(v);
    GatherExact(16, ds);
    ParseHex(ds);
    ds := Digits(8, v);
    HornerDigits(8, v);
    GatherExact(8, ds);
    ParseOctal(ds);
  }

  /** One digit too many: the accumulator wraps to a negative number, which the loop notices. */
  lemma GatherOverflows(acc: int)
    requires acc == 922337203685477580
    ensures Gather(10, acc, "8") == None
  {
  }

  lemma MinimumIsRejected()
    ensures ParseInteger(Render(MIN_INT, Default)) == None
  {
    var q := 922337203685477580;
    var ds := Digits(10, q);
    var all := Digits(10, -MIN_INT);
    assert all == ds + "8" by { DigitsStep(q, 8); }
    assert Gather(10, 0, all) == None by {
      HornerDigits(10, q);
      GatherPrefix(10, 0, ds, "8");
      GatherOverflows(q);
    }
    ParseDecimal(all);
  }

  /** A negative value shown in hexadecimal or octal is never read back: without a minus sign
      the digit loops only produce values that are not negative. */
  lemma NegativeIsLost(v: int, format: Format)
    requires MIN_INT <= v < 0 && !format.Default?
    ensures ParseInteger(Render(v, format)) != Some(v)
  {
    if format.Hex? {
      var high, low := LowHex(v / HALF, 8), LowHex(v, 8);
      var ds := if (v / HALF) % HALF == 0 then low else high + low;
      assert Render(v, Hex) == "0x" + ds;
      ParseHex(ds);
      GatherGrows(16, 0, ds);
    }
  }

  /** string_to_integer inverts integer_to_string exactly on the values that Survives lists. */
  lemma RoundTripIff(v: int, format: Format)
    requires InRange(v)
    ensures ParseInteger(Render(v, format)) == Some(v) <==> Survives(v, format)
  {
    if v == 0 {
      ZeroReads(format);
    } else if format.Default? {
      if v == MIN_INT { MinimumIsRejected(); } else { DecimalReads(if v < 0 then -v else v); }
    } else if v > 0 {
      PrefixedReads(v);
    } else {
      NegativeIsLost(v, format);
    }
  }

  // ---------------------------------------------------------------------------------------
  // Numerals.

  /** Digits taken one by one come to the number that they write. */
  lemma {:induction false} HornerIsNumber(radix: Radix, w: string, ds: seq<nat>)
    requires Writes(w, radix, ds)
    ensures AllDigits(radix, w) && AllDigits(16, w) && Horner(radix, 0, w) == NumberOf(radix, ds)
    decreases |w|
  {
    AreDigits(w, radix, ds);
    if w != "" {
      var (init, last) := (w[..|w| - 1], w[|w| - 1]);
      assert w == init + [last];
      HornerIsNumber(radix, init, ds[..|ds| - 1]);
      HornerAppend(radix, 0, init, last);
    }
  }
}
