/** Which texts are integers, and what integers look like as text. */
module Numbers {
  import opened Wrappers
  import opened Ascii
  import opened Word64
  import opened Syntax
  import opened Numerals
  import opened Integers

  // ---------------------------------------------------------------------------------------
  // Ways of writing an integer.

  /** A written integer: white space, signs, the prefix of a radix, and digits. */
  datatype Numeral = Numeral(space: string, sign: string, prefix: string, word: string, radix: Radix, digits: seq<nat>)
  {
    function Text(): string {
      space + (sign + (prefix + word))
    }

    predicate Negative() {
      sign != "" && sign[|sign| - 1] == '-'
    }

    /** The number that the digits write, without any width. */
    function Magnitude(): nat {
      NumberOf(radix, digits)
    }
  }

  /** A plus sign may come before a minus sign. There may be no digits at all after the signs, and
      a zero may start a decimal number unless an octal digit comes next. */
  predicate IsNumeral(n: Numeral) {
    AllSpaces(n.space) && n.sign in ["", "+", "-", "+-"] && Writes(n.word, n.radix, n.digits) && HasPrefix(n)
  }

  predicate HasPrefix(n: Numeral) {
    if n.radix == 16 then n.prefix in ["0x", "0X"] && n.word != ""
    else if n.radix == 8 then n.prefix == "0" && n.word != ""
    else n.prefix == "" && (|n.digits| > 1 && n.digits[0] == 0 ==> n.digits[1] >= 8)
  }

  /** No digit makes the number smaller, if numbers are kept in a word. */
  predicate Climbs(radix: Radix, ds: seq<nat>) {
    forall i | 0 <= i < |ds| :: Wrap(NumberOf(radix, ds[..i])) <= Wrap(NumberOf(radix, ds[..i + 1]))
  }

  function ValueOf(n: Numeral): int {
    if n.Negative() then -Wrap(n.Magnitude()) else Wrap(n.Magnitude())
  }

  /** The text is all of the data, or all of it before a NUL. */
  predicate TextOf(data: string, text: string) {
    '\0' !in text && text <= data && (|text| == |data| || data[|text|] == '\0')
  }

  // ---------------------------------------------------------------------------------------
  // Digits.

  lemma NextIsCongruent(radix: Radix, acc: int, a: int, c: char)
    requires IsHexDigit(c) && (acc - a) % MODULUS == 0
    ensures (Wrap(Next(radix, acc, c)) - Next(radix, a, c)) % MODULUS == 0
  {
    WrapIsCongruent(Next(radix, acc, c));
    Multiples(radix, acc, a, DigitValue(c), Wrap(Next(radix, acc, c)));
  }

  lemma Multiples(radix: Radix, acc: int, a: int, d: int, x: int)
    requires (acc - a) % MODULUS == 0 && (x - (radix * acc + d)) % MODULUS == 0
    ensures (x - (radix * a + d)) % MODULUS == 0
  {
    var u := acc - a;
    TimesRadix(u);
    var v := if radix == 8 then 8 * u else if radix == 10 then 10 * u else 16 * u;
    AddMultiples(x - (radix * acc + d), v);
    assert v == radix * acc - radix * a;
  }

  lemma TimesRadix(u: int)
    requires u % MODULUS == 0
    ensures (8 * u) % MODULUS == 0 && (10 * u) % MODULUS == 0 && (16 * u) % MODULUS == 0
  {
    var k := u / MODULUS;
    assert 8 * u == MODULUS * (8 * k) && 10 * u == MODULUS * (10 * k) && 16 * u == MODULUS * (16 * k);
  }

  lemma NextWraps(radix: Radix, a: int, c: char)
    requires IsHexDigit(c)
    ensures Wrap(Next(radix, Wrap(a), c)) == Wrap(Next(radix, a, c))
  {
    WrapIsCongruent(a);
    NextIsCongruent(radix, Wrap(a), a, c);
    OneWord(Wrap(Next(radix, Wrap(a), c)), Next(radix, a, c));
  }

  /** No digit from the k-th on makes the number smaller. */
  predicate ClimbsFrom(radix: Radix, ds: seq<nat>, k: nat) {
    forall i | k <= i < |ds| :: Wrap(NumberOf(radix, ds[..i])) <= Wrap(NumberOf(radix, ds[..i + 1]))
  }

  lemma PrefixStep(radix: Radix, w: string, ds: seq<nat>, k: nat)
    requires Writes(w, radix, ds) && k < |w|
    ensures IsRadixDigit(radix, w[k])
    ensures NumberOf(radix, ds[..k + 1]) == Next(radix, NumberOf(radix, ds[..k]), w[k])
  {
    StandsFor(w[k], ds[k]);
    assert ds[..k + 1][..k] == ds[..k];
  }

  /** The digit loop takes all the digits if the number climbs, and gives up otherwise. */
  lemma {:induction false} GatherIs(radix: Radix, w: string, ds: seq<nat>, k: nat)
    requires Writes(w, radix, ds) && k <= |w|
    ensures Gather(radix, Wrap(NumberOf(radix, ds[..k])), w[k..])
         == if ClimbsFrom(radix, ds, k) then Some((Wrap(NumberOf(radix, ds)), "")) else None
    decreases |w| - k
  {
    if k == |w| {
      assert ds[..k] == ds && w[k..] == "";
    } else {
      PrefixStep(radix, w, ds, k);
      NextWraps(radix, NumberOf(radix, ds[..k]), w[k]);
      assert w[k..][0] == w[k] && w[k..][1..] == w[k + 1..];
      GatherIs(radix, w, ds, k + 1);
    }
  }

  lemma GatherAll(radix: Radix, w: string, ds: seq<nat>)
    requires Writes(w, radix, ds)
    ensures Gather(radix, 0, w) == if Climbs(radix, ds) then Some((Wrap(NumberOf(radix, ds)), "")) else None
  {
    assert ds[..0] == [] && w[0..] == w;
    GatherIs(radix, w, ds, 0);
  }

  /** A number that climbs never has a negative word. */
  lemma {:induction false} ClimbsUp(radix: Radix, ds: seq<nat>)
    requires Climbs(radix, ds)
    ensures Wrap(NumberOf(radix, ds)) >= 0
    decreases |ds|
  {
    if ds != [] {
      var init := ds[..|ds| - 1];
      forall i | 0 <= i < |init|
        ensures Wrap(NumberOf(radix, init[..i])) <= Wrap(NumberOf(radix, init[..i + 1]))
      {
        assert init[..i] == ds[..i] && init[..i + 1] == ds[..i + 1];
      }
      ClimbsUp(radix, init);
      assert ds[..|ds|] == ds && ds[..|ds| - 1 + 1] == ds;
    }
  }

  function Outcome(negative: bool, radix: Radix, ds: seq<nat>): Option<int> {
    var v := Wrap(NumberOf(radix, ds));
    if Climbs(radix, ds) then Some(if negative then -v else v) else None
  }

  lemma FinishIs(negative: bool, radix: Radix, w: string, ds: seq<nat>)
    requires Writes(w, radix, ds)
    ensures Finish(negative, Gather(radix, 0, w)) == Outcome(negative, radix, ds)
  {
    GatherAll(radix, w, ds);
    if Climbs(radix, ds) {
      ClimbsUp(radix, ds);
    }
  }

  /** A number that fits climbs. */
  lemma {:induction false} SmallClimbs(radix: Radix, ds: seq<nat>)
    requires NumberOf(radix, ds) <= MAX_INT
    ensures Climbs(radix, ds) && Wrap(NumberOf(radix, ds)) == NumberOf(radix, ds)
  {
    forall i | 0 <= i < |ds|
      ensures Wrap(NumberOf(radix, ds[..i])) <= Wrap(NumberOf(radix, ds[..i + 1]))
    {
      PrefixesAreLess(radix, ds, i);
      PrefixesAreLess(radix, ds, i + 1);
      assert ds[..i + 1][..i] == ds[..i];
      PrefixesAreLess(radix, ds[..i + 1], i);
    }
  }

  lemma {:induction false} PrefixesAreLess(radix: Radix, ds: seq<nat>, i: nat)
    requires i <= |ds|
    ensures NumberOf(radix, ds[..i]) <= NumberOf(radix, ds)
    decreases |ds|
  {
    if i == |ds| {
      assert ds[..i] == ds;
    } else {
      PrefixesAreLess(radix, ds[..|ds| - 1], i);
      assert ds[..|ds| - 1][..i] == ds[..i];
    }
  }

  // ---------------------------------------------------------------------------------------
  // What is read.

  lemma {:induction false} SkipsSpace(space: string, rest: string)
    requires AllSpaces(space) && (rest == "" || rest[0] !in SPACES)
    ensures SkipSpace(space + rest) == rest
  {
    if space == "" {
      assert space + rest == rest;
      assert rest != "" ==> !IsSpace(rest[0]) by { if rest != "" { SpacesAre(rest[0]); } }
    } else {
      SpacesAre(space[0]);
      assert (space + rest)[1..] == space[1..] + rest;
      SkipsSpace(space[1..], rest);
    }
  }

  lemma DigitIsNoSign(n: Numeral)
    requires IsNumeral(n)
    ensures var s := n.prefix + n.word; s != "" ==> IsDigit(s[0]) || (n.radix == 16 && s[0] == '0')
    ensures '\0' !in n.prefix + n.word
  {
    AreDigits(n.word, n.radix, n.digits);
  }

  lemma UnsignedIs(n: Numeral, negative: bool)
    requires IsNumeral(n)
    ensures ParseUnsigned(negative, n.prefix + n.word) == Outcome(negative, n.radix, n.digits)
  {
    FinishIs(negative, n.radix, n.word, n.digits);
    AreDigits(n.word, n.radix, n.digits);
    if n.radix == 16 {
      UnsignedHex(n.prefix, n.word);
    } else if n.radix == 8 {
      UnsignedOctal(n.word);
    } else {
      UnsignedDecimal(n, negative);
    }
  }

  lemma UnsignedHex(prefix: string, w: string)
    requires prefix in ["0x", "0X"] && w != "" && IsHexDigit(w[0])
    ensures forall negative :: ParseUnsigned(negative, prefix + w) == Finish(negative, Gather(16, 0, w))
  {
    var s := prefix + w;
    assert s[2..] == w && s[2] == w[0];
    assert prefix == "0x" || prefix == "0X";
    assert s[0] == '0' && (s[1] == 'x' || s[1] == 'X') && s != "0";
  }

  lemma UnsignedOctal(w: string)
    requires w != "" && IsOctalDigit(w[0])
    ensures forall negative :: ParseUnsigned(negative, "0" + w) == Finish(negative, Gather(8, 0, w))
  {
    var s := "0" + w;
    assert s[1..] == w;
  }

  lemma UnsignedDecimal(n: Numeral, negative: bool)
    requires IsNumeral(n) && n.radix == 10
    ensures ParseUnsigned(negative, n.prefix + n.word) == Finish(negative, Gather(10, 0, n.word))
  {
    var w := n.word;
    AreDigits(w, 10, n.digits);
    assert n.prefix + w == w;
    assert |w| > 0 ==> Stands(w[0], n.digits[0]);
    assert |w| > 1 ==> Stands(w[1], n.digits[1]);
    if w == "0" {
      LoneZero(n.digits);
      FinishIs(negative, 10, w, n.digits);
    }
  }

  lemma LoneZero(ds: seq<nat>)
    requires Writes("0", 10, ds)
    ensures NumberOf(10, ds) == 0
  {
    StandsFor('0', ds[0]);
    assert ds == [0];
  }

  lemma SignedIs(n: Numeral)
    requires IsNumeral(n)
    ensures ParseSigned(n.sign + (n.prefix + n.word)) == ParseUnsigned(n.Negative(), n.prefix + n.word)
  {
    var body := n.prefix + n.word;
    var s := n.sign + body;
    DigitIsNoSign(n);
    assert n.sign == "" ==> s == body;
    assert n.sign == "+" || n.sign == "-" ==> s[1..] == body;
    assert n.sign == "+-" ==> s[1] == '-' && s[1..][0] == '-' && s[1..][1..] == body;
  }

  lemma NumeralHasNoNul(n: Numeral)
    requires IsNumeral(n)
    ensures '\0' !in n.Text()
  {
    DigitIsNoSign(n);
    assert '\0' !in SPACES;
  }

  /** A written integer is read as its value, unless a digit makes its word smaller. */
  lemma NumeralIsRead(n: Numeral)
    requires IsNumeral(n)
    ensures ParseInteger(n.Text()) == if Climbs(n.radix, n.digits) then Some(ValueOf(n)) else None
  {
    var body := n.prefix + n.word;
    calc {
      ParseInteger(n.Text());
      { SpaceGoes(n); }
      ParseSigned(n.sign + body);
      { SignedIs(n); }
      ParseUnsigned(n.Negative(), body);
      { UnsignedIs(n, n.Negative()); }
      Outcome(n.Negative(), n.radix, n.digits);
      { OutcomeIs(n); }
      if Climbs(n.radix, n.digits) then Some(ValueOf(n)) else None;
    }
  }

  lemma OutcomeIs(n: Numeral)
    ensures Outcome(n.Negative(), n.radix, n.digits) == if Climbs(n.radix, n.digits) then Some(ValueOf(n)) else None
  {
  }

  lemma SpaceGoes(n: Numeral)
    requires IsNumeral(n)
    ensures ParseInteger(n.Text()) == ParseSigned(n.sign + (n.prefix + n.word))
  {
    NumeralHasNoNul(n);
    NoSpaceStarts(n);
    SkipsSpace(n.space, n.sign + (n.prefix + n.word));
  }

  lemma NoSpaceStarts(n: Numeral)
    requires IsNumeral(n)
    ensures var s := n.sign + (n.prefix + n.word); s != "" ==> s[0] !in SPACES
  {
    DigitIsNoSign(n);
    var s := n.sign + (n.prefix + n.word);
    if s != "" {
      SpacesAre(s[0]);
      assert n.sign == "" ==> s == n.prefix + n.word;
    }
  }

  /** An integer that fits is read as the number that its digits write, with its sign. */
  lemma FittingIsRead(n: Numeral)
    requires IsNumeral(n) && n.Magnitude() <= MAX_INT
    ensures ParseInteger(n.Text()) == Some(if n.Negative() then 0 - n.Magnitude() else n.Magnitude())
  {
    SmallClimbs(n.radix, n.digits);
    NumeralIsRead(n);
  }

  // ---------------------------------------------------------------------------------------
  // Whatever is read was written.

  lemma {:induction false} GatheredAreDigits(radix: Radix, acc: int, w: string)
    requires Gather(radix, acc, w).Some? && Gather(radix, acc, w).value.1 == ""
    ensures AllDigits(radix, w)
    decreases |w|
  {
    if w != "" {
      GatheredAreDigits(radix, Wrap(Next(radix, acc, w[0])), w[1..]);
      assert forall i | 0 < i < |w| :: w[i] == w[1..][i - 1];
    }
  }

  /** The radix of a text without signs and white space, and where its digits start. */
  function StartOf(s: string): (r: (Radix, nat))
    ensures r.1 <= |s|
  {
    if |s| > 1 && s[0] == '0' && (s[1] == 'x' || s[1] == 'X') then (16, 2)
    else if |s| > 1 && s[0] == '0' && IsOctalDigit(s[1]) then (8, 1)
    else (10, 0)
  }

  lemma UnsignedWasWritten(s: string, negative: bool) returns (radix: Radix, k: nat, ds: seq<nat>)
    requires ParseUnsigned(negative, s).Some?
    ensures (radix, k) == StartOf(s) && Writes(s[k..], radix, ds)
    ensures HasPrefix(Numeral("", "", s[..k], s[k..], radix, ds))
  {
    radix, k := StartOf(s).0, StartOf(s).1;
    var w := s[k..];
    assert s == "0" ==> w == "0";
    if s != "0" {
      assert Finish(negative, Gather(radix, 0, w)).Some? by { if k == 0 { assert w == s; } }
      GatheredAreDigits(radix, 0, w);
    }
    ds := DigitsOf(w);
    WritesItsDigits(w, radix);
    assert k == 0 ==> w == s && s[..k] == "";
    assert k == 1 ==> s[..k] == "0";
    assert k == 2 ==> s[..k] == "0x" || s[..k] == "0X";
  }

  lemma {:induction false} SpaceIsSkipped(s: string) returns (k: nat)
    ensures k <= |s| && AllSpaces(s[..k]) && s[k..] == SkipSpace(s)
  {
    k := 0;
    if s != "" && IsSpace(s[0]) {
      SpacesAre(s[0]);
      k := SpaceIsSkipped(s[1..]);
      assert s[1..][k..] == s[k + 1..] && s[..k + 1] == [s[0]] + s[1..][..k];
      k := k + 1;
    }
  }

  lemma SignsAreSkipped(s: string) returns (sign: string, rest: string)
    ensures s == sign + rest && sign in ["", "+", "-", "+-"]
    ensures ParseSigned(s) == ParseUnsigned(sign != "" && sign[|sign| - 1] == '-', rest)
  {
    var plus := s != "" && s[0] == '+';
    var s' := if plus then s[1..] else s;
    var minus := s' != "" && s'[0] == '-';
    rest := if minus then s'[1..] else s';
    sign := if plus && minus then "+-" else if plus then "+" else if minus then "-" else "";
    assert minus ==> s' == ['-'] + rest;
    assert plus ==> s == ['+'] + s';
    assert plus && minus ==> s == ['+'] + (['-'] + rest);
  }

  lemma {:induction false} CStringIs(data: string, text: string)
    ensures TextOf(data, text) <==> CString(data) == text
    decreases |data|
  {
    if data != "" && data[0] != '\0' && (text == "" || text[0] == data[0]) {
      var tail := if text == "" then "" else text[1..];
      CStringIs(data[1..], tail);
      assert text != "" ==> text == [text[0]] + tail;
      assert data == [data[0]] + data[1..];
    }
  }

  lemma ReadWasWritten(data: string) returns (n: Numeral)
    requires ParseInteger(data).Some?
    ensures IsNumeral(n) && TextOf(data, n.Text())
  {
    var s := CString(data);
    CStringIs(data, s);
    var k := SpaceIsSkipped(s);
    var sign, body := SignsAreSkipped(s[k..]);
    var radix, j, ds := UnsignedWasWritten(body, sign != "" && sign[|sign| - 1] == '-');
    n := Numeral(s[..k], sign, body[..j], body[j..], radix, ds);
    JoinsParts(s, k, sign, body, j);
    assert HasPrefix(Numeral("", "", body[..j], body[j..], radix, ds)) ==> HasPrefix(n);
  }

  lemma JoinsParts(s: string, k: nat, sign: string, body: string, j: nat)
    requires k <= |s| && j <= |body| && s[k..] == sign + body
    ensures s == s[..k] + (sign + (body[..j] + body[j..]))
  {
    assert body == body[..j] + body[j..];
    assert s == s[..k] + s[k..];
  }

  /** A text is read as an integer exactly if it is a way of writing it, and no digit makes its
      word smaller. */
  lemma ReadsIff(data: string, v: int)
    ensures ParseInteger(data) == Some(v)
       <==> exists n :: IsNumeral(n) && TextOf(data, n.Text()) && Climbs(n.radix, n.digits) && v == ValueOf(n)
  {
    if n :| IsNumeral(n) && TextOf(data, n.Text()) && Climbs(n.radix, n.digits) && v == ValueOf(n) {
      SameText(data, n);
      NumeralIsRead(n);
    }
    if ParseInteger(data) == Some(v) {
      var n := ReadWasWritten(data);
      SameText(data, n);
      NumeralIsRead(n);
    }
  }

  lemma SameText(data: string, n: Numeral)
    requires IsNumeral(n) && TextOf(data, n.Text())
    ensures ParseInteger(data) == ParseInteger(n.Text())
  {
    CStringIs(data, n.Text());
    NumeralHasNoNul(n);
  }

  // ---------------------------------------------------------------------------------------
  // What is shown.

  predicate InCapitals(w: string) {
    forall i | 0 <= i < |w| :: w[i] in CAPITALS
  }

  lemma DigitCharIs(d: nat)
    requires d < 16
    ensures DigitChar(d) == CAPITALS[d]
  {
  }

  lemma AppendsDigit(radix: Radix, w: string, ds: seq<nat>, d: nat)
    requires Writes(w, radix, ds) && d < radix
    ensures Writes(w + [CAPITALS[d]], radix, ds + [d])
    ensures NumberOf(radix, ds + [d]) == radix * NumberOf(radix, ds) + d
  {
    assert (ds + [d])[..|ds|] == ds;
  }

  /** Digits that write a positive number, without leading zeros. */
  lemma {:induction false} DigitsShown(radix: Radix, v: nat) returns (ds: seq<nat>)
    ensures Writes(Digits(radix, v), radix, ds) && NumberOf(radix, ds) == v && InCapitals(Digits(radix, v))
    decreases v
  {
    ds := [];
    if v > 0 {
      var (q, d) := Split(radix, v);
      ds := DigitsShown(radix, q);
      AppendsDigit(radix, Digits(radix, q), ds, d);
      DigitCharIs(d);
      SplitNext(radix, v);
      ds := ds + [d];
    }
  }

  /** n hexadecimal digits write the value but for a multiple of the n-th power of 16. */
  lemma {:induction false} LowHexShown(v: int, n: nat) returns (ds: seq<nat>, k: int)
    ensures Writes(LowHex(v, n), 16, ds) && InCapitals(LowHex(v, n)) && NumberOf(16, ds) < Power(16, n)
    ensures NumberOf(16, ds) == v + Scaled(k, n)
    decreases n
  {
    ds, k := [], -v;
    if n > 0 {
      ds, k := LowHexShown(v / 16, n - 1);
      AppendsDigit(16, LowHex(v / 16, n - 1), ds, v % 16);
      DigitCharIs(v % 16);
      ds := ds + [v % 16];
    }
  }

  lemma HexPowers()
    ensures Power(16, 8) == HALF && Power(16, 16) == MODULUS
  {
    assert Power(16, 4) == 0x1_0000;
    assert Power(16, 8) == 0x1_0000_0000;
    assert Power(16, 12) == 0x1_0000_0000_0000;
  }

  lemma HalfWord(v: int, k: int, x: nat)
    requires x < HALF && x == v + k * HALF
    ensures (v / HALF) % HALF == 0 ==> x == v % MODULUS
  {
    assert v / HALF == -k;
    if (v / HALF) % HALF == 0 {
      assert v == MODULUS * (v / HALF / HALF) + x;
    }
  }

  lemma WholeWord(v: int, k: int, x: nat)
    requires x < MODULUS && x == v + k * MODULUS
    ensures x == v % MODULUS && ((v / HALF) % HALF != 0 ==> x >= HALF)
  {
    if x < HALF {
      assert v == HALF * (-k * HALF) + x;
      assert v / HALF == HALF * -k;
    }
  }

  lemma HexShown(v: int) returns (w: string, ds: seq<nat>)
    requires InRange(v) && v != 0
    ensures Render(v, Hex) == "0x" + w && InCapitals(w) && Writes(w, 16, ds)
    ensures NumberOf(16, ds) == v % MODULUS && |w| == if v % MODULUS < HALF then 8 else 16
  {
    if (v / HALF) % HALF == 0 {
      w, ds := ShortHexShown(v);
    } else {
      w, ds := LongHexShown(v);
    }
  }

  lemma ShortHexShown(v: int) returns (w: string, ds: seq<nat>)
    requires InRange(v) && v != 0 && (v / HALF) % HALF == 0
    ensures Render(v, Hex) == "0x" + w && InCapitals(w) && Writes(w, 16, ds)
    ensures NumberOf(16, ds) == v % MODULUS < HALF && |w| == 8
  {
    var k;
    w := LowHex(v, 8);
    ds, k := LowHexShown(v, 8);
    HexPowers();
    ScaledEight(k);
    HalfWord(v, k, NumberOf(16, ds));
  }

  lemma LongHexShown(v: int) returns (w: string, ds: seq<nat>)
    requires InRange(v) && v != 0 && (v / HALF) % HALF != 0
    ensures Render(v, Hex) == "0x" + w && InCapitals(w) && Writes(w, 16, ds)
    ensures NumberOf(16, ds) == v % MODULUS >= HALF && |w| == 16
  {
    var k;
    w := LowHex(v, 16);
    ds, k := LowHexShown(v, 16);
    LongHexText(v);
    HexPowers();
    ScaledSixteen(k);
    WholeWord(v, k, NumberOf(16, ds));
  }

  lemma LongHexText(v: int)
    requires InRange(v) && v != 0 && (v / HALF) % HALF != 0
    ensures Render(v, Hex) == "0x" + LowHex(v, 16)
  {
    LowHexSplit(v, 8, 8);
    ShiftedEight(v);
    assert "0x" + LowHex(v / HALF, 8) + LowHex(v, 8) == "0x" + (LowHex(v / HALF, 8) + LowHex(v, 8));
  }

  lemma ScaledSixteen(k: int)
    ensures Scaled(k, 16) == k * MODULUS
  {
    assert Scaled(k, 4) == k * 0x1_0000;
    assert Scaled(k, 8) == k * 0x1_0000_0000;
    assert Scaled(k, 12) == k * 0x1_0000_0000_0000;
  }

  /** Shown in decimal, an integer is its sign and the digits of its magnitude without leading
      zeros. In octal there is a zero in front and nothing of a negative number, and in hexadecimal
      there are the 8 or 16 capital digits of its word. */
  lemma ShownAs(v: int, format: Format) returns (w: string, ds: seq<nat>)
    requires InRange(v) && v != 0
    ensures InCapitals(w) && Writes(w, if format.Hex? then 16 else if format.Octal? then 8 else 10, ds)
    ensures format.Default? ==>
              && Render(v, format) == (if v < 0 then "-" else "") + w && ds != [] && ds[0] != 0
              && NumberOf(10, ds) == if v < 0 then -v else v
    ensures format.Octal? ==>
              && Render(v, format) == "0" + w && (ds != [] ==> ds[0] != 0)
              && NumberOf(8, ds) == if v < 0 then 0 else v
    ensures format.Hex? ==>
              && Render(v, format) == "0x" + w && NumberOf(16, ds) == v % MODULUS
              && |w| == if v % MODULUS < HALF then 8 else 16
  {
    match format
    case Hex => w, ds := HexShown(v);
    case Octal => w, ds := UnpaddedShown(8, if v < 0 then 0 else v);
    case Default => w, ds := UnpaddedShown(10, if v < 0 then -v else v);
  }

  lemma UnpaddedShown(radix: Radix, v: nat) returns (w: string, ds: seq<nat>)
    ensures w == Digits(radix, v) && InCapitals(w) && Writes(w, radix, ds) && NumberOf(radix, ds) == v
    ensures if v == 0 then ds == [] else ds != [] && ds[0] != 0
  {
    w := Digits(radix, v);
    ds := DigitsShown(radix, v);
    assert w != "" ==> Stands(w[0], ds[0]);
  }
}
