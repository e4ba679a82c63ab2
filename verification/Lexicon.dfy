/** Which texts are tokens: every way of writing each token, and what may follow it. */
module Lexicon {
  import opened Wrappers
  import opened Ascii
  import opened Word64
  import opened Syntax
  import opened Numerals
  import opened Lexical
  import Integers
  import opened Numbers
  import Spelling

  // ---------------------------------------------------------------------------------------
  // The characters.

  predicate InWord(c: char) {
    'a' <= c <= 'z' || 'A' <= c <= 'Z' || '0' <= c <= '9' || c == '_'
  }

  /** The characters that may come right after a number, besides white space. */
  const AFTER_NUMBER: string := "-+*/!~?%<>=&^|:()"

  /** The names that stand for operators and functions. */
  const RESERVED: seq<string> :=
    ["to", "implies", "xor", "eqv", "is_substr", "is_xsubstr", "is_loaded", "is_active", "is_enabled", "get_data",
     "version_cmp"]

  // ---------------------------------------------------------------------------------------
  // Writing tokens.

  predicate IsWord(w: string) {
    w != "" && !('0' <= w[0] <= '9') && forall i | 0 <= i < |w| :: InWord(w[i])
  }

  /** The digits stand for this number, if it is kept in a word. */
  predicate Denotes(v: int, radix: nat, ds: seq<nat>) {
    InRange(v) && (v - NumberOf(radix, ds)) % MODULUS == 0
  }

  /** The number is kept in a word, and no digit makes the word smaller. */
  predicate IsWordOf(v: int, ds: seq<nat>) {
    Climbs(10, ds) && v == Wrap(NumberOf(10, ds))
  }

  lemma DecimalIsRead(w: string, v: int, ds: seq<nat>)
    requires w != "" && (w[0] == '0' ==> |w| == 1) && Writes(w, 10, ds)
    ensures Integers.ParseInteger(w) == Some(v) <==> IsWordOf(v, ds)
  {
    var n := Numeral("", "", "", w, 10, ds);
    assert ds[0] == 0 ==> Stands(w[0], 0);
    NumeralIsRead(n);
    assert "" + ("" + ("" + w)) == w;
  }

  ghost predicate WritesInteger(w: string, v: int, format: Format) {
    match format
    case Hex =>
      exists ds: seq<nat> {:trigger Denotes(v, 16, ds)} ::
        |w| > 2 && w[0] == '0' && w[1] in "xX" && Writes(w[2..], 16, ds) && Denotes(v, 16, ds)
    case Octal =>
      exists ds: seq<nat> {:trigger Denotes(v, 8, ds)} ::
        |w| > 1 && w[0] == '0' && Writes(w[1..], 8, ds) && Denotes(v, 8, ds)
    case Default =>
      exists ds: seq<nat> {:trigger Writes(w, 10, ds)} ::
        w != "" && (w[0] == '0' ==> |w| == 1) && Writes(w, 10, ds) && IsWordOf(v, ds)
  }

  /** The letters of one-character escapes, in the order of the codes from 7 on that they stand for. */
  const ESCAPES: string := "abtnvfr"

  predicate StartsIn(s: string, chars: string) {
    s != "" && s[0] in chars
  }

  /** The body of a string constant that stands for a text. */
  ghost predicate WritesText(body: string, text: string)
    decreases |body|
  {
    if body == "" then text == ""
    else if body[0] == '"' then false
    else if body[0] != '\\' then text != "" && text[0] == body[0] && WritesText(body[1..], text[1..])
    else |body| > 1 && WritesEscape(body[1..], text)
  }

  /** The same from the character after a backslash on. */
  ghost predicate WritesEscape(body: string, text: string)
    requires body != ""
    decreases |body|, 0
  {
    if body[0] in ESCAPES then
      text != "" && (exists i | 0 <= i < |ESCAPES| :: ESCAPES[i] == body[0] && text[0] as int == 7 + i)
      && WritesText(body[1..], text[1..])
    else if body[0] == 'x' then
      exists k: nat, m: nat, ds: seq<nat> {:trigger IsHexEscape(body, k, m, ds)} ::
        IsHexEscape(body, k, m, ds) && |text| > 1 && text[0] as int == NumberOf(16, ds) % 256 && text[1] == ' '
        && WritesText(body[m..], text[2..])
    else if body[0] == '\n' then
      exists m: nat {:trigger IsLineEscape(body, m)} ::
        IsLineEscape(body, m) && text != "" && text[0] == ' ' && WritesText(body[m..], text[1..])
    else if body[0] in DIGITS[..8] then
      exists k: nat, ds: seq<nat> {:trigger IsOctalEscape(body, k, ds)} ::
        IsOctalEscape(body, k, ds) && text != "" && text[0] as int == NumberOf(8, ds) % 256
        && WritesText(body[k..], text[1..])
    else text != "" && text[0] == body[0] && WritesText(body[1..], text[1..])
  }

  /** Hexadecimal digits up to k and white space up to m, as much of both as there is. */
  predicate IsHexEscape(body: string, k: nat, m: nat, ds: seq<nat>) {
    && 1 < k <= m <= |body| && Writes(body[1..k], 16, ds) && AllSpaces(body[k..m])
    && !StartsIn(body[m..], SPACES) && (m == k ==> !StartsIn(body[m..], CAPITALS + SMALL))
  }

  predicate IsLineEscape(body: string, m: nat) {
    0 < m <= |body| && AllSpaces(body[1..m]) && !StartsIn(body[m..], SPACES)
  }

  predicate IsOctalEscape(body: string, k: nat, ds: seq<nat>) {
    0 < k <= |body| && Writes(body[..k], 8, ds) && !StartsIn(body[k..], DIGITS[..8])
  }

  /** The text is a way of writing the token. */
  ghost predicate WritesToken(w: string, t: Token) {
    match t
    case TReference(name) => w == name && IsWord(w) && w !in RESERVED
    case TString(text) => |w| > 1 && w[0] == '"' && w[|w| - 1] == '"' && WritesText(w[1..|w| - 1], text)
    case TInteger(v, format) => WritesInteger(w, v, format)
    case TBad => false
    case _ => w == Spelling.Spell(t)
  }

  /** What may come right after the token. */
  predicate Follows(t: Token, rest: string) {
    match t
    case TReference(_) => rest == "" || !InWord(rest[0])
    case TFunction(_) => rest == "" || !InWord(rest[0])
    case TRange => rest == "" || !InWord(rest[0])
    case TInteger(_, _) => rest == "" || StartsIn(rest, SPACES + AFTER_NUMBER)
    case TExclamation => !StartsIn(rest, "=")
    case TBinary(op) =>
      if op.Xor? || op.Eqv? || op.Implies? then rest == "" || !InWord(rest[0])
      else if op.LessThan? then !StartsIn(rest, "<=")
      else if op.GreaterThan? then !StartsIn(rest, ">=")
      else if op.BitAnd? then !StartsIn(rest, "&")
      else if op.BitOr? then !StartsIn(rest, "|")
      else true
    case _ => true
  }

  // ---------------------------------------------------------------------------------------
  // Runs of characters.

  /** From position p on the data are w and then the rest. */
  predicate Stand(data: string, p: nat, w: string, rest: string) {
    p <= |data| && data[p..] == w + rest
  }

  lemma StandsAt(data: string, p: nat, w: string, rest: string)
    requires Stand(data, p, w, rest)
    ensures p + |w| <= |data| && data[p + |w|..] == rest && data[p..p + |w|] == w
    ensures forall i | 0 <= i < |w| :: data[p + i] == w[i]
    ensures if rest == "" then p + |w| == |data| else p + |w| < |data| && data[p + |w|] == rest[0]
  {
    forall i | 0 <= i < |w|
      ensures data[p + i] == w[i]
    {
      assert data[p..][i] == w[i];
    }
    assert data[p..][|w|..] == rest;
    assert rest != "" ==> data[p..][|w|] == rest[0];
  }

  lemma StandsFurther(data: string, p: nat, c: char, w: string, rest: string)
    requires Stand(data, p, [c] + w, rest)
    ensures p < |data| && data[p] == c && Stand(data, p + 1, w, rest)
  {
    StandsAt(data, p, [c] + w, rest);
    assert ([c] + w)[0] == c && [c] + w + rest == [c] + (w + rest);
    assert data[p + 1..] == data[p..][1..];
  }

  lemma {:induction false} DigitsEndIs(data: string, radix: Integers.Radix, p: nat, w: string, rest: string)
    requires Stand(data, p, w, rest) && Integers.AllDigits(radix, w)
    requires rest == "" || !Integers.IsRadixDigit(radix, rest[0])
    ensures DigitsEnd(data, radix, p) == p + |w|
    decreases |w|
  {
    StandsAt(data, p, w, rest);
    if w != "" {
      assert w == [w[0]] + w[1..];
      StandsFurther(data, p, w[0], w[1..], rest);
      DigitsEndIs(data, radix, p + 1, w[1..], rest);
    }
  }

  lemma {:induction false} DigitsValueIs(data: string, radix: Integers.Radix, acc: int, a: int, p: nat, w: string,
                                         rest: string)
    requires Stand(data, p, w, rest) && Integers.AllDigits(radix, w) && Integers.AllDigits(16, w)
    requires rest == "" || !Integers.IsRadixDigit(radix, rest[0])
    requires (acc - a) % MODULUS == 0 && InRange(acc)
    ensures InRange(DigitsValue(data, radix, acc, p))
    ensures (DigitsValue(data, radix, acc, p) - Integers.Horner(radix, a, w)) % MODULUS == 0
    decreases |w|
  {
    StandsAt(data, p, w, rest);
    if w != "" {
      assert w == [w[0]] + w[1..];
      StandsFurther(data, p, w[0], w[1..], rest);
      var next := Integers.Next(radix, acc, w[0]);
      NextIsCongruent(radix, acc, a, w[0]);
      DigitsValueIs(data, radix, Wrap(next), Integers.Next(radix, a, w[0]), p + 1, w[1..], rest);
    }
  }

  /** Digits that write a number are read as it. */
  lemma {:induction false} ReadsDigits(data: string, radix: Integers.Radix, p: nat, w: string, ds: seq<nat>,
                                       rest: string)
    requires Stand(data, p, w, rest) && Writes(w, radix, ds) && (rest == "" || !Integers.IsRadixDigit(radix, rest[0]))
    ensures DigitsEnd(data, radix, p) == p + |w| && Denotes(DigitsValue(data, radix, 0, p), radix, ds)
  {
    Integers.HornerIsNumber(radix, w, ds);
    DigitsEndIs(data, radix, p, w, rest);
    DigitsValueIs(data, radix, 0, 0, p, w, rest);
  }

  lemma {:induction false} SpacesEndIs(data: string, p: nat, w: string, rest: string)
    requires Stand(data, p, w, rest) && AllSpaces(w) && !StartsIn(rest, SPACES)
    ensures SkipSpaces(data, p) == p + |w|
    decreases |w|
  {
    StandsAt(data, p, w, rest);
    if w != "" {
      SpacesAre(w[0]);
      assert w == [w[0]] + w[1..];
      StandsFurther(data, p, w[0], w[1..], rest);
      SpacesEndIs(data, p + 1, w[1..], rest);
    } else if rest != "" {
      SpacesAre(rest[0]);
    }
  }

  lemma {:induction false} WordEndIs(data: string, p: nat, w: string, rest: string)
    requires Stand(data, p, w, rest) && (forall i | 0 <= i < |w| :: InWord(w[i])) && (rest == "" || !InWord(rest[0]))
    ensures NameEnd(data, p) == p + |w|
    decreases |w|
  {
    StandsAt(data, p, w, rest);
    if w != "" {
      assert w == [w[0]] + w[1..];
      StandsFurther(data, p, w[0], w[1..], rest);
      WordEndIs(data, p + 1, w[1..], rest);
    }
  }

  // ---------------------------------------------------------------------------------------
  // String constants are read as they are written.

  /** The same of a part of w. */
  lemma StandsWithin(data: string, p: nat, w: string, i: nat, j: nat, rest: string)
    requires Stand(data, p, w, rest) && i <= j <= |w|
    ensures Stand(data, p + i, w[i..j], w[j..] + rest)
  {
    assert w + rest == w[..i] + (w[i..j] + (w[j..] + rest));
    assert data[p + i..] == data[p..][i..];
  }

  lemma StandsAfter(data: string, p: nat, w: string, n: nat, rest: string)
    requires Stand(data, p, w, rest) && n <= |w|
    ensures Stand(data, p + n, w[n..], rest)
  {
    StandsWithin(data, p, w, n, |w|, rest);
    assert w[|w|..] + rest == rest && w[n..|w|] == w[n..];
  }

  /** An escape: the piece of text that it adds, and how many characters it takes. */
  ghost predicate IsEscape(data: string, p: nat, body: string, text: string, n: nat, piece: string) {
    && p <= |data| && 0 < n <= |body| && piece <= text
    && ReadEscape(data, p) == Escape(piece, p + n - 1) && WritesText(body[n..], text[|piece|..])
  }

  lemma {:induction false} ReadsEscape(data: string, p: nat, body: string, text: string, end: string)
      returns (n: nat, piece: string)
    requires Stand(data, p, body, end) && end != "" && end[0] == '"' && body != "" && WritesEscape(body, text)
    ensures IsEscape(data, p, body, text, n, piece)
  {
    StandsAt(data, p, body, end);
    assert data[p + 0] == body[0];
    DigitsAre(body[0]);
    if body[0] in ESCAPES {
      n, piece := 1, text[..1];
      LetterEscape(body[0], text[0]);
    } else if body[0] == 'x' {
      n, piece := ReadsHexEscape(data, p, body, text, end);
    } else if body[0] == '\n' {
      n, piece := ReadsLineEscape(data, p, body, text, end);
    } else if body[0] in DIGITS[..8] {
      n, piece := ReadsOctalEscape(data, p, body, text, end);
    } else {
      n, piece := 1, text[..1];
    }
  }

  lemma LetterEscape(c: char, d: char)
    requires c in ESCAPES && exists i | 0 <= i < |ESCAPES| :: ESCAPES[i] == c && d as int == 7 + i
    ensures d == if c == 'a' then 7 as char else if c == 'b' then 8 as char else if c == 't' then '\t'
                 else if c == 'n' then '\n' else if c == 'v' then 11 as char else if c == 'f' then 12 as char
                 else '\r'
  {
  }

  lemma {:induction false} ReadsHexEscape(data: string, p: nat, body: string, text: string, end: string)
      returns (n: nat, piece: string)
    requires Stand(data, p, body, end) && end != "" && end[0] == '"'
    requires body != "" && body[0] == 'x' && WritesEscape(body, text)
    ensures IsEscape(data, p, body, text, n, piece)
  {
    var k, m, ds := HexParts(body, text);
    n, piece := m, [text[0], ' '];
    HexIsRead(data, p, body, k, m, ds, text[0], end);
  }

  lemma {:induction false} HexIsRead(data: string, p: nat, body: string, k: nat, m: nat, ds: seq<nat>, c: char,
                                     end: string)
    requires Stand(data, p, body, end) && end != "" && end[0] == '"' && body != "" && body[0] == 'x'
    requires IsHexEscape(body, k, m, ds) && c as int == NumberOf(16, ds) % 256
    ensures p <= |data| && ReadEscape(data, p) == Escape([c, ' '], p + m - 1)
  {
    HexRun(data, p, body, k, m, ds, end);
    SpacesRun(data, p, body, k, m, end);
    var (q, v) := (p + k, DigitsValue(data, 16, 0, p + 1));
    KeepsByte(v, 16, ds, c);
    HexPiece(data, p, q, p + m, v, c);
  }

  lemma HexParts(body: string, text: string) returns (k: nat, m: nat, ds: seq<nat>)
    requires body != "" && body[0] == 'x' && WritesEscape(body, text)
    ensures IsHexEscape(body, k, m, ds) && |text| > 1 && text[0] as int == NumberOf(16, ds) % 256
    ensures [text[0], ' '] <= text && WritesText(body[m..], text[2..])
  {
    k, m, ds :|
      IsHexEscape(body, k, m, ds) && |text| > 1 && text[0] as int == NumberOf(16, ds) % 256 && text[1] == ' '
      && WritesText(body[m..], text[2..]);
  }

  lemma HexPiece(data: string, p: nat, q: nat, r: nat, v: int, c: char)
    requires p + 1 < |data| && data[p] == 'x' && IsHexDigit(data[p + 1])
    requires DigitsEnd(data, 16, p + 1) == q <= |data| && SkipSpaces(data, q) == r
    requires DigitsValue(data, 16, 0, p + 1) == v && Truncate(v) == c
    ensures ReadEscape(data, p) == Escape([c, ' '], r - 1)
  {
  }

  lemma {:induction false} HexRun(data: string, p: nat, body: string, k: nat, m: nat, ds: seq<nat>, end: string)
    requires Stand(data, p, body, end) && IsHexEscape(body, k, m, ds) && end != "" && end[0] == '"'
    ensures p + 1 < |data| && data[p] == body[0] && IsHexDigit(data[p + 1])
    ensures DigitsEnd(data, 16, p + 1) == p + k && p + k <= |data|
    ensures Denotes(DigitsValue(data, 16, 0, p + 1), 16, ds)
  {
    StandsAt(data, p, body, end);
    assert data[p + 0] == body[0] && data[p + 1] == body[1] == body[1..k][0];
    AreDigits(body[1..k], 16, ds);
    StandsWithin(data, p, body, 1, k, end);
    HexEnds(body, k, m, ds, end);
    ReadsDigits(data, 16, p + 1, body[1..k], ds, body[k..] + end);
  }

  lemma {:induction false} SpacesRun(data: string, p: nat, body: string, k: nat, m: nat, end: string)
    requires Stand(data, p, body, end) && k <= m <= |body| && AllSpaces(body[k..m]) && !StartsIn(body[m..], SPACES)
    requires end != "" && end[0] == '"'
    ensures p + k <= |data| && SkipSpaces(data, p + k) == p + m
  {
    StandsWithin(data, p, body, k, m, end);
    NotSpaces(body[m..], end);
    SpacesEndIs(data, p + k, body[k..m], body[m..] + end);
  }

  lemma HexEnds(body: string, k: nat, m: nat, ds: seq<nat>, end: string)
    requires IsHexEscape(body, k, m, ds) && end != "" && end[0] == '"'
    ensures !Integers.IsRadixDigit(16, (body[k..] + end)[0])
  {
    var c := (body[k..] + end)[0];
    CapitalsOrSmall(c);
    SpacesAre(c);
    assert c == if k < |body| then body[k] else '"';
    assert k < m ==> body[k..m][0] == c;
  }

  lemma NotSpaces(tail: string, end: string)
    requires !StartsIn(tail, SPACES) && end != "" && end[0] == '"'
    ensures !StartsIn(tail + end, SPACES)
  {
    SpacesAre('"');
    assert tail == "" ==> tail + end == end;
  }

  /** A character keeps the low byte of a number. */
  lemma KeepsByte(v: int, radix: nat, ds: seq<nat>, c: char)
    requires Denotes(v, radix, ds) && c as int == NumberOf(radix, ds) % 256
    ensures Truncate(v) == c
  {
    var n := NumberOf(radix, ds);
    assert v == n + 256 * (0x100_0000_0000_0000 * ((v - n) / MODULUS));
  }

  lemma {:induction false} ReadsLineEscape(data: string, p: nat, body: string, text: string, end: string)
      returns (n: nat, piece: string)
    requires Stand(data, p, body, end) && end != "" && end[0] == '"'
    requires body != "" && body[0] == '\n' && WritesEscape(body, text)
    ensures IsEscape(data, p, body, text, n, piece)
  {
    var m: nat :| IsLineEscape(body, m) && text != "" && text[0] == ' ' && WritesText(body[m..], text[1..]);
    n, piece := m, text[..1];
    LineRun(data, p, body, m, end);
    assert piece == " ";
  }

  lemma {:induction false} LineRun(data: string, p: nat, body: string, m: nat, end: string)
    requires Stand(data, p, body, end) && IsLineEscape(body, m) && end != "" && end[0] == '"'
    ensures p + 1 <= |data| && data[p] == body[0] && SkipSpaces(data, p + 1) == p + m
  {
    StandsAt(data, p, body, end);
    assert data[p + 0] == body[0];
    SpacesRun(data, p, body, 1, m, end);
  }

  lemma {:induction false} ReadsOctalEscape(data: string, p: nat, body: string, text: string, end: string)
      returns (n: nat, piece: string)
    requires Stand(data, p, body, end) && end != "" && end[0] == '"'
    requires body != "" && body[0] in DIGITS[..8] && WritesEscape(body, text)
    ensures IsEscape(data, p, body, text, n, piece)
  {
    var k: nat, ds: seq<nat> :|
      IsOctalEscape(body, k, ds) && text != "" && text[0] as int == NumberOf(8, ds) % 256
      && WritesText(body[k..], text[1..]);
    n, piece := k, text[..1];
    OctalRun(data, p, body, k, ds, end);
    KeepsByte(DigitsValue(data, 8, 0, p), 8, ds, text[0]);
    assert piece == [text[0]];
    DigitsAre(body[0]);
  }

  lemma {:induction false} OctalRun(data: string, p: nat, body: string, k: nat, ds: seq<nat>, end: string)
    requires Stand(data, p, body, end) && IsOctalEscape(body, k, ds) && end != "" && end[0] == '"'
    ensures p < |data| && data[p] == body[0] && DigitsEnd(data, 8, p) == p + k
    ensures Denotes(DigitsValue(data, 8, 0, p), 8, ds)
  {
    StandsAt(data, p, body, end);
    assert data[p + 0] == body[0];
    StandsWithin(data, p, body, 0, k, end);
    assert body[0..k] == body[..k];
    var c := (body[k..] + end)[0];
    assert c == if k < |body| then body[k] else '"';
    DigitsAre(c);
    ReadsDigits(data, 8, p, body[..k], ds, body[k..] + end);
  }

  /** The body of a string constant and the closing quote are read as the text that it stands for. */
  lemma {:induction false} ReadsText(data: string, p: nat, body: string, text: string, before: string, rest: string)
    requires Stand(data, p, body, "\"" + rest) && WritesText(body, text)
    ensures ReadString(data, before, p) == Some((before + text, p + |body| + 1))
    decreases |body|, 1
  {
    var end := "\"" + rest;
    StandsAt(data, p, body, end);
    if body == "" {
      assert before + text == before;
    } else if body[0] != '\\' {
      assert data[p + 0] == body[0];
      StandsAfter(data, p, body, 1, end);
      ReadsText(data, p + 1, body[1..], text[1..], before + [body[0]], rest);
      assert before + [body[0]] + text[1..] == before + text;
    } else {
      assert data[p + 0] == body[0];
      ReadsBackslash(data, p, body, text, before, rest);
    }
  }

  lemma {:induction false} ReadsBackslash(data: string, p: nat, body: string, text: string, before: string,
                                          rest: string)
    requires Stand(data, p, body, "\"" + rest) && WritesText(body, text) && body != "" && body[0] == '\\'
    ensures ReadString(data, before, p) == Some((before + text, p + |body| + 1))
    decreases |body|, 0
  {
    var (end, tail) := ("\"" + rest, body[1..]);
    StandsAt(data, p, body, end);
    assert data[p + 0] == body[0];
    StandsAfter(data, p, body, 1, end);
    var n, piece := ReadsEscape(data, p + 1, tail, text, end);
    StandsAfter(data, p + 1, tail, n, end);
    ReadsText(data, p + 1 + n, tail[n..], text[|piece|..], before + piece, rest);
    TakesEscape(data, p, before, piece, n);
    JoinsText(before, piece, text);
  }

  lemma JoinsText(before: string, piece: string, text: string)
    requires piece <= text
    ensures before + piece + text[|piece|..] == before + text
  {
    assert text == piece + text[|piece|..];
  }

  lemma TakesEscape(data: string, p: nat, before: string, piece: string, n: nat)
    requires p < |data| && data[p] == '\\' && n > 0 && ReadEscape(data, p + 1) == Escape(piece, p + n)
    ensures p + 1 + n <= |data| && ReadString(data, before, p) == ReadString(data, before + piece, p + 1 + n)
  {
  }

  // ---------------------------------------------------------------------------------------
  // Tokens are scanned as they are written.

  lemma ReservedAre(w: string)
    ensures NameToken(w) == TReference(w) <==> w !in RESERVED
  {
    var names := RESERVED;
    assert names[0] == "to" && names[1] == "implies" && names[2] == "xor" && names[3] == "eqv";
    assert names[4] == "is_substr" && names[5] == "is_xsubstr" && names[6] == "is_loaded" && names[7] == "is_active";
    assert names[8] == "is_enabled" && names[9] == "get_data" && names[10] == "version_cmp";
  }

  lemma {:induction false} ScansWord(data: string, p: nat, w: string, rest: string)
    requires Stand(data, p, w, rest) && IsWord(w) && (rest == "" || !InWord(rest[0]))
    ensures p < |data| && !IsSpace(data[p]) && ScanHere(data, p) == Lexeme(NameToken(w), p, p + |w|)
  {
    StandsAt(data, p, w, rest);
    assert data[p + 0] == w[0] && InWord(w[0]);
    WordEndIs(data, p, w, rest);
  }

  lemma {:induction false} ScansText(data: string, p: nat, w: string, text: string, rest: string)
    requires Stand(data, p, w, rest) && WritesToken(w, TString(text))
    ensures p < |data| && data[p] == '"' && ScanHere(data, p) == Lexeme(TString(text), p, p + |w|)
  {
    var body := w[1..|w| - 1];
    StandsAt(data, p, w, rest);
    assert data[p + 0] == w[0];
    StandsWithin(data, p, w, 1, |w| - 1, rest);
    assert w[|w| - 1..] + rest == "\"" + rest;
    ReadsText(data, p + 1, body, text, "", rest);
    assert "" + text == text;
  }

  lemma AfterNumbers(rest: string)
    requires rest == "" || StartsIn(rest, SPACES + AFTER_NUMBER)
    ensures rest != "" ==> (IsSpace(rest[0]) || rest[0] in AFTER_NUMBER) && !IsHexDigit(rest[0])
    ensures rest != "" ==> !InWord(rest[0]) && rest[0] != '.' && rest[0] != 'x' && rest[0] != 'X'
  {
    if rest != "" {
      var c := rest[0];
      SpacesAre(c);
      if c in AFTER_NUMBER {
        NoneIsDigit(c);
      }
    }
  }

  lemma NoneIsDigit(c: char)
    requires c in AFTER_NUMBER
    ensures !IsSpace(c) && !InWord(c) && c != '.' && !IsHexDigit(c)
  {
  }

  /** Only one number in range is denoted. */
  lemma DenotesOne(v: int, v': int, radix: nat, ds: seq<nat>)
    requires Denotes(v, radix, ds) && Denotes(v', radix, ds)
    ensures v == v'
  {
    OneWord(v, NumberOf(radix, ds));
    OneWord(v', NumberOf(radix, ds));
  }

  lemma NumberEnds(data: string, p: nat, w: string, rest: string)
    requires Stand(data, p, w, rest) && (rest == "" || StartsIn(rest, SPACES + AFTER_NUMBER))
    ensures p + |w| <= |data| && EndsNumber(data, p + |w|)
    ensures p + |w| < |data| ==> var c := data[p + |w|]; !IsHexDigit(c) && c != '.' && c != 'x' && c != 'X'
    ensures rest != "" ==> !IsHexDigit(rest[0])
  {
    StandsAt(data, p, w, rest);
    AfterNumbers(rest);
  }

  lemma {:induction false} ScansHex(data: string, p: nat, w: string, v: int, ds: seq<nat>, rest: string)
    requires Stand(data, p, w, rest) && (rest == "" || StartsIn(rest, SPACES + AFTER_NUMBER))
    requires |w| > 2 && w[0] == '0' && w[1] in "xX" && Writes(w[2..], 16, ds) && Denotes(v, 16, ds)
    ensures p < |data| && data[p] == '0' && ReadNumber(data, p) == Some((TInteger(v, Hex), p + |w|))
  {
    NumberEnds(data, p, w, rest);
    StandsAt(data, p, w, rest);
    assert data[p + 0] == w[0] && data[p + 1] == w[1] && data[p + 2] == w[2] == w[2..][0];
    AreDigits(w[2..], 16, ds);
    StandsAfter(data, p, w, 2, rest);
    ReadsDigits(data, 16, p + 2, w[2..], ds, rest);
    DenotesOne(v, DigitsValue(data, 16, 0, p + 2), 16, ds);
  }

  lemma {:induction false} ScansOctal(data: string, p: nat, w: string, v: int, ds: seq<nat>, rest: string)
    requires Stand(data, p, w, rest) && (rest == "" || StartsIn(rest, SPACES + AFTER_NUMBER))
    requires |w| > 1 && w[0] == '0' && Writes(w[1..], 8, ds) && Denotes(v, 8, ds)
    ensures p < |data| && data[p] == '0' && ReadNumber(data, p) == Some((TInteger(v, Octal), p + |w|))
  {
    NumberEnds(data, p, w, rest);
    StandsAt(data, p, w, rest);
    assert data[p + 0] == w[0] && data[p + 1] == w[1] == w[1..][0];
    AreDigits(w[1..], 8, ds);
    StandsAfter(data, p, w, 1, rest);
    ReadsDigits(data, 8, p + 1, w[1..], ds, rest);
    DenotesOne(v, DigitsValue(data, 8, 0, p + 1), 8, ds);
  }

  lemma {:induction false} ScansDecimal(data: string, p: nat, w: string, v: int, ds: seq<nat>, rest: string)
    requires Stand(data, p, w, rest) && (rest == "" || StartsIn(rest, SPACES + AFTER_NUMBER))
    requires w != "" && (w[0] == '0' ==> |w| == 1) && Writes(w, 10, ds) && IsWordOf(v, ds)
    ensures p < |data| && IsDigit(data[p]) && ReadNumber(data, p) == Some((TInteger(v, Default), p + |w|))
  {
    BeginsDecimal(data, p, w, ds, rest);
    EndsDecimal(data, p, w, ds, rest);
    DecimalIsRead(w, v, ds);
    TakesDecimal(data, p, p + |w|, v);
  }

  /** A decimal number from p to q, by its first two characters and what comes after it. */
  predicate BeginsAsDecimal(data: string, p: nat) {
    && p < |data| && IsDigit(data[p])
    && (data[p] == '0' && p + 1 < |data| ==> data[p + 1] != 'x' && data[p + 1] != 'X' && !IsDigit(data[p + 1]))
  }

  predicate EndsAsDecimal(data: string, p: nat, q: nat) {
    && p < q <= |data| && DigitsEnd(data, 10, p) == q && EndsNumber(data, q)
    && (q < |data| ==> !IsHexDigit(data[q]) && data[q] != '.')
  }

  lemma {:induction false} EndsDecimal(data: string, p: nat, w: string, ds: seq<nat>, rest: string)
    requires Stand(data, p, w, rest) && (rest == "" || StartsIn(rest, SPACES + AFTER_NUMBER))
    requires w != "" && Writes(w, 10, ds)
    ensures EndsAsDecimal(data, p, p + |w|) && data[p..p + |w|] == w
  {
    NumberEnds(data, p, w, rest);
    StandsAt(data, p, w, rest);
    ReadsDigits(data, 10, p, w, ds, rest);
  }

  lemma {:induction false} BeginsDecimal(data: string, p: nat, w: string, ds: seq<nat>, rest: string)
    requires Stand(data, p, w, rest) && (rest == "" || StartsIn(rest, SPACES + AFTER_NUMBER))
    requires w != "" && Writes(w, 10, ds) && (w[0] == '0' ==> |w| == 1)
    ensures BeginsAsDecimal(data, p)
  {
    NumberEnds(data, p, w, rest);
    StandsAt(data, p, w, rest);
    assert data[p + 0] == w[0];
    AreDigits(w, 10, ds);
  }

  lemma TakesDecimal(data: string, p: nat, q: nat, v: int)
    requires BeginsAsDecimal(data, p) && EndsAsDecimal(data, p, q) && Integers.ParseInteger(data[p..q]) == Some(v)
    ensures ReadNumber(data, p) == Some((TInteger(v, Default), q))
  {
  }

  lemma {:induction false} ScansInteger(data: string, p: nat, w: string, v: int, format: Format, rest: string)
    requires Stand(data, p, w, rest) && (rest == "" || StartsIn(rest, SPACES + AFTER_NUMBER))
    requires WritesInteger(w, v, format)
    ensures p < |data| && !IsSpace(data[p]) && ScanHere(data, p) == Lexeme(TInteger(v, format), p, p + |w|)
  {
    match format
    case Hex =>
      var ds: seq<nat> :| |w| > 2 && w[0] == '0' && w[1] in "xX" && Writes(w[2..], 16, ds) && Denotes(v, 16, ds);
      ScansHex(data, p, w, v, ds, rest);
    case Octal =>
      var ds: seq<nat> :| |w| > 1 && w[0] == '0' && Writes(w[1..], 8, ds) && Denotes(v, 8, ds);
      ScansOctal(data, p, w, v, ds, rest);
    case Default =>
      var ds: seq<nat> :|
        w != "" && (w[0] == '0' ==> |w| == 1) && Writes(w, 10, ds) && IsWordOf(v, ds);
      ScansDecimal(data, p, w, v, ds, rest);
  }

  /** Every token, however it is written, is scanned as that token, if what follows may follow it. */
  lemma {:induction false} ScansWritten(data: string, p: nat, w: string, t: Token, rest: string)
    requires Stand(data, p, w, rest) && WritesToken(w, t) && Follows(t, rest)
    ensures p < |data| && !IsSpace(data[p]) && ScanHere(data, p) == Lexeme(t, p, p + |w|)
  {
    match t
    case TReference(name) =>
      ReservedAre(w);
      ScansWord(data, p, w, rest);
    case TString(text) => ScansText(data, p, w, text, rest);
    case TInteger(v, format) => ScansInteger(data, p, w, v, format, rest);
    case TFunction(f) =>
      FunctionIsWord(f);
      ScansWord(data, p, w, rest);
    case TRange => ScansWord(data, p, w, rest);
    case TBinary(op) => ScansBinary(data, p, w, op, rest);
    case _ => ScansMark(data, p, w, t, rest);
  }

  lemma FunctionIsWord(f: Func)
    ensures IsWord(Spelling.FunctionName(f)) && NameToken(Spelling.FunctionName(f)) == TFunction(f)
  {
  }

  lemma {:induction false} ScansBinary(data: string, p: nat, w: string, op: BinaryOp, rest: string)
    requires Stand(data, p, w, rest) && w == Spelling.OperatorText(op) && Follows(TBinary(op), rest)
    ensures p < |data| && !IsSpace(data[p]) && ScanHere(data, p) == Lexeme(TBinary(op), p, p + |w|)
  {
    if op.Xor? || op.Eqv? || op.Implies? {
      ScansWord(data, p, w, rest);
    } else {
      NextCharacters(data, p, w, rest);
    }
  }

  lemma {:induction false} ScansMark(data: string, p: nat, w: string, t: Token, rest: string)
    requires Stand(data, p, w, rest) && Follows(t, rest)
    requires t.TExclamation? || t.TTilde? || t.TQuestion? || t.TColon? || t.TComma? || t.TOpen? || t.TClose?
    requires w == Spelling.Spell(t)
    ensures p < |data| && !IsSpace(data[p]) && ScanHere(data, p) == Lexeme(t, p, p + |w|)
  {
    NextCharacters(data, p, w, rest);
  }

  lemma NextCharacters(data: string, p: nat, w: string, rest: string)
    requires Stand(data, p, w, rest) && 0 < |w| <= 2
    ensures p < |data| && data[p] == w[0]
    ensures CharAt(data, p + 1) == if |w| == 2 then Some(w[1]) else if rest == "" then None else Some(rest[0])
  {
    StandsAt(data, p, w, rest);
    assert data[p + 0] == w[0];
    assert |w| == 2 ==> data[p + 1] == w[1];
  }

  // ---------------------------------------------------------------------------------------
  // Whatever is scanned was written.

  lemma {:induction false} RunOfDigits(data: string, radix: Integers.Radix, p: nat)
    requires p <= |data|
    ensures var q := DigitsEnd(data, radix, p);
            && (forall i | p <= i < q :: Integers.IsRadixDigit(radix, data[i]))
            && (q < |data| ==> !Integers.IsRadixDigit(radix, data[q]))
    decreases |data| - p
  {
    if p < |data| && Integers.IsRadixDigit(radix, data[p]) {
      RunOfDigits(data, radix, p + 1);
    }
  }

  lemma {:induction false} RunOfSpaces(data: string, p: nat)
    requires p <= |data|
    ensures var q := SkipSpaces(data, p);
            (forall i | p <= i < q :: data[i] in SPACES) && (q < |data| ==> data[q] !in SPACES)
    decreases |data| - p
  {
    if p < |data| {
      SpacesAre(data[p]);
      if IsSpace(data[p]) {
        RunOfSpaces(data, p + 1);
      }
    }
  }

  lemma {:induction false} RunOfWord(data: string, p: nat)
    requires p <= |data|
    ensures var q := NameEnd(data, p);
            (forall i | p <= i < q :: InWord(data[i])) && (q < |data| ==> !InWord(data[q]))
    decreases |data| - p
  {
    if p < |data| && IsNameChar(data[p]) {
      RunOfWord(data, p + 1);
    }
  }

  /** A run of digits writes the number that it is read as. */
  lemma {:induction false} DigitsWereWritten(data: string, radix: Integers.Radix, p: nat) returns (ds: seq<nat>)
    requires p <= |data|
    ensures var q := DigitsEnd(data, radix, p);
            Writes(data[p..q], radix, ds) && Denotes(DigitsValue(data, radix, 0, p), radix, ds)
  {
    var q := DigitsEnd(data, radix, p);
    var w := data[p..q];
    RunOfDigits(data, radix, p);
    ds := DigitsOf(w);
    WritesItsDigits(w, radix);
    assert data[p..] == w + data[q..];
    ReadsDigits(data, radix, p, w, ds, data[q..]);
  }

  lemma FunctionWasNamed(w: string)
    requires FunctionNamed(w).Some?
    ensures Spelling.FunctionName(FunctionNamed(w).value) == w
  {
  }

  lemma {:induction false} NameWasWritten(w: string)
    requires IsWord(w)
    ensures WritesToken(w, NameToken(w))
  {
    ReservedAre(w);
    if FunctionNamed(w).Some? {
      FunctionWasNamed(w);
    }
  }

  lemma {:induction false} WordWasWritten(data: string, p: nat)
    requires p < |data| && IsNameStart(data[p])
    ensures var q := NameEnd(data, p);
            IsWord(data[p..q]) && (data[q..] == "" || !InWord(data[q..][0]))
  {
    var q := NameEnd(data, p);
    RunOfWord(data, p);
    assert data[p..q][0] == data[p];
    assert q < |data| ==> data[q..][0] == data[q];
  }

  lemma NumberEnded(data: string, q: nat)
    requires q <= |data| && EndsNumber(data, q)
    ensures data[q..] == "" || StartsIn(data[q..], SPACES + AFTER_NUMBER)
  {
    if q < |data| {
      var c := data[q];
      SpacesAre(c);
      assert data[q..][0] == c && (c in SPACES || c in AFTER_NUMBER);
    }
  }

  lemma {:induction false} NumberWasWritten(data: string, p: nat)
    requires p < |data| && IsDigit(data[p]) && ReadNumber(data, p).Some?
    ensures var (t, q) := ReadNumber(data, p).value;
            WritesToken(data[p..q], t) && (data[q..] == "" || StartsIn(data[q..], SPACES + AFTER_NUMBER))
  {
    var (t, q) := ReadNumber(data, p).value;
    NumberEnded(data, q);
    if t.format.Default? {
      DecimalWasWritten(data, p);
    } else {
      PrefixedWasWritten(data, p);
    }
  }

  lemma {:induction false} PrefixedWasWritten(data: string, p: nat)
    requires p < |data| && IsDigit(data[p]) && ReadNumber(data, p).Some?
    requires !ReadNumber(data, p).value.0.format.Default?
    ensures var (t, q) := ReadNumber(data, p).value; WritesInteger(data[p..q], t.value, t.format)
  {
    var (t, q) := ReadNumber(data, p).value;
    var w := data[p..q];
    assert w[0] == data[p];
    if t.format.Hex? {
      var ds := DigitsWereWritten(data, 16, p + 2);
      assert w[2..] == data[p + 2..q] && w[1] == data[p + 1];
      assert Denotes(t.value, 16, ds);
    } else {
      var ds := DigitsWereWritten(data, 8, p + 1);
      assert w[1..] == data[p + 1..q];
      assert Denotes(t.value, 8, ds);
    }
  }

  lemma {:induction false} DecimalIs(data: string, p: nat)
    requires p < |data| && IsDigit(data[p]) && ReadNumber(data, p).Some?
    requires ReadNumber(data, p).value.0.format.Default?
    ensures var (t, q) := ReadNumber(data, p).value;
            && q == DigitsEnd(data, 10, p) && Integers.ParseInteger(data[p..q]) == Some(t.value)
            && (data[p] == '0' && p + 1 < |data| ==> !IsDigit(data[p + 1]))
  {
  }

  lemma {:induction false} DecimalWasWritten(data: string, p: nat)
    requires p < |data| && IsDigit(data[p]) && ReadNumber(data, p).Some?
    requires ReadNumber(data, p).value.0.format.Default?
    ensures var (t, q) := ReadNumber(data, p).value; WritesInteger(data[p..q], t.value, Default)
  {
    DecimalIs(data, p);
    var (t, q) := ReadNumber(data, p).value;
    var ds := DigitsWereWritten(data, 10, p);
    RunOfDigits(data, 10, p);
    assert q > p + 1 ==> IsDigit(data[p + 1]);
    assert data[p..q][0] == data[p];
    DecimalIsRead(data[p..q], t.value, ds);
  }

  // Strings.

  /** From position p on there are these characters, and at end there is a quote. */
  predicate Body(data: string, p: nat, end: nat, body: string) {
    p <= end < |data| && data[end] == '"' && data[p..end] == body
  }

  lemma BodyAfter(data: string, p: nat, end: nat, body: string, n: nat)
    requires Body(data, p, end, body) && n <= |body|
    ensures Body(data, p + n, end, body[n..]) && (n < |body| ==> body[n] == data[p + n])
    ensures n == |body| ==> data[p + n] == '"'
  {
    assert data[p..end][n..] == data[p + n..end];
  }

  lemma BodySlice(data: string, p: nat, end: nat, body: string, i: nat, j: nat)
    requires Body(data, p, end, body) && i <= j <= |body|
    ensures body[i..j] == data[p + i..p + j]
  {
    var (whole, part) := (data[p..end], data[p + i..p + j]);
    assert |whole| == end - p;
    forall k | 0 <= k < j - i
      ensures whole[i..j][k] == part[k]
    {
      assert whole[i + k] == data[p + (i + k)];
    }
  }

  lemma {:induction false} EscapeWasWritten(data: string, p: nat, end: nat, body: string, text: string)
    requires Body(data, p, end, body) && body != "" && ReadEscape(data, p).Escape?
    requires var n := ReadEscape(data, p).last + 1 - p; n <= |body| && WritesText(body[n..], text)
    ensures WritesEscape(body, ReadEscape(data, p).text + text)
  {
    var e := ReadEscape(data, p);
    var n := e.last + 1 - p;
    BodyAfter(data, p, end, body, 0);
    DigitsAre(body[0]);
    if body[0] in ESCAPES {
      LetterWasWritten(data, p, e.text[0]);
      assert (e.text + text)[1..] == text;
    } else if body[0] == 'x' {
      HexWasWritten(data, p, end, body, n);
      PutsHex(body, n, e.text, text);
    } else if body[0] == '\n' {
      LineWasWritten(data, p, end, body, n);
      assert (e.text + text)[1..] == text;
    } else if body[0] in DIGITS[..8] {
      OctalWasWritten(data, p, end, body, n);
      PutsOctal(body, n, e.text, text);
    } else {
      assert (e.text + text)[1..] == text;
    }
  }

  lemma PutsHex(body: string, n: nat, piece: string, text: string)
    requires body != "" && body[0] == 'x' && n <= |body| && WritesText(body[n..], text)
    requires |piece| == 2 && piece[1] == ' '
    requires exists k: nat, m: nat, ds: seq<nat> {:trigger IsHexEscape(body, k, m, ds)} ::
               IsHexEscape(body, k, m, ds) && m == n && piece[0] as int == NumberOf(16, ds) % 256
    ensures WritesEscape(body, piece + text)
  {
    assert (piece + text)[2..] == text && (piece + text)[0] == piece[0] && (piece + text)[1] == ' ';
  }

  lemma PutsOctal(body: string, n: nat, piece: string, text: string)
    requires body != "" && body[0] in DIGITS[..8] && n <= |body| && WritesText(body[n..], text) && |piece| == 1
    requires exists k: nat, ds: seq<nat> {:trigger IsOctalEscape(body, k, ds)} ::
               IsOctalEscape(body, k, ds) && k == n && piece[0] as int == NumberOf(8, ds) % 256
    ensures WritesEscape(body, piece + text)
  {
    assert (piece + text)[1..] == text && (piece + text)[0] == piece[0];
  }

  lemma LetterWasWritten(data: string, p: nat, d: char)
    requires p < |data| && data[p] in ESCAPES && ReadEscape(data, p) == Escape([d], p)
    ensures exists i | 0 <= i < |ESCAPES| :: ESCAPES[i] == data[p] && d as int == 7 + i
  {
    var letters := ESCAPES;
    assert letters[0] == 'a' && letters[1] == 'b' && letters[2] == 't' && letters[3] == 'n';
    assert letters[4] == 'v' && letters[5] == 'f' && letters[6] == 'r';
  }

  lemma {:induction false} HexWasWritten(data: string, p: nat, end: nat, body: string, n: nat)
    requires Body(data, p, end, body) && body != "" && body[0] == 'x' && n <= |body|
    requires ReadEscape(data, p).Escape? && n == ReadEscape(data, p).last + 1 - p
    ensures |ReadEscape(data, p).text| == 2 && ReadEscape(data, p).text[1] == ' '
    ensures exists k: nat, m: nat, ds: seq<nat> {:trigger IsHexEscape(body, k, m, ds)} ::
              IsHexEscape(body, k, m, ds) && m == n
              && ReadEscape(data, p).text[0] as int == NumberOf(16, ds) % 256
  {
    BodyAfter(data, p, end, body, 0);
    HexEscapeIs(data, p);
    var q := DigitsEnd(data, 16, p + 1);
    var ds := DigitsWereWritten(data, 16, p + 1);
    LowByte(DigitsValue(data, 16, 0, p + 1), 16, ds);
    BodySlice(data, p, end, body, 1, q - p);
    HexIsOver(data, p, end, body, q - p, n);
    assert IsHexEscape(body, q - p, n, ds);
  }

  lemma HexEscapeIs(data: string, p: nat)
    requires p < |data| && data[p] == 'x' && ReadEscape(data, p).Escape?
    ensures p + 1 < |data|
    ensures var (q, e) := (DigitsEnd(data, 16, p + 1), ReadEscape(data, p));
            p + 1 < q && e.text == [Truncate(DigitsValue(data, 16, 0, p + 1)), ' '] && e.last + 1 == SkipSpaces(data, q)
  {
  }

  lemma {:induction false} HexIsOver(data: string, p: nat, end: nat, body: string, k: nat, n: nat)
    requires Body(data, p, end, body) && 1 < k <= n <= |body|
    requires DigitsEnd(data, 16, p + 1) == p + k && SkipSpaces(data, p + k) == p + n
    ensures AllSpaces(body[k..n]) && !StartsIn(body[n..], SPACES)
    ensures n == k ==> !StartsIn(body[n..], CAPITALS + SMALL)
  {
    BodySlice(data, p, end, body, k, n);
    BodyAfter(data, p, end, body, n);
    RunOfDigits(data, 16, p + 1);
    RunOfSpaces(data, p + k);
    if n < |body| {
      CapitalsOrSmall(data[p + n]);
    }
  }

  lemma LowByte(v: int, radix: nat, ds: seq<nat>)
    requires Denotes(v, radix, ds)
    ensures Truncate(v) as int == NumberOf(radix, ds) % 256
  {
    KeepsByte(v, radix, ds, (NumberOf(radix, ds) % 256) as char);
  }

  lemma {:induction false} LineWasWritten(data: string, p: nat, end: nat, body: string, n: nat)
    requires Body(data, p, end, body) && body != "" && body[0] == '\n' && n <= |body|
    requires ReadEscape(data, p).Escape? && n == ReadEscape(data, p).last + 1 - p
    ensures ReadEscape(data, p).text == " " && IsLineEscape(body, n)
  {
    BodyAfter(data, p, end, body, 0);
    BodyAfter(data, p, end, body, n);
    RunOfSpaces(data, p + 1);
    BodySlice(data, p, end, body, 1, n);
  }

  lemma {:induction false} OctalWasWritten(data: string, p: nat, end: nat, body: string, n: nat)
    requires Body(data, p, end, body) && body != "" && body[0] in DIGITS[..8] && n <= |body|
    requires ReadEscape(data, p).Escape? && n == ReadEscape(data, p).last + 1 - p
    ensures |ReadEscape(data, p).text| == 1
    ensures exists k: nat, ds: seq<nat> {:trigger IsOctalEscape(body, k, ds)} ::
              IsOctalEscape(body, k, ds) && k == n && ReadEscape(data, p).text[0] as int == NumberOf(8, ds) % 256
  {
    BodyAfter(data, p, end, body, 0);
    BodyAfter(data, p, end, body, n);
    DigitsAre(body[0]);
    var ds := DigitsWereWritten(data, 8, p);
    RunOfDigits(data, 8, p);
    BodySlice(data, p, end, body, 0, n);
    assert body[0..n] == body[..n];
    LowByte(DigitsValue(data, 8, 0, p), 8, ds);
    if n < |body| {
      DigitsAre(body[n]);
    }
    assert IsOctalEscape(body, n, ds);
  }

  /** The text that is read up to the closing quote was written by the characters before it. */
  lemma {:induction false} TextWasWritten(data: string, before: string, p: nat) returns (text: string)
    requires p <= |data| && ReadString(data, before, p).Some?
    ensures var (t, q) := ReadString(data, before, p).value;
            t == before + text && data[q - 1] == '"' && WritesText(data[p..q - 1], text)
    decreases |data| - p
  {
    var (t, q) := ReadString(data, before, p).value;
    if data[p] == '"' {
      text := "";
      assert before + text == before;
    } else if data[p] == '\\' {
      text := EscapedWasWritten(data, before, p);
    } else {
      var tail := TextWasWritten(data, before + [data[p]], p + 1);
      text := [data[p]] + tail;
      assert before + [data[p]] + tail == before + text;
      PutsInFront(data, p, q - 1, tail);
    }
  }

  lemma PutsInFront(data: string, p: nat, end: nat, tail: string)
    requires p < end < |data| && data[p] != '"' && data[p] != '\\' && WritesText(data[p + 1..end], tail)
    ensures WritesText(data[p..end], [data[p]] + tail)
  {
    assert data[p..end][1..] == data[p + 1..end] && ([data[p]] + tail)[1..] == tail;
  }

  lemma {:induction false} EscapedWasWritten(data: string, before: string, p: nat) returns (text: string)
    requires p < |data| && data[p] == '\\' && ReadString(data, before, p).Some?
    ensures var (t, q) := ReadString(data, before, p).value;
            t == before + text && data[q - 1] == '"' && p < q - 1 && WritesText(data[p..q - 1], text)
    decreases |data| - p, 0
  {
    var e := EscapeIsTaken(data, before, p);
    var tail := TextWasWritten(data, before + e.text, e.last + 1);
    text := e.text + tail;
    assert before + e.text + tail == before + text;
    PutsEscapeInFront(data, p, ReadString(data, before, p).value.1 - 1, tail);
  }

  lemma EscapeIsTaken(data: string, before: string, p: nat) returns (e: Escape)
    requires p < |data| && data[p] == '\\' && ReadString(data, before, p).Some?
    ensures e == ReadEscape(data, p + 1) && e.Escape? && p < e.last < |data|
    ensures ReadString(data, before, p) == ReadString(data, before + e.text, e.last + 1)
  {
    e := ReadEscape(data, p + 1);
  }

  lemma {:induction false} PutsEscapeInFront(data: string, p: nat, end: nat, tail: string)
    requires p + 1 < |data| && data[p] == '\\' && ReadEscape(data, p + 1).Escape?
    requires ReadEscape(data, p + 1).last < end < |data| && data[end] == '"'
    requires WritesText(data[ReadEscape(data, p + 1).last + 1..end], tail)
    ensures WritesText(data[p..end], ReadEscape(data, p + 1).text + tail)
  {
    var body := data[p + 1..end];
    assert Body(data, p + 1, end, body);
    BodyAfter(data, p + 1, end, body, ReadEscape(data, p + 1).last - p);
    EscapeWasWritten(data, p + 1, end, body, tail);
    PutsBackslash(data, p, end, ReadEscape(data, p + 1).text + tail);
  }

  lemma PutsBackslash(data: string, p: nat, end: nat, text: string)
    requires p + 1 < end <= |data| && data[p] == '\\' && WritesEscape(data[p + 1..end], text)
    ensures WritesText(data[p..end], text)
  {
    assert data[p..end][1..] == data[p + 1..end];
  }

  /** The characters of a lexeme are a way of writing its token, and what follows may follow it. */
  ghost predicate WasWritten(data: string, l: Lexeme) {
    l.start <= l.next <= |data| && WritesToken(data[l.start..l.next], l.token) && Follows(l.token, data[l.next..])
  }

  /** Whatever is scanned as a token was written as that token. */
  lemma {:induction false} ScannedWasWritten(data: string, p: nat)
    requires p < |data| && !IsSpace(data[p]) && !ScanHere(data, p).token.TBad?
    ensures WasWritten(data, ScanHere(data, p))
  {
    if data[p] == '"' {
      QuotedWasScanned(data, p);
    } else if IsDigit(data[p]) {
      NumberWasScanned(data, p);
    } else if IsNameStart(data[p]) {
      NameWasScanned(data, p);
    } else {
      MarkWasWritten(data, p);
    }
  }

  lemma {:induction false} QuotedWasScanned(data: string, p: nat)
    requires p < |data| && data[p] == '"' && !ScanHere(data, p).token.TBad?
    ensures WasWritten(data, ScanHere(data, p))
  {
    QuotedWasWritten(data, p);
  }

  lemma {:induction false} NumberWasScanned(data: string, p: nat)
    requires p < |data| && IsDigit(data[p]) && !ScanHere(data, p).token.TBad?
    ensures WasWritten(data, ScanHere(data, p))
  {
    NumberWasWritten(data, p);
    assert ReadNumber(data, p).value.0.TInteger?;
  }

  lemma {:induction false} NameWasScanned(data: string, p: nat)
    requires p < |data| && IsNameStart(data[p])
    ensures WasWritten(data, ScanHere(data, p))
  {
    WordWasWritten(data, p);
    var w := data[p..NameEnd(data, p)];
    NameWasWritten(w);
    NameKinds(w);
  }

  lemma NameKinds(w: string)
    ensures var t := NameToken(w);
            || t.TReference? || t.TFunction? || t.TRange?
            || (t.TBinary? && (t.op.Xor? || t.op.Eqv? || t.op.Implies?))
  {
  }

  lemma {:induction false} QuotedWasWritten(data: string, p: nat)
    requires p < |data| && data[p] == '"' && ReadString(data, "", p + 1).Some?
    ensures var (t, q) := ReadString(data, "", p + 1).value; WritesToken(data[p..q], TString(t))
  {
    var (t, q) := ReadString(data, "", p + 1).value;
    var text := TextWasWritten(data, "", p + 1);
    assert "" + text == text;
    QuotesAround(data, p, q);
  }

  lemma QuotesAround(data: string, p: nat, q: nat)
    requires p + 1 < q <= |data|
    ensures var w := data[p..q];
            |w| > 1 && w[0] == data[p] && w[|w| - 1] == data[q - 1] && w[1..|w| - 1] == data[p + 1..q - 1]
  {
    var (w, inner) := (data[p..q], data[p + 1..q - 1]);
    forall k | 0 <= k < |inner|
      ensures w[1..|w| - 1][k] == inner[k]
    {
      assert w[1 + k] == data[p + (1 + k)];
    }
    assert w[1..|w| - 1] == inner;
  }

  lemma {:induction false} MarkWasWritten(data: string, p: nat)
    requires p < |data| && Punctuation(data[p], CharAt(data, p + 1)).Some?
    ensures var (t, n) := Punctuation(data[p], CharAt(data, p + 1)).value;
            p + n <= |data| && WritesToken(data[p..p + n], t) && Follows(t, data[p + n..])
  {
    var (t, n) := Punctuation(data[p], CharAt(data, p + 1)).value;
    assert data[p..p + 1] == [data[p]];
    assert n == 2 ==> data[p..p + 2] == [data[p], data[p + 1]];
    assert p + 1 < |data| ==> data[p + 1..][0] == data[p + 1];
  }

  // ---------------------------------------------------------------------------------------
  // Whole texts.

  predicate NoneBad(ts: seq<Token>) {
    forall i | 0 <= i < |ts| :: !ts[i].TBad?
  }

  /** A token as it is written, with the white space in front. */
  datatype Piece = Piece(space: string, word: string)

  function Joined(pieces: seq<Piece>, end: string): string {
    if pieces == [] then end else pieces[0].space + (pieces[0].word + Joined(pieces[1..], end))
  }

  /** White space and a way of writing the token, which the rest may follow. It is stated as the
      absence of flaws, so that a proof takes it up only where it is about that. */
  ghost predicate GoodPiece(piece: Piece, t: Token, rest: string) {
    Flaws(piece, t, rest) == {}
  }

  datatype Flaw = BadSpace | BadWord | BadRest

  ghost function Flaws(piece: Piece, t: Token, rest: string): set<Flaw> {
    set flaw: Flaw | HasFlaw(piece, t, rest, flaw)
  }

  ghost predicate HasFlaw(piece: Piece, t: Token, rest: string, flaw: Flaw) {
    match flaw
    case BadSpace => !AllSpaces(piece.space)
    case BadWord => !WritesToken(piece.word, t)
    case BadRest => !Follows(t, rest)
  }

  lemma GoodPieceIff(piece: Piece, t: Token, rest: string)
    ensures GoodPiece(piece, t, rest) <==> AllSpaces(piece.space) && WritesToken(piece.word, t) && Follows(t, rest)
  {
    if GoodPiece(piece, t, rest) {
      assert BadSpace !in Flaws(piece, t, rest) && BadWord !in Flaws(piece, t, rest);
      assert BadRest !in Flaws(piece, t, rest);
    }
  }

  /** Pieces that write these tokens, each of which the rest may follow. */
  ghost predicate WritesAll(pieces: seq<Piece>, end: string, ts: seq<Token>)
    decreases |pieces|
  {
    if pieces == [] then ts == [] && AllSpaces(end)
    else
      && ts != [] && GoodPiece(pieces[0], ts[0], Joined(pieces[1..], end))
      && WritesAll(pieces[1..], end, ts[1..])
  }

  lemma {:induction false} ScansPiece(data: string, p: nat, piece: Piece, t: Token, rest: string)
    requires p <= |data| && data[p..] == piece.space + (piece.word + rest) && GoodPiece(piece, t, rest)
    ensures var q := p + |piece.space|;
            q + |piece.word| <= |data| && data[q + |piece.word|..] == rest && !t.TBad?
            && Scan(data, p) == Some(Lexeme(t, q, q + |piece.word|))
  {
    var q := p + |piece.space|;
    GoodPieceIff(piece, t, rest);
    StandsAt(data, p, piece.space, piece.word + rest);
    ScansWritten(data, q, piece.word, t, rest);
    StandsAt(data, q, piece.word, rest);
    SkipsTo(data, p, piece.space, piece.word + rest, q);
  }

  lemma {:induction false} SkipsTo(data: string, p: nat, space: string, rest: string, q: nat)
    requires Stand(data, p, space, rest) && AllSpaces(space) && q == p + |space| < |data| && !IsSpace(data[q])
    ensures SkipSpaces(data, p) == q
  {
    StandsAt(data, p, space, rest);
    SpacesAre(data[q]);
    SpacesEndIs(data, p, space, rest);
  }

  lemma {:induction false} TokenThenRest(data: string, p: nat, l: Lexeme)
    requires p <= |data| && Scan(data, p) == Some(l) && !l.token.TBad?
    ensures l.next <= |data| && Tokens(data, p) == [l.token] + Tokens(data, l.next)
  {
    TokensStep(data, p);
  }

  lemma {:induction false} NoneOfSpaces(data: string, p: nat)
    requires p <= |data| && AllSpaces(data[p..])
    ensures Tokens(data, p) == []
  {
    assert data[p..] == data[p..] + "";
    SpacesEndIs(data, p, data[p..], "");
    TokensStep(data, p);
  }

  lemma {:induction false} TokensOfPiece(data: string, p: nat, pieces: seq<Piece>, end: string, ts: seq<Token>)
      returns (q: nat)
    requires p <= |data| && data[p..] == Joined(pieces, end) && WritesAll(pieces, end, ts) && pieces != []
    ensures ts != [] && q <= |data| && data[q..] == Joined(pieces[1..], end) && WritesAll(pieces[1..], end, ts[1..])
    ensures !ts[0].TBad? && Tokens(data, p) == [ts[0]] + Tokens(data, q)
  {
    var start := p + |pieces[0].space|;
    q := start + |pieces[0].word|;
    ScansPiece(data, p, pieces[0], ts[0], Joined(pieces[1..], end));
    TokenThenRest(data, p, Lexeme(ts[0], start, q));
  }

  /** A text that consists of such pieces has these tokens. */
  lemma {:induction false} TokensOfWritten(data: string, p: nat, pieces: seq<Piece>, end: string, ts: seq<Token>)
    requires p <= |data| && data[p..] == Joined(pieces, end) && WritesAll(pieces, end, ts)
    ensures Tokens(data, p) == ts && NoneBad(ts)
    decreases |pieces|
  {
    if pieces == [] {
      NoneOfSpaces(data, p);
    } else {
      var q := TokensOfPiece(data, p, pieces, end, ts);
      TokensOfWritten(data, q, pieces[1..], end, ts[1..]);
      JoinsTokens(ts, Tokens(data, p), Tokens(data, q));
    }
  }

  lemma JoinsTokens(ts: seq<Token>, all: seq<Token>, rest: seq<Token>)
    requires ts != [] && !ts[0].TBad? && all == [ts[0]] + rest && rest == ts[1..] && NoneBad(ts[1..])
    ensures all == ts && NoneBad(ts)
  {
    assert forall i | 0 < i < |ts| :: ts[i] == ts[1..][i - 1];
  }

  lemma CutInThree(data: string, p: nat, q: nat, r: nat)
    requires p <= q <= r <= |data|
    ensures data[p..] == data[p..q] + (data[q..r] + data[r..])
  {
    assert data[q..] == data[q..r] + data[r..];
  }

  lemma {:induction false} PieceWasWritten(data: string, p: nat) returns (piece: Piece)
    requires p <= |data| && SkipSpaces(data, p) < |data| && !ScanHere(data, SkipSpaces(data, p)).token.TBad?
    ensures var l := ScanHere(data, SkipSpaces(data, p));
            && p < l.next <= |data| && data[p..] == piece.space + (piece.word + data[l.next..])
            && GoodPiece(piece, l.token, data[l.next..])
  {
    var q := SkipSpaces(data, p);
    var l := ScanHere(data, q);
    RunOfSpaces(data, p);
    ScannedWasWritten(data, q);
    piece := Piece(data[p..q], data[q..l.next]);
    GoodPieceIff(piece, l.token, data[l.next..]);
    CutInThree(data, p, q, l.next);
  }

  lemma FirstOf(data: string, p: nat)
    requires p <= |data| && SkipSpaces(data, p) < |data| && NoneBad(Tokens(data, p))
    ensures var l := ScanHere(data, SkipSpaces(data, p));
            && !l.token.TBad? && p < l.next <= |data| && NoneBad(Tokens(data, l.next))
            && Tokens(data, p) == [l.token] + Tokens(data, l.next)
  {
    var l := ScanHere(data, SkipSpaces(data, p));
    FirstIsGood(data, p, l);
    TokenThenRest(data, p, l);
    var (ts, rest) := (Tokens(data, p), Tokens(data, l.next));
    assert forall i | 0 <= i < |rest| :: rest[i] == ts[i + 1];
  }

  lemma FirstIsGood(data: string, p: nat, l: Lexeme)
    requires p <= |data| && Scan(data, p) == Some(l) && NoneBad(Tokens(data, p))
    ensures !l.token.TBad?
  {
    TokensStep(data, p);
    assert Tokens(data, p) != [] && Tokens(data, p)[0] == l.token;
  }

  lemma PutsPiece(piece: Piece, t: Token, pieces: seq<Piece>, end: string, ts: seq<Token>)
    requires GoodPiece(piece, t, Joined(pieces, end)) && WritesAll(pieces, end, ts)
    ensures WritesAll([piece] + pieces, end, [t] + ts)
    ensures Joined([piece] + pieces, end) == piece.space + (piece.word + Joined(pieces, end))
  {
    assert ([piece] + pieces)[1..] == pieces && ([t] + ts)[1..] == ts;
  }

  /** A text without bad data consists of pieces that write its tokens. */
  lemma {:induction false} TokensWereWritten(data: string, p: nat) returns (pieces: seq<Piece>, end: string)
    requires p <= |data| && NoneBad(Tokens(data, p))
    ensures data[p..] == Joined(pieces, end) && WritesAll(pieces, end, Tokens(data, p))
    decreases |data| - p
  {
    if SkipSpaces(data, p) == |data| {
      pieces, end := [], data[p..];
      RunOfSpaces(data, p);
      TokensStep(data, p);
    } else {
      FirstOf(data, p);
      var l := ScanHere(data, SkipSpaces(data, p));
      var piece := PieceWasWritten(data, p);
      pieces, end := TokensWereWritten(data, l.next);
      PutsPiece(piece, l.token, pieces, end, Tokens(data, l.next));
      pieces := [piece] + pieces;
    }
  }

  /** A text has certain tokens, and no bad data, exactly if it consists of pieces that write them. */
  lemma {:induction false} TokensIff(data: string, ts: seq<Token>)
    ensures Tokens(data, 0) == ts && NoneBad(ts)
       <==> exists pieces, end :: data == Joined(pieces, end) && WritesAll(pieces, end, ts)
  {
    assert data[0..] == data;
    if pieces, end :| data == Joined(pieces, end) && WritesAll(pieces, end, ts) {
      TokensOfWritten(data, 0, pieces, end, ts);
    }
    if Tokens(data, 0) == ts && NoneBad(ts) {
      var pieces, end := TokensWereWritten(data, 0);
    }
  }
}
