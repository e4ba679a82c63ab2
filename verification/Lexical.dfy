/** The tokens of a string, as functions of the position where scanning starts. */
module Lexical {
  import opened Wrappers
  import opened Ascii
  import opened Word64
  import opened Syntax
  import Integers

  /** A token with the position of its first character and the position after its last. */
  datatype Lexeme = Lexeme(token: Token, start: nat, next: nat)

  function CharAt(data: string, p: nat): Option<char> {
    if p < |data| then Some(data[p]) else None
  }

  predicate Is(data: string, p: nat, c: char) {
    p < |data| && data[p] == c
  }

  /** Positions never go past the end of the data. */
  function After(data: string, p: nat): (q: nat)
    requires p <= |data|
    ensures p <= q <= |data|
  {
    if p < |data| then p + 1 else p
  }

  function SkipSpaces(data: string, p: nat): (q: nat)
    requires p <= |data|
    ensures p <= q <= |data| && (q < |data| ==> !IsSpace(data[q]))
    decreases |data| - p
  {
    if p < |data| && IsSpace(data[p]) then SkipSpaces(data, p + 1) else p
  }

  // ---------------------------------------------------------------------------------------
  // String constants.

  /** The end of a run of hexadecimal or octal digits. */
  function DigitsEnd(data: string, radix: Integers.Radix, p: nat): (q: nat)
    requires p <= |data|
    ensures p <= q <= |data|
    ensures p < |data| && Integers.IsRadixDigit(radix, data[p]) ==> p < q
    decreases |data| - p
  {
    if p < |data| && Integers.IsRadixDigit(radix, data[p]) then DigitsEnd(data, radix, p + 1) else p
  }

  /** The value of a run of digits, in 64-bit arithmetic without any overflow check. */
  function DigitsValue(data: string, radix: Integers.Radix, acc: int, p: nat): int
    requires p <= |data|
    decreases |data| - p
  {
    if p < |data| && Integers.IsRadixDigit(radix, data[p]) then
      DigitsValue(data, radix, Wrap(Integers.Next(radix, acc, data[p])), p + 1)
    else acc
  }

  function Truncate(v: int): char {
    (v % 256) as char
  }

  /** What an escape adds to the string, and the position of its last character. */
  datatype Escape = Escape(text: string, last: nat) | BadEscape

  /** The escape whose first character, after the backslash, is at p. A hexadecimal escape runs
      on into the code for an escaped newline: white space after it is dropped and a space added. */
  function ReadEscape(data: string, p: nat): (e: Escape)
    requires p <= |data|
    ensures e.Escape? ==> p <= e.last < |data|
  {
    if p == |data| then BadEscape else
    var c := data[p];
    if c == 'a' then Escape([7 as char], p)
    else if c == 'b' then Escape([8 as char], p)
    else if c == 'f' then Escape([12 as char], p)
    else if c == 'n' then Escape("\n", p)
    else if c == 'r' then Escape("\r", p)
    else if c == 't' then Escape("\t", p)
    else if c == 'v' then Escape([11 as char], p)
    else if c == 'x' then
      if p + 1 == |data| || !IsHexDigit(data[p + 1]) then BadEscape
      else
        var q := DigitsEnd(data, 16, p + 1);
        Escape([Truncate(DigitsValue(data, 16, 0, p + 1)), ' '], SkipSpaces(data, q) - 1)
    else if c == '\n' then Escape(" ", SkipSpaces(data, p + 1) - 1)
    else if IsOctalDigit(c) then
      Escape([Truncate(DigitsValue(data, 8, 0, p))], DigitsEnd(data, 8, p) - 1)
    else Escape([c], p)
  }

  /** The contents of a string constant from p on, and the position after the closing quote. */
  function ReadString(data: string, text: string, p: nat): (r: Option<(string, nat)>)
    requires p <= |data|
    ensures r.Some? ==> p < r.value.1 <= |data|
    decreases |data| - p
  {
    if p == |data| then None
    else if data[p] == '"' then Some((text, p + 1))
    else if data[p] == '\\' then
      var e := ReadEscape(data, p + 1);
      if e.BadEscape? then None else ReadString(data, text + e.text, e.last + 1)
    else ReadString(data, text + [data[p]], p + 1)
  }

  // ---------------------------------------------------------------------------------------
  // Numbers.

  /** check_number_termination */
  predicate EndsNumber(data: string, p: nat) {
    p >= |data| || IsSpace(data[p]) || data[p] in "-+*/!~?%<>=&^|:()"
  }

  /** An integer constant and the position after it. A number with a fraction or an exponent is
      not part of this model and counts as bad. */
  function ReadNumber(data: string, p: nat): (r: Option<(Token, nat)>)
    requires p < |data| && IsDigit(data[p])
    ensures r.Some? ==> p < r.value.1 <= |data| && !r.value.0.TBad?
  {
    var prefix := data[p] == '0';
    if prefix && (Is(data, p + 1, 'x') || Is(data, p + 1, 'X')) then
      if p + 2 == |data| || !IsHexDigit(data[p + 2]) then None
      else Terminated(data, TInteger(DigitsValue(data, 16, 0, p + 2), Hex), DigitsEnd(data, 16, p + 2))
    else if prefix && p + 1 < |data| && IsOctalDigit(data[p + 1]) then
      Terminated(data, TInteger(DigitsValue(data, 8, 0, p + 1), Octal), DigitsEnd(data, 8, p + 1))
    else if prefix && (Is(data, p + 1, '8') || Is(data, p + 1, '9')) then None
    else
      var q := DigitsEnd(data, 10, p);
      if Is(data, q, '.') || Is(data, q, 'e') || Is(data, q, 'E') then None
      else
        match Integers.ParseInteger(data[p..q])
        case None => None
        case Some(v) => Terminated(data, TInteger(v, Default), q)
  }

  function Terminated(data: string, t: Token, q: nat): Option<(Token, nat)> {
    if EndsNumber(data, q) then Some((t, q)) else None
  }

  // ---------------------------------------------------------------------------------------
  // Names.

  function NameEnd(data: string, p: nat): (q: nat)
    requires p <= |data|
    ensures p <= q <= |data|
    ensures p < |data| && IsNameChar(data[p]) ==> p < q
    decreases |data| - p
  {
    if p < |data| && IsNameChar(data[p]) then NameEnd(data, p + 1) else p
  }

  /** The function registered under a name. */
  function FunctionNamed(name: string): Option<Func> {
    if name == "is_substr" then Some(IsSubstr)
    else if name == "is_xsubstr" then Some(IsXSubstr)
    else if name == "is_loaded" then Some(IsLoaded)
    else if name == "is_active" then Some(IsActive)
    else if name == "is_enabled" then Some(IsEnabled)
    else if name == "get_data" then Some(GetData)
    else if name == "version_cmp" then Some(VersionCmp)
    else None
  }

  /** process_special(): some names are operators or functions. */
  function NameToken(name: string): (t: Token)
    ensures !t.TBad?
  {
    if name == "to" then TRange
    else if name == "implies" then TBinary(BinaryOp.Implies)
    else if name == "xor" then TBinary(BinaryOp.Xor)
    else if name == "eqv" then TBinary(BinaryOp.Eqv)
    else if FunctionNamed(name).Some? then TFunction(FunctionNamed(name).value)
    else TReference(name)
  }

  // ---------------------------------------------------------------------------------------
  // Tokens.

  /** The token made of punctuation characters at p, and its length. */
  function Punctuation(c: char, next: Option<char>): Option<(Token, nat)> {
    match c
    case '(' => Some((TOpen, 1))
    case ')' => Some((TClose, 1))
    case '-' => Some((TBinary(Subtract), 1))
    case '+' => Some((TBinary(Add), 1))
    case '*' => Some((TBinary(Multiply), 1))
    case '/' => Some((TBinary(Divide), 1))
    case '!' => if next == Some('=') then Some((TBinary(NotEqual), 2)) else Some((TExclamation, 1))
    case '~' => Some((TTilde, 1))
    case '?' => Some((TQuestion, 1))
    case '%' => Some((TBinary(Remainder), 1))
    case '<' =>
      if next == Some('<') then Some((TBinary(LeftShift), 2))
      else if next == Some('=') then Some((TBinary(LessEqual), 2))
      else Some((TBinary(LessThan), 1))
    case '>' =>
      if next == Some('>') then Some((TBinary(RightShift), 2))
      else if next == Some('=') then Some((TBinary(GreaterEqual), 2))
      else Some((TBinary(GreaterThan), 1))
    case '=' => if next == Some('=') then Some((TBinary(Equal), 2)) else None
    case '&' => if next == Some('&') then Some((TBinary(And), 2)) else Some((TBinary(BitAnd), 1))
    case '^' => Some((TBinary(BitXor), 1))
    case '|' => if next == Some('|') then Some((TBinary(Or), 2)) else Some((TBinary(BitOr), 1))
    case ':' => Some((TColon, 1))
    case '.' => Some((TBinary(StringConcat), 1))
    case ',' => Some((TComma, 1))
    case _ => None
  }

  /** The token that starts exactly at s. Data that is not a token is a TBad lexeme. */
  function ScanHere(data: string, s: nat): (l: Lexeme)
    requires s < |data| && !IsSpace(data[s])
    ensures l.start == s
    ensures !l.token.TBad? ==> s < l.next <= |data|
  {
    var c := data[s];
    if c == '"' then
      match ReadString(data, "", s + 1)
      case None => Lexeme(TBad, s, s)
      case Some((text, q)) => Lexeme(TString(text), s, q)
    else if IsDigit(c) then
      match ReadNumber(data, s)
      case None => Lexeme(TBad, s, s)
      case Some((t, q)) => Lexeme(t, s, q)
    else if IsNameStart(c) then
      var q := NameEnd(data, s);
      Lexeme(NameToken(data[s..q]), s, q)
    else
      match Punctuation(c, CharAt(data, s + 1))
      case None => Lexeme(TBad, s, s)
      case Some((t, n)) => Lexeme(t, s, s + n)
  }

  /** next_token() from position p: nothing at the end of the data. */
  function Scan(data: string, p: nat): (l: Option<Lexeme>)
    requires p <= |data|
    ensures l.Some? ==> p <= l.value.start < |data|
    ensures l.Some? && !l.value.token.TBad? ==> l.value.start < l.value.next <= |data|
  {
    var s := SkipSpaces(data, p);
    if s == |data| then None else Some(ScanHere(data, s))
  }

  /** All lexemes from position p on, up to the first bad one. */
  function Lex(data: string, p: nat): (ls: seq<Lexeme>)
    requires p <= |data|
    decreases |data| - p
  {
    match Scan(data, p)
    case None => []
    case Some(l) => if l.token.TBad? then [l] else [l] + Lex(data, l.next)
  }

  function TokensOf(ls: seq<Lexeme>): (ts: seq<Token>)
    ensures |ts| == |ls| && forall k | 0 <= k < |ls| :: ts[k] == ls[k].token
  {
    seq(|ls|, k requires 0 <= k < |ls| => ls[k].token)
  }

  /** The tokens the parser sees when tokenization starts at p. */
  function Tokens(data: string, p: nat): seq<Token>
    requires p <= |data|
  {
    TokensOf(Lex(data, p))
  }

  lemma TokensStep(data: string, p: nat)
    requires p <= |data|
    ensures Tokens(data, p) == match Scan(data, p)
              case None => []
              case Some(l) => if l.token.TBad? then [TBad] else [l.token] + Tokens(data, l.next)
  {
  }

  // ---------------------------------------------------------------------------------------
  // Restarting.

  lemma {:induction false} SkipSpacesSettles(data: string, p: nat)
    requires p <= |data|
    ensures SkipSpaces(data, SkipSpaces(data, p)) == SkipSpaces(data, p)
    decreases |data| - p
  {
    if p < |data| && IsSpace(data[p]) {
      SkipSpacesSettles(data, p + 1);
    }
  }

  /** Scanning again from a token's first character gives the same token. */
  lemma RestartScan(data: string, p: nat)
    requires p <= |data| && Scan(data, p).Some?
    ensures Scan(data, Scan(data, p).value.start) == Scan(data, p)
  {
    SkipSpacesSettles(data, p);
  }

  /** Tokenization can be resumed at any token: what is left of the lexemes is what scanning
      from there gives, and the token before is where scanning goes on. */
  lemma {:induction false} Restart(data: string, p: nat, k: nat)
    requires p <= |data| && k < |Lex(data, p)|
    ensures Lex(data, p)[k].start < |data|
    ensures Lex(data, Lex(data, p)[k].start) == Lex(data, p)[k..]
    ensures !Lex(data, p)[k].token.TBad? ==> Lex(data, p)[k].next <= |data|
    ensures !Lex(data, p)[k].token.TBad? ==> Lex(data, Lex(data, p)[k].next) == Lex(data, p)[k + 1..]
    decreases k
  {
    var l := Scan(data, p).value;
    RestartScan(data, p);
    if k > 0 {
      Restart(data, l.next, k - 1);
      assert Lex(data, p) == [l] + Lex(data, l.next);
    } else {
      assert Lex(data, l.start) == Lex(data, p);
    }
  }

  /** Lexemes come in order: a later one starts at or after the end of an earlier one. */
  lemma {:induction false} LexemesInOrder(data: string, p: nat, k: nat)
    requires p <= |data| && k < |Lex(data, p)|
    ensures p <= Lex(data, p)[k].start
    ensures k > 0 ==> Lex(data, p)[0].start < Lex(data, p)[k].start
    decreases k
  {
    if k > 0 {
      LexemesInOrder(data, Scan(data, p).value.next, k - 1);
    }
  }

  /** Starting one character late makes no difference exactly when that character is white
      space, or the data has ended. */
  lemma SkipOneIff(data: string, p: nat)
    requires p <= |data|
    ensures Lex(data, After(data, p)) == Lex(data, p) <==> p == |data| || IsSpace(data[p])
  {
    if p < |data| {
      if IsSpace(data[p]) {
        assert SkipSpaces(data, p) == SkipSpaces(data, p + 1);
      } else {
        assert Lex(data, p)[0].start == p;
        if Lex(data, p + 1) != [] {
          assert Lex(data, p + 1)[0].start > p;
        }
      }
    }
  }
}
