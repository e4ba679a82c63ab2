/** The tokenizer as libcdl has it: variables for the data, the index, the current character and
    the current token, changed one character at a time. */
module Tokenizers {
  import opened Wrappers
  import opened Ascii
  import opened Word64
  import opened Syntax
  import opened Lexical
  import Integers
  import Grammar

  class Tokenizer {
    var data: string
    var index: nat             // current_index, one past the current character
    var start: int             // token_start
    var current: Option<char>  // current_char, None for EOF
    var token: Option<Token>   // current_token, None for T_EOD
    ghost var all: seq<Lexeme> // all there was to read when tokenization was initialised

    constructor ()
      ensures Ready() && Upcoming() == []
    {
      data, index, start, current, token, all := "", 0, 0, None, None, [];
    }

    ghost predicate Valid()
      reads this
    {
      && index <= |data|
      && (if current.Some? then index > 0 && current.value == data[index - 1] else index == |data|)
    }

    /** The position of the current character. */
    ghost function Pos(): (p: nat)
      requires Valid()
      reads this
      ensures p <= |data|
      ensures current == CharAt(data, p)
      ensures index == After(data, p)
    {
      if current.Some? then index - 1 else index
    }

    /** The current token is what scanning from anywhere in the white space before it gives. */
    ghost predicate Settled()
      reads this
    {
      && Valid() && token != Some(TBad)
      && (if token.None? then current.None?
          else
            && 0 <= start < |data| && !IsSpace(data[start])
            && forall p: nat | p <= |data| && SkipSpaces(data, p) == start ::
                 Scan(data, p) == Some(Lexeme(token.value, start, Pos())))
    }

    /** The current lexeme and those after it are the last of all lexemes. */
    ghost predicate Placed()
      reads this
    {
      forall p: nat {:trigger SkipSpaces(data, p)} | p <= |data| && SkipSpaces(data, p) == start ::
        Ends(Lex(data, p), all)
    }

    ghost predicate Ready()
      reads this
    {
      Settled() && (token.Some? ==> Placed())
    }

    /** The current token and those that scanning on would give. */
    ghost function Upcoming(): seq<Token>
      requires Ready()
      reads this
    {
      if token.None? then [] else [token.value] + Tokens(data, Pos())
    }

    method NextChar()
      requires index <= |data|
      modifies this`index, this`current
      ensures Valid() && Pos() == old(index)
    {
      if index >= |data| {
        current := None;
      } else {
        current := Some(data[index]);
        index := index + 1;
      }
    }

    method BackupChar()
      requires Valid() && Pos() > 0
      modifies this`index, this`current
      ensures Valid() && Pos() == old(Pos()) - 1
    {
      if current.Some? {
        index := index - 1;
      }
      current := Some(data[index - 1]);
    }

    method SkipWhite()
      requires Valid()
      modifies this`index, this`current
      ensures Valid() && Pos() == SkipSpaces(data, old(Pos()))
    {
      while current.Some? && IsSpace(current.value)
        invariant Valid()
        invariant SkipSpaces(data, Pos()) == SkipSpaces(data, old(Pos()))
        decreases |data| - Pos()
      {
        NextChar();
      }
    }

    /** Accumulate a run of digits without any overflow check. */
    method ReadDigits(radix: Integers.Radix) returns (acc: int)
      requires Valid()
      modifies this`index, this`current
      ensures Valid() && Pos() == DigitsEnd(data, radix, old(Pos()))
      ensures acc == DigitsValue(data, radix, 0, old(Pos()))
    {
      acc := 0;
      while current.Some? && Integers.IsRadixDigit(radix, current.value)
        invariant Valid()
        invariant DigitsEnd(data, radix, Pos()) == DigitsEnd(data, radix, old(Pos()))
        invariant DigitsValue(data, radix, acc, Pos()) == DigitsValue(data, radix, 0, old(Pos()))
        decreases |data| - Pos()
      {
        acc := Wrap(Integers.Next(radix, acc, current.value));
        NextChar();
      }
    }

    method ProcessHexEscape() returns (text: Option<string>)
      requires Valid() && current == Some('x')
      modifies this`index, this`current
      ensures Valid()
      ensures match ReadEscape(data, old(Pos()))
              case BadEscape => text == None
              case Escape(t, last) => text == Some(t) && Pos() == last
    {
      NextChar();
      if current.None? || !IsHexDigit(current.value) {
        return None;
      }
      var tmp := ReadDigits(16);
      BackupChar();
      // no break: falls through to the next case
      NextChar();
      SkipWhite();
      BackupChar();
      text := Some([Truncate(tmp), ' ']);
    }

    /** The part of process_string after a backslash. */
    method ProcessEscape() returns (text: Option<string>)
      requires Valid()
      modifies this`index, this`current
      ensures Valid()
      ensures match ReadEscape(data, old(Pos()))
              case BadEscape => text == None
              case Escape(t, last) => text == Some(t) && Pos() == last
    {
      if current.None? {
        return None;
      }
      var c := current.value;
      if c == 'a' { return Some([7 as char]); }
      if c == 'b' { return Some([8 as char]); }
      if c == 'f' { return Some([12 as char]); }
      if c == 'n' { return Some("\n"); }
      if c == 'r' { return Some("\r"); }
      if c == 't' { return Some("\t"); }
      if c == 'v' { return Some([11 as char]); }
      if c == 'x' {
        text := ProcessHexEscape();
        return;
      }
      if c == '\n' {
        NextChar();
        SkipWhite();
        BackupChar();
        return Some(" ");
      }
      if IsOctalDigit(c) {
        var tmp := ReadDigits(8);
        BackupChar();
        return Some([Truncate(tmp)]);
      }
      text := Some([c]);
    }

    method ProcessString() returns (ok: bool)
      requires Valid() && current == Some('"')
      modifies this`index, this`current, this`token
      ensures Valid()
      ensures match ReadString(data, "", old(Pos()) + 1)
              case None => !ok
              case Some((text, q)) => ok && token == Some(TString(text)) && Pos() == q
    {
      var result := "";
      NextChar();
      while current != Some('"')
        invariant Valid()
        invariant ReadString(data, result, Pos()) == ReadString(data, "", old(Pos()) + 1)
        decreases |data| - Pos()
      {
        if current.None? {
          return false;
        } else if current == Some('\\') {
          NextChar();
          var piece := ProcessEscape();
          if piece.None? {
            return false;
          }
          result := result + piece.value;
        } else {
          result := result + [current.value];
        }
        NextChar();
      }
      NextChar();
      token := Some(TString(result));
      ok := true;
    }

    /** The digits after a radix prefix. */
    method ProcessDigits(radix: Integers.Radix, format: Format) returns (ok: bool)
      requires Valid()
      modifies this`index, this`current, this`token
      ensures Valid()
      ensures match Terminated(data, TInteger(DigitsValue(data, radix, 0, old(Pos())), format),
                               DigitsEnd(data, radix, old(Pos())))
              case None => !ok
              case Some((t, q)) => ok && token == Some(t) && Pos() == q
    {
      var v := ReadDigits(radix);
      token := Some(TInteger(v, format));
      ok := CheckNumberTermination();
    }

    /** process_number for an integer with a 0x or 0 prefix, and for plain decimal digits. */
    method ProcessNumber() returns (ok: bool)
      requires Valid() && current.Some? && IsDigit(current.value)
      modifies this`index, this`current, this`token
      ensures Valid()
      ensures match ReadNumber(data, old(Pos()))
              case None => !ok
              case Some((t, q)) => ok && token == Some(t) && Pos() == q
    {
      ghost var p := Pos();
      if current == Some('0') {
        NextChar();
        if current == Some('x') || current == Some('X') {
          NextChar();
          if current.None? || !IsHexDigit(current.value) {
            return false;
          }
          ok := ProcessDigits(16, Hex);
          return;
        } else if current.Some? && IsOctalDigit(current.value) {
          ok := ProcessDigits(8, Octal);
          return;
        } else if current == Some('8') || current == Some('9') {
          return false;
        } else {
          BackupChar();
        }
      }
      assert Pos() == p;
      ok := ProcessDecimal();
    }

    method ProcessDecimal() returns (ok: bool)
      requires Valid() && current.Some? && IsDigit(current.value)
      modifies this`index, this`current, this`token
      ensures Valid()
      ensures var q := DigitsEnd(data, 10, old(Pos()));
              if Is(data, q, '.') || Is(data, q, 'e') || Is(data, q, 'E') then !ok
              else match Integers.ParseInteger(data[old(Pos())..q])
                   case None => !ok
                   case Some(v) =>
                     ok == EndsNumber(data, q) && (ok ==> token == Some(TInteger(v, Default)) && Pos() == q)
    {
      ghost var p := Pos();
      var tmp := "";
      while current.Some? && IsDigit(current.value)
        invariant Valid() && p <= Pos()
        invariant tmp == data[p..Pos()]
        invariant DigitsEnd(data, 10, Pos()) == DigitsEnd(data, 10, p)
        decreases |data| - Pos()
      {
        tmp := tmp + [current.value];
        NextChar();
      }
      if current == Some('.') || current == Some('e') || current == Some('E') {
        return false;  // floating point is not part of this model
      }
      var success, v := Integers.StringToInteger(tmp);
      if !success {
        return false;
      }
      token := Some(TInteger(v, Default));
      ok := CheckNumberTermination();
    }

    method CheckNumberTermination() returns (ok: bool)
      requires Valid()
      ensures ok == EndsNumber(data, Pos())
    {
      ok := current.None? || IsSpace(current.value) || current.value in "-+*/!~?%<>=&^|:()";
    }

    method ProcessAlphanumeric()
      requires Valid() && current.Some? && IsNameStart(current.value)
      modifies this`index, this`current, this`token
      ensures Valid() && Pos() == NameEnd(data, old(Pos()))
      ensures token == Some(NameToken(data[old(Pos())..Pos()]))
    {
      ghost var p := Pos();
      var name := "";
      while current.Some? && IsNameChar(current.value)
        invariant Valid() && p <= Pos()
        invariant name == data[p..Pos()]
        invariant NameEnd(data, Pos()) == NameEnd(data, p)
        decreases |data| - Pos()
      {
        name := name + [current.value];
        NextChar();
      }
      token := Some(NameToken(name));
    }

    /** A token of one character. */
    method Single(t: Token)
      requires Valid() && current.Some?
      modifies this`index, this`current, this`token
      ensures Valid() && Pos() == old(Pos()) + 1 && token == Some(t)
    {
      token := Some(t);
      NextChar();
    }

    /** A character that makes one token with `second` after it and another without. */
    method Double(second: char, both: Token, alone: Token)
      requires Valid() && current.Some?
      modifies this`index, this`current, this`token
      ensures Valid()
      ensures if Is(data, old(Pos()) + 1, second)
              then Pos() == old(Pos()) + 2 && token == Some(both)
              else Pos() == old(Pos()) + 1 && token == Some(alone)
    {
      NextChar();
      if current == Some(second) {
        token := Some(both);
        NextChar();
      } else {
        token := Some(alone);
      }
    }

    /** The same with two possible second characters. */
    method Triple(second: char, both: Token, other: char, with: Token, alone: Token)
      requires Valid() && current.Some? && second != other
      modifies this`index, this`current, this`token
      ensures Valid()
      ensures if Is(data, old(Pos()) + 1, second) then Pos() == old(Pos()) + 2 && token == Some(both)
              else if Is(data, old(Pos()) + 1, other) then Pos() == old(Pos()) + 2 && token == Some(with)
              else Pos() == old(Pos()) + 1 && token == Some(alone)
    {
      NextChar();
      if current == Some(second) {
        Single(both);
      } else if current == Some(other) {
        Single(with);
      } else {
        token := Some(alone);
      }
    }

    method ProcessPunctuation() returns (ok: bool)
      requires Valid() && current.Some?
      modifies this`index, this`current, this`token
      ensures Valid()
      ensures match Punctuation(old(current).value, CharAt(data, old(Pos()) + 1))
              case None => !ok
              case Some((t, n)) => ok && token == Some(t) && Pos() == old(Pos()) + n
    {
      ok := true;
      match current.value
      case '(' => Single(TOpen);
      case ')' => Single(TClose);
      case '-' => Single(TBinary(Subtract));
      case '+' => Single(TBinary(Add));
      case '*' => Single(TBinary(Multiply));
      case '/' => Single(TBinary(Divide));
      case '!' => Double('=', TBinary(NotEqual), TExclamation);
      case '~' => Single(TTilde);
      case '?' => Single(TQuestion);
      case '%' => Single(TBinary(Remainder));
      case '<' => Triple('<', TBinary(LeftShift), '=', TBinary(LessEqual), TBinary(LessThan));
      case '>' => Triple('>', TBinary(RightShift), '=', TBinary(GreaterEqual), TBinary(GreaterThan));
      case '=' =>
        NextChar();
        if current != Some('=') {
          ok := false;
        } else {
          Single(TBinary(Equal));
        }
      case '&' => Double('&', TBinary(And), TBinary(BitAnd));
      case '^' => Single(TBinary(BitXor));
      case '|' => Double('|', TBinary(Or), TBinary(BitOr));
      case ':' => Single(TColon);
      case '.' => Single(TBinary(StringConcat));
      case ',' => Single(TComma);
      case _ => ok := false;
    }

    /** The token that starts at the current character. */
    method ProcessToken() returns (ok: bool)
      requires Valid() && current.Some? && !IsSpace(current.value)
      modifies this`index, this`current, this`token
      ensures Valid()
      ensures var l := ScanHere(data, old(Pos()));
              ok == !l.token.TBad? && (ok ==> token == Some(l.token) && Pos() == l.next)
    {
      if current == Some('"') {
        ok := ProcessString();
      } else if IsDigit(current.value) {
        ok := ProcessNumber();
      } else if IsNameStart(current.value) {
        ProcessAlphanumeric();
        ok := true;
      } else {
        ok := ProcessPunctuation();
      }
    }

    /** Work out the next token; false stands for a parse exception. */
    method NextToken() returns (ok: bool)
      requires Valid()
      modifies this`index, this`current, this`token, this`start
      ensures Valid()
      ensures match Scan(data, old(Pos()))
              case None => ok && Settled() && token == None && start == |data| - 1
              case Some(l) =>
                && ok == !l.token.TBad?
                && (ok ==> Settled() && token == Some(l.token) && start == l.start && Pos() == l.next)
    {
      token := Some(TBad);
      SkipWhite();
      start := index - 1;
      if current.None? {
        token := None;
        ok := true;
      } else {
        ok := ProcessToken();
      }
    }

    /** Move on within the upcoming tokens. */
    method Advance() returns (ok: bool)
      requires Ready() && Upcoming() != []
      modifies this`index, this`current, this`token, this`start
      ensures ok == Grammar.Advance(old(Upcoming())).Success?
      ensures ok ==> Ready() && Upcoming() == old(Upcoming())[1..]
    {
      TokensStep(data, Pos());
      ghost var ts := Upcoming();
      assert ts[1..] == Tokens(data, Pos());
      StartIsSettled(data, start);
      ghost var here, next := start, Pos();
      assert Lex(data, here)[1..] == Lex(data, next);
      EndsStep(Lex(data, here), all);
      ok := NextToken();
      if ok && token.Some? {
        SameLexemes(data, next);
      }
    }

    /** Start again at an index of a string. */
    method Initialise(text: string, from: nat) returns (ok: bool)
      requires from <= |text|
      modifies this
      ensures data == text && all == Lex(text, from)
      ensures var ts := Tokens(text, from); ok == !(ts != [] && ts[0].TBad?)
      ensures ok ==> Ready() && Upcoming() == Tokens(text, from)
    {
      data, all := text, Lex(text, from);
      index := from;
      start := from;
      NextChar();
      TokensStep(data, Pos());
      ok := NextToken();
      if ok && token.Some? {
        SameLexemes(data, from);
      }
    }

    /** The current token's place among all lexemes. */
    lemma Place()
      requires Ready() && token.Some?
      ensures |Upcoming()| <= |all|
      ensures Lex(data, start) == all[|all| - |Upcoming()|..]
      ensures all[|all| - |Upcoming()|] == Lexeme(token.value, start, Pos())
      ensures Tokens(data, start) == Upcoming()
    {
      StartIsSettled(data, start);
      TokensStep(data, start);
    }
  }

  /** One sequence is the end of another. */
  predicate Ends(ls: seq<Lexeme>, all: seq<Lexeme>) {
    |ls| <= |all| && ls == all[|all| - |ls|..]
  }

  lemma EndsStep(ls: seq<Lexeme>, all: seq<Lexeme>)
    requires ls != [] && Ends(ls, all)
    ensures Ends(ls[1..], all)
  {
  }

  lemma StartIsSettled(data: string, s: nat)
    requires s < |data| && !IsSpace(data[s])
    ensures SkipSpaces(data, s) == s
  {
  }

  /** Two positions with nothing but white space before the same token give the same lexemes. */
  lemma SameLexemes(data: string, p: nat)
    requires p <= |data|
    ensures forall q: nat | q <= |data| && SkipSpaces(data, q) == SkipSpaces(data, p) :: Lex(data, q) == Lex(data, p)
  {
  }
}
