/** Writing tokens as text, separated by spaces, so that the tokenizer reads them back; and with
    that the round trip from expression trees to text and back. */
module Spelling {
  import opened Wrappers
  import opened Ascii
  import opened Word64
  import opened Syntax
  import opened Lexical
  import Integers
  import Grammar

  predicate IsName(w: string) {
    w != [] && IsNameStart(w[0]) && forall i | 0 <= i < |w| :: IsNameChar(w[i])
  }

  /** The tokens that have a spelling: names that are not operators or functions, and integers
      whose text determines value and format. */
  predicate Spellable(t: Token) {
    match t
    case TReference(name) => IsName(name) && NameToken(name) == t
    case TInteger(v, f) => InRange(v) && v >= 0 && (f.Octal? ==> v > 0)
    case TBad => false
    case _ => true
  }

  /** A string constant's text with quotes and backslashes escaped. */
  function Quoted(text: string): string {
    if text == [] then []
    else if text[0] == '"' || text[0] == '\\' then ['\\', text[0]] + Quoted(text[1..])
    else [text[0]] + Quoted(text[1..])
  }

  function FunctionName(f: Func): (name: string)
    ensures NameToken(name) == TFunction(f)
  {
    match f
    case IsSubstr => "is_substr"
    case IsXSubstr => "is_xsubstr"
    case IsLoaded => "is_loaded"
    case IsActive => "is_active"
    case IsEnabled => "is_enabled"
    case GetData => "get_data"
    case VersionCmp => "version_cmp"
  }

  lemma FunctionNameIsName(f: Func)
    ensures IsName(FunctionName(f))
  {
  }

  function OperatorText(op: BinaryOp): string {
    match op
    case Multiply => "*"
    case Divide => "/"
    case Remainder => "%"
    case Add => "+"
    case Subtract => "-"
    case StringConcat => "."
    case LeftShift => "<<"
    case RightShift => ">>"
    case LessThan => "<"
    case LessEqual => "<="
    case GreaterThan => ">"
    case GreaterEqual => ">="
    case Equal => "=="
    case NotEqual => "!="
    case BitAnd => "&"
    case BitXor => "^"
    case BitOr => "|"
    case And => "&&"
    case Or => "||"
    case Xor => "xor"
    case Eqv => "eqv"
    case Implies => "implies"
  }

  function Spell(t: Token): string
    requires Spellable(t)
  {
    match t
    case TReference(name) => name
    case TString(text) => "\"" + Quoted(text) + "\""
    case TInteger(v, f) => Integers.Render(v, f)
    case TFunction(f) => FunctionName(f)
    case TBinary(op) => OperatorText(op)
    case TExclamation => "!"
    case TTilde => "~"
    case TQuestion => "?"
    case TColon => ":"
    case TComma => ","
    case TRange => "to"
    case TOpen => "("
    case TClose => ")"
  }

  predicate AllSpellable(ts: seq<Token>) {
    forall i | 0 <= i < |ts| :: Spellable(ts[i])
  }

  /** Every token followed by one space. */
  function SpellAll(ts: seq<Token>): string
    requires AllSpellable(ts)
  {
    if ts == [] then "" else Spell(ts[0]) + (" " + SpellAll(ts[1..]))
  }

  /** The word w stands at position p of the data, and a space follows. */
  predicate WordAt(data: string, p: nat, w: string) {
    && p + |w| < |data| && data[p + |w|] == ' '
    && forall i | 0 <= i < |w| :: data[p + i] == w[i]
  }

  lemma WordTail(data: string, p: nat, a: string, b: string)
    requires WordAt(data, p, a + b)
    ensures WordAt(data, p + |a|, b)
    ensures a != [] ==> data[p] == a[0]
    ensures |a| > 1 ==> data[p + 1] == a[1]
  {
    var w := a + b;
    forall i | 0 <= i < |b|
      ensures data[p + |a| + i] == b[i]
    {
      assert w[|a| + i] == b[i] && data[p + (|a| + i)] == w[|a| + i];
    }
    assert a != [] ==> data[p + 0] == w[0];
    assert |a| > 1 ==> data[p + 1] == w[1];
  }

  predicate Starts(data: string, p: nat) {
    p < |data| && !IsSpace(data[p])
  }

  lemma {:induction false} NameEnds(data: string, p: nat, w: string, k: nat)
    requires WordAt(data, p, w) && k <= |w| && forall i | k <= i < |w| :: IsNameChar(w[i])
    ensures NameEnd(data, p + k) == p + |w|
    decreases |w| - k
  {
    if k < |w| {
      assert data[p + k] == w[k];
      NameEnds(data, p, w, k + 1);
    }
  }

  lemma ScanName(data: string, p: nat, w: string)
    requires Starts(data, p)
    requires WordAt(data, p, w) && IsName(w)
    ensures ScanHere(data, p) == Lexeme(NameToken(w), p, p + |w|)
  {
    assert data[p + 0] == w[0];
    NameEnds(data, p, w, 0);
    assert data[p..p + |w|] == w;
  }

  lemma {:induction false} DigitsEndAt(data: string, radix: Integers.Radix, p: nat, w: string, k: nat)
    requires WordAt(data, p, w) && k <= |w| && forall i | k <= i < |w| :: Integers.IsRadixDigit(radix, w[i])
    ensures DigitsEnd(data, radix, p + k) == p + |w|
    decreases |w| - k
  {
    if k < |w| {
      assert data[p + k] == w[k];
      DigitsEndAt(data, radix, p, w, k + 1);
    }
  }

  /** A run of digits that fits is read as the number it denotes. */
  lemma {:induction false} DigitsValueAt(data: string, radix: Integers.Radix, p: nat, ds: string, acc: nat)
    requires WordAt(data, p, ds) && Integers.AllDigits(radix, ds) && Integers.AllDigits(16, ds)
    requires Integers.Horner(radix, acc, ds) <= MAX_INT
    ensures DigitsValue(data, radix, acc, p) == Integers.Horner(radix, acc, ds)
    decreases |ds|
  {
    if ds != [] {
      assert data[p + 0] == ds[0];
      assert forall i | 0 <= i < |ds[1..]| :: data[p + 1 + i] == data[p + (1 + i)] == ds[1..][i];
      Integers.HornerGrows(radix, acc, ds);
      DigitsValueAt(data, radix, p + 1, ds[1..], Integers.Next(radix, acc, ds[0]));
    }
  }

  lemma DecimalWord(v: int) returns (w: string)
    requires 0 <= v <= MAX_INT
    ensures w == Integers.Render(v, Default) && w != []
    ensures Integers.AllDigits(10, w) && (w[0] == '0' ==> |w| == 1)
    ensures Integers.ParseInteger(w) == Some(v)
  {
    w := Integers.Render(v, Default);
    Integers.RoundTripIff(v, Default);
  }

  lemma ScanDecimal(data: string, p: nat, v: int)
    requires Starts(data, p)
    requires 0 <= v <= MAX_INT && WordAt(data, p, Integers.Render(v, Default))
    ensures ScanHere(data, p) == Lexeme(TInteger(v, Default), p, p + |Integers.Render(v, Default)|)
  {
    var w := DecimalWord(v);
    ScanDigits(data, p, w, v);
  }

  lemma ScanDigits(data: string, p: nat, w: string, v: int)
    requires Starts(data, p) && WordAt(data, p, w) && w != []
    requires Integers.AllDigits(10, w) && (w[0] == '0' ==> |w| == 1)
    requires Integers.ParseInteger(w) == Some(v)
    ensures ScanHere(data, p) == Lexeme(TInteger(v, Default), p, p + |w|)
  {
    assert data[p + 0] == w[0];
    DigitsEndAt(data, 10, p, w, 0);
    assert data[p..p + |w|] == w;
  }

  lemma ScanOctal(data: string, p: nat, v: int)
    requires Starts(data, p)
    requires 0 < v <= MAX_INT && WordAt(data, p, Integers.Render(v, Octal))
    ensures ScanHere(data, p) == Lexeme(TInteger(v, Octal), p, p + |Integers.Render(v, Octal)|)
  {
    var ds := Integers.Digits(8, v);
    var w := "0" + ds;
    assert w == Integers.Render(v, Octal);
    WordTail(data, p, "0", ds);
    assert data[p + 1 + 0] == ds[0];
    DigitsEndAt(data, 8, p + 1, ds, 0);
    Integers.HornerDigits(8, v);
    DigitsValueAt(data, 8, p + 1, ds, 0);
  }

  lemma HexWord(v: int) returns (ds: string)
    requires 0 <= v <= MAX_INT
    ensures ds != [] && Integers.AllDigits(16, ds)
    ensures Integers.Render(v, Hex) == "0x" + ds && Integers.Horner(16, 0, ds) == v
  {
    if v == 0 {
      ds := "0";
    } else {
      ds := Integers.HexDigitsOf(v);
      Integers.HexDigitsShown(v);
      Integers.HexDigitsRead(v);
    }
  }

  lemma ScanHex(data: string, p: nat, v: int)
    requires Starts(data, p)
    requires 0 <= v <= MAX_INT && WordAt(data, p, Integers.Render(v, Hex))
    ensures ScanHere(data, p) == Lexeme(TInteger(v, Hex), p, p + |Integers.Render(v, Hex)|)
  {
    var ds := HexWord(v);
    WordTail(data, p, "0x", ds);
    assert data[p + 2 + 0] == ds[0];
    DigitsEndAt(data, 16, p + 2, ds, 0);
    DigitsValueAt(data, 16, p + 2, ds, 0);
  }

  /** The escaped text, closed by a quote, is read as the text. */
  lemma {:induction false} ReadQuoted(data: string, p: nat, text: string, before: string)
    requires WordAt(data, p, Quoted(text) + "\"")
    ensures ReadString(data, before, p) == Some((before + text, p + |Quoted(text)| + 1))
    decreases |text|
  {
    if text == [] {
      assert Quoted(text) + "\"" == "\"" + "" && before + text == before;
      WordTail(data, p, "\"", "");
    } else {
      var rest := Quoted(text[1..]) + "\"";
      var escaped := text[0] == '"' || text[0] == '\\';
      var (front, n) := if escaped then (['\\', text[0]], 2) else ([text[0]], 1);
      assert Quoted(text) + "\"" == front + rest;
      WordTail(data, p, front, rest);
      ReadQuoted(data, p + n, text[1..], before + [text[0]]);
      assert before + [text[0]] + text[1..] == before + text;
    }
  }

  lemma ScanString(data: string, p: nat, text: string)
    requires Starts(data, p)
    requires WordAt(data, p, Spell(TString(text)))
    ensures ScanHere(data, p) == Lexeme(TString(text), p, p + |Spell(TString(text))|)
  {
    var w, inner := Spell(TString(text)), Quoted(text) + "\"";
    assert w == "\"" + inner;
    WordTail(data, p, "\"", inner);
    ReadQuoted(data, p + 1, text, "");
    assert "" + text == text;
  }

  lemma ScanOperator(data: string, p: nat, op: BinaryOp)
    requires Starts(data, p)
    requires WordAt(data, p, OperatorText(op))
    ensures ScanHere(data, p) == Lexeme(TBinary(op), p, p + |OperatorText(op)|)
  {
    var w := OperatorText(op);
    WordTail(data, p, w, "");
    assert w + "" == w;
    if op.Xor? || op.Eqv? || op.Implies? {
      ScanName(data, p, w);
    }
  }

  lemma ScanSpelled(data: string, p: nat, t: Token)
    requires Spellable(t) && WordAt(data, p, Spell(t))
    ensures !IsSpace(data[p]) && ScanHere(data, p) == Lexeme(t, p, p + |Spell(t)|)
  {
    assert Spell(t) != [] && data[p + 0] == Spell(t)[0];
    match t
    case TReference(name) => ScanName(data, p, name);
    case TFunction(f) =>
      FunctionNameIsName(f);
      ScanName(data, p, FunctionName(f));
    case TRange => ScanName(data, p, "to");
    case TString(text) => ScanString(data, p, text);
    case TInteger(v, Default) => ScanDecimal(data, p, v);
    case TInteger(v, Octal) => ScanOctal(data, p, v);
    case TInteger(v, Hex) => ScanHex(data, p, v);
    case TBinary(op) => ScanOperator(data, p, op);
    case _ =>
  }

  /** Tokenizing the spelled tokens gives the tokens. */
  lemma {:induction false} TokensOfSpelled(data: string, p: nat, ts: seq<Token>)
    requires AllSpellable(ts) && p <= |data| && data[p..] == SpellAll(ts)
    ensures Tokens(data, p) == ts
    decreases |ts|
  {
    if ts != [] {
      var next := FirstSpelled(data, p, ts[0], SpellAll(ts[1..]));
      TokensOfSpelled(data, next, ts[1..]);
    }
  }

  lemma FirstSpelled(data: string, p: nat, t: Token, more: string) returns (next: nat)
    requires Spellable(t) && p <= |data| && data[p..] == Spell(t) + (" " + more)
    ensures next <= |data| && data[next..] == more
    ensures Tokens(data, p) == [t] + Tokens(data, next)
  {
    var q := p + |Spell(t)|;
    next := q + 1;
    WordFromSuffix(data, p, Spell(t), more);
    SpelledScans(data, p, t);
    TokensAfterWord(data, p, t, q);
  }

  lemma SpelledScans(data: string, p: nat, t: Token)
    requires Spellable(t) && WordAt(data, p, Spell(t))
    ensures Starts(data, p) && ScanHere(data, p) == Lexeme(t, p, p + |Spell(t)|) && !t.TBad?
  {
    SpelledStart(t);
    ScanSpelled(data, p, t);
  }

  lemma TokensAfterWord(data: string, p: nat, t: Token, q: nat)
    requires Starts(data, p) && ScanHere(data, p) == Lexeme(t, p, q) && !t.TBad?
    requires q < |data| && data[q] == ' '
    ensures Tokens(data, p) == [t] + Tokens(data, q + 1)
  {
    TokensStep(data, p);
    SkipOneIff(data, q);
  }

  lemma WordFromSuffix(data: string, p: nat, w: string, more: string)
    requires p <= |data| && data[p..] == w + (" " + more)
    ensures WordAt(data, p, w) && p + |w| < |data| && data[p + |w|] == ' ' && data[p + |w| + 1..] == more
  {
    var s := data[p..];
    forall i | 0 <= i < |w|
      ensures data[p + i] == w[i]
    {
      assert s[i] == w[i];
    }
    assert s[|w|] == ' ' && s[|w| + 1..] == more;
  }

  /** No token is spelled as nothing or starts with white space. */
  lemma SpelledStart(t: Token)
    requires Spellable(t)
    ensures Spell(t) != [] && !IsSpace(Spell(t)[0])
  {
    if t.TInteger? {
      var v := t.value;
      assert t.format.Default? && v > 0 ==> Integers.Digits(10, v) != [] && Integers.Digits(10, v)[0] != ' ';
    }
  }

  // ---------------------------------------------------------------------------------------
  // Trees and text.

  /** The trees all of whose tokens have a spelling. */
  predicate SpellableTree(e: Expr) {
    match e
    case Reference(name) => Spellable(TReference(name))
    case Active(name) => Spellable(TReference(name))
    case IntegerConstant(v, f) => Spellable(TInteger(v, f))
    case StringConstant(_) => true
    case Node(_, args) => SpellableArgs(args)
  }

  predicate SpellableArgs(args: Args) {
    match args
    case NoArgs => true
    case MoreArgs(a, others) => SpellableTree(a) && SpellableArgs(others)
  }

  lemma {:induction false} ShowIsSpellable(e: Expr)
    requires WellFormed(e) && SpellableTree(e)
    ensures AllSpellable(Grammar.Show(e))
    decreases e, 0
  {
    if e.Node? {
      var args := e.args;
      match e.op
      case OpUnary(op) =>
        assert e == Unary(op, args.first);
        ShowAtIsSpellable(UNARY, args.first);
      case OpBinary(op) =>
        assert e == Binary(op, args.first, args.others.first);
        assert SpellableArgs(args.others);
        ShowAtIsSpellable(Level(op), args.first);
        ShowAtIsSpellable(Level(op) - 1, args.others.first);
      case OpCond =>
        assert e == Cond(args.first, args.others.first, args.others.others.first);
        assert SpellableArgs(args.others) && SpellableArgs(args.others.others);
        ShowAtIsSpellable(IMPLIES, args.first);
        ShowAtIsSpellable(CONDITIONAL, args.others.first);
        ShowAtIsSpellable(CONDITIONAL, args.others.others.first);
      case OpCall(f) => ShowArgsIsSpellable(args);
    }
  }

  lemma {:induction false} ShowAtIsSpellable(level: nat, e: Expr)
    requires WellFormed(e) && SpellableTree(e)
    ensures AllSpellable(Grammar.ShowAt(level, e))
    decreases e, 1
  {
    ShowIsSpellable(e);
  }

  lemma {:induction false} ShowArgsIsSpellable(args: Args)
    requires WellFormedArgs(args) && SpellableArgs(args)
    ensures AllSpellable(Grammar.ShowArgs(args))
    decreases args
  {
    if args.MoreArgs? {
      ShowAtIsSpellable(CONDITIONAL, args.first);
      ShowArgsIsSpellable(args.others);
    }
  }

  function Text(e: Expr): string
    requires WellFormed(e) && SpellableTree(e)
  {
    ShowIsSpellable(e);
    SpellAll(Grammar.Show(e))
  }

  /** An expression written with the fewest brackets and parsed from its characters is the
      expression again, with its signs absorbed, and nothing of the text is left over. */
  lemma ParseUndoesText(e: Expr)
    requires WellFormed(e) && SpellableTree(e)
    ensures Grammar.ParseAt(CONDITIONAL, Tokens(Text(e), 0)) == Success(Grammar.Parsed(Fold(e), []))
  {
    ShowIsSpellable(e);
    TokensOfSpelled(Text(e), 0, Grammar.Show(e));
    Grammar.ParseUndoesShow(e);
  }
}
