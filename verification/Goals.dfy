/** What goal expressions mean, and where the string of a list expression misleads. */
module Goals {
  import opened Wrappers
  import opened Ascii
  import opened Syntax
  import opened Lexical
  import opened Evaluation
  import opened Sequels
  import Floats
  import Grammar
  import Integers

  // ---------------------------------------------------------------------------------------
  // A goal is the conjunction of its parts.

  /** The parts of a goal, read off the tokens. */
  ghost function Parts(ts: seq<Token>): Result<seq<Expr>, Grammar.ParseError>
    decreases |ts|
  {
    var g :- Part(ts);
    if g.rest == [] then Success([g.value])
    else
      var others :- Parts(g.rest);
      Success([g.value] + others)
  }

  /** The conjunction of a tree and further parts, nested to the left. */
  function Conjunction(e: Expr, parts: seq<Expr>): Expr
    decreases |parts|
  {
    if parts == [] then e else Conjunction(Binary(And, e, parts[0]), parts[1..])
  }

  lemma {:induction false} GoalLoopIsConjunction(sofar: Expr, ts: seq<Token>)
    requires ts != []
    ensures GoalLoop(sofar, ts) ==
              var parts := Parts(ts);
              if parts.Failure? then Failure(parts.error)
              else Success(Grammar.Parsed(Conjunction(sofar, parts.value), []))
    decreases |ts|
  {
    var g := Part(ts);
    if g.Success? {
      var next := Binary(And, sofar, g.value.value);
      if g.value.rest == [] {
        assert Conjunction(sofar, [g.value.value]) == Conjunction(next, []);
      } else {
        GoalLoopIsConjunction(next, g.value.rest);
        var others := Parts(g.value.rest);
        if others.Success? {
          assert ([g.value.value] + others.value)[1..] == others.value;
        }
      }
    }
  }

  /** Parsing a goal joins all its parts. */
  lemma GoalIsConjunction(ts: seq<Token>)
    ensures Goal(ts) ==
              var parts := Parts(ts);
              if parts.Failure? then Failure(parts.error)
              else Success(Grammar.Parsed(Conjunction(parts.value[0], parts.value[1..]), []))
    ensures Parts(ts).Success? ==> |Parts(ts).value| > 0
  {
    var g := Part(ts);
    if g.Success? {
      if g.value.rest == [] {
        assert [g.value.value][1..] == [];
      } else {
        GoalLoopIsConjunction(g.value.value, g.value.rest);
        var others := Parts(g.value.rest);
        if others.Success? {
          assert ([g.value.value] + others.value)[1..] == others.value;
        }
      }
    }
  }

  lemma {:induction false} PartsAreWellFormed(ts: seq<Token>)
    requires Parts(ts).Success?
    ensures forall e | e in Parts(ts).value :: WellFormed(e)
    decreases |ts|
  {
    Grammar.ConditionalIsGood(ts);
    var g := Part(ts).value;
    if g.rest != [] {
      PartsAreWellFormed(g.rest);
    }
  }

  // ---------------------------------------------------------------------------------------
  // Evaluation.

  /** Evaluate in turn until one is false or fails. */
  function InTurn(ctx: Context, parts: seq<Expr>): Result<bool, EvalError>
    requires forall e | e in parts :: WellFormed(e)
  {
    if parts == [] then Success(true)
    else
      var v :- Eval(ctx, parts[0]);
      if !Truth(v) then Success(false) else InTurn(ctx, parts[1..])
  }

  /** The value of a conjunction, as a result of the && operator. */
  function AsValue(r: Result<bool, EvalError>): Outcome {
    var b :- r;
    Success(FromBool(b))
  }

  lemma InTurnStep(ctx: Context, e: Expr, parts: seq<Expr>)
    requires WellFormed(e) && forall p | p in parts :: WellFormed(p)
    ensures InTurn(ctx, [e] + parts) ==
              var v := Eval(ctx, e);
              if v.Failure? then Failure(v.error)
              else if !Truth(v.value) then Success(false)
              else InTurn(ctx, parts)
  {
    assert ([e] + parts)[1..] == parts;
  }

  lemma AndInTurn(ctx: Context, l: Expr, r: Expr)
    requires WellFormed(l) && WellFormed(r)
    ensures Eval(ctx, Binary(And, l, r)) ==
              var v := Eval(ctx, l);
              if v.Failure? then v
              else if !Truth(v.value) then Success(FromBool(false))
              else AsValue(InTurn(ctx, [r]))
  {
    var args := MoreArgs(l, MoreArgs(r, NoArgs));
    assert EvalOperand(ctx, args, 1) == EvalOperand(ctx, args.others, 0) == Eval(ctx, r);
    assert EvalOperand(ctx, args, 0) == Eval(ctx, l);
    assert [r] + [] == [r];
    InTurnStep(ctx, r, []);
  }

  lemma {:induction false} ConjunctionInTurn(ctx: Context, e: Expr, parts: seq<Expr>)
    requires WellFormed(e) && parts != [] && forall p | p in parts :: WellFormed(p)
    ensures WellFormed(Conjunction(e, parts))
    ensures Eval(ctx, Conjunction(e, parts)) == AsValue(InTurn(ctx, [e] + parts))
    decreases |parts|
  {
    var (p, rest) := (parts[0], parts[1..]);
    var both := Binary(And, e, p);
    AndInTurn(ctx, e, p);
    InTurnStep(ctx, e, parts);
    InTurnStep(ctx, p, []);
    assert [p] + [] == [p];
    if rest == [] {
      assert parts == [p] && Conjunction(e, parts) == Conjunction(both, []);
    } else {
      ConjunctionInTurn(ctx, both, rest);
      InTurnStep(ctx, both, rest);
      InTurnStep(ctx, p, rest);
      assert [p] + rest == parts;
    }
  }

  /** How a goal reads its result: an integer or a floating number counts as true if it is not
      zero, any other text if it is not empty. */
  predicate GoalTruth(v: Value) {
    if Number(v).Some? then Number(v).value != 0
    else !Floats.ReadsAsZero(Text(v)) && Text(v) != ""
  }

  function EvalGoal(ctx: Context, e: Expr): Result<bool, EvalError>
    requires WellFormed(e)
  {
    var v :- Eval(ctx, e);
    Success(GoalTruth(v))
  }

  /** A goal of several parts holds if its parts do, evaluated in turn. */
  lemma GoalMeansAllParts(ctx: Context, parts: seq<Expr>)
    requires |parts| > 1 && forall e | e in parts :: WellFormed(e)
    ensures WellFormed(Conjunction(parts[0], parts[1..]))
    ensures EvalGoal(ctx, Conjunction(parts[0], parts[1..])) == InTurn(ctx, parts)
  {
    ConjunctionInTurn(ctx, parts[0], parts[1..]);
    assert [parts[0]] + parts[1..] == parts;
  }

  const FALSEHOODS := ["false", "False", "FALSE"]

  /** A text that && takes for false and a goal for true, or the other way round: one of the
      words for false, or an integer or floating zero that is not spelled "0". */
  predicate Ambiguous(v: Value) {
    && v.number.None?
    && (Text(v) in FALSEHOODS || (IsZero(v) && Text(v) !in ["", "0"]))
  }

  /** The value has an integer reading that is zero, or has none and reads as a floating zero. */
  predicate IsZero(v: Value) {
    if Number(v).Some? then Number(v).value == 0 else Floats.ReadsAsZero(Text(v))
  }

  lemma WordsAreNoNumbers(t: string)
    requires t in FALSEHOODS
    ensures Integers.ParseInteger(t) == None
  {
    assert Integers.CString(t) == t && Integers.SkipSpace(t) == t;
    assert Integers.Gather(10, 0, t) == Some((0, t));
  }

  lemma ShortZeros(t: string)
    requires t == "" || t == "0"
    ensures Integers.ParseInteger(t) == Some(0)
  {
    assert Integers.CString(t) == t && Integers.SkipSpace(t) == t;
  }

  lemma TruthsAgreeIff(v: Value)
    ensures GoalTruth(v) == Truth(v) <==> !Ambiguous(v)
  {
    if v.number.None? && v.text.Some? {
      TextTruthsAgreeIff(v);
    }
  }

  lemma TextTruthsAgreeIff(v: Value)
    requires v.number.None? && v.text.Some?
    ensures GoalTruth(v) == Truth(v) <==> !Ambiguous(v)
  {
    var t := v.text.value;
    if t in FALSEHOODS {
      WordsAreNoNumbers(t);
      Floats.LettersAreNotZero(t);
    } else if t == "" || t == "0" {
      ShortZeros(t);
    }
  }

  /** The text of a floating zero is one of those that are read in two ways. */
  lemma FloatingZeroIsAmbiguous()
    ensures Ambiguous(FromText("0.0")) && !GoalTruth(FromText("0.0")) && Truth(FromText("0.0"))
  {
    assert Integers.CString("0.0") == "0.0";
    assert Integers.Gather(10, 0, "0.0") == Integers.Gather(10, 0, ".0");
    assert Integers.ParseInteger("0.0") == None;
    assert Floats.SkipZeros("0.0") == ".0" && Floats.SkipZeros("0") == "";
  }

  /** A goal of one part holds if the part does, unless its value is an ambiguous text. */
  lemma GoalMeansOnlyPart(ctx: Context, e: Expr)
    requires WellFormed(e)
    ensures EvalGoal(ctx, e) == InTurn(ctx, [e])
       <==> (Eval(ctx, e).Success? ==> !Ambiguous(Eval(ctx, e).value))
  {
    assert [e][1..] == [];
    if Eval(ctx, e).Success? {
      TruthsAgreeIff(Eval(ctx, e).value);
    }
  }

  // ---------------------------------------------------------------------------------------
  // A range whose `to` is not followed by white space loses a character.

  const TIGHT := "1 to-5"

  lemma TightLexemes(data: string)
    requires data == TIGHT
    ensures var five := Lexeme(TInteger(5, Default), 5, 6);
            && Lex(data, 5) == [five]
            && Lex(data, 4) == [Lexeme(TBinary(Subtract), 4, 5), five]
            && Lex(data, 0) == [Lexeme(TInteger(1, Default), 0, 1), Lexeme(TRange, 2, 4),
                                 Lexeme(TBinary(Subtract), 4, 5), five]
  {
    LastTightLexemes(data);
    FirstTightLexeme(data);
    TightRangeLexeme(data);
    assert Lex(data, 0) == [Lexeme(TInteger(1, Default), 0, 1)] + Lex(data, 1);
  }

  lemma FirstTightLexeme(data: string)
    requires data == TIGHT
    ensures Scan(data, 0) == Some(Lexeme(TInteger(1, Default), 0, 1))
  {
    Digit(data, 0, "1", 1);
  }

  lemma LastTightLexemes(data: string)
    requires data == TIGHT
    ensures var five := Lexeme(TInteger(5, Default), 5, 6);
            Lex(data, 5) == [five] && Lex(data, 4) == [Lexeme(TBinary(Subtract), 4, 5), five]
  {
    Digit(data, 5, "5", 5);
    assert Lex(data, 6) == [];
    assert Lex(data, 5) == [Lexeme(TInteger(5, Default), 5, 6)] + Lex(data, 6);
    assert Lex(data, 4) == [Lexeme(TBinary(Subtract), 4, 5)] + Lex(data, 5);
  }

  lemma TightRangeLexeme(data: string)
    requires data == TIGHT
    ensures Lex(data, 1) == [Lexeme(TRange, 2, 4)] + Lex(data, 4)
  {
    assert NameEnd(data, 2) == NameEnd(data, 3) == NameEnd(data, 4) == 4 && data[2..4] == "to";
    assert SkipSpaces(data, 1) == SkipSpaces(data, 2) == 2;
  }

  lemma Digit(data: string, p: nat, text: string, v: int)
    requires p < |data| && |text| == 1 && text[0] == data[p] && IsDigit(text[0]) && DigitValue(text[0]) == v
    requires p + 1 < |data| ==> data[p + 1] == ' '
    ensures ReadNumber(data, p) == Some((TInteger(v, Default), p + 1))
  {
    assert data[p..p + 1] == text;
    assert Integers.CString(text) == text;
    assert text[1..] == [];
    assert DigitsEnd(data, 10, p + 1) == p + 1;
    assert Integers.Gather(10, 0, text) == Some((v, []));
    assert Integers.ParseInteger(text) == Some(v);
  }

  /** The two readings of a string that starts with a range up to the end of the data. */
  lemma LoneRange(data: string, a: Expr, late: Expr, prompt: Expr, rest: seq<Token>)
    requires Part(Tokens(data, 0)) == Success(Grammar.Parsed(a, rest)) && rest != [] && rest[0].TRange?
    requires |rest| < |Lex(data, 0)| && Leftover(data, 0, |rest|).token.TRange?
    requires var next := Leftover(data, 0, |rest|).next;
             next <= |data| && Part(Tokens(data, After(data, next))) == Success(Grammar.Parsed(late, []))
    requires Part(rest[1..]) == Success(Grammar.Parsed(prompt, []))
    ensures ListFrom(data, 0, true) == Success([Range(a, late)])
    ensures Items(Tokens(data, 0)) == Success([Range(a, prompt)])
  {
    var q := After(data, Leftover(data, 0, |rest|).next);
    assert ItemAt(data, 0, true) == Success(Step(Range(a, late), q, 0));
    assert OtherListItems(data, q, 0, true) == Success([]) && OtherItems([]) == Success([]);
    assert [Range(a, late)] + [] == [Range(a, late)] && [Range(a, prompt)] + [] == [Range(a, prompt)];
  }

  lemma PartOf(e: Expr, rest: seq<Token>)
    requires WellFormed(e) && Grammar.Stops(CONDITIONAL, rest)
    ensures Part(Grammar.ShowAt(CONDITIONAL, e) + rest) == Success(Grammar.Parsed(Fold(e), rest))
  {
    Grammar.RoundTrip(CONDITIONAL, e, rest);
  }

  /** What an expression, the word `to` and a negated number read as, token by token. */
  lemma TightTokens(one: Expr, five: Expr)
    requires one == IntegerConstant(1, Default) && five == IntegerConstant(5, Default)
    ensures var rest := [TRange, TBinary(Subtract), TInteger(5, Default)];
            && Part([TInteger(1, Default)] + rest) == Success(Grammar.Parsed(one, rest))
            && Part([TInteger(5, Default)]) == Success(Grammar.Parsed(five, []))
            && Part(rest[1..]) == Success(Grammar.Parsed(IntegerConstant(-5, Default), []))
  {
    var minus := Unary(Negate, five);
    var rest := [TRange, TBinary(Subtract), TInteger(5, Default)];
    PartOf(one, rest);
    assert [TInteger(5, Default)] == Grammar.ShowAt(CONDITIONAL, five) + [];
    PartOf(five, []);
    assert rest[1..] == Grammar.ShowAt(CONDITIONAL, minus) + [];
    PartOf(minus, []);
  }

  lemma TightPlaces(data: string)
    requires |data| == 6
    requires Lex(data, 5) == [Lexeme(TInteger(5, Default), 5, 6)]
    requires Lex(data, 0) == [Lexeme(TInteger(1, Default), 0, 1), Lexeme(TRange, 2, 4),
                              Lexeme(TBinary(Subtract), 4, 5), Lexeme(TInteger(5, Default), 5, 6)]
    ensures Tokens(data, 0) == [TInteger(1, Default)] + [TRange, TBinary(Subtract), TInteger(5, Default)]
    ensures Tokens(data, 5) == [TInteger(5, Default)]
    ensures Leftover(data, 0, 3) == Lexeme(TRange, 2, 4) && After(data, 4) == 5
  {
  }

  lemma TightReadings(data: string)
    requires |data| == 6
    requires Lex(data, 5) == [Lexeme(TInteger(5, Default), 5, 6)]
    requires Lex(data, 0) == [Lexeme(TInteger(1, Default), 0, 1), Lexeme(TRange, 2, 4),
                              Lexeme(TBinary(Subtract), 4, 5), Lexeme(TInteger(5, Default), 5, 6)]
    ensures ListFrom(data, 0, true) == Success([Range(IntegerConstant(1, Default), IntegerConstant(5, Default))])
    ensures Items(Tokens(data, 0)) == Success([Range(IntegerConstant(1, Default), IntegerConstant(-5, Default))])
  {
    var one, five := IntegerConstant(1, Default), IntegerConstant(5, Default);
    var rest := [TRange, TBinary(Subtract), TInteger(5, Default)];
    TightPlaces(data);
    TightTokens(one, five);
    LoneRange(data, one, five, IntegerConstant(-5, Default), rest);
  }

  /** The list reads as the range from 1 to -5, but is parsed as the range from 1 to 5. */
  lemma TightRange()
    ensures ListFrom(TIGHT, 0, true) == Success([Range(IntegerConstant(1, Default), IntegerConstant(5, Default))])
    ensures Items(Tokens(TIGHT, 0)) == Success([Range(IntegerConstant(1, Default), IntegerConstant(-5, Default))])
  {
    TightLexemes(TIGHT);
    TightReadings(TIGHT);
  }
}
