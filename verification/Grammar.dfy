/** The recursive-descent grammar as functions on token sequences, and the printer it inverts.

    A token sequence starts with the current token; the empty sequence is the end of the data. */
module Grammar {
  import opened Wrappers
  import opened Syntax

  datatype ParseError =
    | LexicalError | EndOfExpression | UnexpectedToken | MissingCloseBracket | ActiveNeedsReference
    | ExpectedOpenBracket | ExpectedComma | TooManyArguments | ExpectedCloseBracket
    | FunctionNeedsReference | ExpectedColon

  datatype Parsed<T> = Parsed(value: T, rest: seq<Token>)

  type Outcome<T> = Result<Parsed<T>, ParseError>

  /** next_token(): drop the current token. Bad data raises as soon as it becomes current. */
  function Advance(ts: seq<Token>): (r: Result<seq<Token>, ParseError>)
    requires ts != []
    ensures r.Success? ==> r.value == ts[1..]
  {
    if |ts| > 1 && ts[1].TBad? then Failure(LexicalError) else Success(ts[1..])
  }

  /** The unary operator that a token stands for in operand position. */
  function UnaryOf(t: Token): Option<UnaryOp> {
    match t
    case TBinary(Subtract) => Some(Negate)
    case TBinary(Add) => Some(Plus)
    case TBinary(Multiply) => Some(Indirect)
    case TExclamation => Some(LogicalNot)
    case TTilde => Some(BitNot)
    case _ => None
  }

  predicate AtOperator(level: nat, ts: seq<Token>) {
    ts != [] && ts[0].TBinary? && Level(ts[0].op) == level
  }

  predicate At(t: Token, ts: seq<Token>) {
    ts != [] && ts[0] == t
  }

  /** parse_unary for level 0, parse_multiply to parse_implies for 1 to 12, parse_conditional for 13. */
  function ParseAt(level: nat, ts: seq<Token>): (r: Outcome<Expr>)
    requires level <= CONDITIONAL
    ensures r.Success? ==> |r.value.rest| < |ts|
    decreases |ts|, 2 * level + 2
  {
    if level == UNARY then
      ParseUnary(ts)
    else if level <= IMPLIES then
      var lhs :- ParseAt(level - 1, ts);
      ParseLoop(level, lhs.value, lhs.rest)
    else
      ParseConditional(ts)
  }

  /** The while loop shared by the twelve binary levels. */
  function ParseLoop(level: nat, lhs: Expr, ts: seq<Token>): (r: Outcome<Expr>)
    requires 1 <= level <= IMPLIES
    ensures r.Success? ==> |r.value.rest| <= |ts|
    decreases |ts|, 0
  {
    if AtOperator(level, ts) then
      var after :- Advance(ts);
      var rhs :- ParseAt(level - 1, after);
      ParseLoop(level, Binary(ts[0].op, lhs, rhs.value), rhs.rest)
    else
      Success(Parsed(lhs, ts))
  }

  function ParseConditional(ts: seq<Token>): (r: Outcome<Expr>)
    ensures r.Success? ==> |r.value.rest| < |ts|
    decreases |ts|, 2 * IMPLIES + 3
  {
    var test :- ParseAt(IMPLIES, ts);
    if At(TQuestion, test.rest) then
      var afterQuestion :- Advance(test.rest);
      var yes :- ParseConditional(afterQuestion);
      if !At(TColon, yes.rest) then Failure(ExpectedColon) else
      var afterColon :- Advance(yes.rest);
      var no :- ParseConditional(afterColon);
      Success(Parsed(Cond(test.value, yes.value, no.value), no.rest))
    else
      Success(test)
  }

  function ParseUnary(ts: seq<Token>): (r: Outcome<Expr>)
    ensures r.Success? ==> |r.value.rest| < |ts|
    decreases |ts|, 1
  {
    if ts == [] then Failure(EndOfExpression) else
    match ts[0]
    case TFunction(f) => ParseCall(f, ts)
    case TReference(name) => Leaf(Expr.Reference(name), ts)
    case TString(text) => Leaf(StringConstant(text), ts)
    case TInteger(v, f) => Leaf(IntegerConstant(v, f), ts)
    case TOpen =>
      var inner :- Advance(ts);
      var e :- ParseConditional(inner);
      if !At(TClose, e.rest) then Failure(MissingCloseBracket) else
      var rest :- Advance(e.rest);
      Success(Parsed(e.value, rest))
    case TQuestion =>
      var after :- Advance(ts);
      var e :- ParseUnary(after);
      if !e.value.Reference? then Failure(ActiveNeedsReference) else
      Success(Parsed(Active(e.value.name), e.rest))
    case _ => ParsePrefixed(ts)
  }

  /** The cases of parse_unary for -, +, *, ! and ~, and its default case. */
  function ParsePrefixed(ts: seq<Token>): (r: Outcome<Expr>)
    requires ts != []
    ensures r.Success? ==> |r.value.rest| < |ts|
    decreases |ts|, 0
  {
    var op := UnaryOf(ts[0]);
    if op.None? then Failure(UnexpectedToken) else
    var after :- Advance(ts);
    var e :- ParseUnary(after);
    Success(Parsed(ApplyUnary(op.value, e.value), e.rest))
  }

  function Leaf(e: Expr, ts: seq<Token>): (r: Outcome<Expr>)
    requires ts != []
    ensures r.Success? ==> r.value == Parsed(e, ts[1..])
  {
    var rest :- Advance(ts);
    Success(Parsed(e, rest))
  }

  function ParseCall(f: Func, ts: seq<Token>): (r: Outcome<Expr>)
    requires ts != []
    ensures r.Success? ==> |r.value.rest| < |ts|
    decreases |ts|, 0
  {
    var atOpen :- Advance(ts);
    if !At(TOpen, atOpen) then Failure(ExpectedOpenBracket) else
    var inner :- Advance(atOpen);
    var args :- ParseArgs(Arity(f), inner);
    FinishCall(f, args.value, args.rest)
  }

  /** What has to follow the arguments, and the check that the function makes of them. */
  function FinishCall(f: Func, args: Args, ts: seq<Token>): (r: Outcome<Expr>)
    ensures r.Success? ==> |r.value.rest| < |ts|
  {
    if At(TComma, ts) then Failure(TooManyArguments) else
    if !At(TClose, ts) then Failure(ExpectedCloseBracket) else
    var rest :- Advance(ts);
    if !GoodCall(f, args) then Failure(FunctionNeedsReference) else
    Success(Parsed(Node(OpCall(f), args), rest))
  }

  /** The argument loop of parse_function, with `wanted` arguments still to come. */
  function ParseArgs(wanted: nat, ts: seq<Token>): (r: Outcome<Args>)
    requires wanted > 0
    ensures r.Success? ==> |r.value.rest| < |ts| && Count(r.value.value) == wanted
    decreases |ts|, 2 * CONDITIONAL + 3
  {
    var first :- ParseConditional(ts);
    if wanted == 1 then
      Success(Parsed(MoreArgs(first.value, NoArgs), first.rest))
    else if !At(TComma, first.rest) then Failure(ExpectedComma) else
    var after :- Advance(first.rest);
    var others :- ParseArgs(wanted - 1, after);
    Success(Parsed(MoreArgs(first.value, others.value), others.rest))
  }

  // ---------------------------------------------------------------------------------------
  // Parsing gives canonical trees and leaves the last of the tokens, none of them used up and
  // the first of them good.

  predicate Remains(rest: seq<Token>, ts: seq<Token>) {
    |rest| <= |ts| && rest == ts[|ts| - |rest|..] && !At(TBad, rest)
  }

  lemma StillRemains(rest: seq<Token>, mid: seq<Token>, ts: seq<Token>)
    requires Remains(rest, mid) && Remains(mid, ts)
    ensures Remains(rest, ts)
  {
  }

  lemma AdvanceRemains(ts: seq<Token>)
    requires ts != [] && Advance(ts).Success?
    ensures Remains(Advance(ts).value, ts)
  {
  }

  predicate GoodParse(p: Parsed<Expr>, ts: seq<Token>) {
    Canonical(p.value) && Remains(p.rest, ts)
  }

  lemma {:induction false} ParseIsGood(level: nat, ts: seq<Token>)
    requires level <= CONDITIONAL && ParseAt(level, ts).Success?
    ensures GoodParse(ParseAt(level, ts).value, ts)
    decreases |ts|, 2 * level + 2
  {
    if level == UNARY {
      UnaryIsGood(ts);
    } else if level <= IMPLIES {
      ParseIsGood(level - 1, ts);
      var lhs := ParseAt(level - 1, ts).value;
      LoopIsGood(level, lhs.value, lhs.rest);
      StillRemains(ParseAt(level, ts).value.rest, lhs.rest, ts);
    } else {
      ConditionalIsGood(ts);
    }
  }

  lemma {:induction false} LoopIsGood(level: nat, lhs: Expr, ts: seq<Token>)
    requires 1 <= level <= IMPLIES && Canonical(lhs) && !At(TBad, ts) && ParseLoop(level, lhs, ts).Success?
    ensures GoodParse(ParseLoop(level, lhs, ts).value, ts)
    decreases |ts|, 0
  {
    if AtOperator(level, ts) {
      var after := Advance(ts).value;
      AdvanceRemains(ts);
      ParseIsGood(level - 1, after);
      var rhs := ParseAt(level - 1, after).value;
      StillRemains(rhs.rest, after, ts);
      LoopIsGood(level, Binary(ts[0].op, lhs, rhs.value), rhs.rest);
      StillRemains(ParseLoop(level, lhs, ts).value.rest, rhs.rest, ts);
    }
  }

  lemma {:induction false} ConditionalIsGood(ts: seq<Token>)
    requires ParseConditional(ts).Success?
    ensures GoodParse(ParseConditional(ts).value, ts)
    decreases |ts|, 2 * IMPLIES + 3
  {
    ParseIsGood(IMPLIES, ts);
    var test := ParseAt(IMPLIES, ts).value;
    if At(TQuestion, test.rest) {
      var afterQuestion := Advance(test.rest).value;
      AdvanceRemains(test.rest);
      StillRemains(afterQuestion, test.rest, ts);
      ConditionalIsGood(afterQuestion);
      var yes := ParseConditional(afterQuestion).value;
      StillRemains(yes.rest, afterQuestion, ts);
      var afterColon := Advance(yes.rest).value;
      AdvanceRemains(yes.rest);
      StillRemains(afterColon, yes.rest, ts);
      ConditionalIsGood(afterColon);
      var no := ParseConditional(afterColon).value;
      StillRemains(no.rest, afterColon, ts);
      assert Canonical(Cond(test.value, yes.value, no.value));
    }
  }

  lemma {:induction false} UnaryIsGood(ts: seq<Token>)
    requires ParseUnary(ts).Success?
    ensures GoodParse(ParseUnary(ts).value, ts)
    decreases |ts|, 1
  {
    AdvanceRemains(ts);
    var after := Advance(ts).value;
    if ts[0].TFunction? {
      CallIsGood(ts[0].func, ts);
    } else if ts[0].TOpen? {
      ConditionalIsGood(after);
      var e := ParseConditional(after).value;
      StillRemains(e.rest, after, ts);
      AdvanceRemains(e.rest);
      StillRemains(Advance(e.rest).value, e.rest, ts);
    } else if UnaryOf(ts[0]).Some? || ts[0].TQuestion? {
      UnaryIsGood(after);
      var e := ParseUnary(after).value;
      StillRemains(e.rest, after, ts);
      if UnaryOf(ts[0]).Some? {
        ApplyUnaryIsCanonical(UnaryOf(ts[0]).value, e.value);
      }
    }
  }

  lemma {:induction false} CallIsGood(f: Func, ts: seq<Token>)
    requires ts != [] && ParseCall(f, ts).Success?
    ensures GoodParse(ParseCall(f, ts).value, ts)
    decreases |ts|, 0
  {
    var atOpen := Advance(ts).value;
    var inner := Advance(atOpen).value;
    AdvanceRemains(ts);
    AdvanceRemains(atOpen);
    StillRemains(inner, atOpen, ts);
    ArgsAreGood(Arity(f), inner);
    var args := ParseArgs(Arity(f), inner).value;
    StillRemains(args.rest, inner, ts);
    FinishIsGood(f, args.value, args.rest);
    StillRemains(ParseCall(f, ts).value.rest, args.rest, ts);
  }

  lemma FinishIsGood(f: Func, args: Args, ts: seq<Token>)
    requires CanonicalArgs(args) && FinishCall(f, args, ts).Success?
    ensures GoodParse(FinishCall(f, args, ts).value, ts)
  {
    AdvanceRemains(ts);
  }

  lemma {:induction false} ArgsAreGood(wanted: nat, ts: seq<Token>)
    requires wanted > 0 && ParseArgs(wanted, ts).Success?
    ensures var p := ParseArgs(wanted, ts).value; CanonicalArgs(p.value) && Remains(p.rest, ts)
    decreases |ts|, 2 * CONDITIONAL + 3
  {
    ConditionalIsGood(ts);
    var first := ParseConditional(ts).value;
    if wanted == 1 {
      assert CanonicalArgs(MoreArgs(first.value, NoArgs));
    } else {
      var after := Advance(first.rest).value;
      var others := ParseArgs(wanted - 1, after).value;
      assert ParseArgs(wanted, ts).value == Parsed(MoreArgs(first.value, others.value), others.rest);
      ArgsAreGood(wanted - 1, after);
      assert CanonicalArgs(MoreArgs(first.value, others.value));
      RemainsAfterComma(others.rest, first.rest, ts);
    }
  }

  lemma RemainsAfterComma(rest: seq<Token>, comma: seq<Token>, ts: seq<Token>)
    requires comma != [] && Advance(comma).Success? && Remains(comma, ts) && Remains(rest, Advance(comma).value)
    ensures Remains(rest, ts)
  {
    AdvanceRemains(comma);
    StillRemains(rest, Advance(comma).value, comma);
    StillRemains(rest, comma, ts);
  }

  // ---------------------------------------------------------------------------------------
  // Printing with the fewest brackets.

  function ShowAt(level: nat, e: Expr): (ts: seq<Token>)
    requires WellFormed(e)
    ensures ts != [] && !ts[0].TBad?
    decreases e, 1
  {
    if Precedence(e) <= level then Show(e) else [TOpen] + Show(e) + [TClose]
  }

  function UnaryToken(op: UnaryOp): (t: Token)
    ensures UnaryOf(t) == Some(op)
  {
    match op
    case Negate => TBinary(Subtract)
    case Plus => TBinary(Add)
    case Indirect => TBinary(Multiply)
    case LogicalNot => TExclamation
    case BitNot => TTilde
  }

  function Show(e: Expr): (ts: seq<Token>)
    requires WellFormed(e)
    ensures ts != [] && !ts[0].TBad?
    decreases e, 0
  {
    match e
    case Reference(name) => [TReference(name)]
    case StringConstant(text) => [TString(text)]
    case IntegerConstant(v, f) => [TInteger(v, f)]
    case Active(name) => [TQuestion, TReference(name)]
    case Node(op, args) =>
      match op
      case OpUnary(uop) =>
        assert e == Unary(uop, args.first);
        [UnaryToken(uop)] + ShowAt(UNARY, args.first)
      case OpBinary(bop) =>
        var l, r := args.first, args.others.first;
        assert e == Binary(bop, l, r);
        ShowAt(Level(bop), l) + [TBinary(bop)] + ShowAt(Level(bop) - 1, r)
      case OpCond =>
        var c, y, n := args.first, args.others.first, args.others.others.first;
        assert e == Cond(c, y, n);
        ShowAt(IMPLIES, c) + [TQuestion] + ShowAt(CONDITIONAL, y) + [TColon] + ShowAt(CONDITIONAL, n)
      case OpCall(f) => [TFunction(f), TOpen] + ShowArgs(args) + [TClose]
  }

  function ShowArgs(args: Args): (ts: seq<Token>)
    requires WellFormedArgs(args)
    ensures args.MoreArgs? ==> ts != [] && !ts[0].TBad?
    decreases args
  {
    match args
    case NoArgs => []
    case MoreArgs(a, NoArgs) => ShowAt(CONDITIONAL, a)
    case MoreArgs(a, others) => ShowAt(CONDITIONAL, a) + [TComma] + ShowArgs(others)
  }

  // ---------------------------------------------------------------------------------------
  // Parsing undoes printing.

  /** `rest` ends an expression of the given level: it does not start with bad data, with an
      operator the level would go on with, or, at the outermost level, with a question mark. */
  predicate Stops(level: nat, rest: seq<Token>) {
    rest == [] ||
    (&& !rest[0].TBad?
     && (rest[0].TBinary? ==> Level(rest[0].op) > level)
     && (level == CONDITIONAL ==> !rest[0].TQuestion?))
  }

  lemma StopsBelow(level: nat, lower: nat, rest: seq<Token>)
    requires Stops(level, rest) && lower <= level <= CONDITIONAL
    ensures Stops(lower, rest)
  {
  }

  lemma LoopStops(level: nat, lhs: Expr, rest: seq<Token>)
    requires 1 <= level <= IMPLIES && Stops(level, rest)
    ensures ParseLoop(level, lhs, rest) == Success(Parsed(lhs, rest))
  {
  }

  /** A complete phrase of a lower level is parsed the same way by every level above it. */
  lemma {:induction false} Climb(low: nat, level: nat, ts: seq<Token>, e: Expr, rest: seq<Token>)
    requires low <= level <= CONDITIONAL
    requires ParseAt(low, ts) == Success(Parsed(e, rest))
    requires Stops(level, rest)
    ensures ParseAt(level, ts) == Success(Parsed(e, rest))
    decreases level
  {
    if low < level {
      StopsBelow(level, level - 1, rest);
      Climb(low, level - 1, ts, e, rest);
      if level <= IMPLIES {
        LoopStops(level, e, rest);
      }
    }
  }

  lemma AdvancePast(t: Token, rest: seq<Token>)
    requires rest == [] || !rest[0].TBad?
    ensures Advance([t] + rest) == Success(rest)
  {
    assert ([t] + rest)[1..] == rest;
  }

  /** An expression printed at a level is read back at that level, signs absorbed. */
  lemma {:induction false} RoundTrip(level: nat, e: Expr, rest: seq<Token>)
    requires level <= CONDITIONAL && WellFormed(e) && Stops(level, rest)
    ensures ParseAt(level, ShowAt(level, e) + rest) == Success(Parsed(Fold(e), rest))
    decreases e, 3
  {
    var p := Precedence(e);
    if p <= level {
      StopsBelow(level, p, rest);
      RoundTripOwn(e, rest);
      Climb(p, level, Show(e) + rest, Fold(e), rest);
    } else {
      var closing := [TClose] + rest;
      RoundTripOwn(e, closing);
      Climb(p, CONDITIONAL, Show(e) + closing, Fold(e), closing);
      var ts := ShowAt(level, e) + rest;
      assert ts == [TOpen] + (Show(e) + closing);
      AdvancePast(TOpen, Show(e) + closing);
      AdvancePast(TClose, rest);
      Climb(UNARY, level, ts, Fold(e), rest);
    }
  }

  /** The same at the expression's own level, where no brackets are printed. */
  lemma {:induction false} RoundTripOwn(e: Expr, rest: seq<Token>)
    requires WellFormed(e) && Stops(Precedence(e), rest)
    ensures ParseAt(Precedence(e), Show(e) + rest) == Success(Parsed(Fold(e), rest))
    decreases e, 2
  {
    if e.Node? {
      var args := e.args;
      match e.op
      case OpUnary(op) =>
        assert e == Unary(op, args.first);
        RoundTripUnary(op, args.first, rest);
      case OpBinary(op) =>
        assert e == Binary(op, args.first, args.others.first);
        RoundTripBinary(op, args.first, args.others.first, rest);
      case OpCond =>
        assert e == Cond(args.first, args.others.first, args.others.others.first);
        RoundTripCond(args.first, args.others.first, args.others.others.first, rest);
      case OpCall(f) => RoundTripCall(f, args, rest);
    } else if e.Active? {
      RoundTripActive(e.name, rest);
    } else {
      RoundTripLeaf(e, rest);
    }
  }

  lemma RoundTripLeaf(e: Expr, rest: seq<Token>)
    requires e.Reference? || e.StringConstant? || e.IntegerConstant?
    requires Stops(UNARY, rest)
    ensures ParseUnary(Show(e) + rest) == Success(Parsed(e, rest))
  {
    assert Show(e) + rest == [Show(e)[0]] + rest;
    AdvancePast(Show(e)[0], rest);
  }

  lemma RoundTripActive(name: string, rest: seq<Token>)
    requires Stops(UNARY, rest)
    ensures ParseUnary(Show(Active(name)) + rest) == Success(Parsed(Active(name), rest))
  {
    var tail := Show(Expr.Reference(name)) + rest;
    assert Show(Active(name)) + rest == [TQuestion] + tail;
    AdvancePast(TQuestion, tail);
    RoundTripLeaf(Expr.Reference(name), rest);
  }

  lemma {:induction false} RoundTripUnary(op: UnaryOp, a: Expr, rest: seq<Token>)
    requires WellFormed(a) && Stops(UNARY, rest)
    ensures ParseUnary(Show(Unary(op, a)) + rest) == Success(Parsed(Fold(Unary(op, a)), rest))
    decreases Unary(op, a), 0
  {
    var tail := ShowAt(UNARY, a) + rest;
    assert Show(Unary(op, a)) + rest == [UnaryToken(op)] + tail;
    AdvancePast(UnaryToken(op), tail);
    RoundTrip(UNARY, a, rest);
    assert ParseUnary(tail) == ParseAt(UNARY, tail);
  }

  lemma {:induction false} RoundTripBinary(op: BinaryOp, l: Expr, r: Expr, rest: seq<Token>)
    requires WellFormed(l) && WellFormed(r) && Stops(Level(op), rest)
    ensures ParseAt(Level(op), Show(Binary(op, l, r)) + rest)
         == Success(Parsed(Fold(Binary(op, l, r)), rest))
    decreases Binary(op, l, r), 1
  {
    var ts := ShowAt(Level(op), l) + OperatorThen(op, r, rest);
    assert Show(Binary(op, l, r)) + rest == ts;
    RoundTripOperator(op, l, r, rest);
    LoopStops(Level(op), Fold(Binary(op, l, r)), rest);
  }

  function OperatorThen(op: BinaryOp, r: Expr, rest: seq<Token>): seq<Token>
    requires WellFormed(r)
  {
    [TBinary(op)] + (ShowAt(Level(op) - 1, r) + rest)
  }

  /** Left operand, operator and right operand bring the loop to the combined tree. */
  lemma {:induction false} RoundTripOperator(op: BinaryOp, l: Expr, r: Expr, rest: seq<Token>)
    requires WellFormed(l) && WellFormed(r) && Stops(Level(op) - 1, rest)
    ensures ParseAt(Level(op), ShowAt(Level(op), l) + OperatorThen(op, r, rest))
         == ParseLoop(Level(op), Binary(op, Fold(l), Fold(r)), rest)
    decreases Binary(op, l, r), 0
  {
    var level := Level(op);
    var tail := OperatorThen(op, r, rest);
    Spine(level, l, tail);
    AdvancePast(TBinary(op), ShowAt(level - 1, r) + rest);
    RoundTrip(level - 1, r, rest);
  }

  /** A left operand leaves the loop of its level with the operand's tree in hand, however
      many operators of that level it holds itself. */
  lemma {:induction false} Spine(level: nat, e: Expr, rest: seq<Token>)
    requires 1 <= level <= IMPLIES && WellFormed(e) && Stops(level - 1, rest)
    ensures ParseAt(level, ShowAt(level, e) + rest) == ParseLoop(level, Fold(e), rest)
    decreases e, 4
  {
    if Precedence(e) == level {
      var (op, l, r) := (e.op.bop, e.args.first, e.args.others.first);
      assert e == Binary(op, l, r);
      assert ShowAt(level, e) + rest == ShowAt(level, l) + OperatorThen(op, r, rest);
      RoundTripOperator(op, l, r, rest);
    } else {
      RoundTrip(level - 1, e, rest);
    }
  }

  lemma {:induction false} RoundTripCond(c: Expr, y: Expr, n: Expr, rest: seq<Token>)
    requires WellFormed(c) && WellFormed(y) && WellFormed(n)
    requires Stops(CONDITIONAL, rest)
    ensures ParseConditional(Show(Cond(c, y, n)) + rest) == Success(Parsed(Fold(Cond(c, y, n)), rest))
    decreases Cond(c, y, n), 0
  {
    var tail3 := ShowAt(CONDITIONAL, n) + rest;
    var tail2 := ShowAt(CONDITIONAL, y) + ([TColon] + tail3);
    var tail1 := [TQuestion] + tail2;
    assert Show(Cond(c, y, n)) + rest == ShowAt(IMPLIES, c) + tail1;
    RoundTrip(IMPLIES, c, tail1);
    AdvancePast(TQuestion, tail2);
    RoundTrip(CONDITIONAL, y, [TColon] + tail3);
    AdvancePast(TColon, tail3);
    RoundTrip(CONDITIONAL, n, rest);
  }

  lemma {:induction false} RoundTripCall(f: Func, args: Args, rest: seq<Token>)
    requires GoodCall(f, args) && WellFormedArgs(args) && Stops(UNARY, rest)
    ensures ParseUnary(Show(Node(OpCall(f), args)) + rest)
         == Success(Parsed(Node(OpCall(f), FoldArgs(args)), rest))
    decreases Node(OpCall(f), args), 0
  {
    var closing := [TClose] + rest;
    var inner := ShowArgs(args) + closing;
    assert Show(Node(OpCall(f), args)) + rest == [TFunction(f)] + ([TOpen] + inner);
    AdvancePast(TFunction(f), [TOpen] + inner);
    AdvancePast(TOpen, inner);
    RoundTripArgs(args, closing);
    AdvancePast(TClose, rest);
    FoldKeepsCalls(f, args);
  }

  lemma {:induction false} RoundTripArgs(args: Args, rest: seq<Token>)
    requires args.MoreArgs? && WellFormedArgs(args) && At(TClose, rest)
    ensures ParseArgs(Count(args), ShowArgs(args) + rest) == Success(Parsed(FoldArgs(args), rest))
    decreases args, 0
  {
    if args.others.NoArgs? {
      RoundTrip(CONDITIONAL, args.first, rest);
    } else {
      var tail := ShowArgs(args.others) + rest;
      assert ShowArgs(args) + rest == ShowAt(CONDITIONAL, args.first) + ([TComma] + tail);
      RoundTrip(CONDITIONAL, args.first, [TComma] + tail);
      AdvancePast(TComma, tail);
      RoundTripArgs(args.others, rest);
    }
  }

  /** Parsing the printed form of any well-formed tree consumes every token and gives the tree back. */
  lemma ParseUndoesShow(e: Expr)
    requires WellFormed(e)
    ensures ParseAt(CONDITIONAL, Show(e)) == Success(Parsed(Fold(e), []))
  {
    RoundTrip(CONDITIONAL, e, []);
    assert Show(e) + [] == Show(e);
  }

  /** Printing what was parsed and parsing again changes nothing: the printer is a normal form. */
  lemma ReparseIsIdentity(ts: seq<Token>)
    requires ParseAt(CONDITIONAL, ts).Success?
    ensures var e := ParseAt(CONDITIONAL, ts).value.value;
            WellFormed(e) && ParseAt(CONDITIONAL, Show(e)) == Success(Parsed(e, []))
  {
    ParseIsGood(CONDITIONAL, ts);
    ParseUndoesShow(ParseAt(CONDITIONAL, ts).value.value);
  }
}
