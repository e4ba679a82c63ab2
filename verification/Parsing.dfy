/** The recursive-descent parser as libcdl has it: it consumes tokens and pushes
    sub-expressions and references, now and then rewriting the one pushed last. */
module Parsing {
  import opened Wrappers
  import opened Syntax
  import opened Vectors
  import opened Programs
  import opened Tokenizers
  import Grammar

  datatype Status = Ok | Raised(error: Grammar.ParseError)

  /** Drop the current token and parse what follows. */
  ghost function Following(level: nat, ts: seq<Token>): (r: Grammar.Outcome<Expr>)
    requires level <= CONDITIONAL && ts != []
    ensures r.Success? ==> |r.value.rest| < |ts|
  {
    var after :- Grammar.Advance(ts);
    Grammar.ParseAt(level, after)
  }

  /** From the question mark on: both branches of a conditional. */
  ghost function Branches(test: Expr, ts: seq<Token>): Grammar.Outcome<Expr>
    requires ts != []
  {
    var yes :- Following(CONDITIONAL, ts);
    if !Grammar.At(TColon, yes.rest) then Failure(Grammar.ExpectedColon) else
    var no :- Following(CONDITIONAL, yes.rest);
    Success(Grammar.Parsed(Cond(test, yes.value, no.value), no.rest))
  }

  lemma ConditionalSteps(ts: seq<Token>)
    ensures var test := Grammar.ParseAt(IMPLIES, ts);
            Grammar.ParseConditional(ts) ==
              if test.Failure? || !Grammar.At(TQuestion, test.value.rest) then test
              else Branches(test.value.value, test.value.rest)
  {
    assert Grammar.ParseAt(CONDITIONAL, ts) == Grammar.ParseConditional(ts);
  }

  lemma BinarySteps(level: nat, ts: seq<Token>)
    requires 1 <= level <= IMPLIES
    ensures var left := Grammar.ParseAt(level - 1, ts);
            Grammar.ParseAt(level, ts) ==
              if left.Failure? then left else Grammar.ParseLoop(level, left.value.value, left.value.rest)
  {
  }

  lemma LoopSteps(level: nat, lhs: Expr, ts: seq<Token>)
    requires 1 <= level <= IMPLIES
    ensures Grammar.ParseLoop(level, lhs, ts) ==
              if !Grammar.AtOperator(level, ts) then Success(Grammar.Parsed(lhs, ts))
              else
                var right := Following(level - 1, ts);
                if right.Failure? then right
                else Grammar.ParseLoop(level, Binary(ts[0].op, lhs, right.value.value), right.value.rest)
  {
  }

  /** The current token must be this one; drop it. */
  ghost function Dropped(t: Token, error: Grammar.ParseError, ts: seq<Token>):
      (r: Result<seq<Token>, Grammar.ParseError>)
    ensures r.Success? ==> ts != [] && r.value == ts[1..]
  {
    if Grammar.At(t, ts) then Grammar.Advance(ts) else Failure(error)
  }

  /** The function's name and its opening bracket. */
  ghost function Opened(ts: seq<Token>): (r: Result<seq<Token>, Grammar.ParseError>)
    requires ts != []
    ensures r.Success? ==> |r.value| < |ts|
  {
    var atOpen :- Grammar.Advance(ts);
    Dropped(TOpen, Grammar.ExpectedOpenBracket, atOpen)
  }

  /** A reference that becomes the question whether it is active. */
  ghost function Activated(r: Grammar.Outcome<Expr>): Grammar.Outcome<Expr> {
    match r
    case Failure(error) => Failure(error)
    case Success(g) =>
      if g.value.Reference? then Success(Grammar.Parsed(Active(g.value.name), g.rest))
      else Failure(Grammar.ActiveNeedsReference)
  }

  lemma QuestionIs(ts: seq<Token>)
    requires ts != [] && ts[0].TQuestion?
    ensures Grammar.ParseUnary(ts) == Activated(Following(UNARY, ts))
  {
  }

  /** A call from its brackets on. */
  ghost function Called(f: Func, ts: seq<Token>): (r: Grammar.Outcome<Expr>)
    requires ts != []
  {
    var inner :- Opened(ts);
    var args :- Grammar.ParseArgs(Arity(f), inner);
    Grammar.FinishCall(f, args.value, args.rest)
  }

  lemma CallIs(f: Func, ts: seq<Token>)
    requires ts != []
    ensures Grammar.ParseCall(f, ts) == Called(f, ts)
  {
  }

  /** One argument, and the comma after it if more arguments are wanted. */
  ghost function Argument(more: bool, ts: seq<Token>): (r: Grammar.Outcome<Expr>)
    ensures r.Success? ==> |r.value.rest| < |ts|
  {
    var a :- Grammar.ParseConditional(ts);
    if !more then Success(a) else
    var after :- Dropped(TComma, Grammar.ExpectedComma, a.rest);
    Success(Grammar.Parsed(a.value, after))
  }

  /** The outcome of an argument list whose first arguments are the last n trees of the row. */
  ghost function Arguments(row: Row, n: nat, wanted: nat, ts: seq<Token>): Grammar.Outcome<Args>
    requires n <= Height(row) && n <= wanted
  {
    if n == wanted then Success(Grammar.Parsed(Take(row, n, NoArgs), ts))
    else
      match Grammar.ParseArgs(wanted - n, ts)
      case Failure(error) => Failure(error)
      case Success(g) => Success(Grammar.Parsed(Take(row, n, g.value), g.rest))
  }

  /** Moving one argument from the tokens to the row does not change the outcome of the list. */
  lemma ArgumentsStep(row: Row, n: nat, wanted: nat, ts: seq<Token>)
    requires n <= Height(row) && n < wanted
    ensures var one := Argument(n + 1 < wanted, ts);
            Arguments(row, n, wanted, ts) ==
              if one.Failure? then Failure(one.error)
              else Arguments(Put(row, one.value.value), n + 1, wanted, one.value.rest)
  {
  }

  lemma TailStep(row: Row, a: Expr, n: nat)
    requires n <= Height(row)
    ensures Roots(Put(row, a), n + 1) == Roots(row, n) + [End(Put(row, a)) - 1]
    ensures Programs.Drop(Put(row, a), n + 1) == Programs.Drop(row, n)
  {
  }

  class Parser {
    const t: Tokenizer
    const p: Program

    constructor ()
      ensures fresh(t) && fresh(p) && t.Ready() && t.Upcoming() == [] && p.Valid() && p.row == Empty
    {
      t := new Tokenizer();
      p := new Program();
    }

    ghost predicate Ready()
      reads t, p
    {
      t.Ready() && p.Valid()
    }

    /** The outcome that the grammar prescribes, with the tree pushed and its tokens consumed. */
    ghost predicate Did(status: Status, expected: Grammar.Outcome<Expr>, row0: Row)
      reads t, p
    {
      match expected
      case Failure(error) => status == Raised(error)
      case Success(g) => status == Ok && Ready() && t.Upcoming() == g.rest && p.row == Put(row0, g.value)
    }

    method Advance() returns (status: Status)
      requires t.Ready() && t.token.Some?
      modifies t`index, t`current, t`token, t`start
      ensures match Grammar.Advance(old(t.Upcoming()))
              case Failure(error) => status == Raised(error)
              case Success(rest) => status == Ok && t.Ready() && t.Upcoming() == rest
    {
      var ok := t.Advance();
      status := if ok then Ok else Raised(Grammar.LexicalError);
    }

    method ParseUnary() returns (status: Status)
      requires Ready()
      modifies p, t`index, t`current, t`token, t`start
      ensures Did(status, Grammar.ParseUnary(old(t.Upcoming())), old(p.row))
      decreases |t.Upcoming()|, 2
    {
      if t.token.None? {
        return Raised(Grammar.EndOfExpression);
      }
      var token := t.token.value;
      if token.TFunction? {
        status := ParseFunction(token.func);
      } else if token.TReference? {
        status := ParseReference(token.name);
      } else if token.TString? {
        status := ParseConstant(SString(token.text), StringConstant(token.text));
      } else if token.TInteger? {
        status := ParseConstant(SInteger(token.value, token.format), IntegerConstant(token.value, token.format));
      } else if token.TOpen? {
        status := ParseBracket();
      } else if token.TQuestion? {
        status := ParseActive();
      } else {
        status := ParsePrefixed();
      }
    }

    method ParseReference(name: string) returns (status: Status)
      requires Ready() && t.token.Some?
      modifies p, t`index, t`current, t`token, t`start
      ensures Did(status, Grammar.Leaf(Expr.Reference(name), old(t.Upcoming())), old(p.row))
    {
      p.PushReference(name);
      status := Advance();
    }

    method ParseConstant(sub: Sub, ghost e: Expr) returns (status: Status)
      requires Ready() && t.token.Some?
      requires || (e.StringConstant? && sub == SString(e.text))
               || (e.IntegerConstant? && sub == SInteger(e.value, e.format))
      modifies p, t`index, t`current, t`token, t`start
      ensures Did(status, Grammar.Leaf(e, old(t.Upcoming())), old(p.row))
    {
      p.PushConstant(sub, e);
      status := Advance();
    }

    /** Advance past the current token and parse. */
    method ParseNext(level: nat) returns (status: Status)
      requires Ready() && t.token.Some? && level <= CONDITIONAL
      modifies p, t`index, t`current, t`token, t`start
      ensures Did(status, Following(level, old(t.Upcoming())), old(p.row))
      decreases |t.Upcoming()|, 0
    {
      status := Advance();
      if status.Ok? {
        status := ParseAt(level);
      }
    }

    /** Advance past a token that has to be there. */
    method Drop(token: Token, error: Grammar.ParseError) returns (status: Status)
      requires t.Ready()
      modifies t`index, t`current, t`token, t`start
      ensures match Dropped(token, error, old(t.Upcoming()))
              case Failure(e) => status == Raised(e)
              case Success(rest) => status == Ok && t.Ready() && t.Upcoming() == rest
    {
      if t.token != Some(token) {
        return Raised(error);
      }
      status := Advance();
    }

    method ParseBracket() returns (status: Status)
      requires Ready() && t.token == Some(TOpen)
      modifies p, t`index, t`current, t`token, t`start
      ensures Did(status, Grammar.ParseUnary(old(t.Upcoming())), old(p.row))
      decreases |t.Upcoming()|, 1
    {
      status := ParseNext(CONDITIONAL);
      if status.Raised? { return; }
      status := Drop(TClose, Grammar.MissingCloseBracket);
    }

    method ParseActive() returns (status: Status)
      requires Ready() && t.token == Some(TQuestion)
      modifies p, t`index, t`current, t`token, t`start
      ensures Did(status, Grammar.ParseUnary(old(t.Upcoming())), old(p.row))
      decreases |t.Upcoming()|, 1
    {
      QuestionIs(t.Upcoming());
      status := ParseNext(UNARY);
      if status.Ok? {
        status := Activate();
      }
    }

    /** The reference that has just been parsed is what the question mark is about. */
    method Activate() returns (status: Status)
      requires Ready() && p.row.Put?
      modifies p
      ensures Did(status, Activated(Success(Grammar.Parsed(old(p.row).top, t.Upcoming()))), old(p.row).below)
    {
      var ok := p.MakeActive();
      status := if ok then Ok else Raised(Grammar.ActiveNeedsReference);
    }

    /** -x, +x, *x, !x and ~x. */
    method ParsePrefixed() returns (status: Status)
      requires Ready() && t.token.Some?
      modifies p, t`index, t`current, t`token, t`start
      ensures Did(status, Grammar.ParsePrefixed(old(t.Upcoming())), old(p.row))
      decreases |t.Upcoming()|, 1
    {
      var op := Grammar.UnaryOf(t.token.value);
      if op.None? {
        return Raised(Grammar.UnexpectedToken);
      }
      status := ParseNext(UNARY);
      if status.Raised? { return; }
      p.ApplySign(op.value);
    }

    method ParseFunction(f: Func) returns (status: Status)
      requires Ready() && t.token == Some(TFunction(f))
      modifies p, t`index, t`current, t`token, t`start
      ensures Did(status, Grammar.ParseCall(f, old(t.Upcoming())), old(p.row))
      decreases |t.Upcoming()|, 1
    {
      CallIs(f, t.Upcoming());
      status := ParseCall(f);
    }

    method ParseCall(f: Func) returns (status: Status)
      requires Ready() && t.token.Some?
      modifies p, t`index, t`current, t`token, t`start
      ensures Did(status, Called(f, old(t.Upcoming())), old(p.row))
      decreases |t.Upcoming()|, 0
    {
      status := OpenCall();
      if status.Raised? { return; }
      var roots: seq<nat>;
      status, roots := ParseArgs(Arity(f));
      if status.Raised? { return; }
      status := FinishCall(f, roots);
    }

    method OpenCall() returns (status: Status)
      requires t.Ready() && t.token.Some?
      modifies t`index, t`current, t`token, t`start
      ensures match Opened(old(t.Upcoming()))
              case Failure(error) => status == Raised(error)
              case Success(rest) => status == Ok && t.Ready() && t.Upcoming() == rest
    {
      status := Advance();
      if status.Raised? { return; }
      status := Drop(TOpen, Grammar.ExpectedOpenBracket);
    }

    /** The end of parse_function, with all arguments parsed. */
    method FinishCall(f: Func, roots: seq<nat>) returns (status: Status)
      requires Ready() && |roots| == Arity(f) <= Height(p.row) && roots == Roots(p.row, Arity(f))
      modifies p, t`index, t`current, t`token, t`start
      ensures Did(status, Grammar.FinishCall(f, Take(old(p.row), Arity(f), NoArgs), old(t.Upcoming())),
                  Programs.Drop(old(p.row), Arity(f)))
    {
      if t.token == Some(TComma) {
        return Raised(Grammar.TooManyArguments);
      }
      status := Drop(TClose, Grammar.ExpectedCloseBracket);
      if status.Raised? { return; }
      if NeedsReference(f) {
        var ok := p.IsReference(roots[0], Arity(f));
        if !ok {
          return Raised(Grammar.FunctionNeedsReference);
        }
      }
      p.PushNode(OpCall(f), roots);
    }

    /** The last trees of the row are arguments, with these root entries, on top of row0. */
    ghost predicate Collected(roots: seq<nat>, row0: Row)
      reads p
    {
      && |roots| <= Height(p.row)
      && Programs.Drop(p.row, |roots|) == row0 && roots == Roots(p.row, |roots|)
    }

    /** The argument loop: parse, note the root, expect a comma unless it was the last. */
    method ParseArgs(wanted: nat) returns (status: Status, roots: seq<nat>)
      requires Ready() && wanted > 0
      modifies p, t`index, t`current, t`token, t`start
      ensures match Grammar.ParseArgs(wanted, old(t.Upcoming()))
              case Failure(error) => status == Raised(error)
              case Success(g) =>
                && status == Ok && Ready() && t.Upcoming() == g.rest
                && |roots| == wanted && Collected(roots, old(p.row)) && Take(p.row, wanted, NoArgs) == g.value
      decreases |t.Upcoming()|, 2 * CONDITIONAL + 4
    {
      roots, status := [], Ok;
      ghost var whole := Arguments(p.row, 0, wanted, t.Upcoming());
      while |roots| < wanted
        invariant |roots| <= wanted && status == Ok && Ready()
        invariant |t.Upcoming()| <= old(|t.Upcoming()|)
        invariant Collected(roots, old(p.row))
        invariant whole == Arguments(p.row, |roots|, wanted, t.Upcoming())
      {
        ArgumentsStep(p.row, |roots|, wanted, t.Upcoming());
        status, roots := ParseArgument(roots, wanted, old(p.row));
        if status.Raised? { return; }
      }
    }

    method ParseArgument(roots: seq<nat>, wanted: nat, ghost row0: Row) returns (status: Status, roots': seq<nat>)
      requires Ready() && |roots| < wanted && Collected(roots, row0)
      modifies p, t`index, t`current, t`token, t`start
      ensures Did(status, Argument(|roots| + 1 < wanted, old(t.Upcoming())), old(p.row))
      ensures status.Ok? ==> |roots'| == |roots| + 1 && Collected(roots', row0)
      decreases |t.Upcoming()|, 2 * CONDITIONAL + 3
    {
      roots' := roots;
      status := ParseConditional();
      if status.Raised? { return; }
      TailStep(old(p.row), p.row.top, |roots|);
      roots' := roots + [p.first];
      if |roots'| < wanted {
        status := Drop(TComma, Grammar.ExpectedComma);
      }
    }

    /** parse_multiply to parse_implies: one loop for every level. */
    method ParseBinary(level: nat) returns (status: Status)
      requires Ready() && 1 <= level <= IMPLIES
      modifies p, t`index, t`current, t`token, t`start
      ensures Did(status, Grammar.ParseAt(level, old(t.Upcoming())), old(p.row))
      decreases |t.Upcoming()|, 2 * level + 2
    {
      ghost var whole := Grammar.ParseAt(level, t.Upcoming());
      BinarySteps(level, t.Upcoming());
      status := ParseAt(level - 1);
      if status.Raised? { return; }
      while t.token.Some? && t.token.value.TBinary? && Level(t.token.value.op) == level
        invariant status == Ok && Ready()
        invariant |t.Upcoming()| < old(|t.Upcoming()|)
        invariant p.row.Put? && p.row.below == old(p.row)
        invariant whole == Grammar.ParseLoop(level, p.row.top, t.Upcoming())
        decreases |t.Upcoming()|
      {
        LoopSteps(level, p.row.top, t.Upcoming());
        status := ParseOperand(level);
        if status.Raised? { return; }
      }
      LoopSteps(level, p.row.top, t.Upcoming());
    }

    /** One round of the loop: the operator, its right operand, and the node over both. */
    method ParseOperand(level: nat) returns (status: Status)
      requires Ready() && 1 <= level <= IMPLIES && t.token.Some? && t.token.value.TBinary? && p.row.Put?
      modifies p, t`index, t`current, t`token, t`start
      ensures match Following(level - 1, old(t.Upcoming()))
              case Failure(error) => status == Raised(error)
              case Success(g) =>
                && status == Ok && Ready() && t.Upcoming() == g.rest
                && p.row == Put(old(p.row.below), Binary(old(t.token.value.op), old(p.row.top), g.value))
      decreases |t.Upcoming()|, 1
    {
      var op, lhs := t.token.value.op, p.first;
      ghost var row0 := p.row;
      ghost var next := Following(level - 1, t.Upcoming());
      status := ParseNext(level - 1);
      if status.Raised? { return; }
      assert p.row == Put(row0, next.value.value);
      ghost var rest := t.Upcoming();
      p.PushBinary(op, lhs, p.first);
      assert t.Ready() && t.Upcoming() == rest;
    }

    method ParseConditional() returns (status: Status)
      requires Ready()
      modifies p, t`index, t`current, t`token, t`start
      ensures Did(status, Grammar.ParseConditional(old(t.Upcoming())), old(p.row))
      decreases |t.Upcoming()|, 2 * IMPLIES + 4
    {
      ConditionalSteps(t.Upcoming());
      status := ParseAt(IMPLIES);
      if status.Ok? && t.token == Some(TQuestion) {
        status := ParseBranches();
      }
    }

    method ParseBranches() returns (status: Status)
      requires Ready() && t.token == Some(TQuestion) && p.row.Put?
      modifies p, t`index, t`current, t`token, t`start
      ensures Did(status, Branches(old(p.row.top), old(t.Upcoming())), old(p.row.below))
      decreases |t.Upcoming()|, 1
    {
      ghost var row, ts := p.row, t.Upcoming();
      var lhs := p.first;
      status := ParseNext(CONDITIONAL);
      if status.Raised? { return; }
      ghost var yes := Following(CONDITIONAL, ts).value;
      assert p.row == Put(row, yes.value) && t.Upcoming() == yes.rest;
      var rhs := p.first;
      if t.token != Some(TColon) {
        return Raised(Grammar.ExpectedColon);
      }
      status := ParseNext(CONDITIONAL);
      if status.Raised? { return; }
      ghost var no := Following(CONDITIONAL, yes.rest).value;
      assert p.row == Put(Put(row, yes.value), no.value) && t.Upcoming() == no.rest;
      p.PushCond(lhs, rhs, p.first);
    }

    method ParseAt(level: nat) returns (status: Status)
      requires Ready() && level <= CONDITIONAL
      modifies p, t`index, t`current, t`token, t`start
      ensures Did(status, Grammar.ParseAt(level, old(t.Upcoming())), old(p.row))
      decreases |t.Upcoming()|, 2 * level + 3
    {
      if level == UNARY {
        status := ParseUnary();
      } else if level <= IMPLIES {
        status := ParseBinary(level);
      } else {
        status := ParseConditional();
      }
    }
  }
}
