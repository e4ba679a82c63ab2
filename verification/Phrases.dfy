/** Which token sequences are expressions, with any brackets, and which trees they stand for. */
module Phrases {
  import opened Wrappers
  import opened Syntax
  import opened Grammar

  // ---------------------------------------------------------------------------------------
  // The notation.

  /** The binary operators from the tightest to the loosest. */
  const TIERS: seq<set<BinaryOp>> := [
    {Multiply, Divide, Remainder},
    {Add, Subtract, StringConcat},
    {LeftShift, RightShift},
    {LessThan, LessEqual, GreaterThan, GreaterEqual},
    {Equal, NotEqual},
    {BitAnd},
    {BitXor},
    {BitOr},
    {And},
    {Or},
    {Xor, Eqv},
    {Implies}
  ]

  lemma LevelIsTier(op: BinaryOp)
    ensures op in TIERS[Level(op) - 1]
    ensures forall i | 0 <= i < |TIERS| && op in TIERS[i] :: i == Level(op) - 1
  {
  }

  predicate IsSign(t: Token, op: UnaryOp) {
    match op
    case Negate => t == TBinary(Subtract)
    case Plus => t == TBinary(Add)
    case Indirect => t == TBinary(Multiply)
    case LogicalNot => t == TExclamation
    case BitNot => t == TTilde
  }

  /** Any expression in a pair of brackets, as often as one likes. */
  ghost predicate Bracketed(e: Expr, ts: seq<Token>)
    decreases |ts|, 0
  {
    |ts| > 2 && ts[0] == TOpen && ts[|ts| - 1] == TClose && Writes(CONDITIONAL, e, ts[1..|ts| - 1])
  }

  /** These tokens write the tree where an expression of this level is expected: 0 stands for an
      operand, 1 to 12 for the tiers of binary operators, and 13 for any expression. Operators of a
      tier group to the left, conditionals to the right. */
  ghost predicate Writes(level: nat, e: Expr, ts: seq<Token>)
    decreases |ts|, 1
  {
    Bracketed(e, ts) || (Precedence(e) <= level && WritesPlainly(e, ts))
  }

  /** The same without brackets around all of it. */
  ghost predicate WritesPlainly(e: Expr, ts: seq<Token>)
    decreases |ts|, 0
  {
    match e
    case Reference(name) => ts == [TReference(name)]
    case StringConstant(text) => ts == [TString(text)]
    case IntegerConstant(v, f) => ts == [TInteger(v, f)]
    case Active(name) => |ts| > 1 && ts[0] == TQuestion && Writes(UNARY, Expr.Reference(name), ts[1..])
    case Node(OpUnary(op), MoreArgs(a, NoArgs)) => |ts| > 1 && IsSign(ts[0], op) && Writes(UNARY, a, ts[1..])
    case Node(OpBinary(op), MoreArgs(l, MoreArgs(r, NoArgs))) =>
      exists i | 0 <= i < |ts| && ts[i] == TBinary(op) ::
        Writes(Level(op), l, ts[..i]) && Writes(Level(op) - 1, r, ts[i + 1..])
    case Node(OpCond, MoreArgs(c, MoreArgs(y, MoreArgs(n, NoArgs)))) =>
      exists i, j | 0 <= i < j < |ts| && ts[i] == TQuestion && ts[j] == TColon ::
        Writes(IMPLIES, c, ts[..i]) && Writes(CONDITIONAL, y, ts[i + 1..j]) && Writes(CONDITIONAL, n, ts[j + 1..])
    case Node(OpCall(f), args) =>
      && |ts| > 2 && ts[0] == TFunction(f) && ts[1] == TOpen && ts[|ts| - 1] == TClose
      && WritesArgs(args, ts[2..|ts| - 1])
    case _ => false
  }

  /** Arguments with commas between them. */
  ghost predicate WritesArgs(args: Args, ts: seq<Token>)
    decreases |ts|, 2
  {
    match args
    case NoArgs => false
    case MoreArgs(a, NoArgs) => Writes(CONDITIONAL, a, ts)
    case MoreArgs(a, others) =>
      exists i | 0 <= i < |ts| && ts[i] == TComma ::
        Writes(CONDITIONAL, a, ts[..i]) && WritesArgs(others, ts[i + 1..])
  }

  lemma WritesHigher(low: nat, level: nat, e: Expr, ts: seq<Token>)
    requires low <= level && Writes(low, e, ts)
    ensures Writes(level, e, ts)
  {
  }

  lemma {:induction false} WrittenIsGood(level: nat, e: Expr, ts: seq<Token>)
    requires Writes(level, e, ts)
    ensures ts != [] && !ts[0].TBad?
    decreases |ts|
  {
    if !Bracketed(e, ts) && e.Node? {
      match e.op
      case OpBinary(op) =>
        var i :| 0 <= i < |ts| && ts[i] == TBinary(op)
                 && Writes(Level(op), e.args.first, ts[..i]) && Writes(Level(op) - 1, e.args.others.first, ts[i + 1..]);
        WrittenIsGood(Level(op), e.args.first, ts[..i]);
      case OpCond =>
        var i, j :| 0 <= i < j < |ts| && ts[i] == TQuestion && ts[j] == TColon
                    && Writes(IMPLIES, e.args.first, ts[..i])
                    && Writes(CONDITIONAL, e.args.others.first, ts[i + 1..j])
                    && Writes(CONDITIONAL, e.args.others.others.first, ts[j + 1..]);
        WrittenIsGood(IMPLIES, e.args.first, ts[..i]);
      case _ =>
    }
  }

  // ---------------------------------------------------------------------------------------
  // Whatever writes a tree is parsed to it.

  /** Tokens that write a tree are read back as that tree with its signs absorbed, whatever follows
      that cannot go on with it. */
  lemma {:induction false} ReadsBack(level: nat, e: Expr, ts: seq<Token>, rest: seq<Token>)
    requires level <= CONDITIONAL && WellFormed(e) && Writes(level, e, ts) && Stops(level, rest)
    ensures ParseAt(level, ts + rest) == Success(Parsed(Fold(e), rest))
    decreases |ts|, 3
  {
    if Bracketed(e, ts) {
      ReadsBrackets(e, ts, rest);
      Climb(UNARY, level, ts + rest, Fold(e), rest);
    } else {
      var p := Precedence(e);
      StopsBelow(level, p, rest);
      ReadsPlain(e, ts, rest);
      Climb(p, level, ts + rest, Fold(e), rest);
    }
  }

  lemma {:induction false} ReadsBrackets(e: Expr, ts: seq<Token>, rest: seq<Token>)
    requires WellFormed(e) && Bracketed(e, ts) && Stops(UNARY, rest)
    ensures ParseUnary(ts + rest) == Success(Parsed(Fold(e), rest))
    decreases |ts|, 0
  {
    var (inner, closing) := (ts[1..|ts| - 1], [TClose] + rest);
    assert ts + rest == [TOpen] + (inner + closing);
    WrittenIsGood(CONDITIONAL, e, inner);
    assert (inner + closing)[0] == inner[0];
    AdvancePast(TOpen, inner + closing);
    ReadsBack(CONDITIONAL, e, inner, closing);
    AdvancePast(TClose, rest);
  }

  lemma {:induction false} ReadsPlain(e: Expr, ts: seq<Token>, rest: seq<Token>)
    requires WellFormed(e) && WritesPlainly(e, ts) && Stops(Precedence(e), rest)
    ensures ParseAt(Precedence(e), ts + rest) == Success(Parsed(Fold(e), rest))
    decreases |ts|, 2
  {
    if e.Node? {
      var args := e.args;
      match e.op
      case OpUnary(op) => ReadsSign(op, args.first, ts, rest);
      case OpBinary(op) =>
        assert e == Binary(op, args.first, args.others.first);
        ReadsLoop(op, args.first, args.others.first, ts, rest);
        LoopStops(Level(op), Fold(e), rest);
      case OpCond =>
        assert e == Cond(args.first, args.others.first, args.others.others.first);
        ReadsCond(args.first, args.others.first, args.others.others.first, ts, rest);
      case OpCall(f) => ReadsCall(f, args, ts, rest);
    } else if e.Active? {
      ReadsActive(e.name, ts, rest);
    } else {
      AdvancePast(ts[0], rest);
      assert ts + rest == [ts[0]] + rest;
    }
  }

  lemma {:induction false} ReadsActive(name: string, ts: seq<Token>, rest: seq<Token>)
    requires WritesPlainly(Active(name), ts) && Stops(UNARY, rest)
    ensures ParseUnary(ts + rest) == Success(Parsed(Active(name), rest))
    decreases |ts|, 0
  {
    var tail := ts[1..] + rest;
    assert ts + rest == [TQuestion] + tail;
    WrittenIsGood(UNARY, Expr.Reference(name), ts[1..]);
    AdvancePast(TQuestion, tail);
    ReadsBack(UNARY, Expr.Reference(name), ts[1..], rest);
    assert ParseUnary(tail) == ParseAt(UNARY, tail);
  }

  lemma {:induction false} ReadsSign(op: UnaryOp, a: Expr, ts: seq<Token>, rest: seq<Token>)
    requires WellFormed(a) && WritesPlainly(Unary(op, a), ts) && Stops(UNARY, rest)
    ensures ParseUnary(ts + rest) == Success(Parsed(Fold(Unary(op, a)), rest))
    decreases |ts|, 0
  {
    var tail := ts[1..] + rest;
    assert ts + rest == [ts[0]] + tail;
    WrittenIsGood(UNARY, a, ts[1..]);
    AdvancePast(ts[0], tail);
    ReadsBack(UNARY, a, ts[1..], rest);
    assert ParseUnary(tail) == ParseAt(UNARY, tail);
  }

  /** The two operands bring the loop of their level to the combined tree. */
  lemma {:induction false} ReadsLoop(op: BinaryOp, l: Expr, r: Expr, ts: seq<Token>, rest: seq<Token>)
    requires WellFormed(l) && WellFormed(r) && WritesPlainly(Binary(op, l, r), ts) && Stops(Level(op) - 1, rest)
    ensures ParseAt(Level(op), ts + rest) == ParseLoop(Level(op), Fold(Binary(op, l, r)), rest)
    decreases |ts|, 0
  {
    var level := Level(op);
    var i :| 0 <= i < |ts| && ts[i] == TBinary(op) && Writes(level, l, ts[..i]) && Writes(level - 1, r, ts[i + 1..]);
    var tail := [TBinary(op)] + (ts[i + 1..] + rest);
    assert ts + rest == ts[..i] + tail;
    WrittenIsGood(level - 1, r, ts[i + 1..]);
    ReadsLeft(level, l, ts[..i], tail);
    AdvancePast(TBinary(op), ts[i + 1..] + rest);
    ReadsBack(level - 1, r, ts[i + 1..], rest);
  }

  /** A left operand leaves the loop of its level with the operand's tree in hand. */
  lemma {:induction false} ReadsLeft(level: nat, e: Expr, ts: seq<Token>, rest: seq<Token>)
    requires 1 <= level <= IMPLIES && WellFormed(e) && Writes(level, e, ts) && Stops(level - 1, rest)
    ensures ParseAt(level, ts + rest) == ParseLoop(level, Fold(e), rest)
    decreases |ts|, 4
  {
    if !Bracketed(e, ts) && Precedence(e) == level {
      var (op, l, r) := (e.op.bop, e.args.first, e.args.others.first);
      assert e == Binary(op, l, r);
      ReadsLoop(op, l, r, ts, rest);
    } else {
      ReadsBack(level - 1, e, ts, rest);
    }
  }

  lemma {:induction false} ReadsCond(c: Expr, y: Expr, n: Expr, ts: seq<Token>, rest: seq<Token>)
    requires WellFormed(c) && WellFormed(y) && WellFormed(n) && WritesPlainly(Cond(c, y, n), ts)
    requires Stops(CONDITIONAL, rest)
    ensures ParseConditional(ts + rest) == Success(Parsed(Fold(Cond(c, y, n)), rest))
    decreases |ts|, 0
  {
    var i, j :| 0 <= i < j < |ts| && ts[i] == TQuestion && ts[j] == TColon
                && Writes(IMPLIES, c, ts[..i]) && Writes(CONDITIONAL, y, ts[i + 1..j])
                && Writes(CONDITIONAL, n, ts[j + 1..]);
    ThreeParts(ts, i, j, rest);
    WrittenIsGood(CONDITIONAL, y, ts[i + 1..j]);
    WrittenIsGood(CONDITIONAL, n, ts[j + 1..]);
    var (no, yes) := (ts[j + 1..] + rest, ts[i + 1..j] + ([TColon] + (ts[j + 1..] + rest)));
    ReadsBack(IMPLIES, c, ts[..i], [TQuestion] + yes);
    ReadsBack(CONDITIONAL, y, ts[i + 1..j], [TColon] + no);
    ReadsBack(CONDITIONAL, n, ts[j + 1..], rest);
    JoinsCond(ts + rest, Fold(c), yes, Fold(y), no, Fold(n), rest);
  }

  lemma ThreeParts(ts: seq<Token>, i: nat, j: nat, rest: seq<Token>)
    requires i < j < |ts| && ts[i] == TQuestion && ts[j] == TColon
    ensures ts + rest == ts[..i] + ([TQuestion] + (ts[i + 1..j] + ([TColon] + (ts[j + 1..] + rest))))
  {
    assert ts == ts[..i] + ([TQuestion] + (ts[i + 1..j] + ([TColon] + ts[j + 1..])));
  }

  lemma JoinsCond(ts: seq<Token>, c: Expr, yes: seq<Token>, y: Expr, no: seq<Token>, n: Expr, rest: seq<Token>)
    requires ParseAt(IMPLIES, ts) == Success(Parsed(c, [TQuestion] + yes)) && yes != [] && !yes[0].TBad?
    requires ParseConditional(yes) == Success(Parsed(y, [TColon] + no)) && no != [] && !no[0].TBad?
    requires ParseConditional(no) == Success(Parsed(n, rest))
    ensures ParseConditional(ts) == Success(Parsed(Cond(c, y, n), rest))
  {
    AdvancePast(TQuestion, yes);
    AdvancePast(TColon, no);
  }

  lemma {:induction false} ReadsCall(f: Func, args: Args, ts: seq<Token>, rest: seq<Token>)
    requires GoodCall(f, args) && WellFormedArgs(args) && WritesPlainly(Node(OpCall(f), args), ts)
    requires Stops(UNARY, rest)
    ensures ParseUnary(ts + rest) == Success(Parsed(Node(OpCall(f), FoldArgs(args)), rest))
    decreases |ts|, 1
  {
    var (inner, closing) := (ts[2..|ts| - 1], [TClose] + rest);
    assert ts + rest == [TFunction(f)] + ([TOpen] + (inner + closing));
    ArgsAreWritten(args, inner);
    assert (inner + closing)[0] == inner[0];
    AdvancePast(TFunction(f), [TOpen] + (inner + closing));
    AdvancePast(TOpen, inner + closing);
    ReadsArgs(args, inner, closing);
    AdvancePast(TClose, rest);
    FoldKeepsCalls(f, args);
  }

  lemma {:induction false} ArgsAreWritten(args: Args, ts: seq<Token>)
    requires WritesArgs(args, ts)
    ensures args.MoreArgs? && ts != [] && !ts[0].TBad?
  {
    if args.others.NoArgs? {
      WrittenIsGood(CONDITIONAL, args.first, ts);
    } else {
      var i :| 0 <= i < |ts| && ts[i] == TComma
               && Writes(CONDITIONAL, args.first, ts[..i]) && WritesArgs(args.others, ts[i + 1..]);
      WrittenIsGood(CONDITIONAL, args.first, ts[..i]);
    }
  }

  lemma {:induction false} ReadsArgs(args: Args, ts: seq<Token>, rest: seq<Token>)
    requires args.MoreArgs? && WellFormedArgs(args) && WritesArgs(args, ts) && At(TClose, rest)
    ensures ParseArgs(Count(args), ts + rest) == Success(Parsed(FoldArgs(args), rest))
    decreases |ts|, 4
  {
    if args.others.NoArgs? {
      ReadsBack(CONDITIONAL, args.first, ts, rest);
    } else {
      var i :| 0 <= i < |ts| && ts[i] == TComma
               && Writes(CONDITIONAL, args.first, ts[..i]) && WritesArgs(args.others, ts[i + 1..]);
      var tail := ts[i + 1..] + rest;
      assert ts + rest == ts[..i] + ([TComma] + tail);
      ArgsAreWritten(args.others, ts[i + 1..]);
      ReadsBack(CONDITIONAL, args.first, ts[..i], [TComma] + tail);
      ReadsArgs(args.others, ts[i + 1..], rest);
      JoinsArgs(ts + rest, Fold(args.first), tail, Count(args.others), FoldArgs(args.others), rest);
    }
  }

  lemma JoinsArgs(ts: seq<Token>, first: Expr, tail: seq<Token>, count: nat, others: Args, rest: seq<Token>)
    requires ParseConditional(ts) == Success(Parsed(first, [TComma] + tail)) && tail != [] && !tail[0].TBad?
    requires count > 0 && ParseArgs(count, tail) == Success(Parsed(others, rest))
    ensures ParseArgs(count + 1, ts) == Success(Parsed(MoreArgs(first, others), rest))
  {
    AdvancePast(TComma, tail);
  }

  // ---------------------------------------------------------------------------------------
  // Whatever is parsed was written.

  /** A tree whose fold was parsed, written by the tokens that were used up. */
  ghost predicate IsWritten(level: nat, e: Expr, used: seq<Token>, ts: seq<Token>, p: Parsed<Expr>) {
    WellFormed(e) && Fold(e) == p.value && ts == used + p.rest && Writes(level, e, used)
  }

  /** The tokens that a successful parse uses up write some tree, and the parse gives that tree with
      its signs absorbed. */
  lemma {:induction false} WasWritten(level: nat, ts: seq<Token>) returns (e: Expr, used: seq<Token>)
    requires level <= CONDITIONAL && ParseAt(level, ts).Success?
    ensures IsWritten(level, e, used, ts, ParseAt(level, ts).value)
    decreases |ts|, 2 * level + 2
  {
    if level == UNARY {
      e, used := UnaryWasWritten(ts);
    } else if level <= IMPLIES {
      var lhs := ParseAt(level - 1, ts).value;
      var l, front := WasWritten(level - 1, ts);
      WritesHigher(level - 1, level, l, front);
      e, used := LoopWasWritten(level, l, front, lhs.rest);
      assert ts == front + lhs.rest;
    } else {
      e, used := ConditionalWasWritten(ts);
    }
  }

  /** What the loop of a level adds to what has been written so far. */
  lemma {:induction false} LoopWasWritten(level: nat, l: Expr, front: seq<Token>, ts: seq<Token>)
      returns (e: Expr, used: seq<Token>)
    requires 1 <= level <= IMPLIES && WellFormed(l) && Writes(level, l, front)
    requires ParseLoop(level, Fold(l), ts).Success?
    ensures IsWritten(level, e, used, front + ts, ParseLoop(level, Fold(l), ts).value)
    decreases |ts|, 0
  {
    if AtOperator(level, ts) {
      var after := Advance(ts).value;
      var rhs := ParseAt(level - 1, after).value;
      var r, back := WasWritten(level - 1, after);
      var op := ts[0].op;
      JoinsBinary(op, l, front, r, back);
      e, used := LoopWasWritten(level, Binary(op, l, r), front + [TBinary(op)] + back, rhs.rest);
      assert ts == [TBinary(op)] + (back + rhs.rest);
      assert front + ts == front + [TBinary(op)] + back + rhs.rest;
    } else {
      e, used := l, front;
    }
  }

  lemma JoinsBinary(op: BinaryOp, l: Expr, front: seq<Token>, r: Expr, back: seq<Token>)
    requires WellFormed(l) && WellFormed(r) && Writes(Level(op), l, front) && Writes(Level(op) - 1, r, back)
    ensures Writes(Level(op), Binary(op, l, r), front + [TBinary(op)] + back)
  {
    var ts := front + [TBinary(op)] + back;
    assert ts[..|front|] == front && ts[|front|] == TBinary(op) && ts[|front| + 1..] == back;
  }

  lemma {:induction false} ConditionalWasWritten(ts: seq<Token>) returns (e: Expr, used: seq<Token>)
    requires ParseConditional(ts).Success?
    ensures IsWritten(CONDITIONAL, e, used, ts, ParseConditional(ts).value)
    decreases |ts|, 2 * IMPLIES + 3
  {
    var test := ParseAt(IMPLIES, ts).value;
    var c, front := WasWritten(IMPLIES, ts);
    if At(TQuestion, test.rest) {
      var afterQuestion := Advance(test.rest).value;
      var yes := ParseConditional(afterQuestion).value;
      var y, middle := ConditionalWasWritten(afterQuestion);
      var afterColon := Advance(yes.rest).value;
      var no := ParseConditional(afterColon).value;
      var n, back := ConditionalWasWritten(afterColon);
      e, used := JoinsWritten(c, front, y, middle, n, back);
      Regroups(front, middle, back, no.rest);
    } else {
      WritesHigher(IMPLIES, CONDITIONAL, c, front);
      e, used := c, front;
    }
  }

  lemma Regroups(front: seq<Token>, middle: seq<Token>, back: seq<Token>, rest: seq<Token>)
    ensures front + ([TQuestion] + (middle + ([TColon] + (back + rest))))
         == front + ([TQuestion] + (middle + ([TColon] + back))) + rest
  {
  }

  lemma JoinsWritten(c: Expr, front: seq<Token>, y: Expr, middle: seq<Token>, n: Expr, back: seq<Token>)
      returns (e: Expr, used: seq<Token>)
    requires WellFormed(c) && Writes(IMPLIES, c, front) && WellFormed(y) && Writes(CONDITIONAL, y, middle)
    requires WellFormed(n) && Writes(CONDITIONAL, n, back)
    ensures e == Cond(c, y, n) && used == front + ([TQuestion] + (middle + ([TColon] + back)))
    ensures Writes(CONDITIONAL, e, used)
  {
    e, used := Cond(c, y, n), front + ([TQuestion] + (middle + ([TColon] + back)));
    var i, j := |front|, |front| + 1 + |middle|;
    assert used[..i] == front && used[i] == TQuestion && used[j] == TColon;
    assert used[i + 1..j] == middle && used[j + 1..] == back;
  }

  lemma {:induction false} UnaryWasWritten(ts: seq<Token>) returns (e: Expr, used: seq<Token>)
    requires ParseUnary(ts).Success?
    ensures IsWritten(UNARY, e, used, ts, ParseUnary(ts).value)
    decreases |ts|, 1
  {
    var after := Advance(ts).value;
    if ts[0].TFunction? {
      e, used := CallWasWritten(ts[0].func, ts);
    } else if ts[0].TOpen? {
      e, used := BracketsWereWritten(ts);
    } else if ts[0].TQuestion? || UnaryOf(ts[0]).Some? {
      e, used := SignWasWritten(ts);
    } else {
      used := [ts[0]];
      e := ParseUnary(ts).value.value;
    }
  }

  lemma {:induction false} BracketsWereWritten(ts: seq<Token>) returns (e: Expr, used: seq<Token>)
    requires ParseUnary(ts).Success? && ts[0].TOpen?
    ensures IsWritten(UNARY, e, used, ts, ParseUnary(ts).value)
    decreases |ts|, 0
  {
    var inner;
    e, inner := ConditionalWasWritten(Advance(ts).value);
    used := [TOpen] + inner + [TClose];
    ClosesBrackets(e, inner);
    assert ts == used + ParseUnary(ts).value.rest;
  }

  lemma {:induction false} SignWasWritten(ts: seq<Token>) returns (e: Expr, used: seq<Token>)
    requires ParseUnary(ts).Success? && (ts[0].TQuestion? || UnaryOf(ts[0]).Some?)
    ensures IsWritten(UNARY, e, used, ts, ParseUnary(ts).value)
    decreases |ts|, 0
  {
    var a, tail := UnaryWasWritten(Advance(ts).value);
    e, used := PutsSign(ts[0], a, tail);
    assert ts == used + ParseUnary(ts).value.rest;
  }

  lemma ClosesBrackets(e: Expr, inner: seq<Token>)
    requires Writes(CONDITIONAL, e, inner)
    ensures Writes(UNARY, e, [TOpen] + inner + [TClose])
  {
    var used := [TOpen] + inner + [TClose];
    WrittenIsGood(CONDITIONAL, e, inner);
    assert used[1..|used| - 1] == inner;
  }

  lemma {:induction false} PutsSign(t: Token, a: Expr, tail: seq<Token>) returns (e: Expr, used: seq<Token>)
    requires WellFormed(a) && Writes(UNARY, a, tail)
    requires if t.TQuestion? then Fold(a).Reference? else UnaryOf(t).Some?
    ensures used == [t] + tail && WellFormed(e) && Writes(UNARY, e, used)
    ensures Fold(e) == if t.TQuestion? then Active(Fold(a).name) else ApplyUnary(UnaryOf(t).value, Fold(a))
  {
    WrittenIsGood(UNARY, a, tail);
    OnlyReferencesFoldToThem(a);
    used := [t] + tail;
    e := if t.TQuestion? then Active(a.name) else Unary(UnaryOf(t).value, a);
    assert used[1..] == tail;
  }

  lemma {:induction false} CallWasWritten(f: Func, ts: seq<Token>) returns (e: Expr, used: seq<Token>)
    requires ts != [] && ts[0] == TFunction(f) && ParseCall(f, ts).Success?
    ensures IsWritten(UNARY, e, used, ts, ParseCall(f, ts).value)
    decreases |ts|, 0
  {
    var inner := Advance(Advance(ts).value).value;
    var p := ParseArgs(Arity(f), inner).value;
    var args, middle := ArgsWereWritten(Arity(f), inner);
    e, used := Node(OpCall(f), args), [TFunction(f), TOpen] + middle + [TClose];
    assert used[2..|used| - 1] == middle;
    assert ts == used + ParseCall(f, ts).value.rest;
    FoldsToCall(f, args);
  }

  lemma FoldsToCall(f: Func, args: Args)
    requires GoodCall(f, FoldArgs(args)) && WellFormedArgs(args)
    ensures WellFormed(Node(OpCall(f), args)) && Fold(Node(OpCall(f), args)) == Node(OpCall(f), FoldArgs(args))
  {
    FoldKeepsCount(args);
    assert Count(args) > 0;
    assert FoldArgs(args) == MoreArgs(Fold(args.first), FoldArgs(args.others));
    OnlyReferencesFoldToThem(args.first);
    assert GoodCall(f, args);
    assert Fold(Node(OpCall(f), args)) == Node(OpCall(f), FoldArgs(args));
  }

  lemma {:induction false} OnlyReferencesFoldToThem(e: Expr)
    ensures Fold(e).Reference? ==> Fold(e) == e
  {
  }

  lemma {:induction false} ArgsWereWritten(wanted: nat, ts: seq<Token>) returns (args: Args, used: seq<Token>)
    requires wanted > 0 && ParseArgs(wanted, ts).Success?
    ensures var p := ParseArgs(wanted, ts).value;
            WellFormedArgs(args) && FoldArgs(args) == p.value && ts == used + p.rest && WritesArgs(args, used)
    decreases |ts|, 2 * CONDITIONAL + 3
  {
    var p := ParseConditional(ts).value;
    var first, front := ConditionalWasWritten(ts);
    if wanted == 1 {
      args, used := MoreArgs(first, NoArgs), front;
    } else {
      var after := Advance(p.rest).value;
      var others, back := ArgsWereWritten(wanted - 1, after);
      args, used := PutsComma(first, front, others, back);
      TakesComma(wanted, ts, front, back);
    }
  }

  lemma TakesComma(wanted: nat, ts: seq<Token>, front: seq<Token>, back: seq<Token>)
    requires wanted > 1 && ParseArgs(wanted, ts).Success? && ts == front + ParseConditional(ts).value.rest
    requires var after := Advance(ParseConditional(ts).value.rest).value;
             after == back + ParseArgs(wanted - 1, after).value.rest
    ensures ts == front + ([TComma] + back) + ParseArgs(wanted, ts).value.rest
  {
    var rest := ParseConditional(ts).value.rest;
    assert rest == [TComma] + rest[1..];
  }

  lemma PutsComma(first: Expr, front: seq<Token>, others: Args, back: seq<Token>) returns (args: Args, used: seq<Token>)
    requires WellFormed(first) && Writes(CONDITIONAL, first, front)
    requires WellFormedArgs(others) && WritesArgs(others, back)
    ensures args == MoreArgs(first, others) && used == front + ([TComma] + back)
    ensures WellFormedArgs(args) && WritesArgs(args, used) && FoldArgs(args) == MoreArgs(Fold(first), FoldArgs(others))
  {
    args, used := MoreArgs(first, others), front + ([TComma] + back);
    var i := |front|;
    assert used[..i] == front && used[i] == TComma && used[i + 1..] == back && others.MoreArgs?;
    assert Writes(CONDITIONAL, first, used[..i]) && WritesArgs(others, used[i + 1..]);
  }

  // ---------------------------------------------------------------------------------------
  // Both directions.

  /** A sequence of tokens is accepted as an expression, and gives a certain tree, exactly if it writes
      a well-formed tree that this is the fold of. */
  lemma {:induction false} AcceptsIff(ts: seq<Token>, e': Expr)
    ensures ParseAt(CONDITIONAL, ts) == Success(Parsed(e', []))
       <==> exists e :: WellFormed(e) && Writes(CONDITIONAL, e, ts) && Fold(e) == e'
  {
    if ParseAt(CONDITIONAL, ts) == Success(Parsed(e', [])) {
      var e, used := WasWritten(CONDITIONAL, ts);
      assert used == ts && Writes(CONDITIONAL, e, ts) && WellFormed(e) && Fold(e) == e';
    }
    if e :| WellFormed(e) && Writes(CONDITIONAL, e, ts) && Fold(e) == e' {
      ReadsBack(CONDITIONAL, e, ts, []);
      assert ts + [] == ts;
    }
  }
}
