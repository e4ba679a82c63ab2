/** Tokens and expression trees of the CDL expression language. */
module Syntax {
  import Word64

  /** The display format remembered with an integer constant (CdlValueFormat). */
  datatype Format = Default | Hex | Octal

  datatype BinaryOp =
    | Multiply | Divide | Remainder
    | Add | Subtract | StringConcat
    | LeftShift | RightShift
    | LessThan | LessEqual | GreaterThan | GreaterEqual
    | Equal | NotEqual
    | BitAnd | BitXor | BitOr
    | And | Or
    | Xor | Eqv
    | Implies

  datatype UnaryOp = Negate | Plus | Indirect | LogicalNot | BitNot

  /** The functions that func.cxx registers. */
  datatype Func = IsSubstr | IsXSubstr | IsLoaded | IsActive | IsEnabled | GetData | VersionCmp

  /** Every binary operator has a token of its own, so the token carries the operator.
      The tokens of Subtract, Add and Multiply double as the unary signs and as indirection. */
  datatype Token =
    | TReference(name: string)
    | TString(text: string)
    | TInteger(value: int, format: Format)
    | TFunction(func: Func)
    | TBinary(op: BinaryOp)
    | TExclamation | TTilde | TQuestion | TColon | TComma | TRange
    | TOpen | TClose
    | TBad  // the character data at this point raises a parse exception

  datatype Expr =
    | Reference(name: string)
    | StringConstant(text: string)
    | IntegerConstant(value: int, format: Format)
    | Active(name: string)
    | Node(op: Operator, args: Args)

  datatype Operator = OpUnary(uop: UnaryOp) | OpBinary(bop: BinaryOp) | OpCond | OpCall(func: Func)

  /** The operands of an operator, or the arguments of a function. */
  datatype Args = NoArgs | MoreArgs(first: Expr, others: Args)

  function Unary(op: UnaryOp, a: Expr): (e: Expr)
    ensures WellFormed(e) == WellFormed(a)
    ensures Fold(e) == ApplyUnary(op, Fold(a))
  {
    assert FoldArgs(NoArgs) == NoArgs && WellFormedArgs(NoArgs);
    Node(OpUnary(op), MoreArgs(a, NoArgs))
  }

  function Binary(op: BinaryOp, l: Expr, r: Expr): (e: Expr)
    ensures WellFormed(e) == (WellFormed(l) && WellFormed(r))
    ensures Fold(e) == Node(OpBinary(op), MoreArgs(Fold(l), MoreArgs(Fold(r), NoArgs)))
  {
    var last := MoreArgs(r, NoArgs);
    assert FoldArgs(NoArgs) == NoArgs && WellFormedArgs(NoArgs);
    assert FoldArgs(last) == MoreArgs(Fold(r), NoArgs) && WellFormedArgs(last) == WellFormed(r);
    Node(OpBinary(op), MoreArgs(l, last))
  }

  function Cond(c: Expr, y: Expr, n: Expr): (e: Expr)
    ensures WellFormed(e) == (WellFormed(c) && WellFormed(y) && WellFormed(n))
    ensures Fold(e) == Node(OpCond, MoreArgs(Fold(c), MoreArgs(Fold(y), MoreArgs(Fold(n), NoArgs))))
  {
    var last := MoreArgs(n, NoArgs);
    var branches := MoreArgs(y, last);
    assert FoldArgs(NoArgs) == NoArgs && WellFormedArgs(NoArgs);
    assert FoldArgs(last) == MoreArgs(Fold(n), NoArgs) && WellFormedArgs(last) == WellFormed(n);
    assert FoldArgs(branches) == MoreArgs(Fold(y), FoldArgs(last));
    assert WellFormedArgs(branches) == (WellFormed(y) && WellFormedArgs(last));
    Node(OpCond, MoreArgs(c, branches))
  }

  /** Which of the twelve binary parsing functions handles an operator: 1 is parse_multiply
      (tightest), 12 is parse_implies. Level 0 is parse_unary and 13 is parse_conditional. */
  function Level(op: BinaryOp): (n: nat)
    ensures 1 <= n <= 12
  {
    match op
    case Multiply | Divide | Remainder => 1
    case Add | Subtract | StringConcat => 2
    case LeftShift | RightShift => 3
    case LessThan | LessEqual | GreaterThan | GreaterEqual => 4
    case Equal | NotEqual => 5
    case BitAnd => 6
    case BitXor => 7
    case BitOr => 8
    case And => 9
    case Or => 10
    case Xor | Eqv => 11
    case Implies => 12
  }

  const UNARY: nat := 0
  const IMPLIES: nat := 12
  const CONDITIONAL: nat := 13

  function Precedence(e: Expr): (p: nat)
    ensures p <= CONDITIONAL
  {
    match e
    case Node(OpBinary(op), _) => Level(op)
    case Node(OpCond, _) => CONDITIONAL
    case _ => UNARY
  }

  function Arity(f: Func): (n: nat)
    ensures 1 <= n <= 2
  {
    match f
    case IsSubstr | IsXSubstr | VersionCmp => 2
    case IsLoaded | IsActive | IsEnabled | GetData => 1
  }

  /** The functions whose check routine insists on a plain reference argument. */
  predicate NeedsReference(f: Func) {
    f.IsLoaded? || f.IsActive? || f.IsEnabled? || f.GetData?
  }

  function Count(args: Args): nat {
    match args
    case NoArgs => 0
    case MoreArgs(_, others) => 1 + Count(others)
  }

  predicate GoodCall(f: Func, args: Args) {
    && Count(args) == Arity(f)
    && (NeedsReference(f) ==> args.MoreArgs? && args.first.Reference?)
  }

  predicate GoodNode(op: Operator, args: Args) {
    match op
    case OpUnary(_) => args.MoreArgs? && args.others.NoArgs?
    case OpBinary(_) => args.MoreArgs? && args.others.MoreArgs? && args.others.others.NoArgs?
    case OpCond =>
      args.MoreArgs? && args.others.MoreArgs? && args.others.others.MoreArgs? && args.others.others.others.NoArgs?
    case OpCall(f) => GoodCall(f, args)
  }

  /** The trees a CDL author can write: every operator has its operands, every call its
      arguments, and every call passes its check. */
  predicate WellFormed(e: Expr) {
    e.Node? ==> GoodNode(e.op, e.args) && WellFormedArgs(e.args)
  }

  predicate WellFormedArgs(args: Args) {
    match args
    case NoArgs => true
    case MoreArgs(a, others) => WellFormed(a) && WellFormedArgs(others)
  }

  /** What the parser leaves behind for a unary operator: signs in front of an integer constant
      are absorbed by the constant, and a negated constant forgets its display format. */
  function ApplyUnary(op: UnaryOp, e: Expr): Expr {
    if op.Negate? && e.IntegerConstant? then IntegerConstant(Word64.Wrap(-e.value), Default)
    else if op.Plus? && e.IntegerConstant? then e
    else Node(OpUnary(op), MoreArgs(e, NoArgs))
  }

  /** The tree with every sign absorbed that the parser absorbs. */
  function Fold(e: Expr): Expr {
    if !e.Node? then e
    else
      var args := FoldArgs(e.args);
      if e.op.OpUnary? && args.MoreArgs? && args.others.NoArgs? then ApplyUnary(e.op.uop, args.first)
      else Node(e.op, args)
  }

  function FoldArgs(args: Args): Args {
    match args
    case NoArgs => NoArgs
    case MoreArgs(a, others) => MoreArgs(Fold(a), FoldArgs(others))
  }

  /** The trees that parsing can produce: well formed, with every sign absorbed. */
  predicate Canonical(e: Expr) {
    WellFormed(e) && Fold(e) == e
  }

  predicate CanonicalArgs(args: Args) {
    WellFormedArgs(args) && FoldArgs(args) == args
  }

  lemma FoldKeepsCalls(f: Func, args: Args)
    requires GoodCall(f, args)
    ensures GoodCall(f, FoldArgs(args))
  {
    FoldKeepsCount(args);
  }

  lemma FoldKeepsCount(args: Args)
    ensures Count(FoldArgs(args)) == Count(args)
  {
  }

  lemma ApplyUnaryIsCanonical(op: UnaryOp, e: Expr)
    requires Canonical(e)
    ensures Canonical(ApplyUnary(op, e))
  {
    if ApplyUnary(op, e).Node? {
      assert ApplyUnary(op, e) == Unary(op, e);
    }
  }
}
