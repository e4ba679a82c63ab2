/** Evaluating expressions: on the tree, and on the flat vector as evaluate_subexpr does. */
module Evaluation {
  import opened Wrappers
  import opened Word64
  import opened Syntax
  import opened Vectors
  import Integers
  import Substrings
  import Versions

  type Int64 = x: int | InRange(x) witness 0

  /** A CdlSimpleValue: a text, a number, or both. At least one is present. */
  datatype Value = Value(text: Option<string>, number: Option<Int64>, format: Format)

  function FromInt(v: int): Value {
    Value(None, Some(Wrap(v)), Default)
  }

  function FromText(s: string): Value {
    Value(Some(s), None, Default)
  }

  function FromBool(b: bool): Value {
    Value(Some(if b then "1" else "0"), Some(if b then 1 else 0), Default)
  }

  /** get_value() */
  function Text(v: Value): string {
    if v.text.Some? then v.text.value
    else if v.number.Some? then Integers.Render(v.number.value, v.format)
    else ""
  }

  /** get_integer_value(), present when has_integer_value() */
  function Number(v: Value): Option<Int64> {
    if v.number.Some? then v.number
    else if v.text.None? then None
    else
      match Integers.ParseInteger(v.text.value)
      case None => None
      case Some(i) => Some(i)
  }

  /** get_bool_value() */
  predicate Truth(v: Value) {
    if v.number.Some? then v.number.value != 0
    else
      var t := Text(v);
      if t in ["1", "true", "True", "TRUE"] then true
      else if t in ["0", "false", "False", "FALSE"] then false
      else t != ""
  }

  // ---------------------------------------------------------------------------------------
  // The configuration as an expression sees it.

  datatype Flavor = NoFlavor | BoolFlavor | BoolDataFlavor | DataFlavor

  /** What a name stands for: nothing, a node without a value, or a valuable. */
  datatype Target =
    | Unknown
    | Plain(active: bool)
    | Valuable(active: bool, flavor: Flavor, enabled: bool, data: Value)

  /** `resolve` is what a reference leads to, `lookup` the toplevel's table of names. They differ
      in the context of a property, whose references may not be bound. */
  datatype Context = Context(resolve: string -> Target, lookup: string -> Target)

  datatype EvalError =
    | ReferenceHasNoValue(name: string)
    | IndirectUnknown(name: string)
    | IndirectHasNoValue(name: string)
    | UnaryOperand(uop: UnaryOp, text: string)
    | BinaryOperands(bop: BinaryOp, left: string, right: string)
    | DivisionByZero(bop: BinaryOp, left: string, right: string)

  type Outcome = Result<Value, EvalError>

  /** CdlSimpleValue::eval_valuable */
  function ValueOf(t: Target): Value
    requires t.Valuable?
  {
    if !t.active then FromBool(false)
    else
      match t.flavor
      case NoFlavor => FromBool(true)
      case BoolFlavor => FromBool(t.enabled)
      case BoolDataFlavor => if t.enabled then t.data else FromBool(false)
      case DataFlavor => t.data
  }

  function ReferenceValue(ctx: Context, name: string): Outcome {
    match ctx.resolve(name)
    case Unknown => Success(FromBool(false))
    case Plain(_) => Failure(ReferenceHasNoValue(name))
    case t => Success(ValueOf(t))
  }

  function ActiveValue(ctx: Context, name: string): Value {
    var t := ctx.resolve(name);
    FromBool(!t.Unknown? && t.active)
  }

  // ---------------------------------------------------------------------------------------
  // Operators.

  function UnaryValue(ctx: Context, op: UnaryOp, v: Value): Outcome {
    match op
    case Negate =>
      if Number(v).None? then Failure(UnaryOperand(op, Text(v))) else Success(FromInt(-(Number(v).value as int)))
    case Plus =>
      if Number(v).None? then Failure(UnaryOperand(op, Text(v))) else Success(v.(number := Number(v)))
    case BitNot =>
      if Number(v).None? then Failure(UnaryOperand(op, Text(v))) else Success(FromInt(-1 - Number(v).value as int))
    case LogicalNot => Success(FromBool(!Truth(v)))
    case Indirect =>
      match ctx.lookup(Text(v))
      case Unknown => Failure(IndirectUnknown(Text(v)))
      case Plain(_) => Failure(IndirectHasNoValue(Text(v)))
      case t => Success(ValueOf(t))
  }

  /** C++ division truncates towards zero. */
  function Quotient(a: int, b: int): int
    requires b != 0
  {
    if a >= 0 then a / b else -((-a) / b)
  }

  function Power2(n: nat): (p: nat)
    ensures p > 0
  {
    if n == 0 then 1 else 2 * Power2(n - 1)
  }

  /** Combine the low n bits of two numbers. */
  function Bits(op: BinaryOp, a: int, b: int, n: nat): int
    decreases n
  {
    if n == 0 then 0
    else
      var x, y := a % 2 == 1, b % 2 == 1;
      var bit := if op.BitAnd? then x && y else if op.BitOr? then x || y else x != y;
      (if bit then 1 else 0) + 2 * Bits(op, a / 2, b / 2, n - 1)
  }

  /** The operators that work on two integers. */
  function IntegerValue(op: BinaryOp, a: int, b: int): Value
    requires op.Divide? || op.Remainder? ==> b != 0
  {
    match op
    case Multiply => FromInt(a * b)
    case Divide => FromInt(Quotient(a, b))
    case Remainder => FromInt(a - b * Quotient(a, b))
    case Add => FromInt(a + b)
    case Subtract => FromInt(a - b)
    case LeftShift => FromInt(a * Power2(b % 64))
    case RightShift => FromInt(a / Power2(b % 64))
    case LessThan => FromBool(a < b)
    case LessEqual => FromBool(a <= b)
    case GreaterThan => FromBool(a > b)
    case GreaterEqual => FromBool(a >= b)
    case _ => FromInt(Bits(op, a, b, 64))
  }

  predicate IsComparison(op: BinaryOp) {
    op.LessThan? || op.LessEqual? || op.GreaterThan? || op.GreaterEqual?
  }

  /** The operators that always evaluate both operands. */
  function BinaryValue(op: BinaryOp, l: Value, r: Value): Outcome {
    match op
    case Xor => Success(FromBool(Truth(l) != Truth(r)))
    case Eqv => Success(FromBool(Truth(l) == Truth(r)))
    case Implies => Success(FromBool(!Truth(l) || Truth(r)))
    case StringConcat => Success(FromText(Text(l) + Text(r)))
    case Equal => Success(FromBool(SameValue(l, r)))
    case NotEqual => Success(FromBool(!SameValue(l, r)))
    case _ =>
      var a, b := Number(l), Number(r);
      if a.None? || b.None? then Failure(BinaryOperands(op, Text(l), Text(r)))
      else if (op.Divide? || op.Remainder?) && b.value == 0 then Failure(DivisionByZero(op, Text(l), Text(r)))
      else
        var v := IntegerValue(op, a.value, b.value);
        if IsComparison(op) then Success(v)
        else Success(v.(format := if l.format.Default? then r.format else l.format))
  }

  /** Numbers are compared as numbers, anything else as text. */
  predicate SameValue(l: Value, r: Value) {
    if Number(l).Some? && Number(r).Some? then Number(l).value == Number(r).value else Text(l) == Text(r)
  }

  /** The functions of two evaluated arguments. */
  function CallValue(f: Func, a: Value, b: Value): Value {
    match f
    case IsSubstr => FromBool(Substrings.Search(Text(a), Substrings.Strip(Text(b)), 0).Some?)
    case IsXSubstr => FromBool(Substrings.Search(Text(a), Substrings.Exact(Text(b)), 0).Some?)
    case _ => FromInt(Versions.Compare(Text(a), Text(b)))
  }

  /** The functions that ask about a reference without evaluating it. */
  function QueryValue(ctx: Context, f: Func, name: string): Value {
    var t := ctx.resolve(name);
    match f
    case IsLoaded => FromBool(!t.Unknown?)
    case IsActive => FromBool(!t.Unknown? && t.active)
    case IsEnabled => FromBool(t.Valuable? && t.enabled)
    case _ => if t.Valuable? then FromText(Text(t.data)) else FromBool(false)
  }

  // ---------------------------------------------------------------------------------------
  // On the tree.

  function Eval(ctx: Context, e: Expr): Outcome
    requires WellFormed(e)
    decreases e, 0
  {
    match e
    case StringConstant(text) => Success(FromText(text))
    case IntegerConstant(v, f) => Success(Value(None, Some(Wrap(v)), f))
    case Reference(name) => ReferenceValue(ctx, name)
    case Active(name) => Success(ActiveValue(ctx, name))
    case Node(op, args) =>
      EvalNode(ctx, op, args)
  }

  function EvalNode(ctx: Context, op: Operator, args: Args): Outcome
    requires GoodNode(op, args) && WellFormedArgs(args)
    decreases args, 1
  {
    OperandCount(op, args);
    match op
    case OpUnary(u) =>
      var v :- EvalOperand(ctx, args, 0);
      UnaryValue(ctx, u, v)
    case OpBinary(And) =>
      // the right operand is only evaluated if the left one is true
      var l :- EvalOperand(ctx, args, 0);
      if !Truth(l) then Success(FromBool(false)) else
      var r :- EvalOperand(ctx, args, 1);
      Success(FromBool(Truth(r)))
    case OpBinary(Or) =>
      var l :- EvalOperand(ctx, args, 0);
      if Truth(l) then Success(FromBool(true)) else
      var r :- EvalOperand(ctx, args, 1);
      Success(FromBool(Truth(r)))
    case OpBinary(b) =>
      var l :- EvalOperand(ctx, args, 0);
      var r :- EvalOperand(ctx, args, 1);
      BinaryValue(b, l, r)
    case OpCond =>
      var c :- EvalOperand(ctx, args, 0);
      EvalOperand(ctx, args, if Truth(c) then 1 else 2)
    case OpCall(f) =>
      if NeedsReference(f) then Success(QueryValue(ctx, f, args.first.name)) else
      var a :- EvalOperand(ctx, args, 0);
      var b :- EvalOperand(ctx, args, 1);
      Success(CallValue(f, a, b))
  }

  function EvalOperand(ctx: Context, args: Args, k: nat): Outcome
    requires WellFormedArgs(args) && k < Count(args)
    decreases args, 0
  {
    if k == 0 then Eval(ctx, args.first) else EvalOperand(ctx, args.others, k - 1)
  }

  // ---------------------------------------------------------------------------------------
  // On the vector.

  /** evaluate_subexpr: recursion on the index, which every child index lowers. */
  function EvalAt(ctx: Context, subs: seq<Sub>, refs: seq<string>, i: nat): Outcome
    requires GoodVector(subs, |refs|) && i < |subs|
    decreases i
  {
    assert GoodEntry(subs, |refs|, i);
    match subs[i]
    case SString(text) => Success(FromText(text))
    case SInteger(v, f) => Success(Value(None, Some(Wrap(v)), f))
    case SReference(r) => ReferenceValue(ctx, refs[r])
    case SActive(r) => Success(ActiveValue(ctx, refs[r]))
    case SNode(op, children) =>
      assert Children(subs[i]) == children;
      match op
      case OpUnary(u) =>
        var v :- EvalAt(ctx, subs, refs, children[0]);
        UnaryValue(ctx, u, v)
      case OpBinary(And) =>
        var l :- EvalAt(ctx, subs, refs, children[0]);
        if !Truth(l) then Success(FromBool(false)) else
        var r :- EvalAt(ctx, subs, refs, children[1]);
        Success(FromBool(Truth(r)))
      case OpBinary(Or) =>
        var l :- EvalAt(ctx, subs, refs, children[0]);
        if Truth(l) then Success(FromBool(true)) else
        var r :- EvalAt(ctx, subs, refs, children[1]);
        Success(FromBool(Truth(r)))
      case OpBinary(b) =>
        var l :- EvalAt(ctx, subs, refs, children[0]);
        var r :- EvalAt(ctx, subs, refs, children[1]);
        BinaryValue(b, l, r)
      case OpCond =>
        var c :- EvalAt(ctx, subs, refs, children[0]);
        EvalAt(ctx, subs, refs, if Truth(c) then children[1] else children[2])
      case OpCall(f) =>
        if NeedsReference(f) then
          assert GoodEntry(subs, |refs|, children[0]);
          Success(QueryValue(ctx, f, refs[subs[children[0]].ref]))
        else
          var a :- EvalAt(ctx, subs, refs, children[0]);
          var b :- EvalAt(ctx, subs, refs, children[1]);
          Success(CallValue(f, a, b))
  }

  // ---------------------------------------------------------------------------------------
  // They agree.

  lemma {:induction false} DecodeArgsIsGood(subs: seq<Sub>, refs: seq<string>, i: nat, children: seq<nat>)
    requires GoodVector(subs, |refs|) && i < |subs|
    requires forall k | 0 <= k < |children| :: children[k] < i
    ensures var args := DecodeArgs(subs, refs, i, children);
            Count(args) == |children| && WellFormedArgs(args)
    decreases i, 0, |children|
  {
    if children != [] {
      DecodeIsWellFormed(subs, refs, children[0]);
      DecodeArgsIsGood(subs, refs, i, children[1..]);
    }
  }

  /** Every entry of a good vector decodes to a well-formed tree. */
  lemma {:induction false} DecodeIsWellFormed(subs: seq<Sub>, refs: seq<string>, i: nat)
    requires GoodVector(subs, |refs|) && i < |subs|
    ensures WellFormed(Decode(subs, refs, i))
    decreases i, 1, 0
  {
    assert GoodEntry(subs, |refs|, i);
    if subs[i].SNode? {
      assert Children(subs[i]) == subs[i].children;
      DecodeArgsIsGood(subs, refs, i, subs[i].children);
      GoodDecodedNode(subs, refs, i);
    }
  }

  lemma GoodDecodedNode(subs: seq<Sub>, refs: seq<string>, i: nat)
    requires GoodVector(subs, |refs|) && i < |subs| && subs[i].SNode?
    requires Count(Decode(subs, refs, i).args) == |subs[i].children|
    ensures GoodNode(subs[i].op, Decode(subs, refs, i).args)
  {
    assert GoodEntry(subs, |refs|, i);
    var args, children := Decode(subs, refs, i).args, subs[i].children;
    CountTells(args);
    assert Children(subs[i]) == children;
    assert |children| > 0 ==> args.first == Decode(subs, refs, children[0]);
  }

  lemma CountTells(args: Args)
    ensures Count(args) == 1 ==> args.MoreArgs? && args.others.NoArgs?
    ensures Count(args) == 2 ==> args.MoreArgs? && args.others.MoreArgs? && args.others.others.NoArgs?
    ensures Count(args) == 3 ==>
              && args.MoreArgs? && args.others.MoreArgs? && args.others.others.MoreArgs?
              && args.others.others.others.NoArgs?
  {
    if args.MoreArgs? && args.others.MoreArgs? && args.others.others.MoreArgs? {
      assert Count(args) == 3 + Count(args.others.others.others);
    }
  }

  /** Evaluating the k-th operand of a decoded node is evaluating the k-th child. */
  lemma {:induction false} OperandIsChild(ctx: Context, subs: seq<Sub>, refs: seq<string>, i: nat,
                                          children: seq<nat>, k: nat)
    requires GoodVector(subs, |refs|) && i < |subs| && k < |children|
    requires forall m | 0 <= m < |children| :: children[m] < i
    ensures Count(DecodeArgs(subs, refs, i, children)) == |children|
    ensures WellFormedArgs(DecodeArgs(subs, refs, i, children))
    ensures EvalOperand(ctx, DecodeArgs(subs, refs, i, children), k) == EvalAt(ctx, subs, refs, children[k])
    decreases i, |children|
  {
    DecodeArgsIsGood(subs, refs, i, children);
    if k == 0 {
      FlatIsTree(ctx, subs, refs, children[0]);
    } else {
      OperandIsChild(ctx, subs, refs, i, children[1..], k - 1);
    }
  }

  /** Flat evaluation is tree evaluation of the decoded tree, errors and short cuts included. */
  lemma {:induction false} FlatIsTree(ctx: Context, subs: seq<Sub>, refs: seq<string>, i: nat)
    requires GoodVector(subs, |refs|) && i < |subs|
    ensures WellFormed(Decode(subs, refs, i))
    ensures EvalAt(ctx, subs, refs, i) == Eval(ctx, Decode(subs, refs, i))
    decreases i + 1, 0
  {
    DecodeIsWellFormed(subs, refs, i);
    assert GoodEntry(subs, |refs|, i);
    if subs[i].SNode? {
      var children := subs[i].children;
      assert Children(subs[i]) == children;
      DecodeArgsIsGood(subs, refs, i, children);
      forall k | 0 <= k < |children|
        ensures EvalOperand(ctx, DecodeArgs(subs, refs, i, children), k) == EvalAt(ctx, subs, refs, children[k])
      {
        OperandIsChild(ctx, subs, refs, i, children, k);
      }
      assert |children| > 0 ==>
          DecodeArgs(subs, refs, i, children).first == Decode(subs, refs, children[0]);
    }
  }

  lemma FlatIsDecoded(ctx: Context, subs: seq<Sub>, refs: seq<string>, i: nat, e: Expr)
    requires GoodVector(subs, |refs|) && i < |subs| && WellFormed(e)
    requires Decode(subs, refs, i) == e
    ensures EvalAt(ctx, subs, refs, i) == Eval(ctx, e)
  {
    FlatIsTree(ctx, subs, refs, i);
  }

  /** What parsing promises: evaluating the vector it leaves means evaluating the tree. */
  lemma ParsedMeansTree(ctx: Context, subs: seq<Sub>, refs: seq<string>, e: Expr)
    requires WellFormed(e) && Holds(subs, refs, e, 0, 0) && |subs| == Size(e)
    ensures GoodVector(subs, |refs|)
    ensures EvalAt(ctx, subs, refs, |subs| - 1) == Eval(ctx, e)
  {
    TreeVector(subs, refs, e);
    FlatIsDecoded(ctx, subs, refs, |subs| - 1, e);
  }
}
