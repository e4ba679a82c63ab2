/** What the operators of expressions compute, stated of the values of whole expressions. */
module Laws {
  import opened Wrappers
  import opened Word64
  import opened Syntax
  import opened Evaluation
  import Vectors
  import Integers
  import Substrings
  import Versions

  // ---------------------------------------------------------------------------------------
  // How values are read.

  /** The value counts as an integer: it is one, or it is a text that spells one. */
  predicate Reads(v: Value, n: int) {
    if v.number.Some? then v.number.value == n
    else v.text.Some? && Integers.ParseInteger(v.text.value) == Some(n)
  }

  predicate ReadsNone(v: Value) {
    v.number.None? && (v.text.Some? ==> Integers.ParseInteger(v.text.value).None?)
  }

  /** A number is true unless it is zero, a text unless it is empty, "0" or a spelling of false. */
  predicate IsTrue(v: Value) {
    if v.number.Some? then v.number.value != 0
    else v.text.Some? && v.text.value !in ["", "0", "false", "False", "FALSE"]
  }

  function Shown(v: Value): string {
    match (v.text, v.number)
    case (Some(t), _) => t
    case (None, Some(n)) => Integers.Render(n, v.format)
    case (None, None) => ""
  }

  lemma ReadsNumber(v: Value, n: int)
    requires Reads(v, n)
    ensures Number(v) == Some(n)
  {
  }

  lemma ReadsNothing(v: Value)
    ensures Number(v).None? <==> ReadsNone(v)
    ensures Number(v).Some? ==> Reads(v, Number(v).value)
  {
  }

  lemma TruthIs(v: Value)
    ensures Truth(v) <==> IsTrue(v)
  {
  }

  lemma TextIs(v: Value)
    ensures Text(v) == Shown(v)
  {
  }

  // ---------------------------------------------------------------------------------------
  // How results are told.

  /** The expression evaluates to something that counts as this integer. */
  predicate Yields(ctx: Context, e: Expr, n: int) {
    WellFormed(e) && Eval(ctx, e).Success? && Reads(Eval(ctx, e).value, n)
  }

  /** A plain integer, up to multiples of two to the power of 64. */
  predicate Gives(o: Outcome, n: int) {
    && o.Success? && o.value.text.None? && o.value.number.Some?
    && (o.value.number.value - n) % MODULUS == 0
  }

  /** A truth value: both as a number and as a text. */
  predicate IsBool(o: Outcome, b: bool) {
    o == if b then Success(Value(Some("1"), Some(1), Default)) else Success(Value(Some("0"), Some(0), Default))
  }

  /** What is given within range is exact. */
  lemma GivesExactly(o: Outcome, n: int)
    requires Gives(o, n) && InRange(n)
    ensures o.value.number == Some(n)
  {
    var d := o.value.number.value - n;
    assert d == MODULUS * (d / MODULUS);
    assert -MODULUS < d < MODULUS;
  }

  // ---------------------------------------------------------------------------------------
  // Constants and the order of evaluation.

  lemma {:induction false} Constants(ctx: Context, text: string, n: Int64, format: Format)
    ensures Eval(ctx, StringConstant(text)) == Success(Value(Some(text), None, Default))
    ensures Eval(ctx, IntegerConstant(n, format)) == Success(Value(None, Some(n), format))
  {
  }

  /** How the two operands are reached. */
  lemma {:induction false} Operands(ctx: Context, op: BinaryOp, l: Expr, r: Expr)
    requires WellFormed(l) && WellFormed(r)
    ensures EvalOperand(ctx, Binary(op, l, r).args, 0) == Eval(ctx, l)
    ensures EvalOperand(ctx, Binary(op, l, r).args, 1) == Eval(ctx, r)
  {
    assert Binary(op, l, r).args.others.first == r;
  }

  /** Two operands that are both evaluated. */
  lemma {:induction false} BothOperands(ctx: Context, op: BinaryOp, l: Expr, r: Expr)
    requires WellFormed(l) && WellFormed(r) && !op.And? && !op.Or?
    ensures Eval(ctx, Binary(op, l, r))
         == if Eval(ctx, l).Failure? then Eval(ctx, l)
            else if Eval(ctx, r).Failure? then Eval(ctx, r)
            else BinaryValue(op, Eval(ctx, l).value, Eval(ctx, r).value)
  {
    Operands(ctx, op, l, r);
    assert Eval(ctx, Binary(op, l, r)) == EvalNode(ctx, OpBinary(op), Binary(op, l, r).args);
  }

  /** An operand that raises makes the operator raise, the left one first. */
  lemma {:induction false} OperandsRaise(ctx: Context, op: BinaryOp, l: Expr, r: Expr)
    requires WellFormed(l) && WellFormed(r)
    ensures Eval(ctx, l).Failure? ==> Eval(ctx, Binary(op, l, r)) == Eval(ctx, l)
    ensures Eval(ctx, l).Success? && Eval(ctx, r).Failure? && !op.And? && !op.Or? ==>
              Eval(ctx, Binary(op, l, r)) == Eval(ctx, r)
  {
    if op.And? || op.Or? {
      Operands(ctx, op, l, r);
      assert Eval(ctx, Binary(op, l, r)) == EvalNode(ctx, OpBinary(op), Binary(op, l, r).args);
    } else {
      BothOperands(ctx, op, l, r);
    }
  }

  // ---------------------------------------------------------------------------------------
  // Arithmetic.

  /** The operators that need integers, and raise if they do not get them. */
  predicate NeedsIntegers(op: BinaryOp) {
    || op.Multiply? || op.Divide? || op.Remainder? || op.Add? || op.Subtract? || op.LeftShift? || op.RightShift?
    || op.LessThan? || op.LessEqual? || op.GreaterThan? || op.GreaterEqual? || IsBitwise(op)
  }

  predicate IsBitwise(op: BinaryOp) {
    op.BitAnd? || op.BitXor? || op.BitOr?
  }

  lemma {:induction false} NoIntegers(ctx: Context, op: BinaryOp, l: Expr, r: Expr)
    requires WellFormed(l) && WellFormed(r) && Eval(ctx, l).Success? && Eval(ctx, r).Success? && NeedsIntegers(op)
    requires ReadsNone(Eval(ctx, l).value) || ReadsNone(Eval(ctx, r).value)
    ensures Eval(ctx, Binary(op, l, r))
         == Failure(BinaryOperands(op, Shown(Eval(ctx, l).value), Shown(Eval(ctx, r).value)))
  {
    BothOperands(ctx, op, l, r);
    ReadsNothing(Eval(ctx, l).value);
    ReadsNothing(Eval(ctx, r).value);
    TextIs(Eval(ctx, l).value);
    TextIs(Eval(ctx, r).value);
  }

  /** Two operands that count as integers. */
  lemma {:induction false} IntegersMeet(ctx: Context, op: BinaryOp, l: Expr, r: Expr, a: int, b: int)
    requires Yields(ctx, l, a) && Yields(ctx, r, b) && NeedsIntegers(op)
    requires op.Divide? || op.Remainder? ==> b != 0
    ensures InRange(a) && InRange(b)
    ensures var v := IntegerValue(op, a, b);
            Eval(ctx, Binary(op, l, r))
              == Success(if IsComparison(op) then v
                         else v.(format := Mixed(Eval(ctx, l).value.format, Eval(ctx, r).value.format)))
  {
    BothOperands(ctx, op, l, r);
    ReadsNumber(Eval(ctx, l).value, a);
    ReadsNumber(Eval(ctx, r).value, b);
  }

  /** The display format of a result is that of the left operand, or else that of the right one. */
  function Mixed(left: Format, right: Format): Format {
    if left != Default then left else right
  }

  lemma {:induction false} Formats(ctx: Context, op: BinaryOp, l: Expr, r: Expr, a: int, b: int)
    requires Yields(ctx, l, a) && Yields(ctx, r, b) && NeedsIntegers(op)
    requires !IsComparison(op) && (op.Divide? || op.Remainder? ==> b != 0)
    ensures Eval(ctx, Binary(op, l, r)).Success?
    ensures Eval(ctx, Binary(op, l, r)).value.format
         == Mixed(Eval(ctx, l).value.format, Eval(ctx, r).value.format)
  {
    IntegersMeet(ctx, op, l, r, a, b);
  }

  /** What the operator makes of two integers is what the expression gives. */
  lemma {:induction false} TellsInt(ctx: Context, op: BinaryOp, l: Expr, r: Expr, a: int, b: int, n: int)
    requires Yields(ctx, l, a) && Yields(ctx, r, b) && NeedsIntegers(op) && !IsComparison(op)
    requires (op.Divide? || op.Remainder? ==> b != 0) && IntegerValue(op, a, b) == FromInt(n)
    ensures Gives(Eval(ctx, Binary(op, l, r)), n)
  {
    IntegersMeet(ctx, op, l, r, a, b);
    MadeFrom(Eval(ctx, Binary(op, l, r)), n, Mixed(Eval(ctx, l).value.format, Eval(ctx, r).value.format));
  }

  /** A value that was made from an integer tells it. */
  lemma MadeFrom(o: Outcome, n: int, format: Format)
    requires o == Success(FromInt(n).(format := format))
    ensures Gives(o, n)
  {
    WrapIsCongruent(n);
  }

  lemma {:induction false} TellsBool(ctx: Context, op: BinaryOp, l: Expr, r: Expr, a: int, b: int, c: bool)
    requires Yields(ctx, l, a) && Yields(ctx, r, b) && IsComparison(op) && IntegerValue(op, a, b) == FromBool(c)
    ensures IsBool(Eval(ctx, Binary(op, l, r)), c)
  {
    IntegersMeet(ctx, op, l, r, a, b);
  }

  lemma {:induction false} Sums(ctx: Context, l: Expr, r: Expr, a: int, b: int)
    requires Yields(ctx, l, a) && Yields(ctx, r, b)
    ensures Gives(Eval(ctx, Binary(Add, l, r)), a + b)
  {
    TellsInt(ctx, Add, l, r, a, b, a + b);
  }

  lemma {:induction false} Differences(ctx: Context, l: Expr, r: Expr, a: int, b: int)
    requires Yields(ctx, l, a) && Yields(ctx, r, b)
    ensures Gives(Eval(ctx, Binary(Subtract, l, r)), a - b)
  {
    TellsInt(ctx, Subtract, l, r, a, b, a - b);
  }

  lemma {:induction false} Products(ctx: Context, l: Expr, r: Expr, a: int, b: int)
    requires Yields(ctx, l, a) && Yields(ctx, r, b)
    ensures Gives(Eval(ctx, Binary(Multiply, l, r)), a * b)
  {
    TellsInt(ctx, Multiply, l, r, a, b, a * b);
  }

  /** Adding what was subtracted gives back the number, whether or not the difference fits. */
  lemma {:induction false} AddUndoesSubtract(ctx: Context, l: Expr, r: Expr, a: int, b: int)
    requires Yields(ctx, l, a) && Yields(ctx, r, b)
    ensures Yields(ctx, Binary(Add, Binary(Subtract, l, r), r), a)
  {
    IntegersMeet(ctx, Add, l, r, a, b);
    Differences(ctx, l, r, a, b);
    var e := Binary(Subtract, l, r);
    var d := Eval(ctx, e).value.number.value;
    Sums(ctx, e, r, d, b);
    GoesBack(Eval(ctx, Binary(Add, e, r)), d, a, b);
  }

  lemma GoesBack(o: Outcome, d: int, a: int, b: int)
    requires Gives(o, d + b) && (d - (a - b)) % MODULUS == 0 && InRange(a)
    ensures o.value.number == Some(a)
  {
    var x := o.value.number.value;
    AddMultiples(x - (d + b), d - (a - b));
    assert x - a == (x - (d + b)) + (d - (a - b));
    GivesExactly(o, a);
  }

  /** Quotient and remainder: together they give back the number, the remainder is smaller than the
      divisor, and unless it is zero it has the sign of the number. */
  lemma {:induction false} Division(ctx: Context, l: Expr, r: Expr, a: int, b: int) returns (q: int, m: int)
    requires Yields(ctx, l, a) && Yields(ctx, r, b) && b != 0
    ensures Gives(Eval(ctx, Binary(Divide, l, r)), q) && Gives(Eval(ctx, Binary(Remainder, l, r)), m)
    ensures a == q * b + m && (if b > 0 then -b < m < b else b < m < -b) && (m > 0 ==> a > 0) && (m < 0 ==> a < 0)
  {
    q, m := QuotientAndRest(a, b);
    TellsInt(ctx, Divide, l, r, a, b, q);
    TellsInt(ctx, Remainder, l, r, a, b, m);
  }

  lemma QuotientAndRest(a: int, b: int) returns (q: int, m: int)
    requires b != 0
    ensures IntegerValue(Divide, a, b) == FromInt(q) && IntegerValue(Remainder, a, b) == FromInt(m)
    ensures a == q * b + m && (if b > 0 then -b < m < b else b < m < -b) && (m > 0 ==> a > 0) && (m < 0 ==> a < 0)
  {
    q := Quotient(a, b);
    m := a - b * q;
    Truncates(a, b);
  }

  lemma Truncates(a: int, b: int)
    requires b != 0
    ensures var m := a - b * Quotient(a, b);
            (if b > 0 then -b < m < b else b < m < -b) && (m > 0 ==> a > 0) && (m < 0 ==> a < 0)
  {
    if a >= 0 {
      assert a == b * (a / b) + a % b;
    } else {
      assert -a == b * ((-a) / b) + (-a) % b;
      assert b * -((-a) / b) == -(b * ((-a) / b));
    }
  }

  lemma {:induction false} DivisionByNone(ctx: Context, op: BinaryOp, l: Expr, r: Expr, a: int)
    requires Yields(ctx, l, a) && Yields(ctx, r, 0) && (op.Divide? || op.Remainder?)
    ensures Eval(ctx, Binary(op, l, r))
         == Failure(EvalError.DivisionByZero(op, Shown(Eval(ctx, l).value), Shown(Eval(ctx, r).value)))
  {
    BothOperands(ctx, op, l, r);
    ReadsNumber(Eval(ctx, l).value, a);
    ReadsNumber(Eval(ctx, r).value, 0);
    TextIs(Eval(ctx, l).value);
    TextIs(Eval(ctx, r).value);
  }

  lemma {:induction false} Comparisons(ctx: Context, l: Expr, r: Expr, a: int, b: int)
    requires Yields(ctx, l, a) && Yields(ctx, r, b)
    ensures IsBool(Eval(ctx, Binary(LessThan, l, r)), a < b)
    ensures IsBool(Eval(ctx, Binary(LessEqual, l, r)), a <= b)
  {
    TellsBool(ctx, LessThan, l, r, a, b, a < b);
    TellsBool(ctx, LessEqual, l, r, a, b, a <= b);
  }

  lemma {:induction false} ComparisonsTurned(ctx: Context, l: Expr, r: Expr, a: int, b: int)
    requires Yields(ctx, l, a) && Yields(ctx, r, b)
    ensures IsBool(Eval(ctx, Binary(GreaterThan, l, r)), b < a)
    ensures IsBool(Eval(ctx, Binary(GreaterEqual, l, r)), b <= a)
  {
    TellsBool(ctx, GreaterThan, l, r, a, b, a > b);
    TellsBool(ctx, GreaterEqual, l, r, a, b, a >= b);
  }

  lemma EqualValues(v: Value, w: Value)
    ensures forall a, b | Reads(v, a) && Reads(w, b) :: SameValue(v, w) == (a == b)
    ensures ReadsNone(v) || ReadsNone(w) ==> SameValue(v, w) == (Shown(v) == Shown(w))
  {
    ReadsNothing(v);
    ReadsNothing(w);
    TextIs(v);
    TextIs(w);
  }

  /** Two values are equal as integers if both count as such, and otherwise as texts. */
  lemma {:induction false} Equality(ctx: Context, l: Expr, r: Expr)
    requires WellFormed(l) && WellFormed(r) && Eval(ctx, l).Success? && Eval(ctx, r).Success?
    ensures var (v, w) := (Eval(ctx, l).value, Eval(ctx, r).value);
            && (forall a, b | Reads(v, a) && Reads(w, b) ::
                  && IsBool(Eval(ctx, Binary(Equal, l, r)), a == b)
                  && IsBool(Eval(ctx, Binary(NotEqual, l, r)), a != b))
            && (ReadsNone(v) || ReadsNone(w) ==>
                  && IsBool(Eval(ctx, Binary(Equal, l, r)), Shown(v) == Shown(w))
                  && IsBool(Eval(ctx, Binary(NotEqual, l, r)), Shown(v) != Shown(w)))
  {
    SameValues(ctx, l, r);
    EqualValues(Eval(ctx, l).value, Eval(ctx, r).value);
  }

  lemma {:induction false} SameValues(ctx: Context, l: Expr, r: Expr)
    requires WellFormed(l) && WellFormed(r) && Eval(ctx, l).Success? && Eval(ctx, r).Success?
    ensures var same := SameValue(Eval(ctx, l).value, Eval(ctx, r).value);
            IsBool(Eval(ctx, Binary(Equal, l, r)), same) && IsBool(Eval(ctx, Binary(NotEqual, l, r)), !same)
  {
    BothOperands(ctx, Equal, l, r);
    BothOperands(ctx, NotEqual, l, r);
  }

  lemma {:induction false} Concatenation(ctx: Context, l: Expr, r: Expr)
    requires WellFormed(l) && WellFormed(r) && Eval(ctx, l).Success? && Eval(ctx, r).Success?
    ensures Eval(ctx, Binary(StringConcat, l, r))
         == Success(Value(Some(Shown(Eval(ctx, l).value) + Shown(Eval(ctx, r).value)), None, Default))
  {
    BothOperands(ctx, StringConcat, l, r);
    TextIs(Eval(ctx, l).value);
    TextIs(Eval(ctx, r).value);
  }

  // ---------------------------------------------------------------------------------------
  // Bits.

  /** The i-th bit of a number in two's complement. */
  predicate Bit(n: int, i: nat)
    decreases i
  {
    if i == 0 then n % 2 == 1 else Bit(n / 2, i - 1)
  }

  function TwoTo(n: nat): (p: int)
    ensures p > 0
  {
    if n == 0 then 1 else 2 * TwoTo(n - 1)
  }

  lemma {:induction false} PowersAgree(n: nat)
    ensures Power2(n) == TwoTo(n)
  {
    if n > 0 {
      PowersAgree(n - 1);
    }
  }

  /** What the operator makes of two bits. */
  predicate Combined(op: BinaryOp, x: bool, y: bool)
    requires IsBitwise(op)
  {
    if op == BitAnd then x && y else if op == BitOr then x || y else (x || y) && !(x && y)
  }

  lemma {:induction false} BitsAre(op: BinaryOp, a: int, b: int, n: nat, i: nat)
    requires i < n && IsBitwise(op)
    ensures Bit(Bits(op, a, b, n), i) <==> Combined(op, Bit(a, i), Bit(b, i))
    decreases i
  {
    var rest := Bits(op, a / 2, b / 2, n - 1);
    assert Bits(op, a, b, n) / 2 == rest && Bits(op, a, b, n) % 2 == Bits(op, a, b, n) - 2 * rest;
    if i > 0 {
      BitsAre(op, a / 2, b / 2, n - 1, i - 1);
    }
  }

  /** Bits below a power of two do not notice multiples of it. */
  lemma {:induction false} BitsRepeat(n: int, k: int, w: nat, i: nat)
    requires i < w
    ensures Bit(n + k * TwoTo(w), i) <==> Bit(n, i)
    decreases i
  {
    assert k * TwoTo(w) == 2 * (k * TwoTo(w - 1));
    if i > 0 {
      BitsRepeat(n / 2, k, w - 1, i - 1);
    }
  }

  lemma FourMore(n: nat)
    ensures TwoTo(n + 4) == 16 * TwoTo(n)
  {
    assert TwoTo(n + 4) == 2 * TwoTo(n + 3) && TwoTo(n + 3) == 2 * TwoTo(n + 2);
    assert TwoTo(n + 2) == 2 * TwoTo(n + 1) && TwoTo(n + 1) == 2 * TwoTo(n);
  }

  lemma SixteenMore(n: nat)
    ensures TwoTo(n + 16) == 0x1_0000 * TwoTo(n)
  {
    FourMore(n);
    FourMore(n + 4);
    FourMore(n + 8);
    FourMore(n + 12);
  }

  lemma WordSize(w: nat)
    requires w == 64
    ensures TwoTo(w) == MODULUS
  {
    SixteenMore(w - 64);
    SixteenMore(w - 48);
    SixteenMore(w - 32);
    SixteenMore(w - 16);
  }

  lemma {:induction false} BitsOfWord(op: BinaryOp, a: int, b: int, w: nat, i: nat, x: int)
    requires IsBitwise(op) && i < w == 64 && (x - Bits(op, a, b, w)) % MODULUS == 0
    ensures Bit(x, i) <==> Combined(op, Bit(a, i), Bit(b, i))
  {
    var n := Bits(op, a, b, w);
    WordSize(w);
    BitsAre(op, a, b, w, i);
    var k := (x - n) / MODULUS;
    assert x == n + k * TwoTo(w);
    BitsRepeat(n, k, w, i);
  }

  lemma {:induction false} WordOf(op: BinaryOp, a: int, b: int, w: nat)
    requires IsBitwise(op) && w == 64
    ensures IntegerValue(op, a, b) == FromInt(Bits(op, a, b, w))
  {
  }

  /** Every bit of a result of &, ^ or | follows from the two bits in its place. */
  lemma {:induction false} Bitwise(ctx: Context, op: BinaryOp, l: Expr, r: Expr, a: int, b: int, i: nat)
    requires Yields(ctx, l, a) && Yields(ctx, r, b) && IsBitwise(op) && i < 64
    ensures HasBit(Eval(ctx, Binary(op, l, r)), i, Combined(op, Bit(a, i), Bit(b, i)))
  {
    BitwiseIn(ctx, op, l, r, a, b, 64, i);
  }

  lemma {:induction false} BitwiseIn(ctx: Context, op: BinaryOp, l: Expr, r: Expr, a: int, b: int, w: nat, i: nat)
    requires Yields(ctx, l, a) && Yields(ctx, r, b) && IsBitwise(op) && i < w == 64
    ensures HasBit(Eval(ctx, Binary(op, l, r)), i, Combined(op, Bit(a, i), Bit(b, i)))
  {
    var n := Bits(op, a, b, w);
    WordOf(op, a, b, w);
    TellsInt(ctx, op, l, r, a, b, n);
    GivenBits(Eval(ctx, Binary(op, l, r)), op, a, b, w, i);
  }

  /** A plain integer whose i-th bit is this one. */
  predicate HasBit(o: Outcome, i: nat, bit: bool) {
    o.Success? && o.value.text.None? && o.value.number.Some? && Bit(o.value.number.value, i) == bit
  }

  lemma {:induction false} GivenBits(o: Outcome, op: BinaryOp, a: int, b: int, w: nat, i: nat)
    requires Gives(o, Bits(op, a, b, w)) && IsBitwise(op) && i < w == 64
    ensures HasBit(o, i, Combined(op, Bit(a, i), Bit(b, i)))
  {
    BitsOfWord(op, a, b, w, i, o.value.number.value);
  }

  /** Numbers with the same bits are the same. */
  lemma {:induction false} SameBits(a: int, b: int, w: nat)
    requires -TwoTo(w) <= a < TwoTo(w) && -TwoTo(w) <= b < TwoTo(w)
    requires forall i: nat | i <= w :: Bit(a, i) <==> Bit(b, i)
    ensures a == b
    decreases w
  {
    assert Bit(a, 0) <==> Bit(b, 0);
    if w > 0 {
      forall i: nat | i <= w - 1
        ensures Bit(a / 2, i) <==> Bit(b / 2, i)
      {
        assert Bit(a, i + 1) <==> Bit(b, i + 1);
      }
      SameBits(a / 2, b / 2, w - 1);
    }
  }

  lemma {:induction false} ShiftsAre(a: int, b: int, p: int)
    requires 0 <= b < 64 && p == TwoTo(b)
    ensures IntegerValue(LeftShift, a, b) == FromInt(a * p)
    ensures IntegerValue(RightShift, a, b) == FromInt(a / p)
  {
    PowersAgree(b);
    assert b % 64 == b;
  }

  /** Shifting to the left multiplies by a power of two. */
  lemma {:induction false} LeftShifts(ctx: Context, l: Expr, r: Expr, a: int, b: int)
    requires Yields(ctx, l, a) && Yields(ctx, r, b) && 0 <= b < 64
    ensures Gives(Eval(ctx, Binary(LeftShift, l, r)), a * TwoTo(b))
  {
    ShiftsAre(a, b, TwoTo(b));
    var n := a * TwoTo(b);
    TellsInt(ctx, LeftShift, l, r, a, b, n);
  }

  /** Shifting to the right divides by it, towards the smaller number. */
  lemma {:induction false} RightShifts(ctx: Context, l: Expr, r: Expr, a: int, b: int) returns (n: int)
    requires Yields(ctx, l, a) && Yields(ctx, r, b) && 0 <= b < 64
    ensures Gives(Eval(ctx, Binary(RightShift, l, r)), n) && n * TwoTo(b) <= a < (n + 1) * TwoTo(b)
  {
    ShiftsAre(a, b, TwoTo(b));
    n := a / TwoTo(b);
    TellsInt(ctx, RightShift, l, r, a, b, n);
    Floors(a, TwoTo(b));
  }

  lemma Floors(a: int, p: int)
    requires p > 0
    ensures (a / p) * p <= a < (a / p + 1) * p
  {
    assert a == p * (a / p) + a % p;
  }

  /** Shifting back what was shifted undoes it, as long as nothing was shifted out. */
  lemma {:induction false} RightUndoesLeft(ctx: Context, l: Expr, r: Expr, a: int, b: int)
    requires Yields(ctx, l, a) && Yields(ctx, r, b) && 0 <= b < 64 && InRange(a * TwoTo(b))
    ensures Yields(ctx, Binary(RightShift, Binary(LeftShift, l, r), r), a)
  {
    LeftShifts(ctx, l, r, a, b);
    var e := Binary(LeftShift, l, r);
    var p := TwoTo(b);
    GivesExactly(Eval(ctx, e), a * p);
    var n := RightShifts(ctx, e, r, a * p, b);
    assert n == a by {
      Between(n, a, p);
    }
    IntegersMeet(ctx, LeftShift, l, r, a, b);
    GivesExactly(Eval(ctx, Binary(RightShift, e, r)), n);
  }

  lemma Between(n: int, a: int, p: int)
    requires p > 0 && n * p <= a * p < (n + 1) * p
    ensures n == a
  {
    assert n < a ==> (n + 1) * p <= a * p;
  }

  // ---------------------------------------------------------------------------------------
  // Truth.

  /** && and || look at the right operand only if the left one does not decide. */
  lemma {:induction false} ShortCuts(ctx: Context, l: Expr, r: Expr)
    requires WellFormed(l) && WellFormed(r) && Eval(ctx, l).Success?
    ensures var (c, o) := (IsTrue(Eval(ctx, l).value), Eval(ctx, r));
            && (!c ==> IsBool(Eval(ctx, Binary(And, l, r)), false))
            && (c && o.Success? ==> IsBool(Eval(ctx, Binary(And, l, r)), IsTrue(o.value)))
            && (c && o.Failure? ==> Eval(ctx, Binary(And, l, r)) == o)
    ensures var (c, o) := (IsTrue(Eval(ctx, l).value), Eval(ctx, r));
            && (c ==> IsBool(Eval(ctx, Binary(Or, l, r)), true))
            && (!c && o.Success? ==> IsBool(Eval(ctx, Binary(Or, l, r)), IsTrue(o.value)))
            && (!c && o.Failure? ==> Eval(ctx, Binary(Or, l, r)) == o)
  {
    Operands(ctx, And, l, r);
    Operands(ctx, Or, l, r);
    assert Eval(ctx, Binary(And, l, r)) == EvalNode(ctx, OpBinary(And), Binary(And, l, r).args);
    assert Eval(ctx, Binary(Or, l, r)) == EvalNode(ctx, OpBinary(Or), Binary(Or, l, r).args);
    TruthIs(Eval(ctx, l).value);
    if Eval(ctx, r).Success? {
      TruthIs(Eval(ctx, r).value);
    }
  }

  lemma ConnectedValues(v: Value, w: Value)
    ensures var (x, y) := (IsTrue(v), IsTrue(w));
            && IsBool(BinaryValue(Xor, v, w), (x && !y) || (!x && y))
            && IsBool(BinaryValue(Eqv, v, w), (x && y) || (!x && !y))
            && IsBool(BinaryValue(Implies, v, w), !x || y)
  {
    TruthIs(v);
    TruthIs(w);
  }

  lemma {:induction false} Connectives(ctx: Context, l: Expr, r: Expr)
    requires WellFormed(l) && WellFormed(r) && Eval(ctx, l).Success? && Eval(ctx, r).Success?
    ensures var (x, y) := (IsTrue(Eval(ctx, l).value), IsTrue(Eval(ctx, r).value));
            && IsBool(Eval(ctx, Binary(Xor, l, r)), (x && !y) || (!x && y))
            && IsBool(Eval(ctx, Binary(Eqv, l, r)), (x && y) || (!x && !y))
            && IsBool(Eval(ctx, Binary(Implies, l, r)), !x || y)
  {
    BothOperands(ctx, Xor, l, r);
    BothOperands(ctx, Eqv, l, r);
    BothOperands(ctx, Implies, l, r);
    ConnectedValues(Eval(ctx, l).value, Eval(ctx, r).value);
  }

  lemma {:induction false} BranchIs(ctx: Context, c: Expr, y: Expr, n: Expr)
    requires WellFormed(c) && WellFormed(y) && WellFormed(n)
    ensures Eval(ctx, Cond(c, y, n))
         == if Eval(ctx, c).Failure? then Eval(ctx, c)
            else if Truth(Eval(ctx, c).value) then Eval(ctx, y) else Eval(ctx, n)
  {
    var args := Cond(c, y, n).args;
    assert args.others.first == y && args.others.others.first == n;
    assert EvalOperand(ctx, args, 0) == Eval(ctx, c);
    assert EvalOperand(ctx, args, 1) == EvalOperand(ctx, args.others, 0) == Eval(ctx, y);
    assert EvalOperand(ctx, args, 2) == EvalOperand(ctx, args.others, 1) == Eval(ctx, n);
    assert Eval(ctx, Cond(c, y, n)) == EvalNode(ctx, OpCond, args);
  }

  /** A conditional is one of its branches, and the other one is not looked at. */
  lemma {:induction false} Conditionals(ctx: Context, c: Expr, y: Expr, n: Expr)
    requires WellFormed(c) && WellFormed(y) && WellFormed(n)
    ensures Eval(ctx, Cond(c, y, n))
         == if Eval(ctx, c).Failure? then Eval(ctx, c)
            else if IsTrue(Eval(ctx, c).value) then Eval(ctx, y) else Eval(ctx, n)
  {
    BranchIs(ctx, c, y, n);
    if Eval(ctx, c).Success? {
      TruthIs(Eval(ctx, c).value);
    }
  }

  // ---------------------------------------------------------------------------------------
  // Unary operators.

  lemma {:induction false} OneOperand(ctx: Context, op: UnaryOp, e: Expr)
    requires WellFormed(e)
    ensures Eval(ctx, Unary(op, e))
         == if Eval(ctx, e).Failure? then Eval(ctx, e) else UnaryValue(ctx, op, Eval(ctx, e).value)
  {
    assert EvalOperand(ctx, Unary(op, e).args, 0) == Eval(ctx, e);
    assert Eval(ctx, Unary(op, e)) == EvalNode(ctx, OpUnary(op), Unary(op, e).args);
  }

  lemma {:induction false} OperandRaises(ctx: Context, op: UnaryOp, e: Expr)
    requires WellFormed(e) && Eval(ctx, e).Failure?
    ensures Eval(ctx, Unary(op, e)) == Eval(ctx, e)
  {
    OneOperand(ctx, op, e);
  }

  lemma Made(o: Outcome, n: int)
    requires o == Success(FromInt(n))
    ensures Gives(o, n)
  {
    WrapIsCongruent(n);
  }

  lemma SignedValues(ctx: Context, v: Value, a: int)
    requires Reads(v, a)
    ensures UnaryValue(ctx, Negate, v) == Success(FromInt(-a))
    ensures UnaryValue(ctx, BitNot, v) == Success(FromInt(-a - 1))
  {
    ReadsNumber(v, a);
  }

  lemma SignedGive(ctx: Context, v: Value, a: int)
    requires Reads(v, a)
    ensures Gives(UnaryValue(ctx, Negate, v), -a) && Gives(UnaryValue(ctx, BitNot, v), -a - 1)
  {
    SignedValues(ctx, v, a);
    Made(UnaryValue(ctx, Negate, v), -a);
    Made(UnaryValue(ctx, BitNot, v), -a - 1);
  }

  lemma {:induction false} Negations(ctx: Context, e: Expr, a: int)
    requires Yields(ctx, e, a)
    ensures Gives(Eval(ctx, Unary(Negate, e)), -a)
  {
    OneOperand(ctx, Negate, e);
    SignedGive(ctx, Eval(ctx, e).value, a);
  }

  lemma {:induction false} Complements(ctx: Context, e: Expr, a: int)
    requires Yields(ctx, e, a)
    ensures Gives(Eval(ctx, Unary(BitNot, e)), -a - 1)
  {
    OneOperand(ctx, BitNot, e);
    SignedGive(ctx, Eval(ctx, e).value, a);
  }

  /** A plus sign changes nothing but that a text is noted as the number it spells. */
  lemma {:induction false} PlusSigns(ctx: Context, e: Expr, a: int)
    requires Yields(ctx, e, a) && InRange(a)
    ensures Eval(ctx, Unary(Plus, e)) == Success(Eval(ctx, e).value.(number := Some(a)))
  {
    ReadsNumber(Eval(ctx, e).value, a);
    OneOperand(ctx, Plus, e);
  }

  lemma {:induction false} NoInteger(ctx: Context, op: UnaryOp, e: Expr)
    requires WellFormed(e) && Eval(ctx, e).Success? && ReadsNone(Eval(ctx, e).value)
    requires op.Negate? || op.Plus? || op.BitNot?
    ensures Eval(ctx, Unary(op, e)) == Failure(UnaryOperand(op, Shown(Eval(ctx, e).value)))
  {
    ReadsNothing(Eval(ctx, e).value);
    TextIs(Eval(ctx, e).value);
    OneOperand(ctx, op, e);
  }

  lemma {:induction false} Negation(ctx: Context, e: Expr)
    requires WellFormed(e) && Eval(ctx, e).Success?
    ensures IsBool(Eval(ctx, Unary(LogicalNot, e)), !IsTrue(Eval(ctx, e).value))
  {
    TruthIs(Eval(ctx, e).value);
    OneOperand(ctx, LogicalNot, e);
  }

  // ---------------------------------------------------------------------------------------
  // Names.

  /** The value of an option: zero while it is inactive; otherwise what its flavor makes of whether it
      is enabled and of its data. */
  predicate IsValueOf(o: Outcome, active: bool, flavor: Flavor, enabled: bool, data: Value) {
    && (!active ==> IsBool(o, false))
    && (active && flavor == NoFlavor ==> IsBool(o, true))
    && (active && flavor == BoolFlavor ==> IsBool(o, enabled))
    && (active && flavor == BoolDataFlavor && enabled ==> o == Success(data))
    && (active && flavor == BoolDataFlavor && !enabled ==> IsBool(o, false))
    && (active && flavor == DataFlavor ==> o == Success(data))
  }

  lemma {:induction false} References(ctx: Context, name: string)
    ensures var o := Eval(ctx, Expr.Reference(name));
            match ctx.resolve(name)
            case Unknown => IsBool(o, false)
            case Plain(_) => o == Failure(ReferenceHasNoValue(name))
            case Valuable(active, flavor, enabled, data) => IsValueOf(o, active, flavor, enabled, data)
  {
  }

  lemma {:induction false} Activity(ctx: Context, name: string)
    ensures IsBool(Eval(ctx, Active(name)), ctx.resolve(name) != Unknown && ctx.resolve(name).active)
  {
  }

  /** Indirection goes by the name that its operand shows. */
  lemma {:induction false} Indirections(ctx: Context, e: Expr)
    requires WellFormed(e) && Eval(ctx, e).Success?
    ensures var (o, name) := (Eval(ctx, Unary(Indirect, e)), Shown(Eval(ctx, e).value));
            match ctx.lookup(name)
            case Unknown => o == Failure(IndirectUnknown(name))
            case Plain(_) => o == Failure(IndirectHasNoValue(name))
            case Valuable(active, flavor, enabled, data) => IsValueOf(o, active, flavor, enabled, data)
  {
    TextIs(Eval(ctx, e).value);
    OneOperand(ctx, Indirect, e);
  }

  // ---------------------------------------------------------------------------------------
  // Functions.

  lemma OneArgument(e: Expr)
    requires WellFormed(e)
    ensures WellFormedArgs(MoreArgs(e, NoArgs)) && Count(MoreArgs(e, NoArgs)) == 1
  {
  }

  function Query(f: Func, name: string): (e: Expr)
    ensures NeedsReference(f) ==> WellFormed(e)
  {
    var e := Expr.Reference(name);
    OneArgument(e);
    Node(OpCall(f), MoreArgs(e, NoArgs))
  }

  lemma {:induction false} QueryIs(ctx: Context, f: Func, name: string)
    requires NeedsReference(f)
    ensures Eval(ctx, Query(f, name)) == Success(QueryValue(ctx, f, name))
  {
    assert Eval(ctx, Query(f, name)) == EvalNode(ctx, OpCall(f), Query(f, name).args);
  }

  /** The functions that ask about an option do not need it to be active, or to have a value. */
  lemma {:induction false} Queries(ctx: Context, name: string)
    ensures var t := ctx.resolve(name);
            && IsBool(Eval(ctx, Query(IsLoaded, name)), t != Unknown)
            && IsBool(Eval(ctx, Query(IsActive, name)), t != Unknown && t.active)
            && IsBool(Eval(ctx, Query(IsEnabled, name)), t.Valuable? && t.enabled)
  {
    QueryIs(ctx, IsLoaded, name);
    QueryIs(ctx, IsActive, name);
    QueryIs(ctx, IsEnabled, name);
  }

  lemma {:induction false} DataQueries(ctx: Context, name: string)
    ensures var (o, t) := (Eval(ctx, Query(GetData, name)), ctx.resolve(name));
            && (t.Valuable? ==> o == Success(Value(Some(Shown(t.data)), None, Default)))
            && (!t.Valuable? ==> IsBool(o, false))
  {
    QueryIs(ctx, GetData, name);
    if ctx.resolve(name).Valuable? {
      TextIs(ctx.resolve(name).data);
    }
  }

  function Call(f: Func, a: Expr, b: Expr): (e: Expr)
    requires WellFormed(a) && WellFormed(b)
    ensures f.IsSubstr? || f.IsXSubstr? || f.VersionCmp? ==> WellFormed(e)
  {
    var last := MoreArgs(b, NoArgs);
    var args := MoreArgs(a, last);
    assert WellFormedArgs(NoArgs) && Count(NoArgs) == 0;
    assert WellFormedArgs(last) && Count(last) == 1;
    assert WellFormedArgs(args) && Count(args) == 2;
    Node(OpCall(f), args)
  }

  lemma {:induction false} Arguments(ctx: Context, f: Func, a: Expr, b: Expr)
    requires WellFormed(a) && WellFormed(b) && (f.IsSubstr? || f.IsXSubstr? || f.VersionCmp?)
    ensures Eval(ctx, Call(f, a, b))
         == if Eval(ctx, a).Failure? then Eval(ctx, a)
            else if Eval(ctx, b).Failure? then Eval(ctx, b)
            else Success(CallValue(f, Eval(ctx, a).value, Eval(ctx, b).value))
  {
    var args := Call(f, a, b).args;
    assert args.others.first == b;
    assert EvalOperand(ctx, args, 0) == Eval(ctx, a) && EvalOperand(ctx, args, 1) == Eval(ctx, b);
    assert Eval(ctx, Call(f, a, b)) == EvalNode(ctx, OpCall(f), args);
  }

  /** An argument that raises makes the call raise, the first one first. */
  lemma {:induction false} ArgumentsRaise(ctx: Context, f: Func, a: Expr, b: Expr)
    requires WellFormed(a) && WellFormed(b) && (f.IsSubstr? || f.IsXSubstr? || f.VersionCmp?)
    ensures Eval(ctx, a).Failure? ==> Eval(ctx, Call(f, a, b)) == Eval(ctx, a)
    ensures Eval(ctx, a).Success? && Eval(ctx, b).Failure? ==> Eval(ctx, Call(f, a, b)) == Eval(ctx, b)
  {
    Arguments(ctx, f, a, b);
  }

  /** is_substr tells whether its needle stands in the text, on its own on the sides where it has a
      space. */
  lemma {:induction false} WordSearch(ctx: Context, a: Expr, b: Expr, core: string, leading: bool, trailing: bool)
    requires WellFormed(a) && WellFormed(b) && Eval(ctx, a).Success? && Eval(ctx, b).Success?
    requires Substrings.GoodCore(core, leading, trailing)
    requires Shown(Eval(ctx, b).value) == Substrings.Needle(core, leading, trailing)
    ensures IsBool(Eval(ctx, Call(IsSubstr, a, b)),
                   exists left, right ::
                     Substrings.Between(Shown(Eval(ctx, a).value), core, leading, trailing, left, right))
  {
    Arguments(ctx, IsSubstr, a, b);
    TextIs(Eval(ctx, a).value);
    TextIs(Eval(ctx, b).value);
    Substrings.Needles(core, leading, trailing);
    Substrings.FoundIff(Shown(Eval(ctx, a).value), core, leading, trailing);
  }

  /** is_xsubstr tells whether its needle stands in the text as it is. */
  lemma {:induction false} ExactSearch(ctx: Context, a: Expr, b: Expr)
    requires WellFormed(a) && WellFormed(b) && Eval(ctx, a).Success? && Eval(ctx, b).Success?
    ensures var needle := Shown(Eval(ctx, b).value);
            IsBool(Eval(ctx, Call(IsXSubstr, a, b)),
                   exists left, right ::
                     Substrings.Between(Shown(Eval(ctx, a).value), needle, false, false, left, right))
  {
    var needle := Shown(Eval(ctx, b).value);
    Arguments(ctx, IsXSubstr, a, b);
    TextIs(Eval(ctx, a).value);
    TextIs(Eval(ctx, b).value);
    Substrings.Needles(needle, false, false);
    Substrings.FoundIff(Shown(Eval(ctx, a).value), needle, false, false);
  }

  lemma {:induction false} VersionComparison(ctx: Context, a: Expr, b: Expr)
    requires WellFormed(a) && WellFormed(b) && Eval(ctx, a).Success? && Eval(ctx, b).Success?
    ensures Gives(Eval(ctx, Call(VersionCmp, a, b)),
                  Versions.Compare(Shown(Eval(ctx, a).value), Shown(Eval(ctx, b).value)))
  {
    Arguments(ctx, VersionCmp, a, b);
    var v, w := Eval(ctx, a).value, Eval(ctx, b).value;
    TextIs(v);
    TextIs(w);
    ComparesVersions(v, w, Versions.Compare(Text(v), Text(w)));
  }

  lemma {:induction false} ComparesVersions(v: Value, w: Value, c: int)
    requires c == Versions.Compare(Text(v), Text(w))
    ensures Gives(Success(CallValue(VersionCmp, v, w)), c)
  {
    WrapIsCongruent(c);
  }

  // ---------------------------------------------------------------------------------------
  // Absorbed signs.

  lemma {:induction false} FoldIsWellFormed(e: Expr)
    requires WellFormed(e)
    ensures WellFormed(Fold(e))
    decreases e
  {
    if e.Node? {
      var args := FoldArgs(e.args);
      FoldedArgsAre(e.args);
      FoldKeepsCount(e.args);
      CountTells(args);
      Vectors.OperandCount(e.op, e.args);
      if e.op.OpUnary? {
        assert WellFormed(args.first) && Fold(e) == ApplyUnary(e.op.uop, args.first);
        assert ApplyUnary(e.op.uop, args.first).Node? ==>
            ApplyUnary(e.op.uop, args.first) == Unary(e.op.uop, args.first);
      } else {
        assert Fold(e) == Node(e.op, args);
        if e.op.OpCall? {
          FoldKeepsCalls(e.op.func, e.args);
        }
      }
    }
  }

  lemma {:induction false} FoldedArgsAre(args: Args)
    requires WellFormedArgs(args)
    ensures WellFormedArgs(FoldArgs(args))
    decreases args
  {
    if args.MoreArgs? {
      FoldIsWellFormed(args.first);
      FoldedArgsAre(args.others);
    }
  }

  /** Absorbing a sign into a constant does not change what it means. */
  lemma {:induction false} AbsorbingKeepsValue(ctx: Context, op: UnaryOp, a: Expr)
    requires WellFormed(a)
    ensures WellFormed(ApplyUnary(op, a)) && Eval(ctx, ApplyUnary(op, a)) == Eval(ctx, Unary(op, a))
  {
    OneOperand(ctx, op, a);
    assert Unary(op, a) == Node(OpUnary(op), MoreArgs(a, NoArgs));
    if a.IntegerConstant? {
      NegatedWraps(a.value);
    }
  }

  lemma NegatedWraps(n: int)
    ensures Wrap(-Wrap(n)) == Wrap(-n)
  {
    WrapIsCongruent(n);
    WrapIsCongruent(-Wrap(n));
    NegatedMultiple(Wrap(n) - n);
    AddMultiples(Wrap(-Wrap(n)) + Wrap(n), -(Wrap(n) - n));
    OneWord(Wrap(-Wrap(n)), -n);
  }

  /** Absorbing signs does not change what an expression evaluates to, errors included. */
  lemma {:induction false} FoldKeepsValue(ctx: Context, e: Expr)
    requires WellFormed(e)
    ensures WellFormed(Fold(e)) && Eval(ctx, Fold(e)) == Eval(ctx, e)
    decreases e, 1
  {
    FoldIsWellFormed(e);
    if e.Node? {
      var args := FoldArgs(e.args);
      FoldedArgsAre(e.args);
      FoldKeepsCount(e.args);
      if e.op.OpUnary? {
        var a := e.args.first;
        FoldKeepsValue(ctx, a);
        FoldIsWellFormed(a);
        assert e == Unary(e.op.uop, a) && Fold(e) == ApplyUnary(e.op.uop, Fold(a));
        AbsorbingKeepsValue(ctx, e.op.uop, Fold(a));
        OneOperand(ctx, e.op.uop, a);
        OneOperand(ctx, e.op.uop, Fold(a));
      } else {
        assert Fold(e) == Node(e.op, args);
        NodeKeepsValue(ctx, e.op, e.args);
      }
    }
  }

  lemma {:induction false} NodeKeepsValue(ctx: Context, op: Operator, args: Args)
    requires GoodNode(op, args) && WellFormedArgs(args) && !op.OpUnary?
    requires GoodNode(op, FoldArgs(args)) && WellFormedArgs(FoldArgs(args))
    ensures EvalNode(ctx, op, FoldArgs(args)) == EvalNode(ctx, op, args)
    decreases args, 2
  {
    Vectors.OperandCount(op, args);
    FoldKeepsCount(args);
    forall k: nat | k < Count(args)
      ensures EvalOperand(ctx, FoldArgs(args), k) == EvalOperand(ctx, args, k)
    {
      OperandKeepsValue(ctx, args, k);
    }
    if op.OpCall? && NeedsReference(op.func) {
      assert FoldArgs(args).first == Fold(args.first) == args.first;
    }
  }

  lemma {:induction false} OperandKeepsValue(ctx: Context, args: Args, k: nat)
    requires WellFormedArgs(args) && WellFormedArgs(FoldArgs(args)) && k < Count(args) == Count(FoldArgs(args))
    ensures EvalOperand(ctx, FoldArgs(args), k) == EvalOperand(ctx, args, k)
    decreases args, 1
  {
    if k == 0 {
      FoldKeepsValue(ctx, args.first);
    } else {
      FoldKeepsCount(args.others);
      OperandKeepsValue(ctx, args.others, k - 1);
    }
  }
}
