/** The flat form of a parsed expression: a vector of sub-expressions linked by index, next to a
    vector of references. Children come before their parents. */
module Vectors {
  import opened Syntax

  /** One sub-expression. The children of a node are its lhs, rhs and rrhs index, or its args. */
  datatype Sub =
    | SString(text: string)
    | SInteger(value: int, format: Format)
    | SReference(ref: nat)
    | SActive(ref: nat)
    | SNode(op: Operator, children: seq<nat>)

  function Children(sub: Sub): seq<nat> {
    if sub.SNode? then sub.children else []
  }

  // ---------------------------------------------------------------------------------------
  // What the parser pushes for a tree.

  /** How often a tree refers to a name. */
  function NameCount(e: Expr): nat {
    match e
    case Reference(_) => 1
    case Active(_) => 1
    case Node(_, args) => ArgNameCount(args)
    case _ => 0
  }

  function ArgNameCount(args: Args): nat {
    match args
    case NoArgs => 0
    case MoreArgs(a, others) => NameCount(a) + ArgNameCount(others)
  }

  /** The number of sub-expressions of a tree. */
  function Size(e: Expr): (n: nat)
    ensures n > 0
  {
    if e.Node? then ArgSize(e.args) + 1 else 1
  }

  function ArgSize(args: Args): nat {
    match args
    case NoArgs => 0
    case MoreArgs(a, others) => Size(a) + ArgSize(others)
  }

  /** The index of the tree's own entry when its entries start at `base`. */
  function Root(e: Expr, base: nat): nat {
    base + Size(e) - 1
  }

  function ArgRoots(args: Args, base: nat): (roots: seq<nat>)
    ensures |roots| == Count(args)
    decreases args
  {
    match args
    case NoArgs => []
    case MoreArgs(a, others) => [Root(a, base)] + ArgRoots(others, base + Size(a))
  }

  /** The entry of a tree itself. */
  function RootSub(e: Expr, base: nat, refs: nat): Sub {
    match e
    case Reference(_) => SReference(refs)
    case StringConstant(text) => SString(text)
    case IntegerConstant(v, f) => SInteger(v, f)
    case Active(_) => SActive(refs)
    case Node(op, args) => SNode(op, ArgRoots(args, base))
  }

  /** The tree's entries are laid out in post-order from index `base` on, and the names it
      refers to from reference `first` on. This pins down every entry in that stretch. */
  predicate Holds(subs: seq<Sub>, refs: seq<string>, e: Expr, base: nat, first: nat)
    decreases e
  {
    && Root(e, base) < |subs|
    && subs[Root(e, base)] == RootSub(e, base, first)
    && match e
       case Reference(name) => first < |refs| && refs[first] == name
       case Active(name) => first < |refs| && refs[first] == name
       case Node(_, args) => HoldsArgs(subs, refs, args, base, first)
       case _ => true
  }

  predicate HoldsArgs(subs: seq<Sub>, refs: seq<string>, args: Args, base: nat, first: nat)
    decreases args
  {
    match args
    case NoArgs => true
    case MoreArgs(a, others) =>
      && Holds(subs, refs, a, base, first)
      && HoldsArgs(subs, refs, others, base + Size(a), first + NameCount(a))
  }

  /** The layout does not depend on what comes after it. */
  lemma {:induction false} HoldsStays(subs: seq<Sub>, refs: seq<string>, subs': seq<Sub>, refs': seq<string>,
                                      e: Expr, base: nat, first: nat, n: nat, m: nat)
    requires Holds(subs, refs, e, base, first)
    requires base + Size(e) <= n <= |subs| && n <= |subs'| && subs[..n] == subs'[..n]
    requires first + NameCount(e) <= m <= |refs| && m <= |refs'| && refs[..m] == refs'[..m]
    ensures Holds(subs', refs', e, base, first)
    decreases e
  {
    assert subs[..n][Root(e, base)] == subs'[..n][Root(e, base)];
    if e.Node? {
      HoldsArgsStays(subs, refs, subs', refs', e.args, base, first, n, m);
    } else if e.Reference? || e.Active? {
      assert refs[..m][first] == refs'[..m][first];
    }
  }

  lemma {:induction false} HoldsArgsStays(subs: seq<Sub>, refs: seq<string>, subs': seq<Sub>, refs': seq<string>,
                                          args: Args, base: nat, first: nat, n: nat, m: nat)
    requires HoldsArgs(subs, refs, args, base, first)
    requires base + ArgSize(args) <= n <= |subs| && n <= |subs'| && subs[..n] == subs'[..n]
    requires first + ArgNameCount(args) <= m <= |refs| && m <= |refs'| && refs[..m] == refs'[..m]
    ensures HoldsArgs(subs', refs', args, base, first)
    decreases args
  {
    if args.MoreArgs? {
      HoldsStays(subs, refs, subs', refs', args.first, base, first, n, m);
      HoldsArgsStays(subs, refs, subs', refs', args.others,
                     base + Size(args.first), first + NameCount(args.first), n, m);
    }
  }

  // ---------------------------------------------------------------------------------------
  // Vectors that can be evaluated.

  function Operands(op: Operator): nat {
    match op
    case OpUnary(_) => 1
    case OpBinary(_) => 2
    case OpCond => 3
    case OpCall(f) => Arity(f)
  }

  lemma OperandCount(op: Operator, args: Args)
    requires GoodNode(op, args)
    ensures Count(args) == Operands(op)
  {
    match op
    case OpUnary(_) =>
    case OpBinary(_) => assert Count(args.others) == 1;
    case OpCond => assert Count(args.others.others) == 1 && Count(args.others) == 2;
    case OpCall(_) =>
  }

  /** One entry: children before it, references in range, as many children as the operator
      needs, and a reference below a call that insists on one. */
  predicate GoodEntry(subs: seq<Sub>, refs: nat, i: nat)
    requires i < |subs|
  {
    var sub := subs[i];
    && (forall k | 0 <= k < |Children(sub)| :: Children(sub)[k] < i)
    && (sub.SReference? || sub.SActive? ==> sub.ref < refs)
    && (sub.SNode? ==>
          && |sub.children| == Operands(sub.op)
          && (sub.op.OpCall? && NeedsReference(sub.op.func) ==> subs[sub.children[0]].SReference?))
  }

  predicate GoodVector(subs: seq<Sub>, refs: nat) {
    forall i | 0 <= i < |subs| :: GoodEntry(subs, refs, i)
  }

  /** The tree rooted at an entry. */
  function Decode(subs: seq<Sub>, refs: seq<string>, i: nat): Expr
    requires GoodVector(subs, |refs|) && i < |subs|
    decreases i, 1, 0
  {
    assert GoodEntry(subs, |refs|, i);
    var sub := subs[i];
    match sub
    case SString(text) => StringConstant(text)
    case SInteger(v, f) => IntegerConstant(v, f)
    case SReference(r) => Reference(refs[r])
    case SActive(r) => Active(refs[r])
    case SNode(op, children) =>
      assert Children(sub) == children;
      Node(op, DecodeArgs(subs, refs, i, children))
  }

  function DecodeArgs(subs: seq<Sub>, refs: seq<string>, i: nat, args: seq<nat>): Args
    requires GoodVector(subs, |refs|) && i < |subs|
    requires forall k | 0 <= k < |args| :: args[k] < i
    decreases i, 0, |args|
  {
    if args == [] then NoArgs
    else MoreArgs(Decode(subs, refs, args[0]), DecodeArgs(subs, refs, i, args[1..]))
  }

  // ---------------------------------------------------------------------------------------
  // The vector of a tree is good and decodes to the tree.

  /** Entries of a well-formed tree are good wherever they lie. */
  lemma {:induction false} LayoutIsGood(subs: seq<Sub>, refs: seq<string>, e: Expr, base: nat, first: nat)
    requires WellFormed(e) && Holds(subs, refs, e, base, first)
    ensures forall i | base <= i < base + Size(e) :: GoodEntry(subs, |refs|, i)
    decreases e
  {
    if e.Node? {
      ArgLayoutIsGood(subs, refs, e.args, base, first);
      OperandCount(e.op, e.args);
      assert GoodEntry(subs, |refs|, Root(e, base));
    }
  }

  lemma {:induction false} ArgLayoutIsGood(subs: seq<Sub>, refs: seq<string>, args: Args, base: nat, first: nat)
    requires WellFormedArgs(args) && HoldsArgs(subs, refs, args, base, first)
    ensures base + ArgSize(args) <= |subs| || args.NoArgs?
    ensures forall i | base <= i < base + ArgSize(args) :: GoodEntry(subs, |refs|, i)
    ensures forall k | 0 <= k < Count(args) :: base <= ArgRoots(args, base)[k] < base + ArgSize(args)
    ensures args.MoreArgs? && args.first.Reference? ==> subs[Root(args.first, base)].SReference?
    decreases args
  {
    if args.MoreArgs? {
      LayoutIsGood(subs, refs, args.first, base, first);
      ArgLayoutIsGood(subs, refs, args.others, base + Size(args.first), first + NameCount(args.first));
    }
  }

  /** Reading the vector back gives the tree. */
  lemma {:induction false} DecodeLayout(subs: seq<Sub>, refs: seq<string>, e: Expr, base: nat, first: nat)
    requires GoodVector(subs, |refs|) && Holds(subs, refs, e, base, first)
    ensures Decode(subs, refs, Root(e, base)) == e
    decreases e, 0
  {
    if e.Node? {
      var i := Root(e, base);
      assert GoodEntry(subs, |refs|, i) && Children(subs[i]) == ArgRoots(e.args, base);
      DecodeArgLayout(subs, refs, e.args, base, first, i, ArgRoots(e.args, base));
    }
  }

  lemma {:induction false} DecodeArgLayout(subs: seq<Sub>, refs: seq<string>, args: Args, base: nat, first: nat,
                                           i: nat, roots: seq<nat>)
    requires GoodVector(subs, |refs|) && i < |subs| && HoldsArgs(subs, refs, args, base, first)
    requires roots == ArgRoots(args, base) && forall k | 0 <= k < |roots| :: roots[k] < i
    ensures DecodeArgs(subs, refs, i, roots) == args
    decreases args, 1
  {
    if args.MoreArgs? {
      var (a, others) := (args.first, args.others);
      DecodeLayout(subs, refs, a, base, first);
      assert roots[1..] == ArgRoots(others, base + Size(a));
      DecodeArgLayout(subs, refs, others, base + Size(a), first + NameCount(a), i, roots[1..]);
    }
  }

  /** A vector that holds exactly one well-formed tree is good and decodes to it. */
  lemma TreeVector(subs: seq<Sub>, refs: seq<string>, e: Expr)
    requires WellFormed(e) && Holds(subs, refs, e, 0, 0) && |subs| == Size(e)
    ensures GoodVector(subs, |refs|) && Decode(subs, refs, |subs| - 1) == e
  {
    LayoutIsGood(subs, refs, e, 0, 0);
    DecodeLayout(subs, refs, e, 0, 0);
  }

  // ---------------------------------------------------------------------------------------
  // No sharing: the vector is a tree.

  /** How often a child list names an entry. */
  function Occurrences(children: seq<nat>, i: nat): nat {
    if children == [] then 0 else (if children[0] == i then 1 else 0) + Occurrences(children[1..], i)
  }

  /** How often the entries from lo up to hi name entry i as a child. */
  function Uses(subs: seq<Sub>, lo: nat, hi: nat, i: nat): nat
    requires lo <= hi <= |subs|
    decreases hi
  {
    if lo == hi then 0 else Uses(subs, lo, hi - 1, i) + Occurrences(Children(subs[hi - 1]), i)
  }

  lemma {:induction false} UsesSplit(subs: seq<Sub>, lo: nat, mid: nat, hi: nat, i: nat)
    requires lo <= mid <= hi <= |subs|
    ensures Uses(subs, lo, hi, i) == Uses(subs, lo, mid, i) + Uses(subs, mid, hi, i)
    decreases hi
  {
    if mid < hi {
      UsesSplit(subs, lo, mid, hi - 1, i);
    }
  }

  function Within(lo: nat, i: nat, hi: nat): nat {
    if lo <= i < hi then 1 else 0
  }

  /** In the layout of a tree every entry but the root is the child of exactly one entry, once. */
  lemma {:induction false} EachUsedOnce(subs: seq<Sub>, refs: seq<string>, e: Expr, base: nat, first: nat, i: nat)
    requires Holds(subs, refs, e, base, first)
    ensures Uses(subs, base, base + Size(e), i) == Within(base, i, Root(e, base))
    decreases e
  {
    if e.Node? {
      EachArgUsedOnce(subs, refs, e.args, base, first, i);
    }
  }

  /** Among the arguments of a call that holds for all entries but the arguments' own roots,
      which are left for the call. */
  lemma {:induction false} EachArgUsedOnce(subs: seq<Sub>, refs: seq<string>, args: Args, base: nat, first: nat, i: nat)
    requires HoldsArgs(subs, refs, args, base, first) && base + ArgSize(args) <= |subs|
    ensures Uses(subs, base, base + ArgSize(args), i) + Occurrences(ArgRoots(args, base), i)
         == Within(base, i, base + ArgSize(args))
    decreases args
  {
    if args.MoreArgs? {
      var (a, others) := (args.first, args.others);
      var mid := base + Size(a);
      EachUsedOnce(subs, refs, a, base, first, i);
      EachArgUsedOnce(subs, refs, others, mid, first + NameCount(a), i);
      JoinUses(subs, base, mid, mid + ArgSize(others), ArgRoots(others, mid), i);
    }
  }

  lemma JoinUses(subs: seq<Sub>, lo: nat, mid: nat, hi: nat, roots: seq<nat>, i: nat)
    requires lo < mid <= hi <= |subs|
    requires Uses(subs, lo, mid, i) == Within(lo, i, mid - 1)
    requires Uses(subs, mid, hi, i) + Occurrences(roots, i) == Within(mid, i, hi)
    ensures Uses(subs, lo, hi, i) + Occurrences([mid - 1] + roots, i) == Within(lo, i, hi)
  {
    assert ([mid - 1] + roots)[1..] == roots;
    UsesSplit(subs, lo, mid, hi, i);
  }
}
