/** The object a parse fills in: a vector of sub-expressions, a vector of references, and the
    index of the current sub-expression. At any moment the vectors are the trees pushed so far
    and not yet taken up by a larger tree, one after the other. */
module Programs {
  import opened Syntax
  import opened Vectors
  import Word64

  datatype Row = Empty | Put(below: Row, top: Expr)

  /** The number of entries of a row of trees. */
  ghost function End(row: Row): nat {
    match row
    case Empty => 0
    case Put(f, e) => End(f) + Size(e)
  }

  /** The number of references of a row of trees. */
  ghost function Names(row: Row): nat {
    match row
    case Empty => 0
    case Put(f, e) => Names(f) + NameCount(e)
  }

  ghost function Height(row: Row): nat {
    match row
    case Empty => 0
    case Put(f, _) => 1 + Height(f)
  }

  /** The vectors start with exactly these trees. */
  ghost predicate Laid(subs: seq<Sub>, refs: seq<string>, row: Row) {
    match row
    case Empty => true
    case Put(f, e) => Holds(subs, refs, e, End(f), Names(f)) && Laid(subs, refs, f)
  }

  /** The layout of some trees depends on nothing after them. */
  lemma {:induction false} LaidStays(subs: seq<Sub>, refs: seq<string>, subs': seq<Sub>, refs': seq<string>,
                                     row: Row, n: nat, m: nat)
    requires Laid(subs, refs, row) && End(row) <= n && Names(row) <= m
    requires n <= |subs| && n <= |subs'| && m <= |refs| && m <= |refs'|
    requires subs[..n] == subs'[..n] && refs[..m] == refs'[..m]
    ensures Laid(subs', refs', row)
  {
    if row.Put? {
      HoldsStays(subs, refs, subs', refs', row.top, End(row.below), Names(row.below), n, m);
      LaidStays(subs, refs, subs', refs', row.below, n, m);
    }
  }

  // ---------------------------------------------------------------------------------------
  // The last n trees of a row.

  ghost function Drop(row: Row, n: nat): Row
    requires n <= Height(row)
  {
    if n == 0 then row else Drop(row.below, n - 1)
  }

  /** As arguments, in front of further arguments. */
  ghost function Take(row: Row, n: nat, more: Args): (r: Args)
    requires n <= Height(row)
    ensures Count(r) == n + Count(more)
  {
    if n == 0 then more else Take(row.below, n - 1, MoreArgs(row.top, more))
  }

  /** Their root entries. */
  ghost function Roots(row: Row, n: nat): (roots: seq<nat>)
    requires n <= Height(row)
    ensures |roots| == n
  {
    if n == 0 then [] else Roots(row.below, n - 1) + [End(row) - 1]
  }

  /** Trees at the end of the row measure as much as arguments as they do in the row. */
  lemma {:induction false} TailMeasures(row: Row, n: nat, more: Args)
    requires n <= Height(row)
    ensures End(Drop(row, n)) + ArgSize(Take(row, n, more)) == End(row) + ArgSize(more)
    ensures Names(Drop(row, n)) + ArgNameCount(Take(row, n, more)) == Names(row) + ArgNameCount(more)
  {
    if n > 0 {
      TailMeasures(row.below, n - 1, MoreArgs(row.top, more));
    }
  }

  lemma {:induction false} TailRoots(row: Row, n: nat, more: Args)
    requires n <= Height(row)
    ensures ArgRoots(Take(row, n, more), End(Drop(row, n))) == Roots(row, n) + ArgRoots(more, End(row))
  {
    if n > 0 {
      TailRoots(row.below, n - 1, MoreArgs(row.top, more));
    }
  }

  /** Trees at the end of the row are the arguments of a node that is pushed next. */
  lemma {:induction false} TailIsArgs(subs: seq<Sub>, refs: seq<string>, row: Row, n: nat, more: Args)
    requires n <= Height(row)
    requires Laid(subs, refs, row) && HoldsArgs(subs, refs, more, End(row), Names(row))
    ensures HoldsArgs(subs, refs, Take(row, n, more), End(Drop(row, n)), Names(Drop(row, n)))
    ensures Laid(subs, refs, Drop(row, n))
  {
    if n > 0 {
      TailIsArgs(subs, refs, row.below, n - 1, MoreArgs(row.top, more));
    }
  }

  lemma Tail(subs: seq<Sub>, refs: seq<string>, row: Row, n: nat)
    requires n <= Height(row) && Laid(subs, refs, row)
    ensures var (f, args) := (Drop(row, n), Take(row, n, NoArgs));
            && ArgRoots(args, End(f)) == Roots(row, n)
            && End(f) + ArgSize(args) == End(row) && Names(f) + ArgNameCount(args) == Names(row)
            && HoldsArgs(subs, refs, args, End(f), Names(f)) && Laid(subs, refs, f)
  {
    TailMeasures(row, n, NoArgs);
    TailRoots(row, n, NoArgs);
    TailIsArgs(subs, refs, row, n, NoArgs);
  }

  /** The entry of a node completes the layout of its arguments. */
  lemma CompleteNode(subs: seq<Sub>, refs: seq<string>, op: Operator, args: Args, base: nat, first: nat)
    requires HoldsArgs(subs, refs, args, base, first)
    requires |subs| == base + ArgSize(args) && |refs| == first + ArgNameCount(args)
    ensures Holds(subs + [SNode(op, ArgRoots(args, base))], refs, Node(op, args), base, first)
  {
    var subs' := subs + [SNode(op, ArgRoots(args, base))];
    assert subs'[..|subs|] == subs[..|subs|];
    HoldsArgsStays(subs, refs, subs', refs, args, base, first, |subs|, |refs|);
  }

  lemma LaidPush(subs: seq<Sub>, refs: seq<string>, sub: Sub, refs': seq<string>, f: Row)
    requires Laid(subs, refs, f) && End(f) <= |subs| && Names(f) <= |refs| && refs <= refs'
    ensures Laid(subs + [sub], refs', f)
  {
    assert (subs + [sub])[..|subs|] == subs[..|subs|] && refs'[..|refs|] == refs[..|refs|];
    LaidStays(subs, refs, subs + [sub], refs', f, |subs|, |refs|);
  }

  /** Pushing a node over the last n trees of the row turns them into one tree. */
  lemma LaidNode(subs: seq<Sub>, refs: seq<string>, row: Row, n: nat, op: Operator)
    requires n <= Height(row)
    requires Laid(subs, refs, row) && |subs| == End(row) && |refs| == Names(row)
    ensures var row' := Put(Drop(row, n), Node(op, Take(row, n, NoArgs)));
            && Laid(subs + [SNode(op, Roots(row, n))], refs, row')
            && End(row') == |subs| + 1 && Names(row') == |refs|
  {
    var (f, args) := (Drop(row, n), Take(row, n, NoArgs));
    Tail(subs, refs, row, n);
    CompleteNode(subs, refs, op, args, End(f), Names(f));
    LaidPush(subs, refs, SNode(op, Roots(row, n)), refs, f);
  }

  /** Rewriting the current entry touches nothing but the last tree, which is a single entry. */
  lemma LaidRewrite(subs: seq<Sub>, refs: seq<string>, f: Row, e: Expr, e': Expr)
    requires Laid(subs, refs, Put(f, e)) && |subs| == End(Put(f, e)) && |refs| == Names(Put(f, e))
    requires (e.IntegerConstant? && e'.IntegerConstant?) || (e.Reference? && e' == Active(e.name))
    ensures |subs| > 0
    ensures Laid(subs[|subs| - 1 := RootSub(e', End(f), Names(f))], refs, Put(f, e'))
    ensures |subs| == End(Put(f, e')) && |refs| == Names(Put(f, e'))
  {
    var subs' := subs[|subs| - 1 := RootSub(e', End(f), Names(f))];
    assert subs'[..End(f)] == subs[..End(f)];
    LaidStays(subs, refs, subs', refs, f, End(f), |refs|);
  }

  class Program {
    var subs: seq<Sub>     // sub_expressions
    var refs: seq<string>  // the names in references
    var first: int         // first_subexpression
    ghost var row: Row     // the trees pushed and not yet part of a larger one

    constructor ()
      ensures Valid() && row == Empty
    {
      subs, refs, first, row := [], [], -1, Empty;
    }

    ghost predicate Valid()
      reads this
    {
      && Laid(subs, refs, row)
      && |subs| == End(row) && |refs| == Names(row) && first == |subs| - 1
    }

    method PushConstant(sub: Sub, ghost e: Expr)
      requires Valid()
      requires || (e.StringConstant? && sub == SString(e.text))
               || (e.IntegerConstant? && sub == SInteger(e.value, e.format))
      modifies this
      ensures Valid() && row == Put(old(row), e)
    {
      LaidPush(subs, refs, sub, refs, row);
      subs, row := subs + [sub], Put(row, e);
      first := |subs| - 1;
    }

    method PushReference(name: string)
      requires Valid()
      modifies this
      ensures Valid() && row == Put(old(row), Reference(name))
    {
      var sub := SReference(|refs|);
      LaidPush(subs, refs, sub, refs + [name], row);
      refs := refs + [name];
      subs, row := subs + [sub], Put(row, Expr.Reference(name));
      first := |subs| - 1;
    }

    /** Push a node over the trees at the end of the row. */
    method PushNode(op: Operator, children: seq<nat>)
      requires Valid() && |children| <= Height(row) && children == Roots(row, |children|)
      modifies this
      ensures Valid()
      ensures row == Put(Drop(old(row), |children|), Node(op, Take(old(row), |children|, NoArgs)))
    {
      LaidNode(subs, refs, row, |children|, op);
      row := Put(Drop(row, |children|), Node(op, Take(row, |children|, NoArgs)));
      subs := subs + [SNode(op, children)];
      first := |subs| - 1;
    }

    method PushUnary(op: UnaryOp, a: nat)
      requires Valid() && row.Put? && a == End(row) - 1
      modifies this
      ensures Valid() && row == Put(old(row.below), Unary(op, old(row.top)))
    {
      ghost var f := row.below;
      assert Roots(f, 0) == [] && Roots(row, 1) == [a];
      PushNode(OpUnary(op), [a]);
    }

    method PushBinary(op: BinaryOp, a: nat, b: nat)
      requires Valid() && row.Put? && row.below.Put? && a == End(row.below) - 1 && b == End(row) - 1
      modifies this
      ensures Valid() && row == Put(old(row.below.below), Binary(op, old(row.below.top), old(row.top)))
    {
      ghost var f := row.below;
      assert Roots(f.below, 0) == [] && Roots(f, 1) == [a] && Roots(row, 2) == [a, b];
      assert Take(row, 2, NoArgs) == Take(f, 1, MoreArgs(row.top, NoArgs))
          == MoreArgs(f.top, MoreArgs(row.top, NoArgs));
      assert Drop(row, 2) == Drop(f, 1) == Drop(f.below, 0);
      PushNode(OpBinary(op), [a, b]);
    }

    method PushCond(a: nat, b: nat, c: nat)
      requires Valid() && row.Put? && row.below.Put? && row.below.below.Put?
      requires a == End(row.below.below) - 1 && b == End(row.below) - 1 && c == End(row) - 1
      modifies this
      ensures Valid()
      ensures row == Put(old(row.below.below.below),
                         Cond(old(row.below.below.top), old(row.below.top), old(row.top)))
    {
      ghost var f := row.below;
      ghost var g := f.below;
      assert Roots(g.below, 0) == [] && Roots(g, 1) == [a] && Roots(f, 2) == [a, b] && Roots(row, 3) == [a, b, c];
      assert Take(row, 3, NoArgs) == Take(f, 2, MoreArgs(row.top, NoArgs))
          == Take(g, 1, MoreArgs(f.top, MoreArgs(row.top, NoArgs)));
      assert Drop(row, 3) == Drop(f, 2) == Drop(g, 1) == Drop(g.below, 0);
      PushNode(OpCond, [a, b, c]);
    }

    /** ?x: the reference pushed last is turned into an activity test. */
    method MakeActive() returns (ok: bool)
      requires Valid() && row.Put?
      modifies this
      ensures ok == old(row).top.Reference?
      ensures ok ==> Valid() && row == Put(old(row).below, Active(old(row).top.name))
    {
      if !subs[first].SReference? {
        return false;
      }
      LaidRewrite(subs, refs, row.below, row.top, Active(row.top.name));
      subs, row := subs[first := SActive(subs[first].ref)], Put(row.below, Active(row.top.name));
      ok := true;
    }

    /** A sign is absorbed by a constant in place; any other unary operator gets an entry. */
    method ApplySign(op: UnaryOp)
      requires Valid() && row.Put?
      modifies this
      ensures Valid() && row == Put(old(row).below, ApplyUnary(op, old(row).top))
    {
      var last := subs[first];
      if op.Negate? && last.SInteger? {
        ghost var e := IntegerConstant(Word64.Wrap(-last.value), Default);
        LaidRewrite(subs, refs, row.below, row.top, e);
        subs, row := subs[first := SInteger(Word64.Wrap(-last.value), Default)], Put(row.below, e);
      } else if !(op.Plus? && last.SInteger?) {
        PushUnary(op, first);
      }
    }

    /** Is the tree with this root entry, among the last n, a plain reference? */
    method IsReference(i: nat, ghost n: nat) returns (yes: bool)
      requires Valid() && 0 < n <= Height(row) && i == Roots(row, n)[0]
      ensures yes == Take(row, n, NoArgs).first.Reference?
    {
      ghost var args, f := Take(row, n, NoArgs), Drop(row, n);
      Tail(subs, refs, row, n);
      assert args.MoreArgs?;
      assert i == Root(args.first, End(f)) && Holds(subs, refs, args.first, End(f), Names(f));
      yes := subs[i].SReference?;
    }
  }
}
