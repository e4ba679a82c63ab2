/** Which token sequences are goals and lists: expressions one after the other. */
module Clauses {
  import opened Wrappers
  import opened Syntax
  import opened Grammar
  import opened Phrases
  import Sequels
  import Goals

  // ---------------------------------------------------------------------------------------
  // The notation.

  /** Tokens that write one item. */
  ghost predicate WritesItem(item: Sequels.Item, ts: seq<Token>) {
    match item
    case One(e) => WellFormed(e) && Writes(CONDITIONAL, e, ts)
    case Range(low, high) =>
      exists i | 0 <= i < |ts| && ts[i] == TRange ::
        && WellFormed(low) && Writes(CONDITIONAL, low, ts[..i])
        && WellFormed(high) && Writes(CONDITIONAL, high, ts[i + 1..])
  }

  /** Items with nothing between them, none of which goes on into the next one. */
  ghost predicate WritesItems(items: seq<Sequels.Item>, ts: seq<Token>)
    decreases |items|
  {
    if items == [] then ts == []
    else
      exists n | 0 < n <= |ts| ::
        && WritesItem(items[0], ts[..n]) && Stops(CONDITIONAL, ts[n..]) && !At(TRange, ts[n..])
        && WritesItems(items[1..], ts[n..])
  }

  /** The item with its signs absorbed. */
  function Absorbed(item: Sequels.Item): Sequels.Item {
    match item
    case One(e) => Sequels.One(Fold(e))
    case Range(low, high) => Sequels.Range(Fold(low), Fold(high))
  }

  /** These items, with their signs absorbed, are those. */
  predicate AbsorbTo(items: seq<Sequels.Item>, items': seq<Sequels.Item>) {
    |items'| == |items| && forall i | 0 <= i < |items| :: items'[i] == Absorbed(items[i])
  }

  // ---------------------------------------------------------------------------------------
  // Where an expression ends.

  lemma {:induction false} EndsThere(level: nat, ts: seq<Token>)
    requires level <= CONDITIONAL && ParseAt(level, ts).Success?
    ensures Stops(level, ParseAt(level, ts).value.rest)
    decreases |ts|, 2 * level + 2
  {
    ParseIsGood(level, ts);
    if level == CONDITIONAL {
      ConditionalEndsThere(ts);
    } else if level > UNARY {
      EndsThere(level - 1, ts);
      var lhs := ParseAt(level - 1, ts).value;
      LoopEndsThere(level, lhs.value, lhs.rest);
    }
  }

  lemma {:induction false} LoopEndsThere(level: nat, lhs: Expr, ts: seq<Token>)
    requires 1 <= level <= IMPLIES && ParseLoop(level, lhs, ts).Success? && Stops(level - 1, ts)
    ensures Stops(level, ParseLoop(level, lhs, ts).value.rest)
    decreases |ts|, 0
  {
    if AtOperator(level, ts) {
      var after := Advance(ts).value;
      var rhs := ParseAt(level - 1, after).value;
      EndsThere(level - 1, after);
      LoopEndsThere(level, Binary(ts[0].op, lhs, rhs.value), rhs.rest);
    }
  }

  lemma {:induction false} ConditionalEndsThere(ts: seq<Token>)
    requires ParseConditional(ts).Success?
    ensures Stops(CONDITIONAL, ParseConditional(ts).value.rest)
    decreases |ts|, 2 * IMPLIES + 3
  {
    EndsThere(IMPLIES, ts);
    var test := ParseAt(IMPLIES, ts).value;
    if At(TQuestion, test.rest) {
      var afterQuestion := Advance(test.rest).value;
      var yes := ParseConditional(afterQuestion).value;
      var afterColon := Advance(yes.rest).value;
      ConditionalEndsThere(afterColon);
    } else {
      assert ParseConditional(ts).value.rest == test.rest;
    }
  }

  /** A part of a goal or a list is an expression that is written by the tokens it uses up, as many
      of them as can go on with it. */
  lemma PartIsRead(e: Expr, ts: seq<Token>, rest: seq<Token>)
    requires WellFormed(e) && Writes(CONDITIONAL, e, ts) && Stops(CONDITIONAL, rest)
    ensures Sequels.Part(ts + rest) == Success(Parsed(Fold(e), rest))
  {
    WrittenIsGood(CONDITIONAL, e, ts);
    assert (ts + rest)[0] == ts[0];
    ReadsBack(CONDITIONAL, e, ts, rest);
  }

  lemma PartWasWritten(ts: seq<Token>) returns (e: Expr, used: seq<Token>)
    requires Sequels.Part(ts).Success?
    ensures var p := Sequels.Part(ts).value;
            && WellFormed(e) && Fold(e) == p.value && ts == used + p.rest && used != []
            && Writes(CONDITIONAL, e, used) && Stops(CONDITIONAL, p.rest)
  {
    e, used := WasWritten(CONDITIONAL, ts);
    EndsThere(CONDITIONAL, ts);
    WrittenIsGood(CONDITIONAL, e, used);
  }

  // ---------------------------------------------------------------------------------------
  // Lists.

  /** One item, as Items takes it from the tokens: the item and what is left. */
  ghost function FirstItem(ts: seq<Token>): Outcome<Sequels.Item> {
    var a :- Sequels.Part(ts);
    if At(TRange, a.rest) then
      var b :- Sequels.Part(a.rest[1..]);
      Success(Parsed(Sequels.Range(a.value, b.value), b.rest))
    else
      Success(Parsed(Sequels.One(a.value), a.rest))
  }

  lemma ItemsAre(ts: seq<Token>)
    ensures Sequels.Items(ts) ==
              var f := FirstItem(ts);
              if f.Failure? then Failure(f.error) else Sequels.More(f.value.value, Sequels.OtherItems(f.value.rest))
  {
  }

  lemma RangeIsRead(low: Expr, before: seq<Token>, high: Expr, after: seq<Token>, rest: seq<Token>)
    requires WellFormed(low) && Writes(CONDITIONAL, low, before)
    requires WellFormed(high) && Writes(CONDITIONAL, high, after) && Stops(CONDITIONAL, rest)
    ensures FirstItem(before + ([TRange] + (after + rest)))
         == Success(Parsed(Sequels.Range(Fold(low), Fold(high)), rest))
  {
    var tail := [TRange] + (after + rest);
    assert tail[1..] == after + rest;
    PartIsRead(low, before, tail);
    PartIsRead(high, after, rest);
  }

  lemma ItemIsRead(item: Sequels.Item, ts: seq<Token>, rest: seq<Token>)
    requires WritesItem(item, ts) && Stops(CONDITIONAL, rest) && !At(TRange, rest)
    ensures FirstItem(ts + rest) == Success(Parsed(Absorbed(item), rest))
  {
    match item
    case One(e) => PartIsRead(e, ts, rest);
    case Range(low, high) =>
      var i :| 0 <= i < |ts| && ts[i] == TRange && Writes(CONDITIONAL, low, ts[..i])
               && Writes(CONDITIONAL, high, ts[i + 1..]);
      assert ts + rest == ts[..i] + ([TRange] + (ts[i + 1..] + rest));
      RangeIsRead(low, ts[..i], high, ts[i + 1..], rest);
  }

  lemma ItemWasWritten(ts: seq<Token>) returns (item: Sequels.Item, n: nat)
    requires FirstItem(ts).Success?
    ensures var f := FirstItem(ts).value;
            && Absorbed(item) == f.value && 0 < n <= |ts| && f.rest == ts[n..] && WritesItem(item, ts[..n])
            && Stops(CONDITIONAL, f.rest)
  {
    var a := Sequels.Part(ts).value;
    var e, used := PartWasWritten(ts);
    item, n := Sequels.One(e), |used|;
    assert ts[..n] == used && ts[n..] == a.rest;
    if At(TRange, a.rest) {
      var b := Sequels.Part(a.rest[1..]).value;
      var h, more := PartWasWritten(a.rest[1..]);
      item, n := Sequels.Range(e, h), |used| + 1 + |more|;
      assert ts == used + ([TRange] + (more + b.rest));
      assert ts[..n][..|used|] == used && ts[..n][|used|] == TRange && ts[..n][|used| + 1..] == more;
      assert ts[n..] == b.rest;
    }
  }

  lemma FirstIsRead(items: seq<Sequels.Item>, ts: seq<Token>) returns (n: nat)
    requires items != [] && WritesItems(items, ts)
    ensures 0 < n <= |ts| && WritesItems(items[1..], ts[n..])
    ensures FirstItem(ts) == Success(Parsed(Absorbed(items[0]), ts[n..]))
  {
    n :| 0 < n <= |ts| && WritesItem(items[0], ts[..n]) && Stops(CONDITIONAL, ts[n..]) && !At(TRange, ts[n..])
         && WritesItems(items[1..], ts[n..]);
    ItemIsRead(items[0], ts[..n], ts[n..]);
    assert ts[..n] + ts[n..] == ts;
  }

  lemma {:induction false} ItemsAreRead(items: seq<Sequels.Item>, ts: seq<Token>) returns (items': seq<Sequels.Item>)
    requires items != [] && WritesItems(items, ts)
    ensures Sequels.Items(ts) == Success(items') && AbsorbTo(items, items')
    decreases |items|
  {
    var n := FirstIsRead(items, ts);
    items' := [];
    if |items| > 1 {
      items' := ItemsAreRead(items[1..], ts[n..]);
    }
    OtherItemsAre(items[1..], ts[n..]);
    ItemsAre(ts);
    items' := [Absorbed(items[0])] + items';
  }

  lemma OtherItemsAre(items: seq<Sequels.Item>, ts: seq<Token>)
    requires WritesItems(items, ts)
    ensures Sequels.OtherItems(ts) == if items == [] then Success([]) else Sequels.Items(ts)
  {
  }

  lemma {:induction false} ItemsWereWritten(ts: seq<Token>) returns (items: seq<Sequels.Item>)
    requires Sequels.Items(ts).Success?
    ensures items != [] && WritesItems(items, ts) && AbsorbTo(items, Sequels.Items(ts).value)
    decreases |ts|
  {
    ItemsAre(ts);
    var f := FirstItem(ts).value;
    var item, n := ItemWasWritten(ts);
    var others: seq<Sequels.Item> := [];
    if f.rest != [] {
      others := ItemsWereWritten(f.rest);
      ItemStarts(f.rest);
    }
    items := [item] + others;
    assert items[1..] == others;
  }

  /** No item starts with the word for a range. */
  lemma ItemStarts(ts: seq<Token>)
    requires Sequels.Items(ts).Success?
    ensures !At(TRange, ts)
  {
    assert Sequels.Part(ts).Success?;
    if At(TRange, ts) {
      StartsNoExpression(CONDITIONAL, ts);
    }
  }

  lemma {:induction false} StartsNoExpression(level: nat, ts: seq<Token>)
    requires level <= CONDITIONAL && At(TRange, ts)
    ensures ParseAt(level, ts).Failure?
    decreases level
  {
    if level == UNARY {
      assert ParseUnary(ts) == ParsePrefixed(ts) && UnaryOf(TRange) == None;
    } else {
      StartsNoExpression(level - 1, ts);
    }
  }

  /** A sequence of tokens is accepted as a list, and gives certain items, exactly if it writes items
      that these are with their signs absorbed. */
  lemma ListIff(ts: seq<Token>, items': seq<Sequels.Item>)
    ensures Sequels.Items(ts) == Success(items')
       <==> exists items :: items != [] && WritesItems(items, ts) && AbsorbTo(items, items')
  {
    if Sequels.Items(ts) == Success(items') {
      var items := ItemsWereWritten(ts);
    }
    if items :| items != [] && WritesItems(items, ts) && AbsorbTo(items, items') {
      var read := ItemsAreRead(items, ts);
      assert read == items';
    }
  }

  // ---------------------------------------------------------------------------------------
  // Goals.

  function Ones(es: seq<Expr>): (items: seq<Sequels.Item>)
    ensures |items| == |es| && forall i | 0 <= i < |es| :: items[i] == Sequels.One(es[i])
  {
    seq(|es|, i requires 0 <= i < |es| => Sequels.One(es[i]))
  }

  predicate FoldTo(es: seq<Expr>, es': seq<Expr>) {
    |es'| == |es| && forall i | 0 <= i < |es| :: es'[i] == Fold(es[i])
  }

  /** A goal is a list without ranges. */
  lemma {:induction false} GoalIsList(ts: seq<Token>, es: seq<Expr>)
    ensures Goals.Parts(ts) == Success(es) <==> Sequels.Items(ts) == Success(Ones(es))
    decreases |ts|
  {
    ItemsAre(ts);
    if es != [] && Sequels.Part(ts).Success? {
      var (e, rest) := (Sequels.Part(ts).value.value, Sequels.Part(ts).value.rest);
      if At(TRange, rest) {
        StartsNoExpression(CONDITIONAL, rest);
        assert Goals.Parts(rest).Failure? && Goals.Parts(ts).Failure?;
        assert Sequels.Items(ts).Success? ==> Sequels.Items(ts).value[0].Range?;
      } else if rest != [] {
        GoalIsList(rest, es[1..]);
        assert Ones(es)[1..] == Ones(es[1..]);
        if Goals.Parts(rest).Success? {
          Prepends(e, Goals.Parts(rest).value, es);
        }
        if Sequels.Items(rest).Success? {
          Prepends(Sequels.One(e), Sequels.Items(rest).value, Ones(es));
        }
      } else {
        assert [Sequels.One(e)] + [] == [Sequels.One(e)] && Ones([e]) == [Sequels.One(e)];
        assert Goals.Parts(ts) == Success([e]) && Sequels.Items(ts) == Success(Ones([e]));
        assert Ones(es) == Ones([e]) ==> Ones(es)[0] == Sequels.One(e) && |es| == 1 && es == [e];
      }
    }
  }

  lemma Prepends<T>(x: T, others: seq<T>, s: seq<T>)
    ensures [x] + others == s <==> s != [] && x == s[0] && others == s[1..]
  {
    assert s != [] ==> s == [s[0]] + s[1..];
    assert ([x] + others)[1..] == others;
  }

  /** If the items absorb to expressions without ranges, they are such. */
  lemma AreOnes(items: seq<Sequels.Item>, es': seq<Expr>) returns (es: seq<Expr>)
    requires AbsorbTo(items, Ones(es'))
    ensures items == Ones(es) && FoldTo(es, es')
  {
    assert forall i | 0 <= i < |items| :: Absorbed(items[i]) == Ones(es')[i];
    es := seq(|items|, i requires 0 <= i < |items| => match items[i] case One(e) => e case Range(low, _) => low);
  }

  /** A sequence of tokens is accepted as a goal, and has certain parts, exactly if it writes
      expressions one after the other that these are with their signs absorbed. */
  lemma GoalIff(ts: seq<Token>, es': seq<Expr>)
    ensures Goals.Parts(ts) == Success(es')
       <==> exists es :: es != [] && WritesItems(Ones(es), ts) && FoldTo(es, es')
  {
    GoalIsList(ts, es');
    ListIff(ts, Ones(es'));
    if items :| items != [] && WritesItems(items, ts) && AbsorbTo(items, Ones(es')) {
      var es := AreOnes(items, es');
    }
    if es :| es != [] && WritesItems(Ones(es), ts) && FoldTo(es, es') {
      assert AbsorbTo(Ones(es), Ones(es'));
    }
  }
}
