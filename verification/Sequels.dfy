/** Expressions that follow one another in a string: plain, goal and list expressions. Each part
    is parsed by initialising the tokenizer again at the index where the part before left off. */
module Sequels {
  import opened Wrappers
  import opened Ascii
  import opened Syntax
  import opened Vectors
  import opened Programs
  import opened Lexical
  import opened Tokenizers
  import opened Parsing
  import opened Evaluation
  import Grammar

  // ---------------------------------------------------------------------------------------
  // What is to be parsed, on tokens.

  /** Parsing one expression, where the very first token may be bad already. */
  ghost function Part(ts: seq<Token>): (r: Grammar.Outcome<Expr>)
    ensures r.Success? ==> |r.value.rest| < |ts|
  {
    if Grammar.At(TBad, ts) then Failure(Grammar.LexicalError) else Grammar.ParseConditional(ts)
  }

  /** A goal: expressions one after the other up to the end of the data. */
  ghost function Goal(ts: seq<Token>): Grammar.Outcome<Expr> {
    var g :- Part(ts);
    GoalLoop(g.value, g.rest)
  }

  ghost function GoalLoop(sofar: Expr, ts: seq<Token>): Grammar.Outcome<Expr>
    decreases |ts|
  {
    if ts == [] then Success(Grammar.Parsed(sofar, []))
    else
      var g :- Part(ts);
      GoalLoop(Binary(And, sofar, g.value), g.rest)
  }

  datatype Item = One(e: Expr) | Range(low: Expr, high: Expr)

  type List = Result<seq<Item>, Grammar.ParseError>

  ghost function More(item: Item, others: List): List {
    var items :- others;
    Success([item] + items)
  }

  /** A list: expressions and ranges up to the end of the data. */
  ghost function Items(ts: seq<Token>): List
    decreases |ts|, 1
  {
    var a :- Part(ts);
    if Grammar.At(TRange, a.rest) then
      var b :- Part(a.rest[1..]);
      More(Range(a.value, b.value), OtherItems(b.rest))
    else
      More(One(a.value), OtherItems(a.rest))
  }

  ghost function OtherItems(ts: seq<Token>): List
    decreases |ts|, 2
  {
    if ts == [] then Success([]) else Items(ts)
  }

  // ---------------------------------------------------------------------------------------
  // How it is parsed.

  datatype Stop = Stop(token: Option<Token>, index: nat, end: nat)

  /** Where parsing from p stops: at the first token that is left over. The index of that token
      and the index one past the character after it. */
  ghost function StopAfter(data: string, p: nat, rest: seq<Token>): (s: Stop)
    requires p <= |data| && |rest| <= |Lex(data, p)|
  {
    if rest == [] then Stop(None, 0, |data|)
    else
      var l := Leftover(data, p, |rest|);
      Stop(Some(l.token), l.start, if l.next <= |data| then After(data, l.next) else 0)
  }

  method ContinueParse(g: Parser, data: string, index: nat, conjoin: bool)
    returns (status: Status, stop: Stop)
    requires g.p.Valid() && index <= |data| && (conjoin ==> g.p.row.Put?)
    modifies g.p, g.t
    ensures match Part(Tokens(data, index))
            case Failure(error) => status == Raised(error)
            case Success(r) =>
              && status == Ok && g.p.Valid()
              && g.p.row == (if conjoin then Put(old(g.p.row.below), Binary(And, old(g.p.row.top), r.value))
                             else Put(old(g.p.row), r.value))
              && (r.rest == [] ==> stop.token == None)
              && (r.rest != [] ==>
                    && stop == StopAfter(data, index, r.rest) && stop.token.Some? && stop.index < |data|
                    && Tokens(data, stop.index) == r.rest && !r.rest[0].TBad?)
  {
    stop := Stop(None, 0, 0);
    var before := g.p.first;
    var ok := g.t.Initialise(data, index);
    if !ok {
      return Raised(Grammar.LexicalError), stop;
    }
    status := g.ParseConditional();
    if status.Raised? {
      return;
    }
    if conjoin {
      g.p.PushBinary(And, before, g.p.first);
    }
    stop := WhereStopped(g.t, index);
  }

  /** The token where parsing from an index has stopped, and its place. */
  method WhereStopped(t: Tokenizer, ghost index: nat) returns (stop: Stop)
    requires t.Ready() && index <= |t.data| && t.all == Lex(t.data, index)
    ensures t.Upcoming() == [] ==> stop == Stop(None, 0, |t.data|)
    ensures t.Upcoming() != [] ==>
              && |t.Upcoming()| <= |Lex(t.data, index)| && stop == StopAfter(t.data, index, t.Upcoming())
              && stop.token.Some? && stop.index < |t.data|
              && Tokens(t.data, stop.index) == t.Upcoming() && !t.Upcoming()[0].TBad?
  {
    stop := Stop(None, 0, |t.data|);
    if t.token.Some? {
      t.Place();
      stop := Stop(t.token, t.start, t.index);
    }
  }

  method ParseGoal(data: string) returns (status: Status, g: Parser)
    ensures match Goal(Tokens(data, 0))
            case Failure(error) => status == Raised(error)
            case Success(r) => status == Ok && IsProgram(g.p, r.value)
  {
    g := new Parser();
    var stop: Stop;
    status, stop := ContinueParse(g, data, 0, false);
    if status.Raised? { return; }
    while stop.token.Some?
      invariant status == Ok && g.p.Valid() && g.p.row.Put? && g.p.row.below == Empty
      invariant stop.token.None? ==> Goal(Tokens(data, 0)) == Success(Grammar.Parsed(g.p.row.top, []))
      invariant stop.token.Some? ==>
          && stop.index < |data| && Tokens(data, stop.index) != []
          && !Grammar.At(TBad, Tokens(data, stop.index))
          && Goal(Tokens(data, 0)) == GoalLoop(g.p.row.top, Tokens(data, stop.index))
      decreases if stop.token.Some? then |Tokens(data, stop.index)| else 0
    {
      status, stop := ContinueParse(g, data, stop.index, true);
      if status.Raised? { return; }
    }
  }

  // ---------------------------------------------------------------------------------------
  // A whole string that is one expression.

  ghost predicate IsProgram(p: Program, e: Expr)
    reads p
  {
    p.Valid() && p.row == Put(Empty, e)
  }

  /** The vectors of an expression that is parsed completely. */
  datatype Compiled = Compiled(subs: seq<Sub>, refs: seq<string>)

  ghost predicate IsCompiled(c: Compiled, e: Expr) {
    Holds(c.subs, c.refs, e, 0, 0) && |c.subs| == Size(e) && |c.refs| == NameCount(e)
  }

  method ParseExpression(data: string, index: nat) returns (status: Status, c: Compiled, stop: Stop)
    requires index <= |data|
    ensures match Part(Tokens(data, index))
            case Failure(error) => status == Raised(error)
            case Success(r) =>
              && status == Ok && IsCompiled(c, r.value)
              && (r.rest == [] ==> stop.token == None)
              && (r.rest != [] ==>
                    && stop == StopAfter(data, index, r.rest) && stop.token.Some? && stop.index < |data|
                    && Tokens(data, stop.index) == r.rest && !r.rest[0].TBad?)
  {
    var g := new Parser();
    status, stop := ContinueParse(g, data, index, false);
    c := Compiled(g.p.subs, g.p.refs);
  }

  /** CdlExpressionBody::parse for a string that has to be one expression. */
  method Parse(data: string) returns (status: Status, c: Compiled, leftover: bool)
    ensures match Part(Tokens(data, 0))
            case Failure(error) => status == Raised(error)
            case Success(r) => status == Ok && IsCompiled(c, r.value) && (leftover <==> r.rest != [])
  {
    var stop;
    status, c, stop := ParseExpression(data, 0);
    leftover := status.Ok? && stop.token.Some?;
  }

  /** The evaluator gives the meaning of the tree that was parsed. */
  lemma CompiledMeansTree(ctx: Context, c: Compiled, e: Expr)
    requires IsCompiled(c, e) && WellFormed(e)
    ensures GoodVector(c.subs, |c.refs|) && |c.subs| > 0
    ensures EvalAt(ctx, c.subs, c.refs, |c.subs| - 1) == Eval(ctx, e)
  {
    ParsedMeansTree(ctx, c.subs, c.refs, e);
  }

  // ---------------------------------------------------------------------------------------
  // Lists.

  /** The lexeme that is left over after some were used up. */
  lemma LeftoverLies(data: string, p: nat, n: nat)
    requires p <= |data| && 0 < n < |Lex(data, p)|
    ensures var l := Lex(data, p)[|Lex(data, p)| - n];
            && p < l.start < |data| && Lex(data, l.start) == Lex(data, p)[|Lex(data, p)| - n..]
            && (!l.token.TBad? ==>
                  l.start < l.next <= |data| && Lex(data, l.next) == Lex(data, p)[|Lex(data, p)| - n + 1..])
  {
    var k := |Lex(data, p)| - n;
    Restart(data, p, k);
    LexemesInOrder(data, p, k);
    LexemesInOrder(data, p, 0);
    assert Scan(data, Lex(data, p)[k].start) == Some(Lex(data, p)[k]);
  }

  /** Lists as libcdl parses them. After the word `to` parsing goes on one character late: at the
      index one past the character after the word. With `late` false it would go on right after
      the word. */
  ghost function ListFrom(data: string, p: nat, late: bool): List
    requires p <= |data|
    decreases |data| - p, 1
  {
    var first :- ItemAt(data, p, late);
    More(first.item, OtherListItems(data, first.last, first.left, late))
  }

  /** An item, where its last expression starts, and how many tokens that leaves over. */
  datatype Step = Step(item: Item, last: nat, left: nat)

  ghost function ItemAt(data: string, p: nat, late: bool): (r: Result<Step, Grammar.ParseError>)
    requires p <= |data|
    ensures r.Success? ==> p <= r.value.last <= |data| && r.value.left < |Lex(data, r.value.last)|
  {
    var a :- Part(Tokens(data, p));
    var n := |a.rest|;
    if n == 0 || !Leftover(data, p, n).token.TRange? then Success(Step(One(a.value), p, n)) else
    LeftoverLies(data, p, n);
    var next := Leftover(data, p, n).next;
    var q := if late then After(data, next) else next;
    var b :- Part(Tokens(data, q));
    Success(Step(Range(a.value, b.value), q, |b.rest|))
  }

  /** The lexeme at which an expression stops that started at p and left n tokens over. */
  ghost function Leftover(data: string, p: nat, n: nat): Lexeme
    requires p <= |data| && 0 < n <= |Lex(data, p)|
  {
    Lex(data, p)[|Lex(data, p)| - n]
  }

  ghost function OtherListItems(data: string, p: nat, n: nat, late: bool): List
    requires p <= |data| && n < |Lex(data, p)|
    decreases |data| - p, 0
  {
    if n == 0 then Success([])
    else
      LeftoverLies(data, p, n);
      ListFrom(data, Leftover(data, p, n).start, late)
  }

  /** The token where an expression stops starts the rest of the tokens. */
  lemma StopsAtRest(data: string, p: nat)
    requires p <= |data| && Part(Tokens(data, p)).Success? && Part(Tokens(data, p)).value.rest != []
    ensures var rest := Part(Tokens(data, p)).value.rest;
            var l := Leftover(data, p, |rest|);
            && p < l.start < |data| && Tokens(data, l.start) == rest && l.token == rest[0] && !l.token.TBad?
            && l.start < l.next <= |data| && Tokens(data, l.next) == rest[1..]
  {
    var ts := Tokens(data, p);
    PartRemains(ts);
    RestIsTokens(data, p, Part(ts).value.rest);
  }

  lemma PartRemains(ts: seq<Token>)
    requires Part(ts).Success?
    ensures Grammar.Remains(Part(ts).value.rest, ts) && |Part(ts).value.rest| < |ts|
  {
    Grammar.ConditionalIsGood(ts);
  }

  /** Tokens that end all tokens are those from a lexeme on. */
  lemma RestIsTokens(data: string, p: nat, rest: seq<Token>)
    requires p <= |data| && rest != [] && Grammar.Remains(rest, Tokens(data, p)) && |rest| < |Tokens(data, p)|
    ensures var l := Leftover(data, p, |rest|);
            && p < l.start < |data| && Tokens(data, l.start) == rest && l.token == rest[0] && !l.token.TBad?
            && l.start < l.next <= |data| && Tokens(data, l.next) == rest[1..]
  {
    var ls := Lex(data, p);
    var k := |ls| - |rest|;
    LeftoverLies(data, p, |rest|);
    TokensOfSuffix(ls, k);
    TokensOfSuffix(ls, k + 1);
    assert rest == Tokens(data, p)[k..] && rest[1..] == Tokens(data, p)[k + 1..];
    assert !Grammar.At(TBad, rest);
  }

  lemma TokensOfSuffix(ls: seq<Lexeme>, k: nat)
    requires k <= |ls|
    ensures TokensOf(ls[k..]) == TokensOf(ls)[k..]
  {
  }

  /** Going on right after the word gives the items that the tokens spell out. */
  lemma {:induction false} PromptIsItems(data: string, p: nat)
    requires p <= |data|
    ensures ListFrom(data, p, false) == Items(Tokens(data, p))
    decreases |data| - p, 1
  {
    var ts := Tokens(data, p);
    if Part(ts).Success? {
      var rest := Part(ts).value.rest;
      if rest == [] || !rest[0].TRange? {
        if rest != [] { StopsAtRest(data, p); }
        PromptOthers(data, p);
      } else {
        StopsAtRest(data, p);
        var q := Leftover(data, p, |rest|).next;
        if Part(Tokens(data, q)).Success? {
          PromptOthers(data, q);
        }
      }
    }
  }

  lemma {:induction false} PromptOthers(data: string, p: nat)
    requires p <= |data| && Part(Tokens(data, p)).Success?
    ensures var rest := Part(Tokens(data, p)).value.rest;
            OtherListItems(data, p, |rest|, false) == OtherItems(rest)
    decreases |data| - p, 0
  {
    var rest := Part(Tokens(data, p)).value.rest;
    if rest != [] {
      StopsAtRest(data, p);
      PromptIsItems(data, Leftover(data, p, |rest|).start);
    }
  }

  /** The places right after each word `to` that parsing a list reaches, in order. */
  ghost function Joints(data: string, p: nat): (js: seq<nat>)
    requires p <= |data|
    ensures forall j | j in js :: j <= |data|
    decreases |data| - p, 1
  {
    var a := Part(Tokens(data, p));
    if a.Failure? then [] else
    var n := |a.value.rest|;
    if n == 0 || !Leftover(data, p, n).token.TRange? then OtherJoints(data, p, n) else
    LeftoverLies(data, p, n);
    var next := Leftover(data, p, n).next;
    var q := After(data, next);
    assert p < q <= |data|;
    var b := Part(Tokens(data, q));
    [next] + (if b.Failure? then [] else OtherJoints(data, q, |b.value.rest|))
  }

  ghost function OtherJoints(data: string, p: nat, n: nat): (js: seq<nat>)
    requires p <= |data| && n < |Lex(data, p)|
    ensures forall j | j in js :: j <= |data|
    decreases |data| - p, 0
  {
    if n == 0 then []
    else
      LeftoverLies(data, p, n);
      Joints(data, Leftover(data, p, n).start)
  }

  /** Every high end is parsed from the very lexemes that follow its `to`. */
  ghost predicate ReadsAllHighs(data: string, p: nat)
    requires p <= |data|
  {
    forall j | j in Joints(data, p) :: Lex(data, After(data, j)) == Lex(data, j)
  }

  /** Every `to` that parsing reaches is followed by white space or by the end of the data. */
  ghost predicate Spaced(data: string, p: nat)
    requires p <= |data|
  {
    forall j | j in Joints(data, p) :: j == |data| || IsSpace(data[j])
  }

  /** Nothing of a high end is lost exactly when white space follows its `to`. */
  lemma ReadsAllHighsIffSpaced(data: string, p: nat)
    requires p <= |data|
    ensures ReadsAllHighs(data, p) <==> Spaced(data, p)
  {
    forall j | j in Joints(data, p)
      ensures Lex(data, After(data, j)) == Lex(data, j) <==> j == |data| || IsSpace(data[j])
    {
      SkipOneIff(data, j);
    }
  }

  /** Then going on one character late makes no difference. */
  lemma {:induction false} LateIsPrompt(data: string, p: nat)
    requires p <= |data| && ReadsAllHighs(data, p)
    ensures ListFrom(data, p, true) == ListFrom(data, p, false)
    decreases |data| - p, 1
  {
    var a := Part(Tokens(data, p));
    if a.Success? {
      var n := |a.value.rest|;
      if n == 0 || !Leftover(data, p, n).token.TRange? {
        LateOthers(data, p, n);
      } else {
        LeftoverLies(data, p, n);
        var next := Leftover(data, p, n).next;
        var q := After(data, next);
        assert Joints(data, p)[0] == next;
        var b := Part(Tokens(data, q));
        if b.Success? {
          var m := |b.value.rest|;
          assert forall j | j in OtherJoints(data, q, m) :: j in Joints(data, p);
          LateOthers(data, q, m);
          SameOthers(data, next, q, m);
        }
      }
    }
  }

  lemma {:induction false} LateOthers(data: string, p: nat, n: nat)
    requires p <= |data| && n < |Lex(data, p)|
    requires forall j | j in OtherJoints(data, p, n) :: Lex(data, After(data, j)) == Lex(data, j)
    ensures OtherListItems(data, p, n, true) == OtherListItems(data, p, n, false)
    decreases |data| - p, 0
  {
    if n > 0 {
      LeftoverLies(data, p, n);
      LateIsPrompt(data, Leftover(data, p, n).start);
    }
  }

  lemma SameOthers(data: string, p: nat, q: nat, n: nat)
    requires p <= |data| && q <= |data| && Lex(data, p) == Lex(data, q) && n < |Lex(data, p)|
    ensures OtherListItems(data, p, n, false) == OtherListItems(data, q, n, false)
  {
    if n > 0 {
      var l := Leftover(data, p, n);
      assert l == Leftover(data, q, n);
    }
  }

  /** When white space follows every `to` that is reached, a list is exactly the items its tokens
      spell out. */
  lemma ListIsItems(data: string)
    requires Spaced(data, 0)
    ensures ListFrom(data, 0, true) == Items(Tokens(data, 0))
  {
    ReadsAllHighsIffSpaced(data, 0);
    LateIsPrompt(data, 0);
    PromptIsItems(data, 0);
  }

  // ---------------------------------------------------------------------------------------
  // Parsing a list.

  function Singles(items: seq<Item>): seq<Expr> {
    if items == [] then []
    else Singles(items[..|items| - 1]) + (if items[|items| - 1].One? then [items[|items| - 1].e] else [])
  }

  function Ranges(items: seq<Item>): seq<(Expr, Expr)> {
    if items == [] then []
    else
      var last := items[|items| - 1];
      Ranges(items[..|items| - 1]) + (if last.Range? then [(last.low, last.high)] else [])
  }

  ghost predicate AreCompiled(cs: seq<Compiled>, es: seq<Expr>) {
    |cs| == |es| && forall i | 0 <= i < |cs| :: IsCompiled(cs[i], es[i])
  }

  ghost predicate AreRanges(cs: seq<(Compiled, Compiled)>, rs: seq<(Expr, Expr)>) {
    && |cs| == |rs|
    && forall i | 0 <= i < |rs| :: IsCompiled(cs[i].0, rs[i].0) && IsCompiled(cs[i].1, rs[i].1)
  }

  /** The items done so far in front of those to come. */
  ghost function Behind(done: seq<Item>, others: List): List {
    var items :- others;
    Success(done + items)
  }

  method ParseItem(data: string, index: nat)
    returns (status: Status, low: Compiled, high: Compiled, ranged: bool, stop: Stop)
    requires index <= |data|
    ensures match ItemAt(data, index, true)
            case Failure(error) => status == Raised(error)
            case Success(first) =>
              && status == Ok && (ranged <==> first.item.Range?)
              && IsCompiled(low, if ranged then first.item.low else first.item.e)
              && (ranged ==> IsCompiled(high, first.item.high))
              && (stop.token.Some? <==> first.left > 0)
              && (first.left > 0 ==> stop.index == Leftover(data, first.last, first.left).start)
  {
    ranged := false;
    status, low, stop := ParseExpression(data, index);
    high := low;
    if status.Raised? { return; }
    if stop.token == Some(TRange) {
      ghost var n := |Part(Tokens(data, index)).value.rest|;
      LeftoverLies(data, index, n);
      ranged := true;
      status, high, stop := ParseExpression(data, stop.end);
    }
  }

  /** Moving one item from the data to those done does not change the list. */
  lemma ListStep(data: string, p: nat, done: seq<Item>)
    requires p <= |data| && ItemAt(data, p, true).Success?
    ensures var first := ItemAt(data, p, true).value;
            if first.left == 0 then Behind(done, ListFrom(data, p, true)) == Success(done + [first.item])
            else
              var next := Leftover(data, first.last, first.left).start;
              && p < next <= |data|
              && Behind(done, ListFrom(data, p, true)) == Behind(done + [first.item], ListFrom(data, next, true))
  {
    var first := ItemAt(data, p, true).value;
    var others := OtherListItems(data, first.last, first.left, true);
    if first.left > 0 {
      LeftoverLies(data, first.last, first.left);
    }
    if first.left == 0 {
      assert [first.item] + [] == [first.item];
    } else if others.Success? {
      assert done + ([first.item] + others.value) == done + [first.item] + others.value;
    }
  }

  lemma ItemsStep(done: seq<Item>, item: Item)
    ensures Singles(done + [item]) == Singles(done) + (if item.One? then [item.e] else [])
    ensures Ranges(done + [item]) == Ranges(done) + (if item.Range? then [(item.low, item.high)] else [])
  {
    assert (done + [item])[..|done|] == done;
  }

  lemma ItemAppends(singles: seq<Compiled>, ranges: seq<(Compiled, Compiled)>, done: seq<Item>, item: Item,
                    low: Compiled, high: Compiled)
    requires AreCompiled(singles, Singles(done)) && AreRanges(ranges, Ranges(done))
    requires item.One? ==> IsCompiled(low, item.e)
    requires item.Range? ==> IsCompiled(low, item.low) && IsCompiled(high, item.high)
    ensures AreCompiled(if item.One? then singles + [low] else singles, Singles(done + [item]))
    ensures AreRanges(if item.Range? then ranges + [(low, high)] else ranges, Ranges(done + [item]))
  {
    ItemsStep(done, item);
    if item.One? {
      assert Singles(done + [item]) == Singles(done) + [item.e] && Ranges(done + [item]) == Ranges(done);
    } else {
      assert Ranges(done + [item]) == Ranges(done) + [(item.low, item.high)] && Singles(done + [item]) == Singles(done);
    }
  }

  /** The two vectors of a list expression: its plain items and the ends of its ranges. */
  method ParseList(data: string)
    returns (status: Status, singles: seq<Compiled>, ranges: seq<(Compiled, Compiled)>)
    ensures match ListFrom(data, 0, true)
            case Failure(error) => status == Raised(error)
            case Success(items) =>
              status == Ok && AreCompiled(singles, Singles(items)) && AreRanges(ranges, Ranges(items))
  {
    singles, ranges, status := [], [], Ok;
    ghost var done: seq<Item> := [];
    var index := 0;
    var more := true;
    while more
      invariant status == Ok && index <= |data|
      invariant AreCompiled(singles, Singles(done)) && AreRanges(ranges, Ranges(done))
      invariant Behind([], ListFrom(data, 0, true))
             == if more then Behind(done, ListFrom(data, index, true)) else Success(done)
      decreases more, |data| - index
    {
      var low, high, ranged, stop;
      status, low, high, ranged, stop := ParseItem(data, index);
      if status.Raised? { return; }
      ListStep(data, index, done);
      ghost var item := ItemAt(data, index, true).value.item;
      ItemAppends(singles, ranges, done, item, low, high);
      done := done + [item];
      if ranged {
        ranges := ranges + [(low, high)];
      } else {
        singles := singles + [low];
      }
      more := stop.token.Some?;
      index := if more then stop.index else index;
    }
    assert ListFrom(data, 0, true).Success? ==> [] + ListFrom(data, 0, true).value == ListFrom(data, 0, true).value;
  }
}
