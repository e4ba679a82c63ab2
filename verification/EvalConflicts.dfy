/** The conflicts that stand for expressions whose evaluation raises an exception. */
module EvalConflicts {
  import opened Wrappers
  import opened Tallies
  import opened References

  /** A CdlConflict_EvalException. */
  datatype Failed = Failed(key: Key, message: string)

  datatype Standing = Standing(conflict: Failed, cleared: bool)

  /** The conflicts that the transaction has made, and those of the configuration. */
  datatype Ledger = Ledger(made: seq<Failed>, standing: seq<Standing>)

  /** What names a property, and the text of its expression. */
  datatype Text = Text(title: string, expression: string)

  /** get_explanation() wraps the message that the conflict was made with. */
  function Explanation(text: Text, message: string): (r: string)
    ensures |r| > |message| && text.title <= r
  {
    text.title + "\nError while evaluating expression: " + message + "\n" + text.expression
  }

  function Of(k: Key): Failed -> bool {
    (c: Failed) => c.key == k
  }

  function LiveOf(k: Key): Standing -> bool {
    (e: Standing) => !e.cleared && e.conflict.key == k
  }

  function NotOfKey(k: Key): Failed -> bool {
    (c: Failed) => c.key != k
  }

  /** How many live conflicts a property has. */
  function Live(l: Ledger, k: Key): nat {
    Tally(l.made, Of(k)) + Tally(l.standing, LiveOf(k))
  }

  /** get_conflict(): the first live conflict of a property. */
  function Current(l: Ledger, k: Key): (r: Option<Failed>)
    ensures r.Some? ==> r.value.key == k
  {
    var i, j := First(l.made, Of(k)), First(l.standing, LiveOf(k));
    if i < |l.made| then Some(l.made[i])
    else if j < |l.standing| then Some(l.standing[j].conflict)
    else None
  }

  /** clear_conflict() for that conflict. */
  function ClearCurrent(l: Ledger, k: Key): Ledger {
    var i, j := First(l.made, Of(k)), First(l.standing, LiveOf(k));
    if i < |l.made| then l.(made := Without(l.made, i))
    else if j < |l.standing| then l.(standing := l.standing[j := l.standing[j].(cleared := true)])
    else l
  }

  function MarkKey(es: seq<Standing>, k: Key): seq<Standing> {
    seq(|es|, j requires 0 <= j < |es| => es[j].(cleared := es[j].cleared || es[j].conflict.key == k))
  }

  /** clear_conflicts(): all of them. */
  function ClearAll(l: Ledger, k: Key): Ledger {
    Ledger(Keep(l.made, NotOfKey(k)), MarkKey(l.standing, k))
  }

  datatype Evaluation = Fine | Raised(message: string)

  /** CdlExpressionBody::eval, in the context of a transaction, a node and a property. */
  function Evaluated(l: Ledger, k: Key, text: Text, e: Evaluation): Ledger {
    match e
    case Fine => ClearAll(l, k)
    case Raised(message) =>
      var c := Current(l, k);
      if c.None? then l.(made := l.made + [Failed(k, message)])
      else if Explanation(text, c.value.message) != message then
        var l1 := ClearCurrent(l, k);
        l1.(made := l1.made + [Failed(k, message)])
      else l
  }

  // ---------------------------------------------------------------------------------------

  lemma CurrentIffLive(l: Ledger, k: Key)
    ensures Current(l, k).Some? <==> Live(l, k) > 0
  {
    FirstFound(l.made, Of(k));
    FirstFound(l.standing, LiveOf(k));
  }

  lemma {:induction false} MarkKeyCounts(es: seq<Standing>, k: Key, k': Key)
    ensures Tally(MarkKey(es, k), LiveOf(k')) == if k' == k then 0 else Tally(es, LiveOf(k'))
  {
    if es != [] {
      assert MarkKey(es, k)[1..] == MarkKey(es[1..], k);
      MarkKeyCounts(es[1..], k, k');
    }
  }

  lemma ClearCounts(l: Ledger, k: Key, k': Key)
    ensures Live(ClearAll(l, k), k') == if k' == k then 0 else Live(l, k')
    ensures Live(ClearCurrent(l, k), k') == if k' == k && Live(l, k) > 0 then Live(l, k) - 1 else Live(l, k')
  {
    MarkKeyCounts(l.standing, k, k');
    TallyKeep(l.made, NotOfKey(k), Of(k'));
    var i, j := First(l.made, Of(k)), First(l.standing, LiveOf(k));
    FirstFound(l.made, Of(k));
    FirstFound(l.standing, LiveOf(k));
    if i < |l.made| {
      TallyRemove(l.made, i, Of(k'));
    } else if j < |l.standing| {
      TallyUpdate(l.standing, j, l.standing[j].(cleared := true), LiveOf(k'));
    }
  }

  /** Every property has at most one live conflict of this kind. */
  ghost predicate AtMostOne(l: Ledger) {
    forall k :: Live(l, k) <= 1
  }

  /** An evaluation keeps to one live conflict at most. There is one exactly if it raised, and the
      conflicts of other properties are as they were. */
  lemma LiveIffRaised(l: Ledger, k: Key, text: Text, e: Evaluation)
    requires AtMostOne(l)
    ensures AtMostOne(Evaluated(l, k, text, e))
    ensures Live(Evaluated(l, k, text, e), k) == One(e.Raised?)
    ensures forall k' | k' != k :: Live(Evaluated(l, k, text, e), k') == Live(l, k')
  {
    var l' := Evaluated(l, k, text, e);
    CurrentIffLive(l, k);
    assert Live(l, k) <= 1;
    forall k'
      ensures Live(l', k') == if k' == k then One(e.Raised?) else Live(l, k')
    {
      ClearCounts(l, k, k');
      if e.Raised? {
        TallyPush(l.made, Failed(k, e.message), Of(k'));
        TallyPush(ClearCurrent(l, k).made, Failed(k, e.message), Of(k'));
      }
    }
    forall k'
      ensures Live(l', k') <= 1
    {
      assert Live(l, k') <= 1;
    }
  }

  lemma {:induction false} NotOfKeyKept(cs: seq<Failed>, k: Key)
    ensures Keep(Keep(cs, NotOfKey(k)), NotOfKey(k)) == Keep(cs, NotOfKey(k))
  {
    if cs != [] {
      NotOfKeyKept(cs[1..], k);
      var rest := Keep(cs[1..], NotOfKey(k));
      if cs[0].key == k {
        assert Keep(cs, NotOfKey(k)) == [] + rest == rest;
      } else {
        assert Keep(cs, NotOfKey(k)) == [cs[0]] + rest && ([cs[0]] + rest)[1..] == rest;
      }
    }
  }

  lemma {:induction false} KeptWithout(cs: seq<Failed>, i: nat, k: Key)
    requires i < |cs| && cs[i].key == k
    ensures Keep(Without(cs, i), NotOfKey(k)) == Keep(cs, NotOfKey(k))
  {
    if i == 0 {
      assert Without(cs, 0) == cs[1..];
    } else {
      KeptWithout(cs[1..], i - 1, k);
      assert Without(cs, i)[1..] == Without(cs[1..], i - 1);
    }
  }

  /** A conflict of the configuration is never taken away or marked anew unless it is the
      property's own, and no mark is lifted. */
  predicate OnlyMarks(es: seq<Standing>, es': seq<Standing>, k: Key) {
    && |es'| == |es|
    && forall j | 0 <= j < |es| ::
         && es'[j].conflict == es[j].conflict && (es[j].cleared ==> es'[j].cleared)
         && (es[j].conflict.key != k ==> es'[j] == es[j])
  }

  /** The conflicts of other properties stay as they are, in their order. */
  lemma OthersStay(l: Ledger, k: Key, text: Text, e: Evaluation)
    ensures var l' := Evaluated(l, k, text, e);
            Keep(l'.made, NotOfKey(k)) == Keep(l.made, NotOfKey(k)) && OnlyMarks(l.standing, l'.standing, k)
  {
    NotOfKeyKept(l.made, k);
    var i := First(l.made, Of(k));
    if i < |l.made| {
      KeptWithout(l.made, i, k);
    }
    if e.Raised? {
      KeepPush(l.made, Failed(k, e.message), NotOfKey(k));
      KeepPush(ClearCurrent(l, k).made, Failed(k, e.message), NotOfKey(k));
    }
  }

  /** The message that the live conflict was made with. */
  function Carried(l: Ledger, k: Key): Option<string> {
    match Current(l, k)
    case None => None
    case Some(c) => Some(c.message)
  }

  function NextMessage(carried: Option<string>, text: Text, e: Evaluation): Option<string> {
    match e
    case Fine => None
    case Raised(message) =>
      if carried.Some? && Explanation(text, carried.value) == message then carried else Some(message)
  }

  /** What the live conflict carries depends only on what it carried before and on the outcome. */
  lemma CarriedNext(l: Ledger, k: Key, text: Text, e: Evaluation)
    requires AtMostOne(l)
    ensures Carried(Evaluated(l, k, text, e), k) == NextMessage(Carried(l, k), text, e)
  {
    var l' := Evaluated(l, k, text, e);
    LiveIffRaised(l, k, text, e);
    CurrentIffLive(l, k);
    CurrentIffLive(l', k);
    var c := Current(l, k);
    if e.Raised? && (c.None? || Explanation(text, c.value.message) != e.message) {
      ClearCounts(l, k, k);
      assert Live(l, k) <= 1;
      var made := if c.Some? then ClearCurrent(l, k).made else l.made;
      TallyZero(made, Of(k));
      FirstIs(made + [Failed(k, e.message)], Of(k), |made|);
    }
  }

  /** Because an explanation is more than its message, a conflict is replaced even when the same
      message is raised again: the new one goes to the end of the transaction's list. */
  lemma SameMessageReplaces(l: Ledger, k: Key, text: Text)
    requires AtMostOne(l) && Carried(l, k).Some?
    ensures var message := Carried(l, k).value;
            var l' := Evaluated(l, k, text, Raised(message));
            l'.made == ClearCurrent(l, k).made + [Failed(k, message)] && Live(ClearCurrent(l, k), k) == 0
  {
    ClearCounts(l, k, k);
    CurrentIffLive(l, k);
    assert Live(l, k) <= 1;
  }

  // ---------------------------------------------------------------------------------------
  // Whole runs.

  /** The evaluations of one property in a row. */
  function RunAll(l: Ledger, k: Key, text: Text, es: seq<Evaluation>): Ledger {
    if es == [] then l else Evaluated(RunAll(l, k, text, es[..|es| - 1]), k, text, es[|es| - 1])
  }

  /** After any number of evaluations there is a live conflict exactly if the last one raised. */
  lemma {:induction false} RunLiveIffLastRaised(l: Ledger, k: Key, text: Text, es: seq<Evaluation>)
    requires AtMostOne(l)
    ensures AtMostOne(RunAll(l, k, text, es))
    ensures es != [] ==> Live(RunAll(l, k, text, es), k) == One(es[|es| - 1].Raised?)
    ensures forall k' | k' != k :: Live(RunAll(l, k, text, es), k') == Live(l, k')
  {
    if es != [] {
      var init := es[..|es| - 1];
      RunLiveIffLastRaised(l, k, text, init);
      LiveIffRaised(RunAll(l, k, text, init), k, text, es[|es| - 1]);
    }
  }

  /** What a conflict should carry after an evaluation. */
  function Latest(e: Evaluation): Option<string> {
    if e.Raised? then Some(e.message) else None
  }

  /** Of the first n evaluations the last one is what the property's conflict tells of. */
  ghost predicate TellsLatest(l: Ledger, k: Key, text: Text, es: seq<Evaluation>, n: nat)
    requires 0 < n <= |es|
  {
    Carried(RunAll(l, k, text, es[..n]), k) == Latest(es[n - 1])
  }

  /** The i-th evaluation raises the very explanation of the conflict that is there. */
  predicate Echoes(carried: Option<string>, text: Text, es: seq<Evaluation>, i: nat)
    requires i < |es|
  {
    var before := if i == 0 then carried else Latest(es[i - 1]);
    before.Some? && es[i].Raised? && es[i].message == Explanation(text, before.value)
  }

  lemma RunStep(l: Ledger, k: Key, text: Text, es: seq<Evaluation>, n: nat)
    requires AtMostOne(l) && n < |es|
    ensures Carried(RunAll(l, k, text, es[..n + 1]), k)
         == NextMessage(Carried(RunAll(l, k, text, es[..n]), k), text, es[n])
  {
    assert es[..n + 1][..n] == es[..n];
    RunLiveIffLastRaised(l, k, text, es[..n]);
    CarriedNext(RunAll(l, k, text, es[..n]), k, text, es[n]);
  }

  /** After each of any number of evaluations the live conflict carries the latest message, exactly
      when none of them raises the explanation of the conflict before it. */
  lemma RunTellsLatestIff(l: Ledger, k: Key, text: Text, es: seq<Evaluation>)
    requires AtMostOne(l)
    ensures (forall n | 0 < n <= |es| :: TellsLatest(l, k, text, es, n))
       <==> (forall i | 0 <= i < |es| :: !Echoes(Carried(l, k), text, es, i))
  {
    assert es[..0] == [];
    if forall i | 0 <= i < |es| :: !Echoes(Carried(l, k), text, es, i) {
      forall n | 0 < n <= |es|
        ensures TellsLatest(l, k, text, es, n)
      {
        TellsLatestWithoutEcho(l, k, text, es, n);
      }
    } else {
      var i :| 0 <= i < |es| && Echoes(Carried(l, k), text, es, i);
      RunStep(l, k, text, es, i);
      var m := i + 1;
      assert i == 0 || TellsLatest(l, k, text, es, i) ==> !TellsLatest(l, k, text, es, m);
    }
  }

  lemma {:induction false} TellsLatestWithoutEcho(l: Ledger, k: Key, text: Text, es: seq<Evaluation>, n: nat)
    requires AtMostOne(l) && 0 < n <= |es|
    requires forall i | 0 <= i < n :: !Echoes(Carried(l, k), text, es, i)
    ensures TellsLatest(l, k, text, es, n)
  {
    RunStep(l, k, text, es, n - 1);
    assert !Echoes(Carried(l, k), text, es, n - 1);
    if n == 1 {
      assert es[..0] == [];
    } else {
      TellsLatestWithoutEcho(l, k, text, es, n - 1);
    }
  }

  /** An explanation starts with the name of the node and the property. Messages that do not are
      never confused with one. */
  lemma PlainMessagesTellLatest(l: Ledger, k: Key, text: Text, es: seq<Evaluation>)
    requires AtMostOne(l) && es != []
    requires forall e | e in es && e.Raised? :: !(text.title <= e.message)
    ensures Carried(RunAll(l, k, text, es), k) == Latest(es[|es| - 1])
  {
    forall i | 0 <= i < |es|
      ensures !Echoes(Carried(l, k), text, es, i)
    {
      assert es[i] in es;
    }
    TellsLatestWithoutEcho(l, k, text, es, |es|);
    assert es[..|es|] == es;
  }

  // ---------------------------------------------------------------------------------------
  // The same step by step.

  class Transaction {
    const text: Key -> Text
    var made: seq<Failed>          // new_conflicts
    var standing: seq<Standing>    // the conflicts of the toplevel, marked when on deleted_conflicts

    constructor (text: Key -> Text, conflicts: seq<Failed>)
      requires forall i, j | 0 <= i < j < |conflicts| :: conflicts[i].key != conflicts[j].key
      ensures this.text == text && made == [] && |standing| == |conflicts|
      ensures forall i | 0 <= i < |conflicts| :: standing[i] == Standing(conflicts[i], false)
    {
      this.text := text;
      made := [];
      standing := seq(|conflicts|, i requires 0 <= i < |conflicts| => Standing(conflicts[i], false));
    }

    ghost function View(): Ledger
      reads this
    {
      Ledger(made, standing)
    }

    /** Search the transaction's conflicts, then those of the configuration. */
    method Locate(k: Key) returns (i: nat, j: nat)
      ensures i == First(made, Of(k)) && j == First(standing, LiveOf(k))
    {
      i, j := 0, 0;
      while i < |made| && made[i].key != k
        invariant i <= |made| && forall m | 0 <= m < i :: made[m].key != k
      {
        i := i + 1;
      }
      FirstIs(made, Of(k), i);
      while j < |standing| && (standing[j].cleared || standing[j].conflict.key != k)
        invariant j <= |standing| && forall m | 0 <= m < j :: !LiveOf(k)(standing[m])
      {
        j := j + 1;
      }
      FirstIs(standing, LiveOf(k), j);
    }

    method ClearConflicts(k: Key)
      modifies this
      ensures View() == ClearAll(old(View()), k)
    {
      ClearMade(k);
      ClearStanding(k);
    }

    method ClearMade(k: Key)
      modifies this`made
      ensures made == Keep(old(made), NotOfKey(k))
    {
      var kept: seq<Failed> := [];
      var i := 0;
      while i < |made|
        invariant i <= |made| && made == old(made) && kept == Keep(made[..i], NotOfKey(k))
      {
        KeepPush(made[..i], made[i], NotOfKey(k));
        assert made[..i + 1] == made[..i] + [made[i]];
        if made[i].key != k {
          kept := kept + [made[i]];
        }
        i := i + 1;
      }
      assert made[..i] == made;
      made := kept;
    }

    method ClearStanding(k: Key)
      modifies this`standing
      ensures standing == MarkKey(old(standing), k)
    {
      var j := 0;
      while j < |standing|
        invariant j <= |standing| == |old(standing)|
        invariant forall m | 0 <= m < j :: standing[m] == MarkKey(old(standing), k)[m]
        invariant forall m | j <= m < |standing| :: standing[m] == old(standing)[m]
      {
        if !standing[j].cleared && standing[j].conflict.key == k {
          standing := standing[j := standing[j].(cleared := true)];
        }
        j := j + 1;
      }
    }

    /** The bookkeeping around an evaluation. */
    method Eval(k: Key, e: Evaluation)
      modifies this
      ensures View() == Evaluated(old(View()), k, text(k), e)
    {
      if e.Fine? {
        ClearConflicts(k);
        return;
      }
      var i, j := Locate(k);
      if i < |made| {
        if Explanation(text(k), made[i].message) != e.message {
          made := Without(made, i) + [Failed(k, e.message)];
        }
      } else if j < |standing| {
        if Explanation(text(k), standing[j].conflict.message) != e.message {
          standing := standing[j := standing[j].(cleared := true)];
          made := made + [Failed(k, e.message)];
        }
      } else {
        made := made + [Failed(k, e.message)];
      }
    }
  }
}
