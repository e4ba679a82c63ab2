/** References between the nodes of a configuration, the referrers they leave at their
    destinations, and the conflicts that stand for references without a destination. */
module References {
  import opened Wrappers
  import opened Tallies

  type Node = nat

  /** A property: the node it belongs to and its number there. */
  datatype Key = Key(node: Node, prop: nat)

  datatype Ref = Ref(name: string, dest: Option<Node>)

  /** A CdlConflict_Unresolved. */
  datatype Unresolved = Unresolved(key: Key, name: string)

  /** A conflict of the configuration, and whether the transaction has cleared it. */
  datatype Entry = Entry(conflict: Unresolved, cleared: bool)

  /** The references of each property, the referrers of each node, the conflicts that the
      transaction has added and those of the configuration. */
  datatype Links = Links(refs: map<Key, seq<Ref>>, referrers: map<Node, seq<Key>>,
                         added: seq<Unresolved>, standing: seq<Entry>)

  function Is(k: Key): Key -> bool {
    (x: Key) => x == k
  }

  function BoundTo(d: Node): Ref -> bool {
    (r: Ref) => r.dest == Some(d)
  }

  function OpenFor(n: string): Ref -> bool {
    (r: Ref) => r.dest.None? && r.name == n
  }

  function For(k: Key, n: string): Unresolved -> bool {
    (c: Unresolved) => c == Unresolved(k, n)
  }

  function LiveFor(k: Key, n: string): Entry -> bool {
    (e: Entry) => !e.cleared && e.conflict == Unresolved(k, n)
  }

  /** How many live conflicts there are for a property and a name. */
  function Live(l: Links, k: Key, n: string): nat {
    Tally(l.added, For(k, n)) + Tally(l.standing, LiveFor(k, n))
  }

  function Open(l: Links, k: Key, n: string): nat {
    Tally(Get(l.refs, k), OpenFor(n))
  }

  // ---------------------------------------------------------------------------------------
  // The elementary changes.

  /** CdlReference::bind */
  function BindRef(l: Links, k: Key, i: nat, d: Node): Links
    requires k in l.refs && i < |l.refs[k]|
  {
    l.(refs := l.refs[k := l.refs[k][i := l.refs[k][i].(dest := Some(d))]],
       referrers := l.referrers[d := Get(l.referrers, d) + [k]])
  }

  function RemoveFirst<T>(s: seq<T>, p: T -> bool): seq<T> {
    if First(s, p) < |s| then Without(s, First(s, p)) else s
  }

  /** CdlReference::unbind */
  function UnbindRef(l: Links, k: Key, i: nat): Links
    requires k in l.refs && i < |l.refs[k]|
  {
    var r := l.refs[k][i];
    if r.dest.None? then l
    else l.(refs := l.refs[k := l.refs[k][i := r.(dest := None)]],
            referrers := l.referrers[r.dest.value := RemoveFirst(Get(l.referrers, r.dest.value), Is(k))])
  }

  /** CdlConflict_UnresolvedBody::make */
  function NoteConflict(l: Links, k: Key, n: string): Links {
    l.(added := l.added + [Unresolved(k, n)])
  }

  /** Clear the first live conflict for a property and a name: one that the transaction made is
      deleted, one of the configuration is only marked. */
  function SettleConflict(l: Links, k: Key, n: string): Links {
    var i := First(l.added, For(k, n));
    if i < |l.added| then l.(added := Without(l.added, i))
    else
      var j := First(l.standing, LiveFor(k, n));
      if j < |l.standing| then l.(standing := l.standing[j := l.standing[j].(cleared := true)]) else l
  }

  // ---------------------------------------------------------------------------------------
  // What the changes do to the counts.

  /** Every node knows its referrers: a property occurs among them as often as it has references
      bound to the node. */
  ghost predicate Tied(l: Links) {
    forall k, d {:trigger Tally(Get(l.referrers, d), Is(k))} {:trigger Tally(Get(l.refs, k), BoundTo(d))} ::
      Tally(Get(l.referrers, d), Is(k)) == Tally(Get(l.refs, k), BoundTo(d))
  }

  /** Each of these properties has a live conflict for each of its references that should have a
      destination and does not. */
  ghost predicate Matched(l: Links, keys: set<Key>) {
    forall k, n | k in keys && n != "" :: Live(l, k, n) == Open(l, k, n)
  }

  /** There are no other live conflicts. */
  ghost predicate Quiet(l: Links, keys: set<Key>) {
    forall k, n | k !in keys || n == "" :: Live(l, k, n) == 0
  }

  lemma BindCounts(l: Links, k: Key, i: nat, d: Node)
    requires k in l.refs && i < |l.refs[k]| && l.refs[k][i].dest.None? && Tied(l)
    ensures Tied(BindRef(l, k, i, d))
    ensures forall k', n :: Open(BindRef(l, k, i, d), k', n) + One(k' == k && n == l.refs[k][i].name) == Open(l, k', n)
  {
    var l' := BindRef(l, k, i, d);
    var (r, r') := (l.refs[k][i], l'.refs[k][i]);
    forall k', d'
      ensures Tally(Get(l'.referrers, d'), Is(k')) == Tally(Get(l'.refs, k'), BoundTo(d'))
    {
      TallyPush(Get(l.referrers, d), k, Is(k'));
      TallyUpdate(l.refs[k], i, r', BoundTo(d'));
    }
    forall k', n
      ensures Open(l', k', n) + One(k' == k && n == r.name) == Open(l, k', n)
    {
      TallyUpdate(l.refs[k], i, r', OpenFor(n));
    }
  }

  lemma UnbindCounts(l: Links, k: Key, i: nat)
    requires k in l.refs && i < |l.refs[k]| && l.refs[k][i].dest.Some? && Tied(l)
    ensures Tied(UnbindRef(l, k, i))
    ensures forall k', n :: Open(UnbindRef(l, k, i), k', n) == Open(l, k', n) + One(k' == k && n == l.refs[k][i].name)
  {
    var l' := UnbindRef(l, k, i);
    var (r, r') := (l.refs[k][i], l'.refs[k][i]);
    var d := r.dest.value;
    var ks := Get(l.referrers, d);
    TallyZero(l.refs[k], BoundTo(d));
    FirstFound(ks, Is(k));
    forall k', d'
      ensures Tally(Get(l'.referrers, d'), Is(k')) == Tally(Get(l'.refs, k'), BoundTo(d'))
    {
      TallyRemove(ks, First(ks, Is(k)), Is(k'));
      TallyUpdate(l.refs[k], i, r', BoundTo(d'));
    }
    forall k', n
      ensures Open(l', k', n) == Open(l, k', n) + One(k' == k && n == r.name)
    {
      TallyUpdate(l.refs[k], i, r', OpenFor(n));
    }
  }

  lemma NoteCounts(l: Links, k: Key, n: string)
    ensures forall k', n' :: Live(NoteConflict(l, k, n), k', n') == Live(l, k', n') + One(k' == k && n' == n)
  {
    forall k', n'
      ensures Live(NoteConflict(l, k, n), k', n') == Live(l, k', n') + One(k' == k && n' == n)
    {
      TallyPush(l.added, Unresolved(k, n), For(k', n'));
    }
  }

  lemma SettleCounts(l: Links, k: Key, n: string)
    requires Live(l, k, n) > 0
    ensures forall k', n' :: Live(SettleConflict(l, k, n), k', n') + One(k' == k && n' == n) == Live(l, k', n')
  {
    var i, j := First(l.added, For(k, n)), First(l.standing, LiveFor(k, n));
    FirstFound(l.added, For(k, n));
    FirstFound(l.standing, LiveFor(k, n));
    forall k', n'
      ensures Live(SettleConflict(l, k, n), k', n') + One(k' == k && n' == n) == Live(l, k', n')
    {
      if i < |l.added| {
        TallyRemove(l.added, i, For(k', n'));
      } else {
        TallyUpdate(l.standing, j, l.standing[j].(cleared := true), LiveFor(k', n'));
      }
    }
  }

  // ---------------------------------------------------------------------------------------
  // CdlExpressionBody::update and CdlProperty_ReferenceBody::update

  type Table = map<string, Node>

  /** Loaded: look a name up; bind the reference or make a conflict. A reference property whose
      name is empty refers to nothing. */
  function LoadRef(l: Links, k: Key, i: nat, lookup: Table): (l': Links)
    requires k in l.refs && i < |l.refs[k]|
    ensures l'.refs.Keys == l.refs.Keys && |l'.refs[k]| == |l.refs[k]| && l'.standing == l.standing
  {
    var n := l.refs[k][i].name;
    if n == "" then l
    else if n in lookup then BindRef(l, k, i, lookup[n])
    else NoteConflict(l, k, n)
  }

  function LoadRefs(l: Links, k: Key, i: nat, lookup: Table): (l': Links)
    requires k in l.refs && i <= |l.refs[k]|
    ensures l'.standing == l.standing
    decreases |l.refs[k]| - i
  {
    if i == |l.refs[k]| then l else LoadRefs(LoadRef(l, k, i, lookup), k, i + 1, lookup)
  }

  /** Unloading: unbind whatever is bound, without making conflicts. */
  function UnloadRefs(l: Links, k: Key, i: nat): (l': Links)
    requires k in l.refs && i <= |l.refs[k]|
    ensures l'.standing == l.standing
    decreases |l.refs[k]| - i
  {
    if i == |l.refs[k]| then l else UnloadRefs(UnbindRef(l, k, i), k, i + 1)
  }

  /** Created: bind the first reference that waits for this name and clear a conflict for it. */
  function Create(l: Links, k: Key, n: string, d: Node): Links
    requires k in l.refs
  {
    var i := First(l.refs[k], OpenFor(n));
    if i < |l.refs[k]| then SettleConflict(BindRef(l, k, i, d), k, n) else l
  }

  /** Destroyed: unbind the first reference to this node and make a conflict for it. */
  function Destroy(l: Links, k: Key, d: Node): Links
    requires k in l.refs
  {
    var i := First(l.refs[k], BoundTo(d));
    if i < |l.refs[k]| then NoteConflict(UnbindRef(l, k, i), k, l.refs[k][i].name) else l
  }

  function Resolved(r: Ref, lookup: Table): Ref {
    r.(dest := if r.name != "" && r.name in lookup then Some(lookup[r.name]) else None)
  }

  /** Every reference that may have a destination has it. */
  ghost predicate AreResolved(rs: seq<Ref>, from: seq<Ref>, lookup: Table) {
    ResolvedFrom(rs, from, 0, lookup)
  }

  ghost predicate ResolvedFrom(rs: seq<Ref>, from: seq<Ref>, i: nat, lookup: Table) {
    |rs| == |from| && forall j | 0 <= j < |rs| :: rs[j] == if j < i then from[j] else Resolved(from[j], lookup)
  }

  /** A property half way through its Loaded update: conflicts stand for the references before i,
      and those from i on are unbound. */
  ghost predicate Halfway(l: Links, noisy: set<Key>, k: Key, i: nat) {
    && k in l.refs && i <= |l.refs[k]|
    && (forall j | i <= j < |l.refs[k]| :: l.refs[k][j].dest.None?)
    && (forall n | n != "" :: Live(l, k, n) == Tally(l.refs[k][..i], OpenFor(n)))
    && Quiet(l, noisy + {k})
  }

  lemma LoadRefKeeps(l: Links, keys: set<Key>, noisy: set<Key>, k: Key, i: nat, lookup: Table)
    requires Tied(l) && Matched(l, keys) && k !in keys && Halfway(l, noisy, k, i) && i < |l.refs[k]|
    ensures var l' := LoadRef(l, k, i, lookup);
            && Tied(l') && Matched(l', keys) && Halfway(l', noisy, k, i + 1)
            && l'.refs == l.refs[k := l.refs[k][i := Resolved(l.refs[k][i], lookup)]]
  {
    var r := l.refs[k][i];
    var l' := LoadRef(l, k, i, lookup);
    if r.name == "" || r.name !in lookup {
      assert l.refs[k][i := r] == l.refs[k];
      NoteCounts(l, k, r.name);
    } else {
      BindCounts(l, k, i, lookup[r.name]);
    }
    assert l'.refs == l.refs[k := l.refs[k][i := Resolved(r, lookup)]];
    forall k', n
      ensures Live(l', k', n) == Live(l, k', n) + One(k' == k && n != "" && n == r.name && r.name !in lookup)
    {
    }
    assert l'.refs[k][..i] == l.refs[k][..i];
    assert l'.refs[k][..i + 1] == l.refs[k][..i] + [l'.refs[k][i]];
    forall n | n != ""
      ensures Live(l', k, n) == Tally(l'.refs[k][..i + 1], OpenFor(n))
    {
      TallyPush(l.refs[k][..i], l'.refs[k][i], OpenFor(n));
    }
  }

  /** Loading a property leaves each reference bound or with a conflict of its own. */
  lemma {:induction false} LoadKeeps(l: Links, keys: set<Key>, noisy: set<Key>, k: Key, i: nat, lookup: Table)
    requires Tied(l) && Matched(l, keys) && k !in keys && Halfway(l, noisy, k, i)
    ensures var l' := LoadRefs(l, k, i, lookup);
            && Tied(l') && Matched(l', keys + {k}) && Quiet(l', noisy + {k})
            && l'.refs.Keys == l.refs.Keys
            && (forall k' | k' in l.refs && k' != k :: l'.refs[k'] == l.refs[k'])
            && ResolvedFrom(l'.refs[k], l.refs[k], i, lookup)
    decreases |l.refs[k]| - i
  {
    if i < |l.refs[k]| {
      LoadRefKeeps(l, keys, noisy, k, i, lookup);
      LoadKeeps(LoadRef(l, k, i, lookup), keys, noisy, k, i + 1, lookup);
    } else {
      assert l.refs[k][..i] == l.refs[k];
    }
  }

  /** Unloading a property unbinds all its references and changes no conflict. */
  lemma {:induction false} UnloadKeeps(l: Links, k: Key, i: nat)
    requires Tied(l) && k in l.refs && i <= |l.refs[k]|
    requires forall j | 0 <= j < i :: l.refs[k][j].dest.None?
    ensures var l' := UnloadRefs(l, k, i);
            && Tied(l') && l'.added == l.added && l'.standing == l.standing
            && l'.refs.Keys == l.refs.Keys
            && (forall k' | k' in l.refs && k' != k :: l'.refs[k'] == l.refs[k'])
            && AreResolved(l'.refs[k], l.refs[k], map[])
    decreases |l.refs[k]| - i
  {
    if i < |l.refs[k]| {
      if l.refs[k][i].dest.Some? { UnbindCounts(l, k, i); }
      UnloadKeeps(UnbindRef(l, k, i), k, i + 1);
    }
  }

  /** Binding a reference that waited keeps conflicts and open references matched. */
  lemma CreateKeeps(l: Links, keys: set<Key>, noisy: set<Key>, k: Key, n: string, d: Node)
    requires Tied(l) && Matched(l, keys) && Quiet(l, noisy) && keys <= noisy
    requires k in keys && k in l.refs && Live(l, k, n) > 0
    ensures First(l.refs[k], OpenFor(n)) < |l.refs[k]|
    ensures var l' := Create(l, k, n, d);
            var i := First(l.refs[k], OpenFor(n));
            && Tied(l') && Matched(l', keys) && Quiet(l', noisy)
            && l'.refs == l.refs[k := l.refs[k][i := l.refs[k][i].(dest := Some(d))]]
            && l' == SettleConflict(BindRef(l, k, i, d), k, n)
  {
    var i := First(l.refs[k], OpenFor(n));
    FirstFound(l.refs[k], OpenFor(n));
    var l1 := BindRef(l, k, i, d);
    BindCounts(l, k, i, d);
    assert forall k', n' :: Live(l1, k', n') == Live(l, k', n');
    SettleCounts(l1, k, n);
    var l' := SettleConflict(l1, k, n);
    assert l'.refs == l1.refs && l'.referrers == l1.referrers;
    forall k', n'
      ensures Open(l', k', n') + One(k' == k && n' == n) == Open(l, k', n')
      ensures Live(l', k', n') + One(k' == k && n' == n) == Live(l, k', n')
    {
      assert Open(l', k', n') == Open(l1, k', n');
    }
  }

  /** Unbinding a reference to a node that goes leaves a conflict behind and takes one referrer away. */
  lemma DestroyKeeps(l: Links, keys: set<Key>, noisy: set<Key>, k: Key, d: Node)
    requires Tied(l) && Matched(l, keys) && Quiet(l, noisy) && keys <= noisy && k in keys && k in l.refs
    requires k in Get(l.referrers, d)
    requires forall j | 0 <= j < |l.refs[k]| :: l.refs[k][j].dest.Some? ==> l.refs[k][j].name != ""
    ensures First(l.refs[k], BoundTo(d)) < |l.refs[k]|
    ensures var l' := Destroy(l, k, d);
            var i := First(l.refs[k], BoundTo(d));
            && Tied(l') && Matched(l', keys) && Quiet(l', noisy)
            && l'.refs == l.refs[k := l.refs[k][i := l.refs[k][i].(dest := None)]]
            && |Get(l'.referrers, d)| == |Get(l.referrers, d)| - 1
            && (forall d' | d' != d :: Get(l'.referrers, d') == Get(l.referrers, d'))
  {
    var ks, i := Get(l.referrers, d), First(l.refs[k], BoundTo(d));
    TallyZero(ks, Is(k));
    FirstFound(ks, Is(k));
    FirstFound(l.refs[k], BoundTo(d));
    var n := l.refs[k][i].name;
    var l1 := UnbindRef(l, k, i);
    UnbindCounts(l, k, i);
    assert forall k', n' :: Live(l1, k', n') == Live(l, k', n');
    NoteCounts(l1, k, n);
    var l' := NoteConflict(l1, k, n);
    assert l'.refs == l1.refs && l'.referrers == l1.referrers;
    forall k', n'
      ensures Open(l', k', n') == Open(l, k', n') + One(k' == k && n' == n)
      ensures Live(l', k', n') == Live(l, k', n') + One(k' == k && n' == n)
    {
      assert Open(l', k', n') == Open(l1, k', n');
    }
  }

  /** Created and Destroyed for a property with a single reference: no search, and any unresolved
      conflict of the property is the right one. */
  function CreateOnly(l: Links, k: Key, d: Node): Links
    requires k in l.refs && |l.refs[k]| == 1
  {
    SettleAny(BindRef(l, k, 0, d), k)
  }

  function DestroyOnly(l: Links, k: Key): Links
    requires k in l.refs && |l.refs[k]| == 1
  {
    NoteConflict(UnbindRef(l, k, 0), k, l.refs[k][0].name)
  }

  function ForKey(k: Key): Unresolved -> bool {
    (c: Unresolved) => c.key == k
  }

  function LiveForKey(k: Key): Entry -> bool {
    (e: Entry) => !e.cleared && e.conflict.key == k
  }

  function SettleAny(l: Links, k: Key): Links {
    var i := First(l.added, ForKey(k));
    if i < |l.added| then l.(added := Without(l.added, i))
    else
      var j := First(l.standing, LiveForKey(k));
      if j < |l.standing| then l.(standing := l.standing[j := l.standing[j].(cleared := true)]) else l
  }

  lemma SettleAnyIs(l: Links, k: Key, n: string)
    requires forall n' | n' != n :: Live(l, k, n') == 0
    ensures SettleAny(l, k) == SettleConflict(l, k, n)
  {
    forall i | 0 <= i < |l.added|
      ensures ForKey(k)(l.added[i]) == For(k, n)(l.added[i])
    {
      var n' := l.added[i].name;
      assert l.added[i].key == k ==> For(k, n')(l.added[i]);
      assert n' != n ==> Live(l, k, n') == 0;
      TallyZero(l.added, For(k, n'));
    }
    forall j | 0 <= j < |l.standing|
      ensures LiveForKey(k)(l.standing[j]) == LiveFor(k, n)(l.standing[j])
    {
      var n' := l.standing[j].conflict.name;
      assert LiveForKey(k)(l.standing[j]) ==> LiveFor(k, n')(l.standing[j]);
      assert n' != n ==> Live(l, k, n') == 0;
      TallyZero(l.standing, LiveFor(k, n'));
    }
    FirstIs(l.added, ForKey(k), First(l.added, For(k, n)));
    FirstIs(l.standing, LiveForKey(k), First(l.standing, LiveFor(k, n)));
  }

  /** For a property with one reference the two ways of updating agree. */
  lemma OnlyIsFirst(l: Links, keys: set<Key>, noisy: set<Key>, k: Key, n: string, d: Node)
    requires Tied(l) && Matched(l, keys) && Quiet(l, noisy) && keys <= noisy
    requires k in keys && k in l.refs && |l.refs[k]| == 1
    ensures Live(l, k, n) > 0 ==> CreateOnly(l, k, d) == Create(l, k, n, d)
    ensures k in Get(l.referrers, d) ==> DestroyOnly(l, k) == Destroy(l, k, d)
  {
    if Live(l, k, n) > 0 {
      FirstFound(l.refs[k], OpenFor(n));
      assert l.refs[k][0].name == n;
      forall n' | n' != n
        ensures Live(BindRef(l, k, 0, d), k, n') == 0
      {
        assert Live(BindRef(l, k, 0, d), k, n') == Live(l, k, n');
        TallyZero(l.refs[k], OpenFor(n'));
      }
      SettleAnyIs(BindRef(l, k, 0, d), k, n);
    }
    if k in Get(l.referrers, d) {
      TallyZero(Get(l.referrers, d), Is(k));
      FirstFound(l.refs[k], BoundTo(d));
    }
  }

  // ---------------------------------------------------------------------------------------
  // Clearing all conflicts of some nodes.

  function NotOf(nodes: set<Node>): Unresolved -> bool {
    (c: Unresolved) => c.key.node !in nodes
  }

  function Mark(es: seq<Entry>, nodes: set<Node>): seq<Entry> {
    seq(|es|, j requires 0 <= j < |es| => es[j].(cleared := es[j].cleared || es[j].conflict.key.node in nodes))
  }

  function ClearNodes(l: Links, nodes: set<Node>): Links {
    l.(added := Keep(l.added, NotOf(nodes)), standing := Mark(l.standing, nodes))
  }

  lemma {:induction false} MarkCounts(es: seq<Entry>, nodes: set<Node>, k: Key, n: string)
    ensures Tally(Mark(es, nodes), LiveFor(k, n)) == if k.node in nodes then 0 else Tally(es, LiveFor(k, n))
  {
    if es != [] {
      assert Mark(es, nodes)[1..] == Mark(es[1..], nodes);
      MarkCounts(es[1..], nodes, k, n);
    }
  }

  lemma ClearNodesCounts(l: Links, nodes: set<Node>)
    ensures forall k, n :: Live(ClearNodes(l, nodes), k, n) == if k.node in nodes then 0 else Live(l, k, n)
  {
    forall k, n
      ensures Live(ClearNodes(l, nodes), k, n) == if k.node in nodes then 0 else Live(l, k, n)
    {
      MarkCounts(l.standing, nodes, k, n);
      TallyKeep(l.added, NotOf(nodes), For(k, n));
    }
  }

  // ---------------------------------------------------------------------------------------
  // Committing a transaction.

  function NotCleared(): Entry -> bool {
    (e: Entry) => !e.cleared
  }

  function AsEntries(cs: seq<Unresolved>): seq<Entry> {
    seq(|cs|, i requires 0 <= i < |cs| => Entry(cs[i], false))
  }

  /** The conflicts of the transaction become conflicts of the configuration, and those that were
      marked are deleted. */
  function Adopted(l: Links): Links {
    l.(added := [], standing := Keep(l.standing + AsEntries(l.added), NotCleared()))
  }

  /** These are the conflicts of the configuration, whether marked or not. */
  ghost predicate Remembers(l: Links, filed: seq<Unresolved>) {
    |l.standing| == |filed| && forall j | 0 <= j < |filed| :: l.standing[j].conflict == filed[j]
  }

  /** Until the transaction is committed, conflicts of the configuration are at most marked. */
  lemma CreateRemembers(l: Links, filed: seq<Unresolved>, k: Key, n: string, d: Node)
    requires Remembers(l, filed) && k in l.refs
    ensures Remembers(Create(l, k, n, d), filed)
  {
  }

  lemma DestroyRemembers(l: Links, filed: seq<Unresolved>, k: Key, d: Node)
    requires Remembers(l, filed) && k in l.refs
    ensures Remembers(Destroy(l, k, d), filed)
  {
  }

  lemma ClearRemembers(l: Links, filed: seq<Unresolved>, nodes: set<Node>)
    requires Remembers(l, filed)
    ensures Remembers(ClearNodes(l, nodes), filed)
  {
  }

  function ConflictsOf(es: seq<Entry>): (r: seq<Unresolved>)
    ensures |r| == |es| && forall j | 0 <= j < |es| :: r[j] == es[j].conflict
  {
    seq(|es|, j requires 0 <= j < |es| => es[j].conflict)
  }

  function NoMarks(es: seq<Entry>): (r: seq<Entry>)
    ensures |r| == |es| && forall j | 0 <= j < |es| :: r[j] == es[j].(cleared := false)
  {
    seq(|es|, j requires 0 <= j < |es| => es[j].(cleared := false))
  }

  /** Cancelling: the transaction's conflicts go, and no conflict is marked any more. */
  function Discarded(l: Links): Links {
    l.(added := [], standing := NoMarks(l.standing))
  }

  /** Links as they are when a transaction starts. */
  ghost predicate Clean(l: Links) {
    l.added == [] && forall e | e in l.standing :: !e.cleared
  }

  lemma {:induction false} KeptAreNotCleared(es: seq<Entry>)
    ensures forall e | e in Keep(es, NotCleared()) :: !e.cleared
  {
    if es != [] {
      KeptAreNotCleared(es[1..]);
    }
  }

  lemma {:induction false} AsEntriesCount(cs: seq<Unresolved>, k: Key, n: string)
    ensures Tally(AsEntries(cs), LiveFor(k, n)) == Tally(cs, For(k, n))
  {
    if cs != [] {
      assert AsEntries(cs)[1..] == AsEntries(cs[1..]);
      AsEntriesCount(cs[1..], k, n);
    }
  }

  /** Committing changes no live conflict. */
  lemma AdoptedLive(l: Links)
    ensures forall k, n :: Live(Adopted(l), k, n) == Live(l, k, n)
  {
    forall k, n
      ensures Live(Adopted(l), k, n) == Live(l, k, n)
    {
      AsEntriesCount(l.added, k, n);
      TallyJoin(l.standing, AsEntries(l.added), LiveFor(k, n));
      TallyKeep(l.standing + AsEntries(l.added), NotCleared(), LiveFor(k, n));
    }
  }

  function Unresolveds(names: seq<string>): seq<Ref> {
    seq(|names|, i requires 0 <= i < |names| => Ref(names[i], None))
  }

  function WithoutNode(refs: map<Key, seq<Ref>>, n: Node): map<Key, seq<Ref>> {
    map k | k in refs && k.node != n :: refs[k]
  }

  // ---------------------------------------------------------------------------------------
  // The same step by step.

  class Bindings {
    var refs: map<Key, seq<Ref>>
    var referrers: map<Node, seq<Key>>
    var added: seq<Unresolved>
    var standing: seq<Entry>

    constructor ()
      ensures View() == Links(map[], map[], [], [])
    {
      refs, referrers, added, standing := map[], map[], [], [];
    }

    ghost function View(): Links
      reads this
    {
      Links(refs, referrers, added, standing)
    }

    method Bind(k: Key, i: nat, d: Node)
      requires k in refs && i < |refs[k]|
      modifies this`refs, this`referrers
      ensures View() == BindRef(old(View()), k, i, d)
    {
      referrers := referrers[d := Get(referrers, d) + [k]];
      refs := refs[k := refs[k][i := refs[k][i].(dest := Some(d))]];
    }

    method Unbind(k: Key, i: nat)
      requires k in refs && i < |refs[k]|
      modifies this`refs, this`referrers
      ensures View() == UnbindRef(old(View()), k, i)
    {
      var r := refs[k][i];
      if r.dest.None? { return; }
      var ks := Get(referrers, r.dest.value);
      var j := 0;
      while j < |ks| && ks[j] != k
        invariant j <= |ks| && forall j' | 0 <= j' < j :: ks[j'] != k
      {
        j := j + 1;
      }
      FirstIs(ks, Is(k), j);
      referrers := referrers[r.dest.value := if j < |ks| then Without(ks, j) else ks];
      refs := refs[k := refs[k][i := r.(dest := None)]];
    }

    method MakeUnresolved(k: Key, n: string)
      modifies this`added
      ensures View() == NoteConflict(old(View()), k, n)
    {
      added := added + [Unresolved(k, n)];
    }

    /** Find the first live conflict of a property, for this name or for any, and clear it. */
    method ClearUnresolved(k: Key, name: Option<string>)
      modifies this`added, this`standing
      ensures View() == if name.Some? then SettleConflict(old(View()), k, name.value) else SettleAny(old(View()), k)
    {
      ghost var p := if name.Some? then For(k, name.value) else ForKey(k);
      ghost var q := if name.Some? then LiveFor(k, name.value) else LiveForKey(k);
      var i := 0;
      while i < |added| && !(added[i].key == k && (name.None? || added[i].name == name.value))
        invariant i <= |added| && forall i' | 0 <= i' < i :: !p(added[i'])
      {
        i := i + 1;
      }
      FirstIs(added, p, i);
      if i < |added| {
        added := Without(added, i);
        return;
      }
      var j := 0;
      while j < |standing| && !(!standing[j].cleared && standing[j].conflict.key == k
                                && (name.None? || standing[j].conflict.name == name.value))
        invariant j <= |standing| && forall j' | 0 <= j' < j :: !q(standing[j'])
      {
        j := j + 1;
      }
      FirstIs(standing, q, j);
      if j < |standing| {
        standing := standing[j := standing[j].(cleared := true)];
      }
    }

    method Loaded(k: Key, lookup: Table)
      requires k in refs
      modifies this
      ensures View() == LoadRefs(old(View()), k, 0, lookup)
    {
      var i := 0;
      while i < |refs[k]|
        invariant k in refs && i <= |refs[k]|
        invariant LoadRefs(View(), k, i, lookup) == LoadRefs(old(View()), k, 0, lookup)
        decreases |refs[k]| - i
      {
        var n := refs[k][i].name;
        if n != "" {
          if n in lookup {
            Bind(k, i, lookup[n]);
          } else {
            MakeUnresolved(k, n);
          }
        }
        i := i + 1;
      }
    }

    method Unloading(k: Key)
      requires k in refs
      modifies this`refs, this`referrers
      ensures View() == UnloadRefs(old(View()), k, 0)
    {
      var i := 0;
      while i < |refs[k]|
        invariant k in refs && i <= |refs[k]|
        invariant UnloadRefs(View(), k, i) == UnloadRefs(old(View()), k, 0)
        decreases |refs[k]| - i
      {
        Unbind(k, i);
        i := i + 1;
      }
    }

    method Created(k: Key, n: string, d: Node)
      requires k in refs
      modifies this
      ensures View() == Create(old(View()), k, n, d)
    {
      var i := 0;
      while i < |refs[k]| && !(refs[k][i].name == n && refs[k][i].dest.None?)
        invariant i <= |refs[k]| && forall i' | 0 <= i' < i :: !OpenFor(n)(refs[k][i'])
      {
        i := i + 1;
      }
      FirstIs(refs[k], OpenFor(n), i);
      if i < |refs[k]| {
        Bind(k, i, d);
        ClearUnresolved(k, Some(n));
      }
    }

    method Destroyed(k: Key, d: Node)
      requires k in refs
      modifies this
      ensures View() == Destroy(old(View()), k, d)
    {
      var i := 0;
      while i < |refs[k]| && refs[k][i].dest != Some(d)
        invariant i <= |refs[k]| && forall i' | 0 <= i' < i :: !BoundTo(d)(refs[k][i'])
      {
        i := i + 1;
      }
      FirstIs(refs[k], BoundTo(d), i);
      if i < |refs[k]| {
        var n := refs[k][i].name;
        Unbind(k, i);
        MakeUnresolved(k, n);
      }
    }

    method CreatedOnly(k: Key, d: Node)
      requires k in refs && |refs[k]| == 1
      modifies this
      ensures View() == CreateOnly(old(View()), k, d)
    {
      Bind(k, 0, d);
      ClearUnresolved(k, None);
    }

    method DestroyedOnly(k: Key)
      requires k in refs && |refs[k]| == 1
      modifies this
      ensures View() == DestroyOnly(old(View()), k)
    {
      Unbind(k, 0);
      MakeUnresolved(k, refs[k][0].name);
    }

    /** Committing: adopt the transaction's conflicts, delete those that it has cleared. */
    method Adopt()
      modifies this`added, this`standing
      ensures View() == Adopted(old(View()))
    {
      var all := standing + AsEntries(added);
      var kept: seq<Entry> := [];
      var j := 0;
      while j < |all|
        invariant j <= |all| && kept == Keep(all[..j], NotCleared())
      {
        KeepPush(all[..j], all[j], NotCleared());
        assert all[..j + 1] == all[..j] + [all[j]];
        if !all[j].cleared {
          kept := kept + [all[j]];
        }
        j := j + 1;
      }
      assert all[..j] == all;
      added, standing := [], kept;
    }

    method Discard()
      modifies this`added, this`standing
      ensures View() == Discarded(old(View()))
    {
      var j := 0;
      while j < |standing|
        invariant j <= |standing| == |old(standing)|
        invariant forall i | 0 <= i < |standing| ::
                    standing[i] == if i < j then old(standing)[i].(cleared := false) else old(standing)[i]
      {
        standing := standing[j := standing[j].(cleared := false)];
        j := j + 1;
      }
      assert standing == NoMarks(old(standing));
      added := [];
    }

    /** A property is parsed: its references are not bound yet. */
    method Declare(k: Key, names: seq<string>)
      modifies this`refs
      ensures refs == old(refs)[k := Unresolveds(names)]
    {
      refs := refs[k := Unresolveds(names)];
    }

    /** The properties of a node go with it. */
    method Forget(n: Node)
      modifies this`refs
      ensures refs == WithoutNode(old(refs), n)
    {
      refs := WithoutNode(refs, n);
    }

    /** Clear the conflicts of the configuration and of the transaction that belong to some nodes. */
    method ClearConflicts(nodes: set<Node>)
      modifies this`added, this`standing
      ensures View() == ClearNodes(old(View()), nodes)
    {
      var j := 0;
      while j < |standing|
        invariant j <= |standing| == |old(standing)| && added == old(added)
        invariant forall i | 0 <= i < j :: standing[i] == Mark(old(standing), nodes)[i]
        invariant forall i | j <= i < |standing| :: standing[i] == old(standing)[i]
      {
        if standing[j].conflict.key.node in nodes && !standing[j].cleared {
          standing := standing[j := standing[j].(cleared := true)];
        }
        j := j + 1;
      }
      assert standing == Mark(old(standing), nodes);
      var kept: seq<Unresolved> := [];
      var i := 0;
      while i < |added|
        invariant i <= |added| && added == old(added) && standing == Mark(old(standing), nodes)
        invariant kept == Keep(added[..i], NotOf(nodes))
      {
        KeepPush(added[..i], added[i], NotOf(nodes));
        assert added[..i + 1] == added[..i] + [added[i]];
        if added[i].key.node !in nodes {
          kept := kept + [added[i]];
        }
        i := i + 1;
      }
      assert added[..i] == added;
      added := kept;
    }
  }
}
