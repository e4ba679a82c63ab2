/** Loading and unloading packages: every property of every node is updated, which binds and
    unbinds references and moves nodes about the hierarchy. */
module Loading {
  import opened Wrappers
  import opened Tallies
  import opened References
  import opened Hierarchy

  // ---------------------------------------------------------------------------------------
  // What holds of the references.

  predicate IsParental(k: Key, info: Node -> Info) {
    info(k.node).parentProperty == Some(k.prop)
  }

  /** A parent property is a single reference, and not to the node itself (check_properties). */
  ghost predicate Shaped(refs: map<Key, seq<Ref>>, info: Node -> Info) {
    forall k | k in refs && IsParental(k, info) :: |refs[k]| == 1 && refs[k][0].name != info(k.node).name
  }

  /** Whatever is bound is bound to what its name stands for. */
  ghost predicate Pointing(refs: map<Key, seq<Ref>>, lookup: Table) {
    forall k, i | k in refs && 0 <= i < |refs[k]| && refs[k][i].dest.Some? ::
      refs[k][i] == Resolved(refs[k][i], lookup)
  }

  /** Whatever could be bound is bound. */
  ghost predicate Complete(refs: map<Key, seq<Ref>>, lookup: Table, keys: set<Key>) {
    forall k, i | k in keys && k in refs && 0 <= i < |refs[k]| :: refs[k][i] == Resolved(refs[k][i], lookup)
  }

  /** The table knows nodes by their names. */
  ghost predicate Named(lookup: Table, attached: set<Node>, info: Node -> Info) {
    && "" !in lookup
    && (forall n | n in attached + {ORPHANS} :: info(n).name in lookup && lookup[info(n).name] == n)
    && (forall name | name in lookup :: lookup[name] in attached + {ORPHANS} && info(lookup[name]).name == name)
  }

  // ---------------------------------------------------------------------------------------
  // What holds of the hierarchy.

  /** The parent reference of a node. */
  function Asked(refs: map<Key, seq<Ref>>, info: Node -> Info, n: Node): Option<Ref> {
    match info(n).parentProperty
    case None => None
    case Some(p) =>
      var rs := Get(refs, Key(n, p));
      if rs == [] then None else Some(rs[0])
  }

  /** Where it leads. */
  function DestOf(refs: map<Key, seq<Ref>>, info: Node -> Info, n: Node): Option<Node> {
    match Asked(refs, info, n)
    case None => None
    case Some(r) => r.dest
  }

  /** A node's parent is one of the special containers, or of the same loadable, or the one that
      its parent property asks for. Without a parent property it is where it was created. */
  ghost predicate Home(s: Shape, refs: map<Key, seq<Ref>>, attached: set<Node>, owner: map<Node, Node>,
                       info: Node -> Info, n: Node) {
    && n in s.parent && n in owner
    && var p := s.parent[n];
    && (p == TOP || p == ORPHANS
        || (p in attached && p in owner && (owner[p] == owner[n] || DestOf(refs, info, n) == Some(p))))
    && (!info(n).Parental() ==>
          if info(n).loadable then p == TOP else p in attached && p in owner && owner[p] == owner[n] && p < n)
  }

  /** Where a node goes while its parent reference is not bound. */
  function Refuge(name: string): Node {
    if name == "" then TOP else ORPHANS
  }

  /** A parent reference that is bound and not obeyed is one that was refused. A node with one that
      is not bound is an orphan, or directly below the toplevel if it names nothing. */
  ghost predicate Obeyed(s: Shape, refs: map<Key, seq<Ref>>, refused: seq<Node>, info: Node -> Info, n: Node) {
    var (a, d) := (Asked(refs, info, n), DestOf(refs, info, n));
    && (d.Some? ==> HasParent(s, n, d.value) || n in refused)
    && (n in refused ==> d.Some?)
    && (a.Some? && d.None? ==> HasParent(s, n, Refuge(a.value.name)))
  }

  function ParentKey(info: Node -> Info, n: Node): Key
    requires info(n).Parental()
  {
    Key(n, info(n).parentProperty.value)
  }

  /** A node whose package is not attached is somewhere in its package, below an older node. */
  ghost predicate Stowed(s: Shape, attached: set<Node>, owner: map<Node, Node>, homes: set<Node>, n: Node) {
    && (n in s.parent <==> n in homes)
    && (n in s.parent && n !in attached && n != ORPHANS ==>
      var p := s.parent[n];
      n in owner && p in owner && owner[p] == owner[n] && p !in attached && p < n)
  }

  /** The places of all nodes. */
  ghost predicate PlacedIn(s: Shape, refs: map<Key, seq<Ref>>, refused: seq<Node>, attached: set<Node>,
                           owner: map<Node, Node>, homes: set<Node>, info: Node -> Info,
                           active: set<Key>, noisy: set<Key>) {
    && TOP !in attached && ORPHANS !in attached
    && (forall n {:trigger Home(s, refs, attached, owner, info, n)} | n in attached ::
          Home(s, refs, attached, owner, info, n))
    && (forall n {:trigger Obeyed(s, refs, refused, info, n)}
          | n in attached && info(n).Parental() && ParentKey(info, n) in active ::
          Obeyed(s, refs, refused, info, n))
    && (forall n | n in refused :: info(n).Parental() && ParentKey(info, n) in noisy)
    && (forall n {:trigger Stowed(s, attached, owner, homes, n)} :: Stowed(s, attached, owner, homes, n))
  }

  /** A step that moves or rebinds a single node n changes nothing for the others. */
  lemma PlacedAfter(s: Shape, refs: map<Key, seq<Ref>>, refused: seq<Node>,
                    s': Shape, refs': map<Key, seq<Ref>>, refused': seq<Node>,
                    attached: set<Node>, owner: map<Node, Node>, homes: set<Node>, info: Node -> Info,
                    active: set<Key>, noisy: set<Key>, active': set<Key>, noisy': set<Key>, n: Node)
    requires PlacedIn(s, refs, refused, attached, owner, homes, info, active, noisy)
    requires forall m | m != n :: (m in s.parent <==> m in s'.parent) && (m in s.parent ==> s'.parent[m] == s.parent[m])
    requires forall m | m != n :: Asked(refs', info, m) == Asked(refs, info, m) && (m in refused' <==> m in refused)
    requires forall k: Key | k.node != n :: (k in active' ==> k in active) && (k in noisy ==> k in noisy')
    requires n in attached && n in s.parent && Home(s', refs', attached, owner, info, n)
    requires info(n).Parental() && ParentKey(info, n) in active' ==> Obeyed(s', refs', refused', info, n)
    requires n in refused' ==> info(n).Parental() && ParentKey(info, n) in noisy'
    ensures PlacedIn(s', refs', refused', attached, owner, homes, info, active', noisy')
  {
    assert Stowed(s, attached, owner, homes, n);
    forall m
      ensures Stowed(s', attached, owner, homes, m)
    {
      assert Stowed(s, attached, owner, homes, m);
    }
    forall m | m in attached
      ensures Home(s', refs', attached, owner, info, m)
    {
      if m != n {
        assert Home(s, refs, attached, owner, info, m);
      }
    }
    forall m | m in attached && info(m).Parental() && ParentKey(info, m) in active'
      ensures Obeyed(s', refs', refused', info, m)
    {
      if m != n {
        assert Obeyed(s, refs, refused, info, m);
        assert Home(s, refs, attached, owner, info, m);
      }
    }
  }

  /** Where the nodes are depends on the references only through the parent references. */
  lemma SamePlaces(s: Shape, refs: map<Key, seq<Ref>>, refused: seq<Node>, refs': map<Key, seq<Ref>>,
                   attached: set<Node>, owner: map<Node, Node>, homes: set<Node>, info: Node -> Info,
                   active: set<Key>, noisy: set<Key>)
    requires PlacedIn(s, refs, refused, attached, owner, homes, info, active, noisy)
    requires forall m :: Asked(refs', info, m) == Asked(refs, info, m)
    ensures PlacedIn(s, refs', refused, attached, owner, homes, info, active, noisy)
  {
    forall m | m in attached
      ensures Home(s, refs', attached, owner, info, m)
    {
      assert Home(s, refs, attached, owner, info, m);
    }
    forall m | m in attached && info(m).Parental() && ParentKey(info, m) in active
      ensures Obeyed(s, refs', refused, info, m)
    {
      assert Obeyed(s, refs, refused, info, m);
    }
  }

  /** A property that is no parent property does not matter for the places. */
  lemma OneMore(s: Shape, refs: map<Key, seq<Ref>>, refused: seq<Node>, attached: set<Node>, owner: map<Node, Node>,
                homes: set<Node>, info: Node -> Info, keys: set<Key>, active: set<Key>, noisy: set<Key>, k: Key)
    requires PlacedIn(s, refs, refused, attached, owner, homes, info, keys, noisy)
    requires active <= keys + {k} && !IsParental(k, info)
    ensures PlacedIn(s, refs, refused, attached, owner, homes, info, active, noisy)
  {
  }

  /** Updating a property only affects where the references of that property lead. */
  lemma OtherDests(refs: map<Key, seq<Ref>>, k: Key, rs: seq<Ref>, info: Node -> Info)
    ensures forall m | m != k.node || !IsParental(k, info) :: Asked(refs[k := rs], info, m) == Asked(refs, info, m)
  {
  }

  /** The references, apart from the question whether they are complete. */
  ghost predicate WiredIn(l: Links, lookup: Table, attached: set<Node>, info: Node -> Info,
                          active: set<Key>, noisy: set<Key>) {
    && Tied(l) && Matched(l, active) && Quiet(l, noisy)
    && Shaped(l.refs, info) && Pointing(l.refs, lookup) && Named(lookup, attached, info)
    && active <= noisy
    && (forall k | k in active :: k in l.refs && k.node in attached && k.prop < info(k.node).properties)
    && Sources(l.refs, active)
  }

  /** Only these properties have references that are bound. */
  ghost predicate Sources(refs: map<Key, seq<Ref>>, active: set<Key>) {
    forall k, i | k in refs && k !in active && 0 <= i < |refs[k]| :: refs[k][i].dest.None?
  }

  /** The properties have the same references, bound or not. */
  ghost predicate SameNames(refs: map<Key, seq<Ref>>, refs': map<Key, seq<Ref>>) {
    && refs'.Keys == refs.Keys
    && forall k {:trigger refs'[k]} | k in refs ::
         |refs'[k]| == |refs[k]| && forall i | 0 <= i < |refs[k]| :: refs'[k][i].name == refs[k][i].name
  }

  lemma KeepsThrough(refs: map<Key, seq<Ref>>, refs1: map<Key, seq<Ref>>, refs': map<Key, seq<Ref>>,
                     keys: set<Key>, k: Key)
    requires SameNames(refs, refs1) && SameNames(refs1, refs')
    requires Untouched(refs, refs1, keys) && Untouched(refs1, refs', {k})
    ensures SameNames(refs, refs') && Untouched(refs, refs', keys + {k})
  {
    SameNamesThrough(refs, refs1, refs');
  }

  /** The references of all other properties are as they were. */
  ghost predicate Untouched(refs: map<Key, seq<Ref>>, refs': map<Key, seq<Ref>>, keys: set<Key>) {
    forall k | k in refs && k !in keys :: k in refs' && refs'[k] == refs[k]
  }

  lemma SameNamesThrough(refs: map<Key, seq<Ref>>, refs1: map<Key, seq<Ref>>, refs': map<Key, seq<Ref>>)
    requires SameNames(refs, refs1) && SameNames(refs1, refs')
    ensures SameNames(refs, refs')
  {
    forall k | k in refs
      ensures |refs'[k]| == |refs[k]| && forall i | 0 <= i < |refs[k]| :: refs'[k][i].name == refs[k][i].name
    {
      assert |refs1[k]| == |refs[k]| && forall i | 0 <= i < |refs[k]| :: refs1[k][i].name == refs[k][i].name;
    }
  }

  /** The nodes that are stuck below the toplevel stay so while their parent reference is bound. */
  ghost predicate StayStuck(parent: map<Node, Node>, refused: seq<Node>, refs': map<Key, seq<Ref>>,
                            parent': map<Node, Node>, refused': seq<Node>, info: Node -> Info) {
    forall n | n in Stuck(parent, refused) && DestOf(refs', info, n).Some? :: n in Stuck(parent', refused')
  }

  /** Of the references only those from or to these nodes were let go; all others are as they were. */
  ghost predicate LetsGo(refs: map<Key, seq<Ref>>, refs': map<Key, seq<Ref>>, nodes: seq<Node>) {
    && SameNames(refs, refs')
    && forall k, i {:trigger refs'[k][i]} | k in refs && 0 <= i < |refs[k]| ::
         || refs'[k][i] == refs[k][i]
         || (&& refs'[k][i].dest.None?
             && (k.node in nodes || (refs[k][i].dest.Some? && refs[k][i].dest.value in nodes)))
  }

  lemma LetsGoThrough(refs: map<Key, seq<Ref>>, refs1: map<Key, seq<Ref>>, refs': map<Key, seq<Ref>>, nodes: seq<Node>)
    requires LetsGo(refs, refs1, nodes) && LetsGo(refs1, refs', nodes)
    ensures LetsGo(refs, refs', nodes)
  {
    SameNamesThrough(refs, refs1, refs');
    forall k, i | k in refs && 0 <= i < |refs[k]|
      ensures || refs'[k][i] == refs[k][i]
              || (&& refs'[k][i].dest.None?
                  && (k.node in nodes || (refs[k][i].dest.Some? && refs[k][i].dest.value in nodes)))
    {
      assert refs1[k][i] == refs[k][i] || refs1[k][i].dest.None?;
    }
  }

  /** No parent reference has been bound. */
  ghost predicate StayBound(refs: map<Key, seq<Ref>>, refs': map<Key, seq<Ref>>, info: Node -> Info) {
    forall n | DestOf(refs', info, n).Some? :: DestOf(refs, info, n) == DestOf(refs', info, n)
  }

  lemma LettingGoBindsNone(refs: map<Key, seq<Ref>>, refs': map<Key, seq<Ref>>, nodes: seq<Node>, info: Node -> Info)
    requires LetsGo(refs, refs', nodes)
    ensures StayBound(refs, refs', info)
  {
    forall n | DestOf(refs', info, n).Some?
      ensures DestOf(refs, info, n) == DestOf(refs', info, n)
    {
      var k := ParentKey(info, n);
      assert k in refs && |refs'[k]| == |refs[k]|;
      var r := refs'[k][0];
      assert r.dest.Some? && r == refs[k][0];
    }
  }

  lemma StayStuckThrough(parent: map<Node, Node>, refused: seq<Node>, refs1: map<Key, seq<Ref>>,
                         parent1: map<Node, Node>, refused1: seq<Node>, refs': map<Key, seq<Ref>>,
                         parent': map<Node, Node>, refused': seq<Node>, info: Node -> Info)
    requires StayStuck(parent, refused, refs1, parent1, refused1, info) && StayBound(refs1, refs', info)
    requires StayStuck(parent1, refused1, refs', parent', refused', info)
    ensures StayStuck(parent, refused, refs', parent', refused', info)
  {
  }

  lemma LetsGoMore(refs: map<Key, seq<Ref>>, refs': map<Key, seq<Ref>>, n: Node, nodes: seq<Node>)
    requires LetsGo(refs, refs', [n]) && n in nodes
    ensures LetsGo(refs, refs', nodes)
  {
    forall k, i | k in refs && 0 <= i < |refs[k]|
      ensures || refs'[k][i] == refs[k][i]
              || (&& refs'[k][i].dest.None?
                  && (k.node in nodes || (refs[k][i].dest.Some? && refs[k][i].dest.value in nodes)))
    {
      assert refs'[k][i] == refs[k][i] || refs'[k][i].dest.None?;
    }
  }

  lemma CreateWires(l: Links, lookup: Table, attached: set<Node>, info: Node -> Info,
                    active: set<Key>, noisy: set<Key>, k: Key, name: string, d: Node)
    requires WiredIn(l, lookup, attached, info, active, noisy)
    requires k in active && Live(l, k, name) > 0 && name in lookup && lookup[name] == d
    ensures First(l.refs[k], OpenFor(name)) < |l.refs[k]|
    ensures WiredIn(Create(l, k, name, d), lookup, attached, info, active, noisy)
    ensures SameNames(l.refs, Create(l, k, name, d).refs)
    ensures Create(l, k, name, d) == SettleConflict(BindRef(l, k, First(l.refs[k], OpenFor(name)), d), k, name)
    ensures IsParental(k, info) ==>
              && Create(l, k, name, d) == CreateOnly(l, k, d) && d != k.node
              && l.refs[k][0].dest == None && DestOf(Create(l, k, name, d).refs, info, k.node) == Some(d)
    ensures forall m | m != k.node || !IsParental(k, info) ::
              Asked(Create(l, k, name, d).refs, info, m) == Asked(l.refs, info, m)
  {
    CreateKeeps(l, active, noisy, k, name, d);
    var i := First(l.refs[k], OpenFor(name));
    OtherDests(l.refs, k, l.refs[k][i := l.refs[k][i].(dest := Some(d))], info);
    if IsParental(k, info) {
      OnlyIsFirst(l, active, noisy, k, name, d);
    }
  }

  lemma DestroyWires(l: Links, lookup: Table, attached: set<Node>, info: Node -> Info,
                     active: set<Key>, noisy: set<Key>, k: Key, d: Node)
    requires WiredIn(l, lookup, attached, info, active, noisy)
    requires k in active && k in Get(l.referrers, d)
    ensures WiredIn(Destroy(l, k, d), lookup, attached, info, active, noisy)
    ensures |Get(Destroy(l, k, d).referrers, d)| == |Get(l.referrers, d)| - 1
    ensures forall d' | d' != d :: Get(Destroy(l, k, d).referrers, d') == Get(l.referrers, d')
    ensures LetsGo(l.refs, Destroy(l, k, d).refs, [d])
  {
    DestroyKeeps(l, active, noisy, k, d);
  }

  lemma DestroyLeads(l: Links, lookup: Table, attached: set<Node>, info: Node -> Info,
                     active: set<Key>, noisy: set<Key>, k: Key, d: Node)
    requires WiredIn(l, lookup, attached, info, active, noisy)
    requires k in active && k in Get(l.referrers, d)
    ensures IsParental(k, info) ==>
              && Destroy(l, k, d) == DestroyOnly(l, k)
              && l.refs[k][0].name != ""
              && Asked(Destroy(l, k, d).refs, info, k.node) == Some(Ref(l.refs[k][0].name, None))
    ensures forall m | m != k.node || !IsParental(k, info) ::
              Asked(Destroy(l, k, d).refs, info, m) == Asked(l.refs, info, m)
  {
    DestroyKeeps(l, active, noisy, k, d);
    var i := First(l.refs[k], BoundTo(d));
    OtherDests(l.refs, k, l.refs[k][i := l.refs[k][i].(dest := None)], info);
    if IsParental(k, info) {
      OnlyIsFirst(l, active, noisy, k, l.refs[k][0].name, d);
    }
  }

  lemma LoadWires(l: Links, lookup: Table, attached: set<Node>, info: Node -> Info,
                  active: set<Key>, noisy: set<Key>, k: Key)
    requires WiredIn(l, lookup, attached, info, active, noisy)
    requires k !in noisy && k in l.refs && k.node in attached && k.prop < info(k.node).properties
    requires forall i | 0 <= i < |l.refs[k]| :: l.refs[k][i].dest.None?
    ensures var l' := LoadRefs(l, k, 0, lookup);
            && WiredIn(l', lookup, attached, info, active + {k}, noisy + {k})
            && SameNames(l.refs, l'.refs)
            && Untouched(l.refs, l'.refs, {k})
  {
    LoadKeeps(l, active, noisy, k, 0, lookup);
  }

  lemma LoadLeads(l: Links, lookup: Table, attached: set<Node>, info: Node -> Info,
                  active: set<Key>, noisy: set<Key>, k: Key)
    requires WiredIn(l, lookup, attached, info, active, noisy) && k !in noisy && k in l.refs
    requires forall i | 0 <= i < |l.refs[k]| :: l.refs[k][i].dest.None?
    ensures IsParental(k, info) ==>
              var name := l.refs[k][0].name;
              DestOf(LoadRefs(l, k, 0, lookup).refs, info, k.node)
                == if name != "" && name in lookup then Some(lookup[name]) else None
  {
    LoadKeeps(l, active, noisy, k, 0, lookup);
  }

  /** A property has been loaded: if it is the parent property of its node, that leads to what its name
      stands for, and no other parent reference leads elsewhere. */
  ghost predicate Leads(refs: map<Key, seq<Ref>>, refs': map<Key, seq<Ref>>, lookup: Table, info: Node -> Info,
                        k: Key) {
    && (IsParental(k, info) && k in refs' && refs'[k] != [] ==>
          && DestOf(refs, info, k.node) == None
          && DestOf(refs', info, k.node) == Resolved(refs'[k][0], lookup).dest)
    && (forall m | m != k.node || !IsParental(k, info) :: Asked(refs', info, m) == Asked(refs, info, m))
  }

  lemma LoadMovesNoOther(l: Links, lookup: Table, attached: set<Node>, info: Node -> Info,
                         active: set<Key>, noisy: set<Key>, k: Key)
    requires WiredIn(l, lookup, attached, info, active, noisy) && k !in noisy && k in l.refs
    requires forall i | 0 <= i < |l.refs[k]| :: l.refs[k][i].dest.None?
    ensures forall m | m != k.node || !IsParental(k, info) ::
              Asked(LoadRefs(l, k, 0, lookup).refs, info, m) == Asked(l.refs, info, m)
  {
    LoadKeeps(l, active, noisy, k, 0, lookup);
  }

  lemma UnbindingLetsGo(refs: map<Key, seq<Ref>>, refs': map<Key, seq<Ref>>, k: Key)
    requires k in refs && refs'.Keys == refs.Keys && forall k' | k' in refs && k' != k :: refs'[k'] == refs[k']
    requires AreResolved(refs'[k], refs[k], map[])
    ensures LetsGo(refs, refs', [k.node])
  {
  }

  lemma UnloadWires(l: Links, lookup: Table, attached: set<Node>, info: Node -> Info,
                    active: set<Key>, noisy: set<Key>, k: Key)
    requires WiredIn(l, lookup, attached, info, active, noisy) && k in active
    ensures WiredIn(UnloadRefs(l, k, 0), lookup, attached, info, active - {k}, noisy)
  {
    UnloadKeeps(l, k, 0);
    var l' := UnloadRefs(l, k, 0);
    forall k', n
      ensures Live(l', k', n) == Live(l, k', n)
      ensures k' != k ==> Open(l', k', n) == Open(l, k', n)
    {
    }
  }

  lemma UnloadLetsGo(l: Links, k: Key)
    requires Tied(l) && k in l.refs
    ensures var l' := UnloadRefs(l, k, 0);
            && LetsGo(l.refs, l'.refs, [k.node])
            && Untouched(l.refs, l'.refs, {k})
            && k in l'.refs && (forall i | 0 <= i < |l'.refs[k]| :: l'.refs[k][i].dest.None?)
  {
    UnloadKeeps(l, k, 0);
    UnbindingLetsGo(l.refs, UnloadRefs(l, k, 0).refs, k);
  }

  lemma UnloadLeads(l: Links, info: Node -> Info, k: Key)
    requires Tied(l) && k in l.refs
    ensures var l' := UnloadRefs(l, k, 0);
            && (IsParental(k, info) ==> DestOf(l'.refs, info, k.node) == None)
            && (forall m | m != k.node || !IsParental(k, info) :: Asked(l'.refs, info, m) == Asked(l.refs, info, m))
  {
    UnloadLetsGo(l, k);
  }

  /** Nodes belong to loadables, and loadables to themselves. */
  ghost predicate OwnedIn(owner: map<Node, Node>, attached: set<Node>, info: Node -> Info) {
    forall n {:trigger Owned(owner, attached, info, n)} | n in attached :: Owned(owner, attached, info, n)
  }

  ghost predicate Owned(owner: map<Node, Node>, attached: set<Node>, info: Node -> Info, n: Node) {
    && n in owner && owner[n] in attached && owner[n] in owner && owner[owner[n]] == owner[n]
    && info(owner[n]).loadable && info(owner[n]).container && (info(n).loadable ==> owner[n] == n)
  }

  // ---------------------------------------------------------------------------------------
  // Packages.

  /** A property of one of several nodes. */
  predicate OneOf(info: Node -> Info, nodes: seq<Node>, k: Key) {
    k.node in nodes && k.prop < info(k.node).properties
  }

  ghost predicate Distinct(nodes: seq<Node>) {
    forall i, j | 0 <= i < j < |nodes| :: nodes[i] != nodes[j]
  }

  /** The first properties of a node. */
  ghost function KeysOf(n: Node, count: nat): set<Key> {
    set j | 0 <= j < count :: Key(n, j)
  }

  lemma KeysStep(n: Node, j: nat)
    ensures KeysOf(n, j + 1) == KeysOf(n, j) + {Key(n, j)}
  {
    forall k | k in KeysOf(n, j + 1)
      ensures k in KeysOf(n, j) || k == Key(n, j)
    {
      var i :| 0 <= i < j + 1 && k == Key(n, i);
      assert i < j ==> Key(n, i) in KeysOf(n, j);
    }
  }

  /** All properties of some nodes. */
  ghost function KeysOfAll(info: Node -> Info, nodes: seq<Node>): set<Key> {
    if nodes == [] then {}
    else
      var n := nodes[|nodes| - 1];
      KeysOfAll(info, nodes[..|nodes| - 1]) + KeysOf(n, info(n).properties)
  }

  lemma {:induction false} KeysOfAllAre(info: Node -> Info, nodes: seq<Node>)
    ensures forall k :: k in KeysOfAll(info, nodes) <==> OneOf(info, nodes, k)
  {
    if nodes != [] {
      var n := nodes[|nodes| - 1];
      KeysOfAllAre(info, nodes[..|nodes| - 1]);
      assert forall m :: m in nodes <==> m in nodes[..|nodes| - 1] || m == n;
      assert forall k :: k in KeysOf(n, info(n).properties) <==> k.node == n && k.prop < info(n).properties by {
        forall k: Key | k.node == n && k.prop < info(n).properties
          ensures k in KeysOf(n, info(n).properties)
        {
          assert k == Key(n, k.prop);
        }
      }
    }
  }

  lemma KeysOfAllStep(info: Node -> Info, nodes: seq<Node>, a: nat)
    requires a < |nodes|
    ensures KeysOfAll(info, nodes[..a + 1]) == KeysOfAll(info, nodes[..a]) + KeysOf(nodes[a], info(nodes[a]).properties)
  {
    assert nodes[..a + 1][..a] == nodes[..a];
  }

  lemma MoreKeys(info: Node -> Info, keys: set<Key>, nodes: seq<Node>, a: nat)
    requires a < |nodes|
    ensures keys + KeysOfAll(info, nodes[..a]) + KeysOf(nodes[a], info(nodes[a]).properties)
         == keys + KeysOfAll(info, nodes[..a + 1])
  {
    KeysOfAllStep(info, nodes, a);
  }

  /** Nothing is known yet of the references of these nodes. */
  ghost predicate Unbound(refs: map<Key, seq<Ref>>, info: Node -> Info, noisy: set<Key>, nodes: seq<Node>) {
    forall k | OneOf(info, nodes, k) ::
      k in refs && k !in noisy && forall i | 0 <= i < |refs[k]| :: refs[k][i].dest.None?
  }

  /** No reference leads to any of these nodes. */
  ghost predicate NoneLeadsTo(refs: map<Key, seq<Ref>>, nodes: seq<Node>) {
    forall k, i | k in refs && 0 <= i < |refs[k]| && refs[k][i].dest.Some? :: refs[k][i].dest.value !in nodes
  }

  /** A node without referrers is no reference's destination. */
  lemma NoReferrersNoneLeads(l: Links, nodes: seq<Node>)
    requires Tied(l) && forall n | n in nodes :: Get(l.referrers, n) == []
    ensures NoneLeadsTo(l.refs, nodes)
  {
    forall k, i | k in l.refs && 0 <= i < |l.refs[k]| && l.refs[k][i].dest.Some?
      ensures l.refs[k][i].dest.value !in nodes
    {
      var n := l.refs[k][i].dest.value;
      TallyZero(Get(l.referrers, n), Is(k));
      TallyZero(l.refs[k], BoundTo(n));
      assert BoundTo(n)(l.refs[k][i]);
    }
  }

  /** Once their conflicts are cleared, unloaded nodes make no noise. */
  lemma ClearWires(l: Links, lookup: Table, attached: set<Node>, info: Node -> Info,
                   active: set<Key>, noisy: set<Key>, nodes: seq<Node>, cleared: set<Node>)
    requires WiredIn(l, lookup, attached, info, active, noisy)
    requires noisy - active == KeysOfAll(info, nodes) && active !! KeysOfAll(info, nodes)
    requires forall n :: n in cleared <==> n in nodes
    ensures WiredIn(ClearNodes(l, cleared), lookup, attached, info, active, active)
  {
    ClearNodesCounts(l, cleared);
    KeysOfAllAre(info, nodes);
    var l' := ClearNodes(l, cleared);
    forall k, n | k in active
      ensures Live(l', k, n) == Live(l, k, n) && Open(l', k, n) == Open(l, k, n)
    {
      assert !OneOf(info, nodes, k);
    }
    forall k, n | k !in active
      ensures Live(l', k, n) == 0
    {
      assert k in noisy ==> OneOf(info, nodes, k);
    }
  }

  /** Clearing the refusals of nodes that are being unloaded leaves the others in place. */
  lemma SilencedPlaces(s: Shape, refs: map<Key, seq<Ref>>, refused: seq<Node>, refused': seq<Node>, attached: set<Node>,
                       owner: map<Node, Node>, homes: set<Node>, info: Node -> Info,
                       active: set<Key>, noisy: set<Key>, nodes: seq<Node>)
    requires PlacedIn(s, refs, refused, attached, owner, homes, info, active, noisy)
    requires noisy - active == KeysOfAll(info, nodes) && active !! KeysOfAll(info, nodes)
    requires forall k | k in active :: k.prop < info(k.node).properties
    requires forall n :: n in refused' <==> n in refused && n !in nodes
    ensures PlacedIn(s, refs, refused', attached, owner, homes, info, active, active)
  {
    KeysOfAllAre(info, nodes);
    forall n | n in attached && info(n).Parental() && ParentKey(info, n) in active
      ensures Obeyed(s, refs, refused', info, n)
    {
      assert Obeyed(s, refs, refused, info, n);
      assert !OneOf(info, nodes, ParentKey(info, n));
    }
    forall n | n in refused'
      ensures info(n).Parental() && ParentKey(info, n) in active
    {
      assert !OneOf(info, nodes, ParentKey(info, n));
    }
  }

  /** No conflict waits for a name that the table knows by now. */
  ghost predicate NoneWaits(l: Links, lookup: Table) {
    && (forall i | 0 <= i < |l.added| :: l.added[i].name !in lookup)
    && (forall j | 0 <= j < |l.standing| && !l.standing[j].cleared :: l.standing[j].conflict.name !in lookup)
  }

  /** When no conflict waits in vain, no reference does. */
  lemma NoneWaitsIsComplete(l: Links, lookup: Table, attached: set<Node>, info: Node -> Info,
                            active: set<Key>, noisy: set<Key>)
    requires WiredIn(l, lookup, attached, info, active, noisy) && NoneWaits(l, lookup)
    ensures Complete(l.refs, lookup, active)
  {
    forall k, i | k in active && 0 <= i < |l.refs[k]|
      ensures l.refs[k][i] == Resolved(l.refs[k][i], lookup)
    {
      var r := l.refs[k][i];
      if r.dest.None? && r.name != "" {
        assert OpenFor(r.name)(l.refs[k][i]);
        TallyZero(l.refs[k], OpenFor(r.name));
        TallyZero(l.added, For(k, r.name));
        TallyZero(l.standing, LiveFor(k, r.name));
        assert Live(l, k, r.name) == Open(l, k, r.name);
      }
    }
  }

  /** Where a loadable was when it was taken out: in the contents of the toplevel, and among the
      loadables (remove_node_container_position and remove_node_loadables_position). */
  datatype Place = Place(position: nat, index: nat)

  datatype Care = ForReferences | ForPlaces | ForConflicts

  class Toplevel {
    const info: Node -> Info
    const names: Key -> seq<string>  // the references of each property, as parsed
    const b: Bindings
    const t: Tree
    var lookup: Table
    var attached: set<Node>          // the nodes whose toplevel field is set, other than the orphans' container
    var owner: map<Node, Node>
    var owned: map<Node, seq<Node>>
    var loadables: seq<Node>
    var place: map<Node, Place>      // of loadables that have been taken out
    var next: Node                   // nodes are numbered in the order of their construction
    ghost var active: set<Key>       // the properties whose references are all accounted for
    ghost var noisy: set<Key>        // the properties that may have live conflicts
    ghost var homes: set<Node>       // the nodes that have a parent
    ghost var filed: seq<Unresolved> // the conflicts of the configuration when the transaction started

    constructor (info: Node -> Info, names: Key -> seq<string>)
      requires info(TOP).container && info(ORPHANS).container && !info(ORPHANS).Parental()
      requires info(ORPHANS).name == "orphans"
      ensures this.info == info && this.names == names && fresh(b) && fresh(t)
      ensures Sane() && attached == {} && active == noisy == {}
      ensures owner == map[] && owned == map[] && loadables == [] && next == 2 && b.refs == map[] && homes == {ORPHANS}
      ensures place == map[] && b.added == [] && b.standing == []
    {
      this.info, this.names := info, names;
      place, next, homes := map[], 2, {ORPHANS};
      b := new Bindings();
      t := new Tree(info);
      lookup, attached, owner, owned, loadables := map["orphans" := ORPHANS], {}, map[], map[], [];
      active, noisy, filed := {}, {}, [];
      new;
      MakesSane();
    }

    /** The cares of the toplevel: its references, the places of its nodes, and its conflicts. */
    ghost predicate Kept(c: Care)
      reads `lookup, `attached, `owner, `active, `noisy, `homes, `filed, b, t
    {
      match c
      case ForReferences => Wired()
      case ForPlaces => Placed()
      case ForConflicts => Remembers(b.View(), filed)
    }

    ghost predicate Sane()
      reads `lookup, `attached, `owner, `active, `noisy, `homes, `filed, b, t
    {
      Unkept() == {}
    }

    ghost function Unkept(): set<Care>
      reads `lookup, `attached, `owner, `active, `noisy, `homes, `filed, b, t
    {
      set c: Care | !Kept(c)
    }

    lemma SaneGives()
      requires Sane()
      ensures Wired() && Placed() && Remembers(b.View(), filed)
    {
      assert ForReferences !in Unkept() && ForPlaces !in Unkept() && ForConflicts !in Unkept();
    }

    lemma ActiveAreKnown()
      requires Sane()
      ensures forall k | k in active :: k in b.refs && k.node in attached
    {
      SaneGives();
    }

    lemma MakesSane()
      requires Wired() && Placed() && Remembers(b.View(), filed)
      ensures Sane()
    {
    }

    ghost predicate Wired()
      reads `lookup, `attached, `active, `noisy, b
    {
      WiredIn(b.View(), lookup, attached, info, active, noisy)
    }

    /** The places of the nodes. */
    ghost predicate Placed()
      reads `lookup, `attached, `owner, `active, `noisy, `homes, `filed, b, t
    {
      && t.Valid() && t.info == info
      && PlacedIn(t.View(), b.refs, t.refused, attached, owner, homes, info, active, noisy)
    }

    /** CdlProperty::update for Created. */
    method UpdateCreated(k: Key, name: string, d: Node)
      requires Sane()
      requires k in active && k in b.refs && Live(b.View(), k, name) > 0 && name in lookup && lookup[name] == d
      modifies b, t
      ensures Sane() && b.View() == Create(old(b.View()), k, name, d)
      ensures SameNames(old(b.refs), b.refs) && old(t.StuckNodes()) <= t.StuckNodes()
    {
      SaneGives();
      CreateWires(b.View(), lookup, attached, info, active, noisy, k, name, d);
      CreateRemembers(b.View(), filed, k, name, d);
      if IsParental(k, info) {
        NotRefused(k);
        b.CreatedOnly(k, d);
        MoveTo(k, d, old(b.refs), active);
      } else {
        b.Created(k, name, d);
        SamePlaces(t.View(), old(b.refs), t.refused, b.refs, attached, owner, homes, info, active, noisy);
      }
      MakesSane();
    }

    /** The update handler of a parent property whose reference has just been bound. */
    method MoveTo(k: Key, d: Node, ghost refs: map<Key, seq<Ref>>, ghost keys: set<Key>)
      requires t.Valid() && t.info == info && IsParental(k, info) && k.node in attached && d != k.node
      requires k.node !in t.refused
      requires PlacedIn(t.View(), refs, t.refused, attached, owner, homes, info, keys, noisy) && active <= keys + {k}
      requires DestOf(refs, info, k.node) == None && DestOf(b.refs, info, k.node) == Some(d)
      requires forall m | m != k.node :: Asked(b.refs, info, m) == Asked(refs, info, m)
      requires k in active && k in noisy && d in attached + {ORPHANS}
      modifies t
      ensures Placed() && old(t.StuckNodes()) <= t.StuckNodes()
    {
      var n := k.node;
      assert Home(t.View(), refs, attached, owner, info, n);
      assert d != ORPHANS ==> Home(t.View(), refs, attached, owner, info, d);
      t.OnFound(n, d);
      PlacedAfter(old(t.View()), refs, old(t.refused), t.View(), b.refs, t.refused,
                  attached, owner, homes, info, keys, noisy, active, noisy, n);
    }

    /** The update handler of a parent property without a destination. */
    method MoveAway(k: Key, name: string, ghost refs: map<Key, seq<Ref>>, ghost keys: set<Key>)
      requires t.Valid() && t.info == info && IsParental(k, info) && k.node in attached
      requires PlacedIn(t.View(), refs, t.refused, attached, owner, homes, info, keys, noisy) && active <= keys + {k}
      requires Asked(b.refs, info, k.node) == Some(Ref(name, None))
      requires forall m | m != k.node :: Asked(b.refs, info, m) == Asked(refs, info, m)
      modifies t
      ensures Placed() && t.parent == old(t.parent)[k.node := Refuge(name)]
      ensures forall m :: m in t.refused <==> m in old(t.refused) && m != k.node
    {
      var n := k.node;
      assert Home(t.View(), refs, attached, owner, info, n);
      OthersAre(t.refused, n);
      t.OnlyTopAbove(n, ORPHANS);
      t.OnMissing(n, name == "");
      PlacedAfter(old(t.View()), refs, old(t.refused), t.View(), b.refs, t.refused,
                  attached, owner, homes, info, keys, noisy, active, noisy, n);
    }

    /** A node without a destination moves, and is not refused any more. */
    lemma OneGoesAway(parent: map<Node, Node>, refused: seq<Node>, refs': map<Key, seq<Ref>>,
                      parent': map<Node, Node>, refused': seq<Node>, n: Node)
      requires forall m | m != n && m in parent :: m in parent' && parent'[m] == parent[m]
      requires forall m | m in parent' :: m in parent || m == n
      requires forall m :: m in refused' <==> m in refused && m != n
      ensures Stuck(parent', refused') <= Stuck(parent, refused)
      ensures DestOf(refs', info, n) == None ==> StayStuck(parent, refused, refs', parent', refused', info)
      ensures n !in refused ==> Stuck(parent, refused) <= Stuck(parent', refused')
    {
    }

    /** A node whose parent reference is not bound was not refused. */
    lemma NotRefused(k: Key)
      requires Sane() && k in active && IsParental(k, info) && DestOf(b.refs, info, k.node) == None
      ensures k.node !in t.refused
    {
      SaneGives();
      assert Obeyed(t.View(), b.refs, t.refused, info, k.node);
    }

    /** CdlProperty::update for Destroyed. */
    method UpdateDestroyed(k: Key, d: Node)
      requires Sane() && k in active && k in b.refs && k in Get(b.referrers, d)
      modifies b, t
      ensures Sane() && b.View() == Destroy(old(b.View()), k, d)
      ensures |Get(b.referrers, d)| == |Get(old(b.referrers), d)| - 1
      ensures forall d' | d' != d :: Get(b.referrers, d') == Get(old(b.referrers), d')
      ensures LetsGo(old(b.refs), b.refs, [d])
      ensures StayStuck(old(t.parent), old(t.refused), b.refs, t.parent, t.refused, info)
      ensures t.StuckNodes() <= old(t.StuckNodes())
    {
      SaneGives();
      DestroyWires(b.View(), lookup, attached, info, active, noisy, k, d);
      DestroyRemembers(b.View(), filed, k, d);
      DestroyAndMove(k, d);
      MakesSane();
    }

    /** The reference is unbound, and a node whose parent reference it was moves. */
    method DestroyAndMove(k: Key, d: Node)
      requires Wired() && Placed() && k in active && k in b.refs && k in Get(b.referrers, d)
      modifies b, t
      ensures Placed() && b.View() == Destroy(old(b.View()), k, d)
      ensures StayStuck(old(t.parent), old(t.refused), b.refs, t.parent, t.refused, info)
      ensures t.StuckNodes() <= old(t.StuckNodes())
    {
      DestroyLeads(b.View(), lookup, attached, info, active, noisy, k, d);
      if IsParental(k, info) {
        var name := b.refs[k][0].name;
        b.DestroyedOnly(k);
        MoveAway(k, name, old(b.refs), active);
        OneGoesAway(old(t.parent), old(t.refused), b.refs, t.parent, t.refused, k.node);
      } else {
        b.Destroyed(k, d);
        SamePlaces(t.View(), old(b.refs), t.refused, b.refs, attached, owner, homes, info, active, noisy);
      }
    }

    lemma CanLoad(k: Key)
      requires Sane() && k !in noisy && k in b.refs
      requires k.node in attached && k.prop < info(k.node).properties
      requires forall i | 0 <= i < |b.refs[k]| :: b.refs[k][i].dest.None?
      ensures IsParental(k, info) ==> k.node !in t.refused
      ensures t.Valid() && t.info == info && Remembers(b.View(), filed)
      ensures PlacedIn(t.View(), b.refs, t.refused, attached, owner, homes, info, active, noisy + {k})
      ensures var l' := LoadRefs(b.View(), k, 0, lookup);
              && WiredIn(l', lookup, attached, info, active + {k}, noisy + {k})
              && SameNames(b.refs, l'.refs) && Untouched(b.refs, l'.refs, {k})
              && Leads(b.refs, l'.refs, lookup, info, k)
    {
      SaneGives();
      LoadWires(b.View(), lookup, attached, info, active, noisy, k);
      LoadLeads(b.View(), lookup, attached, info, active, noisy, k);
      LoadMovesNoOther(b.View(), lookup, attached, info, active, noisy, k);
    }

    /** CdlProperty::update for Loaded. */
    method UpdateLoaded(k: Key)
      requires Sane() && k !in noisy && k in b.refs
      requires k.node in attached && k.prop < info(k.node).properties
      requires forall i | 0 <= i < |b.refs[k]| :: b.refs[k][i].dest.None?
      modifies b, t, this`active, this`noisy
      ensures Sane() && b.View() == LoadRefs(old(b.View()), k, 0, lookup)
      ensures active == old(active) + {k} && noisy == old(noisy) + {k}
      ensures SameNames(old(b.refs), b.refs)
      ensures Untouched(old(b.refs), b.refs, {k}) && old(t.StuckNodes()) <= t.StuckNodes()
    {
      CanLoad(k);
      LoadAndMove(k);
    }

    method LoadAndMove(k: Key)
      requires t.Valid() && t.info == info && Remembers(b.View(), filed) && k.node in attached && k in b.refs
      requires forall i | 0 <= i < |b.refs[k]| :: b.refs[k][i].dest.None?
      requires PlacedIn(t.View(), b.refs, t.refused, attached, owner, homes, info, active, noisy + {k})
      requires var l' := LoadRefs(b.View(), k, 0, lookup);
               WiredIn(l', lookup, attached, info, active + {k}, noisy + {k}) && Leads(b.refs, l'.refs, lookup, info, k)
      requires IsParental(k, info) ==> k.node !in t.refused
      modifies b, t, this`active, this`noisy
      ensures Sane() && b.View() == LoadRefs(old(b.View()), k, 0, lookup) && old(t.StuckNodes()) <= t.StuckNodes()
      ensures active == old(active) + {k} && noisy == old(noisy) + {k}
    {
      ghost var refs, keys := b.refs, active;
      LoadBindings(k);
      FindPlace(k, refs, keys);
    }

    method LoadBindings(k: Key)
      requires k in b.refs && Remembers(b.View(), filed) && forall i | 0 <= i < |b.refs[k]| :: b.refs[k][i].dest.None?
      requires WiredIn(LoadRefs(b.View(), k, 0, lookup), lookup, attached, info, active + {k}, noisy + {k})
      modifies b, this`active, this`noisy
      ensures b.View() == LoadRefs(old(b.View()), k, 0, lookup) && Wired() && Remembers(b.View(), filed)
      ensures active == old(active) + {k} && noisy == old(noisy) + {k}
    {
      active, noisy := active + {k}, noisy + {k};
      b.Loaded(k, lookup);
    }

    /** What follows for the place of the node. */
    method FindPlace(k: Key, ghost refs: map<Key, seq<Ref>>, ghost keys: set<Key>)
      requires t.Valid() && t.info == info && k.node in attached && k in active && k in noisy
      requires PlacedIn(t.View(), refs, t.refused, attached, owner, homes, info, keys, noisy) && active <= keys + {k}
      requires Wired() && Remembers(b.View(), filed) && k in b.refs
      requires Leads(refs, b.refs, lookup, info, k) && (IsParental(k, info) ==> k.node !in t.refused)
      modifies t
      ensures Sane() && old(t.StuckNodes()) <= t.StuckNodes()
    {
      if IsParental(k, info) {
        MoveHome(k, refs, keys);
      } else {
        OneMore(t.View(), refs, t.refused, attached, owner, homes, info, keys, active, noisy, k);
        SamePlaces(t.View(), refs, t.refused, b.refs, attached, owner, homes, info, active, noisy);
      }
      MakesSane();
    }

    /** The update handler of a parent property that has just been loaded. */
    method MoveHome(k: Key, ghost refs: map<Key, seq<Ref>>, ghost keys: set<Key>)
      requires t.Valid() && t.info == info && IsParental(k, info) && k.node in attached
      requires PlacedIn(t.View(), refs, t.refused, attached, owner, homes, info, keys, noisy) && active <= keys + {k}
      requires Named(lookup, attached, info) && Shaped(b.refs, info) && k in b.refs
      requires DestOf(refs, info, k.node) == None && k in active && k in noisy && k.node !in t.refused
      requires var name := b.refs[k][0].name;
               DestOf(b.refs, info, k.node) == if name != "" && name in lookup then Some(lookup[name]) else None
      requires forall m | m != k.node :: Asked(b.refs, info, m) == Asked(refs, info, m)
      modifies t
      ensures Placed() && old(t.StuckNodes()) <= t.StuckNodes()
    {
      var name := b.refs[k][0].name;
      if name != "" && name in lookup {
        MoveTo(k, lookup[name], refs, keys);
      } else {
        MoveAway(k, name, refs, keys);
        OneGoesAway(old(t.parent), old(t.refused), b.refs, t.parent, t.refused, k.node);
      }
    }

    /** CdlProperty::update for Unloading. */
    method UpdateUnloading(k: Key)
      requires Sane() && k in active && k in b.refs && Owned(owner, attached, info, k.node)
      requires !info(k.node).loadable ==> HasParent(t.View(), owner[k.node], TOP)
      modifies b, t, this`active
      ensures Sane() && b.View() == UnloadRefs(old(b.View()), k, 0)
      ensures active == old(active) - {k}
      ensures LetsGo(old(b.refs), b.refs, [k.node]) && t.refused == old(t.refused)
      ensures t.parent == if IsParental(k, info)
                          then old(t.parent)[k.node := if info(k.node).loadable then TOP else owner[k.node]]
                          else old(t.parent)
    {
      SaneGives();
      UnloadWires(b.View(), lookup, attached, info, active, noisy, k);
      UnloadLetsGo(b.View(), k);
      UnloadLeads(b.View(), info, k);
      assert Home(t.View(), b.refs, attached, owner, info, k.node);
      PlacedAfter(t.View(), b.refs, t.refused, t.View(), b.refs, t.refused,
                  attached, owner, homes, info, active, noisy, active - {k}, noisy, k.node);
      active := active - {k};
      b.Unloading(k);
      if IsParental(k, info) {
        MoveBack(k, old(b.refs));
      } else {
        SamePlaces(t.View(), old(b.refs), t.refused, b.refs, attached, owner, homes, info, active, noisy);
      }
      MakesSane();
    }

    /** The update handler of a parent property whose package is being unloaded. */
    method MoveBack(k: Key, ghost refs: map<Key, seq<Ref>>)
      requires t.Valid() && t.info == info && IsParental(k, info) && k.node in attached && k !in active
      requires Owned(owner, attached, info, k.node)
      requires PlacedIn(t.View(), refs, t.refused, attached, owner, homes, info, active, noisy)
      requires DestOf(b.refs, info, k.node) == None
      requires forall m | m != k.node :: Asked(b.refs, info, m) == Asked(refs, info, m)
      requires !info(k.node).loadable ==> HasParent(t.View(), owner[k.node], TOP)
      modifies t
      ensures Placed() && t.refused == old(t.refused)
      ensures t.parent == old(t.parent)[k.node := if info(k.node).loadable then TOP else owner[k.node]]
    {
      var n := k.node;
      assert Home(t.View(), refs, attached, owner, info, n);
      if !info(n).loadable {
        t.OnlyTopAbove(n, owner[n]);
      }
      t.OnUnloading(n, owner[n]);
      PlacedAfter(old(t.View()), refs, t.refused, t.View(), b.refs, t.refused,
                  attached, owner, homes, info, active, noisy, active, noisy, n);
    }

    /** The first part of CdlLoadableBody::bind for one node. */
    method LoadNode(n: Node)
      requires Sane() && n in attached && Unbound(b.refs, info, noisy, [n])
      modifies b, t, this`active, this`noisy
      ensures Sane() && SameNames(old(b.refs), b.refs) && old(t.StuckNodes()) <= t.StuckNodes()
      ensures Untouched(old(b.refs), b.refs, KeysOf(n, info(n).properties))
      ensures active == old(active) + KeysOf(n, info(n).properties)
      ensures noisy == old(noisy) + KeysOf(n, info(n).properties)
    {
      var j := 0;
      while j < info(n).properties
        invariant j <= info(n).properties
        invariant Sane() && SameNames(old(b.refs), b.refs) && old(t.StuckNodes()) <= t.StuckNodes()
        invariant Untouched(old(b.refs), b.refs, KeysOf(n, j))
        invariant active == old(active) + KeysOf(n, j) && noisy == old(noisy) + KeysOf(n, j)
      {
        ghost var refs := b.refs;
        assert OneOf(info, [n], Key(n, j)) && Key(n, j) !in KeysOf(n, j);
        KeysStep(n, j);
        assert active + {Key(n, j)} == old(active) + KeysOf(n, j + 1);
        assert noisy + {Key(n, j)} == old(noisy) + KeysOf(n, j + 1);
        UpdateLoaded(Key(n, j));
        KeepsThrough(old(b.refs), refs, b.refs, KeysOf(n, j), Key(n, j));
        j := j + 1;
      }
    }

    /** Created updates for the conflicts that the transaction has made. */
    method ResolveAdded()
      requires Sane() && active == noisy
      modifies b, t
      ensures Sane() && SameNames(old(b.refs), b.refs) && old(t.StuckNodes()) <= t.StuckNodes()
      ensures forall i | 0 <= i < |b.added| :: b.added[i].name !in lookup
    {
      var i := 0;
      while i < |b.added|
        invariant i <= |b.added|
        invariant Sane() && SameNames(old(b.refs), b.refs) && old(t.StuckNodes()) <= t.StuckNodes()
        invariant forall j | 0 <= j < i :: b.added[j].name !in lookup
        decreases |b.added| - i
      {
        if b.added[i].name in lookup {
          ghost var refs := b.refs;
          ResolveAt(i);
          SameNamesThrough(old(b.refs), refs, b.refs);
        } else {
          i := i + 1;
        }
      }
    }

    /** The update for one conflict. It is the first of its kind, so it is the one that goes away
        while the iteration stands at it. */
    method ResolveAt(i: nat)
      requires Sane() && active == noisy && i < |b.added| && b.added[i].name in lookup
      requires forall j | 0 <= j < i :: b.added[j].name !in lookup
      modifies b, t
      ensures Sane() && SameNames(old(b.refs), b.refs) && old(t.StuckNodes()) <= t.StuckNodes()
      ensures b.added == Without(old(b.added), i)
    {
      SaneGives();
      var c := b.added[i];
      FirstIs(b.added, For(c.key, c.name), i);
      FirstFound(b.added, For(c.key, c.name));
      assert c.key in active by {
        assert Live(b.View(), c.key, c.name) > 0;
      }
      CreateWires(b.View(), lookup, attached, info, active, noisy, c.key, c.name, lookup[c.name]);
      UpdateCreated(c.key, c.name, lookup[c.name]);
    }

    /** Created updates for the conflicts of the configuration. */
    method ResolveStanding()
      requires Sane() && active == noisy
      requires forall i | 0 <= i < |b.added| :: b.added[i].name !in lookup
      modifies b, t
      ensures Sane() && SameNames(old(b.refs), b.refs) && NoneWaits(b.View(), lookup)
      ensures old(t.StuckNodes()) <= t.StuckNodes()
    {
      var j := 0;
      while j < |b.standing|
        invariant j <= |b.standing|
        invariant Sane() && SameNames(old(b.refs), b.refs) && old(t.StuckNodes()) <= t.StuckNodes()
        invariant b.added == old(b.added)
        invariant forall i | 0 <= i < j && !b.standing[i].cleared :: b.standing[i].conflict.name !in lookup
        decreases |b.standing| - j
      {
        var e := b.standing[j];
        if !e.cleared && e.conflict.name in lookup {
          ghost var refs := b.refs;
          ResolveStandingAt(j);
          SameNamesThrough(old(b.refs), refs, b.refs);
        }
        j := j + 1;
      }
    }

    method ResolveStandingAt(j: nat)
      requires Sane() && active == noisy && j < |b.standing|
      requires !b.standing[j].cleared && b.standing[j].conflict.name in lookup
      requires forall i | 0 <= i < |b.added| :: b.added[i].name !in lookup
      requires forall i | 0 <= i < j && !b.standing[i].cleared :: b.standing[i].conflict.name !in lookup
      modifies b, t
      ensures Sane() && SameNames(old(b.refs), b.refs) && old(t.StuckNodes()) <= t.StuckNodes()
      ensures b.added == old(b.added)
      ensures b.standing == old(b.standing)[j := old(b.standing)[j].(cleared := true)]
    {
      SaneGives();
      var c := b.standing[j].conflict;
      FirstIs(b.added, For(c.key, c.name), |b.added|);
      FirstIs(b.standing, LiveFor(c.key, c.name), j);
      FirstFound(b.standing, LiveFor(c.key, c.name));
      assert c.key in active by {
        assert Live(b.View(), c.key, c.name) > 0;
      }
      CreateWires(b.View(), lookup, attached, info, active, noisy, c.key, c.name, lookup[c.name]);
      UpdateCreated(c.key, c.name, lookup[c.name]);
    }

    /** CdlLoadableBody::bind, for the nodes that the loadable owns. */
    method Bind(nodes: seq<Node>)
      requires Sane() && active == noisy
      requires Distinct(nodes) && (forall n | n in nodes :: n in attached) && Unbound(b.refs, info, noisy, nodes)
      modifies b, t, this`active, this`noisy
      ensures Sane() && SameNames(old(b.refs), b.refs) && old(t.StuckNodes()) <= t.StuckNodes()
      ensures active == noisy == old(active) + KeysOfAll(info, nodes)
      ensures Complete(b.refs, lookup, active)
    {
      LoadAll(nodes);
      ghost var refs := b.refs;
      ResolveAdded();
      SameNamesThrough(old(b.refs), refs, b.refs);
      refs := b.refs;
      ResolveStanding();
      SameNamesThrough(old(b.refs), refs, b.refs);
      Completes();
    }

    lemma Completes()
      requires Sane() && NoneWaits(b.View(), lookup)
      ensures Complete(b.refs, lookup, active)
    {
      SaneGives();
      NoneWaitsIsComplete(b.View(), lookup, attached, info, active, noisy);
    }

    method LoadAll(nodes: seq<Node>)
      requires Sane() && active == noisy
      requires Distinct(nodes) && (forall n | n in nodes :: n in attached) && Unbound(b.refs, info, noisy, nodes)
      modifies b, t, this`active, this`noisy
      ensures Sane() && SameNames(old(b.refs), b.refs) && old(t.StuckNodes()) <= t.StuckNodes()
      ensures active == noisy == old(active) + KeysOfAll(info, nodes)
    {
      var a := 0;
      while a < |nodes|
        invariant a <= |nodes|
        invariant Sane() && SameNames(old(b.refs), b.refs) && old(t.StuckNodes()) <= t.StuckNodes()
        invariant active == noisy == old(active) + KeysOfAll(info, nodes[..a])
        invariant Unbound(b.refs, info, noisy, nodes[a..])
      {
        ghost var refs := b.refs;
        MoreKeys(info, old(active), nodes, a);
        LoadNext(nodes, a);
        SameNamesThrough(old(b.refs), refs, b.refs);
        a := a + 1;
      }
      assert nodes[..a] == nodes;
    }

    method LoadNext(nodes: seq<Node>, a: nat)
      requires Sane() && active == noisy && a < |nodes|
      requires Distinct(nodes) && nodes[a] in attached && Unbound(b.refs, info, noisy, nodes[a..])
      modifies b, t, this`active, this`noisy
      ensures Sane() && SameNames(old(b.refs), b.refs) && old(t.StuckNodes()) <= t.StuckNodes()
      ensures active == noisy == old(active) + KeysOf(nodes[a], info(nodes[a]).properties)
      ensures Unbound(b.refs, info, noisy, nodes[a + 1..])
    {
      StillUnbound(b.refs, noisy, nodes, a);
      LoadNode(nodes[a]);
      StillUnboundAfter(old(b.refs), b.refs, old(active), nodes, a);
    }

    lemma StillUnbound(refs: map<Key, seq<Ref>>, noisy: set<Key>, nodes: seq<Node>, a: nat)
      requires a < |nodes| && Unbound(refs, info, noisy, nodes[a..])
      ensures Unbound(refs, info, noisy, [nodes[a]])
    {
      forall k | OneOf(info, [nodes[a]], k)
        ensures OneOf(info, nodes[a..], k)
      {
        assert nodes[a..][0] == nodes[a];
      }
    }

    lemma StillUnboundAfter(refs: map<Key, seq<Ref>>, refs': map<Key, seq<Ref>>, noisy: set<Key>,
                            nodes: seq<Node>, a: nat)
      requires a < |nodes| && Distinct(nodes) && Unbound(refs, info, noisy, nodes[a..])
      requires Untouched(refs, refs', KeysOf(nodes[a], info(nodes[a]).properties))
      ensures Unbound(refs', info, noisy + KeysOf(nodes[a], info(nodes[a]).properties), nodes[a + 1..])
    {
      forall k | OneOf(info, nodes[a + 1..], k)
        ensures OneOf(info, nodes[a..], k) && k.node != nodes[a]
      {
        var i :| 0 <= i < |nodes[a + 1..]| && nodes[a + 1..][i] == k.node;
        assert nodes[a..][i + 1] == k.node && nodes[a + 1 + i] == k.node;
      }
    }

    /** The first part of CdlLoadableBody::unbind: nothing may refer to these nodes any more. Each
        Destroyed update takes one referrer away, so the loop over the referrers ends. */
    method Desert(nodes: seq<Node>)
      requires Sane()
      modifies b, t
      ensures Sane() && LetsGo(old(b.refs), b.refs, nodes)
      ensures forall n | n in nodes :: Get(b.referrers, n) == []
      ensures t.StuckNodes() <= old(t.StuckNodes())
      ensures StayStuck(old(t.parent), old(t.refused), b.refs, t.parent, t.refused, info)
    {
      var a := 0;
      while a < |nodes|
        invariant a <= |nodes|
        invariant Sane() && LetsGo(old(b.refs), b.refs, nodes)
        invariant forall i | 0 <= i < a :: Get(b.referrers, nodes[i]) == []
        invariant StayStuck(old(t.parent), old(t.refused), b.refs, t.parent, t.refused, info)
        invariant t.StuckNodes() <= old(t.StuckNodes())
      {
        ghost var refs, parent, refused := b.refs, t.parent, t.refused;
        DesertNode(nodes[a]);
        LettingGoBindsNone(refs, b.refs, [nodes[a]], info);
        StayStuckThrough(old(t.parent), old(t.refused), refs, parent, refused, b.refs, t.parent, t.refused, info);
        LetsGoMore(refs, b.refs, nodes[a], nodes);
        LetsGoThrough(old(b.refs), refs, b.refs, nodes);
        a := a + 1;
      }
    }

    method DesertNode(n: Node)
      requires Sane()
      modifies b, t
      ensures Sane() && LetsGo(old(b.refs), b.refs, [n])
      ensures Get(b.referrers, n) == [] && t.StuckNodes() <= old(t.StuckNodes())
      ensures forall m | m != n :: Get(b.referrers, m) == Get(old(b.referrers), m)
      ensures StayStuck(old(t.parent), old(t.refused), b.refs, t.parent, t.refused, info)
    {
      while Get(b.referrers, n) != []
        invariant Sane() && LetsGo(old(b.refs), b.refs, [n])
        invariant forall m | m != n :: Get(b.referrers, m) == Get(old(b.referrers), m)
        invariant StayStuck(old(t.parent), old(t.refused), b.refs, t.parent, t.refused, info)
        invariant t.StuckNodes() <= old(t.StuckNodes())
        decreases |Get(b.referrers, n)|
      {
        var ks := Get(b.referrers, n);
        var k := ks[|ks| - 1];
        ghost var refs, parent, refused := b.refs, t.parent, t.refused;
        ReferrersAreActive(n, k);
        UpdateDestroyed(k, n);
        LetsGoThrough(old(b.refs), refs, b.refs, [n]);
        LettingGoBindsNone(refs, b.refs, [n], info);
        StayStuckThrough(old(t.parent), old(t.refused), refs, parent, refused, b.refs, t.parent, t.refused, info);
      }
    }

    lemma ReferrersAreActive(n: Node, k: Key)
      requires Sane() && k in Get(b.referrers, n)
      ensures k in active && k in b.refs
    {
      SaneGives();
      TallyZero(Get(b.referrers, n), Is(k));
      TallyZero(Get(b.refs, k), BoundTo(n));
    }

    lemma Deserted(nodes: seq<Node>)
      requires Sane() && forall n | n in nodes :: Get(b.referrers, n) == []
      ensures NoneLeadsTo(b.refs, nodes)
    {
      SaneGives();
      NoReferrersNoneLeads(b.View(), nodes);
    }

    /** The second part of CdlLoadableBody::unbind. The loadable comes first among the nodes it owns,
        so it is below the toplevel by the time that the others are moved below it. */
    method UnloadAll(nodes: seq<Node>)
      requires Sane() && OwnedIn(owner, attached, info) && BelongTogether(nodes)
      requires KeysOfAll(info, nodes) <= active
      modifies b, t, this`active
      ensures Sane() && LetsGo(old(b.refs), b.refs, nodes)
      ensures active == old(active) - KeysOfAll(info, nodes)
      ensures BackHome(old(t.parent), t.parent, nodes, |nodes|)
      ensures t.refused == old(t.refused) && t.parent.Keys == old(t.parent.Keys)
    {
      ghost var keys := active;
      var a := 0;
      while a < |nodes|
        invariant a <= |nodes|
        invariant Sane() && LetsGo(old(b.refs), b.refs, nodes)
        invariant active == keys - KeysOfAll(info, nodes[..a])
        invariant BackHome(old(t.parent), t.parent, nodes, a)
        invariant t.refused == old(t.refused) && t.parent.Keys == old(t.parent.Keys)
      {
        ghost var refs := b.refs;
        KeysOfAllStep(info, nodes, a);
        NotYet(nodes, a);
        UnloadNext(nodes, a, old(t.parent));
        LetsGoThrough(old(b.refs), refs, b.refs, nodes);
        a := a + 1;
      }
      assert nodes[..a] == nodes;
    }

    method UnloadNext(nodes: seq<Node>, a: nat, ghost before: map<Node, Node>)
      requires Sane() && OwnedIn(owner, attached, info) && BelongTogether(nodes) && a < |nodes|
      requires KeysOf(nodes[a], info(nodes[a]).properties) <= active && BackHome(before, t.parent, nodes, a)
      modifies b, t, this`active
      ensures Sane() && LetsGo(old(b.refs), b.refs, nodes)
      ensures active == old(active) - KeysOf(nodes[a], info(nodes[a]).properties)
      ensures BackHome(before, t.parent, nodes, a + 1)
      ensures t.refused == old(t.refused) && t.parent.Keys == old(t.parent.Keys)
    {
      FirstIsHome(before, nodes, a);
      assert Owned(owner, attached, info, nodes[a]);
      UnloadNode(nodes[a]);
      LetsGoMore(old(b.refs), b.refs, nodes[a], nodes);
      BackHomeStep(before, old(t.parent), t.parent, nodes, a);
    }

    /** Of the nodes of a loadable, the first a have been moved back: the loadable below the
        toplevel, the others below the loadable. Nothing else has moved. */
    ghost predicate BackHome(before: map<Node, Node>, after: map<Node, Node>, nodes: seq<Node>, a: nat)
      requires a <= |nodes|
    {
      && (forall i | 0 <= i < a && info(nodes[i]).Parental() ::
            nodes[i] in after && after[nodes[i]] == if i == 0 then TOP else nodes[0])
      && (forall n | n in before && (n in nodes[..a] ==> !info(n).Parental()) :: n in after && after[n] == before[n])
    }

    lemma BackHomeStep(before: map<Node, Node>, mid: map<Node, Node>, after: map<Node, Node>, nodes: seq<Node>, a: nat)
      requires BelongTogether(nodes) && a < |nodes| && BackHome(before, mid, nodes, a)
      requires after == if info(nodes[a]).Parental() then mid[nodes[a] := if a == 0 then TOP else nodes[0]] else mid
      ensures BackHome(before, after, nodes, a + 1)
    {
      assert forall n :: n in nodes[..a + 1] <==> n in nodes[..a] || n == nodes[a];
    }

    lemma FirstIsHome(before: map<Node, Node>, nodes: seq<Node>, a: nat)
      requires Sane() && BelongTogether(nodes) && a < |nodes| && BackHome(before, t.parent, nodes, a)
      ensures a > 0 ==> HasParent(t.View(), nodes[0], TOP)
      ensures nodes[a] in t.parent
    {
      SaneGives();
      assert Home(t.View(), b.refs, attached, owner, info, nodes[0]);
      assert Home(t.View(), b.refs, attached, owner, info, nodes[a]);
    }

    /** The nodes of one loadable, the loadable first. */
    ghost predicate BelongTogether(nodes: seq<Node>)
      reads this
    {
      && nodes != [] && Distinct(nodes) && info(nodes[0]).loadable
      && (forall i | 0 <= i < |nodes| ::
            nodes[i] in attached && nodes[i] in owner && owner[nodes[i]] == nodes[0]
            && (info(nodes[i]).loadable ==> i == 0)
            && (info(nodes[i]).Parental() ==> info(nodes[i]).parentProperty.value < info(nodes[i]).properties))
    }

    lemma NotYet(nodes: seq<Node>, a: nat)
      requires a < |nodes| && Distinct(nodes)
      ensures nodes[a] !in nodes[..a]
      ensures KeysOfAll(info, nodes[..a]) !! KeysOf(nodes[a], info(nodes[a]).properties)
      ensures KeysOf(nodes[a], info(nodes[a]).properties) <= KeysOfAll(info, nodes)
    {
      KeysOfAllAre(info, nodes[..a]);
      KeysOfAllAre(info, nodes);
    }

    method UnloadNode(n: Node)
      requires Sane() && n in attached && Owned(owner, attached, info, n)
      requires KeysOf(n, info(n).properties) <= active
      requires !info(n).loadable ==> HasParent(t.View(), owner[n], TOP)
      requires info(n).Parental() ==> info(n).parentProperty.value < info(n).properties
      modifies b, t, this`active
      ensures Sane() && LetsGo(old(b.refs), b.refs, [n])
      ensures active == old(active) - KeysOf(n, info(n).properties) && t.refused == old(t.refused)
      ensures t.parent == if info(n).Parental()
                          then old(t.parent)[n := if info(n).loadable then TOP else owner[n]]
                          else old(t.parent)
    {
      ghost var before := t.parent;
      ghost var after := before[n := if info(n).loadable then TOP else owner[n]];
      assert !info(n).loadable ==> owner[n] != n;
      assert !info(n).loadable ==> owner[n] in after && after[owner[n]] == TOP;
      var j := 0;
      while j < info(n).properties
        invariant j <= info(n).properties
        invariant Sane() && LetsGo(old(b.refs), b.refs, [n])
        invariant active == old(active) - KeysOf(n, j) && t.refused == old(t.refused)
        invariant t.parent == if info(n).Parental() && info(n).parentProperty.value < j then after else before
      {
        ghost var refs, parental := b.refs, IsParental(Key(n, j), info);
        assert parental ==> t.parent == before && before[n := if info(n).loadable then TOP else owner[n]] == after;
        KeysStep(n, j);
        assert Key(n, j) in KeysOf(n, info(n).properties) && Key(n, j) !in KeysOf(n, j);
        assert active - {Key(n, j)} == old(active) - KeysOf(n, j + 1);
        ActiveAreKnown();
        UpdateUnloading(Key(n, j));
        LetsGoThrough(old(b.refs), refs, b.refs, [n]);
        j := j + 1;
      }
    }

    /** The loadable and its nodes have nothing to do with the rest of the configuration: it lies
        directly below the toplevel, its nodes lie below each other, no other node lies below them,
        no reference leads to them or from them, and no conflict is left of them. */
    ghost predicate Isolated(nodes: seq<Node>)
      requires nodes != []
      reads this, b, t
    {
      && HasParent(t.View(), nodes[0], TOP)
      && (forall n | n in nodes && n != nodes[0] :: n in t.parent && t.parent[n] in nodes
            && (info(n).Parental() ==> t.parent[n] == nodes[0]))
      && (forall n | n in attached && n !in nodes :: n in t.parent && t.parent[n] !in nodes)
      && NoneLeadsTo(b.refs, nodes)
      && (forall k | OneOf(info, nodes, k) :: k !in noisy)
      && (forall n | n in nodes :: n !in t.refused)
    }

    /** CdlLoadableBody::unbind, for the nodes that the loadable owns. */
    method Unbind(nodes: seq<Node>)
      requires Sane() && OwnedIn(owner, attached, info) && active == noisy
      requires BelongTogether(nodes) && KeysOfAll(info, nodes) <= active
      requires forall n | n in attached && n in owner && owner[n] == nodes[0] :: n in nodes
      modifies b, t, this`active, this`noisy
      ensures Sane() && LetsGo(old(b.refs), b.refs, nodes)
      ensures active == noisy == old(active) - KeysOfAll(info, nodes)
      ensures StayStuck(old(t.parent), old(t.refused), b.refs, t.parent, t.refused, info)
      ensures Isolated(nodes) && t.StuckNodes() <= old(t.StuckNodes())
    {
      Desert(nodes);
      Deserted(nodes);
      ghost var refs, parent, refused := b.refs, t.parent, t.refused;
      assert StayStuck(old(t.parent), old(t.refused), refs, parent, refused, info);
      UnloadAll(nodes);
      LetsGoThrough(old(b.refs), refs, b.refs, nodes);
      Silence(nodes);
      Isolates(nodes, parent);
      NoneGetsStuck(nodes, parent, refused);
      NodesAreUnbound(nodes);
      OthersStayStuck(nodes, refs, parent, refused, old(t.parent), old(t.refused));
    }

    /** The last part of CdlLoadableBody::unbind: clear all conflicts of the nodes. */
    method Silence(nodes: seq<Node>)
      requires Sane()
      requires noisy - active == KeysOfAll(info, nodes) && active !! KeysOfAll(info, nodes)
      modifies b`added, b`standing, t`refused, this`noisy
      ensures Sane() && noisy == active
      ensures forall n :: n in t.refused <==> n in old(t.refused) && n !in nodes
    {
      SaneGives();
      var mine := set n | n in nodes;
      ClearWires(b.View(), lookup, attached, info, active, noisy, nodes, mine);
      ClearRemembers(b.View(), filed, mine);
      KeysOfAllAre(info, nodes);
      b.ClearConflicts(mine);
      t.ClearAllRefused(mine);
      SilencedPlaces(t.View(), b.refs, old(t.refused), t.refused, attached, owner, homes, info, active, noisy, nodes);
      noisy := active;
      MakesSane();
    }

    /** The parent references of unloaded nodes lead nowhere. */
    lemma NodesAreUnbound(nodes: seq<Node>)
      requires Sane() && active !! KeysOfAll(info, nodes) && BelongTogether(nodes)
      ensures forall n | n in nodes :: DestOf(b.refs, info, n) == None
    {
      SaneGives();
      KeysOfAllAre(info, nodes);
      forall n | n in nodes
        ensures DestOf(b.refs, info, n) == None
      {
        if info(n).Parental() {
          assert OneOf(info, nodes, ParentKey(info, n));
        }
      }
    }

    /** Of the nodes that were stuck, those stay so that neither are in the package nor lead to it. */
    lemma OthersStayStuck(nodes: seq<Node>, refs: map<Key, seq<Ref>>, mid: map<Node, Node>, refused: seq<Node>,
                          parent: map<Node, Node>, refused0: seq<Node>)
      requires BackHome(mid, t.parent, nodes, |nodes|) && LetsGo(refs, b.refs, nodes)
      requires StayStuck(parent, refused0, refs, mid, refused, info)
      requires forall n | n in nodes :: DestOf(b.refs, info, n) == None
      requires forall n :: n in t.refused <==> n in refused && n !in nodes
      ensures StayStuck(parent, refused0, b.refs, t.parent, t.refused, info)
    {
      assert nodes[..|nodes|] == nodes;
      LettingGoBindsNone(refs, b.refs, nodes, info);
    }

    /** Unloading puts only nodes of the package directly below the toplevel. */
    lemma NoneGetsStuck(nodes: seq<Node>, before: map<Node, Node>, refused: seq<Node>)
      requires BackHome(before, t.parent, nodes, |nodes|) && t.parent.Keys == before.Keys
      requires forall n | n in t.refused :: n in refused && n !in nodes
      ensures Stuck(t.parent, t.refused) <= Stuck(before, refused)
    {
      assert nodes[..|nodes|] == nodes;
    }

    lemma Isolates(nodes: seq<Node>, before: map<Node, Node>)
      requires Sane() && noisy == active && active !! KeysOfAll(info, nodes)
      requires BelongTogether(nodes) && BackHome(before, t.parent, nodes, |nodes|)
      requires forall n | n in attached && n in owner && owner[n] == nodes[0] :: n in nodes
      requires NoneLeadsTo(b.refs, nodes) && forall n | n in nodes :: n !in t.refused
      ensures Isolated(nodes)
    {
      SaneGives();
      KeysOfAllAre(info, nodes);
      assert Home(t.View(), b.refs, attached, owner, info, nodes[0]);
      forall n | n in nodes && n != nodes[0]
        ensures n in t.parent && t.parent[n] in nodes && (info(n).Parental() ==> t.parent[n] == nodes[0])
      {
        assert Home(t.View(), b.refs, attached, owner, info, n);
      }
      forall n | n in attached && n !in nodes
        ensures n in t.parent && t.parent[n] !in nodes
      {
        assert Home(t.View(), b.refs, attached, owner, info, n);
        NotLedTo(nodes, n);
      }
    }

    lemma NotLedTo(nodes: seq<Node>, n: Node)
      requires NoneLeadsTo(b.refs, nodes)
      ensures DestOf(b.refs, info, n).Some? ==> DestOf(b.refs, info, n).value !in nodes
    {
      if DestOf(b.refs, info, n).Some? {
        assert b.refs[ParentKey(info, n)][0].dest == DestOf(b.refs, info, n);
      }
    }
  }
}
