/** Packages come and go: nodes are entered in the toplevel's table and hierarchy, taken out
    again, put back where they were, or deleted. */
module Packages {
  import opened Wrappers
  import opened Tallies
  import opened References
  import opened Hierarchy
  import opened Loading

  // ---------------------------------------------------------------------------------------
  // The table of names and the vector of loadables.

  /** The part of a toplevel that a transaction has to restore exactly. */
  datatype Register = Register(lookup: Table, attached: set<Node>, loadables: seq<Node>)

  function Members(nodes: seq<Node>): set<Node> {
    set n | n in nodes
  }

  function AddNames(lookup: Table, info: Node -> Info, nodes: seq<Node>): Table {
    if nodes == [] then lookup
    else
      var n := nodes[|nodes| - 1];
      AddNames(lookup, info, nodes[..|nodes| - 1])[info(n).name := n]
  }

  /** From the back, as remove_loadable_from_toplevel() does. */
  function RemoveNames(lookup: Table, info: Node -> Info, nodes: seq<Node>): Table {
    if nodes == [] then lookup
    else
      var n := nodes[|nodes| - 1];
      RemoveNames(lookup - {info(n).name}, info, nodes[..|nodes| - 1])
  }

  /** The names are distinct and not in use. */
  ghost predicate Free(lookup: Table, info: Node -> Info, nodes: seq<Node>) {
    && (forall i, j | 0 <= i < j < |nodes| :: info(nodes[i]).name != info(nodes[j]).name)
    && (forall i | 0 <= i < |nodes| :: info(nodes[i]).name !in lookup)
  }

  lemma {:induction false} AddedNames(lookup: Table, info: Node -> Info, nodes: seq<Node>)
    requires Free(lookup, info, nodes)
    ensures forall name :: name in AddNames(lookup, info, nodes) <==>
              name in lookup || exists n | n in nodes :: info(n).name == name
    ensures forall name | name in lookup :: AddNames(lookup, info, nodes)[name] == lookup[name]
    ensures forall n | n in nodes :: AddNames(lookup, info, nodes)[info(n).name] == n
  {
    if nodes != [] {
      var (init, n) := (nodes[..|nodes| - 1], nodes[|nodes| - 1]);
      AddedNames(lookup, info, init);
      assert forall m :: m in nodes <==> m in init || m == n;
      assert forall m | m in init :: info(m).name != info(n).name;
    }
  }

  /** Removing the names of a package that was just added restores the table. */
  lemma {:induction false} RemoveUndoesAdd(lookup: Table, info: Node -> Info, nodes: seq<Node>)
    requires Free(lookup, info, nodes)
    ensures RemoveNames(AddNames(lookup, info, nodes), info, nodes) == lookup
  {
    if nodes != [] {
      var (init, n) := (nodes[..|nodes| - 1], nodes[|nodes| - 1]);
      AddedNames(lookup, info, init);
      RemoveUndoesAdd(lookup, info, init);
      assert AddNames(lookup, info, nodes) - {info(n).name} == AddNames(lookup, info, init);
    }
  }

  /** Nodes that the table knows under distinct names. */
  ghost predicate Known(lookup: Table, info: Node -> Info, nodes: seq<Node>) {
    && (forall i, j | 0 <= i < j < |nodes| :: nodes[i] != nodes[j])
    && (forall i | 0 <= i < |nodes| :: info(nodes[i]).name in lookup && lookup[info(nodes[i]).name] == nodes[i])
  }

  lemma {:induction false} RemovedNames(lookup: Table, info: Node -> Info, nodes: seq<Node>)
    ensures forall name :: name in RemoveNames(lookup, info, nodes) <==>
              name in lookup && forall n | n in nodes :: info(n).name != name
    ensures forall name | name in RemoveNames(lookup, info, nodes) ::
              RemoveNames(lookup, info, nodes)[name] == lookup[name]
  {
    if nodes != [] {
      var (init, n) := (nodes[..|nodes| - 1], nodes[|nodes| - 1]);
      RemovedNames(lookup - {info(n).name}, info, init);
      assert forall m :: m in nodes <==> m in init || m == n;
    }
  }

  /** Adding the names of a package that was just removed restores the table. */
  lemma {:induction false} AddUndoesRemove(lookup: Table, info: Node -> Info, nodes: seq<Node>)
    requires Known(lookup, info, nodes)
    ensures Free(RemoveNames(lookup, info, nodes), info, nodes)
    ensures AddNames(RemoveNames(lookup, info, nodes), info, nodes) == lookup
  {
    RemovedNames(lookup, info, nodes);
    if nodes != [] {
      var (init, n) := (nodes[..|nodes| - 1], nodes[|nodes| - 1]);
      var smaller := lookup - {info(n).name};
      forall i | 0 <= i < |init|
        ensures info(init[i]).name in smaller && smaller[info(init[i]).name] == init[i]
      {
        assert init[i] == nodes[i];
      }
      AddUndoesRemove(smaller, info, init);
      assert smaller[info(n).name := n] == lookup;
    }
  }

  function Registered(r: Register, info: Node -> Info, nodes: seq<Node>): Register
  {
    if nodes == [] then r
    else Register(AddNames(r.lookup, info, nodes), r.attached + Members(nodes), r.loadables + [nodes[0]])
  }

  function Unregistered(r: Register, info: Node -> Info, nodes: seq<Node>): Register
  {
    if nodes == [] then r
    else Register(RemoveNames(r.lookup, info, nodes), r.attached - Members(nodes),
                  RemoveFirst(r.loadables, Same(nodes[0])))
  }

  function Reregistered(r: Register, info: Node -> Info, nodes: seq<Node>, pos: nat): Register
    requires pos <= |r.loadables|
  {
    if nodes == [] then r
    else Register(AddNames(r.lookup, info, nodes), r.attached + Members(nodes), InsertAt(r.loadables, pos, nodes[0]))
  }

  /** Unloading what was just loaded restores the register. */
  lemma UnloadUndoesLoad(r: Register, info: Node -> Info, nodes: seq<Node>)
    requires nodes != [] && Free(r.lookup, info, nodes) && r.attached !! Members(nodes) && nodes[0] !in r.loadables
    ensures Unregistered(Registered(r, info, nodes), info, nodes) == r
  {
    RemoveUndoesAdd(r.lookup, info, nodes);
    FirstIs(r.loadables + [nodes[0]], Same(nodes[0]), |r.loadables|);
    assert Without(r.loadables + [nodes[0]], |r.loadables|) == r.loadables;
    assert r.attached + Members(nodes) - Members(nodes) == r.attached;
  }

  /** Putting back what was just taken out, at the position where it was, restores the register. */
  lemma ReloadUndoesUnload(r: Register, info: Node -> Info, nodes: seq<Node>)
    requires nodes != [] && Known(r.lookup, info, nodes) && Members(nodes) <= r.attached && nodes[0] in r.loadables
    ensures var pos := First(r.loadables, Same(nodes[0]));
            && pos < |r.loadables|
            && Reregistered(Unregistered(r, info, nodes), info, nodes, pos) == r
  {
    var pos := First(r.loadables, Same(nodes[0]));
    AddUndoesRemove(r.lookup, info, nodes);
    TallyZero(r.loadables, Same(nodes[0]));
    FirstFound(r.loadables, Same(nodes[0]));
    assert InsertAt(Without(r.loadables, pos), pos, nodes[0]) == r.loadables;
    assert r.attached - Members(nodes) + Members(nodes) == r.attached;
  }

  // ---------------------------------------------------------------------------------------
  // The toplevel between operations.

  predicate Older(nodes: seq<Node>, i: nat, j: nat)
    requires i < j < |nodes|
  {
    nodes[i] < nodes[j]
  }

  ghost predicate Ascending(nodes: seq<Node>) {
    forall i, j {:trigger Older(nodes, i, j)} | 0 <= i < j < |nodes| :: Older(nodes, i, j)
  }

  lemma AscendingIsDistinct(nodes: seq<Node>)
    requires Ascending(nodes)
    ensures Distinct(nodes)
  {
    forall i, j | 0 <= i < j < |nodes|
      ensures nodes[i] != nodes[j]
    {
      assert Older(nodes, i, j);
    }
  }

  /** A loadable, and after it nodes that are none. */
  ghost predicate LedByLoadable(info: Node -> Info, nodes: seq<Node>) {
    nodes != [] && info(nodes[0]).loadable && forall i | 0 < i < |nodes| :: !info(nodes[i]).loadable
  }

  /** The nodes of a loadable, itself first, in the order of their construction. */
  ghost predicate IsPackage(info: Node -> Info, nodes: seq<Node>) {
    && LedByLoadable(info, nodes) && info(nodes[0]).container && Ascending(nodes)
    && (forall i | 0 <= i < |nodes| :: info(nodes[i]).name != "")
    && (forall i | 0 <= i < |nodes| && info(nodes[i]).Parental() ::
          info(nodes[i]).parentProperty.value < info(nodes[i]).properties)
  }

  ghost predicate NodeListed(owner: map<Node, Node>, owned: map<Node, seq<Node>>, next: Node, n: Node) {
    n in owner ==> owner[n] in owned && n in owned[owner[n]] && 1 < n < next
  }

  ghost predicate PackageListed(owner: map<Node, Node>, owned: map<Node, seq<Node>>, info: Node -> Info, L: Node) {
    L in owned ==>
      && IsPackage(info, owned[L]) && owned[L][0] == L
      && forall n | n in owned[L] :: n in owner && owner[n] == L
  }

  /** Owners and the nodes they own agree. */
  ghost predicate Listed(owner: map<Node, Node>, owned: map<Node, seq<Node>>, info: Node -> Info, next: Node) {
    && (forall n {:trigger NodeListed(owner, owned, next, n)} :: NodeListed(owner, owned, next, n))
    && (forall L {:trigger PackageListed(owner, owned, info, L)} :: PackageListed(owner, owned, info, L))
  }

  /** A package that is attached is bound completely. */
  ghost predicate In(nodes: seq<Node>, attached: set<Node>, loadables: seq<Node>, active: set<Key>, info: Node -> Info)
    requires nodes != []
  {
    nodes[0] in loadables && Members(nodes) <= attached && KeysOfAll(info, nodes) <= active
  }

  /** One that is not has nothing bound. */
  ghost predicate Out(nodes: seq<Node>, attached: set<Node>, loadables: seq<Node>, homes: set<Node>,
                      refs: map<Key, seq<Ref>>, noisy: set<Key>, info: Node -> Info)
    requires nodes != []
  {
    && nodes[0] !in loadables && Members(nodes) !! attached && Unbound(refs, info, noisy, nodes)
    && nodes[0] !in homes && (forall n | n in nodes && n != nodes[0] :: n in homes)
  }

  ghost predicate Stands(owned: map<Node, seq<Node>>, attached: set<Node>, loadables: seq<Node>, homes: set<Node>,
                         refs: map<Key, seq<Ref>>, active: set<Key>, info: Node -> Info, L: Node)
  {
    L in owned && owned[L] != [] ==>
      if L in attached then In(owned[L], attached, loadables, active, info)
      else Out(owned[L], attached, loadables, homes, refs, active, info)
  }

  /** Every package is in or out. */
  ghost predicate AllStand(owned: map<Node, seq<Node>>, attached: set<Node>, loadables: seq<Node>, homes: set<Node>,
                           refs: map<Key, seq<Ref>>, active: set<Key>, info: Node -> Info)
  {
    forall L {:trigger Stands(owned, attached, loadables, homes, refs, active, info, L)} ::
      Stands(owned, attached, loadables, homes, refs, active, info, L)
  }

  /** All packages but L stand well; L is in the toplevel and not yet bound. */
  ghost predicate AllStandBut(owned: map<Node, seq<Node>>, attached: set<Node>, loadables: seq<Node>, homes: set<Node>,
                              refs: map<Key, seq<Ref>>, active: set<Key>, info: Node -> Info, L: Node)
  {
    && L in owned && owned[L] != [] && owned[L][0] == L && L in loadables && Members(owned[L]) <= attached
    && Unbound(refs, info, active, owned[L])
    && forall M {:trigger Stands(owned, attached, loadables, homes, refs, active, info, M)} | M != L ::
         Stands(owned, attached, loadables, homes, refs, active, info, M)
  }

  /** The references of a property keep the names with which they were parsed. */
  ghost predicate Spelled(refs: map<Key, seq<Ref>>, names: Key -> seq<string>) {
    forall k | k in refs :: |refs[k]| == |names(k)| && forall i | 0 <= i < |refs[k]| :: refs[k][i].name == names(k)[i]
  }

  function RegisterOf(top: Toplevel): Register
    reads top
  {
    Register(top.lookup, top.attached, top.loadables)
  }

  /** All that operations on packages change in a toplevel, but for the positions of loadables that
      are not in it. */
  datatype Snapshot = Snapshot(register: Register, links: Links, shape: Shape, refused: seq<Node>,
                               owner: map<Node, Node>, owned: map<Node, seq<Node>>, homes: set<Node>,
                               active: set<Key>, noisy: set<Key>, next: Node, filed: seq<Unresolved>)

  ghost function SnapshotOf(top: Toplevel): Snapshot
    reads top, top.b, top.t
  {
    Snapshot(RegisterOf(top), top.b.View(), top.t.View(), top.t.refused, top.owner, top.owned, top.homes,
             top.active, top.noisy, top.next, top.filed)
  }

  /** What taking loadables out and putting them back in leaves alone. */
  ghost function Rest(top: Toplevel): (Links, seq<Node>, map<Node, Node>, map<Node, seq<Node>>,
                                       set<Key>, set<Key>, Node, seq<Unresolved>)
    reads top, top.b, top.t
  {
    (top.b.View(), top.t.refused, top.owner, top.owned, top.active, top.noisy, top.next, top.filed)
  }

  /** What binding and unbinding leaves alone. */
  ghost function Entries(top: Toplevel): (Register, map<Node, seq<Node>>, map<Node, Place>, Node)
    reads top
  {
    (RegisterOf(top), top.owned, top.place, top.next)
  }

  /** What entering and deleting nodes leaves alone. */
  ghost function Aside(top: Toplevel): (Links, seq<Node>, set<Key>, set<Key>, Node, seq<Unresolved>)
    reads top, top.b, top.t
  {
    (top.b.View().(refs := map[]), top.t.refused, top.active, top.noisy, top.next, top.filed)
  }

  /** What deleting nodes leaves alone. */
  ghost function Left(top: Toplevel): (Register, (Links, seq<Node>, set<Key>, set<Key>, Node, seq<Unresolved>))
    reads top, top.b, top.t
  {
    (RegisterOf(top), Aside(top))
  }

  /** Owners, numbers and names are in order. */
  ghost predicate Books(s: Snapshot, info: Node -> Info, names: Key -> seq<string>) {
    && Listed(s.owner, s.owned, info, s.next)
    && (forall n | n in s.register.attached :: n in s.owner)
    && (forall n | n in s.homes :: n < s.next)
    && (forall L | L in s.register.loadables :: L in s.owned) && Distinct(s.register.loadables)
    && (forall k | k in s.links.refs :: k.node in s.owner) && Spelled(s.links.refs, names)
  }

  /** The references and the places of the nodes are in order, and no property is half loaded. */
  ghost predicate Settled(s: Snapshot, info: Node -> Info) {
    && WiredIn(s.links, s.register.lookup, s.register.attached, info, s.active, s.noisy)
    && PlacedIn(s.shape, s.links.refs, s.refused, s.register.attached, s.owner, s.homes, info, s.active, s.noisy)
    && Agree(s.shape) && s.active == s.noisy && Remembers(s.links, s.filed)
  }

  /** What there is to keep in order in a toplevel. Larger conditions are stated as the absence of
      aspects that fail, so that a proof takes up only those that it is about. */
  datatype Aspect = Sanity | Bindings | Records | Packages

  ghost predicate Fine(s: Snapshot, info: Node -> Info, names: Key -> seq<string>, a: Aspect) {
    match a
    case Sanity => Settled(s, info)
    case Bindings => Complete(s.links.refs, s.register.lookup, s.active)
    case Records => Books(s, info, names)
    case Packages =>
      AllStand(s.owned, s.register.attached, s.register.loadables, s.homes, s.links.refs, s.active, info)
  }

  ghost predicate AllFine(s: Snapshot, info: Node -> Info, names: Key -> seq<string>) {
    Flaws(s, info, names) == {}
  }

  ghost function Flaws(s: Snapshot, info: Node -> Info, names: Key -> seq<string>): set<Aspect> {
    set a: Aspect | !Fine(s, info, names, a)
  }

  /** Places are recorded only of loadables that have been taken out of the toplevel. */
  ghost predicate Filed(loadables: seq<Node>, place: map<Node, Place>, next: Node) {
    forall L | L in place :: L !in loadables && L < next
  }

  ghost predicate Whole(top: Toplevel)
    reads top, top.b, top.t
  {
    && top.Sane() && AllFine(SnapshotOf(top), top.info, top.names)
    && Filed(top.loadables, top.place, top.next)
  }

  /** The same, but for a package L that has been entered and not been bound yet. */
  ghost predicate FineBut(s: Snapshot, info: Node -> Info, names: Key -> seq<string>, L: Node, a: Aspect) {
    match a
    case Sanity => s.active == s.noisy
    case Bindings => true
    case Records => Books(s, info, names)
    case Packages =>
      AllStandBut(s.owned, s.register.attached, s.register.loadables, s.homes, s.links.refs, s.active, info, L)
  }

  ghost predicate AllFineBut(s: Snapshot, info: Node -> Info, names: Key -> seq<string>, L: Node) {
    FlawsBut(s, info, names, L) == {}
  }

  ghost function FlawsBut(s: Snapshot, info: Node -> Info, names: Key -> seq<string>, L: Node): set<Aspect> {
    set a: Aspect | !FineBut(s, info, names, L, a)
  }

  lemma FineButGives(s: Snapshot, info: Node -> Info, names: Key -> seq<string>, L: Node)
    requires AllFineBut(s, info, names, L)
    ensures s.active == s.noisy && Books(s, info, names)
    ensures AllStandBut(s.owned, s.register.attached, s.register.loadables, s.homes, s.links.refs, s.active, info, L)
  {
    assert Sanity !in FlawsBut(s, info, names, L) && Records !in FlawsBut(s, info, names, L);
    assert Packages !in FlawsBut(s, info, names, L);
  }

  ghost predicate WholeBut(top: Toplevel, L: Node)
    reads top, top.b, top.t
  {
    && top.Sane() && AllFineBut(SnapshotOf(top), top.info, top.names, L)
    && Filed(top.loadables, top.place, top.next)
  }

  lemma FineGives(s: Snapshot, info: Node -> Info, names: Key -> seq<string>)
    requires AllFine(s, info, names)
    ensures Settled(s, info) && Complete(s.links.refs, s.register.lookup, s.active) && Books(s, info, names)
    ensures AllStand(s.owned, s.register.attached, s.register.loadables, s.homes, s.links.refs, s.active, info)
  {
    assert Sanity !in Flaws(s, info, names) && Bindings !in Flaws(s, info, names);
    assert Records !in Flaws(s, info, names) && Packages !in Flaws(s, info, names);
  }

  lemma MakesFine(s: Snapshot, info: Node -> Info, names: Key -> seq<string>)
    requires Settled(s, info) && Complete(s.links.refs, s.register.lookup, s.active) && Books(s, info, names)
    requires AllStand(s.owned, s.register.attached, s.register.loadables, s.homes, s.links.refs, s.active, info)
    ensures AllFine(s, info, names)
  {
  }

  lemma WholeGives(top: Toplevel)
    requires Whole(top)
    ensures top.Sane() && top.active == top.noisy && Complete(top.b.refs, top.lookup, top.active)
    ensures Books(SnapshotOf(top), top.info, top.names)
    ensures AllStand(top.owned, top.attached, top.loadables, top.homes, top.b.refs, top.active, top.info)
  {
    FineGives(SnapshotOf(top), top.info, top.names);
  }

  lemma MakesWhole(top: Toplevel)
    requires top.Sane() && top.active == top.noisy && Complete(top.b.refs, top.lookup, top.active)
    requires Books(SnapshotOf(top), top.info, top.names)
    requires AllStand(top.owned, top.attached, top.loadables, top.homes, top.b.refs, top.active, top.info)
    requires Filed(top.loadables, top.place, top.next)
    ensures Whole(top)
  {
    top.SaneGives();
    MakesFine(SnapshotOf(top), top.info, top.names);
  }

  /** A valid hierarchy with fine records makes a whole toplevel. */
  lemma FineIsWhole(top: Toplevel)
    requires top.t.Valid() && top.t.info == top.info && AllFine(SnapshotOf(top), top.info, top.names)
    requires Filed(top.loadables, top.place, top.next)
    ensures Whole(top)
  {
    FineGives(SnapshotOf(top), top.info, top.names);
    top.MakesSane();
  }

  lemma EmptyIsWhole(top: Toplevel)
    requires top.Sane() && top.attached == {} && top.active == top.noisy == {}
    requires top.owner == map[] && top.owned == map[] && top.loadables == [] && top.next == 2
    requires top.b.refs == map[] && top.homes == {ORPHANS} && top.place == map[]
    ensures Whole(top)
  {
    MakesWhole(top);
  }

  // ---------------------------------------------------------------------------------------
  // Taking a package out.

  function PlaceOf(s: Shape, loadables: seq<Node>, n: Node): Place
    requires n in s.parent
  {
    Place(First(Get(s.contents, s.parent[n]), Same(n)), First(loadables, Same(n)))
  }

  /** remove_node_from_toplevel() */
  method RemoveNode(top: Toplevel, n: Node)
    requires top.t.Valid() && n != ORPHANS && n != TOP
    requires top.info(n).loadable ==> n in top.t.parent
    modifies top`lookup, top`attached, top`loadables, top`place, top`homes
    modifies top.t`parent, top.t`contents
    ensures top.t.Valid() && Rest(top) == old(Rest(top))
    ensures top.lookup == old(top.lookup) - {top.info(n).name} && top.attached == old(top.attached) - {n}
    ensures if top.info(n).loadable
            then
              && top.t.View() == Detach(old(top.t.View()), n) && top.homes == old(top.homes) - {n}
              && top.loadables == RemoveFirst(old(top.loadables), Same(n))
              && top.place == old(top.place)[n := PlaceOf(old(top.t.View()), old(top.loadables), n)]
            else
              && top.t.View() == old(top.t.View()) && top.homes == old(top.homes)
              && top.loadables == old(top.loadables) && top.place == old(top.place)
  {
    top.lookup := top.lookup - {top.info(n).name};
    top.attached := top.attached - {n};
    if top.info(n).loadable {
      RemoveItself(top, n);
    }
  }

  /** The part of it that is for loadables: their positions are recorded. */
  method RemoveItself(top: Toplevel, n: Node)
    requires top.t.Valid() && n != ORPHANS && n in top.t.parent
    modifies top`loadables, top`place, top`homes, top.t`parent, top.t`contents
    ensures top.t.Valid() && Rest(top) == old(Rest(top))
    ensures top.t.View() == Detach(old(top.t.View()), n) && top.homes == old(top.homes) - {n}
    ensures top.loadables == RemoveFirst(old(top.loadables), Same(n))
    ensures top.place == old(top.place)[n := PlaceOf(old(top.t.View()), old(top.loadables), n)]
  {
    var pos := Unhang(top, n);
    var i := Find(top.loadables, n);
    top.place := top.place[n := Place(pos, i)];
    if i < |top.loadables| {
      top.loadables := Without(top.loadables, i);
    }
  }

  /** A loadable leaves the contents of its parent. */
  method Unhang(top: Toplevel, n: Node) returns (pos: nat)
    requires top.t.Valid() && n != ORPHANS && n in top.t.parent
    modifies top`homes, top.t`parent, top.t`contents
    ensures top.t.Valid() && Rest(top) == old(Rest(top))
    ensures top.t.View() == Detach(old(top.t.View()), n) && top.homes == old(top.homes) - {n}
    ensures pos == First(Get(old(top.t.contents), old(top.t.parent)[n]), Same(n))
  {
    pos := top.t.TakeOut(n);
    top.homes := top.homes - {n};
  }

  /** remove_loadable_from_toplevel(), which goes through the nodes from the back. */
  method RemoveLoadable(top: Toplevel, nodes: seq<Node>)
    requires top.t.Valid() && LedByLoadable(top.info, nodes) && nodes[0] in top.t.parent
    requires TOP !in nodes && ORPHANS !in nodes
    modifies top`lookup, top`attached, top`loadables, top`place, top`homes
    modifies top.t`parent, top.t`contents
    ensures top.t.Valid() && top.t.View() == Detach(old(top.t.View()), nodes[0])
    ensures top.homes == old(top.homes) - {nodes[0]} && Rest(top) == old(Rest(top))
    ensures RegisterOf(top) == Unregistered(old(RegisterOf(top)), top.info, nodes)
    ensures top.place == old(top.place)[nodes[0] := PlaceOf(old(top.t.View()), old(top.loadables), nodes[0])]
  {
    RemoveFollowers(top, nodes);
    assert nodes[..1][..0] == [];
    assert nodes == [nodes[0]] + nodes[1..];
    RemoveNode(top, nodes[0]);
  }

  /** All nodes but the loadable itself. */
  method RemoveFollowers(top: Toplevel, nodes: seq<Node>)
    requires top.t.Valid() && LedByLoadable(top.info, nodes) && TOP !in nodes && ORPHANS !in nodes
    modifies top`lookup, top`attached, top`loadables, top`place, top`homes
    modifies top.t`parent, top.t`contents
    ensures top.t.Valid() && top.t.View() == old(top.t.View()) && top.homes == old(top.homes)
    ensures Rest(top) == old(Rest(top))
    ensures RemoveNames(top.lookup, top.info, nodes[..1]) == RemoveNames(old(top.lookup), top.info, nodes)
    ensures top.attached == old(top.attached) - Members(nodes[1..])
    ensures top.loadables == old(top.loadables) && top.place == old(top.place)
  {
    var i := |nodes|;
    assert nodes[..i] == nodes && nodes[i..] == [];
    while i > 1
      invariant 1 <= i <= |nodes|
      invariant top.t.Valid() && top.t.View() == old(top.t.View()) && top.homes == old(top.homes)
      invariant Rest(top) == old(Rest(top))
      invariant RemoveNames(top.lookup, top.info, nodes[..i]) == RemoveNames(old(top.lookup), top.info, nodes)
      invariant top.attached == old(top.attached) - Members(nodes[i..])
      invariant top.loadables == old(top.loadables) && top.place == old(top.place)
    {
      i := i - 1;
      assert nodes[..i + 1][..i] == nodes[..i];
      assert nodes[i..] == [nodes[i]] + nodes[i + 1..];
      RemoveNode(top, nodes[i]);
    }
  }

  lemma RemovalWires(l: Links, lookup: Table, attached: set<Node>, info: Node -> Info,
                     active: set<Key>, noisy: set<Key>, nodes: seq<Node>)
    requires WiredIn(l, lookup, attached, info, active, noisy)
    requires Members(nodes) <= attached && ORPHANS !in nodes && NoneLeadsTo(l.refs, nodes)
    requires forall k | k in active :: k.node !in nodes
    ensures WiredIn(l, RemoveNames(lookup, info, nodes), attached - Members(nodes), info, active, noisy)
  {
    RemovedNames(lookup, info, nodes);
    forall k, i | k in l.refs && 0 <= i < |l.refs[k]| && l.refs[k][i].dest.Some?
      ensures l.refs[k][i] == Resolved(l.refs[k][i], RemoveNames(lookup, info, nodes))
    {
      assert lookup[l.refs[k][i].name] !in nodes;
    }
  }

  /** A reference that a removed package leaves unbound has a name that went with the package. */
  lemma RemovalCompletes(refs0: map<Key, seq<Ref>>, l: Links, lookup: Table, attached: set<Node>, info: Node -> Info,
                         active0: set<Key>, active: set<Key>, noisy: set<Key>, nodes: seq<Node>)
    requires WiredIn(l, lookup, attached, info, active, noisy) && Complete(refs0, lookup, active0)
    requires LetsGo(refs0, l.refs, nodes) && NoneLeadsTo(l.refs, nodes)
    requires active <= active0 && forall k | k in active :: k.node !in nodes
    requires Members(nodes) <= attached
    ensures Complete(l.refs, RemoveNames(lookup, info, nodes), active)
  {
    RemovedNames(lookup, info, nodes);
    forall k, i | k in active && k in l.refs && 0 <= i < |l.refs[k]|
      ensures l.refs[k][i] == Resolved(l.refs[k][i], RemoveNames(lookup, info, nodes))
    {
      var (r, r0) := (l.refs[k][i], refs0[k][i]);
      assert r0 == Resolved(r0, lookup);
      assert r == r0 || (r.dest.None? && r0.dest.Some? && r0.dest.value in nodes);
      if r.name in lookup && lookup[r.name] in nodes {
        assert info(lookup[r.name]).name == r.name;
      }
    }
  }

  lemma RemovalPlaces(s: Snapshot, info: Node -> Info, nodes: seq<Node>)
    requires Settled(s, info) && IsPackage(info, nodes) && Members(nodes) <= s.register.attached
    requires HasParent(s.shape, nodes[0], TOP)
    requires forall n | n in nodes && n != nodes[0] ::
               n in s.shape.parent && s.shape.parent[n] in nodes
                   && (info(n).Parental() ==> s.shape.parent[n] == nodes[0])
    requires forall n | n in s.register.attached && n !in nodes :: n in s.shape.parent && s.shape.parent[n] !in nodes
    requires forall n | n in nodes :: n in s.owner && s.owner[n] == nodes[0]
    ensures PlacedIn(Detach(s.shape, nodes[0]), s.links.refs, s.refused, s.register.attached - Members(nodes), s.owner,
                     s.homes - {nodes[0]}, info, s.active, s.noisy)
  {
    var shape, attached := s.shape, s.register.attached;
    var (shape', attached') := (Detach(shape, nodes[0]), attached - Members(nodes));
    forall n | n in attached'
      ensures Home(shape', s.links.refs, attached', s.owner, info, n)
    {
      assert Home(shape, s.links.refs, attached, s.owner, info, n);
    }
    forall n | n in attached' && info(n).Parental() && ParentKey(info, n) in s.active
      ensures Obeyed(shape', s.links.refs, s.refused, info, n)
    {
      assert Obeyed(shape, s.links.refs, s.refused, info, n);
    }
    forall n
      ensures Stowed(shape', attached', s.owner, s.homes - {nodes[0]}, n)
    {
      assert Stowed(shape, attached, s.owner, s.homes, n);
      if n in nodes && n != nodes[0] {
        assert Home(shape, s.links.refs, attached, s.owner, info, n);
        Oldest(info, nodes, n);
      }
    }
  }

  lemma Oldest(info: Node -> Info, nodes: seq<Node>, n: Node)
    requires IsPackage(info, nodes) && n in nodes && n != nodes[0]
    ensures nodes[0] < n && !info(n).loadable
  {
    var i :| 0 <= i < |nodes| && nodes[i] == n;
    assert Older(nodes, 0, i);
  }

  // ---------------------------------------------------------------------------------------
  // Unloading.

  /** unload_package(): unbind, then take out of the toplevel. */
  method Unload(top: Toplevel, L: Node)
    requires Whole(top) && L in top.loadables
    modifies top`lookup, top`attached, top`loadables, top`place, top`homes, top`active, top`noisy
    modifies top.b, top.t
    ensures Whole(top) && L in top.owned && L !in top.attached
    ensures RegisterOf(top) == Unregistered(old(RegisterOf(top)), top.info, top.owned[L])
    ensures L in top.place && top.place == old(top.place)[L := top.place[L]]
    ensures top.place[L].index == First(old(top.loadables), Same(L))
    ensures top.place[L].position <= |Get(top.t.contents, TOP)|
    ensures StayStuck(old(top.t.parent), old(top.t.refused), top.b.refs, top.t.parent, top.t.refused, top.info)
    ensures top.t.StuckNodes() <= old(top.t.StuckNodes())
  {
    ghost var before := SnapshotOf(top);
    UnbindPackage(top, L);
    TakeOut(top, before, L);
  }

  /** The catch block of unload_package(): whatever was done when the exception came is undone. */
  method UnloadInVain(top: Toplevel, L: Node, removed: bool)
    requires Whole(top) && L in top.loadables
    modifies top`lookup, top`attached, top`loadables, top`place, top`homes, top`active, top`noisy
    modifies top.b, top.t
    ensures Whole(top) && RegisterOf(top) == old(RegisterOf(top)) && top.place == old(top.place)
  {
    if removed {
      UnloadAndReload(top, L);
    } else {
      UnbindAndBind(top, L);
    }
  }

  method UnloadAndReload(top: Toplevel, L: Node)
    requires Whole(top) && L in top.loadables
    modifies top`lookup, top`attached, top`loadables, top`place, top`homes, top`active, top`noisy
    modifies top.b, top.t
    ensures Whole(top) && RegisterOf(top) == old(RegisterOf(top)) && top.place == old(top.place)
  {
    ReloadFits(top, L);
    Unload(top, L);
    var defined := Reload(top, L);
  }

  /** What unloading and reloading a package comes to. */
  lemma ReloadFits(top: Toplevel, L: Node)
    requires Whole(top) && L in top.loadables
    ensures L in top.owned && L in top.attached && top.owned[L] != [] && top.owned[L][0] == L
    ensures var (r, nodes, i) := (RegisterOf(top), top.owned[L], First(top.loadables, Same(L)));
            var r' := Unregistered(r, top.info, nodes);
            && Free(r'.lookup, top.info, nodes) && i <= |r'.loadables| && Reregistered(r', top.info, nodes, i) == r
            && forall pos :: top.place[L := Place(pos, i)] - {L} == top.place
  {
    PackageFacts(SnapshotOf(top), top.info, top.names, L);
    var nodes := top.owned[L];
    ReloadUndoesUnload(RegisterOf(top), top.info, nodes);
    AddUndoesRemove(top.lookup, top.info, nodes);
  }

  method UnbindAndBind(top: Toplevel, L: Node)
    requires Whole(top) && L in top.loadables
    modifies top`active, top`noisy, top.b, top.t
    ensures Whole(top)
  {
    ghost var before := SnapshotOf(top);
    UnbindPackage(top, L);
    CanRebind(before, SnapshotOf(top), top.info, top.names, L);
    BindPackage(top, L);
  }

  /** A package that is in the toplevel and has just been unbound can be bound again. */
  lemma CanRebind(before: Snapshot, now: Snapshot, info: Node -> Info, names: Key -> seq<string>, L: Node)
    requires Parting(before, now, info, names, L) && L in now.owned
    ensures AllFineBut(now, info, names, L)
  {
    PartingGives(before, now, info, names, L);
    KeysOfAllAre(info, now.owned[L]);
    AllStandApart(now, info, before.links.refs, before.active, L);
  }

  /** Packages other than L keep their standing when L is unbound. */
  lemma AllStandApart(s: Snapshot, info: Node -> Info, refs: map<Key, seq<Ref>>, active: set<Key>, L: Node)
    requires Listed(s.owner, s.owned, info, s.next) && L in s.owned
    requires AllStand(s.owned, s.register.attached, s.register.loadables, s.homes, refs, active, info)
    requires LetsGo(refs, s.links.refs, s.owned[L]) && s.active == active - KeysOfAll(info, s.owned[L])
    ensures forall M {:trigger Stands(s.owned, s.register.attached, s.register.loadables, s.homes, s.links.refs,
                                      s.active, info, M)} | M != L ::
              Stands(s.owned, s.register.attached, s.register.loadables, s.homes, s.links.refs, s.active, info, M)
  {
    KeysOfAllAre(info, s.owned[L]);
    forall M | M != L
      ensures Stands(s.owned, s.register.attached, s.register.loadables, s.homes, s.links.refs, s.active, info, M)
    {
      assert Stands(s.owned, s.register.attached, s.register.loadables, s.homes, refs, active, info, M);
      if M in s.owned && s.owned[M] != [] {
        KeysOfAllAre(info, s.owned[M]);
        Apart(s.owner, s.owned, info, s.next, L, M);
        if M !in s.register.attached {
          StillOut(refs, s.links.refs, info, active, s.active, s.owned[M], s.owned[L]);
        }
      }
    }
  }

  /** The references of a package are unbound; it is still in the toplevel. */
  method UnbindPackage(top: Toplevel, L: Node)
    requires Whole(top) && L in top.loadables
    modifies top`active, top`noisy, top.b, top.t
    ensures Parting(old(SnapshotOf(top)), SnapshotOf(top), top.info, top.names, L)
    ensures top.Sane() && L in top.owned
    ensures StayStuck(old(top.t.parent), old(top.t.refused), top.b.refs, top.t.parent, top.t.refused, top.info)
    ensures top.t.StuckNodes() <= old(top.t.StuckNodes())
  {
    ghost var before := SnapshotOf(top);
    CanUnbind(top, L);
    OwnersAre(top);
    top.Unbind(top.owned[L]);
    IsParting(top, before, L);
  }

  /** Unbinding has done what it should, and nothing else. */
  ghost predicate HasParted(top: Toplevel, before: Snapshot, L: Node)
    reads top, top.b, top.t
  {
    && L in before.owned && before.owned[L] != [] && top.Sane()
    && LetsGo(before.links.refs, top.b.refs, before.owned[L]) && top.Isolated(before.owned[L])
    && top.active == top.noisy == before.active - KeysOfAll(top.info, before.owned[L])
    && RegisterOf(top) == before.register && top.owner == before.owner && top.owned == before.owned
    && top.homes == before.homes && top.next == before.next && top.filed == before.filed
  }

  lemma IsParting(top: Toplevel, before: Snapshot, L: Node)
    requires AllFine(before, top.info, top.names) && L in before.register.loadables && L in before.owned
    requires HasParted(top, before, L)
    ensures Parting(before, SnapshotOf(top), top.info, top.names, L)
  {
    PartsRecords(top, before, L);
    PartsBindings(top, before, L);
    PartsSanely(top, before, L);
    PartsPackages(top, before, L);
  }

  lemma PartsSanely(top: Toplevel, before: Snapshot, L: Node)
    requires AllFine(before, top.info, top.names) && L in before.register.loadables && HasParted(top, before, L)
    ensures Parted(before, SnapshotOf(top), top.info, top.names, L, Sanity)
  {
    PackageFacts(before, top.info, top.names, L);
    top.SaneGives();
  }

  lemma PartsBindings(top: Toplevel, before: Snapshot, L: Node)
    requires AllFine(before, top.info, top.names) && L in before.register.loadables && HasParted(top, before, L)
    ensures Parted(before, SnapshotOf(top), top.info, top.names, L, Bindings)
  {
    FineGives(before, top.info, top.names);
    PackageFacts(before, top.info, top.names, L);
    top.SaneGives();
    KeysOfAllAre(top.info, before.owned[L]);
  }

  lemma PartsRecords(top: Toplevel, before: Snapshot, L: Node)
    requires AllFine(before, top.info, top.names) && L in before.register.loadables && HasParted(top, before, L)
    ensures Parted(before, SnapshotOf(top), top.info, top.names, L, Records)
  {
    FineGives(before, top.info, top.names);
    PackageFacts(before, top.info, top.names, L);
    HaveHomes(top, before.owned[L]);
    PartsSpelled(before.links.refs, top.b.refs, top.names, before.owned[L]);
  }

  lemma PartsSpelled(refs: map<Key, seq<Ref>>, refs': map<Key, seq<Ref>>, names: Key -> seq<string>, nodes: seq<Node>)
    requires Spelled(refs, names) && LetsGo(refs, refs', nodes)
    ensures Spelled(refs', names)
  {
  }

  lemma PartsPackages(top: Toplevel, before: Snapshot, L: Node)
    requires AllFine(before, top.info, top.names) && HasParted(top, before, L)
    ensures Parted(before, SnapshotOf(top), top.info, top.names, L, Packages)
  {
    FineGives(before, top.info, top.names);
  }

  /** Between two snapshots a package has been unbound, and nothing else has happened. */
  ghost predicate Parted(before: Snapshot, now: Snapshot, info: Node -> Info, names: Key -> seq<string>,
                         L: Node, a: Aspect)
  {
    L in now.owned && now.owned[L] != [] &&
    var nodes := now.owned[L];
    match a
    case Sanity =>
      && Settled(now, info) && now.active == before.active - KeysOfAll(info, nodes)
      && NoneLeadsTo(now.links.refs, nodes) && HasParent(now.shape, L, TOP)
      && (forall n | n in nodes && n != L ::
            n in now.shape.parent && now.shape.parent[n] in nodes && (info(n).Parental() ==> now.shape.parent[n] == L))
      && (forall n | n in now.register.attached && n !in nodes ::
            n in now.shape.parent && now.shape.parent[n] !in nodes)
      && (forall k | k in now.active :: k.node !in nodes)
    case Bindings =>
      && Complete(before.links.refs, now.register.lookup, before.active)
      && LetsGo(before.links.refs, now.links.refs, nodes) && (forall k | k in before.active :: k in before.links.refs)
      && KeysOfAll(info, nodes) <= before.active
      && (forall k, i | OneOf(info, nodes, k) && k in now.links.refs && 0 <= i < |now.links.refs[k]| ::
            now.links.refs[k][i].dest.None?)
    case Records =>
      && Books(now, info, names) && IsPackage(info, nodes) && nodes[0] == L && ORPHANS !in nodes && TOP !in nodes
      && Members(nodes) <= now.register.attached && L in now.register.loadables
      && (forall n | n in nodes :: n in now.homes && n in now.owner && now.owner[n] == L)
    case Packages =>
      AllStand(now.owned, now.register.attached, now.register.loadables, now.homes, before.links.refs,
               before.active, info)
  }

  ghost predicate Parting(before: Snapshot, now: Snapshot, info: Node -> Info, names: Key -> seq<string>, L: Node) {
    NotParted(before, now, info, names, L) == {}
  }

  ghost function NotParted(before: Snapshot, now: Snapshot, info: Node -> Info, names: Key -> seq<string>,
                           L: Node): set<Aspect>
  {
    set a: Aspect | !Parted(before, now, info, names, L, a)
  }

  lemma PartingGives(before: Snapshot, now: Snapshot, info: Node -> Info, names: Key -> seq<string>, L: Node)
    requires Parting(before, now, info, names, L)
    ensures Parted(before, now, info, names, L, Sanity) && Parted(before, now, info, names, L, Bindings)
    ensures Parted(before, now, info, names, L, Records) && Parted(before, now, info, names, L, Packages)
  {
    assert Sanity !in NotParted(before, now, info, names, L) && Bindings !in NotParted(before, now, info, names, L);
    assert Records !in NotParted(before, now, info, names, L) && Packages !in NotParted(before, now, info, names, L);
  }

  function TakenAway(s: Snapshot, info: Node -> Info, nodes: seq<Node>): Snapshot
    requires nodes != [] && nodes[0] in s.shape.parent
  {
    s.(register := Unregistered(s.register, info, nodes), shape := Detach(s.shape, nodes[0]),
       homes := s.homes - {nodes[0]})
  }

  /** remove_loadable_from_toplevel(), on the records. */
  method TakeAway(top: Toplevel, nodes: seq<Node>)
    requires top.t.Valid() && LedByLoadable(top.info, nodes) && nodes[0] in top.t.parent
    requires TOP !in nodes && ORPHANS !in nodes && Distinct(top.loadables) && nodes[0] < top.next
    requires Filed(top.loadables, top.place, top.next)
    modifies top`lookup, top`attached, top`loadables, top`place, top`homes
    modifies top.t`parent, top.t`contents
    ensures top.t.Valid() && SnapshotOf(top) == TakenAway(old(SnapshotOf(top)), top.info, nodes)
    ensures Filed(top.loadables, top.place, top.next)
    ensures top.place == old(top.place)[nodes[0] := PlaceOf(old(top.t.View()), old(top.loadables), nodes[0])]
  {
    var L := nodes[0];
    FiledMore(top.loadables, top.place, top.next, L, PlaceOf(top.t.View(), top.loadables, L));
    RemoveLoadable(top, nodes);
    assert Rest(top) == old(Rest(top));
  }

  /** Take a package out of the toplevel that has just been unbound. */
  method TakeOut(top: Toplevel, ghost before: Snapshot, L: Node)
    requires top.Sane() && Parting(before, SnapshotOf(top), top.info, top.names, L) && L in top.owned
    requires Filed(top.loadables, top.place, top.next)
    modifies top`lookup, top`attached, top`loadables, top`place, top`homes
    modifies top.t`parent, top.t`contents
    ensures Whole(top) && L !in top.attached
    ensures RegisterOf(top) == Unregistered(old(RegisterOf(top)), top.info, top.owned[L])
    ensures L in top.place && top.place == old(top.place)[L := top.place[L]]
    ensures top.place[L].index == First(old(top.loadables), Same(L))
    ensures top.place[L].position <= |Get(top.t.contents, TOP)|
    ensures top.t.StuckNodes() == old(top.t.StuckNodes())
  {
    ghost var mid := SnapshotOf(top);
    CanLeave(top, before, L);
    AttachUndoesDetach(mid.shape, L);
    IsNotRefused(before, mid, top.info, top.names, L);
    TakeAway(top, top.owned[L]);
    TakenOutWhole(before, mid, SnapshotOf(top), top.info, top.names, L);
    FineIsWhole(top);
  }

  lemma CanLeave(top: Toplevel, before: Snapshot, L: Node)
    requires top.Sane() && Parting(before, SnapshotOf(top), top.info, top.names, L) && L in top.owned
    ensures top.t.Valid() && top.t.info == top.info && IsPackage(top.info, top.owned[L]) && top.owned[L][0] == L
    ensures HasParent(top.t.View(), L, TOP) && TOP !in top.owned[L] && ORPHANS !in top.owned[L]
    ensures Distinct(top.loadables) && L < top.next
  {
    PartingGives(before, SnapshotOf(top), top.info, top.names, L);
    top.SaneGives();
    assert NodeListed(top.owner, top.owned, top.next, L);
  }

  /** No node of a package that has been unbound counts as refused. */
  lemma IsNotRefused(before: Snapshot, mid: Snapshot, info: Node -> Info, names: Key -> seq<string>, L: Node)
    requires Parting(before, mid, info, names, L)
    ensures L !in mid.refused
  {
    PartingGives(before, mid, info, names, L);
    assert L in mid.owned[L];
  }

  lemma FiledMore(loadables: seq<Node>, place: map<Node, Place>, next: Node, L: Node, p: Place)
    requires Filed(loadables, place, next) && Distinct(loadables) && L < next
    ensures Filed(RemoveFirst(loadables, Same(L)), place[L := p], next)
  {
    RemoveFirstLeaves(loadables, L);
  }

  lemma FiledLess(loadables: seq<Node>, place: map<Node, Place>, next: Node, L: Node, i: nat)
    requires Filed(loadables, place, next) && i <= |loadables|
    ensures Filed(InsertAt(loadables, i, L), place - {L}, next)
  {
    assert loadables == loadables[..i] + loadables[i..];
  }

  /** What is left after a package has been taken out is whole if it was before. */
  lemma TakenOutWhole(before: Snapshot, mid: Snapshot, now: Snapshot, info: Node -> Info, names: Key -> seq<string>,
                      L: Node)
    requires Parting(before, mid, info, names, L) && L in mid.owned
    requires mid.owned[L] != [] && mid.owned[L][0] == L && L in mid.shape.parent
    requires now == TakenAway(mid, info, mid.owned[L])
    ensures AllFine(now, info, names) && L !in now.register.attached
  {
    PartingGives(before, mid, info, names, L);
    var nodes := mid.owned[L];
    var r := mid.register;
    assert L in Members(nodes);
    RemovalWires(mid.links, r.lookup, r.attached, info, mid.active, mid.noisy, nodes);
    RemovalCompletes(before.links.refs, mid.links, r.lookup, r.attached, info, before.active, mid.active,
                     mid.noisy, nodes);
    RemovalPlaces(mid, info, nodes);
    DetachAgrees(mid.shape, L);
    RemoveFirstLeaves(r.loadables, L);
    AllStandWithout(mid.owner, mid.owned, r.attached, r.loadables, mid.homes, before.links.refs, mid.links.refs,
                    before.active, info, mid.next, L);
    MakesFine(now, info, names);
  }

  lemma HaveHomes(top: Toplevel, nodes: seq<Node>)
    requires top.Sane() && nodes != [] && top.Isolated(nodes)
    ensures forall n | n in nodes :: n in top.homes
  {
    top.SaneGives();
    forall n | n in nodes
      ensures n in top.homes
    {
      assert Stowed(top.t.View(), top.attached, top.owner, top.homes, n);
    }
  }

  /** Attached nodes belong to loadables that are attached. */
  lemma OwnersAre(top: Toplevel)
    requires Whole(top)
    ensures OwnedIn(top.owner, top.attached, top.info)
  {
    WholeGives(top);
    top.SaneGives();
    forall n | n in top.attached
      ensures Owned(top.owner, top.attached, top.info, n)
    {
      assert NodeListed(top.owner, top.owned, top.next, n);
      var M := top.owner[n];
      assert PackageListed(top.owner, top.owned, top.info, M);
      assert Stands(top.owned, top.attached, top.loadables, top.homes, top.b.refs, top.active, top.info, M);
      assert M in top.owned[M];
      if n != M {
        Oldest(top.info, top.owned[M], n);
      }
    }
  }

  /** What is known of a loaded package. */
  lemma PackageFacts(s: Snapshot, info: Node -> Info, names: Key -> seq<string>, L: Node)
    requires AllFine(s, info, names) && L in s.register.loadables
    ensures L in s.owned && L in s.register.attached && s.active == s.noisy
    ensures var nodes := s.owned[L];
            && IsPackage(info, nodes) && nodes[0] == L && TOP !in nodes && ORPHANS !in nodes && Distinct(nodes)
            && KeysOfAll(info, nodes) <= s.active && Members(nodes) <= s.register.attached
            && (forall n | n in nodes :: n in s.register.attached && n in s.owner && s.owner[n] == L)
            && (forall n | n in s.register.attached && n in s.owner && s.owner[n] == L :: n in nodes)
            && Known(s.register.lookup, info, nodes)
            && (forall k | k in s.active && k !in KeysOfAll(info, nodes) :: k.node !in nodes)
  {
    FineGives(s, info, names);
    var nodes := s.owned[L];
    assert PackageListed(s.owner, s.owned, info, L);
    assert Stands(s.owned, s.register.attached, s.register.loadables, s.homes, s.links.refs, s.active, info, L);
    AscendingIsDistinct(nodes);
    KeysOfAllAre(info, nodes);
    forall i | 0 <= i < |nodes|
      ensures nodes[i] in s.register.attached && nodes[i] in s.owner && s.owner[nodes[i]] == L && nodes[i] > 1
    {
      assert nodes[i] in Members(nodes);
      assert NodeListed(s.owner, s.owned, s.next, nodes[i]);
    }
    forall n | n in s.register.attached && n in s.owner && s.owner[n] == L
      ensures n in nodes
    {
      assert NodeListed(s.owner, s.owned, s.next, n);
    }
  }

  /** What unbinding a package needs. */
  lemma CanUnbind(top: Toplevel, L: Node)
    requires Whole(top) && L in top.loadables
    ensures L in top.owned && top.active == top.noisy && top.BelongTogether(top.owned[L])
    ensures KeysOfAll(top.info, top.owned[L]) <= top.active && top.owned[L][0] == L
    ensures forall n | n in top.attached && n in top.owner && top.owner[n] == L :: n in top.owned[L]
  {
    PackageFacts(SnapshotOf(top), top.info, top.names, L);
  }

  lemma RemoveFirstLeaves(s: seq<Node>, n: Node)
    requires Distinct(s)
    ensures Distinct(RemoveFirst(s, Same(n)))
    ensures forall m :: m in RemoveFirst(s, Same(n)) <==> m in s && m != n
  {
    var i := First(s, Same(n));
    var r := RemoveFirst(s, Same(n));
    if i < |s| {
      assert forall j | 0 <= j < |r| :: r[j] == if j < i then s[j] else s[j + 1];
      forall m | m in s && m != n
        ensures m in r
      {
        var j :| 0 <= j < |s| && s[j] == m;
        assert m == if j < i then r[j] else r[j - 1];
      }
    }
  }

  lemma Apart(owner: map<Node, Node>, owned: map<Node, seq<Node>>, info: Node -> Info, next: Node, L: Node, M: Node)
    requires Listed(owner, owned, info, next) && L in owned && M in owned && L != M
    ensures forall n | n in owned[M] :: n !in owned[L]
  {
    assert PackageListed(owner, owned, info, L) && PackageListed(owner, owned, info, M);
  }

  /** A package owns no loadable but itself. */
  lemma OnlyItself(top: Toplevel, L: Node)
    requires Whole(top) && L in top.owned
    ensures forall M | M in top.owned && M != L :: M !in top.owned[L]
  {
    WholeGives(top);
    forall M | M in top.owned && M != L
      ensures M !in top.owned[L]
    {
      assert PackageListed(top.owner, top.owned, top.info, M) && M in top.owned[M];
      Apart(top.owner, top.owned, top.info, top.next, L, M);
    }
  }

  lemma LoadablesAre(top: Toplevel)
    requires Whole(top)
    ensures Distinct(top.loadables) && forall L | L in top.loadables :: L in top.owned && L < top.next
  {
    WholeGives(top);
    AllAreOlder(SnapshotOf(top), top.info, top.names);
  }

  /** Packages other than L keep their standing when L is taken out. */
  lemma AllStandWithout(owner: map<Node, Node>, owned: map<Node, seq<Node>>, attached: set<Node>, loadables: seq<Node>,
                        homes: set<Node>, refs: map<Key, seq<Ref>>, refs': map<Key, seq<Ref>>, active: set<Key>,
                        info: Node -> Info, next: Node, L: Node)
    requires Listed(owner, owned, info, next) && L in owned && Distinct(loadables) && L in attached
    requires AllStand(owned, attached, loadables, homes, refs, active, info)
    requires LetsGo(refs, refs', owned[L])
    requires forall k, i | OneOf(info, owned[L], k) && k in refs' && 0 <= i < |refs'[k]| :: refs'[k][i].dest.None?
    requires (forall k | k in active :: k in refs) && (forall n | n in owned[L] :: n in homes)
    ensures AllStand(owned, attached - Members(owned[L]), RemoveFirst(loadables, Same(L)), homes - {L},
                     refs', active - KeysOfAll(info, owned[L]), info)
  {
    var attached' := attached - Members(owned[L]);
    var loadables' := RemoveFirst(loadables, Same(L));
    var active' := active - KeysOfAll(info, owned[L]);
    RemoveFirstLeaves(loadables, L);
    KeysOfAllAre(info, owned[L]);
    assert PackageListed(owner, owned, info, L) && L in owned[L];
    assert Stands(owned, attached, loadables, homes, refs, active, info, L);
    forall M
      ensures Stands(owned, attached', loadables', homes - {L}, refs', active', info, M)
    {
      assert Stands(owned, attached, loadables, homes, refs, active, info, M);
      if M in owned && M != L {
        assert PackageListed(owner, owned, info, M);
        KeysOfAllAre(info, owned[M]);
        Apart(owner, owned, info, next, L, M);
        assert M in owned[M];
        if M !in attached {
          StillOut(refs, refs', info, active, active', owned[M], owned[L]);
        }
      }
    }
  }

  lemma StillOut(refs: map<Key, seq<Ref>>, refs': map<Key, seq<Ref>>, info: Node -> Info,
                 noisy: set<Key>, noisy': set<Key>, nodes: seq<Node>, gone: seq<Node>)
    requires Unbound(refs, info, noisy, nodes) && LetsGo(refs, refs', gone) && noisy' <= noisy
    ensures Unbound(refs', info, noisy', nodes)
  {
    forall k | OneOf(info, nodes, k)
      ensures k in refs' && k !in noisy' && forall i | 0 <= i < |refs'[k]| :: refs'[k][i].dest.None?
    {
      assert forall i | 0 <= i < |refs[k]| :: refs'[k][i] == refs[k][i] || refs'[k][i].dest.None?;
    }
  }

  // ---------------------------------------------------------------------------------------
  // Undoing an unload.

  /** What add_node_to_toplevel() asserts of a loadable: it has no parent, and the recorded places
      are in range. Without debugging nothing is checked, and insertion past the end is undefined. */
  predicate CanReturn(place: map<Node, Place>, loadables: seq<Node>, s: Shape, L: Node) {
    L !in s.parent && L in place && place[L].index <= |loadables| && place[L].position <= |Get(s.contents, TOP)|
  }

  /** add_node_to_toplevel(). A loadable goes back to the places that were recorded. */
  method AddNodeAgain(top: Toplevel, n: Node)
    requires top.t.Valid() && n != TOP
    requires top.info(n).loadable ==> CanReturn(top.place, top.loadables, top.t.View(), n)
    modifies top`lookup, top`attached, top`loadables, top`place, top`homes
    modifies top.t`parent, top.t`contents, top.t`rank, top.t`height
    ensures top.t.Valid() && Rest(top) == old(Rest(top))
    ensures top.lookup == old(top.lookup)[top.info(n).name := n] && top.attached == old(top.attached) + {n}
    ensures if top.info(n).loadable
            then
              && top.t.View() == Attach(old(top.t.View()), n, TOP, old(top.place)[n].position)
              && top.homes == old(top.homes) + {n}
              && top.loadables == InsertAt(old(top.loadables), old(top.place)[n].index, n)
              && top.place == old(top.place) - {n}
            else
              && top.t.View() == old(top.t.View()) && top.homes == old(top.homes)
              && top.loadables == old(top.loadables) && top.place == old(top.place)
  {
    top.lookup := top.lookup[top.info(n).name := n];
    top.attached := top.attached + {n};
    if top.info(n).loadable {
      AddItself(top, n);
    }
  }

  /** The part of it that is for loadables. */
  method AddItself(top: Toplevel, n: Node)
    requires top.t.Valid() && n != TOP && CanReturn(top.place, top.loadables, top.t.View(), n)
    modifies top`loadables, top`place, top`homes
    modifies top.t`parent, top.t`contents, top.t`rank, top.t`height
    ensures top.t.Valid() && Rest(top) == old(Rest(top))
    ensures top.t.View() == Attach(old(top.t.View()), n, TOP, old(top.place)[n].position)
    ensures top.homes == old(top.homes) + {n} && top.place == old(top.place) - {n}
    ensures top.loadables == InsertAt(old(top.loadables), old(top.place)[n].index, n)
  {
    top.homes := top.homes + {n};
    top.loadables := InsertAt(top.loadables, top.place[n].index, n);
    top.t.PutBack(n, top.place[n].position);
    top.place := top.place - {n};
  }

  /** add_loadable_to_toplevel(), from the front. */
  method AddLoadable(top: Toplevel, nodes: seq<Node>)
    requires top.t.Valid() && LedByLoadable(top.info, nodes) && TOP !in nodes
    requires CanReturn(top.place, top.loadables, top.t.View(), nodes[0])
    modifies top`lookup, top`attached, top`loadables, top`place, top`homes
    modifies top.t`parent, top.t`contents, top.t`rank, top.t`height
    ensures top.t.Valid() && top.homes == old(top.homes) + {nodes[0]} && Rest(top) == old(Rest(top))
    ensures top.t.View() == Attach(old(top.t.View()), nodes[0], TOP, old(top.place)[nodes[0]].position)
    ensures RegisterOf(top) == Reregistered(old(RegisterOf(top)), top.info, nodes, old(top.place)[nodes[0]].index)
    ensures top.place == old(top.place) - {nodes[0]}
  {
    AddNodeAgain(top, nodes[0]);
    assert nodes[..1] == [nodes[0]] && nodes[..1][..0] == [];
    AddFollowers(top, nodes, old(top.lookup));
    FirstAndRest(old(top.attached), nodes);
  }

  lemma FirstAndRest(attached: set<Node>, nodes: seq<Node>)
    requires nodes != []
    ensures attached + {nodes[0]} + Members(nodes[1..]) == attached + Members(nodes)
  {
    assert nodes == [nodes[0]] + nodes[1..];
  }

  /** All nodes but the loadable itself. */
  method AddFollowers(top: Toplevel, nodes: seq<Node>, ghost lookup: Table)
    requires top.t.Valid() && LedByLoadable(top.info, nodes) && TOP !in nodes
    requires top.lookup == AddNames(lookup, top.info, nodes[..1])
    modifies top`lookup, top`attached, top`loadables, top`place, top`homes
    modifies top.t`parent, top.t`contents, top.t`rank, top.t`height
    ensures top.t.Valid() && top.t.View() == old(top.t.View()) && top.homes == old(top.homes)
    ensures Rest(top) == old(Rest(top))
    ensures top.loadables == old(top.loadables) && top.place == old(top.place)
    ensures top.lookup == AddNames(lookup, top.info, nodes)
    ensures top.attached == old(top.attached) + Members(nodes[1..])
  {
    var i := 1;
    while i < |nodes|
      invariant 1 <= i <= |nodes|
      invariant top.t.Valid() && top.t.View() == old(top.t.View()) && top.homes == old(top.homes)
      invariant Rest(top) == old(Rest(top))
      invariant top.loadables == old(top.loadables) && top.place == old(top.place)
      invariant top.lookup == AddNames(lookup, top.info, nodes[..i])
      invariant top.attached == old(top.attached) + Members(nodes[1..i])
    {
      AddNodeAgain(top, nodes[i]);
      assert nodes[..i + 1][..i] == nodes[..i] && nodes[1..i + 1] == nodes[1..i] + [nodes[i]];
      i := i + 1;
    }
    assert nodes[..i] == nodes && nodes[1..i] == nodes[1..];
  }

  lemma AdditionWires(l: Links, lookup: Table, attached: set<Node>, info: Node -> Info,
                      active: set<Key>, noisy: set<Key>, nodes: seq<Node>)
    requires WiredIn(l, lookup, attached, info, active, noisy)
    requires IsPackage(info, nodes) && Free(lookup, info, nodes) && ORPHANS !in nodes
    ensures WiredIn(l, AddNames(lookup, info, nodes), attached + Members(nodes), info, active, noisy)
  {
    AddedNames(lookup, info, nodes);
    var lookup' := AddNames(lookup, info, nodes);
    forall name | name in lookup'
      ensures lookup'[name] in attached + Members(nodes) + {ORPHANS} && info(lookup'[name]).name == name && name != ""
    {
      if name !in lookup {
        var n :| n in nodes && info(n).name == name;
        assert lookup'[info(n).name] == n;
      }
    }
  }

  lemma AdditionPlaces(s: Snapshot, info: Node -> Info, L: Node, pos: nat)
    requires Settled(s, info) && Listed(s.owner, s.owned, info, s.next) && L in s.owned
    requires L !in s.homes && forall n | n in s.owned[L] && n != L :: n in s.homes
    requires Members(s.owned[L]) !! s.register.attached && TOP !in s.owned[L] && ORPHANS !in s.owned[L]
    requires pos <= |Get(s.shape.contents, TOP)| && forall k | k in s.active :: k.node !in s.owned[L]
    ensures L !in s.shape.parent
    ensures PlacedIn(Attach(s.shape, L, TOP, pos), s.links.refs, s.refused, s.register.attached + Members(s.owned[L]),
                     s.owner, s.homes + {L}, info, s.active, s.noisy)
  {
    var nodes, attached := s.owned[L], s.register.attached;
    assert Stowed(s.shape, attached, s.owner, s.homes, L) && PackageListed(s.owner, s.owned, info, L);
    var (shape', attached') := (Attach(s.shape, L, TOP, pos), attached + Members(nodes));
    forall n | n in attached'
      ensures Home(shape', s.links.refs, attached', s.owner, info, n)
    {
      assert Stowed(s.shape, attached, s.owner, s.homes, n);
      if n in attached {
        assert Home(s.shape, s.links.refs, attached, s.owner, info, n);
      } else if n != L {
        Oldest(info, nodes, n);
        assert NodeListed(s.owner, s.owned, s.next, s.shape.parent[n]);
      }
    }
    forall n | n in attached' && info(n).Parental() && ParentKey(info, n) in s.active
      ensures Obeyed(shape', s.links.refs, s.refused, info, n)
    {
      assert Obeyed(s.shape, s.links.refs, s.refused, info, n);
    }
    forall n
      ensures Stowed(shape', attached', s.owner, s.homes + {L}, n)
    {
      assert Stowed(s.shape, attached, s.owner, s.homes, n);
      if n in s.shape.parent && n !in attached' && n != ORPHANS {
        assert NodeListed(s.owner, s.owned, s.next, n);
        assert NodeListed(s.owner, s.owned, s.next, s.shape.parent[n]);
      }
    }
  }

  /** Cancelling an unload: put the package back and bind it again. That is defined if and only if
      the recorded position is at most the size of the toplevel's contents; otherwise what happens
      is undefined, and nothing is said of it. */
  method Reload(top: Toplevel, L: Node) returns (defined: bool)
    requires Whole(top) && L in top.owned && L !in top.attached
    requires Free(top.lookup, top.info, top.owned[L]) && L in top.place && top.place[L].index <= |top.loadables|
    modifies top`lookup, top`attached, top`loadables, top`place, top`homes, top`active, top`noisy
    modifies top.b, top.t
    ensures defined <==> old(top.place)[L].position <= |Get(old(top.t.contents), TOP)|
    ensures defined ==> Whole(top) && top.place == old(top.place) - {L}
    ensures defined ==>
              RegisterOf(top) == Reregistered(old(RegisterOf(top)), top.info, top.owned[L], old(top.place)[L].index)
  {
    defined := top.place[L].position <= |Get(top.t.contents, TOP)|;
    if defined {
      PutIn(top, L);
      BindPackage(top, L);
    }
  }

  lemma AllStandWith(owner: map<Node, Node>, owned: map<Node, seq<Node>>, attached: set<Node>, loadables: seq<Node>,
                     homes: set<Node>, refs: map<Key, seq<Ref>>, refs': map<Key, seq<Ref>>, active: set<Key>,
                     active': set<Key>, info: Node -> Info, next: Node, L: Node)
    requires Listed(owner, owned, info, next) && AllStandBut(owned, attached, loadables, homes, refs, active, info, L)
    requires active' == active + KeysOfAll(info, owned[L])
    requires SameNames(refs, refs') && Sources(refs', active')
    ensures AllStand(owned, attached, loadables, homes, refs', active', info)
  {
    KeysOfAllAre(info, owned[L]);
    forall M
      ensures Stands(owned, attached, loadables, homes, refs', active', info, M)
    {
      if M != L {
        assert Stands(owned, attached, loadables, homes, refs, active, info, M);
        if M in owned && owned[M] != [] && M !in attached {
          Apart(owner, owned, info, next, L, M);
        }
      }
    }
  }

  method PutIn(top: Toplevel, L: Node)
    requires Whole(top) && L in top.owned && L !in top.attached && Free(top.lookup, top.info, top.owned[L])
    requires L in top.place && top.place[L].index <= |top.loadables|
    requires top.place[L].position <= |Get(top.t.contents, TOP)|
    modifies top`lookup, top`attached, top`loadables, top`place, top`homes
    modifies top.t`parent, top.t`contents, top.t`rank, top.t`height
    ensures WholeBut(top, L)
    ensures RegisterOf(top) == Reregistered(old(RegisterOf(top)), top.info, top.owned[L], old(top.place)[L].index)
    ensures top.place == old(top.place) - {L}
  {
    ghost var before := SnapshotOf(top);
    ghost var pos, i := top.place[L].position, top.place[L].index;
    CanEnter(top, L);
    FiledLess(top.loadables, top.place, top.next, L, i);
    AddLoadable(top, top.owned[L]);
    PutInWhole(before, SnapshotOf(top), top.info, top.names, L, pos, i);
    top.MakesSane();
  }

  lemma CanEnter(top: Toplevel, L: Node)
    requires Whole(top) && L in top.owned && L !in top.attached
    ensures top.t.Valid() && top.t.info == top.info && IsPackage(top.info, top.owned[L]) && top.owned[L][0] == L
    ensures TOP !in top.owned[L] && L !in top.t.parent
  {
    OutFacts(SnapshotOf(top), top.info, top.names, L);
    top.SaneGives();
    assert Stowed(top.t.View(), top.attached, top.owner, top.homes, L);
  }

  /** What there is after a package has been put back is whole, but for its bindings. */
  lemma PutInWhole(before: Snapshot, now: Snapshot, info: Node -> Info, names: Key -> seq<string>, L: Node,
                   pos: nat, i: nat)
    requires AllFine(before, info, names) && L in before.owned && L !in before.register.attached
    requires i <= |before.register.loadables| && pos <= |Get(before.shape.contents, TOP)|
    requires Free(before.register.lookup, info, before.owned[L]) && L !in before.shape.parent
    requires now.register == Reregistered(before.register, info, before.owned[L], i)
    requires now == before.(register := now.register, shape := Attach(before.shape, L, TOP, pos),
             homes := before.homes + {L})
    ensures AllFineBut(now, info, names, L)
    ensures WiredIn(now.links, now.register.lookup, now.register.attached, info, now.active, now.noisy)
    ensures PlacedIn(now.shape, now.links.refs, now.refused, now.register.attached, now.owner, now.homes, info,
                     now.active, now.noisy)
    ensures Remembers(now.links, now.filed)
  {
    FineGives(before, info, names);
    OutFacts(before, info, names, L);
    var r, nodes := before.register, before.owned[L];
    AdditionWires(before.links, r.lookup, r.attached, info, before.active, before.noisy, nodes);
    AdditionPlaces(before, info, L, pos);
    InsertLeaves(r.loadables, i, L);
    AllStandAdding(before.owner, before.owned, r.attached, r.loadables, before.homes, before.links.refs, before.active,
                   info, before.next, L, i);
  }

  /** What is known of a package that is not loaded. */
  lemma OutFacts(s: Snapshot, info: Node -> Info, names: Key -> seq<string>, L: Node)
    requires AllFine(s, info, names) && L in s.owned && L !in s.register.attached
    ensures var nodes := s.owned[L];
            && IsPackage(info, nodes) && nodes[0] == L && TOP !in nodes && ORPHANS !in nodes && Distinct(nodes)
            && Out(nodes, s.register.attached, s.register.loadables, s.homes, s.links.refs, s.active, info)
            && (forall k | k in s.active :: k.node !in nodes)
            && (forall n | n in nodes :: n in s.owner && n < s.next)
  {
    FineGives(s, info, names);
    var nodes := s.owned[L];
    assert PackageListed(s.owner, s.owned, info, L);
    assert Stands(s.owned, s.register.attached, s.register.loadables, s.homes, s.links.refs, s.active, info, L);
    AscendingIsDistinct(nodes);
    forall n | n in nodes
      ensures n > 1 && n in s.owner && n < s.next
    {
      assert NodeListed(s.owner, s.owned, s.next, n);
    }
    assert forall n | n in nodes :: n in Members(nodes);
  }

  lemma InsertLeaves(s: seq<Node>, i: nat, n: Node)
    requires Distinct(s) && n !in s && i <= |s|
    ensures Distinct(InsertAt(s, i, n))
    ensures forall m :: m in InsertAt(s, i, n) <==> m in s || m == n
  {
    var r := InsertAt(s, i, n);
    assert forall j | 0 <= j < |r| :: r[j] == if j < i then s[j] else if j == i then n else s[j - 1];
    assert s == s[..i] + s[i..];
  }

  /** Packages other than L keep their standing when L is put back. */
  lemma AllStandAdding(owner: map<Node, Node>, owned: map<Node, seq<Node>>, attached: set<Node>, loadables: seq<Node>,
                       homes: set<Node>, refs: map<Key, seq<Ref>>, active: set<Key>,
                       info: Node -> Info, next: Node, L: Node, i: nat)
    requires Listed(owner, owned, info, next) && L in owned && L !in attached && Distinct(loadables)
    requires i <= |loadables| && L !in loadables
    requires AllStand(owned, attached, loadables, homes, refs, active, info)
    ensures AllStandBut(owned, attached + Members(owned[L]), InsertAt(loadables, i, L), homes + {L},
                        refs, active, info, L)
  {
    InsertLeaves(loadables, i, L);
    assert PackageListed(owner, owned, info, L);
    assert Stands(owned, attached, loadables, homes, refs, active, info, L);
    forall M | M != L
      ensures Stands(owned, attached + Members(owned[L]), InsertAt(loadables, i, L), homes + {L}, refs, active, info, M)
    {
      assert Stands(owned, attached, loadables, homes, refs, active, info, M);
      if M in owned && owned[M] != [] {
        assert PackageListed(owner, owned, info, M) && M in owned[M];
        Apart(owner, owned, info, next, L, M);
      }
    }
  }

  // ---------------------------------------------------------------------------------------
  // Deleting a package that is not loaded.

  function WithoutNodes(refs: map<Key, seq<Ref>>, nodes: set<Node>): map<Key, seq<Ref>> {
    map k | k in refs && k.node !in nodes :: refs[k]
  }

  /** remove_node() and the destructor of a node, which insists on being empty. */
  method DestroyNode(top: Toplevel, L: Node, n: Node)
    requires top.t.Valid() && n != ORPHANS && L in top.owned && Get(top.t.contents, n) == []
    modifies top`owner, top`owned, top`homes, top.b`refs, top.t`parent, top.t`contents
    ensures top.t.Valid() && top.t.parent == old(top.t.parent) - {n} && top.homes == old(top.homes) - {n}
    ensures top.owner == old(top.owner) - {n} && top.b.refs == WithoutNode(old(top.b.refs), n)
    ensures top.owned == old(top.owned)[L := RemoveFirst(old(top.owned[L]), Same(n))]
    ensures Left(top) == old(Left(top))
  {
    Unplace(top, n);
    assert Left(top) == old(Left(top)) && top.b.refs == old(top.b.refs);
    top.owner := top.owner - {n};
    var i := Find(top.owned[L], n);
    top.owned := top.owned[L := if i < |top.owned[L]| then Without(top.owned[L], i) else top.owned[L]];
    top.b.Forget(n);
  }

  /** The node goes from the contents of its parent, if it has one. */
  method Unplace(top: Toplevel, n: Node)
    requires top.t.Valid() && n != ORPHANS
    modifies top`homes, top.t`parent, top.t`contents
    ensures top.t.Valid() && top.t.parent == old(top.t.parent) - {n} && top.homes == old(top.homes) - {n}
  {
    if n in top.t.parent {
      var pos := top.t.TakeOut(n);
    } else {
      assert top.t.parent - {n} == top.t.parent;
    }
    top.homes := top.homes - {n};
  }

  /** Whatever lies below a node of a package that is not loaded is a younger node of the package. */
  lemma OnlyYounger(s: Snapshot, info: Node -> Info, names: Key -> seq<string>, L: Node)
    requires AllFine(s, info, names) && L in s.owned && L !in s.register.attached && HasParent(s.shape, ORPHANS, TOP)
    ensures Nested(s.shape, s.owned[L])
  {
    FineGives(s, info, names);
    OutFacts(s, info, names, L);
    OwnersOf(s, info, names, L);
    var nodes := s.owned[L];
    forall m, n | n in nodes && HasParent(s.shape, m, n)
      ensures m in nodes && n < m
    {
      assert n in Members(nodes);
      assert Stowed(s.shape, s.register.attached, s.owner, s.homes, m);
      assert m in s.register.attached ==> Home(s.shape, s.links.refs, s.register.attached, s.owner, info, m);
    }
  }

  lemma ComesLater(nodes: seq<Node>, i: nat, m: Node)
    requires Ascending(nodes) && i < |nodes| && m in nodes && nodes[i] < m
    ensures m in nodes[i + 1..]
  {
    var j :| 0 <= j < |nodes| && nodes[j] == m;
    assert j < i ==> Older(nodes, j, i);
    assert nodes[i + 1..][j - i - 1] == m;
  }

  /** Before a node is deleted, everything below it has been. */
  lemma Childless(s: Snapshot, now: Shape, nodes: seq<Node>, i: nat)
    requires Deletable(s, nodes) && i < |nodes|
    requires Agree(now) && now.parent == s.shape.parent - Members(nodes[i + 1..])
    ensures Get(now.contents, nodes[i]) == [] && nodes[i] != ORPHANS
  {
    var n := nodes[i];
    ContentsAre(now, n);
    forall m
      ensures m !in Get(now.contents, n)
    {
      if HasParent(s.shape, m, n) {
        ComesLater(nodes, i, m);
        assert m in Members(nodes[i + 1..]);
      }
    }
    EmptyIff(Get(now.contents, n));
  }

  lemma EmptyIff(c: seq<Node>)
    ensures c == [] <==> forall m :: m !in c
  {
    if c != [] {
      assert c[0] in c;
    }
  }

  lemma LastGoes(nodes: seq<Node>, i: nat)
    requires i < |nodes| && Distinct(nodes)
    ensures RemoveFirst(nodes[..i + 1], Same(nodes[i])) == nodes[..i]
  {
    FirstIs(nodes[..i + 1], Same(nodes[i]), i);
  }

  lemma WithoutOneMore(refs: map<Key, seq<Ref>>, gone: set<Node>, n: Node)
    ensures WithoutNode(WithoutNodes(refs, gone), n) == WithoutNodes(refs, gone + {n})
  {
  }

  /** The destructor of a loadable deletes the nodes it owns from the back. By then every node is
      empty, because whatever was below it was constructed after it. In the end the loadable is
      empty too, and all that it owns is itself. */
  method DeletePackage(top: Toplevel, L: Node)
    requires Whole(top) && L in top.owned && L !in top.attached
    modifies top`owner, top`owned, top`homes, top.b`refs, top.t`parent, top.t`contents
    ensures Whole(top) && top.owned == old(top.owned) - {L} && RegisterOf(top) == old(RegisterOf(top))
    ensures StayBound(old(top.b.refs), top.b.refs, top.info)
    ensures StayStuck(old(top.t.parent), old(top.t.refused), top.b.refs, top.t.parent, top.t.refused, top.info)
  {
    ghost var before := SnapshotOf(top);
    CanDelete(top, L);
    DestroyNodes(top, L);
    assert Left(top) == old(Left(top));
    DestroyedStuck(before, SnapshotOf(top), top.info, top.names, L);
    DestroyedWhole(before, SnapshotOf(top), top.info, top.names, L);
    FineIsWhole(top);
  }

  lemma CanDelete(top: Toplevel, L: Node)
    requires Whole(top) && L in top.owned && L !in top.attached
    ensures top.t.Valid() && top.t.info == top.info && top.owned[L] != [] && top.owned[L][0] == L
    ensures Deletable(SnapshotOf(top), top.owned[L])
  {
    OutFacts(SnapshotOf(top), top.info, top.names, L);
    top.SaneGives();
    OnlyYounger(SnapshotOf(top), top.info, top.names, L);
  }

  /** Whatever lies below a node of the package is a younger node of the package. */
  ghost predicate Nested(s: Shape, nodes: seq<Node>) {
    forall m, n {:trigger HasParent(s, m, n)} | n in nodes && HasParent(s, m, n) :: m in nodes && n < m
  }

  /** A package that can be deleted node by node. */
  ghost predicate Deletable(s: Snapshot, nodes: seq<Node>) {
    && nodes != [] && Ascending(nodes) && nodes[0] in s.owned && s.owned[nodes[0]] == nodes
    && TOP !in nodes && ORPHANS !in nodes && Nested(s.shape, nodes)
  }

  /** Of a package, all nodes from the i-th on have been deleted, and nothing else has changed. */
  ghost predicate AreGone(s: Snapshot, now: Snapshot, nodes: seq<Node>, i: nat)
    requires i <= |nodes| && nodes != []
  {
    && now.shape.parent == s.shape.parent - Members(nodes[i..]) && now.homes == s.homes - Members(nodes[i..])
    && now.owner == s.owner - Members(nodes[i..]) && now.owned == s.owned[nodes[0] := nodes[..i]]
    && now.links == s.links.(refs := WithoutNodes(s.links.refs, Members(nodes[i..])))
  }

  method DestroyNodes(top: Toplevel, L: Node)
    requires top.t.Valid() && L in top.owned && top.owned[L] != [] && top.owned[L][0] == L
    requires Deletable(SnapshotOf(top), top.owned[L])
    modifies top`owner, top`owned, top`homes, top.b`refs, top.t`parent, top.t`contents
    ensures var nodes := old(top.owned[L]);
            && top.t.Valid() && top.t.parent == old(top.t.parent) - Members(nodes[1..])
            && top.homes == old(top.homes) - Members(nodes[1..]) && top.owner == old(top.owner) - Members(nodes)
            && top.b.refs == WithoutNodes(old(top.b.refs), Members(nodes))
    ensures top.owned == old(top.owned) - {L} && Left(top) == old(Left(top))
  {
    ghost var s, nodes := SnapshotOf(top), top.owned[L];
    DestroyFollowers(top, L);
    assert AreGone(s, SnapshotOf(top), nodes, 1) && Left(top) == old(Left(top));
    Childless(s, top.t.View(), nodes, 0);
    GoneMore(s.shape.parent, s.links.refs, s.homes, s.owner, nodes, 0);
    DestroyItself(top, L);
  }

  /** What is left of a loadable when all its other nodes have gone. */
  method DestroyItself(top: Toplevel, L: Node)
    modifies top`owner, top`owned, top.b`refs
    ensures top.owner == old(top.owner) - {L} && top.owned == old(top.owned) - {L}
    ensures top.b.refs == WithoutNode(old(top.b.refs), L) && Left(top) == old(Left(top))
  {
    top.owner, top.owned := top.owner - {L}, top.owned - {L};
    top.b.Forget(L);
  }

  /** What is left after a package has been deleted is whole if it was before. */
  lemma DestroyedWhole(before: Snapshot, now: Snapshot, info: Node -> Info, names: Key -> seq<string>, L: Node)
    requires AllFine(before, info, names) && L in before.owned && before.owned[L] != []
             && L !in before.register.attached
    requires var nodes := before.owned[L];
             && now == before.(links := now.links, shape := now.shape, owner := before.owner - Members(nodes),
                               owned := before.owned - {L}, homes := before.homes - Members(nodes[1..]))
             && now.links == before.links.(refs := WithoutNodes(before.links.refs, Members(nodes)))
             && now.shape.parent == before.shape.parent - Members(nodes[1..]) && Agree(now.shape)
    ensures AllFine(now, info, names)
  {
    FineGives(before, info, names);
    OutFacts(before, info, names, L);
    OwnersOf(before, info, names, L);
    var r, nodes := before.register, before.owned[L];
    DestroyedWires(before.links, r.lookup, r.attached, info, before.active, before.noisy, Members(nodes));
    DestroyedPlaces(before, now, info, L, nodes);
    DestroyedBooks(before.owner, before.owned, info, before.next, L);
    AllStandLess(before.owned, r.attached, r.loadables, before.homes, before.links.refs, before.active, before.owner,
                 info, before.next, L);
    MakesFine(now, info, names);
  }

  /** No other node moves, and no other reference changes, when a package is deleted. */
  lemma DestroyedStuck(before: Snapshot, now: Snapshot, info: Node -> Info, names: Key -> seq<string>, L: Node)
    requires L in before.owned && before.owned[L] != [] && now.refused == before.refused
    requires var nodes := before.owned[L];
             && now.links.refs == WithoutNodes(before.links.refs, Members(nodes))
             && now.shape.parent == before.shape.parent - Members(nodes[1..])
    ensures StayBound(before.links.refs, now.links.refs, info)
    ensures StayStuck(before.shape.parent, before.refused, now.links.refs, now.shape.parent, now.refused, info)
  {
    var nodes := before.owned[L];
    assert forall n | n in nodes[1..] :: n in nodes;
    forall n | DestOf(now.links.refs, info, n).Some?
      ensures DestOf(before.links.refs, info, n) == DestOf(now.links.refs, info, n) && n !in nodes
    {
      assert ParentKey(info, n) in now.links.refs;
    }
  }

  method DestroyFollowers(top: Toplevel, L: Node)
    requires top.t.Valid() && L in top.owned && top.owned[L] != [] && top.owned[L][0] == L
    requires Deletable(SnapshotOf(top), top.owned[L])
    modifies top`owner, top`owned, top`homes, top.b`refs, top.t`parent, top.t`contents
    ensures top.t.Valid() && AreGone(old(SnapshotOf(top)), SnapshotOf(top), old(top.owned[L]), 1)
    ensures Left(top) == old(Left(top))
  {
    var nodes := top.owned[L];
    ghost var s := SnapshotOf(top);
    var i := |nodes|;
    NoneGone(s, nodes);
    while i > 1
      invariant 1 <= i <= |nodes| && top.t.Valid()
      invariant AreGone(s, SnapshotOf(top), nodes, i) && Left(top) == old(Left(top))
    {
      i := i - 1;
      DestroyLast(top, s, nodes, i);
    }
  }

  method DestroyLast(top: Toplevel, ghost s: Snapshot, nodes: seq<Node>, i: nat)
    requires top.t.Valid() && 0 < i < |nodes| && Deletable(s, nodes)
    requires AreGone(s, SnapshotOf(top), nodes, i + 1)
    modifies top`owner, top`owned, top`homes, top.b`refs, top.t`parent, top.t`contents
    ensures top.t.Valid() && AreGone(s, SnapshotOf(top), nodes, i)
    ensures Left(top) == old(Left(top))
  {
    Childless(s, top.t.View(), nodes, i);
    AscendingIsDistinct(nodes);
    LastGoes(nodes, i);
    GoneMore(s.shape.parent, s.links.refs, s.homes, s.owner, nodes, i);
    DestroyNode(top, nodes[0], nodes[i]);
  }

  lemma NoneGone(s: Snapshot, nodes: seq<Node>)
    requires nodes != [] && nodes[0] in s.owned && s.owned[nodes[0]] == nodes
    ensures AreGone(s, s, nodes, |nodes|)
  {
    assert nodes[|nodes|..] == [] && nodes[..|nodes|] == nodes;
    assert WithoutNodes(s.links.refs, {}) == s.links.refs;
  }

  lemma GoneMore(parent: map<Node, Node>, refs: map<Key, seq<Ref>>, homes: set<Node>, owner: map<Node, Node>,
                 nodes: seq<Node>, i: nat)
    requires i < |nodes|
    ensures var gone := Members(nodes[i + 1..]);
            && Members(nodes[i..]) == gone + {nodes[i]} && (i == 0 ==> nodes[i..] == nodes)
            && parent - gone - {nodes[i]} == parent - Members(nodes[i..])
            && homes - gone - {nodes[i]} == homes - Members(nodes[i..])
            && owner - gone - {nodes[i]} == owner - Members(nodes[i..])
            && WithoutNode(WithoutNodes(refs, gone), nodes[i]) == WithoutNodes(refs, Members(nodes[i..]))
  {
    assert nodes[i..] == [nodes[i]] + nodes[i + 1..];
    WithoutOneMore(refs, Members(nodes[i + 1..]), nodes[i]);
  }

  lemma OwnersOf(s: Snapshot, info: Node -> Info, names: Key -> seq<string>, L: Node)
    requires Books(s, info, names) && L in s.owned
    ensures forall n :: n in s.owner && s.owner[n] == L <==> n in s.owned[L]
  {
    assert PackageListed(s.owner, s.owned, info, L);
    forall n
      ensures n in s.owner && s.owner[n] == L <==> n in s.owned[L]
    {
      assert NodeListed(s.owner, s.owned, s.next, n);
    }
  }

  lemma DestroyedWires(l: Links, lookup: Table, attached: set<Node>, info: Node -> Info,
                       active: set<Key>, noisy: set<Key>, gone: set<Node>)
    requires WiredIn(l, lookup, attached, info, active, noisy) && forall k | k in active :: k.node !in gone
    ensures WiredIn(l.(refs := WithoutNodes(l.refs, gone)), lookup, attached, info, active, noisy)
    ensures Complete(l.refs, lookup, active) ==> Complete(WithoutNodes(l.refs, gone), lookup, active)
  {
    var l' := l.(refs := WithoutNodes(l.refs, gone));
    forall k, d
      ensures Tally(Get(l'.referrers, d), Is(k)) == Tally(Get(l'.refs, k), BoundTo(d))
    {
      if k.node in gone {
        TallyZero(Get(l.refs, k), BoundTo(d));
      }
    }
    forall k, n | k in active
      ensures Live(l', k, n) == Live(l, k, n) && Open(l', k, n) == Open(l, k, n)
    {
    }
    forall k, n
      ensures Live(l', k, n) == Live(l, k, n)
    {
    }
  }

  lemma DestroyedPlaces(s: Snapshot, now: Snapshot, info: Node -> Info, L: Node, nodes: seq<Node>)
    requires Settled(s, info) && Members(nodes) !! s.register.attached
    requires nodes != [] && nodes[0] == L && L !in s.homes && TOP !in nodes && ORPHANS !in nodes
    requires forall n :: n in s.owner && s.owner[n] == L <==> n in nodes
    requires now.shape.parent == s.shape.parent - Members(nodes[1..]) && now.homes == s.homes - Members(nodes[1..])
    requires now.owner == s.owner - Members(nodes) && now.links.refs == WithoutNodes(s.links.refs, Members(nodes))
    ensures PlacedIn(now.shape, now.links.refs, s.refused, s.register.attached, now.owner, now.homes, info,
                     s.active, s.noisy)
  {
    var (refs, refs', attached) := (s.links.refs, now.links.refs, s.register.attached);
    assert nodes == [L] + nodes[1..];
    assert Stowed(s.shape, attached, s.owner, s.homes, L);
    forall n | n in attached
      ensures Home(now.shape, refs', attached, now.owner, info, n)
      ensures Asked(refs', info, n) == Asked(refs, info, n)
    {
      assert Home(s.shape, refs, attached, s.owner, info, n);
    }
    forall n | n in attached && info(n).Parental() && ParentKey(info, n) in s.active
      ensures Obeyed(now.shape, refs', s.refused, info, n)
    {
      assert Obeyed(s.shape, refs, s.refused, info, n);
    }
    forall n
      ensures Stowed(now.shape, attached, now.owner, now.homes, n)
    {
      assert Stowed(s.shape, attached, s.owner, s.homes, n);
    }
  }

  lemma DestroyedBooks(owner: map<Node, Node>, owned: map<Node, seq<Node>>, info: Node -> Info, next: Node, L: Node)
    requires Listed(owner, owned, info, next) && L in owned
    ensures Listed(owner - Members(owned[L]), owned - {L}, info, next)
  {
    var owner', owned' := owner - Members(owned[L]), owned - {L};
    assert PackageListed(owner, owned, info, L);
    forall n
      ensures NodeListed(owner', owned', next, n)
    {
      assert NodeListed(owner, owned, next, n);
    }
    forall M
      ensures PackageListed(owner', owned', info, M)
    {
      assert PackageListed(owner, owned, info, M);
      if M in owned' {
        Apart(owner, owned, info, next, L, M);
      }
    }
  }

  lemma AllStandLess(owned: map<Node, seq<Node>>, attached: set<Node>, loadables: seq<Node>, homes: set<Node>,
                     refs: map<Key, seq<Ref>>, active: set<Key>, owner: map<Node, Node>, info: Node -> Info,
                     next: Node, L: Node)
    requires Listed(owner, owned, info, next) && L in owned && owned[L] != []
    requires AllStand(owned, attached, loadables, homes, refs, active, info)
    ensures AllStand(owned - {L}, attached, loadables, homes - Members(owned[L][1..]),
                     WithoutNodes(refs, Members(owned[L])), active, info)
  {
    assert PackageListed(owner, owned, info, L);
    forall M
      ensures Stands(owned - {L}, attached, loadables, homes - Members(owned[L][1..]),
                     WithoutNodes(refs, Members(owned[L])), active, info, M)
    {
      assert Stands(owned, attached, loadables, homes, refs, active, info, M);
      if M in owned && M != L {
        Apart(owner, owned, info, next, L, M);
        assert forall n | n in owned[L][1..] :: n in owned[L];
        assert forall k | OneOf(info, owned[M], k) :: k in refs ==> k in WithoutNodes(refs, Members(owned[L]));
      }
    }
  }

  // ---------------------------------------------------------------------------------------
  // Loading.

  /** The numbers that the next nodes to be constructed will get. */
  function Upcoming(next: Node, count: nat): (nodes: seq<Node>)
    ensures |nodes| == count && forall i | 0 <= i < count :: nodes[i] == next + i
  {
    seq(count, i requires 0 <= i < count => next + i)
  }

  ghost predicate ParsedIn(info: Node -> Info, names: Key -> seq<string>, nodes: seq<Node>, parents: seq<Node>,
                           a: Aspect)
  {
    nodes != [] && |parents| == |nodes| &&
    match a
    case Sanity => parents[0] == TOP
    case Bindings =>
      forall k: Key | k.node in nodes && IsParental(k, info) :: |names(k)| == 1 && names(k)[0] != info(k.node).name
    case Records => IsPackage(info, nodes)
    case Packages => forall i | 0 < i < |nodes| :: parents[i] in nodes[..i] && info(parents[i]).container
  }

  /** A package as parsing yields it: the loadable, then each node below an older container. */
  ghost predicate Parsed(info: Node -> Info, names: Key -> seq<string>, nodes: seq<Node>, parents: seq<Node>) {
    Misparsed(info, names, nodes, parents) == {}
  }

  ghost function Misparsed(info: Node -> Info, names: Key -> seq<string>, nodes: seq<Node>,
                           parents: seq<Node>): set<Aspect>
  {
    set a: Aspect | !ParsedIn(info, names, nodes, parents, a)
  }

  lemma ParsedGives(info: Node -> Info, names: Key -> seq<string>, nodes: seq<Node>, parents: seq<Node>)
    requires Parsed(info, names, nodes, parents)
    ensures IsPackage(info, nodes) && |parents| == |nodes| && parents[0] == TOP
    ensures forall i | 0 < i < |nodes| :: parents[i] in nodes[..i] && info(parents[i]).container
    ensures forall k: Key | k.node in nodes && IsParental(k, info) ::
              |names(k)| == 1 && names(k)[0] != info(k.node).name
  {
    assert Sanity !in Misparsed(info, names, nodes, parents) && Bindings !in Misparsed(info, names, nodes, parents);
    assert Records !in Misparsed(info, names, nodes, parents) && Packages !in Misparsed(info, names, nodes, parents);
  }

  /** The references of a new node, none of them bound. */
  ghost predicate Declared(refs: map<Key, seq<Ref>>, refs': map<Key, seq<Ref>>, names: Key -> seq<string>,
                           n: Node, count: nat) {
    && refs'.Keys == refs.Keys + KeysOf(n, count)
    && (forall k | k in refs && k !in KeysOf(n, count) :: refs'[k] == refs[k])
    && (forall k | k in KeysOf(n, count) :: refs'[k] == Unresolveds(names(k)))
  }

  method DeclareAll(top: Toplevel, n: Node)
    modifies top.b`refs
    ensures Declared(old(top.b.refs), top.b.refs, top.names, n, top.info(n).properties)
    ensures Aside(top) == old(Aside(top))
  {
    var j := 0;
    while j < top.info(n).properties
      invariant Aside(top) == old(Aside(top))
      invariant j <= top.info(n).properties
      invariant Declared(old(top.b.refs), top.b.refs, top.names, n, j)
    {
      KeysStep(n, j);
      top.b.Declare(Key(n, j), top.names(Key(n, j)));
      j := j + 1;
    }
  }

  lemma DeclaredWires(l: Links, refs': map<Key, seq<Ref>>, lookup: Table, attached: set<Node>, info: Node -> Info,
                      active: set<Key>, noisy: set<Key>, names: Key -> seq<string>, n: Node)
    requires WiredIn(l, lookup, attached, info, active, noisy)
    requires Declared(l.refs, refs', names, n, info(n).properties) && (forall k | k in l.refs :: k.node != n)
    requires forall k: Key | k.node == n && IsParental(k, info) :: |names(k)| == 1 && names(k)[0] != info(n).name
    requires info(n).name !in lookup && info(n).name != "" && n != ORPHANS
    ensures WiredIn(l.(refs := refs'), lookup[info(n).name := n], attached + {n}, info, active, noisy)
  {
    var l' := l.(refs := refs');
    forall k | k in KeysOf(n, info(n).properties)
      ensures k.node == n && k !in l.refs
      ensures forall i | 0 <= i < |refs'[k]| :: refs'[k][i].dest.None?
    {
    }
    forall k, d
      ensures Tally(Get(l'.referrers, d), Is(k)) == Tally(Get(l'.refs, k), BoundTo(d))
    {
      if k in KeysOf(n, info(n).properties) {
        assert Get(l.refs, k) == [];
        TallyZero(refs'[k], BoundTo(d));
      }
    }
    forall k, m | k in active
      ensures Live(l', k, m) == Live(l, k, m) && Open(l', k, m) == Open(l, k, m)
    {
    }
    forall k, m
      ensures Live(l', k, m) == Live(l, k, m)
    {
    }
  }

  lemma EnteredPlaces(s: Shape, refs: map<Key, seq<Ref>>, refused: seq<Node>,
                      attached: set<Node>, owner: map<Node, Node>, homes: set<Node>, info: Node -> Info,
                      active: set<Key>, noisy: set<Key>, n: Node, p: Node, pos: nat, L: Node)
    requires PlacedIn(s, refs, refused, attached, owner, homes, info, active, noisy)
    requires n !in owner && n !in homes && n !in attached && n != TOP && n != ORPHANS && pos <= |Get(s.contents, p)|
    requires if info(n).loadable then p == TOP && L == n else p in attached && p in owner && owner[p] == L && p < n
    requires forall k | k in active :: k.node != n
    ensures n !in s.parent
    ensures PlacedIn(Attach(s, n, p, pos), refs, refused, attached + {n}, owner[n := L], homes + {n},
                     info, active, noisy)
  {
    assert Stowed(s, attached, owner, homes, n);
    var (s', attached', owner') := (Attach(s, n, p, pos), attached + {n}, owner[n := L]);
    forall m | m in attached'
      ensures Home(s', refs, attached', owner', info, m)
    {
      if m != n {
        assert Home(s, refs, attached, owner, info, m);
      }
    }
    forall m | m in attached' && info(m).Parental() && ParentKey(info, m) in active
      ensures Obeyed(s', refs, refused, info, m)
    {
      assert m != n && Obeyed(s, refs, refused, info, m);
    }
    forall m
      ensures Stowed(s', attached', owner', homes + {n}, m)
    {
      assert Stowed(s, attached, owner, homes, m);
    }
  }

  /** A node that nothing is below yet. */
  lemma NewIsNotAbove(top: Toplevel, n: Node, p: Node)
    requires top.Placed() && n !in top.owner && n != TOP && n != ORPHANS && n != p
    ensures !top.t.IsBelow(n, p)
  {
    forall c
      ensures !HasParent(top.t.View(), c, n)
    {
      assert Stowed(top.t.View(), top.attached, top.owner, top.homes, c);
      assert c in top.attached ==> Home(top.t.View(), top.b.refs, top.attached, top.owner, top.info, c);
    }
    BelowChild(top.t.View(), top.t.rank, top.t.height, n, p);
  }

  /** A new node: unknown so far, and fit to be added. */
  ghost predicate IsNew(top: Toplevel, n: Node, p: Node, L: Node)
    reads top, top.b
  {
    && n !in top.owner && n !in top.homes && n !in top.attached && 1 < n
    && (forall k | k in top.b.refs :: k.node != n) && (forall k | k in top.active :: k.node != n)
    && (if top.info(n).loadable then p == TOP && L == n
        else p in top.attached && p in top.owner && top.owner[p] == L && p < n && top.info(p).container)
    && (forall k: Key | k.node == n && IsParental(k, top.info) ::
          |top.names(k)| == 1 && top.names(k)[0] != top.info(n).name)
    && top.info(n).name !in top.lookup && top.info(n).name != ""
  }

  /** add_node() */
  method AddNode(top: Toplevel, n: Node, p: Node, L: Node)
    requires top.Sane() && IsNew(top, n, p, L)
    modifies top`lookup, top`attached, top`owner, top`owned, top`loadables, top`homes
    modifies top.b`refs, top.t`parent, top.t`contents, top.t`rank, top.t`height
    ensures top.Sane()
    ensures Enlisted(old(SnapshotOf(top)), SnapshotOf(top), top.info, top.names, n, p, L)
  {
    top.SaneGives();
    ghost var l, attached, owner, homes, lookup := top.b.View(), top.attached, top.owner, top.homes, top.lookup;
    assert Stowed(top.t.View(), attached, owner, homes, n);
    PlaceNode(top, n, p, L);
    Enlist(top, n, L);
    DeclareAll(top, n);
    DeclaredWires(l, top.b.refs, lookup, attached, top.info, top.active, top.noisy, top.names, n);
    SpellingDoesNotMatter(top, l.refs, n);
    assert Aside(top) == old(Aside(top));
    top.MakesSane();
  }

  method Enlist(top: Toplevel, n: Node, L: Node)
    modifies top`lookup, top`attached, top`owner, top`owned, top`loadables, top`homes
    ensures top.lookup == old(top.lookup)[top.info(n).name := n] && top.attached == old(top.attached) + {n}
    ensures top.owner == old(top.owner)[n := L] && top.homes == old(top.homes) + {n}
    ensures top.owned == old(top.owned)[L := Get(old(top.owned), L) + [n]]
    ensures top.loadables == if top.info(n).loadable then old(top.loadables) + [n] else old(top.loadables)
    ensures Aside(top) == old(Aside(top))
  {
    top.lookup := top.lookup[top.info(n).name := n];
    top.attached := top.attached + {n};
    top.owner := top.owner[n := L];
    top.owned := top.owned[L := Get(top.owned, L) + [n]];
    if top.info(n).loadable {
      top.loadables := top.loadables + [n];
    }
    top.homes := top.homes + {n};
  }

  method PlaceNode(top: Toplevel, n: Node, p: Node, L: Node)
    requires top.Placed() && IsNew(top, n, p, L) && n !in top.t.parent
    modifies top.t`parent, top.t`contents, top.t`rank, top.t`height
    ensures top.t.Valid() && top.t.parent == old(top.t.parent)[n := p]
    ensures PlacedIn(top.t.View(), top.b.refs, top.t.refused, top.attached + {n}, top.owner[n := L], top.homes + {n},
                     top.info, top.active, top.noisy)
    ensures Aside(top) == old(Aside(top))
  {
    ghost var s, pos := top.t.View(), |Get(top.t.contents, p)|;
    NewIsNotAbove(top, n, p);
    EnteredPlaces(s, top.b.refs, top.t.refused, top.attached, top.owner, top.homes, top.info,
                  top.active, top.noisy, n, p, pos, L);
    top.t.AddNode(n, p);
  }

  /** The references of a new node lead nowhere, whether they are declared or not. */
  lemma SpellingDoesNotMatter(top: Toplevel, refs: map<Key, seq<Ref>>, n: Node)
    requires PlacedIn(top.t.View(), refs, top.t.refused, top.attached, top.owner, top.homes, top.info,
                      top.active, top.noisy)
    requires Declared(refs, top.b.refs, top.names, n, top.info(n).properties) && forall k | k in refs :: k.node != n
    requires top.t.Valid() && top.t.info == top.info && forall k | k in top.active :: k.node != n
    ensures top.Placed()
  {
    forall m | m in top.attached
      ensures Home(top.t.View(), top.b.refs, top.attached, top.owner, top.info, m)
    {
      assert Home(top.t.View(), refs, top.attached, top.owner, top.info, m);
    }
    forall m | m in top.attached && top.info(m).Parental() && ParentKey(top.info, m) in top.active
      ensures Obeyed(top.t.View(), top.b.refs, top.t.refused, top.info, m)
    {
      assert Obeyed(top.t.View(), refs, top.t.refused, top.info, m);
    }
  }

  ghost predicate EnteredIn(before: Snapshot, now: Snapshot, info: Node -> Info, names: Key -> seq<string>,
                            nodes: seq<Node>, a: Aspect)
    requires nodes != []
  {
    match a
    case Sanity => Planted(before.shape.parent, now.shape.parent, nodes)
    case Bindings => RefsEntered(before.links.refs, now.links.refs, info, names, nodes)
    case Records => OwnersEntered(before.owner, now.owner, nodes, nodes[0])
    case Packages =>
      now == before.(register := Registered(before.register, info, nodes), shape := now.shape,
                     links := before.links.(refs := now.links.refs), owner := now.owner,
                     owned := before.owned[nodes[0] := nodes], homes := before.homes + Members(nodes))
  }

  /** These nodes of a new package have been entered, and nothing else has changed. */
  ghost predicate Entered(before: Snapshot, now: Snapshot, info: Node -> Info, names: Key -> seq<string>,
                          nodes: seq<Node>)
    requires nodes != []
  {
    NotEntered(before, now, info, names, nodes) == {}
  }

  ghost function NotEntered(before: Snapshot, now: Snapshot, info: Node -> Info, names: Key -> seq<string>,
                            nodes: seq<Node>): set<Aspect>
    requires nodes != []
  {
    set a: Aspect | !EnteredIn(before, now, info, names, nodes, a)
  }

  lemma EnteredGives(before: Snapshot, now: Snapshot, info: Node -> Info, names: Key -> seq<string>, nodes: seq<Node>)
    requires nodes != [] && Entered(before, now, info, names, nodes)
    ensures EnteredIn(before, now, info, names, nodes, Sanity) && EnteredIn(before, now, info, names, nodes, Bindings)
    ensures EnteredIn(before, now, info, names, nodes, Records) && EnteredIn(before, now, info, names, nodes, Packages)
  {
    assert Sanity !in NotEntered(before, now, info, names, nodes)
           && Bindings !in NotEntered(before, now, info, names, nodes);
    assert Records !in NotEntered(before, now, info, names, nodes)
           && Packages !in NotEntered(before, now, info, names, nodes);
  }

  /** The new nodes are below older ones of their package, the loadable below the toplevel. */
  ghost predicate Planted(parent: map<Node, Node>, parent': map<Node, Node>, nodes: seq<Node>)
    requires nodes != []
  {
    && (forall m :: m in parent' <==> m in parent || m in nodes)
    && (forall m | m in parent' && m !in nodes :: m in parent && parent'[m] == parent[m])
    && parent'[nodes[0]] == TOP
    && (forall m | m in nodes && m != nodes[0] :: parent'[m] in nodes && parent'[m] < m)
  }

  ghost predicate OwnersEntered(owner: map<Node, Node>, owner': map<Node, Node>, nodes: seq<Node>, L: Node) {
    && (forall n :: n in owner' <==> n in owner || n in nodes)
    && (forall n | n in owner' :: owner'[n] == if n in nodes then L else owner[n])
  }

  ghost predicate RefsEntered(refs: map<Key, seq<Ref>>, refs': map<Key, seq<Ref>>, info: Node -> Info,
                              names: Key -> seq<string>, nodes: seq<Node>) {
    && (forall k :: k in refs' <==> k in refs || OneOf(info, nodes, k))
    && (forall k | k in refs' :: refs'[k] == if k.node in nodes then Unresolveds(names(k)) else refs[k])
  }

  lemma OneMoreOwner(owner: map<Node, Node>, owner1: map<Node, Node>, nodes: seq<Node>, L: Node, n: Node)
    requires OwnersEntered(owner, owner1, nodes, L)
    ensures OwnersEntered(owner, owner1[n := L], nodes + [n], L)
  {
  }

  lemma OneMoreRefs(refs: map<Key, seq<Ref>>, refs1: map<Key, seq<Ref>>, refs': map<Key, seq<Ref>>, info: Node -> Info,
                    names: Key -> seq<string>, nodes: seq<Node>, n: Node)
    requires RefsEntered(refs, refs1, info, names, nodes) && n !in nodes
    requires Declared(refs1, refs', names, n, info(n).properties) && forall k | k in refs1 :: k.node != n
    ensures RefsEntered(refs, refs', info, names, nodes + [n])
  {
    DeclaredKeys(info, n);
    forall k
      ensures OneOf(info, nodes + [n], k) <==> OneOf(info, nodes, k) || k in KeysOf(n, info(n).properties)
    {
    }
  }

  lemma DeclaredKeys(info: Node -> Info, n: Node)
    ensures forall k :: k in KeysOf(n, info(n).properties) <==> k.node == n && k.prop < info(n).properties
  {
    forall k: Key | k.node == n && k.prop < info(n).properties
      ensures k in KeysOf(n, info(n).properties)
    {
      assert k == Key(n, k.prop);
    }
  }

  /** add_node() for one node, on the records. */
  ghost predicate Enlisted(before: Snapshot, now: Snapshot, info: Node -> Info, names: Key -> seq<string>,
                           n: Node, p: Node, L: Node)
  {
    && now == before.(register := Listing(before.register, info, n), links := before.links.(refs := now.links.refs),
                      shape := now.shape, owner := before.owner[n := L],
                      owned := before.owned[L := Get(before.owned, L) + [n]], homes := before.homes + {n})
    && now.shape.parent == before.shape.parent[n := p]
    && Declared(before.links.refs, now.links.refs, names, n, info(n).properties)
    && (forall k | k in before.links.refs :: k.node != n)
  }

  function Listing(r: Register, info: Node -> Info, n: Node): Register {
    Register(r.lookup[info(n).name := n], r.attached + {n}, if info(n).loadable then r.loadables + [n] else r.loadables)
  }

  lemma EnteredOne(before: Snapshot, now: Snapshot, info: Node -> Info, names: Key -> seq<string>, L: Node)
    requires info(L).loadable && L !in before.owned && Enlisted(before, now, info, names, L, TOP, L)
    ensures Entered(before, now, info, names, [L])
  {
    var one := [L];
    assert one == [] + [L] && one[..0] == [] && one[|one| - 1] == L;
    assert AddNames(before.register.lookup, info, one) == AddNames(before.register.lookup, info, [])[info(L).name := L];
    OneMoreOwner(before.owner, before.owner, [], L, L);
    OneMoreRefs(before.links.refs, before.links.refs, now.links.refs, info, names, [], L);
    assert Members(one) == {L};
    assert Get(before.owned, L) == [];
  }

  lemma EnteredMore(before: Snapshot, mid: Snapshot, now: Snapshot, info: Node -> Info, names: Key -> seq<string>,
                    nodes: seq<Node>, n: Node, p: Node)
    requires nodes != [] && n !in nodes && !info(n).loadable && n !in mid.shape.parent && p in nodes && p < n
    requires Entered(before, mid, info, names, nodes) && Enlisted(mid, now, info, names, n, p, nodes[0])
    ensures Entered(before, now, info, names, nodes + [n])
  {
    EnteredGives(before, mid, info, names, nodes);
    OneMoreOwner(before.owner, mid.owner, nodes, nodes[0], n);
    OneMoreRefs(before.links.refs, mid.links.refs, now.links.refs, info, names, nodes, n);
    OneMorePlanted(before.shape.parent, mid.shape.parent, nodes, n, p);
    OneMoreListed(before, mid, now, info, names, nodes, n, p);
  }

  lemma OneMorePlanted(parent: map<Node, Node>, parent1: map<Node, Node>, nodes: seq<Node>, n: Node, p: Node)
    requires nodes != [] && Planted(parent, parent1, nodes) && n !in nodes && n !in parent1 && p in nodes && p < n
    ensures Planted(parent, parent1[n := p], nodes + [n])
  {
  }

  lemma OneMoreListed(before: Snapshot, mid: Snapshot, now: Snapshot, info: Node -> Info, names: Key -> seq<string>,
                      nodes: seq<Node>, n: Node, p: Node)
    requires nodes != [] && n !in nodes && !info(n).loadable
    requires EnteredIn(before, mid, info, names, nodes, Packages) && Enlisted(mid, now, info, names, n, p, nodes[0])
    ensures EnteredIn(before, now, info, names, nodes + [n], Packages)
  {
    RegisteredMore(before.register, info, nodes, n);
    assert Get(mid.owned, nodes[0]) == nodes;
    assert before.owned[nodes[0] := nodes][nodes[0] := nodes + [n]] == before.owned[nodes[0] := nodes + [n]];
    assert before.homes + Members(nodes) + {n} == before.homes + Members(nodes + [n]);
  }

  lemma RegisteredMore(r: Register, info: Node -> Info, nodes: seq<Node>, n: Node)
    requires nodes != [] && !info(n).loadable
    ensures Registered(r, info, nodes + [n]) == Listing(Registered(r, info, nodes), info, n)
  {
    assert (nodes + [n])[..|nodes|] == nodes;
  }

  lemma PackageGrows(info: Node -> Info, nodes: seq<Node>, n: Node)
    requires IsPackage(info, nodes) && (forall m | m in nodes :: m < n) && !info(n).loadable && info(n).name != ""
    requires info(n).Parental() ==> info(n).parentProperty.value < info(n).properties
    ensures IsPackage(info, nodes + [n])
  {
    var more := nodes + [n];
    forall i, j | 0 <= i < j < |more|
      ensures Older(more, i, j)
    {
      assert more[i] == nodes[i] && nodes[i] in nodes;
      if j < |nodes| {
        assert Older(nodes, i, j) && more[j] == nodes[j];
      }
    }
  }

  lemma LoadableIsPackage(info: Node -> Info, nodes: seq<Node>)
    requires IsPackage(info, nodes)
    ensures IsPackage(info, [nodes[0]])
  {
  }

  /** Everything in the records has a smaller number than the next node. */
  ghost predicate AllOlder(s: Snapshot) {
    && (forall n | n in s.owner :: n < s.next) && (forall n | n in s.homes :: n < s.next)
    && (forall n | n in s.register.attached :: n < s.next) && (forall L | L in s.register.loadables :: L < s.next)
    && (forall k | k in s.links.refs :: k.node < s.next) && (forall k | k in s.active :: k.node < s.next)
    && (forall L | L in s.owned :: L < s.next) && (forall n | n in s.shape.parent :: n < s.next)
  }

  lemma AllAreOlder(s: Snapshot, info: Node -> Info, names: Key -> seq<string>)
    requires AllFine(s, info, names)
    ensures AllOlder(s)
  {
    FineGives(s, info, names);
    forall n | n in s.owner
      ensures n < s.next
    {
      assert NodeListed(s.owner, s.owned, s.next, n);
    }
    forall L | L in s.owned
      ensures L < s.next
    {
      assert PackageListed(s.owner, s.owned, info, L);
      assert L in s.owned[L];
    }
    forall n | n in s.shape.parent
      ensures n < s.next
    {
      assert Stowed(s.shape, s.register.attached, s.owner, s.homes, n);
    }
  }

  ghost predicate ScannedIn(lookup: Table, info: Node -> Info, nodes: seq<Node>, entered: seq<Node>,
                            errors: nat, i: nat, a: Aspect)
    requires 0 < i <= |nodes|
  {
    entered != [] &&
    match a
    case Sanity => entered[0] == nodes[0] && forall n | n in entered :: n in nodes[..i]
    case Bindings => Free(lookup, info, entered)
    case Records => IsPackage(info, entered)
    case Packages => if errors == 0 then entered == nodes[..i] else !Free(lookup, info, nodes)
  }

  /** How far a script has been gone through: of the first i declared nodes these were entered, and
      there were so many errors. */
  ghost predicate Scanned(lookup: Table, info: Node -> Info, nodes: seq<Node>, entered: seq<Node>, errors: nat, i: nat)
    requires 0 < i <= |nodes|
  {
    NotScanned(lookup, info, nodes, entered, errors, i) == {}
  }

  ghost function NotScanned(lookup: Table, info: Node -> Info, nodes: seq<Node>, entered: seq<Node>, errors: nat,
                            i: nat): set<Aspect>
    requires 0 < i <= |nodes|
  {
    set a: Aspect | !ScannedIn(lookup, info, nodes, entered, errors, i, a)
  }

  lemma ScannedGives(lookup: Table, info: Node -> Info, nodes: seq<Node>, entered: seq<Node>, errors: nat, i: nat)
    requires 0 < i <= |nodes| && Scanned(lookup, info, nodes, entered, errors, i)
    ensures IsPackage(info, entered) && entered[0] == nodes[0] && (forall n | n in entered :: n in nodes[..i])
    ensures Free(lookup, info, entered)
    ensures if errors == 0 then entered == nodes[..i] else !Free(lookup, info, nodes)
  {
    assert Sanity !in NotScanned(lookup, info, nodes, entered, errors, i);
    assert Bindings !in NotScanned(lookup, info, nodes, entered, errors, i);
    assert Records !in NotScanned(lookup, info, nodes, entered, errors, i);
    assert Packages !in NotScanned(lookup, info, nodes, entered, errors, i);
  }

  /** The first node of a new package can be added. */
  lemma FirstIsNew(top: Toplevel, nodes: seq<Node>, parents: seq<Node>)
    requires Whole(top) && nodes != [] && Parsed(top.info, top.names, nodes, parents)
    requires top.info(nodes[0]).name !in top.lookup && 1 < top.next && nodes[0] == top.next
    ensures IsNew(top, nodes[0], TOP, nodes[0]) && nodes[0] !in top.owned && IsPackage(top.info, nodes)
    ensures |parents| == |nodes|
  {
    ParsedGives(top.info, top.names, nodes, parents);
    AllAreOlder(SnapshotOf(top), top.info, top.names);
  }

  lemma StartsScan(lookup: Table, info: Node -> Info, nodes: seq<Node>)
    requires IsPackage(info, nodes) && info(nodes[0]).name !in lookup
    ensures Scanned(lookup, info, nodes, [nodes[0]], 0, 1)
  {
    LoadableIsPackage(info, nodes);
    assert nodes[..1] == [nodes[0]];
  }

  /** Another node can be added if its name is not in use. */
  lemma NextIsNew(top: Toplevel, before: Snapshot, nodes: seq<Node>, parents: seq<Node>, entered: seq<Node>,
                  errors: nat, i: nat)
    requires Parsed(top.info, top.names, nodes, parents) && 0 < i < |nodes| == |parents|
    requires AllFine(before, top.info, top.names) && 1 < before.next && nodes[0] == before.next
    requires entered != [] && Scanned(before.register.lookup, top.info, nodes, entered, errors, i)
    requires Entered(before, SnapshotOf(top), top.info, top.names, entered)
    requires parents[i] in entered && top.info(nodes[i]).name !in top.lookup
    ensures IsNew(top, nodes[i], parents[i], nodes[0]) && nodes[i] !in entered && nodes[i] !in top.t.parent
    ensures forall n | n in entered :: n < nodes[i]
  {
    ParsedGives(top.info, top.names, nodes, parents);
    ScannedGives(before.register.lookup, top.info, nodes, entered, errors, i);
    EnteredGives(before, SnapshotOf(top), top.info, top.names, entered);
    PrefixIsOlder(nodes, i);
    assert Older(nodes, 0, i);
    IsUnused(before, SnapshotOf(top), top.info, top.names, entered, nodes[i]);
    assert parents[i] in Members(entered);
  }

  /** A number that comes after all those that have been entered is not in use. */
  lemma IsUnused(before: Snapshot, now: Snapshot, info: Node -> Info, names: Key -> seq<string>, entered: seq<Node>,
                 n: Node)
    requires AllFine(before, info, names) && entered != [] && Entered(before, now, info, names, entered)
    requires before.next <= n && n !in entered
    ensures n !in now.owner && n !in now.homes && n !in now.register.attached && n !in now.shape.parent
    ensures (forall k | k in now.links.refs :: k.node != n) && (forall k | k in now.active :: k.node != n)
  {
    EnteredGives(before, now, info, names, entered);
    AllAreOlder(before, info, names);
  }

  lemma PrefixIsOlder(nodes: seq<Node>, i: nat)
    requires Ascending(nodes) && i < |nodes|
    ensures forall n | n in nodes[..i] :: n < nodes[i]
  {
    forall n | n in nodes[..i]
      ensures n < nodes[i]
    {
      var j :| 0 <= j < i && nodes[j] == n;
      assert Older(nodes, j, i);
    }
  }

  lemma ScansNode(lookup: Table, info: Node -> Info, nodes: seq<Node>, entered: seq<Node>, errors: nat, i: nat)
    requires IsPackage(info, nodes) && 0 < i < |nodes| && Scanned(lookup, info, nodes, entered, errors, i)
    requires info(nodes[i]).name !in AddNames(lookup, info, entered) && forall n | n in entered :: n < nodes[i]
    ensures Scanned(lookup, info, nodes, entered + [nodes[i]], errors, i + 1)
  {
    ScannedGives(lookup, info, nodes, entered, errors, i);
    PackageGrows(info, entered, nodes[i]);
    assert nodes[..i + 1] == nodes[..i] + [nodes[i]];
    FreeGrows(lookup, info, entered, nodes[i]);
  }

  lemma FreeGrows(lookup: Table, info: Node -> Info, nodes: seq<Node>, n: Node)
    requires Free(lookup, info, nodes)
    ensures Free(lookup, info, nodes + [n]) <==> info(n).name !in AddNames(lookup, info, nodes)
  {
    AddedNames(lookup, info, nodes);
    var more := nodes + [n];
    assert forall i | 0 <= i < |nodes| :: more[i] == nodes[i];
    assert more[|nodes|] == n;
    if m :| m in nodes && info(m).name == info(n).name {
      var i :| 0 <= i < |nodes| && nodes[i] == m;
      assert info(more[i]).name == info(more[|nodes|]).name;
    }
  }

  lemma FreePrefix(lookup: Table, info: Node -> Info, nodes: seq<Node>, i: nat)
    requires i <= |nodes| && Free(lookup, info, nodes)
    ensures Free(lookup, info, nodes[..i])
  {
  }

  /** A node that is not entered leaves an error behind, or there was one already. */
  lemma ScansError(lookup: Table, info: Node -> Info, nodes: seq<Node>, entered: seq<Node>, errors: nat, i: nat)
    requires 0 < i < |nodes| && Scanned(lookup, info, nodes, entered, errors, i)
    requires info(nodes[i]).name in AddNames(lookup, info, entered) || errors > 0
    ensures Scanned(lookup, info, nodes, entered, errors + 1, i + 1)
    ensures errors > 0 ==> Scanned(lookup, info, nodes, entered, errors, i + 1)
  {
    ScannedGives(lookup, info, nodes, entered, errors, i);
    assert nodes[..i + 1] == nodes[..i] + [nodes[i]];
    if errors == 0 {
      if Free(lookup, info, nodes) {
        FreePrefix(lookup, info, nodes, i + 1);
      }
      FreeGrows(lookup, info, entered, nodes[i]);
    }
  }

  /** Enter the nodes of a package as its script declares them. A name that is in use is an error,
      and the node is not entered; nor is what is declared below such a node. */
  method Enter(top: Toplevel, nodes: seq<Node>, parents: seq<Node>) returns (entered: seq<Node>, errors: nat)
    requires Whole(top) && nodes != [] && Parsed(top.info, top.names, nodes, parents)
    requires top.info(nodes[0]).name !in top.lookup && 1 < top.next && nodes[0] == top.next
    modifies top`lookup, top`attached, top`owner, top`owned, top`loadables, top`homes
    modifies top.b`refs, top.t`parent, top.t`contents, top.t`rank, top.t`height
    ensures top.Sane() && entered != [] && Scanned(old(top.lookup), top.info, nodes, entered, errors, |nodes|)
    ensures Entered(old(SnapshotOf(top)), SnapshotOf(top), top.info, top.names, entered)
  {
    ghost var before := SnapshotOf(top);
    FirstIsNew(top, nodes, parents);
    AddNode(top, nodes[0], TOP, nodes[0]);
    EnteredOne(before, SnapshotOf(top), top.info, top.names, nodes[0]);
    entered, errors := [nodes[0]], 0;
    StartsScan(before.register.lookup, top.info, nodes);
    var i := 1;
    while i < |nodes|
      invariant 0 < i <= |nodes| && top.Sane()
      invariant entered != [] && Scanned(before.register.lookup, top.info, nodes, entered, errors, i)
      invariant Entered(before, SnapshotOf(top), top.info, top.names, entered)
    {
      entered, errors := EnterNext(top, before, nodes, parents, entered, errors, i);
      i := i + 1;
    }
  }

  lemma EnteredTable(before: Snapshot, now: Snapshot, info: Node -> Info, names: Key -> seq<string>, nodes: seq<Node>)
    requires nodes != [] && Entered(before, now, info, names, nodes)
    ensures now.register == Registered(before.register, info, nodes) && now.owned == before.owned[nodes[0] := nodes]
    ensures now.register.lookup == AddNames(before.register.lookup, info, nodes)
    ensures now.register.loadables == before.register.loadables + [nodes[0]]
  {
    EnteredGives(before, now, info, names, nodes);
  }

  method EnterNext(top: Toplevel, ghost before: Snapshot, nodes: seq<Node>, parents: seq<Node>, entered: seq<Node>,
                   errors: nat, i: nat) returns (entered': seq<Node>, errors': nat)
    requires top.Sane() && Parsed(top.info, top.names, nodes, parents) && 0 < i < |nodes| == |parents|
    requires AllFine(before, top.info, top.names) && 1 < before.next && nodes[0] == before.next
    requires entered != [] && Scanned(before.register.lookup, top.info, nodes, entered, errors, i)
    requires Entered(before, SnapshotOf(top), top.info, top.names, entered)
    modifies top`lookup, top`attached, top`owner, top`owned, top`loadables, top`homes
    modifies top.b`refs, top.t`parent, top.t`contents, top.t`rank, top.t`height
    ensures top.Sane() && entered' != [] && Scanned(before.register.lookup, top.info, nodes, entered', errors', i + 1)
    ensures Entered(before, SnapshotOf(top), top.info, top.names, entered')
  {
    entered', errors' := entered, errors;
    EnteredTable(before, SnapshotOf(top), top.info, top.names, entered);
    ParsedGives(top.info, top.names, nodes, parents);
    ScannedGives(before.register.lookup, top.info, nodes, entered, errors, i);
    if parents[i] in entered && top.info(nodes[i]).name !in top.lookup {
      ghost var mid := SnapshotOf(top);
      NextIsNew(top, before, nodes, parents, entered, errors, i);
      AddNode(top, nodes[i], parents[i], nodes[0]);
      ScansNode(before.register.lookup, top.info, nodes, entered, errors, i);
      EnteredMore(before, mid, SnapshotOf(top), top.info, top.names, entered, nodes[i], parents[i]);
      entered' := entered + [nodes[i]];
    } else {
      ScansError(before.register.lookup, top.info, nodes, entered, errors, i);
      errors' := if parents[i] in entered then errors + 1 else errors;
    }
  }

  /** load_package(), from the point where the name of the package is looked up: enter the nodes
      that the script declares, then bind. A script with errors, its own or names that are taken,
      has its nodes taken out again and deleted. */
  method Load(top: Toplevel, parents: seq<Node>, good: bool) returns (ok: bool)
    requires Whole(top) && 1 < top.next
    requires parents != [] && Parsed(top.info, top.names, Upcoming(top.next, |parents|), parents)
    modifies top`lookup, top`attached, top`loadables, top`homes, top`active, top`noisy, top`place
    modifies top`owner, top`owned, top`next, top.b, top.t
    ensures Whole(top) && top.next >= old(top.next)
    ensures var nodes := Upcoming(old(top.next), |parents|);
            && ok == (good && Free(old(top.lookup), top.info, nodes))
            && RegisterOf(top)
                 == (if ok then Registered(old(RegisterOf(top)), top.info, nodes) else old(RegisterOf(top)))
            && top.owned == (if ok then old(top.owned)[nodes[0] := nodes] else old(top.owned))
            && (ok ==> top.next == old(top.next) + |nodes|)
    ensures forall L | L in old(top.place) :: L in top.place && top.place[L] == old(top.place)[L]
    ensures if ok then old(top.t.StuckNodes()) <= top.t.StuckNodes() else top.t.parent == old(top.t.parent)
  {
    var nodes := Upcoming(top.next, |parents|);
    if top.info(nodes[0]).name in top.lookup {
      return false;
    }
    ok := LoadNew(top, nodes, parents, good);
  }

  method LoadNew(top: Toplevel, nodes: seq<Node>, parents: seq<Node>, good: bool) returns (ok: bool)
    requires Whole(top) && 1 < top.next && nodes == Upcoming(top.next, |parents|)
    requires parents != [] && Parsed(top.info, top.names, nodes, parents) && top.info(nodes[0]).name !in top.lookup
    modifies top`lookup, top`attached, top`loadables, top`homes, top`active, top`noisy, top`place
    modifies top`owner, top`owned, top`next, top.b, top.t
    ensures Whole(top) && top.next == old(top.next) + |nodes|
    ensures ok == (good && Free(old(top.lookup), top.info, nodes))
    ensures RegisterOf(top) == if ok then Registered(old(RegisterOf(top)), top.info, nodes) else old(RegisterOf(top))
    ensures top.owned == if ok then old(top.owned)[nodes[0] := nodes] else old(top.owned)
    ensures forall L | L in old(top.place) :: L in top.place && top.place[L] == old(top.place)[L]
    ensures if ok then old(top.t.StuckNodes()) <= top.t.StuckNodes() else top.t.parent == old(top.t.parent)
  {
    ghost var before := SnapshotOf(top);
    var entered, errors := EnterNew(top, nodes, parents);
    ok := good && errors == 0;
    if ok {
      ghost var entries := Entries(top);
      EnteringLeavesStuck(before, SnapshotOf(top), top.info, top.names, entered);
      BindPackage(top, nodes[0]);
      assert Entries(top) == entries;
    } else {
      Abandon(top, before, entered);
    }
  }

  /** Entering a package moves no node. */
  lemma EnteringLeavesStuck(before: Snapshot, now: Snapshot, info: Node -> Info, names: Key -> seq<string>,
                            nodes: seq<Node>)
    requires nodes != [] && Newly(before, now, info, names, nodes)
    ensures Stuck(before.shape.parent, before.refused) <= Stuck(now.shape.parent, now.refused)
  {
    NewlyGives(before, now, info, names, nodes);
    EnteredGives(before.(next := now.next), now, info, names, nodes);
    AllAreOlder(before, info, names);
  }

  /** The package is in the table, in the hierarchy and in the books, but not bound yet. */
  method EnterNew(top: Toplevel, nodes: seq<Node>, parents: seq<Node>) returns (entered: seq<Node>, errors: nat)
    requires Whole(top) && 1 < top.next && nodes == Upcoming(top.next, |parents|)
    requires parents != [] && Parsed(top.info, top.names, nodes, parents) && top.info(nodes[0]).name !in top.lookup
    modifies top`lookup, top`attached, top`loadables, top`homes
    modifies top`owner, top`owned, top`next, top.b`refs, top.t`parent, top.t`contents, top.t`rank, top.t`height
    ensures WholeBut(top, nodes[0]) && top.next == old(top.next) + |nodes|
    ensures entered != [] && Newly(old(SnapshotOf(top)), SnapshotOf(top), top.info, top.names, entered)
    ensures RegisterOf(top) == Registered(old(RegisterOf(top)), top.info, entered)
    ensures top.owned == old(top.owned)[nodes[0] := entered]
    ensures if errors == 0 then entered == nodes && Free(old(top.lookup), top.info, nodes)
            else !Free(old(top.lookup), top.info, nodes)
  {
    ghost var before := SnapshotOf(top);
    entered, errors := Enter(top, nodes, parents);
    ghost var now := SnapshotOf(top);
    top.next := top.next + |nodes|;
    ScanEnds(before, now, SnapshotOf(top), top.info, top.names, nodes, entered, errors);
    FiledNew(before, top.loadables, top.place, top.next, nodes[0]);
  }

  ghost predicate NewlyIn(before: Snapshot, now: Snapshot, info: Node -> Info, names: Key -> seq<string>,
                          nodes: seq<Node>, a: Aspect)
  {
    nodes != [] &&
    match a
    case Sanity => AllFine(before, info, names) && 1 < before.next
    case Bindings => Free(before.register.lookup, info, nodes)
    case Records =>
      IsPackage(info, nodes) && nodes[0] == before.next && forall n | n in nodes :: before.next <= n < now.next
    case Packages => Entered(before.(next := now.next), now, info, names, nodes)
  }

  /** Nodes with new numbers have been entered. */
  ghost predicate Newly(before: Snapshot, now: Snapshot, info: Node -> Info, names: Key -> seq<string>,
                        nodes: seq<Node>)
  {
    NotNewly(before, now, info, names, nodes) == {}
  }

  ghost function NotNewly(before: Snapshot, now: Snapshot, info: Node -> Info, names: Key -> seq<string>,
                          nodes: seq<Node>): set<Aspect>
  {
    set a: Aspect | !NewlyIn(before, now, info, names, nodes, a)
  }

  lemma NewlyGives(before: Snapshot, now: Snapshot, info: Node -> Info, names: Key -> seq<string>, nodes: seq<Node>)
    requires Newly(before, now, info, names, nodes)
    ensures AllFine(before, info, names) && 1 < before.next && IsPackage(info, nodes) && nodes[0] == before.next
    ensures (forall n | n in nodes :: before.next <= n < now.next) && Free(before.register.lookup, info, nodes)
    ensures Entered(before.(next := now.next), now, info, names, nodes)
  {
    assert Sanity !in NotNewly(before, now, info, names, nodes)
           && Bindings !in NotNewly(before, now, info, names, nodes);
    assert Records !in NotNewly(before, now, info, names, nodes)
           && Packages !in NotNewly(before, now, info, names, nodes);
  }

  lemma LaterSnapshot(before: Snapshot, now: Snapshot, now': Snapshot, info: Node -> Info, names: Key -> seq<string>,
                      nodes: seq<Node>)
    requires nodes != [] && Entered(before, now, info, names, nodes) && now' == now.(next := now'.next)
    ensures Entered(before.(next := now'.next), now', info, names, nodes)
  {
    EnteredGives(before, now, info, names, nodes);
  }

  lemma ScanEnds(before: Snapshot, now: Snapshot, now': Snapshot, info: Node -> Info, names: Key -> seq<string>,
                 nodes: seq<Node>, entered: seq<Node>, errors: nat)
    requires AllFine(before, info, names) && 1 < before.next && nodes != [] && nodes == Upcoming(before.next, |nodes|)
    requires entered != [] && Scanned(before.register.lookup, info, nodes, entered, errors, |nodes|)
    requires Entered(before, now, info, names, entered)
    requires now' == now.(next := before.next + |nodes|)
    ensures Newly(before, now', info, names, entered) && AllFineBut(now', info, names, nodes[0])
    ensures now.register == Registered(before.register, info, entered)
    ensures now.owned == before.owned[nodes[0] := entered]
    ensures now.register.loadables == before.register.loadables + [nodes[0]]
    ensures if errors == 0 then entered == nodes && Free(before.register.lookup, info, nodes)
            else !Free(before.register.lookup, info, nodes)
  {
    ScannedGives(before.register.lookup, info, nodes, entered, errors, |nodes|);
    EnteredTable(before, now, info, names, entered);
    LaterSnapshot(before, now, now', info, names, entered);
    assert nodes[..|nodes|] == nodes;
    EnteredWhole(before, now', info, names, entered);
  }

  lemma FiledNew(before: Snapshot, loadables: seq<Node>, place: map<Node, Place>, next: Node, L: Node)
    requires Filed(before.register.loadables, place, before.next) && L == before.next < next
    requires loadables == before.register.loadables + [L]
    ensures Filed(loadables, place, next)
  {
  }

  lemma CanAbandon(top: Toplevel, before: Snapshot, nodes: seq<Node>)
    requires top.Sane() && nodes != [] && Newly(before, SnapshotOf(top), top.info, top.names, nodes)
    requires Filed(top.loadables, top.place, top.next)
    ensures top.t.Valid() && top.t.info == top.info && IsPackage(top.info, nodes) && nodes[0] in top.t.parent
    ensures TOP !in nodes && ORPHANS !in nodes && Distinct(top.loadables) && nodes[0] < top.next
    ensures HasParent(top.t.View(), ORPHANS, TOP) && top.t.parent[nodes[0]] == TOP && nodes[0] !in top.place
    ensures nodes[0] in top.owned && top.owned[nodes[0]] == nodes
  {
    var now := SnapshotOf(top);
    NewlyGives(before, now, top.info, top.names, nodes);
    EnteredWhole(before, now, top.info, top.names, nodes);
    EnteredGives(before.(next := now.next), now, top.info, top.names, nodes);
    FineButGives(now, top.info, top.names, nodes[0]);
    top.SaneGives();
    assert nodes[0] in nodes;
  }

  lemma ParentsAreOlder(s: Snapshot, info: Node -> Info, names: Key -> seq<string>)
    requires AllFine(s, info, names) && 1 < s.next
    ensures forall n | n in s.shape.parent && n != ORPHANS :: s.shape.parent[n] < s.next
  {
    FineGives(s, info, names);
    AllAreOlder(s, info, names);
    forall n | n in s.shape.parent && n != ORPHANS
      ensures s.shape.parent[n] < s.next
    {
      assert Stowed(s.shape, s.register.attached, s.owner, s.homes, n);
      if n in s.register.attached {
        assert Home(s.shape, s.links.refs, s.register.attached, s.owner, info, n);
      }
    }
  }

  lemma StillDeletable(before: Snapshot, now: Snapshot, mid: Snapshot, info: Node -> Info, names: Key -> seq<string>,
                       nodes: seq<Node>)
    requires nodes != [] && Newly(before, now, info, names, nodes) && HasParent(now.shape, ORPHANS, TOP)
    requires nodes[0] in now.shape.parent && mid == TakenAway(now, info, nodes)
    ensures Deletable(mid, nodes)
  {
    NewlyGives(before, now, info, names, nodes);
    EnteredGives(before.(next := now.next), now, info, names, nodes);
    ParentsAreOlder(before, info, names);
    forall m, n | n in nodes && HasParent(mid.shape, m, n)
      ensures m in nodes && n < m
    {
    }
  }

  /** What is left when the nodes of a new package have gone again is what there was before. */
  lemma AbandonedIs(before: Snapshot, now: Snapshot, mid: Snapshot, final: Snapshot, info: Node -> Info,
                    names: Key -> seq<string>, nodes: seq<Node>)
    requires nodes != [] && Newly(before, now, info, names, nodes) && Agree(final.shape)
    requires nodes[0] in now.shape.parent && mid == TakenAway(now, info, nodes)
    requires final == mid.(links := mid.links.(refs := WithoutNodes(mid.links.refs, Members(nodes))),
                           shape := final.shape, owner := mid.owner - Members(nodes), owned := mid.owned - {nodes[0]},
                           homes := mid.homes - Members(nodes[1..]))
    requires final.shape.parent == mid.shape.parent - Members(nodes[1..])
    ensures AllFine(final, info, names) && final.register == before.register && final.owned == before.owned
    ensures final.shape.parent == before.shape.parent
  {
    NewlyGives(before, now, info, names, nodes);
    EverythingGoesBack(before, now, mid, final, info, names, nodes);
    SameParentsAreFine(before, final, info, names);
  }

  lemma EverythingGoesBack(before: Snapshot, now: Snapshot, mid: Snapshot, final: Snapshot, info: Node -> Info,
                           names: Key -> seq<string>, nodes: seq<Node>)
    requires nodes != [] && Newly(before, now, info, names, nodes)
    requires nodes[0] in now.shape.parent && mid == TakenAway(now, info, nodes)
    requires final == mid.(links := mid.links.(refs := WithoutNodes(mid.links.refs, Members(nodes))),
                           shape := final.shape, owner := mid.owner - Members(nodes), owned := mid.owned - {nodes[0]},
                           homes := mid.homes - Members(nodes[1..]))
    requires final.shape.parent == mid.shape.parent - Members(nodes[1..])
    ensures final == before.(shape := final.shape, next := now.next) && final.shape.parent == before.shape.parent
    ensures before.next <= now.next
  {
    NewlyGives(before, now, info, names, nodes);
    EnteredGives(before.(next := now.next), now, info, names, nodes);
    assert nodes[0] in nodes;
    AllAreOlder(before, info, names);
    RegisterGoesBack(before, info, nodes);
    OwnersGoBack(before.owner, now.owner, nodes);
    ParentsGoBack(before.shape.parent, now.shape.parent, nodes);
    HomesGoBack(before.homes, nodes);
    RefsGoBack(before.links.refs, now.links.refs, info, names, nodes);
    OwnedGoesBack(before.owned, nodes);
  }

  lemma OwnedGoesBack(owned: map<Node, seq<Node>>, nodes: seq<Node>)
    requires nodes != [] && nodes[0] !in owned
    ensures owned[nodes[0] := nodes] - {nodes[0]} == owned
  {
  }

  lemma RegisterGoesBack(before: Snapshot, info: Node -> Info, nodes: seq<Node>)
    requires AllOlder(before) && nodes != [] && Free(before.register.lookup, info, nodes)
    requires forall n | n in nodes :: before.next <= n
    ensures Unregistered(Registered(before.register, info, nodes), info, nodes) == before.register
  {
    assert nodes[0] in nodes;
    UnloadUndoesLoad(before.register, info, nodes);
  }

  lemma OwnersGoBack(owner: map<Node, Node>, owner': map<Node, Node>, nodes: seq<Node>)
    requires nodes != [] && OwnersEntered(owner, owner', nodes, nodes[0]) && forall n | n in owner :: n !in nodes
    ensures owner' - Members(nodes) == owner
  {
  }

  lemma ParentsGoBack(parent: map<Node, Node>, parent': map<Node, Node>, nodes: seq<Node>)
    requires nodes != [] && Planted(parent, parent', nodes) && forall n | n in parent :: n !in nodes
    ensures parent' - {nodes[0]} - Members(nodes[1..]) == parent
  {
    assert nodes == [nodes[0]] + nodes[1..];
  }

  lemma HomesGoBack(homes: set<Node>, nodes: seq<Node>)
    requires nodes != [] && forall n | n in homes :: n !in nodes
    ensures homes + Members(nodes) - {nodes[0]} - Members(nodes[1..]) == homes
  {
    assert nodes == [nodes[0]] + nodes[1..];
  }

  lemma RefsGoBack(refs: map<Key, seq<Ref>>, refs': map<Key, seq<Ref>>, info: Node -> Info, names: Key -> seq<string>,
                   nodes: seq<Node>)
    requires RefsEntered(refs, refs', info, names, nodes) && forall k | k in refs :: k.node !in nodes
    ensures WithoutNodes(refs', Members(nodes)) == refs
  {
  }

  /** Only the parents of nodes matter, not the order of contents. */
  lemma SameParentsAreFine(before: Snapshot, now: Snapshot, info: Node -> Info, names: Key -> seq<string>)
    requires AllFine(before, info, names) && Agree(now.shape) && now.shape.parent == before.shape.parent
    requires now == before.(shape := now.shape, next := now.next) && before.next <= now.next
    ensures AllFine(now, info, names)
  {
    FineGives(before, info, names);
    forall n
      ensures NodeListed(now.owner, now.owned, now.next, n)
    {
      assert NodeListed(before.owner, before.owned, before.next, n);
    }
    SameParentsSamePlaces(before, now.shape, info);
    MakesFine(now, info, names);
  }

  lemma SameParentsSamePlaces(s: Snapshot, shape: Shape, info: Node -> Info)
    requires Settled(s, info) && shape.parent == s.shape.parent
    ensures PlacedIn(shape, s.links.refs, s.refused, s.register.attached, s.owner, s.homes, info, s.active, s.noisy)
  {
    var attached := s.register.attached;
    forall n | n in attached
      ensures Home(shape, s.links.refs, attached, s.owner, info, n)
    {
      assert Home(s.shape, s.links.refs, attached, s.owner, info, n);
    }
    forall n | n in attached && info(n).Parental() && ParentKey(info, n) in s.active
      ensures Obeyed(shape, s.links.refs, s.refused, info, n)
    {
      assert Obeyed(s.shape, s.links.refs, s.refused, info, n);
    }
    forall n
      ensures Stowed(shape, attached, s.owner, s.homes, n)
    {
      assert Stowed(s.shape, attached, s.owner, s.homes, n);
    }
  }

  /** The catch block of load_package(): a package that is not bound is taken out and deleted. */
  method Abandon(top: Toplevel, ghost before: Snapshot, nodes: seq<Node>)
    requires top.Sane() && nodes != [] && Newly(before, SnapshotOf(top), top.info, top.names, nodes)
    requires Filed(top.loadables, top.place, top.next)
    modifies top`lookup, top`attached, top`loadables, top`place, top`homes
    modifies top`owner, top`owned, top.b`refs, top.t`parent, top.t`contents
    ensures Whole(top) && RegisterOf(top) == before.register && top.owned == before.owned && top.next == old(top.next)
    ensures top.t.parent == before.shape.parent
    ensures forall L | L in old(top.place) :: L in top.place && top.place[L] == old(top.place)[L]
  {
    ghost var now := SnapshotOf(top);
    Withdraw(top, before, nodes);
    ghost var mid, left := SnapshotOf(top), Left(top);
    DestroyNodes(top, nodes[0]);
    assert Left(top) == left;
    AbandonedIs(before, now, mid, SnapshotOf(top), top.info, top.names, nodes);
    FineIsWhole(top);
  }

  method Withdraw(top: Toplevel, ghost before: Snapshot, nodes: seq<Node>)
    requires top.Sane() && nodes != [] && Newly(before, SnapshotOf(top), top.info, top.names, nodes)
    requires Filed(top.loadables, top.place, top.next)
    modifies top`lookup, top`attached, top`loadables, top`place, top`homes
    modifies top.t`parent, top.t`contents
    ensures top.t.Valid() && top.t.info == top.info && nodes[0] in old(top.t.parent)
    ensures SnapshotOf(top) == TakenAway(old(SnapshotOf(top)), top.info, nodes)
    ensures nodes[0] in top.owned && top.owned[nodes[0]] == nodes && Deletable(SnapshotOf(top), nodes)
    ensures Filed(top.loadables, top.place, top.next)
    ensures forall L | L in old(top.place) :: L in top.place && top.place[L] == old(top.place)[L]
  {
    ghost var now := SnapshotOf(top);
    CanAbandon(top, before, nodes);
    TakeAway(top, nodes);
    StillDeletable(before, now, SnapshotOf(top), top.info, top.names, nodes);
  }

  /** Bind a package that is in the toplevel. */
  method BindPackage(top: Toplevel, L: Node)
    requires WholeBut(top, L)
    modifies top`active, top`noisy, top.b, top.t
    ensures Whole(top) && Entries(top) == old(Entries(top)) && old(top.t.StuckNodes()) <= top.t.StuckNodes()
  {
    ghost var before := SnapshotOf(top);
    CanBind(top, L);
    top.Bind(top.owned[L]);
    IsBound(top, before, L);
  }

  lemma CanBind(top: Toplevel, L: Node)
    requires WholeBut(top, L)
    ensures top.active == top.noisy && L in top.owned && Distinct(top.owned[L])
    ensures (forall n | n in top.owned[L] :: n in top.attached)
            && Unbound(top.b.refs, top.info, top.noisy, top.owned[L])
  {
    var s := SnapshotOf(top);
    FineButGives(s, top.info, top.names, L);
    assert PackageListed(top.owner, top.owned, top.info, L);
    AscendingIsDistinct(top.owned[L]);
    assert forall n | n in top.owned[L] :: n in Members(top.owned[L]);
  }

  /** Once a package is bound the toplevel is whole. */
  lemma IsBound(top: Toplevel, before: Snapshot, L: Node)
    requires AllFineBut(before, top.info, top.names, L) && L in before.owned
    requires SnapshotOf(top) == before.(links := top.b.View(), shape := top.t.View(), refused := top.t.refused,
                                        active := top.active, noisy := top.noisy)
    requires top.Sane() && SameNames(before.links.refs, top.b.refs) && Complete(top.b.refs, top.lookup, top.active)
    requires top.active == top.noisy == before.active + KeysOfAll(top.info, before.owned[L])
    requires Filed(top.loadables, top.place, top.next)
    ensures Whole(top)
  {
    FineButGives(before, top.info, top.names, L);
    top.SaneGives();
    AllStandWith(top.owner, top.owned, top.attached, top.loadables, top.homes, before.links.refs, top.b.refs,
                 before.active, top.active, top.info, top.next, L);
    MakesWhole(top);
  }

  /** What there is after a new package has been entered is whole, but for its bindings. */
  lemma EnteredWhole(before: Snapshot, now: Snapshot, info: Node -> Info, names: Key -> seq<string>, nodes: seq<Node>)
    requires nodes != [] && Newly(before, now, info, names, nodes)
    ensures AllFineBut(now, info, names, nodes[0])
  {
    NewlyGives(before, now, info, names, nodes);
    FineGives(before, info, names);
    EnteredGives(before.(next := now.next), now, info, names, nodes);
    AllAreOlder(before, info, names);
    OldIsApart(before.owner, before.owned, info, before.next, nodes);
    EnteredBooks(before, now, info, names, nodes);
    EnteredStand(before, now, info, names, nodes);
  }

  lemma EnteredBooks(before: Snapshot, now: Snapshot, info: Node -> Info, names: Key -> seq<string>, nodes: seq<Node>)
    requires nodes != [] && Newly(before, now, info, names, nodes) && Books(before, info, names) && AllOlder(before)
    requires forall M, n | M in before.owned && n in before.owned[M] :: n !in nodes
    ensures Books(now, info, names)
  {
    NewlyGives(before, now, info, names, nodes);
    EnteredGives(before.(next := now.next), now, info, names, nodes);
    var loadables := before.register.loadables;
    InsertLeaves(loadables, |loadables|, nodes[0]);
    assert InsertAt(loadables, |loadables|, nodes[0]) == loadables + [nodes[0]];
    EnteredSpelled(before.links.refs, now.links.refs, info, names, nodes);
    EnteredListed(before.owner, now.owner, before.owned, info, before.next, now.next, nodes);
  }

  lemma EnteredSpelled(refs: map<Key, seq<Ref>>, refs': map<Key, seq<Ref>>, info: Node -> Info,
                       names: Key -> seq<string>, nodes: seq<Node>)
    requires Spelled(refs, names) && RefsEntered(refs, refs', info, names, nodes)
    ensures Spelled(refs', names)
  {
  }

  lemma EnteredListed(owner: map<Node, Node>, owner': map<Node, Node>, owned: map<Node, seq<Node>>, info: Node -> Info,
                      next: Node, next': Node, nodes: seq<Node>)
    requires Listed(owner, owned, info, next) && IsPackage(info, nodes) && OwnersEntered(owner, owner', nodes, nodes[0])
    requires 1 < next && nodes[0] == next && (forall n | n in nodes :: next <= n < next')
    requires (forall L | L in owned :: L < next) && forall M, n | M in owned && n in owned[M] :: n !in nodes
    ensures Listed(owner', owned[nodes[0] := nodes], info, next')
  {
    var owned' := owned[nodes[0] := nodes];
    assert nodes[0] in nodes;
    forall n
      ensures NodeListed(owner', owned', next', n)
    {
      assert NodeListed(owner, owned, next, n);
    }
    forall M
      ensures PackageListed(owner', owned', info, M)
    {
      assert PackageListed(owner, owned, info, M);
    }
  }

  lemma EnteredStand(before: Snapshot, now: Snapshot, info: Node -> Info, names: Key -> seq<string>, nodes: seq<Node>)
    requires nodes != [] && Newly(before, now, info, names, nodes) && Books(before, info, names) && AllOlder(before)
    requires AllStand(before.owned, before.register.attached, before.register.loadables, before.homes,
                      before.links.refs, before.active, info)
    requires forall M, n | M in before.owned && n in before.owned[M] :: n !in nodes
    ensures AllStandBut(now.owned, now.register.attached, now.register.loadables, now.homes, now.links.refs,
                        now.active, info, nodes[0])
  {
    NewlyGives(before, now, info, names, nodes);
    EnteredGives(before.(next := now.next), now, info, names, nodes);
    forall M | M != nodes[0]
      ensures Stands(now.owned, now.register.attached, now.register.loadables, now.homes, now.links.refs, now.active,
                     info, M)
    {
      assert Stands(before.owned, before.register.attached, before.register.loadables, before.homes,
                    before.links.refs, before.active, info, M);
      assert PackageListed(before.owner, before.owned, info, M);
    }
  }

  /** New nodes are in no package that is known already. */
  lemma OldIsApart(owner: map<Node, Node>, owned: map<Node, seq<Node>>, info: Node -> Info, next: Node,
                   nodes: seq<Node>)
    requires Listed(owner, owned, info, next) && forall n | n in nodes :: next <= n
    ensures forall M, n | M in owned && n in owned[M] :: n !in nodes
  {
    forall M, n | M in owned && n in owned[M]
      ensures n !in nodes
    {
      assert PackageListed(owner, owned, info, M) && NodeListed(owner, owned, next, n);
    }
  }

  /** Cancelling a load: unload the package and delete it. */
  method CancelLoad(top: Toplevel, L: Node)
    requires Whole(top) && L in top.loadables
    modifies top`lookup, top`attached, top`loadables, top`place, top`homes, top`active, top`noisy
    modifies top`owner, top`owned, top.b, top.t
    ensures Whole(top) && L in old(top.owned) && top.owned == old(top.owned) - {L}
    ensures RegisterOf(top) == Unregistered(old(RegisterOf(top)), top.info, old(top.owned[L]))
    ensures L in top.place && top.place == old(top.place)[L := top.place[L]]
    ensures StayStuck(old(top.t.parent), old(top.t.refused), top.b.refs, top.t.parent, top.t.refused, top.info)
  {
    Unload(top, L);
    ghost var refs, parent, refused := top.b.refs, top.t.parent, top.t.refused;
    DeletePackage(top, L);
    StayStuckThrough(old(top.t.parent), old(top.t.refused), refs, parent, refused, top.b.refs, top.t.parent,
                     top.t.refused, top.info);
  }

  /** Adopting the transaction's conflicts leaves everything in order. */
  method AdoptConflicts(top: Toplevel)
    requires Whole(top)
    modifies top.b`added, top.b`standing, top`filed
    ensures Whole(top) && top.b.View() == Adopted(old(top.b.View())) && Clean(top.b.View())
  {
    WholeGives(top);
    top.SaneGives();
    ghost var l := top.b.View();
    AdoptedLive(l);
    KeptAreNotCleared(l.standing + AsEntries(l.added));
    SameLiveWires(l, Adopted(l), top.lookup, top.attached, top.info, top.active, top.noisy);
    top.b.Adopt();
    top.filed := ConflictsOf(top.b.standing);
    top.MakesSane();
    MakesWhole(top);
  }

  /** The properties of loaded nodes, and no others, are accounted for. */
  lemma ActiveAre(s: Snapshot, info: Node -> Info, names: Key -> seq<string>)
    requires AllFine(s, info, names)
    ensures forall k :: k in s.active <==> k.node in s.register.attached && k.prop < info(k.node).properties
  {
    FineGives(s, info, names);
    forall k: Key | k.node in s.register.attached && k.prop < info(k.node).properties
      ensures k in s.active
    {
      assert NodeListed(s.owner, s.owned, s.next, k.node);
      var L := s.owner[k.node];
      assert PackageListed(s.owner, s.owned, info, L);
      assert Stands(s.owned, s.register.attached, s.register.loadables, s.homes, s.links.refs, s.active, info, L);
      assert k.node in Members(s.owned[L]);
      KeysOfAllAre(info, s.owned[L]);
      assert OneOf(info, s.owned[L], k);
    }
  }

  /** When the register is what it was, the conflicts that were there at the start are again exactly
      those that open references need. */
  lemma DiscardedLive(start: Snapshot, now: Snapshot, info: Node -> Info, names: Key -> seq<string>, k: Key, n: string)
    requires AllFine(start, info, names) && AllFine(now, info, names) && Clean(start.links)
    requires now.register == start.register && now.filed == start.filed
    ensures Live(Discarded(now.links), k, n) == Live(now.links, k, n)
  {
    FineGives(start, info, names);
    FineGives(now, info, names);
    assert Discarded(now.links).standing == start.links.standing;
    assert Live(Discarded(now.links), k, n) == Live(start.links, k, n);
    ActiveAre(start, info, names);
    ActiveAre(now, info, names);
    if k in start.active && n != "" {
      SameTableSameLinks(start, info, now, info, names, k);
    }
  }

  /** Cancelling a transaction: its conflicts go, and those of the configuration stand again. */
  method DiscardConflicts(top: Toplevel, ghost start: Snapshot)
    requires Whole(top) && AllFine(start, top.info, top.names) && Clean(start.links)
    requires RegisterOf(top) == start.register && top.filed == start.filed
    modifies top.b`added, top.b`standing
    ensures Whole(top) && top.b.View() == Discarded(old(top.b.View())) && Clean(top.b.View())
    ensures top.b.standing == start.links.standing
  {
    ghost var now := SnapshotOf(top);
    DiscardedIsFine(start, now, top.info, top.names);
    top.SaneGives();
    top.b.Discard();
    FineIsWhole(top);
  }

  lemma DiscardedIsFine(start: Snapshot, now: Snapshot, info: Node -> Info, names: Key -> seq<string>)
    requires AllFine(start, info, names) && AllFine(now, info, names) && Clean(start.links)
    requires now.register == start.register && now.filed == start.filed
    ensures AllFine(now.(links := Discarded(now.links)), info, names)
    ensures Discarded(now.links).standing == start.links.standing
  {
    FineGives(start, info, names);
    FineGives(now, info, names);
    assert Discarded(now.links).standing == start.links.standing;
    forall k, n
      ensures Live(Discarded(now.links), k, n) == Live(now.links, k, n)
    {
      DiscardedLive(start, now, info, names, k, n);
    }
    SameLiveWires(now.links, Discarded(now.links), now.register.lookup, now.register.attached, info,
                  now.active, now.noisy);
    MakesFine(now.(links := Discarded(now.links)), info, names);
  }

  lemma SameLiveWires(l: Links, l': Links, lookup: Table, attached: set<Node>, info: Node -> Info,
                      active: set<Key>, noisy: set<Key>)
    requires WiredIn(l, lookup, attached, info, active, noisy) && l'.refs == l.refs && l'.referrers == l.referrers
    requires forall k, n :: Live(l', k, n) == Live(l, k, n)
    ensures WiredIn(l', lookup, attached, info, active, noisy)
  {
    forall k, n
      ensures Open(l', k, n) == Open(l, k, n)
    {
    }
  }

  // ---------------------------------------------------------------------------------------
  // History does not matter.

  lemma SameTableSameLinks(s: Snapshot, info: Node -> Info, s': Snapshot, info': Node -> Info,
                           names: Key -> seq<string>, k: Key)
    requires AllFine(s, info, names) && AllFine(s', info', names) && s.register.lookup == s'.register.lookup
    requires k in s.active && k in s'.active
    ensures k in s.links.refs && k in s'.links.refs && s.links.refs[k] == s'.links.refs[k]
    ensures forall name | name != "" :: Live(s.links, k, name) == Live(s'.links, k, name)
  {
    FineGives(s, info, names);
    FineGives(s', info', names);
    var (rs, rs') := (s.links.refs[k], s'.links.refs[k]);
    forall i | 0 <= i < |rs|
      ensures rs[i] == rs'[i]
    {
      assert rs[i] == Resolved(rs[i], s.register.lookup) && rs'[i] == Resolved(rs'[i], s.register.lookup);
    }
    assert rs == rs';
  }

  /** Two toplevels with the same table bind the references of a loaded property alike, whatever
      nodes they consist of and whatever has happened to them. */
  lemma BindingsAreDetermined(top: Toplevel, top': Toplevel, k: Key)
    requires Whole(top) && Whole(top') && top.lookup == top'.lookup && top.names == top'.names
    requires k in top.active && k in top'.active
    ensures k in top.b.refs && k in top'.b.refs && top.b.refs[k] == top'.b.refs[k]
    ensures forall name | name != "" :: Live(top.b.View(), k, name) == Live(top'.b.View(), k, name)
  {
    SameTableSameLinks(SnapshotOf(top), top.info, SnapshotOf(top'), top'.info, top.names, k);
  }

  /** A reference of a loaded node is bound exactly when its name is in the table, and then to that
      entry; otherwise a conflict stands for it. */
  lemma BoundIffKnown(top: Toplevel, n: Node, j: nat, i: nat)
    requires Whole(top) && n in top.attached && j < top.info(n).properties && i < |top.names(Key(n, j))|
    ensures var k := Key(n, j);
            && k in top.b.refs && i < |top.b.refs[k]| && top.b.refs[k][i].name == top.names(k)[i]
            && top.b.refs[k][i].dest
                 == if top.names(k)[i] in top.lookup then Some(top.lookup[top.names(k)[i]]) else None
    ensures forall name | name != "" ::
              Live(top.b.View(), Key(n, j), name) == Tally(top.b.refs[Key(n, j)], OpenFor(name))
  {
    WholeGives(top);
    top.SaneGives();
    var k := Key(n, j);
    assert NodeListed(top.owner, top.owned, top.next, n);
    var L := top.owner[n];
    assert PackageListed(top.owner, top.owned, top.info, L);
    assert Stands(top.owned, top.attached, top.loadables, top.homes, top.b.refs, top.active, top.info, L);
    assert n in Members(top.owned[L]);
    KeysOfAllAre(top.info, top.owned[L]);
    assert k in top.active;
    assert Live(top.b.View(), k, "") >= 0;
  }

  // ---------------------------------------------------------------------------------------
  // Where the nodes are.

  lemma IsLoaded(top: Toplevel, n: Node)
    requires Whole(top) && n in top.attached
    ensures Home(top.t.View(), top.b.refs, top.attached, top.owner, top.info, n)
    ensures forall j | 0 <= j < top.info(n).properties :: Key(n, j) in top.active
    ensures top.info(n).Parental() ==> top.info(n).parentProperty.value < top.info(n).properties
  {
    WholeGives(top);
    top.SaneGives();
    assert NodeListed(top.owner, top.owned, top.next, n);
    var L := top.owner[n];
    assert PackageListed(top.owner, top.owned, top.info, L);
    assert Stands(top.owned, top.attached, top.loadables, top.homes, top.b.refs, top.active, top.info, L);
    assert n in Members(top.owned[L]);
    KeysOfAllAre(top.info, top.owned[L]);
    assert Home(top.t.View(), top.b.refs, top.attached, top.owner, top.info, n);
    forall j | 0 <= j < top.info(n).properties
      ensures Key(n, j) in top.active
    {
      assert OneOf(top.info, top.owned[L], Key(n, j));
    }
  }

  /** The hierarchy is a tree under the toplevel: going up from any loaded node ends there. */
  lemma {:induction false} AllBelowTop(top: Toplevel, n: Node)
    requires Whole(top) && n in top.attached
    ensures top.Placed() && top.t.IsBelow(TOP, n)
    decreases RankOf(top.t.rank, n)
  {
    WholeGives(top);
    top.SaneGives();
    IsLoaded(top, n);
    var p := top.t.parent[n];
    assert top.t.IsBelow(TOP, TOP);
    if p == ORPHANS {
      assert top.t.IsBelow(TOP, ORPHANS);
    } else if p != TOP {
      AllBelowTop(top, p);
    }
  }

  /** A node whose parent property can be resolved is below the node it names, unless that move was
      refused. One whose parent property cannot be resolved is an orphan, or directly below the
      toplevel if it names nothing. Any other node is below a node of its own package, and a loadable
      directly below the toplevel. */
  lemma ParentIsAsAsked(top: Toplevel, n: Node)
    requires Whole(top) && n in top.attached
    ensures n in top.t.parent && n in top.owner
    ensures var (p, d) := (top.t.parent[n], DestOf(top.b.refs, top.info, n));
            && (d.Some? ==> p == d.value || n in top.t.refused)
            && (d.None? ==> n !in top.t.refused)
            && (p in {TOP, ORPHANS} || d == Some(p) || (p in top.owner && top.owner[p] == top.owner[n]))
    ensures top.info(n).Parental() ==>
              var name := top.names(ParentKey(top.info, n));
              && |name| == 1
              && DestOf(top.b.refs, top.info, n) == (if name[0] in top.lookup then Some(top.lookup[name[0]]) else None)
              && (name[0] !in top.lookup ==> top.t.parent[n] == if name[0] == "" then TOP else ORPHANS)
    ensures !top.info(n).Parental() ==>
              var p := top.t.parent[n];
              if top.info(n).loadable then p == TOP else p in top.owner && top.owner[p] == top.owner[n]
  {
    WholeGives(top);
    top.SaneGives();
    IsLoaded(top, n);
    if top.info(n).Parental() {
      var k := ParentKey(top.info, n);
      assert k in top.active && IsParental(k, top.info);
      assert Obeyed(top.t.View(), top.b.refs, top.t.refused, top.info, n);
      BoundIffKnown(top, n, k.prop, 0);
    }
  }
}
