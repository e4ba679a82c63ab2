/** Whether a loadable fits back into the contents of the toplevel, at the position that was recorded
    when it was taken out. */
module Positions {
  import opened Wrappers
  import opened Tallies
  import opened References
  import opened Hierarchy
  import opened Loading
  import opened Packages

  // ---------------------------------------------------------------------------------------
  // What is directly below the toplevel.

  /** A node that is directly below the toplevel whatever happens while it is loaded: a loadable
      without a parent property, or a node whose parent property names nothing. */
  predicate IsFixed(info: Node -> Info, names: Key -> seq<string>, n: Node) {
    if info(n).Parental() then names(ParentKey(info, n)) == [""] else info(n).loadable
  }

  function Fixed(attached: set<Node>, info: Node -> Info, names: Key -> seq<string>): set<Node> {
    {ORPHANS} + set n | n in attached && IsFixed(info, names, n)
  }

  /** The size that the contents of the toplevel have at least. */
  function Room(attached: set<Node>, info: Node -> Info, names: Key -> seq<string>): nat {
    |Fixed(attached, info, names)|
  }

  lemma {:induction false} AllOnce(c: seq<Node>, nodes: set<Node>)
    requires forall n :: Tally(c, Same(n)) == One(n in nodes)
    ensures |c| == |nodes|
  {
    if c == [] {
      forall n
        ensures n !in nodes
      {
        TallyZero(c, Same(n));
        assert Tally(c, Same(n)) == One(n in nodes);
      }
      assert nodes == {};
    } else {
      assert Tally(c, Same(c[0])) == One(c[0] in nodes);
      forall n
        ensures Tally(c[1..], Same(n)) == One(n in nodes - {c[0]})
      {
        assert Tally(c, Same(n)) == One(n in nodes);
      }
      AllOnce(c[1..], nodes - {c[0]});
    }
  }

  /** What is fixed is directly below the toplevel. */
  lemma FixedIsBelowTop(s: Snapshot, info: Node -> Info, names: Key -> seq<string>, n: Node)
    requires AllFine(s, info, names) && n in s.register.attached && IsFixed(info, names, n)
    ensures HasParent(s.shape, n, TOP)
  {
    FineGives(s, info, names);
    assert Home(s.shape, s.links.refs, s.register.attached, s.owner, info, n);
    if info(n).Parental() {
      IsAsked(s, info, names, n);
      assert Obeyed(s.shape, s.links.refs, s.refused, info, n);
    }
  }

  /** The parent reference of a loaded node is the one that was parsed, bound if its name is known. */
  lemma IsAsked(s: Snapshot, info: Node -> Info, names: Key -> seq<string>, n: Node)
    requires AllFine(s, info, names) && n in s.register.attached && info(n).Parental()
    ensures var k := ParentKey(info, n);
            && k in s.active && |names(k)| == 1
            && Asked(s.links.refs, info, n) == Some(Resolved(Ref(names(k)[0], None), s.register.lookup))
  {
    FineGives(s, info, names);
    assert NodeListed(s.owner, s.owned, s.next, n);
    var L := s.owner[n];
    assert PackageListed(s.owner, s.owned, info, L);
    ActiveAre(s, info, names);
    var k := ParentKey(info, n);
    assert k in s.active && IsParental(k, info);
    var r := s.links.refs[k][0];
    assert r == Resolved(r, s.register.lookup);
  }

  /** The nodes that are stuck directly below the toplevel are those whose parent property names a
      known node. */
  lemma StuckIff(s: Snapshot, info: Node -> Info, names: Key -> seq<string>, n: Node)
    requires AllFine(s, info, names)
    ensures n in Stuck(s.shape.parent, s.refused) <==>
              && n in s.register.attached && HasParent(s.shape, n, TOP) && info(n).Parental()
              && names(ParentKey(info, n)) != [] && names(ParentKey(info, n))[0] in s.register.lookup
  {
    FineGives(s, info, names);
    if n in s.register.attached && info(n).Parental() {
      IsAsked(s, info, names, n);
      assert Obeyed(s.shape, s.links.refs, s.refused, info, n);
    }
    if n in s.refused {
      assert ParentKey(info, n) in s.active;
    }
  }

  /** Whatever else is directly below the toplevel is there because a move was refused. */
  lemma OthersAreStuck(s: Snapshot, info: Node -> Info, names: Key -> seq<string>, n: Node)
    requires AllFine(s, info, names) && HasParent(s.shape, n, TOP)
    ensures n in Fixed(s.register.attached, info, names) || n in Stuck(s.shape.parent, s.refused)
  {
    FineGives(s, info, names);
    assert Stowed(s.shape, s.register.attached, s.owner, s.homes, n);
    assert NodeListed(s.owner, s.owned, s.next, TOP);
    if n in s.register.attached {
      assert Home(s.shape, s.links.refs, s.register.attached, s.owner, info, n);
      if info(n).Parental() {
        IsAsked(s, info, names, n);
        assert Obeyed(s.shape, s.links.refs, s.refused, info, n);
      }
    }
  }

  /** The contents of the toplevel have as many members as there are nodes directly below it. */
  lemma CountBelowTop(s: Shape, nodes: set<Node>)
    requires Agree(s) && forall n :: n in nodes <==> HasParent(s, n, TOP)
    ensures |Get(s.contents, TOP)| == |nodes|
  {
    forall n
      ensures Tally(Get(s.contents, TOP), Same(n)) == One(n in nodes)
    {
      assert n in nodes <==> HasParent(s, n, TOP);
    }
    AllOnce(Get(s.contents, TOP), nodes);
  }

  function BelowTop(s: Shape): set<Node> {
    set n | n in s.parent && s.parent[n] == TOP
  }

  /** Directly below the toplevel are the nodes that are fixed there and some that are stuck there. */
  lemma BelowTopAre(s: Snapshot, info: Node -> Info, names: Key -> seq<string>)
    requires AllFine(s, info, names) && HasParent(s.shape, ORPHANS, TOP)
    ensures var fixed := Fixed(s.register.attached, info, names);
            fixed <= BelowTop(s.shape) <= fixed + Stuck(s.shape.parent, s.refused)
  {
    forall n | n in Fixed(s.register.attached, info, names)
      ensures n in BelowTop(s.shape)
    {
      if n != ORPHANS {
        FixedIsBelowTop(s, info, names, n);
      }
    }
    forall n | n in BelowTop(s.shape)
      ensures n in Fixed(s.register.attached, info, names) + Stuck(s.shape.parent, s.refused)
    {
      OthersAreStuck(s, info, names, n);
    }
  }

  /** The contents of the toplevel always have at least that size, and exactly that size while no
      node is directly below the toplevel because its move was refused. */
  lemma RoomIsKept(s: Snapshot, info: Node -> Info, names: Key -> seq<string>)
    requires AllFine(s, info, names) && HasParent(s.shape, ORPHANS, TOP)
    ensures Room(s.register.attached, info, names) <= |Get(s.shape.contents, TOP)|
    ensures Stuck(s.shape.parent, s.refused) == {} ==>
              |Get(s.shape.contents, TOP)| == Room(s.register.attached, info, names)
  {
    FineGives(s, info, names);
    BelowTopAre(s, info, names);
    CountBelowTop(s.shape, BelowTop(s.shape));
    SubsetIsSmaller(Fixed(s.register.attached, info, names), BelowTop(s.shape));
    assert Stuck(s.shape.parent, s.refused) == {} ==> BelowTop(s.shape) == Fixed(s.register.attached, info, names);
  }

  lemma {:induction false} SubsetIsSmaller(a: set<Node>, b: set<Node>)
    requires a <= b
    ensures |a| <= |b|
  {
    assert b == a + (b - a);
  }

  /** The same of a toplevel. */
  lemma RoomBelowTop(top: Toplevel)
    requires Whole(top)
    ensures Room(top.attached, top.info, top.names) <= |Get(top.t.contents, TOP)|
    ensures top.t.StuckNodes() == {} ==>
              |Get(top.t.contents, TOP)| == Room(top.attached, top.info, top.names)
  {
    top.SaneGives();
    RoomIsKept(SnapshotOf(top), top.info, top.names);
  }

  // ---------------------------------------------------------------------------------------
  // A load that is undone.

  lemma SameParentsSameSize(s: Shape, s': Shape)
    requires Agree(s) && Agree(s') && s'.parent == s.parent
    ensures |Get(s'.contents, TOP)| == |Get(s.contents, TOP)|
  {
    CountBelowTop(s, BelowTop(s));
    CountBelowTop(s', BelowTop(s'));
  }

  /** A node that was stuck had its parent reference bound, and has so again when the table is the same. */
  lemma StuckIsBound(s: Snapshot, s': Snapshot, info: Node -> Info, names: Key -> seq<string>, n: Node)
    requires AllFine(s, info, names) && AllFine(s', info, names) && s'.register == s.register
    requires n in s.refused
    ensures DestOf(s'.links.refs, info, n).Some?
  {
    FineGives(s, info, names);
    assert ParentKey(info, n) in s.active;
    assert Obeyed(s.shape, s.links.refs, s.refused, info, n);
    IsAsked(s, info, names, n);
    IsAsked(s', info, names, n);
  }

  /** When a package was loaded and has gone again, everything that was directly below the toplevel
      still is: what is fixed there, and what is stuck there. */
  lemma NoneLeaves(s: Snapshot, parent: map<Node, Node>, refused: seq<Node>, s': Snapshot,
                   info: Node -> Info, names: Key -> seq<string>)
    requires AllFine(s, info, names) && AllFine(s', info, names) && s'.register == s.register
    requires HasParent(s.shape, ORPHANS, TOP) && HasParent(s'.shape, ORPHANS, TOP)
    requires Stuck(s.shape.parent, s.refused) <= Stuck(parent, refused)
    requires StayStuck(parent, refused, s'.links.refs, s'.shape.parent, s'.refused, info)
    ensures |Get(s.shape.contents, TOP)| <= |Get(s'.shape.contents, TOP)|
  {
    BelowTopAre(s, info, names);
    BelowTopAre(s', info, names);
    forall n | n in BelowTop(s.shape)
      ensures n in BelowTop(s'.shape)
    {
      if n in Stuck(s.shape.parent, s.refused) {
        StuckIsBound(s, s', info, names, n);
      }
    }
    FineGives(s, info, names);
    FineGives(s', info, names);
    CountBelowTop(s.shape, BelowTop(s.shape));
    CountBelowTop(s'.shape, BelowTop(s'.shape));
    SubsetIsSmaller(BelowTop(s.shape), BelowTop(s'.shape));
  }
}
