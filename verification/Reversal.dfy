/** Taking loadables out of a toplevel and putting them back in the opposite order. */
module Reversal {
  import opened Tallies
  import opened References
  import opened Hierarchy
  import opened Loading
  import opened Packages

  /** All that remove_loadable_from_toplevel() and add_loadable_to_toplevel() change. */
  datatype Layout = Layout(register: Register, shape: Shape, place: map<Node, Place>)

  function LayoutOf(top: Toplevel): Layout
    reads top, top.t
  {
    Layout(RegisterOf(top), Shape(top.t.parent, top.t.contents), top.place)
  }

  function Removed(a: Layout, info: Node -> Info, nodes: seq<Node>): Layout
    requires nodes != [] && nodes[0] in a.shape.parent
  {
    var L := nodes[0];
    Layout(Unregistered(a.register, info, nodes), Detach(a.shape, L),
           a.place[L := PlaceOf(a.shape, a.register.loadables, L)])
  }

  function Added(a: Layout, info: Node -> Info, nodes: seq<Node>): Layout
    requires nodes != [] && CanReturn(a.place, a.register.loadables, a.shape, nodes[0])
  {
    var L := nodes[0];
    Layout(Reregistered(a.register, info, nodes, a.place[L].index), Attach(a.shape, L, TOP, a.place[L].position),
           a.place - {L})
  }

  /** The methods do what these functions say. */
  method Remove(top: Toplevel, nodes: seq<Node>)
    requires top.t.Valid() && LedByLoadable(top.info, nodes) && nodes[0] in top.t.parent
    requires TOP !in nodes && ORPHANS !in nodes
    modifies top`lookup, top`attached, top`loadables, top`place, top`homes
    modifies top.t`parent, top.t`contents
    ensures top.t.Valid() && LayoutOf(top) == Removed(old(LayoutOf(top)), top.info, nodes)
  {
    RemoveLoadable(top, nodes);
  }

  method Add(top: Toplevel, nodes: seq<Node>)
    requires top.t.Valid() && LedByLoadable(top.info, nodes) && TOP !in nodes
    requires CanReturn(top.place, top.loadables, top.t.View(), nodes[0])
    modifies top`lookup, top`attached, top`loadables, top`place, top`homes
    modifies top.t`parent, top.t`contents, top.t`rank, top.t`height
    ensures top.t.Valid() && LayoutOf(top) == Added(old(LayoutOf(top)), top.info, nodes)
  {
    AddLoadable(top, nodes);
  }

  /** A package that is in the table, with its loadable directly below the toplevel. */
  ghost predicate Present(a: Layout, info: Node -> Info, nodes: seq<Node>) {
    && nodes != [] && HasParent(a.shape, nodes[0], TOP) && nodes[0] in a.register.loadables
    && Known(a.register.lookup, info, nodes) && Members(nodes) <= a.register.attached
    && nodes[0] !in a.place
  }

  /** Putting back what was just taken out is in range and restores everything: the table, the
      toplevel fields, the contents of the toplevel in their order, and the loadables in theirs. */
  lemma AddedUndoesRemoved(a: Layout, info: Node -> Info, nodes: seq<Node>)
    requires Agree(a.shape) && Present(a, info, nodes)
    ensures var b := Removed(a, info, nodes);
            && CanReturn(b.place, b.register.loadables, b.shape, nodes[0])
            && Added(b, info, nodes) == a
  {
    var L := nodes[0];
    ReloadUndoesUnload(a.register, info, nodes);
    AttachUndoesDetach(a.shape, L);
    var (b, p) := (Removed(a, info, nodes), PlaceOf(a.shape, a.register.loadables, L));
    assert b.place == a.place[L := p] && b.place[L] == p && a.place[L := p] - {L} == a.place;
    assert Added(b, info, nodes) == Layout(a.register, a.shape, a.place);
  }

  // ---------------------------------------------------------------------------------------
  // Any number of packages, last out, first in.

  /** Packages that can be taken out one after the other. */
  ghost predicate Removable(a: Layout, info: Node -> Info, packages: seq<seq<Node>>)
    decreases |packages|
  {
    packages == [] ||
    (Agree(a.shape) && Present(a, info, packages[0]) && Removable(Removed(a, info, packages[0]), info, packages[1..]))
  }

  ghost function RemovedAll(a: Layout, info: Node -> Info, packages: seq<seq<Node>>): Layout
    requires Removable(a, info, packages)
    decreases |packages|
  {
    if packages == [] then a else RemovedAll(Removed(a, info, packages[0]), info, packages[1..])
  }

  /** Adding the packages in reverse order is in range each time and leads from one layout to another. */
  ghost predicate AddingLeads(b: Layout, info: Node -> Info, packages: seq<seq<Node>>, a: Layout)
    decreases |packages|
  {
    if packages == [] then a == b
    else
      var (nodes, rest) := (packages[|packages| - 1], packages[..|packages| - 1]);
      && nodes != [] && CanReturn(b.place, b.register.loadables, b.shape, nodes[0])
      && AddingLeads(Added(b, info, nodes), info, rest, a)
  }

  /** One more package is put back at the end. */
  lemma {:induction false} AddLastOfAll(b: Layout, info: Node -> Info, nodes: seq<Node>, packages: seq<seq<Node>>,
                                        c: Layout, a: Layout)
    requires AddingLeads(b, info, packages, c)
    requires nodes != [] && CanReturn(c.place, c.register.loadables, c.shape, nodes[0]) && Added(c, info, nodes) == a
    ensures AddingLeads(b, info, [nodes] + packages, a)
    decreases |packages|
  {
    var all := [nodes] + packages;
    if packages == [] {
      assert all == [nodes] && all[..0] == [];
    } else {
      var (last, rest) := (packages[|packages| - 1], packages[..|packages| - 1]);
      assert all[|all| - 1] == last && all[..|all| - 1] == [nodes] + rest;
      AddLastOfAll(Added(b, info, last), info, nodes, rest, c, a);
    }
  }

  lemma RemovedAllFirst(a: Layout, info: Node -> Info, nodes: seq<Node>, rest: seq<seq<Node>>)
    requires Removable(a, info, [nodes] + rest)
    ensures Removable(Removed(a, info, nodes), info, rest)
    ensures RemovedAll(a, info, [nodes] + rest) == RemovedAll(Removed(a, info, nodes), info, rest)
  {
    assert ([nodes] + rest)[1..] == rest;
  }

  /** Taking out any sequence of packages and putting them back in reverse order restores everything. */
  lemma {:induction false} ReverseRestores(a: Layout, info: Node -> Info, packages: seq<seq<Node>>)
    requires Removable(a, info, packages)
    ensures AddingLeads(RemovedAll(a, info, packages), info, packages, a)
    decreases |packages|
  {
    if packages != [] {
      var (nodes, rest) := (packages[0], packages[1..]);
      assert packages == [nodes] + rest;
      var b := Removed(a, info, nodes);
      RemovedAllFirst(a, info, nodes, rest);
      AddedUndoesRemoved(a, info, nodes);
      ReverseRestores(b, info, rest);
      AddLastOfAll(RemovedAll(b, info, rest), info, nodes, rest, b, a);
    }
  }

  /** Packages that have nothing in common. */
  ghost predicate Disjoint(packages: seq<seq<Node>>) {
    forall i, j, n | 0 <= i < j < |packages| && n in packages[i] :: n !in packages[j]
  }

  lemma OthersStayPresent(a: Layout, info: Node -> Info, nodes: seq<Node>, others: seq<Node>)
    requires Present(a, info, nodes) && Present(a, info, others) && Distinct(a.register.loadables)
    requires forall n | n in nodes :: n !in others
    ensures Present(Removed(a, info, nodes), info, others)
  {
    RemovedNames(a.register.lookup, info, nodes);
    RemoveFirstLeaves(a.register.loadables, nodes[0]);
    forall i | 0 <= i < |others|
      ensures forall n | n in nodes :: info(n).name != info(others[i]).name
    {
      forall n | n in nodes
        ensures info(n).name != info(others[i]).name
      {
        var j :| 0 <= j < |nodes| && nodes[j] == n;
        assert a.register.lookup[info(nodes[j]).name] == nodes[j];
      }
    }
  }

  /** Packages that are all present, and distinct, can be taken out in any order. */
  lemma {:induction false} PresentAreRemovable(a: Layout, info: Node -> Info, packages: seq<seq<Node>>)
    requires Agree(a.shape) && Disjoint(packages) && Distinct(a.register.loadables)
    requires forall i | 0 <= i < |packages| :: Present(a, info, packages[i])
    ensures Removable(a, info, packages)
    decreases |packages|
  {
    if packages != [] {
      var (nodes, rest) := (packages[0], packages[1..]);
      var b := Removed(a, info, nodes);
      DetachAgrees(a.shape, nodes[0]);
      RemoveFirstLeaves(a.register.loadables, nodes[0]);
      forall i | 0 <= i < |rest|
        ensures Present(b, info, rest[i])
      {
        assert rest[i] == packages[i + 1] && Present(a, info, packages[i + 1]);
        assert forall n | n in nodes :: n !in packages[i + 1];
        OthersStayPresent(a, info, nodes, rest[i]);
      }
      PresentAreRemovable(b, info, rest);
    }
  }

  // ---------------------------------------------------------------------------------------
  // Loaded packages.

  function PackagesOf(owned: map<Node, seq<Node>>, Ls: seq<Node>): seq<seq<Node>>
    requires forall L | L in Ls :: L in owned
  {
    seq(|Ls|, i requires 0 <= i < |Ls| => owned[Ls[i]])
  }

  /** A loaded package whose loadable is directly below the toplevel is present. */
  lemma LoadedIsPresent(top: Toplevel, L: Node)
    requires Whole(top) && L in top.loadables && HasParent(top.t.View(), L, TOP)
    ensures L in top.owned && top.owned[L] != [] && top.owned[L][0] == L
    ensures Present(LayoutOf(top), top.info, top.owned[L]) && Agree(LayoutOf(top).shape)
  {
    PackageFacts(SnapshotOf(top), top.info, top.names, L);
    top.SaneGives();
  }

  /** In a configuration any loaded packages directly below the toplevel can be taken out, and
      putting them back in reverse order restores everything. */
  lemma LoadedAreRestored(top: Toplevel, Ls: seq<Node>)
    requires Whole(top) && Distinct(Ls) && forall L | L in Ls :: L in top.loadables && HasParent(top.t.View(), L, TOP)
    ensures forall L | L in Ls :: L in top.owned
    ensures var (a, packages) := (LayoutOf(top), PackagesOf(top.owned, Ls));
            && Removable(a, top.info, packages)
            && AddingLeads(RemovedAll(a, top.info, packages), top.info, packages, a)
  {
    forall L | L in Ls
      ensures L in top.owned && top.owned[L] != [] && top.owned[L][0] == L
      ensures Present(LayoutOf(top), top.info, top.owned[L])
    {
      LoadedIsPresent(top, L);
    }
    LoadablesAre(top);
    WholeGives(top);
    top.SaneGives();
    var packages := PackagesOf(top.owned, Ls);
    forall i, j, n | 0 <= i < j < |packages| && n in packages[i]
      ensures n !in packages[j]
    {
      Apart(top.owner, top.owned, top.info, top.next, Ls[i], Ls[j]);
    }
    PresentAreRemovable(LayoutOf(top), top.info, packages);
    ReverseRestores(LayoutOf(top), top.info, packages);
  }

  // ---------------------------------------------------------------------------------------
  // A recorded position that is past the end.

  lemma TakenFromTop(s: Shape, front: seq<Node>, n: Node, back: seq<Node>)
    requires HasParent(s, n, TOP) && Get(s.contents, TOP) == front + [n] + back && n !in front
    ensures First(Get(s.contents, TOP), Same(n)) == |front|
    ensures Get(Detach(s, n).contents, TOP) == front + back
  {
    FirstIs(Get(s.contents, TOP), Same(n), |front|);
  }

  /** Package Q owns an option, which is no container and is named as the parent of package X, so the
      move of X was refused and X is directly below the toplevel. So is package L. L is taken out, at
      position 3. When Q goes, X becomes an orphan; when Q has been put back, the move of X is refused
      again and X stays where it is. Now the contents of the toplevel are too short for L. */
  lemma PastTheEnd(s: Shape, Q: Node, X: Node, L: Node)
    requires 1 < Q < X < L && HasParent(s, Q, TOP) && HasParent(s, X, TOP) && HasParent(s, L, TOP)
    requires Get(s.contents, TOP) == [ORPHANS, Q, X, L]
    ensures var orphaned := Move(Detach(s, L), X, ORPHANS, -1);
            var (p, q) := (First(Get(s.contents, TOP), Same(L)), First(Get(orphaned.contents, TOP), Same(Q)));
            var out := Detach(orphaned, Q);
            p == 3 && q <= |Get(out.contents, TOP)| && |Get(Attach(out, Q, TOP, q).contents, TOP)| == 2
  {
    TakenFromTop(s, [ORPHANS, Q, X], L, []);
    TakenFromTop(Detach(s, L), [ORPHANS, Q], X, []);
    TakenFromTop(Move(Detach(s, L), X, ORPHANS, -1), [ORPHANS], Q, []);
  }
}
