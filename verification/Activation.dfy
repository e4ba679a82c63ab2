/** Activity: nodes become active or inactive with their parents, through a queue of changes that
    a transaction drains. */
module Activation {
  import opened Tallies
  import opened References
  import opened Hierarchy

  // ---------------------------------------------------------------------------------------
  // A node weighs as much as all that is below it, and one more.

  ghost function Weight(s: Shape, rank: map<Node, nat>, height: nat, n: Node): nat
    requires Agree(s) && Ranked(s, rank, height)
    decreases height - RankOf(rank, n), 1, 0
  {
    ContentsAre(s, n);
    1 + WeightOf(s, rank, height, n, Get(s.contents, n))
  }

  /** The weight of some of the contents of a node. */
  ghost function WeightOf(s: Shape, rank: map<Node, nat>, height: nat, p: Node, nodes: seq<Node>): nat
    requires Agree(s) && Ranked(s, rank, height)
    requires forall n | n in nodes :: HasParent(s, n, p)
    decreases height - RankOf(rank, p), 0, |nodes|
  {
    if nodes == [] then 0
    else
      assert HasParent(s, nodes[0], p);
      Weight(s, rank, height, nodes[0]) + WeightOf(s, rank, height, p, nodes[1..])
  }

  ghost function Total(s: Shape, rank: map<Node, nat>, height: nat, nodes: seq<Node>): nat
    requires Agree(s) && Ranked(s, rank, height)
  {
    if nodes == [] then 0 else Weight(s, rank, height, nodes[0]) + Total(s, rank, height, nodes[1..])
  }

  lemma {:induction false} TotalOfContents(s: Shape, rank: map<Node, nat>, height: nat, p: Node, nodes: seq<Node>)
    requires Agree(s) && Ranked(s, rank, height) && forall n | n in nodes :: HasParent(s, n, p)
    ensures Total(s, rank, height, nodes) == WeightOf(s, rank, height, p, nodes)
  {
    if nodes != [] {
      TotalOfContents(s, rank, height, p, nodes[1..]);
    }
  }

  lemma {:induction false} TotalPush(s: Shape, rank: map<Node, nat>, height: nat, nodes: seq<Node>, n: Node)
    requires Agree(s) && Ranked(s, rank, height)
    ensures Total(s, rank, height, nodes + [n]) == Total(s, rank, height, nodes) + Weight(s, rank, height, n)
  {
    if nodes == [] {
      assert [] + [n] == [n] && [n][1..] == [];
    } else {
      assert (nodes + [n])[1..] == nodes[1..] + [n];
      TotalPush(s, rank, height, nodes[1..], n);
    }
  }

  class Propagation {
    const before: Node -> bool      // the activity of the nodes outside the transaction
    var s: Shape                    // the hierarchy
    var enabled: Node -> bool       // whether a node, as a container, lets its contents be active
    var wanted: Node -> bool        // what a node's own active_if conditions come to
    ghost var rank: map<Node, nat>
    ghost var height: nat
    var activated: set<Node>
    var deactivated: set<Node>
    var valueChanges: seq<Node>
    var activeChanges: seq<Node>

    constructor (s: Shape, ghost rank: map<Node, nat>, ghost height: nat,
                 enabled: Node -> bool, wanted: Node -> bool, before: Node -> bool)
      requires Agree(s) && Ranked(s, rank, height) && TOP !in s.parent && before(TOP)
      ensures this.s == s && this.rank == rank && this.height == height
      ensures this.enabled == enabled && this.wanted == wanted && this.before == before
      ensures Sane() && valueChanges == [] && activeChanges == []
    {
      this.s, this.rank, this.height := s, rank, height;
      this.enabled, this.wanted, this.before := enabled, wanted, before;
      activated, deactivated, valueChanges, activeChanges := {}, {}, [], [];
    }

    /** The toplevel is always active. */
    ghost predicate Sane()
      reads this
    {
      && Agree(s) && Ranked(s, rank, height) && TOP !in s.parent
      && before(TOP) && TOP !in deactivated && activated !! deactivated
    }

    /** CdlTransactionBody::is_active */
    predicate IsActive(n: Node)
      reads this
    {
      IsActiveIn(activated, deactivated, n)
    }

    predicate IsActiveIn(on: set<Node>, off: set<Node>, n: Node) {
      if n in on then true else if n in off then false else before(n)
    }

    /** CdlNodeBody::test_active and CdlValuableBody::test_active */
    predicate TestActive(n: Node)
      reads this
    {
      n in s.parent && IsActive(s.parent[n]) && enabled(s.parent[n]) && wanted(n)
    }

    /** CdlTransactionBody::set_active */
    method SetActive(n: Node, state: bool)
      requires Sane() && n != TOP
      modifies this`activated, this`deactivated, this`activeChanges
      ensures Sane() && IsActive(n) == state && activeChanges == old(activeChanges) + [n]
      ensures forall m | m != n :: IsActive(m) == old(IsActive(m))
    {
      if state {
        activated, deactivated := activated + {n}, deactivated - {n};
      } else {
        activated, deactivated := activated - {n}, deactivated + {n};
      }
      activeChanges := activeChanges + [n];
    }

    // -------------------------------------------------------------------------------------
    // What is queued.

    ghost predicate Queued(n: Node)
      reads this
    {
      n in valueChanges || n in activeChanges
    }

    /** Every node is as active as its parent lets it be, or its parent is still to be looked at. */
    ghost predicate Pending()
      reads this
    {
      forall n {:trigger TestActive(n)} | n in s.parent :: IsActive(n) == TestActive(n) || Queued(s.parent[n])
    }

    /** A node is as active as its parent lets it be, or its parent is in the queue. */
    ghost predicate Owed(n: Node)
      reads this
    {
      n in s.parent ==> IsActive(n) == TestActive(n) || Queued(s.parent[n])
    }

    /** Bring one node in line. If that changes it, it is queued, so that its contents follow. */
    method Recheck(n: Node)
      requires Sane() && n in s.parent
      modifies this`activated, this`deactivated, this`activeChanges
      ensures Sane() && Owed(n) && old(activeChanges) <= activeChanges
      ensures forall m | old(Owed(m)) :: Owed(m)
    {
      var newState := TestActive(n);
      if IsActive(n) != newState {
        SetActive(n, newState);
      }
      assert s.parent[n] != n;
    }

    /** A container is enabled or disabled, which is queued as a value change if it is one. */
    method Enable(c: Node, state: bool)
      requires Sane() && Pending()
      modifies this`enabled, this`valueChanges
      ensures Sane() && Pending() && enabled(c) == state && forall m | m != c :: enabled(m) == old(enabled)(m)
    {
      var was := enabled;
      if was(c) != state && c !in valueChanges {
        valueChanges := valueChanges + [c];
      }
      enabled := (m: Node) => if m == c then state else was(m);
      forall m
        ensures Owed(m)
      {
        assert m in s.parent ==> old(IsActive(m) == TestActive(m) || Queued(s.parent[m]));
      }
      AllOwed();
    }

    lemma AllOwed()
      requires forall n {:trigger Owed(n)} :: Owed(n)
      ensures Pending()
    {
      forall n | n in s.parent
        ensures IsActive(n) == TestActive(n) || Queued(s.parent[n])
      {
        assert Owed(n);
      }
    }

    /** The active_if conditions of a node come to something else. */
    method Want(n: Node, state: bool)
      requires Sane() && Pending() && n in s.parent
      modifies this`wanted, this`activated, this`deactivated, this`activeChanges
      ensures Sane() && Pending() && wanted(n) == state && forall m | m != n :: wanted(m) == old(wanted)(m)
    {
      var was := wanted;
      wanted := (m: Node) => if m == n then state else was(m);
      forall m | m != n
        ensures Owed(m)
      {
        assert m in s.parent ==> old(IsActive(m) == TestActive(m) || Queued(s.parent[m]));
      }
      Recheck(n);
      AllOwed();
    }

    /** A node has been moved to another parent, and is active if it should be in its new place. */
    method Moved(n: Node, s': Shape, ghost rank': map<Node, nat>, ghost height': nat)
      requires Sane() && Pending() && Agree(s') && Ranked(s', rank', height') && TOP !in s'.parent
      requires n in s'.parent && forall m | m != n ::
                 (m in s'.parent <==> m in s.parent) && (m in s.parent ==> s'.parent[m] == s.parent[m])
      modifies this`s, this`rank, this`height, this`activated, this`deactivated, this`activeChanges
      ensures Sane() && Pending() && s == s'
    {
      s, rank, height := s', rank', height';
      forall m | m != n
        ensures Owed(m)
      {
        assert m in s.parent ==> old(IsActive(m) == TestActive(m) || Queued(s.parent[m]));
      }
      Recheck(n);
      AllOwed();
    }

    /** The last loop of CdlLoadableBody::bind: the new nodes are inactive so far. */
    method Activate(nodes: seq<Node>)
      requires Sane() && (forall n | n in nodes :: n in s.parent) && forall n | n !in nodes :: Owed(n)
      modifies this`activated, this`deactivated, this`activeChanges
      ensures Sane() && Pending()
    {
      var i := 0;
      while i < |nodes|
        invariant i <= |nodes| && Sane()
        invariant forall n {:trigger Owed(n)} | n !in nodes[i..] :: Owed(n)
      {
        assert nodes[i..] == [nodes[i]] + nodes[i + 1..];
        Recheck(nodes[i]);
        i := i + 1;
      }
      AllOwed();
    }

    // -------------------------------------------------------------------------------------
    // What draining the queue achieves.

    ghost predicate Settled()
      reads this
    {
      forall n {:trigger TestActive(n)} | n in s.parent :: IsActive(n) == TestActive(n)
    }

    /** A node deserves to be active if everything above it is active and enabled. */
    ghost predicate Deserves(n: Node)
      requires Ranked(s, rank, height)
      reads this
      decreases RankOf(rank, n)
    {
      n == TOP || (n in s.parent && wanted(n) && enabled(s.parent[n]) && Deserves(s.parent[n]))
    }

    /** Once nothing is pending, activity is what the whole chain of parents makes it. */
    lemma {:induction false} SettledMeansDeserved(n: Node)
      requires Sane() && Settled() && (n in s.parent || n == TOP)
      requires forall m | m in s.parent :: s.parent[m] in s.parent || s.parent[m] == TOP
      ensures IsActive(n) == Deserves(n)
      decreases RankOf(rank, n)
    {
      if n != TOP {
        SettledMeansDeserved(s.parent[n]);
        assert IsActive(n) == TestActive(n);
      }
    }

    // -------------------------------------------------------------------------------------
    // Draining.

    /** How much there is still to do for these nodes. */
    ghost function Work(nodes: seq<Node>): nat
      requires Agree(s) && Ranked(s, rank, height)
      reads `s, `rank, `height
    {
      Total(s, rank, height, nodes)
    }

    /** One of the contents of a container is brought in line with it. */
    method Follow(c: Node, n: Node)
      requires Sane() && HasParent(s, n, c) && n != c
      modifies this`activated, this`deactivated, this`activeChanges
      ensures Sane() && IsActive(n) == TestActive(n) && forall m | m != n :: IsActive(m) == old(IsActive(m))
      ensures activeChanges == old(activeChanges) + if IsActive(n) == old(IsActive(n)) then [] else [n]
      ensures Total(s, rank, height, activeChanges)
           <= Total(s, rank, height, old(activeChanges)) + Weight(s, rank, height, n)
    {
      TotalPush(s, rank, height, activeChanges, n);
      assert activeChanges + [] == activeChanges;
      if IsActive(c) {
        var newState := TestActive(n);
        if IsActive(n) != newState {
          SetActive(n, newState);
        }
      } else if IsActive(n) {
        SetActive(n, false);
      }
    }

    /** CdlContainerBody::update, for an activity or value change. Contents whose activity changes
        are queued in their turn. */
    method Update(c: Node)
      requires Sane()
      modifies this`activated, this`deactivated, this`activeChanges
      ensures Sane() && old(activeChanges) <= activeChanges
      ensures forall n | HasParent(s, n, c) :: IsActive(n) == TestActive(n)
      ensures forall n | IsActive(n) != old(IsActive(n)) :: HasParent(s, n, c) && n in activeChanges
      ensures Work(activeChanges) < Work(old(activeChanges)) + Weight(s, rank, height, c)
    {
      ContentsAre(s, c);
      var contents := Get(s.contents, c);
      FollowAll(c, contents);
      TotalOfContents(s, rank, height, c, contents);
    }

    method FollowAll(c: Node, contents: seq<Node>)
      requires Sane() && forall n | n in contents :: HasParent(s, n, c)
      modifies this`activated, this`deactivated, this`activeChanges
      ensures Sane() && old(activeChanges) <= activeChanges
      ensures forall n | n in contents :: IsActive(n) == TestActive(n)
      ensures forall n | IsActive(n) != old(IsActive(n)) :: n in contents && n in activeChanges
      ensures Total(s, rank, height, activeChanges)
           <= Total(s, rank, height, old(activeChanges)) + Total(s, rank, height, contents)
    {
      var i := 0;
      assert contents[..0] == [];
      while i < |contents|
        invariant i <= |contents| && Sane() && old(activeChanges) <= activeChanges
        invariant IsActive(c) == old(IsActive(c))
        invariant forall n | n in contents[..i] :: IsActive(n) == TestActive(n)
        invariant forall n | IsActive(n) != old(IsActive(n)) :: n in contents[..i] && n in activeChanges
        invariant Total(s, rank, height, activeChanges)
               <= Total(s, rank, height, old(activeChanges)) + Total(s, rank, height, contents[..i])
      {
        var n := contents[i];
        assert HasParent(s, n, c) && n != c;
        assert forall m | m in contents[..i] :: m in contents && HasParent(s, m, c);
        TotalPush(s, rank, height, contents[..i], n);
        assert contents[..i + 1] == contents[..i] + [n];
        Follow(c, n);
        i := i + 1;
      }
      assert contents[..i] == contents;
    }

    /** CdlTransactionBody::propagate, as far as activity is concerned: value changes first, then
        activity changes, until none is left. */
    method Propagate()
      requires Sane() && Pending()
      modifies this`activated, this`deactivated, this`activeChanges, this`valueChanges
      ensures Sane() && Settled() && valueChanges == [] && activeChanges == []
    {
      while |valueChanges| > 0 || |activeChanges| > 0
        invariant Sane() && Pending()
        decreases Work(valueChanges) + Work(activeChanges)
      {
        PropagateOne();
      }
    }

    /** The first change in the queue. */
    method PropagateOne()
      requires Sane() && Pending() && (valueChanges != [] || activeChanges != [])
      modifies this`activated, this`deactivated, this`activeChanges, this`valueChanges
      ensures Sane() && Pending()
      ensures Work(valueChanges) + Work(activeChanges) < old(Work(valueChanges) + Work(activeChanges))
    {
      ghost var on, off, queued := activated, deactivated, valueChanges + activeChanges;
      forall n | n in s.parent
        ensures WasOwed(n, on, off, queued)
      {
        assert IsActive(n) == TestActive(n) || Queued(s.parent[n]);
      }
      var c := if |valueChanges| > 0 then valueChanges[0] else activeChanges[0];
      if |valueChanges| > 0 {
        valueChanges := valueChanges[1..];
      } else {
        activeChanges := activeChanges[1..];
      }
      Update(c);
      forall n | n in s.parent
        ensures IsActive(n) == TestActive(n) || Queued(s.parent[n])
      {
        StillPending(n, c, on, off, queued);
      }
    }

    /** The same of an earlier activity and queue. */
    ghost predicate WasOwed(n: Node, on: set<Node>, off: set<Node>, queued: seq<Node>)
      requires n in s.parent
      reads `s, `enabled, `wanted
    {
      var p := s.parent[n];
      IsActiveIn(on, off, n) == (IsActiveIn(on, off, p) && enabled(p) && wanted(n)) || p in queued
    }

    /** Looking at c leaves nothing else undone. */
    lemma StillPending(n: Node, c: Node, on: set<Node>, off: set<Node>, queued: seq<Node>)
      requires Sane() && n in s.parent
      requires WasOwed(n, on, off, queued)
      requires forall m | HasParent(s, m, c) :: IsActive(m) == TestActive(m)
      requires forall m | IsActive(m) != IsActiveIn(on, off, m) :: HasParent(s, m, c) && m in activeChanges
      requires forall m | m != c && m in queued :: Queued(m)
      ensures IsActive(n) == TestActive(n) || Queued(s.parent[n])
    {
      var p := s.parent[n];
      if p == c {
        assert HasParent(s, n, c);
      }
    }
  }
}
