/** Who is whose parent: the parent fields and contents vectors of the nodes, and the moves that
    `parent` properties make when packages come and go. */
module Hierarchy {
  import opened Wrappers
  import opened Tallies
  import opened References

  /** The toplevel itself, and the container for nodes whose parent is missing. */
  const TOP: Node := 0
  const ORPHANS: Node := 1

  /** What a node is, from its construction on. */
  datatype Info = Info(name: string, container: bool, loadable: bool, properties: nat, parentProperty: Option<nat>) {
    predicate Parental() {
      parentProperty.Some?
    }
  }

  datatype Shape = Shape(parent: map<Node, Node>, contents: map<Node, seq<Node>>)

  function Same(n: Node): Node -> bool {
    (m: Node) => m == n
  }

  ghost predicate HasParent(s: Shape, n: Node, p: Node) {
    n in s.parent && s.parent[n] == p
  }

  /** Parent fields and contents vectors agree: a node occurs once in the contents of its parent
      and nowhere else. */
  ghost predicate Agree(s: Shape) {
    forall p, n {:trigger Tally(Get(s.contents, p), Same(n))} ::
      Tally(Get(s.contents, p), Same(n)) == One(HasParent(s, n, p))
  }

  /** The nodes directly below the toplevel that should be elsewhere: their move was refused. */
  function Stuck(parent: map<Node, Node>, refused: seq<Node>): set<Node> {
    set n | n in refused && n in parent && parent[n] == TOP
  }

  // ---------------------------------------------------------------------------------------
  // The elementary changes.

  function InsertAt<T>(s: seq<T>, i: nat, x: T): seq<T>
    requires i <= |s|
  {
    s[..i] + [x] + s[i..]
  }

  lemma TallyInsert<T>(s: seq<T>, i: nat, x: T, p: T -> bool)
    requires i <= |s|
    ensures Tally(InsertAt(s, i, x), p) == Tally(s, p) + One(p(x))
  {
    assert s == s[..i] + s[i..];
    TallyJoin(s[..i], s[i..], p);
    TallyJoin(s[..i] + [x], s[i..], p);
    TallyPush(s[..i], x, p);
  }

  /** Take a node out of its parent. */
  function Detach(s: Shape, n: Node): Shape
    requires n in s.parent
  {
    var p := s.parent[n];
    Shape(s.parent - {n}, s.contents[p := RemoveFirst(Get(s.contents, p), Same(n))])
  }

  /** Put a node without a parent into one, at a position. */
  function Attach(s: Shape, n: Node, p: Node, pos: nat): Shape
    requires n !in s.parent && pos <= |Get(s.contents, p)|
  {
    Shape(s.parent[n := p], s.contents[p := InsertAt(Get(s.contents, p), pos, n)])
  }

  /** change_parent(): -1 stands for the end of the new parent's contents. */
  function Move(s: Shape, n: Node, p: Node, pos: int): Shape
    requires n in s.parent && -1 <= pos <= |Get(Detach(s, n).contents, p)|
  {
    var s1 := Detach(s, n);
    Attach(s1, n, p, if pos == -1 then |Get(s1.contents, p)| else pos)
  }

  lemma DetachAgrees(s: Shape, n: Node)
    requires Agree(s) && n in s.parent
    ensures Agree(Detach(s, n))
    ensures First(Get(s.contents, s.parent[n]), Same(n)) < |Get(s.contents, s.parent[n])|
  {
    var p := s.parent[n];
    var c := Get(s.contents, p);
    FirstFound(c, Same(n));
    assert HasParent(s, n, p);
    forall q, m
      ensures Tally(Get(Detach(s, n).contents, q), Same(m)) == One(HasParent(Detach(s, n), m, q))
    {
      assert Tally(Get(s.contents, q), Same(m)) == One(HasParent(s, m, q));
      TallyRemove(c, First(c, Same(n)), Same(m));
      assert HasParent(Detach(s, n), m, q) <==> HasParent(s, m, q) && m != n;
    }
  }

  lemma AttachAgrees(s: Shape, n: Node, p: Node, pos: nat)
    requires Agree(s) && n !in s.parent && pos <= |Get(s.contents, p)|
    ensures Agree(Attach(s, n, p, pos))
  {
    forall q, m
      ensures Tally(Get(Attach(s, n, p, pos).contents, q), Same(m)) == One(HasParent(Attach(s, n, p, pos), m, q))
    {
      assert Tally(Get(s.contents, q), Same(m)) == One(HasParent(s, m, q));
      TallyInsert(Get(s.contents, p), pos, n, Same(m));
      assert HasParent(Attach(s, n, p, pos), m, q) <==> HasParent(s, m, q) || (m == n && q == p);
    }
  }

  /** A detached node goes back to where it was. */
  lemma AttachUndoesDetach(s: Shape, n: Node)
    requires Agree(s) && n in s.parent
    ensures var p := s.parent[n];
            var pos := First(Get(s.contents, p), Same(n));
            && pos <= |Get(Detach(s, n).contents, p)|
            && Attach(Detach(s, n), n, p, pos) == s
  {
    var p := s.parent[n];
    var c := Get(s.contents, p);
    var pos := First(c, Same(n));
    DetachAgrees(s, n);
    assert p in s.contents;
    assert InsertAt(Without(c, pos), pos, n) == c;
    assert Detach(s, n).parent[n := p] == s.parent;
    assert s.contents[p := Without(c, pos)][p := c] == s.contents;
  }

  /** The members of a contents vector are the nodes with that parent. */
  lemma ContentsAre(s: Shape, p: Node)
    requires Agree(s)
    ensures forall n :: n in Get(s.contents, p) <==> HasParent(s, n, p)
  {
    forall n
      ensures n in Get(s.contents, p) <==> HasParent(s, n, p)
    {
      TallyZero(Get(s.contents, p), Same(n));
    }
  }

  // ---------------------------------------------------------------------------------------
  // No cycles.

  function RankOf(rank: map<Node, nat>, n: Node): nat {
    if n in rank then rank[n] else 0
  }

  /** A rank that grows from parents to children shows that there are no cycles. */
  ghost predicate Ranked(s: Shape, rank: map<Node, nat>, height: nat) {
    && (forall n | n in s.parent :: RankOf(rank, s.parent[n]) < RankOf(rank, n))
    && (forall n :: RankOf(rank, n) <= height)
  }

  /** n is x or x is an ancestor of n. */
  ghost predicate Below(s: Shape, rank: map<Node, nat>, height: nat, x: Node, n: Node)
    requires Ranked(s, rank, height)
    decreases RankOf(rank, n)
  {
    n == x || (n in s.parent && Below(s, rank, height, x, s.parent[n]))
  }

  lemma {:induction false} BelowThrough(s: Shape, rank: map<Node, nat>, height: nat, x: Node, y: Node, n: Node)
    requires Ranked(s, rank, height) && Below(s, rank, height, x, y) && Below(s, rank, height, y, n)
    ensures Below(s, rank, height, x, n)
    decreases RankOf(rank, n)
  {
    if n != y {
      BelowThrough(s, rank, height, x, y, s.parent[n]);
    }
  }

  lemma {:induction false} BelowRanks(s: Shape, rank: map<Node, nat>, height: nat, x: Node, n: Node)
    requires Ranked(s, rank, height) && Below(s, rank, height, x, n)
    ensures RankOf(rank, x) <= RankOf(rank, n) && (x != n ==> RankOf(rank, x) < RankOf(rank, n))
    decreases RankOf(rank, n)
  {
    if n != x {
      BelowRanks(s, rank, height, x, s.parent[n]);
    }
  }

  /** Below a node is the node itself or what is below one of its contents. */
  lemma {:induction false} BelowChild(s: Shape, rank: map<Node, nat>, height: nat, x: Node, n: Node)
    requires Ranked(s, rank, height)
    ensures (n != x && Below(s, rank, height, x, n)) <==>
              exists c | HasParent(s, c, x) :: Below(s, rank, height, c, n)
    decreases RankOf(rank, n)
  {
    if n in s.parent {
      BelowChild(s, rank, height, x, s.parent[n]);
      if n != x && Below(s, rank, height, x, n) {
        if s.parent[n] == x {
          assert HasParent(s, n, x) && Below(s, rank, height, n, n);
        } else {
          var c :| HasParent(s, c, x) && Below(s, rank, height, c, s.parent[n]);
          assert Below(s, rank, height, c, n);
        }
      }
    }
    forall c | HasParent(s, c, x) && Below(s, rank, height, c, n)
      ensures n != x && Below(s, rank, height, x, n)
    {
      assert Below(s, rank, height, x, c);
      BelowThrough(s, rank, height, x, c, n);
      BelowRanks(s, rank, height, c, n);
    }
  }

  /** The ranks after x with all that is below it has moved below p. */
  ghost function Lifted(s: Shape, rank: map<Node, nat>, height: nat, x: Node, p: Node): map<Node, nat>
    requires Ranked(s, rank, height)
  {
    map n | n in s.parent.Keys + rank.Keys + {x} ::
      if Below(s, rank, height, x, n) then RankOf(rank, n) + RankOf(rank, p) + 1 else RankOf(rank, n)
  }

  /** Moving x below p makes no cycle, provided that p is not below x. */
  lemma LiftedRanks(s: Shape, rank: map<Node, nat>, height: nat, x: Node, p: Node, s': Shape)
    requires Ranked(s, rank, height) && !Below(s, rank, height, x, p)
    requires s'.parent == s.parent[x := p]
    ensures Ranked(s', Lifted(s, rank, height, x, p), 2 * height + 1)
  {
    var rank' := Lifted(s, rank, height, x, p);
    forall n | n in s'.parent
      ensures RankOf(rank', s'.parent[n]) < RankOf(rank', n)
    {
      var q := s'.parent[n];
      assert q !in rank' ==> RankOf(rank, q) == 0 && !Below(s, rank, height, x, q);
    }
  }

  /** Everything that holds of the hierarchy at all times. */
  ghost predicate Sound(s: Shape, rank: map<Node, nat>, height: nat, info: Node -> Info) {
    && Agree(s) && Ranked(s, rank, height)
    && HasParent(s, ORPHANS, TOP) && TOP !in s.parent
    && info(TOP).container && info(ORPHANS).container && !info(ORPHANS).Parental()
    && (forall n | n in s.parent :: info(s.parent[n]).container)
  }

  /** A move keeps parent fields and contents in agreement and makes no cycle. */
  lemma MoveKeeps(s: Shape, rank: map<Node, nat>, height: nat, info: Node -> Info, n: Node, p: Node, pos: int)
    requires Sound(s, rank, height, info) && n in s.parent && n != ORPHANS
    requires info(p).container && !Below(s, rank, height, n, p)
    requires -1 <= pos <= |Get(Detach(s, n).contents, p)|
    ensures Sound(Move(s, n, p, pos), Lifted(s, rank, height, n, p), 2 * height + 1, info)
    ensures Move(s, n, p, pos).parent == s.parent[n := p]
    ensures First(Get(s.contents, s.parent[n]), Same(n)) < |Get(s.contents, s.parent[n])|
  {
    var s1 := Detach(s, n);
    DetachAgrees(s, n);
    AttachAgrees(s1, n, p, if pos == -1 then |Get(s1.contents, p)| else pos);
    assert (s.parent - {n})[n := p] == s.parent[n := p];
    LiftedRanks(s, rank, height, n, p, Move(s, n, p, pos));
  }

  lemma AddKeeps(s: Shape, rank: map<Node, nat>, height: nat, info: Node -> Info, n: Node, p: Node, pos: nat)
    requires Sound(s, rank, height, info) && n !in s.parent && n != TOP
    requires info(p).container && !Below(s, rank, height, n, p) && pos <= |Get(s.contents, p)|
    ensures Sound(Attach(s, n, p, pos), Lifted(s, rank, height, n, p), 2 * height + 1, info)
  {
    AttachAgrees(s, n, p, pos);
    LiftedRanks(s, rank, height, n, p, Attach(s, n, p, pos));
  }

  lemma DetachKeeps(s: Shape, rank: map<Node, nat>, height: nat, info: Node -> Info, n: Node)
    requires Sound(s, rank, height, info) && n in s.parent && n != ORPHANS
    ensures Sound(Detach(s, n), rank, height, info)
    ensures First(Get(s.contents, s.parent[n]), Same(n)) < |Get(s.contents, s.parent[n])|
  {
    DetachAgrees(s, n);
  }

  /** The nodes of a list but one. */
  function Others(s: seq<Node>, n: Node): seq<Node>
  {
    if s == [] then [] else (if s[0] == n then [] else [s[0]]) + Others(s[1..], n)
  }

  lemma {:induction false} OthersPush(s: seq<Node>, m: Node, n: Node)
    ensures Others(s + [m], n) == Others(s, n) + (if m == n then [] else [m])
  {
    if s == [] {
      assert s + [m] == [m] && [m][1..] == [];
    } else {
      assert (s + [m])[1..] == s[1..] + [m];
      OthersPush(s[1..], m, n);
      var head := if s[0] == n then [] else [s[0]];
      assert head + (Others(s[1..], n) + (if m == n then [] else [m]))
          == head + Others(s[1..], n) + (if m == n then [] else [m]);
    }
  }

  lemma {:induction false} OthersAre(s: seq<Node>, n: Node)
    ensures forall m :: m in Others(s, n) <==> m in s && m != n
  {
    if s != [] {
      OthersAre(s[1..], n);
      assert forall m :: m in s <==> m == s[0] || m in s[1..];
    }
  }

  lemma {:induction false} OthersJoin(s: seq<Node>, t: seq<Node>, n: Node)
    ensures Others(s + t, n) == Others(s, n) + Others(t, n)
    decreases |t|
  {
    if t == [] {
      assert s + t == s;
    } else {
      var (init, m) := (t[..|t| - 1], t[|t| - 1]);
      assert t == init + [m] && s + t == (s + init) + [m];
      OthersJoin(s, init, n);
      OthersPush(s + init, m, n);
      OthersPush(init, m, n);
    }
  }

  /** Taking the node out of a list, or putting it in, leaves the others in their order. */
  lemma OthersInOrder(s: seq<Node>, i: nat, n: Node)
    ensures i < |s| && s[i] == n ==> Others(Without(s, i), n) == Others(s, n)
    ensures i <= |s| ==> Others(InsertAt(s, i, n), n) == Others(s, n)
  {
    OthersPush([], n, n);
    assert [] + [n] == [n];
    if i < |s| && s[i] == n {
      assert s == s[..i] + [n] + s[i + 1..];
      OthersJoin(s[..i] + [n], s[i + 1..], n);
      OthersJoin(s[..i], [n], n);
      OthersJoin(s[..i], s[i + 1..], n);
    }
    if i <= |s| {
      assert s == s[..i] + s[i..];
      OthersJoin(s[..i] + [n], s[i..], n);
      OthersJoin(s[..i], [n], n);
      OthersJoin(s[..i], s[i..], n);
    }
  }

  /** A node that is moved stands at the position asked for, or at the end if none was, and all
      other nodes stay where they are, in their order. */
  lemma MovedIs(s: Shape, n: Node, p: Node, pos: int)
    requires Agree(s) && n in s.parent && -1 <= pos <= |Get(Detach(s, n).contents, p)|
    ensures var (s', c) := (Move(s, n, p, pos), Get(Move(s, n, p, pos).contents, p));
            && s'.parent == s.parent[n := p] && c != []
            && var i := if pos == -1 then |c| - 1 else pos; i < |c| && c[i] == n
    ensures forall q ::
              && Others(Get(Move(s, n, p, pos).contents, q), n) == Others(Get(s.contents, q), n)
              && (q != p ==> n !in Get(Move(s, n, p, pos).contents, q))
  {
    MovedTo(s, n, p, pos);
    forall q
      ensures Others(Get(Move(s, n, p, pos).contents, q), n) == Others(Get(s.contents, q), n)
      ensures q != p ==> n !in Get(Move(s, n, p, pos).contents, q)
    {
      MovedFrom(s, n, q);
      if q == p {
        var c := Get(Detach(s, n).contents, p);
        OthersInOrder(c, if pos == -1 then |c| else pos, n);
      }
    }
  }

  lemma MovedTo(s: Shape, n: Node, p: Node, pos: int)
    requires n in s.parent && -1 <= pos <= |Get(Detach(s, n).contents, p)|
    ensures var (s', c) := (Move(s, n, p, pos), Get(Move(s, n, p, pos).contents, p));
            && s'.parent == s.parent[n := p] && c != []
            && var i := if pos == -1 then |c| - 1 else pos; i < |c| && c[i] == n
  {
    assert (s.parent - {n})[n := p] == s.parent[n := p];
  }

  lemma MovedFrom(s: Shape, n: Node, q: Node)
    requires Agree(s) && n in s.parent
    ensures Others(Get(Detach(s, n).contents, q), n) == Others(Get(s.contents, q), n)
    ensures n !in Get(Detach(s, n).contents, q)
  {
    var p := s.parent[n];
    DetachAgrees(s, n);
    ContentsAre(Detach(s, n), q);
    OthersInOrder(Get(s.contents, p), First(Get(s.contents, p), Same(n)), n);
  }

  method Find(c: seq<Node>, n: Node) returns (i: nat)
    ensures i == First(c, Same(n))
  {
    i := 0;
    while i < |c| && c[i] != n
      invariant i <= |c| && forall j | 0 <= j < i :: c[j] != n
    {
      i := i + 1;
    }
    FirstIs(c, Same(n), i);
  }

  // ---------------------------------------------------------------------------------------
  // The hierarchy of a configuration.

  class Tree {
    const info: Node -> Info
    var parent: map<Node, Node>
    var contents: map<Node, seq<Node>>
    var refused: seq<Node>  // nodes with a live Data conflict for their parent property
    ghost var rank: map<Node, nat>
    ghost var height: nat

    /** A toplevel with nothing in it but the container for orphans. */
    constructor (info: Node -> Info)
      requires info(TOP).container && info(ORPHANS).container && !info(ORPHANS).Parental()
      ensures this.info == info
      ensures Valid() && View() == Shape(map[ORPHANS := TOP], map[TOP := [ORPHANS]]) && refused == []
    {
      this.info := info;
      parent, contents, refused := map[ORPHANS := TOP], map[TOP := [ORPHANS]], [];
      rank, height := map[ORPHANS := 1], 1;
      new;
      forall p, n
        ensures Tally(Get(contents, p), Same(n)) == One(HasParent(View(), n, p))
      {
        TallyOne(ORPHANS, Same(n));
      }
    }

    ghost function View(): Shape
      reads `parent, `contents
    {
      Shape(parent, contents)
    }

    ghost function StuckNodes(): set<Node>
      reads `parent, `refused
    {
      Stuck(parent, refused)
    }

    ghost predicate Valid()
      reads `parent, `contents, `rank, `height
    {
      Sound(View(), rank, height, info)
    }

    /** n is x or somewhere below x. */
    ghost predicate IsBelow(x: Node, n: Node)
      requires Valid()
      reads this
    {
      Below(View(), rank, height, x, n)
    }

    /** CdlContainerBody::contains with recursion finds exactly what is below the container. */
    method Contains(x: Node, d: Node) returns (found: bool)
      requires Valid()
      ensures found <==> d != x && IsBelow(x, d)
      decreases height - RankOf(rank, x)
    {
      BelowChild(View(), rank, height, x, d);
      ContentsAre(View(), x);
      var c := Get(contents, x);
      var i := 0;
      while i < |c|
        invariant i <= |c|
        invariant forall j | 0 <= j < i :: !IsBelow(c[j], d)
      {
        assert HasParent(View(), c[i], x);
        if d == c[i] {
          return true;
        }
        if info(c[i]).container {
          var inside := Contains(c[i], d);
          if inside {
            return true;
          }
        } else {
          NothingBelow(c[i], d);
        }
        i := i + 1;
      }
      found := false;
    }

    /** Nothing but the toplevel is above what lies directly below the toplevel. */
    lemma OnlyTopAbove(n: Node, x: Node)
      requires Valid() && HasParent(View(), x, TOP) && n in parent && n != x
      ensures !IsBelow(n, x)
    {
      assert !IsBelow(n, TOP);
    }

    /** Only containers have anything below them. */
    lemma NothingBelow(x: Node, n: Node)
      requires Valid() && !info(x).container
      ensures IsBelow(x, n) <==> n == x
    {
      BelowChild(View(), rank, height, x, n);
    }

    method ChangeParent(n: Node, p: Node, pos: int)
      requires Valid() && n in parent && n != ORPHANS && info(p).container && !IsBelow(n, p)
      requires -1 <= pos <= |Get(Detach(View(), n).contents, p)|
      modifies this`parent, this`contents, this`rank, this`height
      ensures Valid() && View() == Move(old(View()), n, p, pos) && parent == old(parent)[n := p]
    {
      MoveKeeps(View(), rank, height, info, n, p, pos);
      rank, height := Lifted(View(), rank, height, n, p), 2 * height + 1;
      Relocate(n, p, pos);
    }

    method Relocate(n: Node, p: Node, pos: int)
      requires n in parent && First(Get(contents, parent[n]), Same(n)) < |Get(contents, parent[n])|
      requires -1 <= pos <= |Get(Detach(View(), n).contents, p)|
      modifies this`parent, this`contents
      ensures View() == Move(old(View()), n, p, pos)
    {
      Take(n);
      Put(n, p, if pos == -1 then |Get(contents, p)| else pos);
    }

    method Take(n: Node)
      requires n in parent && First(Get(contents, parent[n]), Same(n)) < |Get(contents, parent[n])|
      modifies this`parent, this`contents
      ensures View() == Detach(old(View()), n)
    {
      var c := Get(contents, parent[n]);
      var i := Find(c, n);
      contents := contents[parent[n] := Without(c, i)];
      parent := parent - {n};
    }

    method Put(n: Node, p: Node, pos: nat)
      requires n !in parent && pos <= |Get(contents, p)|
      modifies this`parent, this`contents
      ensures View() == Attach(old(View()), n, p, pos)
    {
      contents := contents[p := InsertAt(Get(contents, p), pos, n)];
      parent := parent[n := p];
    }

    /** Unloading: a loadable goes below the toplevel, any other node below its loadable. */
    method OnUnloading(n: Node, owner: Node)
      requires Valid() && n in parent && n != ORPHANS && info(owner).container
      requires !info(n).loadable ==> !IsBelow(n, owner)
      modifies this`parent, this`contents, this`rank, this`height
      ensures Valid()
      ensures View() == Move(old(View()), n, if info(n).loadable then TOP else owner, -1)
      ensures parent == old(parent)[n := if info(n).loadable then TOP else owner]
    {
      if info(n).loadable {
        ChangeParent(n, TOP, -1);
      } else {
        ChangeParent(n, owner, -1);
      }
    }

    /** The destination is missing: a node whose parent property names nothing goes to the front
        part of the toplevel, any other node becomes an orphan. */
    method OnMissing(n: Node, nameless: bool)
      requires Valid() && n in parent && n != ORPHANS && !IsBelow(n, ORPHANS)
      modifies this`parent, this`contents, this`rank, this`height, this`refused
      ensures Valid()
      ensures FrontPosition(old(View()), info) <= |Get(Detach(old(View()), n).contents, TOP)|
      ensures View() == if nameless then Move(old(View()), n, TOP, FrontPosition(old(View()), info))
                        else Move(old(View()), n, ORPHANS, -1)
      ensures parent == old(parent)[n := if nameless then TOP else ORPHANS]
      ensures refused == Others(old(refused), n)
    {
      Leave(n, nameless);
      ClearRefused(n);
    }

    method Leave(n: Node, nameless: bool)
      requires Valid() && n in parent && n != ORPHANS && !IsBelow(n, ORPHANS)
      modifies this`parent, this`contents, this`rank, this`height
      ensures Valid()
      ensures FrontPosition(old(View()), info) <= |Get(Detach(old(View()), n).contents, TOP)|
      ensures View() == if nameless then Move(old(View()), n, TOP, FrontPosition(old(View()), info))
                        else Move(old(View()), n, ORPHANS, -1)
      ensures parent == old(parent)[n := if nameless then TOP else ORPHANS]
    {
      FrontFits(n);
      if nameless {
        MoveToFront(n);
      } else {
        ChangeParent(n, ORPHANS, -1);
      }
    }

    method MoveToFront(n: Node)
      requires Valid() && n in parent && n != ORPHANS
      requires FrontPosition(View(), info) <= |Get(Detach(View(), n).contents, TOP)|
      modifies this`parent, this`contents, this`rank, this`height
      ensures Valid() && View() == Move(old(View()), n, TOP, FrontPosition(old(View()), info))
      ensures parent == old(parent)[n := TOP]
    {
      var i := Front();
      ChangeParent(n, TOP, i);
    }

    /** The position ahead of everything that was not specifically put below the toplevel. */
    method Front() returns (i: nat)
      ensures i == FrontPosition(View(), info)
    {
      var top := Get(contents, TOP);
      i := 0;
      while i < |top| && info(top[i]).Parental()
        invariant i <= |top| && forall j | 0 <= j < i :: info(top[j]).Parental()
      {
        i := i + 1;
      }
      FirstIs(top, NotParental(info), i);
    }

    method ClearRefused(n: Node)
      modifies this`refused
      ensures refused == Others(old(refused), n)
    {
      var kept: seq<Node> := [];
      var i := 0;
      while i < |refused|
        invariant i <= |refused| && refused == old(refused)
        invariant kept == Others(refused[..i], n)
      {
        OthersPush(refused[..i], refused[i], n);
        assert refused[..i + 1] == refused[..i] + [refused[i]];
        if refused[i] != n {
          kept := kept + [refused[i]];
        }
        i := i + 1;
      }
      assert refused[..i] == refused;
      refused := kept;
    }

    /** Clear the Data conflicts of some nodes. */
    method ClearAllRefused(nodes: set<Node>)
      modifies this`refused
      ensures forall n :: n in refused <==> n in old(refused) && n !in nodes
    {
      var kept: seq<Node> := [];
      var i := 0;
      while i < |refused|
        invariant i <= |refused| && refused == old(refused)
        invariant forall n :: n in kept <==> n in refused[..i] && n !in nodes
      {
        if refused[i] !in nodes {
          kept := kept + [refused[i]];
        }
        i := i + 1;
      }
      refused := kept;
    }

    /** The orphans' container has no parent property, so the search for the front position stops
        there at the latest, and what is found is still a position after the node was taken out. */
    lemma FrontFits(n: Node)
      requires Valid() && n in parent && n != ORPHANS
      ensures FrontPosition(View(), info) <= |Get(Detach(View(), n).contents, TOP)|
    {
      OrphansStand(View(), info);
      DetachedIs(View(), n, TOP);
    }

    /** The destination is there: move below it, unless it is no container or is itself somewhere
        below the node. */
    method OnFound(n: Node, d: Node)
      requires Valid() && n in parent && n != ORPHANS && n != d
      modifies this`parent, this`contents, this`rank, this`height, this`refused
      ensures Valid()
      ensures if info(d).container && !old(IsBelow(n, d))
              then View() == Move(old(View()), n, d, -1) && refused == old(refused) && parent == old(parent)[n := d]
              else View() == old(View()) && refused == old(refused) + [n]
    {
      if !info(d).container {
        refused := refused + [n];
      } else {
        var cyclic := false;
        if info(n).container {
          cyclic := Contains(n, d);
        } else {
          NothingBelow(n, d);
        }
        if cyclic {
          refused := refused + [n];
        } else {
          ChangeParent(n, d, -1);
        }
      }
    }

    /** The first step of removing a loadable: take it out of its parent and tell where it was. */
    method TakeOut(n: Node) returns (pos: nat)
      requires Valid() && n in parent && n != ORPHANS
      modifies this`parent, this`contents
      ensures Valid() && View() == Detach(old(View()), n)
      ensures pos == First(Get(old(contents), old(parent)[n]), Same(n))
    {
      DetachKeeps(View(), rank, height, info, n);
      pos := Find(Get(contents, parent[n]), n);
      Take(n);
    }

    /** Put it back. */
    method PutBack(n: Node, pos: nat)
      requires Valid() && n !in parent && n != TOP && pos <= |Get(contents, TOP)|
      modifies this`parent, this`contents, this`rank, this`height
      ensures Valid() && View() == Attach(old(View()), n, TOP, pos)
    {
      AddKeeps(View(), rank, height, info, n, TOP, pos);
      rank, height := Lifted(View(), rank, height, n, TOP), 2 * height + 1;
      Put(n, TOP, pos);
    }

    /** add_node(): a new node goes to the end of its parent's contents. */
    method AddNode(n: Node, p: Node)
      requires Valid() && n !in parent && n != TOP && info(p).container && !IsBelow(n, p)
      modifies this`parent, this`contents, this`rank, this`height
      ensures Valid() && View() == Attach(old(View()), n, p, |Get(old(contents), p)|)
    {
      AddKeeps(View(), rank, height, info, n, p, |Get(contents, p)|);
      rank, height := Lifted(View(), rank, height, n, p), 2 * height + 1;
      Put(n, p, |Get(contents, p)|);
    }
  }

  function NotParental(info: Node -> Info): Node -> bool {
    (n: Node) => !info(n).Parental()
  }

  /** The position ahead of the first node that was not specifically put below the toplevel. */
  function FrontPosition(s: Shape, info: Node -> Info): nat {
    First(Get(s.contents, TOP), NotParental(info))
  }

  /** A node that is moved to the front position stands ahead of everything that was not specifically
      put below the toplevel, exactly if it was not in front already. If it was, the position is one
      too many when the node has been taken out, and the first of the others comes before it. */
  lemma AheadIff(s: Shape, info: Node -> Info, n: Node)
    requires Agree(s) && n in s.parent && info(n).Parental()
    requires HasParent(s, ORPHANS, TOP) && !info(ORPHANS).Parental()
    ensures var (c, k) := (Get(s.contents, TOP), FrontPosition(s, info));
            && k < |c| && k <= |Get(Detach(s, n).contents, TOP)|
            && var c' := Get(Move(s, n, TOP, k).contents, TOP);
               && k < |c'| && c'[k] == n
               && ((forall j | 0 <= j < |c'| && !info(c'[j]).Parental() :: k < j) <==> n !in c[..k])
  {
    var c := Get(s.contents, TOP);
    OrphansStand(s, info);
    DetachedIs(s, n, TOP);
    FrontOf(c, First(c, Same(n)), info, n);
  }

  lemma OrphansStand(s: Shape, info: Node -> Info)
    requires Agree(s) && HasParent(s, ORPHANS, TOP) && !info(ORPHANS).Parental()
    ensures FrontPosition(s, info) < |Get(s.contents, TOP)|
  {
    var top := Get(s.contents, TOP);
    ContentsAre(s, TOP);
    var i :| 0 <= i < |top| && top[i] == ORPHANS;
    assert NotParental(info)(top[i]);
  }

  lemma DetachedIs(s: Shape, n: Node, p: Node)
    requires Agree(s) && n in s.parent
    ensures var c := Get(s.contents, p);
            var i := First(c, Same(n));
            && (if i < |c| then c[i] == n && n !in Without(c, i) else n !in c)
            && Get(Detach(s, n).contents, p) == if i < |c| then Without(c, i) else c
  {
    var c := Get(s.contents, p);
    DetachAgrees(s, n);
    ContentsAre(s, p);
    ContentsAre(Detach(s, n), p);
    assert n in c <==> HasParent(s, n, p);
    assert First(c, Same(n)) < |c| <==> n in c by {
      assert forall j | 0 <= j < First(c, Same(n)) :: !Same(n)(c[j]);
    }
    assert !HasParent(Detach(s, n), n, p);
  }

  lemma FrontOf(c: seq<Node>, i: nat, info: Node -> Info, n: Node)
    requires i <= |c| && info(n).Parental() && First(c, NotParental(info)) < |c|
    requires if i < |c| then c[i] == n && n !in Without(c, i) else n !in c
    ensures var k := First(c, NotParental(info));
            var c1 := if i < |c| then Without(c, i) else c;
            && k <= |c1| && InsertAt(c1, k, n)[k] == n && |InsertAt(c1, k, n)| == |c1| + 1
            && ((forall j | 0 <= j <= |c1| && !info(InsertAt(c1, k, n)[j]).Parental() :: k < j) <==> n !in c[..k])
  {
    var k := First(c, NotParental(info));
    var c1 := if i < |c| then Without(c, i) else c;
    var c' := InsertAt(c1, k, n);
    if i < k {
      assert c[..k][i] == n;
      assert c'[k - 1] == c[k] && !info(c'[k - 1]).Parental();
    } else {
      assert forall j | 0 <= j < k :: c'[j] == c[j];
      assert forall j | 0 <= j < k :: i < |c| ==> Without(c, i)[j] == c[j];
    }
  }
}
