/** Counting the elements of a sequence that have a property. */
module Tallies {
  function One(b: bool): nat {
    if b then 1 else 0
  }

  function Tally<T>(s: seq<T>, p: T -> bool): nat {
    if s == [] then 0 else One(p(s[0])) + Tally(s[1..], p)
  }

  lemma {:induction false} TallyJoin<T>(s: seq<T>, t: seq<T>, p: T -> bool)
    ensures Tally(s + t, p) == Tally(s, p) + Tally(t, p)
  {
    if s == [] {
      assert s + t == t;
    } else {
      assert (s + t)[1..] == s[1..] + t;
      TallyJoin(s[1..], t, p);
    }
  }

  lemma TallyOne<T>(x: T, p: T -> bool)
    ensures Tally([x], p) == One(p(x))
  {
    assert [x][1..] == [];
  }

  lemma TallyPush<T>(s: seq<T>, x: T, p: T -> bool)
    ensures Tally(s + [x], p) == Tally(s, p) + One(p(x))
  {
    TallyJoin(s, [x], p);
    TallyOne(x, p);
  }

  lemma TallySplit<T>(s: seq<T>, i: nat, p: T -> bool)
    requires i < |s|
    ensures Tally(s, p) == Tally(s[..i], p) + One(p(s[i])) + Tally(s[i + 1..], p)
  {
    assert s == s[..i] + [s[i]] + s[i + 1..];
    TallyJoin(s[..i] + [s[i]], s[i + 1..], p);
    TallyPush(s[..i], s[i], p);
  }

  lemma TallyUpdate<T>(s: seq<T>, i: nat, x: T, p: T -> bool)
    requires i < |s|
    ensures Tally(s[i := x], p) + One(p(s[i])) == Tally(s, p) + One(p(x))
  {
    var t := s[i := x];
    assert t[..i] == s[..i] && t[i + 1..] == s[i + 1..];
    TallySplit(s, i, p);
    TallySplit(t, i, p);
  }

  function Without<T>(s: seq<T>, i: nat): (r: seq<T>)
    requires i < |s|
    ensures |r| == |s| - 1
  {
    s[..i] + s[i + 1..]
  }

  lemma TallyRemove<T>(s: seq<T>, i: nat, p: T -> bool)
    requires i < |s|
    ensures Tally(Without(s, i), p) + One(p(s[i])) == Tally(s, p)
  {
    TallySplit(s, i, p);
    TallyJoin(s[..i], s[i + 1..], p);
  }

  lemma {:induction false} TallyZero<T>(s: seq<T>, p: T -> bool)
    ensures Tally(s, p) == 0 <==> forall i | 0 <= i < |s| :: !p(s[i])
  {
    if s != [] {
      TallyZero(s[1..], p);
      assert forall i | 1 <= i < |s| :: s[i] == s[1..][i - 1];
    }
  }

  lemma {:induction false} TallySame<T>(s: seq<T>, p: T -> bool, q: T -> bool)
    requires forall i | 0 <= i < |s| :: p(s[i]) == q(s[i])
    ensures Tally(s, p) == Tally(s, q)
  {
    if s != [] {
      TallySame(s[1..], p, q);
    }
  }

  /** The position of the first element with a property, or the length. */
  function First<T>(s: seq<T>, p: T -> bool): (i: nat)
    ensures i <= |s| && (i < |s| ==> p(s[i]))
    ensures forall j | 0 <= j < i :: !p(s[j])
  {
    if s == [] || p(s[0]) then 0
    else
      assert forall j | 1 <= j < |s| :: s[j] == s[1..][j - 1];
      1 + First(s[1..], p)
  }

  lemma FirstFound<T>(s: seq<T>, p: T -> bool)
    ensures First(s, p) < |s| <==> Tally(s, p) > 0
  {
    TallyZero(s, p);
  }

  lemma FirstIs<T>(s: seq<T>, p: T -> bool, i: nat)
    requires i <= |s| && (i < |s| ==> p(s[i])) && forall j | 0 <= j < i :: !p(s[j])
    ensures First(s, p) == i
  {
  }

  /** The elements with a property, in order. */
  function Keep<T>(s: seq<T>, p: T -> bool): seq<T> {
    if s == [] then [] else (if p(s[0]) then [s[0]] else []) + Keep(s[1..], p)
  }

  lemma {:induction false} KeepPush<T>(s: seq<T>, x: T, p: T -> bool)
    ensures Keep(s + [x], p) == Keep(s, p) + (if p(x) then [x] else [])
  {
    if s == [] {
      assert s + [x] == [x] && [x][1..] == [];
    } else {
      assert (s + [x])[1..] == s[1..] + [x];
      KeepPush(s[1..], x, p);
      var head := if p(s[0]) then [s[0]] else [];
      assert head + (Keep(s[1..], p) + (if p(x) then [x] else []))
          == head + Keep(s[1..], p) + (if p(x) then [x] else []);
    }
  }

  /** Dropping elements that do not count does not change the count; dropping all that count
      leaves none. */
  lemma {:induction false} TallyKeep<T>(s: seq<T>, p: T -> bool, q: T -> bool)
    ensures (forall x | q(x) :: p(x)) ==> Tally(Keep(s, p), q) == Tally(s, q)
    ensures (forall x | q(x) :: !p(x)) ==> Tally(Keep(s, p), q) == 0
  {
    if s != [] {
      TallyKeep(s[1..], p, q);
      var head := if p(s[0]) then [s[0]] else [];
      TallyJoin(head, Keep(s[1..], p), q);
      if p(s[0]) { TallyOne(s[0], q); }
    }
  }

  function Get<K, V>(m: map<K, seq<V>>, k: K): seq<V> {
    if k in m then m[k] else []
  }
}
