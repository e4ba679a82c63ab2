/** The log of operations that a transaction can cancel, and the compound operations of a
    configuration that rely on it. */
module Rollback {
  import opened Wrappers
  import opened Tallies
  import opened References
  import opened Hierarchy
  import opened Loading
  import opened Packages
  import opened Positions

  datatype Act = Loaded(L: Node) | Unloaded(L: Node) | Renamed(name: string)

  /** A commit/cancel operation. Its serial number stands for the identity of the object. */
  datatype Op = Op(serial: nat, act: Act)

  /** Cancelling an operation leads from the register after it back to the one before it. */
  ghost predicate Undoes(act: Act, before: Register, after: Register, owned: map<Node, seq<Node>>,
                         place: map<Node, Place>, info: Node -> Info) {
    match act
    case Loaded(L) =>
      L in owned && L in after.loadables && Unregistered(after, info, owned[L]) == before
    case Unloaded(L) =>
      && L in owned && L !in after.attached && Free(after.lookup, info, owned[L])
      && L in place && place[L].index <= |after.loadables|
      && Reregistered(after, info, owned[L], place[L].index) == before
    case Renamed(_) => before == after
  }

  ghost predicate About(act: Act, L: Node) {
    match act
    case Loaded(M) => M == L
    case Unloaded(M) => M == L
    case Renamed(_) => false
  }

  /** The hardware name before some operations: what the first change of name among them recorded. */
  function NameBefore(ops: seq<Op>, name: string): string {
    if ops == [] then name
    else if ops[0].act.Renamed? then ops[0].act.name
    else NameBefore(ops[1..], name)
  }

  lemma {:induction false} NameBeforeLast(ops: seq<Op>, op: Op, name: string)
    ensures NameBefore(ops + [op], name) == NameBefore(ops, NameBefore([op], name))
  {
    if ops != [] {
      assert (ops + [op])[1..] == ops[1..] + [op];
      NameBeforeLast(ops[1..], op, name);
    }
  }

  lemma NameBeforeSlice(ops: seq<Op>, m: nat, n: nat, name: string)
    requires m <= n < |ops|
    ensures NameBefore(ops[m..n + 1], name) == NameBefore(ops[m..n], NameBefore([ops[n]], name))
  {
    assert ops[m..n + 1] == ops[m..n] + [ops[n]];
    NameBeforeLast(ops[m..n], ops[n], name);
  }

  /** What the script of a package comes to: the parents of the nodes that it declares, whether it
      has no errors of its own, and whether recording the operation in the transaction works. */
  datatype Script = Script(parents: seq<Node>, good: bool, recorded: bool)

  /** The source of a package: whether the database knows it, and what becomes of its script when
      nodes are numbered from a given number on, if it can be found at all. */
  datatype Source = Source(name: string, known: bool, script: Node -> Option<Script>)

  /** Whether a package can be loaded while nodes are numbered from `next` on: the database knows it,
      its script is found and has no errors, its names are free, and the operation can be recorded. */
  ghost predicate Loads(source: Source, info: Node -> Info, lookup: Table, next: Node) {
    var script := source.script(next);
    && source.known && script.Some? && script.value.good && script.value.recorded
    && Free(lookup, info, Upcoming(next, |script.value.parents|))
  }

  /** Whether the packages of a target can be loaded one after the other. Those that the database does
      not know, and those whose name is in use by then, are left out. */
  ghost predicate LoadsAll(sources: seq<Source>, info: Node -> Info, lookup: Table, next: Node) {
    if sources == [] then true
    else
      var s := sources[0];
      if !s.known || s.name in lookup then LoadsAll(sources[1..], info, lookup, next)
      else
        && Loads(s, info, lookup, next)
        && var nodes := Upcoming(next, |s.script(next).value.parents|);
           LoadsAll(sources[1..], info, AddNames(lookup, info, nodes), next + |nodes|)
  }

  /** The loadables that are not flagged, in their order. */
  function Unflagged(loadables: seq<Node>, flags: set<Node>): seq<Node> {
    if loadables == [] then []
    else (if loadables[0] in flags then [] else [loadables[0]]) + Unflagged(loadables[1..], flags)
  }

  lemma {:induction false} UnflaggedAre(loadables: seq<Node>, flags: set<Node>)
    ensures forall L :: L in Unflagged(loadables, flags) <==> L in loadables && L !in flags
  {
    if loadables != [] {
      UnflaggedAre(loadables[1..], flags);
      assert loadables == [loadables[0]] + loadables[1..];
    }
  }

  /** The names that are left when some packages have gone. */
  function TableWithout(lookup: Table, owned: map<Node, seq<Node>>, gone: set<Node>): Table {
    map name | name in lookup && forall L | L in gone && L in owned :: lookup[name] !in owned[L] :: lookup[name]
  }

  lemma TableThrough(lookup: Table, owned: map<Node, seq<Node>>, gone: set<Node>, gone': set<Node>)
    ensures TableWithout(TableWithout(lookup, owned, gone), owned, gone') == TableWithout(lookup, owned, gone + gone')
  {
  }

  lemma RemovedAre(lookup: Table, info: Node -> Info, nodes: seq<Node>)
    requires Known(lookup, info, nodes) && forall name | name in lookup :: info(lookup[name]).name == name
    ensures RemoveNames(lookup, info, nodes) == map name | name in lookup && lookup[name] !in nodes :: lookup[name]
  {
    RemovedNames(lookup, info, nodes);
    forall n | n in nodes
      ensures info(n).name in lookup && lookup[info(n).name] == n
    {
      var i :| 0 <= i < |nodes| && nodes[i] == n;
      assert info(nodes[i]).name in lookup;
    }
  }

  /** The packages of a list that are flagged. */
  function Flagged(loadables: seq<Node>, flags: set<Node>): set<Node> {
    set L | L in loadables && L in flags
  }

  /** No unloading of these packages goes wrong. */
  ghost predicate Faultless(gone: set<Node>, faults: Node -> Fault) {
    forall L | L in gone :: faults(L).NoFault?
  }

  /** Some packages have been loaded after those that were there, and exactly they have been flagged. */
  ghost predicate HasLoaded(loadables: seq<Node>, flags: set<Node>, next: Node,
                            loadables': seq<Node>, flags': set<Node>, next': Node) {
    && loadables <= loadables' && next <= next' && flags <= flags'
    && (forall i | |loadables| <= i < |loadables'| :: loadables'[i] >= next)
    && (forall L :: L in flags' && L !in flags <==> L in loadables'[|loadables|..])
  }

  lemma LoadedThrough(loadables: seq<Node>, flags: set<Node>, next: Node, loadables1: seq<Node>, flags1: set<Node>,
                      next1: Node, loadables': seq<Node>, flags': set<Node>, next': Node)
    requires HasLoaded(loadables, flags, next, loadables1, flags1, next1)
    requires HasLoaded(loadables1, flags1, next1, loadables', flags', next')
    ensures HasLoaded(loadables, flags, next, loadables', flags', next')
  {
    assert loadables'[|loadables|..] == loadables1[|loadables|..] + loadables'[|loadables1|..];
  }

  /** The packages of the old hardware have gone, and all others have stayed, in their order. After
      them come the new ones, which are flagged, and of the loadables no others. */
  ghost predicate Replaced(loadables: seq<Node>, flags: set<Node>, loadables': seq<Node>, flags': set<Node>) {
    && Unflagged(loadables, flags) <= loadables'
    && (forall L | L in loadables' :: L in flags' <==> L !in loadables)
    && (forall L | L in loadables' && L in loadables :: L !in flags)
  }

  lemma DroppedAndLoaded(loadables: seq<Node>, flags: set<Node>, next: Node, loadables': seq<Node>, flags': set<Node>,
                         next': Node)
    requires HasLoaded(Unflagged(loadables, flags), flags, next, loadables', flags', next')
    requires forall L | L in loadables :: L < next
    ensures Replaced(loadables, flags, loadables', flags')
  {
    var kept := Unflagged(loadables, flags);
    UnflaggedAre(loadables, flags);
    assert loadables' == kept + loadables'[|kept|..];
    forall L | L in loadables'[|kept|..]
      ensures L >= next
    {
      var i :| 0 <= i < |loadables'[|kept|..]| && loadables'[|kept|..][i] == L;
      assert loadables'[|kept| + i] == L;
    }
    forall L | L in loadables'
      ensures (L in flags' <==> L !in loadables) && (L in loadables ==> L !in flags)
    {
      assert L in kept || L in loadables'[|kept|..];
    }
  }

  lemma {:induction false} UnflaggedFirst(kept: seq<Node>, others: seq<Node>, flags: set<Node>)
    requires (forall L | L in kept :: L !in flags) && forall L | L in others :: L in flags
    ensures Unflagged(kept + others, flags) == kept
    decreases |kept| + |others|
  {
    if kept != [] {
      assert (kept + others)[1..] == kept[1..] + others;
      UnflaggedFirst(kept[1..], others, flags);
    } else if others != [] {
      assert kept + others == others && [] + others[1..] == others[1..];
      UnflaggedFirst([], others[1..], flags);
    }
  }

  /** When the new packages go again, what is left is what stayed when they came. */
  lemma NewOnesGo(loadables: seq<Node>, flags: set<Node>, loadables': seq<Node>, flags': set<Node>)
    requires Replaced(loadables, flags, loadables', flags') && Distinct(loadables')
    ensures Unflagged(loadables', flags') == Unflagged(loadables, flags)
  {
    var kept := Unflagged(loadables, flags);
    var others := loadables'[|kept|..];
    UnflaggedAre(loadables, flags);
    assert loadables' == kept + others;
    forall L | L in others
      ensures L in flags'
    {
      var i :| 0 <= i < |others| && others[i] == L;
      assert loadables'[|kept| + i] == L;
    }
    UnflaggedFirst(kept, others, flags');
  }

  ghost predicate Proper(source: Source, info: Node -> Info, names: Key -> seq<string>) {
    forall next {:trigger source.script(next)} | source.script(next).Some? ::
      var parents := source.script(next).value.parents;
      parents != [] && Parsed(info, names, Upcoming(next, |parents|), parents) && info(next).name == source.name
  }

  /** Where the unloading of a package goes wrong. */
  datatype Fault = NoFault | AtRemoval | AtRecord

  /** When an operation begins: the register, and whether there is calm, in that no node is directly
      below the toplevel because its move was refused. */
  datatype Moment = Moment(register: Register, calm: bool)

  /** The register before the i-th operation of the log, or the present one. */
  ghost function State(past: seq<Moment>, now: Register, i: nat): Register {
    if i < |past| then past[i].register else now
  }

  /** From the m-th operation on, every unload of the log began in calm. */
  ghost predicate Calmly(log: seq<Op>, past: seq<Moment>, m: nat) {
    forall i | m <= i < |log| && log[i].act.Unloaded? :: i < |past| && past[i].calm
  }

  /** A loadable that was taken out fits back in when all that must be directly below the toplevel is
      there. */
  ghost predicate HasRoom(act: Act, after: Register, place: map<Node, Place>, info: Node -> Info,
                          names: Key -> seq<string>) {
    act.Unloaded? ==> act.L in place && place[act.L].position <= Room(after.attached, info, names)
  }

  /** The i-th operation can be cancelled once those after it have been. */
  ghost predicate OpIsGood(log: seq<Op>, past: seq<Moment>, now: Register, owned: map<Node, seq<Node>>,
                           place: map<Node, Place>, info: Node -> Info, names: Key -> seq<string>, serial: nat, i: nat)
    requires i < |log|
  {
    && Undoes(log[i].act, State(past, now, i), State(past, now, i + 1), owned, place, info)
    && log[i].serial < serial
    && (log[i].act.Unloaded? ==> log[i].act.L !in now.attached)
    && (i < |past| && past[i].calm ==> HasRoom(log[i].act, State(past, now, i + 1), place, info, names))
    && forall j | i < j < |log| ::
         && log[i].serial < log[j].serial
         && (log[j].act.Loaded? ==> !About(log[i].act, log[j].act.L))
         && (log[i].act.Unloaded? ==> log[j].act != log[i].act)
  }

  ghost predicate LogIsGood(log: seq<Op>, past: seq<Moment>, now: Register, owned: map<Node, seq<Node>>,
                            place: map<Node, Place>, info: Node -> Info, names: Key -> seq<string>, serial: nat) {
    |past| == |log| && BadOps(log, past, now, owned, place, info, names, serial) == {}
  }

  ghost function BadOps(log: seq<Op>, past: seq<Moment>, now: Register, owned: map<Node, seq<Node>>,
                        place: map<Node, Place>, info: Node -> Info, names: Key -> seq<string>, serial: nat): set<nat>
  {
    set i: nat | i < |log| && !OpIsGood(log, past, now, owned, place, info, names, serial, i)
  }

  /** A further operation joins the log. */
  lemma LogGrows(log: seq<Op>, past: seq<Moment>, now: Register, owned: map<Node, seq<Node>>,
                 place: map<Node, Place>, info: Node -> Info, names: Key -> seq<string>, serial: nat,
                 act: Act, calm: bool, now': Register, owned': map<Node, seq<Node>>, place': map<Node, Place>)
    requires LogIsGood(log, past, now, owned, place, info, names, serial)
    requires Undoes(act, now, now', owned', place', info) && (calm ==> HasRoom(act, now', place', info, names))
    requires act.Unloaded? ==> act.L !in now'.attached && act.L in now.attached
    requires act.Loaded? ==> act.L !in owned
    requires forall L | L in owned && !About(act, L) :: L in owned' && owned'[L] == owned[L]
    requires forall L | L in place && !About(act, L) :: L in place' && place'[L] == place[L]
    requires forall L | L in owned && L !in now.attached :: L !in now'.attached && !About(act, L)
    requires act.Unloaded? ==> owned' == owned
    ensures LogIsGood(log + [Op(serial, act)], past + [Moment(now, calm)], now', owned', place', info, names,
                      serial + 1)
  {
    var log', past', serial' := log + [Op(serial, act)], past + [Moment(now, calm)], serial + 1;
    forall i | 0 <= i < |log'|
      ensures OpIsGood(log', past', now', owned', place', info, names, serial', i)
    {
      assert State(past', now', |log|) == now && State(past', now', |log| + 1) == now';
      if i < |log| {
        assert i !in BadOps(log, past, now, owned, place, info, names, serial);
        assert State(past', now', i) == State(past, now, i) && State(past', now', i + 1) == State(past, now, i + 1);
      }
    }
  }

  /** The last operation has been cancelled. */
  lemma LogShrinks(log: seq<Op>, past: seq<Moment>, now: Register, owned: map<Node, seq<Node>>,
                   place: map<Node, Place>, info: Node -> Info, names: Key -> seq<string>, serial: nat,
                   owned': map<Node, seq<Node>>, place': map<Node, Place>)
    requires LogIsGood(log, past, now, owned, place, info, names, serial) && log != []
    requires var (act, now') := (log[|log| - 1].act, past[|log| - 1].register);
             && (forall L | L in owned && !(act.Loaded? && act.L == L) :: L in owned' && owned'[L] == owned[L])
             && (forall L | L in place && !About(act, L) :: L in place' && place'[L] == place[L])
             && (forall L | L in owned && L !in now.attached && !About(act, L) :: L !in now'.attached)
    ensures var n := |log| - 1;
            LogIsGood(log[..n], past[..n], past[n].register, owned', place', info, names, serial)
  {
    var n := |log| - 1;
    var log', past', now' := log[..n], past[..n], past[n].register;
    forall i | 0 <= i < n
      ensures OpIsGood(log', past', now', owned', place', info, names, serial, i)
    {
      assert i !in BadOps(log, past, now, owned, place, info, names, serial);
      assert State(past', now', i) == State(past, now, i) && State(past', now', i + 1) == State(past, now, i + 1);
    }
  }

  lemma SerialsDiffer(log: seq<Op>, past: seq<Moment>, now: Register, owned: map<Node, seq<Node>>,
                      place: map<Node, Place>, info: Node -> Info, names: Key -> seq<string>, serial: nat,
                      i: nat, j: nat)
    requires LogIsGood(log, past, now, owned, place, info, names, serial) && i <= j < |log|
    ensures log[i].serial == log[j].serial <==> i == j
  {
    assert i !in BadOps(log, past, now, owned, place, info, names, serial);
  }

  /** Places that are recorded in addition do no harm. */
  lemma LogStays(log: seq<Op>, past: seq<Moment>, now: Register, owned: map<Node, seq<Node>>,
                 place: map<Node, Place>, info: Node -> Info, names: Key -> seq<string>, serial: nat,
                 place': map<Node, Place>)
    requires LogIsGood(log, past, now, owned, place, info, names, serial)
    requires forall L | L in place :: L in place' && place'[L] == place[L]
    ensures LogIsGood(log, past, now, owned, place', info, names, serial)
  {
    forall i | 0 <= i < |log|
      ensures OpIsGood(log, past, now, owned, place', info, names, serial, i)
    {
      assert i !in BadOps(log, past, now, owned, place, info, names, serial);
    }
  }

  /** The packages that some operations unloaded. */
  function UnloadedIn(ops: seq<Op>): set<Node> {
    set i | 0 <= i < |ops| && ops[i].act.Unloaded? :: ops[i].act.L
  }

  lemma UnloadedFirst(ops: seq<Op>)
    requires ops != []
    ensures UnloadedIn(ops) == UnloadedIn([ops[0]]) + UnloadedIn(ops[1..])
    ensures UnloadedIn([ops[0]]) == if ops[0].act.Unloaded? then {ops[0].act.L} else {}
  {
    assert ops == [ops[0]] + ops[1..];
    assert [ops[0]][0] == ops[0];
  }

  /** What these operations have unloaded has still to be deleted. */
  ghost predicate Outstanding(ops: seq<Op>, owned: map<Node, seq<Node>>, attached: set<Node>) {
    && (forall i | 0 <= i < |ops| && ops[i].act.Unloaded? :: ops[i].act.L in owned && ops[i].act.L !in attached)
    && (forall i, j | 0 <= i < j < |ops| && ops[i].act.Unloaded? :: ops[j].act != ops[i].act)
  }

  lemma UnloadedAreOut(log: seq<Op>, past: seq<Moment>, now: Register, owned: map<Node, seq<Node>>,
                       place: map<Node, Place>, info: Node -> Info, names: Key -> seq<string>, serial: nat)
    requires LogIsGood(log, past, now, owned, place, info, names, serial)
    ensures Outstanding(log, owned, now.attached)
  {
    forall i | 0 <= i < |log| && log[i].act.Unloaded?
      ensures log[i].act.L in owned && log[i].act.L !in now.attached
      ensures forall j | i < j < |log| :: log[j].act != log[i].act
    {
      assert i !in BadOps(log, past, now, owned, place, info, names, serial);
    }
  }

  lemma StillOutstanding(ops: seq<Op>, owned: map<Node, seq<Node>>, owned': map<Node, seq<Node>>, attached: set<Node>)
    requires ops != [] && Outstanding(ops, owned, attached)
    requires owned' == owned - if ops[0].act.Unloaded? then {ops[0].act.L} else {}
    ensures Outstanding(ops[1..], owned', attached)
  {
    forall i | 0 <= i < |ops[1..]| && ops[1..][i].act.Unloaded?
      ensures ops[1..][i].act.L in owned' && ops[1..][i].act.L !in attached
    {
      assert ops[1..][i] == ops[i + 1] && ops[0].act != ops[i + 1].act;
    }
  }

  lemma WhatIsLoaded(before: Register, info: Node -> Info, nodes: seq<Node>)
    requires nodes != [] && Free(before.lookup, info, nodes)
    requires before.attached !! Members(nodes) && nodes[0] !in before.loadables
    ensures var r := Registered(before, info, nodes);
            && Unregistered(r, info, nodes) == before
            && info(nodes[0]).name in r.lookup && r.lookup[info(nodes[0]).name] == nodes[0]
            && forall name | name in before.lookup :: name in r.lookup
  {
    UnloadUndoesLoad(before, info, nodes);
    AddedNames(before.lookup, info, nodes);
  }

  class Configuration {
    const top: Toplevel
    var hardware: string
    var forHardware: set<Node>  // packages with the loaded_for_hardware flag
    var log: seq<Op>
    var serial: nat
    ghost var past: seq<Moment>    // the moment before each operation of the log
    ghost var start: Snapshot      // the toplevel when the transaction started

    constructor (info: Node -> Info, names: Key -> seq<string>)
      requires info(TOP).container && info(ORPHANS).container && !info(ORPHANS).Parental()
      requires info(ORPHANS).name == "orphans"
      ensures Valid() && log == [] && fresh(top) && fresh(top.b) && fresh(top.t)
    {
      top := new Toplevel(info, names);
      hardware, forHardware, log, serial, past := "", {}, [], 0, [];
      new;
      EmptyIsWhole(top);
      start := SnapshotOf(top);
    }

    ghost function Now(): Register
      reads top
    {
      RegisterOf(top)
    }

    /** The present moment. */
    ghost function Here(): Moment
      reads top, top.t
    {
      Moment(Now(), top.t.StuckNodes() == {})
    }

    ghost predicate Valid()
      reads this, top, top.b, top.t
    {
      && Whole(top) && 1 < top.next
      && LogIsGood(log, past, Now(), top.owned, top.place, top.info, top.names, serial) && StartedAt(Now())
    }

    /** The transaction started in good order and without any conflicts of its own, and its first
        operation started from there. Only packages that have been constructed are flagged. */
    ghost predicate StartedAt(now: Register)
      reads this, top
    {
      && AllFine(start, top.info, top.names) && Clean(start.links) && start.filed == top.filed
      && start.register == State(past, now, 0)
      && forall L | L in forHardware :: L < top.next
    }

    /** add_commit_cancel_op(), for an operation that has just been performed. */
    method Record(act: Act, ghost here: Moment, ghost owned: map<Node, seq<Node>>, ghost place: map<Node, Place>)
      requires Whole(top) && 1 < top.next && StartedAt(here.register)
      requires LogIsGood(log, past, here.register, owned, place, top.info, top.names, serial)
      requires Undoes(act, here.register, Now(), top.owned, top.place, top.info)
      requires here.calm ==> HasRoom(act, Now(), top.place, top.info, top.names)
      requires act.Unloaded? ==> act.L !in top.attached && act.L in here.register.attached && top.owned == owned
      requires act.Loaded? ==> act.L !in owned
      requires forall L | L in owned && !About(act, L) :: L in top.owned && top.owned[L] == owned[L]
      requires forall L | L in place && !About(act, L) :: L in top.place && top.place[L] == place[L]
      requires forall L | L in owned && L !in here.register.attached :: L !in top.attached && !About(act, L)
      modifies this`log, this`serial, this`past
      ensures Valid() && log == old(log) + [Op(old(serial), act)] && past == old(past) + [here]
    {
      LogGrows(log, past, here.register, owned, place, top.info, top.names, serial, act, here.calm, Now(),
               top.owned, top.place);
      log := log + [Op(serial, act)];
      past := past + [here];
      serial := serial + 1;
    }

    /** What fitted back in still does. */
    ghost predicate KeepsRoom(place: map<Node, Place>, size: nat)
      reads top, top.t
    {
      && size <= |Get(top.t.contents, TOP)|
      && forall L | L in place :: L in top.place && top.place[L] == place[L]
    }

    /** load_package(). Whatever goes wrong, what was entered is taken out and deleted again. */
    method LoadPackage(source: Source) returns (ok: bool)
      requires Valid() && Proper(source, top.info, top.names)
      modifies this`log, this`serial, this`past, top, top.b, top.t
      ensures Valid() && top.next >= old(top.next)
      ensures ok <==> Loads(source, top.info, old(top.lookup), old(top.next))
      ensures ok ==>
                var nodes := Upcoming(old(top.next), |source.script(old(top.next)).value.parents|);
                && top.next == old(top.next) + |nodes| && Now() == Registered(old(Now()), top.info, nodes)
                && log == old(log) + [Op(old(serial), Loaded(old(top.next)))] && past == old(past) + [old(Here())]
                && source.name in top.lookup && top.lookup[source.name] == old(top.next)
                && top.loadables == old(top.loadables) + [old(top.next)]
      ensures forall name | name in old(top.lookup) :: name in top.lookup
      ensures !ok ==> log == old(log) && past == old(past) && Now() == old(Now()) && top.owned == old(top.owned)
      ensures !ok ==> KeepsRoom(old(top.place), |Get(old(top.t.contents), TOP)|)
    {
      var script := source.script(top.next);
      if !source.known || script.None? {
        return false;
      }
      assert Proper(source, top.info, top.names);
      ok := RunScript(script.value);
    }

    /** load_package(), from the point where the script has been found. */
    method RunScript(script: Script) returns (ok: bool)
      requires Valid() && script.parents != []
      requires Parsed(top.info, top.names, Upcoming(top.next, |script.parents|), script.parents)
      modifies this`log, this`serial, this`past, top, top.b, top.t
      ensures Valid() && top.next >= old(top.next)
      ensures var nodes := Upcoming(old(top.next), |script.parents|);
              && (ok <==> script.good && script.recorded && Free(old(top.lookup), top.info, nodes))
              && (ok ==> top.next == old(top.next) + |nodes| && Now() == Registered(old(Now()), top.info, nodes))
      ensures ok ==> var name := top.info(old(top.next)).name;
                && log == old(log) + [Op(old(serial), Loaded(old(top.next)))] && past == old(past) + [old(Here())]
                && name in top.lookup && top.lookup[name] == old(top.next)
                && (forall name | name in old(top.lookup) :: name in top.lookup)
                && top.loadables == old(top.loadables) + [old(top.next)]
      ensures !ok ==> log == old(log) && past == old(past) && Now() == old(Now()) && top.owned == old(top.owned)
      ensures !ok ==> KeepsRoom(old(top.place), |Get(old(top.t.contents), TOP)|)
    {
      ghost var s, here, place := SnapshotOf(top), Here(), top.place;
      CanLoad(script.parents);
      var L := top.next;
      ok := Load(top, script.parents, script.good);
      if ok {
        ok := FinishLoad(L, script.recorded, Upcoming(s.next, |script.parents|), s, here, place);
      } else {
        LogStays(log, past, here.register, s.owned, place, top.info, top.names, serial, top.place);
        SameSize(s);
      }
    }

    lemma CanLoad(parents: seq<Node>)
      requires Valid()
      ensures AllOlder(SnapshotOf(top)) && HasParent(top.t.View(), ORPHANS, TOP)
      ensures Members(Upcoming(top.next, |parents|)) !! top.attached
      ensures top.next !in top.loadables && top.next !in top.owned && top.next !in top.place
    {
      AllAreOlder(SnapshotOf(top), top.info, top.names);
      LoadablesAre(top);
      top.SaneGives();
    }

    lemma SameSize(s: Snapshot)
      requires Whole(top) && AllFine(s, top.info, top.names) && top.t.parent == s.shape.parent
      ensures |Get(top.t.contents, TOP)| == |Get(s.shape.contents, TOP)|
    {
      FineGives(s, top.info, top.names);
      top.SaneGives();
      SameParentsSameSize(s.shape, top.t.View());
    }

    /** A package has been loaded: note that in the log, or undo it if that goes wrong. */
    method FinishLoad(L: Node, recorded: bool, ghost nodes: seq<Node>, ghost s: Snapshot, ghost here: Moment,
                      ghost place: map<Node, Place>) returns (ok: bool)
      requires Whole(top) && 1 < top.next && nodes != [] && nodes[0] == L && StartedAt(s.register)
      requires nodes == Upcoming(s.next, |nodes|)
      requires Free(s.register.lookup, top.info, nodes) && Now() == Registered(s.register, top.info, nodes)
      requires Members(nodes) !! s.register.attached && L !in s.register.loadables && L !in s.owned && L !in place
      requires top.owned == s.owned[L := nodes] && here.register == s.register
      requires LogIsGood(log, past, s.register, s.owned, place, top.info, top.names, serial)
      requires forall M | M in place :: M in top.place && top.place[M] == place[M]
      requires AllFine(s, top.info, top.names) && AllOlder(s) && Stuck(s.shape.parent, s.refused) <= top.t.StuckNodes()
      requires HasParent(s.shape, ORPHANS, TOP)
      modifies this`log, this`serial, this`past, top, top.b, top.t
      ensures Valid() && top.next == old(top.next) && ok == recorded && (ok ==> Now() == old(Now()))
      ensures ok ==> var name := top.info(L).name;
                && log == old(log) + [Op(old(serial), Loaded(L))] && past == old(past) + [here]
                && name in top.lookup && top.lookup[name] == L
                && (forall name | name in s.register.lookup :: name in top.lookup)
                && top.loadables == s.register.loadables + [L]
      ensures !ok ==> log == old(log) && past == old(past) && Now() == s.register && top.owned == s.owned
      ensures !ok ==> KeepsRoom(place, |Get(s.shape.contents, TOP)|)
    {
      WhatIsLoaded(s.register, top.info, nodes);
      ok := recorded;
      if ok {
        Record(Loaded(L), here, s.owned, place);
      } else {
        UndoLoad(L, s, place);
      }
    }

    /** The catch block of load_package(), for a package that is bound but could not be recorded. */
    method UndoLoad(L: Node, ghost s: Snapshot, ghost place: map<Node, Place>)
      requires Whole(top) && 1 < top.next && L in top.loadables && L in top.owned && L !in s.owned && L !in place
      requires top.owned == s.owned[L := top.owned[L]] && Unregistered(Now(), top.info, top.owned[L]) == s.register
      requires LogIsGood(log, past, s.register, s.owned, place, top.info, top.names, serial)
      requires (forall M | M in place :: M in top.place && top.place[M] == place[M]) && StartedAt(s.register)
      requires AllFine(s, top.info, top.names) && Stuck(s.shape.parent, s.refused) <= top.t.StuckNodes()
      requires HasParent(s.shape, ORPHANS, TOP)
      modifies top, top.b, top.t
      ensures Valid() && Now() == s.register && top.owned == s.owned && top.next == old(top.next)
      ensures KeepsRoom(place, |Get(s.shape.contents, TOP)|)
    {
      CancelLoad(top, L);
      assert top.owned == s.owned;
      LogStays(log, past, s.register, s.owned, place, top.info, top.names, serial, top.place);
      NoneHasLeft(s, old(top.t.parent), old(top.t.refused));
    }

    lemma NoneHasLeft(s: Snapshot, parent: map<Node, Node>, refused: seq<Node>)
      requires Whole(top) && AllFine(s, top.info, top.names) && Now() == s.register && HasParent(s.shape, ORPHANS, TOP)
      requires Stuck(s.shape.parent, s.refused) <= Stuck(parent, refused)
      requires StayStuck(parent, refused, top.b.refs, top.t.parent, top.t.refused, top.info)
      ensures |Get(s.shape.contents, TOP)| <= |Get(top.t.contents, TOP)|
    {
      top.SaneGives();
      NoneLeaves(s, parent, refused, SnapshotOf(top), top.info, top.names);
    }

    /** unload_package(). When something goes wrong, what has been done is undone. */
    method UnloadPackage(L: Node, fault: Fault) returns (ok: bool)
      requires Valid() && L in top.loadables
      modifies this`log, this`serial, this`past, top, top.b, top.t
      ensures Valid() && ok == fault.NoFault? && top.owned == old(top.owned) && L in top.owned
      ensures top.next == old(top.next)
      ensures ok ==>
                && log == old(log) + [Op(old(serial), Unloaded(L))] && past == old(past) + [old(Here())]
                && Now() == Unregistered(old(Now()), top.info, top.owned[L])
                && top.loadables == RemoveFirst(old(top.loadables), Same(L))
      ensures ok && old(Here().calm) ==> Here().calm
      ensures ok ==> InRange(Unloaded(L))
      ensures !ok ==> log == old(log) && past == old(past) && Now() == old(Now())
    {
      ok := fault.NoFault?;
      LoadablesAre(top);
      if ok {
        UnloadAndRecord(L);
      } else {
        UnloadInVain(top, L, fault.AtRecord?);
        assert top.attached == Now().attached;
      }
    }

    method UnloadAndRecord(L: Node)
      requires Valid() && L in top.loadables
      modifies this`log, this`serial, this`past, top, top.b, top.t
      ensures Valid() && top.owned == old(top.owned) && L in top.owned && top.next == old(top.next)
      ensures log == old(log) + [Op(old(serial), Unloaded(L))] && past == old(past) + [old(Here())]
      ensures top.loadables == RemoveFirst(old(top.loadables), Same(L))
      ensures Now() == Unregistered(old(Now()), top.info, top.owned[L])
      ensures (old(Here().calm) ==> Here().calm) && InRange(Unloaded(L))
    {
      ghost var here, owned, place := Here(), top.owned, top.place;
      UnloadLoaded(L);
      Record(Unloaded(L), here, owned, place);
    }

    /** The package can be put back: at the positions that are recorded, and then they are in range if
        the unload began in calm. */
    method UnloadLoaded(L: Node)
      requires Whole(top) && 1 < top.next && L in top.loadables
      modifies top, top.b, top.t
      ensures Whole(top) && top.next == old(top.next) && top.owned == old(top.owned) && top.filed == old(top.filed)
      ensures L in top.owned && L in old(top.attached) && L !in top.attached && top.attached <= old(top.attached)
      ensures Undoes(Unloaded(L), old(Now()), Now(), top.owned, top.place, top.info)
      ensures Now() == Unregistered(old(Now()), top.info, top.owned[L])
      ensures top.loadables == RemoveFirst(old(top.loadables), Same(L))
      ensures forall M | M in old(top.place) && M != L :: M in top.place && top.place[M] == old(top.place)[M]
      ensures old(Here().calm) ==> Here().calm && HasRoom(Unloaded(L), Now(), top.place, top.info, top.names)
      ensures InRange(Unloaded(L))
    {
      ReloadFits(top, L);
      Unload(top, L);
      assert top.attached == Now().attached;
      RoomBelowTop(top);
    }

    /** Whether the position of a package that is to be put back is in range. */
    ghost predicate InRange(act: Act)
      reads top, top.t
    {
      act.Unloaded? ==> act.L in top.place && top.place[act.L].position <= |Get(top.t.contents, TOP)|
    }

    /** cancel_last_commit_cancel_op(). What it does is defined if and only if the position of a
        package that is to be put back is in range, which it is if the unload began in calm. */
    method CancelLast() returns (defined: bool)
      requires Valid() && log != []
      modifies this`log, this`past, this`hardware, top, top.b, top.t
      ensures defined <==> old(InRange(log[|log| - 1].act))
      ensures Calmly(old(log), old(past), |old(log)| - 1) ==> defined
      ensures defined ==>
                && Valid() && log == old(log)[..|old(log)| - 1] && past == old(past)[..|old(log)| - 1]
                && Now() == old(past)[|old(log)| - 1].register
                && hardware == NameBefore(old(log)[|old(log)| - 1..], old(hardware))
    {
      ghost var now, owned, place := Now(), top.owned, top.place;
      FitsBack();
      defined := CancelAct(log[|log| - 1].act);
      if defined {
        Forget(now, owned, place);
      }
    }

    /** A package whose unload began in calm fits back in. */
    lemma FitsBack()
      requires Valid() && log != []
      ensures Calmly(log, past, |log| - 1) ==> InRange(log[|log| - 1].act)
    {
      RoomBelowTop(top);
      var i := |log| - 1;
      assert i !in BadOps(log, past, Now(), top.owned, top.place, top.info, top.names, serial);
    }

    /** Apart from the package that an operation is about, packages keep what is recorded of them,
        and those that were out stay out. */
    ghost predicate Spared(act: Act, owned: map<Node, seq<Node>>, place: map<Node, Place>, attached: set<Node>)
      reads top
    {
      && (forall L | L in owned && !(act.Loaded? && act.L == L) :: L in top.owned && top.owned[L] == owned[L])
      && (forall L | L in place && !About(act, L) :: L in top.place && top.place[L] == place[L])
      && (forall L | L in owned && L !in attached && !About(act, L) :: L !in top.attached)
    }

    method CancelAct(act: Act) returns (defined: bool)
      requires Valid() && log != [] && act == log[|log| - 1].act
      modifies this`hardware, top, top.b, top.t
      ensures defined <==> old(InRange(act))
      ensures defined ==>
                && Whole(top) && 1 < top.next == old(top.next) && Now() == old(past)[|log| - 1].register
                && hardware == (if act.Renamed? then act.name else old(hardware))
                && Spared(act, old(top.owned), old(top.place), old(top.attached)) && top.filed == old(top.filed)
    {
      defined := true;
      assert |log| - 1 !in BadOps(log, past, Now(), top.owned, top.place, top.info, top.names, serial);
      assert Undoes(act, past[|log| - 1].register, Now(), top.owned, top.place, top.info);
      match act
      case Loaded(L) => CancelLoaded(L);
      case Unloaded(L) => defined := CancelUnloaded(L);
      case Renamed(name) => hardware := name;
    }

    method CancelLoaded(L: Node)
      requires Whole(top) && 1 < top.next && L in top.loadables && L in top.owned
      modifies top, top.b, top.t
      ensures Whole(top) && top.next == old(top.next)
      ensures RegisterOf(top) == Unregistered(old(RegisterOf(top)), top.info, old(top.owned)[L])
      ensures Spared(Loaded(L), old(top.owned), old(top.place), old(top.attached)) && top.filed == old(top.filed)
    {
      CancelLoad(top, L);
      assert top.attached == RegisterOf(top).attached;
    }

    method CancelUnloaded(L: Node) returns (defined: bool)
      requires Whole(top) && 1 < top.next && L in top.owned && L !in top.attached
      requires Free(top.lookup, top.info, top.owned[L]) && L in top.place && top.place[L].index <= |top.loadables|
      modifies top, top.b, top.t
      ensures defined <==> old(InRange(Unloaded(L)))
      ensures defined ==>
                && Whole(top) && top.next == old(top.next)
                && RegisterOf(top)
                     == Reregistered(old(RegisterOf(top)), top.info, old(top.owned)[L], old(top.place)[L].index)
                && Spared(Unloaded(L), old(top.owned), old(top.place), old(top.attached)) && top.filed == old(top.filed)
    {
      OnlyItself(top, L);
      defined := Reload(top, L);
      assert top.attached == RegisterOf(top).attached;
    }

    method Forget(ghost now: Register, ghost owned: map<Node, seq<Node>>, ghost place: map<Node, Place>)
      requires Whole(top) && 1 < top.next && log != []
      requires LogIsGood(log, past, now, owned, place, top.info, top.names, serial) && StartedAt(now)
      requires Spared(log[|log| - 1].act, owned, place, now.attached) && Now() == past[|log| - 1].register
      modifies this`log, this`past
      ensures Valid() && log == old(log)[..|old(log)| - 1] && past == old(past)[..|old(log)| - 1]
    {
      LogShrinks(log, past, now, owned, place, top.info, top.names, serial, top.owned, top.place);
      log := log[..|log| - 1];
      past := past[..|past| - 1];
    }

    /** The do/while loop that cancels operations up to and including a given one. What it does is
        defined if all unloads among them began in calm. */
    method CancelBack(mark: nat, ghost m: nat) returns (defined: bool)
      requires Valid() && m < |log| && log[m].serial == mark
      modifies this`log, this`past, this`hardware, top, top.b, top.t
      ensures Calmly(old(log), old(past), m) ==> defined
      ensures defined ==>
                && Valid() && log == old(log)[..m] && past == old(past)[..m] && Now() == old(past)[m].register
                && hardware == NameBefore(old(log)[m..], old(hardware))
    {
      ghost var log0, past0, hardware0 := log, past, hardware;
      var done := false;
      while !done
        invariant Valid() && m <= |log| && IsCutOff(log0, past0)
        invariant if done then |log| == m && Now() == past0[m].register else m < |log|
        invariant NameBefore(log0[m..|log|], hardware) == NameBefore(log0[m..], hardware0)
        decreases |log|
      {
        var n := |log| - 1;
        var op := log[n];
        SerialsDiffer(log, past, Now(), top.owned, top.place, top.info, top.names, serial, m, n);
        NameBeforeSlice(log0, m, n, hardware);
        defined := CancelNext(log0, past0);
        if !defined {
          return;
        }
        done := op.serial == mark;
      }
      assert log0[m..m] == [];
      defined := true;
    }

    /** Of the log only the first part is left. */
    ghost predicate IsCutOff(log0: seq<Op>, past0: seq<Moment>)
      reads this
    {
      |log| == |past| <= |log0| == |past0| && log == log0[..|log|] && past == past0[..|past|]
    }

    method CancelNext(ghost log0: seq<Op>, ghost past0: seq<Moment>) returns (defined: bool)
      requires Valid() && log != [] && IsCutOff(log0, past0)
      modifies this`log, this`past, this`hardware, top, top.b, top.t
      ensures Calmly(log0, past0, old(|log|) - 1) ==> defined
      ensures defined ==>
                && Valid() && |log| == old(|log|) - 1 && IsCutOff(log0, past0) && Now() == past0[|log|].register
                && hardware == NameBefore([log0[|log|]], old(hardware))
    {
      assert log[|log| - 1..] == [log[|log| - 1]];
      defined := CancelLast();
    }

    /** The log goes on from an earlier one. */
    ghost predicate Continues(log0: seq<Op>, past0: seq<Moment>)
      reads this
    {
      |log0| <= |log| && |past0| <= |past| && log[..|log0|] == log0 && past[..|past0|] == past0
    }

    lemma ContinuesThrough(log0: seq<Op>, past0: seq<Moment>, log1: seq<Op>, past1: seq<Moment>)
      requires |log0| <= |log1| && |past0| <= |past1| && log1[..|log0|] == log0 && past1[..|past0|] == past0
      requires Continues(log1, past1)
      ensures Continues(log0, past0)
    {
      assert log[..|log0|] == log[..|log1|][..|log0|] && past[..|past0|] == past[..|past1|][..|past0|];
    }

    lemma CalmlyThrough(log0: seq<Op>, log1: seq<Op>, past1: seq<Moment>)
      requires |log0| <= |log1| && Calmly(log1, past1, |log0|) && Continues(log1, past1) && Calmly(log, past, |log1|)
      ensures Calmly(log, past, |log0|)
    {
      forall i | |log0| <= i < |log| && log[i].act.Unloaded?
        ensures i < |past| && past[i].calm
      {
        if i < |log1| {
          assert log1[i] == log[..|log1|][i] && past1[i] == past[..|past1|][i];
        }
      }
    }

    /** Unload every package that belongs to the hardware, from the back of the loadables. */
    method DropHardware(faults: Node -> Fault) returns (ok: bool)
      requires Valid()
      modifies this`log, this`serial, this`past, top, top.b, top.t
      ensures Valid() && Continues(old(log), old(past)) && top.next == old(top.next) && top.owned == old(top.owned)
      ensures ok <==> Faultless(Flagged(old(top.loadables), forHardware), faults)
      ensures ok ==>
                && top.loadables == Unflagged(old(top.loadables), forHardware)
                && top.lookup == TableWithout(old(top.lookup), top.owned, Flagged(old(top.loadables), forHardware))
      ensures old(Here().calm) ==> Calmly(log, past, |old(log)|)
    {
      ok := true;
      ghost var all, table := top.loadables, top.lookup;
      var i := |top.loadables|;
      assert all[i..] == [] && all[..i] == all;
      while i > 0
        invariant Valid() && Continues(old(log), old(past)) && ok && top.next == old(top.next)
        invariant 0 <= i <= |all| && IsDropped(all, table, i) && top.owned == old(top.owned)
        invariant Faultless(Flagged(all[i..], forHardware), faults)
        invariant old(Here().calm) ==> Here().calm && Calmly(log, past, |old(log)|)
      {
        i := i - 1;
        ghost var log1, past1, loadables, lookup := log, past, top.loadables, top.lookup;
        assert loadables[i] == all[i];
        ok := DropAt(i, faults);
        ContinuesThrough(old(log), old(past), log1, past1);
        if old(Here().calm) {
          CalmlyThrough(old(log), log1, past1);
        }
        FlaggedStep(all, i);
        if !ok { return; }
        DropStep(all, table, i, loadables, lookup);
      }
      assert all[0..] == all;
    }

    /** Of these loadables those from the i-th on have been dropped if they are flagged. */
    ghost predicate IsDropped(all: seq<Node>, table: Table, i: nat)
      requires i <= |all|
      reads this, top
    {
      && top.loadables == all[..i] + Unflagged(all[i..], forHardware)
      && top.lookup == TableWithout(table, top.owned, Flagged(all[i..], forHardware))
    }

    lemma FlaggedStep(all: seq<Node>, i: nat)
      requires i < |all|
      ensures Flagged(all[i..], forHardware)
           == Flagged(all[i + 1..], forHardware) + (if all[i] in forHardware then {all[i]} else {})
      ensures Flagged(all[i..], forHardware) <= Flagged(all, forHardware)
    {
      assert all[i..] == [all[i]] + all[i + 1..];
    }

    lemma DropStep(all: seq<Node>, table: Table, i: nat, loadables: seq<Node>, lookup: Table)
      requires i < |all| && loadables == all[..i + 1] + Unflagged(all[i + 1..], forHardware)
      requires lookup == TableWithout(table, top.owned, Flagged(all[i + 1..], forHardware))
      requires top.loadables == if all[i] in forHardware then Without(loadables, i) else loadables
      requires top.lookup == TableWithout(lookup, top.owned, if all[i] in forHardware then {all[i]} else {})
      ensures IsDropped(all, table, i)
    {
      FlaggedStep(all, i);
      TableThrough(table, top.owned, Flagged(all[i + 1..], forHardware),
                   if all[i] in forHardware then {all[i]} else {});
      assert all[i..][1..] == all[i + 1..] && all[..i + 1] == all[..i] + [all[i]];
    }

    method DropAt(i: nat, faults: Node -> Fault) returns (ok: bool)
      requires Valid() && i < |top.loadables|
      modifies this`log, this`serial, this`past, top, top.b, top.t
      ensures Valid() && Continues(old(log), old(past)) && top.next == old(top.next) && top.owned == old(top.owned)
      ensures var (L, flagged) := (old(top.loadables)[i], old(top.loadables)[i] in forHardware);
              && (ok <==> flagged ==> faults(L).NoFault?)
              && (ok ==> top.loadables == if flagged then Without(old(top.loadables), i) else old(top.loadables))
              && (ok ==> top.lookup == TableWithout(old(top.lookup), top.owned, if flagged then {L} else {}))
      ensures old(Here().calm) ==> Calmly(log, past, |old(log)|) && (ok ==> Here().calm)
    {
      var L := top.loadables[i];
      ok := true;
      LoadablesAre(top);
      if L in forHardware {
        FirstIs(top.loadables, Same(L), i);
        NamesGo(L);
        ok := UnloadPackage(L, faults(L));
        assert top.lookup == Now().lookup;
      } else {
        assert TableWithout(top.lookup, top.owned, {}) == top.lookup;
      }
    }

    /** The names of a package are those that lead to its nodes. */
    lemma NamesGo(L: Node)
      requires Valid() && L in top.loadables
      ensures L in top.owned
      ensures RemoveNames(top.lookup, top.info, top.owned[L]) == TableWithout(top.lookup, top.owned, {L})
    {
      PackageFacts(SnapshotOf(top), top.info, top.names, L);
      top.SaneGives();
      RemovedAre(top.lookup, top.info, top.owned[L]);
    }

    /** Load the packages of a target, leaving out those that are not in the database and those whose
        name is known already. The packages that are new are flagged, and no others. */
    method LoadTarget(sources: seq<Source>) returns (ok: bool)
      requires Valid() && forall s | s in sources :: Proper(s, top.info, top.names)
      modifies this`log, this`serial, this`past, this`forHardware, top, top.b, top.t
      ensures Valid() && Continues(old(log), old(past)) && Calmly(log, past, |old(log)|)
      ensures ok <==> LoadsAll(sources, top.info, old(top.lookup), old(top.next))
      ensures ok ==> forall s | s in sources && s.known :: s.name in top.lookup
      ensures HasLoaded(old(top.loadables), old(forHardware), old(top.next), top.loadables, forHardware, top.next)
    {
      ok := true;
      var i := 0;
      while i < |sources|
        invariant i <= |sources| && Valid() && Continues(old(log), old(past)) && ok && top.next >= old(top.next)
        invariant LoadsAll(sources, top.info, old(top.lookup), old(top.next))
             <==> LoadsAll(sources[i..], top.info, top.lookup, top.next)
        invariant forall j | 0 <= j < i && sources[j].known :: sources[j].name in top.lookup
        invariant HasLoaded(old(top.loadables), old(forHardware), old(top.next), top.loadables, forHardware, top.next)
        invariant Calmly(log, past, |old(log)|)
      {
        ghost var log1, past1 := log, past;
        ghost var loadables, flags, next := top.loadables, forHardware, top.next;
        ok := LoadNext(sources, i);
        ContinuesThrough(old(log), old(past), log1, past1);
        CalmlyThrough(old(log), log1, past1);
        LoadedThrough(old(top.loadables), old(forHardware), old(top.next), loadables, flags, next,
                      top.loadables, forHardware, top.next);
        if !ok { return; }
        i := i + 1;
      }
    }

    method LoadNext(sources: seq<Source>, i: nat) returns (ok: bool)
      requires Valid() && i < |sources| && Proper(sources[i], top.info, top.names)
      modifies this`log, this`serial, this`past, this`forHardware, top, top.b, top.t
      ensures Valid() && Continues(old(log), old(past)) && Calmly(log, past, |old(log)|)
      ensures LoadsAll(sources[i..], top.info, old(top.lookup), old(top.next))
         <==> ok && LoadsAll(sources[i + 1..], top.info, top.lookup, top.next)
      ensures ok && sources[i].known ==> sources[i].name in top.lookup
      ensures forall name | name in old(top.lookup) :: name in top.lookup
      ensures HasLoaded(old(top.loadables), old(forHardware), old(top.next), top.loadables, forHardware, top.next)
    {
      assert sources[i..][0] == sources[i] && sources[i..][1..] == sources[i + 1..];
      ok := LoadUnlessThere(sources[i]);
    }

    method LoadUnlessThere(s: Source) returns (ok: bool)
      requires Valid() && Proper(s, top.info, top.names)
      modifies this`log, this`serial, this`past, this`forHardware, top, top.b, top.t
      ensures Valid() && Continues(old(log), old(past)) && Calmly(log, past, |old(log)|)
      ensures ok && s.known ==> s.name in top.lookup
      ensures forall name | name in old(top.lookup) :: name in top.lookup
      ensures HasLoaded(old(top.loadables), old(forHardware), old(top.next), top.loadables, forHardware, top.next)
      ensures ok <==> (s.known && s.name !in old(top.lookup) ==> Loads(s, top.info, old(top.lookup), old(top.next)))
      ensures ok ==>
                if s.known && s.name !in old(top.lookup) then
                  var nodes := Upcoming(old(top.next), |s.script(old(top.next)).value.parents|);
                  top.lookup == AddNames(old(top.lookup), top.info, nodes) && top.next == old(top.next) + |nodes|
                else top.lookup == old(top.lookup) && top.next == old(top.next)
    {
      ok := true;
      if s.known && s.name !in top.lookup {
        var L := top.next;
        ok := LoadPackage(s);
        assert top.loadables == Now().loadables && top.lookup == Now().lookup;
        if ok {
          forHardware := forHardware + {L};
        }
      }
    }

    /** The part of set_hardware() between try and catch, after the renaming has been logged. */
    method ReplaceHardware(target: string, sources: seq<Source>, faults: Node -> Fault) returns (ok: bool)
      requires Valid() && forall s | s in sources :: Proper(s, top.info, top.names)
      modifies this`log, this`serial, this`past, this`forHardware, this`hardware, top, top.b, top.t
      ensures Valid() && Continues(old(log), old(past)) && (ok ==> hardware == target)
      ensures ok <==>
                && Faultless(Flagged(old(top.loadables), old(forHardware)), faults)
                && (target != "" ==>
                      LoadsAll(sources, top.info,
                               TableWithout(old(top.lookup), old(top.owned),
                                            Flagged(old(top.loadables), old(forHardware))),
                               old(top.next)))
      ensures ok ==> HasTarget(target, sources, old(top.loadables), old(forHardware))
      ensures KeepsFlags(old(forHardware), old(top.next))
      ensures old(Here().calm) ==> Calmly(log, past, |old(log)|)
    {
      LoadablesAre(top);
      ok := DropHardware(faults);
      if !ok { return; }
      hardware := "";
      ghost var log1, past1 := log, past;
      if target != "" {
        ok := LoadTarget(sources);
        ContinuesThrough(old(log), old(past), log1, past1);
        if old(Here().calm) {
          CalmlyThrough(old(log), log1, past1);
        }
        if !ok { return; }
      }
      DroppedAndLoaded(old(top.loadables), old(forHardware), old(top.next), top.loadables, forHardware, top.next);
      hardware := target;
    }

    /** Only new packages have been flagged since. */
    ghost predicate KeepsFlags(flags: set<Node>, next: Node)
      reads this, top
    {
      flags <= forHardware && forall L | L in forHardware && L !in flags :: L >= next
    }

    /** The packages of the old hardware are replaced, and every package of the target that the
        database knows is there. */
    ghost predicate HasTarget(target: string, sources: seq<Source>, loadables: seq<Node>, flags: set<Node>)
      reads this, top
    {
      && Replaced(loadables, flags, top.loadables, forHardware)
      && (if target == "" then top.loadables == Unflagged(loadables, flags)
          else forall s | s in sources && s.known :: s.name in top.lookup)
    }

    /** Note the hardware name in the log. */
    method LogName() returns (mark: nat)
      requires Valid()
      modifies this`log, this`serial, this`past
      ensures Valid() && mark == old(serial)
      ensures log == old(log) + [Op(mark, Renamed(hardware))] && past == old(past) + [Here()]
    {
      mark := serial;
      Record(Renamed(hardware), Here(), top.owned, top.place);
    }

    /** set_hardware(): all or nothing. Whatever goes wrong on the way, the register and the hardware
        name are what they were, and so is the log. When all goes well the change is in the log, so
        that the transaction can still cancel it. All this is defined if there is calm to begin with,
        because no unload brings new refusals, and all loads come after the unloads. */
    method SetHardware(target: string, known: bool, sources: seq<Source>, faults: Node -> Fault)
      returns (ok: bool, defined: bool)
      requires Valid() && forall s | s in sources :: Proper(s, top.info, top.names)
      modifies this, top, top.b, top.t
      ensures (old(Here().calm) ==> defined) && (ok ==> defined)
      ensures defined ==> Valid() && (ok ==> known && hardware == target)
      ensures ok <==>
                && known && Faultless(Flagged(old(top.loadables), old(forHardware)), faults)
                && (target != "" ==>
                      LoadsAll(sources, top.info,
                               TableWithout(old(top.lookup), old(top.owned),
                                            Flagged(old(top.loadables), old(forHardware))),
                               old(top.next)))
      ensures ok ==> HasTarget(target, sources, old(top.loadables), old(forHardware))
      ensures ok ==> Continues(old(log) + [Op(old(serial), Renamed(old(hardware)))], old(past) + [old(Here())])
      ensures !ok && defined ==>
                && Now() == old(Now()) && hardware == old(hardware) && log == old(log) && past == old(past)
                && forall L | L in top.loadables :: L in forHardware <==> L in old(forHardware)
    {
      if !known {
        return false, true;
      }
      LoadablesAre(top);
      var mark := LogName();
      ghost var m, log1, past1 := |old(log)|, log, past;
      ok := ReplaceHardware(target, sources, faults);
      defined := ok;
      if !ok {
        assert log[m] == log1[m] && past[m] == past1[m];
        assert log[..m] == log1[..m] == old(log) && past[..m] == past1[..m] == old(past);
        assert log[m..][0] == Op(mark, Renamed(old(hardware)));
        assert forall L | L in old(top.loadables) :: L in forHardware <==> L in old(forHardware);
        defined := CancelBack(mark, m);
        assert defined ==> Now().loadables == old(Now().loadables);
      }
    }

    /** unload_hardware() */
    method UnloadHardware(faults: Node -> Fault) returns (ok: bool, defined: bool)
      requires Valid()
      modifies this, top, top.b, top.t
      ensures (old(Here().calm) ==> defined) && (ok ==> defined) && (defined ==> Valid())
      ensures ok <==> Faultless(Flagged(old(top.loadables), old(forHardware)), faults)
      ensures ok ==> hardware == "" && top.loadables == Unflagged(old(top.loadables), old(forHardware))
      ensures forHardware == old(forHardware)
      ensures !ok && defined ==>
                Now() == old(Now()) && hardware == old(hardware) && log == old(log) && past == old(past)
    {
      var mark := LogName();
      ghost var m, log1, past1 := |old(log)|, log, past;
      hardware := "";
      ok := DropHardware(faults);
      defined := ok;
      if !ok {
        assert log[m] == log1[m] && past[m] == past1[m];
        assert log[..m] == log1[..m] == old(log) && past[..m] == past1[..m] == old(past);
        assert log[m..][0] == Op(mark, Renamed(old(hardware)));
        defined := CancelBack(mark, m);
      }
    }

    /** Setting the hardware and unloading it again leaves exactly those packages that did not belong
        to the hardware before. */
    method SetAndUnloadHardware(target: string, known: bool, sources: seq<Source>, faults: Node -> Fault)
      returns (ok: bool)
      requires Valid() && forall s | s in sources :: Proper(s, top.info, top.names)
      modifies this, top, top.b, top.t
      ensures ok ==> Valid() && hardware == "" && top.loadables == Unflagged(old(top.loadables), old(forHardware))
      ensures known && (forall L :: faults(L).NoFault?)
              && (target != "" ==>
                    LoadsAll(sources, top.info,
                             TableWithout(old(top.lookup), old(top.owned),
                                          Flagged(old(top.loadables), old(forHardware))),
                             old(top.next)))
              ==> ok
    {
      var defined;
      ok, defined := SetHardware(target, known, sources, faults);
      if ok {
        ghost var loadables, flags := top.loadables, forHardware;
        LoadablesAre(top);
        ok, defined := UnloadHardware(faults);
        NewOnesGo(old(top.loadables), old(forHardware), loadables, flags);
      }
    }

    /** change_package_version(): unload the old version and load the new one, or else nothing. The
        old version always fits back in, because a load that fails moves nothing from below the
        toplevel. */
    method ChangeVersion(L: Node, installed: bool, source: Source, fault: Fault) returns (ok: bool)
      requires Valid() && L in top.loadables && Proper(source, top.info, top.names)
      modifies this, top, top.b, top.t
      ensures Valid() && hardware == old(hardware) && forHardware == old(forHardware)
      ensures ok <==> installed && fault.NoFault?
                      && Loads(source, top.info, TableWithout(old(top.lookup), old(top.owned), {L}), old(top.next))
      ensures ok ==>
                && top.loadables == RemoveFirst(old(top.loadables), Same(L)) + [old(top.next)] && L !in top.loadables
                && old(top.next) !in forHardware
                && source.name in top.lookup && top.lookup[source.name] == old(top.next)
      ensures !ok ==> Now() == old(Now()) && log == old(log) && past == old(past)
    {
      if !installed {
        return false;
      }
      LoadablesAre(top);
      NamesGo(L);
      RemoveFirstLeaves(top.loadables, L);
      ok := UnloadPackage(L, fault);
      if ok {
        ok := Replace(L, source);
      }
    }

    /** The part of it after the old version has been unloaded. */
    method Replace(L: Node, source: Source) returns (ok: bool)
      requires Valid() && log != [] && log[|log| - 1].act == Unloaded(L) && InRange(Unloaded(L))
      requires Proper(source, top.info, top.names)
      modifies this, top, top.b, top.t
      ensures Valid() && hardware == old(hardware) && forHardware == old(forHardware)
      ensures ok <==> Loads(source, top.info, old(top.lookup), old(top.next))
      ensures ok ==>
                && top.loadables == old(top.loadables) + [old(top.next)]
                && source.name in top.lookup && top.lookup[source.name] == old(top.next)
      ensures !ok ==>
                && Now() == old(past)[|old(log)| - 1].register
                && log == old(log)[..|old(log)| - 1] && past == old(past)[..|old(log)| - 1]
    {
      assert log[|log| - 1..] == [log[|log| - 1]];
      ok := LoadPackage(source);
      if !ok {
        var defined := CancelLast();
      }
    }

    /** Cancelling a transaction cancels all its operations and discards its conflicts. What the
        configuration had of unresolved conflicts when the transaction started stands again, and
        that is again what its open references need. All this is defined if every unload of the
        transaction began in calm. */
    method CancelAll() returns (defined: bool)
      requires Valid()
      modifies this`log, this`past, this`hardware, top, top.b, top.t
      ensures Calmly(old(log), old(past), 0) ==> defined
      ensures defined ==>
                && Valid() && log == [] && Now() == start.register
                && hardware == NameBefore(old(log), old(hardware))
                && Clean(top.b.View()) && top.b.standing == start.links.standing
    {
      defined := true;
      if log != [] {
        assert log[0..] == log;
        defined := CancelBack(log[0].serial, 0);
      }
      if defined {
        DiscardConflicts(top, start);
      }
    }

    /** Committing a transaction deletes the packages that it unloaded and makes its conflicts those
        of the configuration. */
    method Commit()
      requires Valid()
      modifies this`log, this`past, this`start, top, top.b, top.t
      ensures Valid() && log == [] && Now() == old(Now())
      ensures top.owned == old(top.owned) - UnloadedIn(old(log))
    {
      UnloadedAreOut(log, past, Now(), top.owned, top.place, top.info, top.names, serial);
      CommitAll();
      AdoptConflicts(top);
      past := [];
      start := SnapshotOf(top);
    }

    method CommitAll()
      requires Whole(top) && 1 < top.next && Outstanding(log, top.owned, top.attached)
      modifies this`log, top, top.b, top.t
      ensures Whole(top) && 1 < top.next && log == [] && Now() == old(Now())
      ensures top.next == old(top.next)
      ensures top.owned == old(top.owned) - UnloadedIn(old(log))
    {
      ghost var done: set<Node> := {};
      while log != []
        invariant Whole(top) && 1 < top.next == old(top.next) && Now() == old(Now())
        invariant done + UnloadedIn(log) == UnloadedIn(old(log)) && top.owned == old(top.owned) - done
        invariant Outstanding(log, top.owned, top.attached)
        decreases |log|
      {
        UnloadedFirst(log);
        done := done + UnloadedIn([log[0]]);
        CommitNext();
      }
    }

    /** Commit the first operation that is left. */
    method CommitNext()
      requires Whole(top) && 1 < top.next && log != [] && Outstanding(log, top.owned, top.attached)
      modifies this`log, top, top.b, top.t
      ensures Whole(top) && 1 < top.next == old(top.next) && log == old(log)[1..] && Now() == old(Now())
      ensures top.owned == old(top.owned) - UnloadedIn([old(log)[0]])
      ensures Outstanding(log, top.owned, top.attached)
    {
      ghost var ops, owned, attached := log, top.owned, Now().attached;
      if log[0].act.Unloaded? {
        DeletePackage(top, log[0].act.L);
      }
      log := log[1..];
      UnloadedFirst(ops);
      StillOutstanding(ops, owned, top.owned, attached);
    }
  }

  /** When the table of names is what it was, so is every binding: a property that is loaded before
      and after has the same references bound to the same nodes, and the same live conflicts. */
  twostate lemma SameTableSameBindings(top: Toplevel, k: Key)
    requires old(Whole(top)) && Whole(top) && top.lookup == old(top.lookup)
    requires k in old(top.active) && k in top.active
    ensures k in top.b.refs && k in old(top.b.refs) && top.b.refs[k] == old(top.b.refs)[k]
    ensures forall name | name != "" :: Live(top.b.View(), k, name) == Live(old(top.b.View()), k, name)
  {
    FineGives(old(SnapshotOf(top)), top.info, top.names);
    FineGives(SnapshotOf(top), top.info, top.names);
  }
}
