/** The owned compare-and-install of the broker window: hold, verify, link, undo.
    Other actors may move between any two steps; one operation of the guarded body may
    raise, and so may any operation of the handlers. */
module CompareAndInstall {
  import opened FileSystem
  import opened Wrappers

  /** The operation that raises, if one does: the creation of the candidate, that of the held name,
      the closing or unlinking of the held file, or an operation of the guarded body. */
  datatype Fault =
    | NoFault | CreatingCandidate | CreatingHeld | ClearingHeld
    | Writing | Displacing | Inspecting | Linking | Identifying | Syncing
    | DroppingCandidate | DroppingHeld | Restating
  {
    /** The fault strikes before the guarded body, where no handler is. */
    predicate BeforeBody() { CreatingCandidate? || CreatingHeld? || ClearingHeld? }

    /** The fault strikes, if at all, once the file is held and known to be the owned one. */
    predicate AfterHold() { !BeforeBody() && !Writing? && !Displacing? && !Inspecting? }

    /** The fault strikes, if at all, once the link's identity is recorded. */
    predicate AfterPublication() { AfterHold() && !Linking? && !Identifying? }
  }

  /** The operations of the handlers. */
  datatype Undo = UnlinkPublished | ReturnHeld | SweepCandidate | ReturnHeldLast | SweepHeld

  datatype Outcome = Refused | Raised | Installed(identity: Inode)

  /** The names and bytes of one call; `candidate` and `held` are its temporary names. */
  datatype Call = Call(path: Name, candidate: Name, held: Name, before: string, after: string) {
    function Private(): (Name, Name) { (candidate, held) }

    predicate Distinct() {
      path != candidate && path != held && candidate != held
    }
  }

  /** How far a call has come: its candidate, the file that it was to replace, what it moved from the
      path to the held name, and whether that is the file to replace with the reviewed bytes. */
  datatype Progress = Progress(mine: Inode, identity: Inode, displaced: Option<Inode>, owned: bool) {
    /** What the call may take the last name of. */
    function Own(): set<Inode> {
      {mine} + if owned then {identity} else {}
    }
  }

  /** What was done between two moments. */
  ghost function Since(log: seq<Event>, log': seq<Event>): seq<Event>
    requires log <= log'
  {
    log'[|log|..]
  }

  /** Exactly this file, if any, was moved from the path to the held name. */
  ghost predicate Displaces(log: seq<Event>, log': seq<Event>, c: Call, displaced: Option<Inode>) {
    log <= log' && forall i: Inode :: displaced == Some(i) <==> Moved(c.path, c.held, i) in Since(log, log')
  }

  lemma SinceJoin(log0: seq<Event>, log1: seq<Event>, log2: seq<Event>)
    requires log0 <= log1 <= log2
    ensures log0 <= log2 && Since(log0, log2) == Since(log0, log1) + Since(log1, log2)
  {
  }

  /** One more event that displaces nothing. */
  lemma Logged(log0: seq<Event>, log: seq<Event>, e: Event, c: Call, displaced: Option<Inode>)
    requires Displaces(log0, log, c, displaced) && forall i :: e != Moved(c.path, c.held, i)
    ensures Displaces(log0, log + [e], c, displaced)
    ensures Since(log0, log + [e]) == Since(log0, log) + [e]
  {
    assert (log + [e])[|log0|..] == log[|log0|..] + [e];
  }

  /** Displacing in one of two stretches is displacing in both together. */
  lemma DisplacesJoin(log0: seq<Event>, log1: seq<Event>, log2: seq<Event>, c: Call,
      one: Option<Inode>, two: Option<Inode>)
    requires Displaces(log0, log1, c, one) && Displaces(log1, log2, c, two)
    requires one.None? || two.None?
    ensures Displaces(log0, log2, c, if one.Some? then one else two)
  {
    SinceJoin(log0, log1, log2);
  }

  /** The displaced file is the one to replace, it has the reviewed bytes, and nothing kept the
      program from seeing so. */
  ghost predicate IsOwned(displaced: Option<Inode>, identity: Inode, nodes: seq<Node>, c: Call, fault: Fault) {
    && fault != Inspecting
    && displaced == Some(identity)
    && identity < |nodes| && nodes[identity] == Regular(c.before)
  }

  lemma OwnedStays(displaced: Option<Inode>, identity: Inode, nodes: seq<Node>, nodes': seq<Node>,
      c: Call, fault: Fault)
    requires identity < |nodes| && nodes <= nodes'
    ensures IsOwned(displaced, identity, nodes', c, fault) <==> IsOwned(displaced, identity, nodes, c, fault)
  {
  }

  /** A displaced file is at the held name, or was moved back to the path; and an owned one may have
      been discarded. */
  ghost predicate Kept(names: map<Name, Inode>, log: seq<Event>, log': seq<Event>, c: Call, i: Inode, owned: bool)
    requires log <= log'
  {
    || (c.held in names && names[c.held] == i)
    || Moved(c.held, c.path, i) in Since(log, log')
    || (owned && Removed(c.held, i) in Since(log, log'))
  }

  /** The accounting of one call.  The private names hold what the call put there, only the
      displaced inode with the reviewed bytes counts as owned, and nothing but that one and
      the candidate lost its last name to us. */
  ghost predicate Accounted(d: Directory, c: Call, p: Progress, dropped: set<Inode>)
    requires d.Valid()
    reads d
  {
    && p.mine < |d.nodes| && d.nodes[p.mine].Regular?
    && d.dropped <= dropped + p.Own()
    && (c.candidate in d.names ==> d.names[c.candidate] == p.mine)
    && (c.held in d.names ==> p.displaced == Some(d.names[c.held]))
    && (p.owned ==>
      p.displaced == Some(p.identity) && p.identity < |d.nodes| && d.nodes[p.identity] == Regular(c.before))
  }

  /** No file but the candidate was written. */
  ghost predicate WroteOnly(nodes: seq<Node>, nodes': seq<Node>, mine: Inode) {
    |nodes| <= |nodes'| && forall i | 0 <= i < |nodes| && i != mine :: nodes'[i] == nodes[i]
  }

  /** What was kept up to some moment and is kept from then on is kept altogether. */
  lemma KeptJoin(names1: map<Name, Inode>, names2: map<Name, Inode>, log0: seq<Event>, log1: seq<Event>,
      log2: seq<Event>, c: Call, i: Inode, owned: bool)
    requires log0 <= log1 <= log2 && Kept(names1, log0, log1, c, i, owned)
    requires c.held in names1 ==> Kept(names2, log1, log2, c, names1[c.held], owned)
    ensures Kept(names2, log0, log2, c, i, owned)
  {
    SinceJoin(log0, log1, log2);
  }

  /** Give a held file its name back, if that is vacant. */
  method GiveBack(d: Directory, c: Call, fails: bool, quiet: bool)
    requires d.Valid() && c.Distinct()
    modifies d`names, d`nodes, d`log
    ensures d.Valid() && old(d.nodes) <= d.nodes && Displaces(old(d.log), d.log, c, None)
    ensures Keeps(old(d.names), d.names, c.candidate)
    ensures c.held in d.names ==> c.held in old(d.names) && d.names[c.held] == old(d.names[c.held])
    ensures c.held in old(d.names) ==> Kept(d.names, old(d.log), d.log, c, old(d.names[c.held]), false)
    ensures quiet ==> d.names == ReturnedNames(old(d.names), c, fails)
  {
    d.Interfere(quiet, c.Private());
    if c.held in d.names && c.path !in d.names && !fails {
      Logged(d.log, d.log, Moved(c.held, c.path, d.names[c.held]), c, None);
      d.Move(c.held, c.path);
    }
  }

  /** Write the candidate and move whatever file is now at the path aside. */
  method Displace(d: Directory, c: Call, fault: Fault, quiet: bool)
    returns (moved: bool, ghost p: Progress)
    requires d.Valid() && c.Distinct()
    requires c.candidate in d.names && c.held !in d.names && d.nodes[d.names[c.candidate]].Regular?
    modifies d
    ensures d.Valid() && WroteOnly(old(d.nodes), d.nodes, p.mine)
    ensures p.mine == old(d.names[c.candidate]) && !p.owned && Accounted(d, c, p, old(d.dropped))
    ensures Displaces(old(d.log), d.log, c, p.displaced)
    ensures c.candidate in d.names
    ensures moved == (c.held in d.names) && (!moved ==> p.displaced.None? && d.log == old(d.log))
    ensures moved ==>
      d.nodes[p.mine] == Regular(c.after) && d.log == old(d.log) + [Moved(c.path, c.held, d.names[c.held])]
    ensures quiet && c.path in old(d.names) ==>
      && moved == (!fault.Writing? && !fault.Displacing?)
      && d.names == HeldNames(old(d.names), c, old(d.names[c.path]), fault)
  {
    moved, p := false, Progress(d.names[c.candidate], 0, None, false);
    d.Interfere(quiet, c.Private());
    if fault == Writing { return; }
    d.Write(c.candidate, c.after);
    d.Interfere(quiet, c.Private());
    if fault == Displacing || c.path !in d.names { return; }
    d.Move(c.path, c.held);
    moved, p := true, p.(displaced := Some(d.names[c.held]));
  }

  /** Check that the held file is the owned one; a file that is not goes back if the name is vacant. */
  method Judge(d: Directory, c: Call, identity: Inode, fault: Fault, quiet: bool) returns (owned: bool)
    requires d.Valid() && c.Distinct() && c.held in d.names
    modifies d`names, d`nodes, d`log
    ensures d.Valid() && old(d.nodes) <= d.nodes && Displaces(old(d.log), d.log, c, None)
    ensures Keeps(old(d.names), d.names, c.candidate)
    ensures c.held in d.names ==> d.names[c.held] == old(d.names[c.held])
    ensures Kept(d.names, old(d.log), d.log, c, old(d.names[c.held]), false)
    ensures owned ==> c.held in d.names && d.log == old(d.log)
    ensures owned == (fault != Inspecting && old(d.names[c.held]) == identity && old(d.Holds(c.held, c.before)))
    ensures quiet && (owned || fault == Inspecting) ==> d.names == old(d.names)
  {
    d.Interfere(quiet, c.Private());
    if fault == Inspecting { return false; }
    owned := d.names[c.held] == identity && d.Holds(c.held, c.before);
    if !owned {
      GiveBack(d, c, false, quiet);
    }
  }

  /** Displace the current file and check that it is the owned one; a file that is not goes
      back if the name is still vacant. */
  method HoldOwned(d: Directory, c: Call, identity: Inode, fault: Fault, quiet: bool)
    returns (owned: bool, ghost p: Progress)
    requires d.Valid() && c.Distinct()
    requires c.candidate in d.names && c.held !in d.names && d.nodes[d.names[c.candidate]].Regular?
    requires identity != d.names[c.candidate] && identity < |d.nodes| && !fault.BeforeBody()
    modifies d
    ensures d.Valid() && WroteOnly(old(d.nodes), d.nodes, p.mine)
    ensures p.mine == old(d.names[c.candidate]) && p.identity == identity && Accounted(d, c, p, old(d.dropped))
    ensures Displaces(old(d.log), d.log, c, p.displaced)
    ensures owned == p.owned == IsOwned(p.displaced, identity, d.nodes, c, fault)
    ensures c.candidate in d.names
    ensures owned ==> c.held in d.names && d.nodes[p.mine] == Regular(c.after)
    ensures owned ==> d.log == old(d.log) + [Moved(c.path, c.held, identity)]
    ensures p.displaced.Some? ==> Kept(d.names, old(d.log), d.log, c, p.displaced.value, false)
    ensures quiet && old(d.Holds(c.path, c.before)) && old(d.names[c.path]) == identity ==>
      && owned == fault.AfterHold()
      && d.names == HeldNames(old(d.names), c, identity, fault)
  {
    owned := false;
    var moved;
    moved, p := Displace(d, c, fault, quiet);
    p := p.(identity := identity);
    if !moved { return; }
    ghost var log, held := d.log, d.names[c.held];
    owned := Judge(d, c, identity, fault, quiet);
    DisplacesJoin(old(d.log), log, d.log, c, p.displaced, None);
    SinceJoin(old(d.log), log, d.log);
    if owned {
      p := p.(owned := true);
    }
  }

  /** Publish the candidate by exclusive link, then drop both temporary names.  The identity
      returned is what the final stat of the path reads. */
  method PublishCandidate(d: Directory, c: Call, fault: Fault, quiet: bool, ghost p: Progress)
    returns (raised: bool, published: bool, installed: Inode)
    requires d.Valid() && c.Distinct()
    requires c.candidate in d.names && c.held in d.names && d.names[c.candidate] == p.mine
    requires p.owned && p.identity == d.names[c.held]
    modifies d
    ensures d.Valid() && old(d.nodes) <= d.nodes && old(d.log) <= d.log
    ensures d.dropped <= old(d.dropped) + p.Own()
    ensures c.candidate in d.names ==> d.names[c.candidate] == p.mine
    ensures c.held in d.names ==> d.names[c.held] == old(d.names[c.held])
    ensures c.held !in d.names ==> published && c.candidate !in d.names
    ensures Displaces(old(d.log), d.log, c, None) && Kept(d.names, old(d.log), d.log, c, old(d.names[c.held]), true)
    ensures !raised ==> c.held !in d.names
    ensures !raised ==> d.log == old(d.log) + Installation(c, old(d.names[c.held]), p.mine)[1..]
    ensures quiet && c.path !in old(d.names) ==>
      && (fault.AfterHold() ==> raised == !fault.NoFault? && published == fault.AfterPublication())
      && (!raised ==> installed == p.mine)
      && d.names == PublishedNames(old(d.names), c, p.mine, fault)
  {
    raised, published, installed := true, false, 0;
    d.Interfere(quiet, c.Private());
    if fault == Linking || c.path in d.names { return; }
    Logged(d.log, d.log, Linked(c.path, p.mine), c, None);
    d.Link(c.candidate, c.path);
    if fault == Identifying { return; }
    published := true;
    ghost var log, linked := d.log, d.names;
    raised, installed := DropTemporaries(d, c, fault, quiet, p);
    DisplacesJoin(old(d.log), log, d.log, c, None, None);
    assert Kept(linked, old(d.log), log, c, p.identity, true);
    KeptJoin(linked, d.names, old(d.log), log, d.log, c, p.identity, true);
    assert !raised ==> d.log == old(d.log) + Installation(c, p.identity, p.mine)[1..] by {
      assert Installation(c, p.identity, p.mine)[1..] ==
        [Linked(c.path, p.mine)] + [Removed(c.candidate, p.mine), Removed(c.held, p.identity)];
    }
  }

  /** Unlink one of the two temporary names. */
  method DropPrivate(d: Directory, c: Call, name: Name, other: Name, quiet: bool)
    requires d.Valid() && c.Distinct() && {name, other} == {c.candidate, c.held} && name in d.names
    modifies d
    ensures d.Valid() && old(d.nodes) <= d.nodes
    ensures d.log == old(d.log) + [Removed(name, old(d.names[name]))]
    ensures d.dropped <= old(d.dropped) + {old(d.names[name])}
    ensures name !in d.names && Keeps(old(d.names), d.names, other)
    ensures quiet ==> d.names == old(d.names) - {name}
  {
    assert name in {c.candidate, c.held} && other in {c.candidate, c.held};
    d.Interfere(quiet, c.Private());
    d.Remove(name);
  }

  /** Sync, and unlink the candidate and the held file. */
  method DropBoth(d: Directory, c: Call, fault: Fault, quiet: bool) returns (done: bool)
    requires d.Valid() && c.Distinct()
    requires c.candidate in d.names && c.held in d.names
    modifies d
    ensures d.Valid() && old(d.nodes) <= d.nodes && old(d.log) <= d.log
    ensures d.dropped <= old(d.dropped) + {old(d.names[c.candidate]), old(d.names[c.held])}
    ensures c.candidate in d.names ==> d.names[c.candidate] == old(d.names[c.candidate])
    ensures c.held in d.names ==> d.names[c.held] == old(d.names[c.held])
    ensures done == (c.held !in d.names) && (done ==> c.candidate !in d.names)
    ensures done == !(fault.Syncing? || fault.DroppingCandidate? || fault.DroppingHeld?)
    ensures Displaces(old(d.log), d.log, c, None)
    ensures done ==>
      d.log == old(d.log) + [Removed(c.candidate, old(d.names[c.candidate])), Removed(c.held, old(d.names[c.held]))]
    ensures quiet ==> d.names == DroppedNames(old(d.names), c, fault)
  {
    done := false;
    if fault == Syncing || fault == DroppingCandidate {
      d.Interfere(quiet, c.Private());
      return;
    }
    DropPrivate(d, c, c.candidate, c.held, quiet);
    if fault == DroppingHeld {
      d.Interfere(quiet, c.Private());
      return;
    }
    DropPrivate(d, c, c.held, c.candidate, quiet);
    done := true;
  }

  /** The tail of the guarded body: drop both temporary names and stat the path. */
  method DropTemporaries(d: Directory, c: Call, fault: Fault, quiet: bool, ghost p: Progress)
    returns (raised: bool, installed: Inode)
    requires d.Valid() && c.Distinct()
    requires c.candidate in d.names && c.held in d.names && d.names[c.candidate] == p.mine
    requires p.owned && p.identity == d.names[c.held]
    modifies d
    ensures d.Valid() && old(d.nodes) <= d.nodes && old(d.log) <= d.log
    ensures d.dropped <= old(d.dropped) + p.Own()
    ensures c.candidate in d.names ==> d.names[c.candidate] == p.mine
    ensures c.held in d.names ==> d.names[c.held] == old(d.names[c.held])
    ensures c.held !in d.names ==> c.candidate !in d.names
    ensures Displaces(old(d.log), d.log, c, None) && Kept(d.names, old(d.log), d.log, c, old(d.names[c.held]), true)
    ensures !raised ==> c.held !in d.names
    ensures !raised ==> d.log == old(d.log) + [Removed(c.candidate, p.mine), Removed(c.held, old(d.names[c.held]))]
    ensures quiet && c.path in old(d.names) ==>
      && (fault.AfterPublication() ==> raised == !fault.NoFault?)
      && (!raised ==> installed == old(d.names[c.path]))
      && d.names == DroppedNames(old(d.names), c, fault)
  {
    raised, installed := true, 0;
    var done := DropBoth(d, c, fault, quiet);
    if !done { return; }
    d.Interfere(quiet, c.Private());
    if fault == Restating || c.path !in d.names { return; }
    raised, installed := false, d.names[c.path];
  }

  ghost function HeldNames(names: map<Name, Inode>, c: Call, identity: Inode, fault: Fault): map<Name, Inode> {
    match fault
    case Writing | Displacing => names
    case _ => names[c.held := identity] - {c.path}
  }

  ghost function DroppedNames(names: map<Name, Inode>, c: Call, fault: Fault): map<Name, Inode> {
    if fault.Syncing? || fault.DroppingCandidate? then names
    else if fault.DroppingHeld? then names - {c.candidate}
    else names - {c.candidate} - {c.held}
  }

  ghost function PublishedNames(names: map<Name, Inode>, c: Call, mine: Inode, fault: Fault): map<Name, Inode> {
    if fault.Linking? then names
    else if fault.Identifying? then names[c.path := mine]
    else DroppedNames(names[c.path := mine], c, fault)
  }

  /** The `except` clause: withdraw our own publication, give a held file its name back. */
  method Recover(d: Directory, c: Call, published: bool, mine: Inode, undo: set<Undo>, quiet: bool)
    requires d.Valid() && c.Distinct() && mine < |d.nodes| && d.nodes[mine].Regular?
    requires c.candidate in d.names ==> d.names[c.candidate] == mine
    modifies d
    ensures d.Valid() && old(d.nodes) <= d.nodes && Displaces(old(d.log), d.log, c, None)
    ensures d.dropped <= old(d.dropped) + {mine}
    ensures c.candidate in d.names <==> c.candidate in old(d.names)
    ensures c.candidate in d.names ==> d.names[c.candidate] == mine
    ensures c.held in d.names ==> c.held in old(d.names) && d.names[c.held] == old(d.names[c.held])
    ensures c.held in old(d.names) ==> Kept(d.names, old(d.log), d.log, c, old(d.names[c.held]), false)
    ensures quiet ==> d.names == RecoveredNames(old(d.names), c, published, mine, undo)
  {
    d.Interfere(quiet, c.Private());
    if published && c.path in d.names && d.nodes[d.names[c.path]].Regular? && d.names[c.path] == mine {
      if UnlinkPublished in undo { return; }
      Logged(old(d.log), d.log, Removed(c.path, mine), c, None);
      d.Remove(c.path);
    }
    ghost var log := d.log;
    GiveBack(d, c, ReturnHeld in undo, quiet);
    DisplacesJoin(old(d.log), log, d.log, c, None, None);
    SinceJoin(old(d.log), log, d.log);
  }

  /** What the `except` clause leaves, undisturbed, when these operations of the handlers fail. */
  ghost function RecoveredNames(names: map<Name, Inode>, c: Call, published: bool, mine: Inode,
      undo: set<Undo>): map<Name, Inode>
  {
    var ours := published && c.path in names && names[c.path] == mine;
    if ours && UnlinkPublished in undo then names
    else ReturnedNames(if ours then names - {c.path} else names, c, ReturnHeld in undo)
  }

  ghost function ReturnedNames(names: map<Name, Inode>, c: Call, fails: bool): map<Name, Inode> {
    if c.held in names && c.path !in names && !fails then names[c.path := names[c.held]] - {c.held} else names
  }

  /** Return a held file or, if it is the owned one and its name is taken, discard it. */
  method SettleHeld(d: Directory, c: Call, owned: bool, undo: set<Undo>, quiet: bool, ghost p: Progress)
    requires d.Valid() && c.Distinct()
    requires owned == p.owned && (owned && c.held in d.names ==> d.names[c.held] == p.identity)
    modifies d
    ensures d.Valid() && old(d.nodes) <= d.nodes && Displaces(old(d.log), d.log, c, None)
    ensures d.dropped <= old(d.dropped) + p.Own()
    ensures c.held in old(d.names) ==> Kept(d.names, old(d.log), d.log, c, old(d.names[c.held]), owned)
    ensures c.held !in old(d.names) ==> d.log == old(d.log)
    ensures quiet ==> d.names == SettledNames(old(d.names), c, owned, undo)
  {
    d.Interfere(quiet, c.Private());
    if c.held in d.names && c.path !in d.names {
      if ReturnHeldLast !in undo {
        Logged(d.log, d.log, Moved(c.held, c.path, d.names[c.held]), c, None);
        d.Move(c.held, c.path);
      }
    } else if owned && c.held in d.names && SweepHeld !in undo {
      Logged(d.log, d.log, Removed(c.held, d.names[c.held]), c, None);
      d.Remove(c.held);
    }
  }

  ghost function SettledNames(names: map<Name, Inode>, c: Call, owned: bool, undo: set<Undo>): map<Name, Inode> {
    if c.held in names && c.path !in names then ReturnedNames(names, c, ReturnHeldLast in undo)
    else if owned && SweepHeld !in undo then names - {c.held}
    else names
  }

  /** The `finally` clause: sweep the candidate, and then settle what is held. */
  method Sweep(d: Directory, c: Call, owned: bool, undo: set<Undo>, quiet: bool, ghost p: Progress)
    requires d.Valid() && c.Distinct()
    requires c.candidate in d.names ==> d.names[c.candidate] == p.mine
    requires owned == p.owned && (owned && c.held in d.names ==> d.names[c.held] == p.identity)
    modifies d
    ensures d.Valid() && old(d.nodes) <= d.nodes && Displaces(old(d.log), d.log, c, None)
    ensures d.dropped <= old(d.dropped) + p.Own()
    ensures c.held in old(d.names) ==> Kept(d.names, old(d.log), d.log, c, old(d.names[c.held]), owned)
    ensures c.candidate !in old(d.names) && c.held !in old(d.names) ==> d.log == old(d.log)
    ensures quiet ==> d.names == SweptNames(old(d.names), c, owned, undo)
  {
    d.Interfere(quiet, c.Private());
    if c.candidate in d.names {
      if SweepCandidate in undo { return; }
      Logged(d.log, d.log, Removed(c.candidate, p.mine), c, None);
      d.Remove(c.candidate);
    }
    ghost var log := d.log;
    SettleHeld(d, c, owned, undo, quiet, p);
    DisplacesJoin(old(d.log), log, d.log, c, None, None);
    SinceJoin(old(d.log), log, d.log);
  }

  /** What the `finally` clause leaves, undisturbed. */
  ghost function SweptNames(names: map<Name, Inode>, c: Call, owned: bool, undo: set<Undo>): map<Name, Inode> {
    if c.candidate in names && SweepCandidate in undo then names
    else SettledNames(names - {c.candidate}, c, owned, undo)
  }

  /** What both handlers leave, undisturbed, after a body that raised. */
  ghost function UnwoundNames(names: map<Name, Inode>, c: Call, published: bool, owned: bool, mine: Inode,
      undo: set<Undo>): map<Name, Inode>
  {
    SweptNames(RecoveredNames(names, c, published, mine, undo), c, owned, undo)
  }

  /** The handlers together: `except` only when the body raised, `finally` always. */
  method Unwind(d: Directory, c: Call, raised: bool, published: bool, owned: bool, mine: Inode, undo: set<Undo>,
      quiet: bool, ghost p: Progress)
    requires d.Valid() && c.Distinct() && p.mine == mine < |d.nodes| && d.nodes[mine].Regular?
    requires c.candidate in d.names ==> d.names[c.candidate] == mine
    requires owned == p.owned && (owned && c.held in d.names ==> d.names[c.held] == p.identity)
    requires !raised ==> c.candidate !in d.names && c.held !in d.names
    modifies d
    ensures d.Valid() && old(d.nodes) <= d.nodes && Displaces(old(d.log), d.log, c, None)
    ensures d.dropped <= old(d.dropped) + p.Own()
    ensures !raised ==> d.log == old(d.log)
    ensures c.held in old(d.names) ==> Kept(d.names, old(d.log), d.log, c, old(d.names[c.held]), owned)
    ensures quiet ==> d.names == if raised then UnwoundNames(old(d.names), c, published, owned, mine, undo)
                                 else old(d.names)
  {
    if raised {
      Recover(d, c, published, mine, undo, quiet);
    }
    ghost var log := d.log;
    Sweep(d, c, owned, undo, quiet, p);
    SinceJoin(old(d.log), log, d.log);
  }

  /** What a successful call does to the directory's names, in order. */
  ghost function Installation(c: Call, displaced: Inode, mine: Inode): seq<Event> {
    [Moved(c.path, c.held, displaced), Linked(c.path, mine), Removed(c.candidate, mine), Removed(c.held, displaced)]
  }

  /** The names when the guarded body ends, undisturbed, at the given fault. */
  ghost function BodyNames(names: map<Name, Inode>, c: Call, identity: Inode, mine: Inode,
      fault: Fault): map<Name, Inode>
  {
    var held := HeldNames(names, c, identity, fault);
    if fault.AfterHold() then PublishedNames(held, c, mine, fault) else held
  }

  /** What an undisturbed call leaves, whatever fails in its body and in its handlers. */
  ghost function FinalNames(names: map<Name, Inode>, c: Call, mine: Inode, reserved: Inode,
      fault: Fault, undo: set<Undo>): map<Name, Inode>
    requires c.path in names
  {
    match fault
    case NoFault => names[c.path := mine]
    case CreatingCandidate => names
    case CreatingHeld => names[c.candidate := mine]
    case ClearingHeld => names[c.candidate := mine][c.held := reserved]
    case _ =>
      var body := BodyNames(names[c.candidate := mine], c, names[c.path], mine, fault);
      UnwoundNames(body, c, fault.AfterPublication(), fault.AfterHold(), mine, undo)
  }

  /** An undisturbed call ends where its body ends, or its handlers. */
  lemma FinalIsUnwound(names: map<Name, Inode>, c: Call, mine: Inode, reserved: Inode, fault: Fault, undo: set<Undo>)
    requires c.Distinct() && c.candidate in names && names[c.candidate] == mine && c.held !in names
    requires c.path in names && !fault.BeforeBody()
    ensures var body := BodyNames(names, c, names[c.path], mine, fault);
      FinalNames(names - {c.candidate}, c, mine, reserved, fault, undo) ==
      if fault.NoFault? then body
      else UnwoundNames(body, c, fault.AfterPublication(), fault.AfterHold(), mine, undo)
  {
    assert (names - {c.candidate})[c.candidate := mine] == names;
  }

  /** Undoing an undisturbed body step by step, with handlers that work, gives back exactly the
      original names whichever operation failed, save in the two gaps: a failure between the link and
      the recording of its identity leaves the new file in place, and a failing stat after both
      temporary names are gone withdraws the new file with nothing left to put back. */
  lemma UndoIsExact(names: map<Name, Inode>, c: Call, mine: Inode, reserved: Inode, fault: Fault)
    requires c.Distinct() && c.candidate !in names && c.held !in names
    requires c.path in names && names[c.path] != mine
    requires !fault.NoFault? && !fault.BeforeBody()
    ensures FinalNames(names, c, mine, reserved, fault, {}) ==
      match fault
      case Identifying => names[c.path := mine]
      case Restating => names - {c.path}
      case _ => names
  {
  }

  /** A failing call gives the directory back: it fails in no gap, it unlinks what it published, one of
      the two attempts to return a held file works, and the candidate is swept. */
  predicate Restores(fault: Fault, undo: set<Undo>) {
    match fault
    case CreatingCandidate => true
    case NoFault | CreatingHeld | ClearingHeld | Identifying | Restating => false
    case Writing | Displacing => SweepCandidate !in undo
    case Inspecting | Linking => SweepCandidate !in undo && !(ReturnHeld in undo && ReturnHeldLast in undo)
    case Syncing | DroppingCandidate =>
      SweepCandidate !in undo && UnlinkPublished !in undo && !(ReturnHeld in undo && ReturnHeldLast in undo)
    case DroppingHeld => UnlinkPublished !in undo && !(ReturnHeld in undo && ReturnHeldLast in undo)
  }

  /** An undisturbed failing call restores the directory exactly when it fails outside the gaps and its
      handlers do their part. */
  lemma RestoredOutsideTheGaps(names: map<Name, Inode>, c: Call, mine: Inode, reserved: Inode, fault: Fault,
      undo: set<Undo>)
    requires c.Distinct() && c.candidate !in names && c.held !in names
    requires c.path in names && names[c.path] != mine
    ensures FinalNames(names, c, mine, reserved, fault, undo) == names <==> Restores(fault, undo)
  {
    var final := FinalNames(names, c, mine, reserved, fault, undo);
    assert final == names ==> c.candidate !in final && c.held !in final;
    assert final == names ==> c.path in final && final[c.path] == names[c.path];
  }

  ghost function ReservedNames(names: map<Name, Inode>, c: Call, mine: Inode, reserved: Inode,
      fault: Fault): map<Name, Inode>
  {
    match fault
    case CreatingCandidate => names
    case ClearingHeld => names[c.candidate := mine][c.held := reserved]
    case _ => names[c.candidate := mine]
  }

  /** Reserve the held name by creating a file there and unlinking it. */
  method ReserveHeld(d: Directory, c: Call, fault: Fault, quiet: bool) returns (raised: bool, ghost reserved: Inode)
    requires d.Valid() && c.Distinct() && c.held !in d.names
    modifies d
    ensures d.Valid() && old(d.nodes) <= d.nodes && |old(d.nodes)| == reserved
    ensures d.dropped <= old(d.dropped) + {reserved} && Keeps(old(d.names), d.names, c.candidate)
    ensures raised == fault.ClearingHeld?
    ensures raised ==> d.log == old(d.log)
    ensures !raised ==> c.held !in d.names && d.log == old(d.log) + [Removed(c.held, reserved)]
    ensures quiet ==> d.names == if raised then old(d.names)[c.held := reserved] else old(d.names)
  {
    var empty := d.Create(c.held);
    reserved := empty;
    d.Interfere(quiet, c.Private());
    raised := fault == ClearingHeld;
    if !raised {
      d.Remove(c.held);
      assert old(d.names)[c.held := reserved] - {c.held} == old(d.names);
    }
  }

  /** Create the candidate and reserve the held name.  None of this is guarded: a failure leaves
      what was created. */
  method Reserve(d: Directory, c: Call, fault: Fault, quiet: bool)
    returns (raised: bool, mine: Inode, ghost reserved: Inode)
    requires d.Valid() && c.Distinct()
    requires c.candidate !in d.names && c.held !in d.names
    modifies d
    ensures d.Valid() && old(d.nodes) <= d.nodes && |old(d.nodes)| == mine && |old(d.nodes)| <= reserved
    ensures d.dropped <= old(d.dropped) + {reserved}
    ensures raised == fault.BeforeBody()
    ensures raised ==> d.log == old(d.log)
    ensures !raised ==> c.candidate in d.names && d.names[c.candidate] == mine && d.nodes[mine].Regular?
    ensures !raised ==> c.held !in d.names && d.log == old(d.log) + [Removed(c.held, reserved)]
    ensures quiet ==> d.names == ReservedNames(old(d.names), c, mine, reserved, fault)
  {
    raised, mine, reserved := true, |d.nodes|, |d.nodes|;
    if fault == CreatingCandidate { return; }
    mine := d.Create(c.candidate);
    d.Interfere(quiet, c.Private());
    if fault == CreatingHeld { return; }
    raised, reserved := ReserveHeld(d, c, fault, quiet);
  }

  /** The guarded body, once the path was seen to hold inode `identity`. */
  method Body(d: Directory, c: Call, identity: Inode, fault: Fault, quiet: bool)
    returns (raised: bool, published: bool, owned: bool, installed: Inode, ghost p: Progress)
    requires d.Valid() && c.Distinct() && !fault.BeforeBody()
    requires c.candidate in d.names && c.held !in d.names && d.nodes[d.names[c.candidate]].Regular?
    requires identity < |d.nodes| && identity != d.names[c.candidate]
    modifies d
    ensures d.Valid() && WroteOnly(old(d.nodes), d.nodes, p.mine)
    ensures p.mine == old(d.names[c.candidate]) < |d.nodes| && d.nodes[p.mine].Regular? && p.identity == identity
    ensures d.dropped <= old(d.dropped) + p.Own()
    ensures c.candidate in d.names ==> d.names[c.candidate] == p.mine
    ensures c.held in d.names ==> p.displaced == Some(d.names[c.held])
    ensures Displaces(old(d.log), d.log, c, p.displaced)
    ensures owned == p.owned == IsOwned(p.displaced, identity, d.nodes, c, fault)
    ensures p.displaced.Some? ==> Kept(d.names, old(d.log), d.log, c, p.displaced.value, owned)
    ensures !raised ==> c.candidate !in d.names && c.held !in d.names && owned
    ensures !raised ==> d.log == old(d.log) + Installation(c, identity, p.mine)
    ensures owned ==> d.nodes[p.mine] == Regular(c.after)
    ensures quiet && old(d.Holds(c.path, c.before)) && identity == old(d.names[c.path]) ==>
      && raised == !fault.NoFault? && published == fault.AfterPublication() && owned == fault.AfterHold()
      && (!raised ==> installed == p.mine)
      && d.names == BodyNames(old(d.names), c, identity, p.mine, fault)
  {
    owned, p := HoldOwned(d, c, identity, fault, quiet);
    raised, published, installed := true, false, 0;
    if owned {
      ghost var log, left := d.log, d.names;
      raised, published, installed := PublishCandidate(d, c, fault, quiet, p);
      DisplacesJoin(old(d.log), log, d.log, c, p.displaced, None);
      KeptJoin(left, d.names, old(d.log), log, d.log, c, identity, true);
    }
  }

  /** The `try` with its handlers, once the path was seen to hold inode `identity`. */
  method Install(d: Directory, c: Call, identity: Inode, fault: Fault, undo: set<Undo>, quiet: bool,
      ghost reserved: Inode)
    returns (r: Outcome, ghost p: Progress)
    requires d.Valid() && c.Distinct() && !fault.BeforeBody()
    requires c.candidate in d.names && c.held !in d.names && d.nodes[d.names[c.candidate]].Regular?
    requires identity < |d.nodes| && identity != d.names[c.candidate]
    modifies d
    ensures d.Valid() && !r.Refused?
    ensures p.mine == old(d.names[c.candidate]) < |d.nodes| && WroteOnly(old(d.nodes), d.nodes, p.mine)
    ensures d.dropped <= old(d.dropped) + p.Own()
    // The log decides what was displaced, and that whether it is owned.
    ensures p.identity == identity && Displaces(old(d.log), d.log, c, p.displaced)
    ensures p.owned == IsOwned(p.displaced, identity, d.nodes, c, fault)
    ensures p.displaced.Some? ==> Kept(d.names, old(d.log), d.log, c, p.displaced.value, p.owned)
    ensures r.Installed? ==> d.nodes[p.mine] == Regular(c.after) && p.owned
    ensures r.Installed? ==> d.log == old(d.log) + Installation(c, identity, p.mine)
    ensures quiet && old(d.Holds(c.path, c.before)) && identity == old(d.names[c.path]) ==>
      && d.names == FinalNames(old(d.names) - {c.candidate}, c, p.mine, reserved, fault, undo)
      && (fault.AfterHold() ==> d.nodes[p.mine] == Regular(c.after))
      && (if fault == NoFault then r == Installed(p.mine) else r == Raised)
  {
    var mine := d.names[c.candidate];
    if c.path in d.names {
      FinalIsUnwound(d.names, c, mine, reserved, fault, undo);
    }
    var raised, published, owned, installed;
    raised, published, owned, installed, p := Body(d, c, identity, fault, quiet);
    ghost var log, left, nodes := d.log, d.names, d.nodes;
    Unwind(d, c, raised, published, owned, mine, undo, quiet, p);
    OwnedStays(p.displaced, identity, nodes, d.nodes, c, fault);
    DisplacesJoin(old(d.log), log, d.log, c, p.displaced, None);
    if p.displaced.Some? {
      KeptJoin(left, d.names, old(d.log), log, d.log, c, p.displaced.value, owned);
    }
    r := if raised then Raised else Installed(installed);
  }

  /** The precondition: the path is a file of the expected identity with the reviewed bytes. */
  method Admits(d: Directory, c: Call, expected: Option<Inode>, quiet: bool) returns (ok: bool, identity: Inode)
    requires d.Valid() && c.Distinct()
    modifies d`names, d`nodes, d`log
    ensures d.Valid() && old(d.nodes) <= d.nodes
    ensures d.log == old(d.log) || d.log == old(d.log) + [Seen(c.path, identity)]
    ensures Keeps(old(d.names), d.names, c.candidate) && Keeps(old(d.names), d.names, c.held)
    ensures ok ==> d.log == old(d.log) + [Seen(c.path, identity)]
    ensures ok ==> identity < |d.nodes| && (expected.Some? ==> identity == expected.value)
    ensures quiet ==> d.names == old(d.names)
    ensures quiet ==>
      (ok <==> old(d.Holds(c.path, c.before)) && (expected.Some? ==> old(d.names[c.path]) == expected.value))
    ensures quiet && ok ==> identity == d.names[c.path] && d.Holds(c.path, c.before)
  {
    ok, identity := false, 0;
    d.Interfere(quiet, c.Private());
    if c.path !in d.names || d.nodes[d.names[c.path]].Symlink? { return; }
    identity := d.Stat(c.path);
    d.Interfere(quiet, c.Private());
    ok := (expected.Some? ==> identity == expected.value) && d.Holds(c.path, c.before);
  }

  /** The part after the precondition: create the temporary names, and install. */
  method Attempt(d: Directory, c: Call, identity: Inode, fault: Fault, undo: set<Undo>, quiet: bool)
    returns (r: Outcome, ghost p: Progress, ghost reserved: Inode)
    requires d.Valid() && c.Distinct() && identity < |d.nodes|
    requires c.candidate !in d.names && c.held !in d.names
    modifies d
    ensures d.Valid() && old(d.nodes) <= d.nodes && !r.Refused?
    ensures d.dropped <= old(d.dropped) + {reserved} + p.Own()
    ensures |old(d.nodes)| <= p.mine && |old(d.nodes)| <= reserved && p.identity == identity
    ensures Displaces(old(d.log), d.log, c, p.displaced)
    ensures p.owned == IsOwned(p.displaced, identity, d.nodes, c, fault)
    ensures p.displaced.Some? ==> Kept(d.names, old(d.log), d.log, c, p.displaced.value, p.owned)
    ensures r.Installed? ==> p.mine < |d.nodes| && d.nodes[p.mine] == Regular(c.after) && p.owned
    ensures r.Installed? ==>
      d.log == old(d.log) + [Removed(c.held, reserved)] + Installation(c, identity, p.mine)
    ensures quiet && old(d.Holds(c.path, c.before)) && identity == old(d.names[c.path]) ==>
      && d.names == FinalNames(old(d.names), c, p.mine, reserved, fault, undo)
      && (fault.AfterHold() ==> p.mine < |d.nodes| && d.nodes[p.mine] == Regular(c.after))
      && (if fault == NoFault then r == Installed(p.mine) else r == Raised)
  {
    var raised, mine;
    raised, mine, reserved := Reserve(d, c, fault, quiet);
    p := Progress(mine, identity, None, false);
    if raised { return Raised, p, reserved; }
    assert quiet ==> d.names - {c.candidate} == old(d.names);
    ghost var log := d.log;
    r, p := Install(d, c, identity, fault, undo, quiet, reserved);
    DisplacesJoin(old(d.log), log, d.log, c, None, p.displaced);
    SinceJoin(old(d.log), log, d.log);
  }

  /** What the log of a whole call says, event by event. */
  lemma InTheLog(names: map<Name, Inode>, log0: seq<Event>, log1: seq<Event>, log2: seq<Event>, c: Call, p: Progress)
    requires Displaces(log0, log1, c, None) && Displaces(log1, log2, c, p.displaced)
    requires p.displaced.Some? ==> Kept(names, log1, log2, c, p.displaced.value, p.owned)
    ensures log0 <= log2
    ensures forall i: Inode :: p.displaced == Some(i) <==> Moved(c.path, c.held, i) in log2[|log0|..]
    ensures p.displaced.Some? ==>
      || (c.held in names && names[c.held] == p.displaced.value)
      || Moved(c.held, c.path, p.displaced.value) in log2[|log0|..]
      || (p.owned && Removed(c.held, p.displaced.value) in log2[|log0|..])
  {
    DisplacesJoin(log0, log1, log2, c, None, p.displaced);
    SinceJoin(log0, log1, log2);
  }

  method CompareAndInstall(d: Directory, c: Call, expected: Option<Inode>, fault: Fault, undo: set<Undo>, quiet: bool)
    returns (r: Outcome, ghost p: Progress, ghost reserved: Inode)
    requires d.Valid() && c.Distinct()
    requires c.candidate !in d.names && c.held !in d.names
    modifies d
    ensures d.Valid() && old(d.nodes) <= d.nodes
    // Nothing that others own is lost, whatever happens: only the two files created here and the owned one.
    ensures d.dropped <= old(d.dropped) + {reserved, p.mine} + if p.owned then {p.identity} else {}
    ensures |old(d.nodes)| <= p.mine && |old(d.nodes)| <= reserved
    // The log decides what was displaced: at most one file.  It is owned if it is the file that was to
    // be replaced, with the reviewed bytes, and nothing kept the program from seeing so.
    ensures old(d.log) <= d.log
    ensures forall i: Inode :: p.displaced == Some(i) <==> Moved(c.path, c.held, i) in d.log[|old(d.log)|..]
    ensures p.owned <==>
      && fault != Inspecting && p.displaced == Some(p.identity)
      && p.identity < |d.nodes| && d.nodes[p.identity] == Regular(c.before)
    // The file to be replaced is the one that the path led to when the call asked for it.
    ensures !r.Refused? ==> |d.log| > |old(d.log)| && d.log[|old(d.log)|] == Seen(c.path, p.identity)
    ensures !r.Refused? && expected.Some? ==> p.identity == expected.value
    // Success displaced exactly the owned file and published by exclusive link.
    ensures r.Installed? ==> p.mine < |d.nodes| && d.nodes[p.mine] == Regular(c.after) && p.owned
    ensures r.Installed? ==>
      d.log == old(d.log) +
        [Seen(c.path, p.identity), Removed(c.held, reserved), Moved(c.path, c.held, p.identity),
         Linked(c.path, p.mine), Removed(c.candidate, p.mine), Removed(c.held, p.identity)]
    // A displaced file is at the held name or was put back; only the owned one may have been discarded.
    ensures p.displaced.Some? ==>
      || (c.held in d.names && d.names[c.held] == p.displaced.value)
      || Moved(c.held, c.path, p.displaced.value) in d.log[|old(d.log)|..]
      || (p.owned && Removed(c.held, p.displaced.value) in d.log[|old(d.log)|..])
    ensures r.Refused? ==> d.dropped == old(d.dropped)
    ensures r.Refused? ==> d.log == old(d.log) || exists i :: d.log == old(d.log) + [Seen(c.path, i)]
    // Undisturbed, the outcome is exact, whatever fails in the body and in the handlers.
    ensures quiet ==>
      (r.Refused? <==> !old(d.Holds(c.path, c.before)) || (expected.Some? && old(d.names[c.path]) != expected.value))
    ensures quiet && r.Refused? ==> d.names == old(d.names)
    ensures quiet && !r.Refused? ==>
      && p.identity == old(d.names[c.path])
      && d.names == FinalNames(old(d.names), c, p.mine, reserved, fault, undo)
      && (fault.AfterHold() ==> p.mine < |d.nodes| && d.nodes[p.mine] == Regular(c.after))
      && (if fault == NoFault then r == Installed(p.mine) else r == Raised)
  {
    p, reserved := Progress(|d.nodes|, 0, None, false), |d.nodes|;
    var admitted, identity := Admits(d, c, expected, quiet);
    if !admitted { return Refused, p, reserved; }
    ghost var log := d.log;
    r, p, reserved := Attempt(d, c, identity, fault, undo, quiet);
    InTheLog(d.names, old(d.log), log, d.log, c, p);
  }
}
