/** Rollback of the writer-token file: the current value is displaced into the evidence
    directory, and every publication at the target is an exclusive link. */
module WriterTokenRestore {
  import opened FileSystem

  datatype Fault =
    | NoFault | MakingDirectory | Drafting | Displacing
    | SyncingEvidence | Inspecting | Linking | SyncingState

  /** The answers about everything but the bytes of the target: whether baseline, permissions and the
      rest of the protected state are as reviewed at the beginning, before the displacement, at the end. */
  datatype Checks = Checks(first: bool, again: bool, last: bool)

  /** `draft` and `displaced` are the two names in the evidence directory. */
  datatype Restore = Restore(target: Name, draft: Name, displaced: Name, before: string, after: string) {
    predicate Distinct() {
      target != draft && target != displaced && draft != displaced
    }

    function Private(): (Name, Name) { (draft, displaced) }
  }

  /** The file is at one of the two reviewed endpoints. */
  predicate AtEndpoint(d: Directory, w: Restore)
    requires d.Valid()
    reads d
  {
    d.Holds(w.target, w.before) || d.Holds(w.target, w.after)
  }

  /** What an undisturbed call leaves behind.  The failing sync of the evidence directory
      comes before the guarded part, so it alone leaves the target vacant. */
  ghost function FinalNames(names: map<Name, Inode>, w: Restore, mine: Inode, fault: Fault, again: bool)
    : map<Name, Inode>
    requires w.target in names
  {
    match fault
    case MakingDirectory => names
    case _ => if again then ReplacedNames(names[w.draft := mine], w, mine, fault) else names[w.draft := mine]
  }

  /** The same from the second check on. */
  ghost function ReplacedNames(names: map<Name, Inode>, w: Restore, mine: Inode, fault: Fault): map<Name, Inode>
    requires w.target in names
  {
    match fault
    case MakingDirectory | Drafting | Displacing => names
    case SyncingEvidence => names[w.displaced := names[w.target]] - {w.target}
    case Inspecting | Linking => names[w.displaced := names[w.target]]
    case SyncingState | NoFault => names[w.displaced := names[w.target]][w.target := mine]
  }

  /** The only traces a displacement leaves: the move, then at most two exclusive links at the
      target, first of the reviewed bytes, then of the displaced file itself. */
  ghost predicate Displacement(log: seq<Event>, log': seq<Event>, w: Restore, moved: Inode, mine: Inode) {
    Publications(log + [Moved(w.target, w.displaced, moved)], log', w, moved, mine)
  }

  ghost predicate Publications(log: seq<Event>, log': seq<Event>, w: Restore, moved: Inode, mine: Inode) {
    var tried := log + [Linked(w.target, mine)];
    || log' == log
    || log' == tried
    || log' == log + [Linked(w.target, moved)]
    || log' == tried + [Linked(w.target, moved)]
  }

  method RestoreProtectedState(d: Directory, w: Restore, checks: Checks, fault: Fault, quiet: bool)
    returns (restored: bool)
    requires d.Valid() && w.Distinct()
    requires w.draft !in d.names && w.displaced !in d.names
    modifies d
    ensures d.Valid()
    // No value is ever lost: nothing is unlinked or overwritten, and what was displaced keeps its evidence name.
    ensures d.dropped == old(d.dropped)
    ensures old(d.log) <= d.log
    ensures w.displaced !in d.names ==> d.log == old(d.log)
    ensures w.displaced in d.names ==>
      && w.draft in d.names && d.nodes[d.names[w.draft]] == Regular(w.before)
      && Displacement(old(d.log), d.log, w, d.names[w.displaced], d.names[w.draft])
    // Nothing is displaced unless the protected state was found as reviewed twice.
    ensures w.displaced in d.names ==> checks.first && checks.again
    // Success leaves the reviewed bytes, over a protected state found as reviewed.
    ensures restored ==> checks.first && checks.last && d.Holds(w.target, w.before)
    // Undisturbed, the outcome is exact.
    ensures quiet && !(checks.first && old(d.Holds(w.target, w.before) || d.Holds(w.target, w.after))) ==>
      !restored && d.names == old(d.names)
    ensures quiet && checks.first && w.before != w.after && old(d.Holds(w.target, w.before)) ==>
      restored == checks.last && d.names == old(d.names)
    ensures quiet && checks.first && w.before != w.after && old(d.Holds(w.target, w.after)) ==>
      var (names, mine) := (old(d.names), |old(d.nodes)|);
      var moved := names[w.draft := mine][w.displaced := names[w.target]];
      && restored == (fault.NoFault? && checks.again && checks.last)
      && d.names == (if fault.MakingDirectory? then names
                     else if !checks.again || fault.Drafting? || fault.Displacing? then names[w.draft := mine]
                     else if fault.SyncingEvidence? then moved - {w.target}
                     else if fault.Inspecting? || fault.Linking? then moved
                     else moved[w.target := mine])
  {
    restored := false;
    d.Interfere(quiet, w.Private());
    if !checks.first || !AtEndpoint(d, w) { return; }
    d.Interfere(quiet, w.Private());
    if d.Holds(w.target, w.after) {
      var replaced := DraftAndReplace(d, w, checks.again, fault, quiet);
      if !replaced { return; }
      d.Interfere(quiet, w.Private());
    }
    restored := checks.last && d.Holds(w.target, w.before);
  }

  /** Draft the reviewed bytes in a new evidence directory, check the state again, replace. */
  method DraftAndReplace(d: Directory, w: Restore, again: bool, fault: Fault, quiet: bool) returns (done: bool)
    requires d.Valid() && w.Distinct()
    requires w.draft !in d.names && w.displaced !in d.names
    modifies d
    ensures d.Valid() && d.dropped == old(d.dropped)
    ensures w.displaced !in d.names ==> d.log == old(d.log) && !done
    ensures w.displaced in d.names ==>
      && again && w.draft in d.names && d.nodes[d.names[w.draft]] == Regular(w.before)
      && Displacement(old(d.log), d.log, w, d.names[w.displaced], d.names[w.draft])
    ensures quiet && old(d.Holds(w.target, w.after)) ==>
      && done == (fault.NoFault? && again)
      && d.names == FinalNames(old(d.names), w, |old(d.nodes)|, fault, again)
      && (done ==> d.nodes[|old(d.nodes)|] == Regular(w.before))
  {
    done := false;
    if fault == MakingDirectory { return; }
    var mine := d.Create(w.draft);
    if fault == Drafting { return; }
    d.Write(w.draft, w.before);
    d.Interfere(quiet, w.Private());
    if again && AtEndpoint(d, w) {
      done := Replace(d, w, fault, quiet);
    }
  }

  /** Displace the current file, check it, and link the reviewed bytes into the vacant name;
      on failure link the displaced file back if its name is still vacant. */
  method Replace(d: Directory, w: Restore, fault: Fault, quiet: bool) returns (done: bool)
    requires d.Valid() && w.Distinct()
    requires d.Holds(w.draft, w.before) && w.displaced !in d.names
    modifies d
    ensures d.Valid() && d.dropped == old(d.dropped) && old(d.nodes) <= d.nodes && old(d.log) <= d.log
    ensures w.draft in d.names && d.names[w.draft] == old(d.names[w.draft])
    ensures w.displaced !in d.names ==> d.log == old(d.log) && !done
    ensures w.displaced in d.names ==> Displacement(old(d.log), d.log, w, d.names[w.displaced], d.names[w.draft])
    ensures quiet && old(d.Holds(w.target, w.after)) && !fault.MakingDirectory? && !fault.Drafting? ==>
      done == fault.NoFault? && d.names == ReplacedNames(old(d.names), w, old(d.names[w.draft]), fault)
  {
    done := false;
    d.Interfere(quiet, w.Private());
    if fault == Displacing || w.target !in d.names { return; }
    d.Move(w.target, w.displaced);
    d.Interfere(quiet, w.Private());
    if fault == SyncingEvidence { return; }
    done := Publish(d, w, fault, quiet);
  }

  /** The vacant target linked to the displaced file or to the draft. */
  ghost function Relinked(names: map<Name, Inode>, w: Restore, fault: Fault): map<Name, Inode>
    requires w.displaced in names && w.draft in names
  {
    names[w.target := names[if fault.Inspecting? || fault.Linking? then w.displaced else w.draft]]
  }

  /** The guarded part: check what was displaced and link the reviewed bytes into the vacant
      name; on failure link the displaced file back if the name is vacant. */
  method Publish(d: Directory, w: Restore, fault: Fault, quiet: bool) returns (done: bool)
    requires d.Valid() && w.Distinct()
    requires d.Holds(w.draft, w.before) && w.displaced in d.names
    modifies d`names, d`nodes, d`log
    ensures d.Valid() && old(d.nodes) <= d.nodes
    ensures Keeps(old(d.names), d.names, w.draft) && Keeps(old(d.names), d.names, w.displaced)
    ensures Publications(old(d.log), d.log, w, d.names[w.displaced], d.names[w.draft])
    ensures quiet && w.target !in old(d.names) && old(d.Holds(w.displaced, w.after)) ==>
      && done == !(fault.Inspecting? || fault.Linking? || fault.SyncingState?)
      && d.names == Relinked(old(d.names), w, fault)
  {
    d.Interfere(quiet, w.Private());
    var checked := fault != Inspecting && d.Holds(w.displaced, w.after);
    d.Interfere(quiet, w.Private());
    if checked && fault != Linking && w.target !in d.names {
      d.Link(w.draft, w.target);
      if fault != SyncingState {
        return true;
      }
    }
    d.Interfere(quiet, w.Private());
    if w.target !in d.names {
      d.Link(w.displaced, w.target);
    }
    done := false;
  }
}
