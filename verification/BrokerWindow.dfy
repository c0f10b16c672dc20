/** The stopped broker window: a host patch and a config swap nested in a gateway stop and
    start, with the recovery that runs when any of them raises.  Nobody else touches the two
    files during a run; every call may fail in every way it can. */
module BrokerWindow {
  import opened FileSystem
  import opened Wrappers
  import C = CompareAndInstall

  /** A file: the reviewed bytes before or after, no file, or anything else. */
  datatype Slot = Before | After | Missing | Other

  /** What the outside world can see at one moment. */
  datatype View = View(config: Slot, host: Slot, loaded: bool)

  /** How one owned compare-and-install of an expected file ends: it swaps, or raises with the
      file unchanged, with the new bytes kept, or with the file withdrawn. */
  datatype Swap = Swapped | Unchanged | Kept | Lost {
    function Result(now: Slot, to: Slot): Slot {
      match this
      case Swapped | Kept => to
      case Unchanged => now
      case Lost => Missing
    }

    /** A swap that finds something else than it expects raises and changes nothing. */
    function On(now: Slot, expected: Slot): Swap {
      if now == expected then this else Unchanged
    }
  }

  /** The swap that a fault of the compare-and-install, and failures of its handlers, amount to. */
  function SwapOf(fault: C.Fault, undo: set<C.Undo>): Swap {
    match fault
    case NoFault => Swapped
    case CreatingCandidate | CreatingHeld | ClearingHeld | Writing | Displacing => Unchanged
    case Inspecting | Linking => if Returns(fault, undo) then Unchanged else Lost
    case Identifying => Kept
    case Syncing | DroppingCandidate | DroppingHeld =>
      if C.UnlinkPublished in undo then Kept else if Returns(fault, undo) then Unchanged else Lost
    case Restating => if C.UnlinkPublished in undo then Kept else Lost
  }

  /** One of the two attempts to return the held file works; the second comes after the sweep of the
      candidate, which is gone already if the held file could not be dropped. */
  predicate Returns(fault: C.Fault, undo: set<C.Undo>) {
    || C.ReturnHeld !in undo
    || (C.ReturnHeldLast !in undo && (C.SweepCandidate !in undo || fault.DroppingHeld?))
  }

  function SlotOf(d: Directory, c: C.Call): Slot
    requires d.Valid()
    reads d
  {
    if c.path !in d.names then Missing
    else if d.Holds(c.path, c.before) then Before
    else if d.Holds(c.path, c.after) then After
    else Other
  }

  /** The path leads to the expected file, if one is expected. */
  predicate Expected(d: Directory, c: C.Call, expected: Option<Inode>)
    reads d
  {
    expected.Some? ==> c.path in d.names && d.names[c.path] == expected.value
  }

  /** What the path leads to at the end of an undisturbed run. */
  lemma FinalPath(names: map<Name, Inode>, c: C.Call, mine: Inode, reserved: Inode, fault: C.Fault, undo: set<C.Undo>)
    requires c.Distinct() && c.candidate !in names && c.held !in names
    requires c.path in names && names[c.path] != mine
    ensures var final := C.FinalNames(names, c, mine, reserved, fault, undo);
      match SwapOf(fault, undo)
      case Swapped | Kept => c.path in final && final[c.path] == mine
      case Unchanged => c.path in final && final[c.path] == names[c.path]
      case Lost => c.path !in final
  {
  }

  /** The swaps of this module are the undisturbed runs of the owned compare-and-install: whatever
      the path holds and whichever file is expected, every fault with every failure of the handlers
      ends as its swap does, and only the swap that succeeds returns. */
  method SwapFile(d: Directory, c: C.Call, expected: Option<Inode>, fault: C.Fault, undo: set<C.Undo>)
    returns (ok: bool)
    requires d.Valid() && c.Distinct() && c.before != c.after
    requires c.candidate !in d.names && c.held !in d.names
    modifies d
    ensures d.Valid()
    ensures var (found, swap) := (old(SlotOf(d, c)), SwapOf(fault, undo));
      if old(Expected(d, c, expected))
      then ok == swap.On(found, Before).Swapped? && SlotOf(d, c) == swap.On(found, Before).Result(found, After)
      else !ok && SlotOf(d, c) == found
  {
    var r, p, reserved := C.CompareAndInstall(d, c, expected, fault, undo, true);
    if !r.Refused? {
      FinalPath(old(d.names), c, p.mine, reserved, fault, undo);
    }
    ok := r.Installed?;
  }

  /** How one gateway stop or start ends. */
  datatype Gateway = Done | RaisedLoaded | RaisedStopped

  /** How the exclusive writing of a receipt ends: done, or raising with no receipt or, after its link,
      with the receipt in place. */
  datatype Writing = Written | Absent | Leftover

  /** Every choice the outside makes during one run, in program order; `admitted` answers the checks
      of sources, plugins, receipts and unresolved records before anything is stopped. */
  datatype Plan = Plan(
    admitted: bool, stop: Gateway, stillStopped: bool,
    hostSwap: Swap, hostCapable: bool, hostReceipted: Writing, hostRestore: Swap,
    configSwap: Swap, start: Gateway, accepted: bool, receipted: Writing,
    restop: Gateway, journalSame: bool, configBack: Swap, hostBack: Swap, hostBackReceipted: bool, restart: Gateway)
  {
    /** The host step, over a host target in the given state, ends in an exception. */
    predicate HostFails(host: Slot) {
      hostSwap.On(host, Before) != Swapped || !hostCapable || hostReceipted != Written
    }

    predicate Reaches() { stop == Done && stillStopped }

    /** The host step failed and left something else than the original target behind. */
    predicate HostLeftBehind(host: Slot) {
      && Reaches() && host == Before && HostFails(host)
      && (if hostSwap == Swapped then hostRestore == Unchanged || hostRestore == Lost else hostSwap != Unchanged)
    }

    /** The host step failed and left its receipt. */
    predicate ReceiptStays(host: Slot) {
      Reaches() && hostSwap.On(host, Before) == Swapped && hostCapable && hostReceipted == Leftover
    }

    /** The config file itself was lost while the patched host could be put back. */
    predicate ConfigLost(patched: bool, host: Slot) {
      && Reaches() && configSwap == Lost
      && (patched ==> !HostFails(host) && hostBack == Swapped && hostBackReceipted)
    }

    /** The only runs in which the gateway is brought up on files that do not belong together. */
    predicate MixedStart(patched: bool, host: Slot) {
      restart != RaisedStopped &&
      ((patched && HostLeftBehind(host) && !ReceiptStays(host)) || ConfigLost(patched, host))
    }

    /** The receipt of the run is reached. */
    predicate Receipts(patched: bool, host: Slot) {
      Reaches() && (patched ==> !HostFails(host)) && configSwap == Swapped && start == Done && accepted
    }

    /** Everything in the guarded part succeeds. */
    predicate Clean(patched: bool, host: Slot) {
      Receipts(patched, host) && receipted == Written
    }
  }

  datatype Outcome = Refused | Applied | Recovered | Stranded

  /** The host target once the reviewed config is installed, from its state at the beginning. */
  function Installed(patched: bool, host: Slot): Slot {
    if patched then After else host
  }

  /** The host target once the config is back, from its state at the beginning of a rollback. */
  function Restored(patched: bool, host: Slot): Slot {
    if patched then Before else host
  }

  class Window {
    const patched: bool
    var config: Slot
    var host: Slot
    var loaded: bool
    /** The receipt directory exists; it is made by the run that writes the receipts. */
    var directory: bool
    var hostReceipt: bool
    var receipt: bool
    ghost var views: seq<View>

    function Now(): View
      reads this
    {
      View(config, host, loaded)
    }

    predicate Valid()
      reads this
    {
      (hostReceipt || receipt ==> directory) && (hostReceipt ==> patched)
    }

    /** During an apply that began at host target `first`: config and host were installed together or
        not at all. */
    predicate Matched(v: View, first: Slot) {
      (v.config == Before && v.host == first) || (v.config == After && v.host == Installed(patched, first))
    }

    /** A patched config never stands over an unpatched host. */
    predicate Ordered(v: View) {
      patched && v.config == After ==> v.host == After
    }

    ghost predicate Safe(from: nat, first: Slot)
      reads this
    {
      from <= |views| &&
      forall k :: from <= k < |views| ==> Ordered(views[k]) && (views[k].loaded ==> Matched(views[k], first))
    }

    ghost predicate AlwaysOrdered(from: nat)
      reads this
    {
      from <= |views| && forall k :: from <= k < |views| ==> Ordered(views[k])
    }

    method SetConfig(slot: Slot)
      modifies this`config, this`views
      ensures config == slot && views == old(views) + [Now()]
    {
      config := slot;
      views := views + [Now()];
    }

    method SetHost(slot: Slot)
      modifies this`host, this`views
      ensures host == slot && views == old(views) + [Now()]
    {
      host := slot;
      views := views + [Now()];
    }

    /** Stops the gateway, or raises with it loaded or stopped. */
    method StopGateway(call: Gateway) returns (ok: bool)
      modifies this`loaded, this`views
      ensures ok == call.Done?
      ensures loaded == (old(loaded) && call.RaisedLoaded?)
      ensures views == old(views) + [Now()]
    {
      ok := call.Done?;
      loaded := loaded && call.RaisedLoaded?;
      views := views + [Now()];
    }

    /** Refuses an already loaded gateway; otherwise bootstraps it and waits for readiness. */
    method StartGateway(call: Gateway) returns (ok: bool)
      modifies this`loaded, this`views
      ensures ok == (!old(loaded) && call.Done?)
      ensures loaded == (old(loaded) || !call.RaisedStopped?)
      ensures views == old(views) + [Now()]
    {
      ok := !loaded && call.Done?;
      loaded := loaded || !call.RaisedStopped?;
      views := views + [Now()];
    }

    /** Install the host bytes, prove the capability, write the receipt; restore on failure.  A host
        target that is not at its reviewed bytes is left alone. */
    method ApplyHostPatch(p: Plan) returns (ok: bool)
      requires patched && config == Before && !loaded && !hostReceipt
      modifies this`host, this`hostReceipt, this`views
      ensures Safe(|old(views)|, old(host)) && old(views) <= views
      ensures ok == !p.HostFails(old(host))
      ensures p.Reaches() ==> (hostReceipt <==> ok || p.ReceiptStays(old(host)))
      ensures p.ReceiptStays(old(host)) ==> host == p.hostRestore.Result(After, Before)
      ensures ok ==> old(host) == Before && host == After
      ensures old(host) != Before ==> host == old(host)
      ensures !ok && old(host) == Before ==>
        (host == Before <==>
         if p.hostSwap == Swapped then p.hostRestore == Swapped || p.hostRestore == Kept else p.hostSwap == Unchanged)
    {
      ok := false;
      var swap := p.hostSwap.On(host, Before);
      SetHost(swap.Result(host, After));
      if swap != Swapped { return; }
      if p.hostCapable {
        hostReceipt := p.hostReceipted != Absent;
        if p.hostReceipted == Written { return true; }
      }
      SetHost(p.hostRestore.Result(After, Before));
    }

    /** Put the host bytes back and record it; a target that is not the installed file is left alone. */
    method RollbackHostPatch(swap: Swap, recorded: bool) returns (ok: bool)
      requires patched && config != After && !loaded
      modifies this`host, this`views
      ensures ok == (swap.On(old(host), After) == Swapped && recorded)
      ensures ok ==> host == Before
      ensures old(host) != After ==> host == old(host)
      ensures views == old(views) + [Now()]
    {
      var outcome := swap.On(host, After);
      SetHost(outcome.Result(host, Before));
      ok := outcome == Swapped && recorded;
    }

    /** The guarded part of an apply. */
    method InstallAndRestart(p: Plan) returns (ok: bool, owned: bool)
      requires config == Before && loaded && !hostReceipt && !receipt && directory
      modifies this`config, this`host, this`loaded, this`hostReceipt, this`receipt, this`views
      ensures Valid()
      ensures ok == p.Clean(patched, old(host))
      ensures Safe(|old(views)|, old(host)) && old(views) <= views && |views| > |old(views)|
      ensures receipt <==> p.Receipts(patched, old(host)) && p.receipted != Absent
      ensures !ok ==> Interrupted(p, owned, old(host))
      ensures ok ==> config == After && Matched(Now(), old(host)) && loaded && hostReceipt == patched
    {
      owned := false;
      ok := StopGateway(p.stop);
      if !ok || !p.stillStopped { return false, false; }
      if patched {
        ok := ApplyHostPatch(p);
        if !ok { return; }
      }
      SetConfig(p.configSwap.Result(Before, After));
      owned := p.configSwap == Swapped;
      if !owned { return false, false; }
      ok := StartGateway(p.start);
      if ok && p.accepted {
        receipt := p.receipted != Absent;
      }
      ok := ok && p.accepted && p.receipted == Written;
    }

    /** How the guarded part may leave things when it raises. */
    ghost predicate Interrupted(p: Plan, owned: bool, first: Slot)
      reads this
    {
      && Ordered(Now())
      && (hostReceipt ==> patched && first == Before && (host == After || p.ReceiptStays(first)))
      && (loaded ==> Matched(Now(), first))
      && (owned ==> config == After)
      && (config == After ==>
            (if owned then p.configSwap == Swapped else p.configSwap == Kept) && (patched ==> hostReceipt))
      && (config == After || config == Before || config == Missing)
      && (config == Missing <==> p.Reaches() && (patched ==> !p.HostFails(first)) && p.configSwap == Lost)
      && (config == Missing ==> !loaded && (patched ==> hostReceipt))
      && (!hostReceipt ==> (host != first <==> patched && p.HostLeftBehind(first)))
      && (patched && p.HostLeftBehind(first) ==> config == Before && !loaded && hostReceipt == p.ReceiptStays(first))
      && (patched && p.ReceiptStays(first) ==> HeldByReceipt(p))
    }

    /** After a host step that failed and left its receipt. */
    ghost predicate HeldByReceipt(p: Plan)
      reads this
    {
      config == Before && !loaded && hostReceipt && host == p.hostRestore.Result(After, Before)
    }

    /** The recovery puts both files back, seen from the state in which it begins. */
    predicate PutsBack(p: Plan, owned: bool)
      reads this
    {
      && (config == After ==> p.journalSame && owned && p.configBack == Swapped)
      && (hostReceipt ==> p.hostBack.On(host, After) == Swapped && p.hostBackReceipted)
    }

    /** The files of the recovery: the config if it is the new one, the host if its receipt exists. */
    method PutBack(p: Plan, owned: bool, ghost first: Slot) returns (ok: bool)
      requires Interrupted(p, owned, first) && !loaded
      modifies this`config, this`host, this`views
      ensures Safe(|old(views)|, first) && old(views) <= views
      ensures ok == old(PutsBack(p, owned))
      ensures ok ==> config == (if old(config) == After then Before else old(config))
      ensures ok ==> host == (if hostReceipt then Before else old(host))
    {
      ok := false;
      if config == After {
        if !p.journalSame || !owned { return; }
        SetConfig(p.configBack.Result(After, Before));
        if p.configBack != Swapped { return; }
      }
      ok := true;
      if hostReceipt {
        ok := RollbackHostPatch(p.hostBack, p.hostBackReceipted);
      }
    }

    /** The recovery: stop, put both files back, start. */
    method Recover(p: Plan, owned: bool, ghost first: Slot) returns (ok: bool)
      requires Interrupted(p, owned, first)
      modifies this`config, this`host, this`loaded, this`views
      ensures AlwaysOrdered(|old(views)|) && old(views) <= views
      ensures !p.MixedStart(patched, first) ==> Safe(|old(views)|, first)
      ensures p.MixedStart(patched, first) && old(config != After) ==> !Safe(|old(views)|, first)
      ensures ok == (old(PutsBack(p, owned)) && (old(loaded) ==> p.restop == Done) && p.restart == Done)
      ensures ok && !p.MixedStart(patched, first) ==> Now() == View(Before, first, true)
      ensures !old(PutsBack(p, owned)) && !old(loaded) ==> !loaded
    {
      ok := false;
      if loaded {
        var stopped := StopGateway(p.restop);
        if !stopped { return; }
      }
      var restored := PutBack(p, owned, first);
      if !restored { return; }
      ok := StartGateway(p.restart);
      assert views[|views| - 1] == Now();
    }

    /** Apply the reviewed bytes.  Nothing is stopped unless the config is at these bytes, the gateway is
        loaded, the other checks pass and no receipt directory is there. */
    method ApplyReviewedTransition(p: Plan) returns (r: Outcome)
      requires Valid()
      modifies this
      ensures Valid() && old(views) <= views
      ensures r.Refused? <==> !p.admitted || old(config) != Before || !old(loaded) || old(directory)
      ensures r.Refused? ==> views == old(views) && Now() == old(Now()) && receipt == old(receipt)
      // A patched config never stands over an unpatched host.
      ensures patched ==> forall k | |old(views)| <= k < |views| :: views[k].config == After ==> views[k].host == After
      // The gateway is never loaded on another pair than that of the beginning or the installed one,
      // except in the two named gaps.
      ensures !r.Refused? ==>
        (p.MixedStart(patched, old(host)) <==>
         exists k :: |old(views)| <= k < |views| && views[k].loaded
           && !(views[k].config == Before && views[k].host == old(host))
           && !(views[k].config == After && views[k].host == if patched then After else old(host)))
      // Applied exactly when every step succeeds.
      ensures r.Applied? <==>
        && !r.Refused? && p.stop == Done && p.stillStopped
        && (patched ==> old(host) == Before && p.hostSwap == Swapped && p.hostCapable && p.hostReceipted == Written)
        && p.configSwap == Swapped && p.start == Done && p.accepted && p.receipted == Written
      ensures r.Applied? ==> Now() == View(After, if patched then After else old(host), true)
      ensures r.Applied? ==> receipt && hostReceipt == patched
      ensures r.Recovered? && !p.MixedStart(patched, old(host)) ==> Now() == View(Before, old(host), true)
      ensures !r.Refused? ==>
        (receipt <==>
         && p.stop == Done && p.stillStopped
         && (patched ==> old(host) == Before && p.hostSwap == Swapped && p.hostCapable && p.hostReceipted == Written)
         && p.configSwap == Swapped && p.start == Done && p.accepted && p.receipted != Absent)
      // A host receipt that its failed writing left over a target that is not the installed one any more
      // keeps the recovery from its end; otherwise it needs no more than its own steps.
      ensures !r.Refused? ==>
        var stuck := && patched && p.stop == Done && p.stillStopped && old(host) == Before && p.hostSwap == Swapped
                     && p.hostCapable && p.hostReceipted == Leftover && p.hostRestore != Unchanged;
        && (stuck ==> r.Stranded? && !loaded)
        && var able := && p.restop == Done && p.journalSame && p.configBack == Swapped && p.hostBack == Swapped
                       && p.hostBackReceipted && p.restart == Done;
        !stuck && able && p.configSwap != Kept ==> r.Applied? || r.Recovered?
    {
      if !p.admitted || config != Before || !loaded || directory { return Refused; }
      directory := true;
      ghost var first := host;
      var ok, owned := InstallAndRestart(p);
      if ok { return Applied; }
      ok := Recover(p, owned, first);
      r := if ok then Recovered else Stranded;
    }

    /** Put the reviewed before bytes back.  Nothing is stopped unless the config is at the installed
        bytes, the gateway is loaded, the receipts are there and the other checks pass; the host target
        is not among them.  There is no handler: a failure after the stop leaves the gateway down, and a
        host target that changed since the apply is such a failure. */
    method RollbackReviewedTransition(p: Plan) returns (r: Outcome)
      requires Valid()
      modifies this`config, this`host, this`loaded, this`views
      ensures r.Refused? <==>
        !p.admitted || old(config) != After || !old(loaded) || !receipt || (patched && !hostReceipt)
      ensures r.Refused? ==> views == old(views) && Now() == old(Now())
      // The host is not put back while the config is not, and the gateway is loaded only on the pair of
      // the beginning or the restored one.
      ensures old(views) <= views
      ensures forall k | |old(views)| <= k < |views| :: views[k].config == After ==> views[k].host == old(host)
      ensures forall k | |old(views)| <= k < |views| && views[k].loaded ::
        || views[k].config == After
        || (views[k].config == Before && views[k].host == if patched then Before else old(host))
      // Done exactly when every step succeeds.
      ensures r.Recovered? <==>
        && !r.Refused? && p.stop == Done && p.stillStopped && p.configBack == Swapped
        && (patched ==> old(host) == After && p.hostBack == Swapped && p.hostBackReceipted)
        && p.restart == Done && p.journalSame && p.receipted == Written
      ensures r.Recovered? ==> Now() == View(Before, if patched then Before else old(host), true)
      ensures r.Refused? || r.Recovered? || r.Stranded?
      ensures patched && old(host) != After && p.stop == Done ==> r.Refused? || (r.Stranded? && !loaded)
      // Started again at all, it stands on the restored pair; not stopped at all, on the one of the beginning.
      ensures r.Stranded? && loaded ==>
        if p.stop == Done then config == Before && host == Restored(patched, old(host)) else Now() == old(Now())
    {
      if !p.admitted || config != After || !loaded || !receipt || (patched && !hostReceipt) { return Refused; }
      r := Stranded;
      var ok := StopGateway(p.stop);
      if !ok || !p.stillStopped { return; }
      SetConfig(p.configBack.Result(After, Before));
      if p.configBack != Swapped { return; }
      if patched {
        ok := RollbackHostPatch(p.hostBack, p.hostBackReceipted);
        if !ok { return; }
      }
      ok := StartGateway(p.restart);
      if ok && p.journalSame && p.receipted == Written {
        r := Recovered;
      }
    }

    /** The round trip: over the reviewed files and a loaded gateway, with no receipt directory and every
        step succeeding, an apply installs both files and a rollback after it ends at the beginning. */
    method ApplyAndRollBack(p: Plan, q: Plan) returns (applied: Outcome, ghost between: View, undone: Outcome)
      requires Valid() && config == Before && (patched ==> host == Before) && loaded && !directory
      requires p.admitted && p.stop == Done && p.stillStopped
      requires patched ==> p.hostSwap == Swapped && p.hostCapable && p.hostReceipted == Written
      requires p.configSwap == Swapped && p.start == Done && p.accepted && p.receipted == Written
      requires q.admitted && q.stop == Done && q.stillStopped && q.configBack == Swapped
      requires patched ==> q.hostBack == Swapped && q.hostBackReceipted
      requires q.restart == Done && q.journalSame && q.receipted == Written
      modifies this
      ensures applied == Applied && between == View(After, if patched then After else old(host), true)
      ensures undone == Recovered && Now() == old(Now())
    {
      applied := ApplyReviewedTransition(p);
      between := Now();
      undone := RollbackReviewedTransition(q);
    }
  }
}
