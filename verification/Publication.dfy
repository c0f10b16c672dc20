/** Publication of a verified release: two pointers, two predecessor snapshots, one receipt,
    written one atomic step at a time by a program that may be cut off after any step and
    is then simply run again. */
module Publication {
  import opened Wrappers

  /** SHA-256, idealised: a digest determines the bytes it was taken of. */
  datatype Digest = Sha(of: Bytes)

  datatype Bytes =
    | RuntimePointer(at: string, commit: string, manifest: string, evidence: string, prior: Digest)
    | LegacyRuntime(commit: string, release: Digest)
    | ReleasePointer(at: string, commit: string, manifest: string, evidence: string,
                     runtime: Digest, previousRelease: Digest, previousRuntime: Digest)
    | LegacyRelease(commit: string)
    | Receipt(commit: string, release: Digest, runtime: Digest, priorRelease: Digest, priorRuntime: Digest)
    | Text(text: string)
    /** A file that was created and not yet fully written. */
    | Partial

  datatype Kind = Release | Runtime

  /** The accepted inputs of a run; none of them is a clock. */
  datatype Request = Request(at: string, commit: string, manifest: string, evidence: string,
                             expectedRelease: Digest, expectedRuntime: Digest)
  {
    function Before(k: Kind): Bytes {
      if k.Release? then expectedRelease.of else expectedRuntime.of
    }

    function After(k: Kind): Bytes {
      var runtime := RuntimePointer(at, commit, manifest, evidence, expectedRuntime);
      if k.Runtime? then runtime
      else ReleasePointer(at, commit, manifest, evidence, Sha(runtime), expectedRelease, expectedRuntime)
    }

    function ReceiptBytes(): Bytes {
      Receipt(commit, Sha(After(Release)), Sha(After(Runtime)), expectedRelease, expectedRuntime)
    }

    /** The predecessors name each other, in either pointer schema. */
    predicate PredecessorsBound() {
      var release, runtime := Before(Release), Before(Runtime);
      (release.ReleasePointer? || release.LegacyRelease?) &&
      match runtime
      case RuntimePointer(_, commit, _, _, _) =>
        release.ReleasePointer? && commit == release.commit && release.runtime == expectedRuntime
      case LegacyRuntime(commit, base) => commit == release.commit && base == expectedRelease
      case _ => false
    }
  }

  datatype Disk = Disk(release: Bytes, runtime: Bytes, releaseSaved: Option<Bytes>, runtimeSaved: Option<Bytes>,
                       receipt: Option<Bytes>)
  {
    function Current(k: Kind): Bytes { if k.Release? then release else runtime }

    function Saved(k: Kind): Option<Bytes> { if k.Release? then releaseSaved else runtimeSaved }

    function Point(k: Kind, bytes: Bytes): Disk {
      if k.Release? then this.(release := bytes) else this.(runtime := bytes)
    }

    function Save(k: Kind, bytes: Bytes): Disk {
      if k.Release? then this.(releaseSaved := Some(bytes)) else this.(runtimeSaved := Some(bytes))
    }

    predicate BothAre(release: Bytes, runtime: Bytes) { this.release == release && this.runtime == runtime }
  }

  /** The finished publication. */
  function Done(q: Request): Disk {
    Disk(q.After(Release), q.After(Runtime), Some(q.Before(Release)), Some(q.Before(Runtime)), Some(q.ReceiptBytes()))
  }

  predicate BothNew(q: Request, d: Disk) { d.BothAre(q.After(Release), q.After(Runtime)) }

  predicate BothOld(q: Request, d: Disk) { d.BothAre(q.Before(Release), q.Before(Runtime)) }

  predicate Snapshotted(q: Request, d: Disk) {
    d.releaseSaved == Some(q.Before(Release)) && d.runtimeSaved == Some(q.Before(Runtime))
  }

  /** Some artifact was created and its writing cut off. */
  predicate Torn(d: Disk) {
    d.releaseSaved == Some(Partial) || d.runtimeSaved == Some(Partial) || d.receipt == Some(Partial)
  }

  /** A digest cannot be contained in the bytes it is the digest of, so the new pointers
      always differ from the ones they replace. */
  lemma NewDiffersFromOld(q: Request, k: Kind)
    ensures q.After(k) != q.Before(k)
  {
    assert q.After(Runtime).prior == q.expectedRuntime;
    assert q.After(Release).previousRelease == q.expectedRelease;
  }

  /** What the finished disk holds, in terms of its own files: the release pointer names the runtime
      pointer beside it, each new pointer names what was saved of its predecessor, and the receipt names
      both pointers and both snapshots. */
  lemma FinishedFilesBelongTogether(q: Request)
    ensures var d := Done(q);
      && d.releaseSaved.Some? && d.runtimeSaved.Some?
      && var (oldRelease, oldRuntime) := (Sha(d.releaseSaved.value), Sha(d.runtimeSaved.value));
      && oldRelease == q.expectedRelease && oldRuntime == q.expectedRuntime
      && d.runtime == RuntimePointer(q.at, q.commit, q.manifest, q.evidence, oldRuntime)
      && d.release ==
         ReleasePointer(q.at, q.commit, q.manifest, q.evidence, Sha(d.runtime), oldRelease, oldRuntime)
      && d.receipt == Some(Receipt(q.commit, Sha(d.release), Sha(d.runtime), oldRelease, oldRuntime))
  {
  }

  /** Which predecessors name each other: a runtime pointer and a release pointer that names it, or a
      legacy runtime pointer that names the release pointer; of one commit either way. */
  lemma BoundPredecessors(q: Request)
    ensures var (release, runtime) := (q.expectedRelease.of, q.expectedRuntime.of);
      q.PredecessorsBound() <==>
      || (release.ReleasePointer? && runtime.RuntimePointer?
          && release.runtime == Sha(runtime) && release.commit == runtime.commit)
      || ((release.ReleasePointer? || release.LegacyRelease?) && runtime.LegacyRuntime?
          && runtime.release == Sha(release) && release.commit == runtime.commit)
  {
  }

  /** A publication can follow a publication: over what one has finished, the next one that expects
      these two pointers can publish, in its own empty directory. */
  lemma PublicationsChain(q: Request, next: Request)
    requires next.expectedRelease == Sha(Done(q).release) && next.expectedRuntime == Sha(Done(q).runtime)
    ensures next.PredecessorsBound()
    ensures CanPublish(next, Disk(Done(q).release, Done(q).runtime, None, None, None))
  {
  }

  // ------------------------------------------------------------ the state machine

  /** One atomic write of a run, whatever others do to the pointers meanwhile.  A pointer
      moves only between the two reviewed values and only over exact snapshots; snapshots
      and receipt are written once. */
  ghost predicate Step(q: Request, d: Disk, d': Disk) {
    || (exists k :: SavesStep(q, d, d', k))
    || (exists k :: PointsStep(q, d, d', k))
    || (d.receipt == None && d' == d.(receipt := Some(Partial)))
    || (d.receipt == Some(Partial) && d' == d.(receipt := Some(q.ReceiptBytes())))
  }

  ghost predicate SavesStep(q: Request, d: Disk, d': Disk, k: Kind) {
    || (d.Saved(k) == None && d' == d.Save(k, Partial))
    || (d.Saved(k) == Some(Partial) && d' == d.Save(k, q.Before(k)))
  }

  ghost predicate PointsStep(q: Request, d: Disk, d': Disk, k: Kind) {
    Snapshotted(q, d) &&
    ((d.Current(k) == q.Before(k) && d' == d.Point(k, q.After(k)))
     || (d.Current(k) == q.After(k) && d' == d.Point(k, q.Before(k))))
  }

  /** A step taken while no third party touches the pointers: the runtime pointer leads and
      follows, the receipt comes last, and a snapshot is taken of the live predecessor. */
  ghost predicate SoloStep(q: Request, d: Disk, d': Disk) {
    && Step(q, d, d')
    && (d'.release != d.release && d'.release == q.After(Release) ==> d.runtime == q.After(Runtime))
    && (d'.runtime != d.runtime && d'.runtime == q.Before(Runtime) ==> d.release != q.After(Release))
    && (d'.receipt != d.receipt ==> BothNew(q, d))
    && (d'.receipt == d.receipt != None ==> d' == d)
    && (forall k: Kind :: d.Saved(k) == None && d'.Saved(k) != None ==> d.Current(k) == q.Before(k))
  }

  /** The safety invariant: the release pointer never runs ahead of the runtime pointer, the
      receipt never ahead of both, and no pointer moves before both predecessors are safe. */
  predicate Inv(q: Request, d: Disk) {
    && (d.release == q.Before(Release) || d.release == q.After(Release))
    && (d.runtime == q.Before(Runtime) || d.runtime == q.After(Runtime))
    && (d.release == q.After(Release) ==> d.runtime == q.After(Runtime))
    && (d.receipt != None ==> BothNew(q, d))
    && (d.release != q.Before(Release) || d.runtime != q.Before(Runtime) ==> Snapshotted(q, d))
    && (forall k: Kind :: d.Saved(k) == None || d.Saved(k) == Some(Partial) || d.Saved(k) == Some(q.Before(k)))
    && (d.receipt == None || d.receipt == Some(Partial) || d.receipt == Some(q.ReceiptBytes()))
  }

  /** The disk before the first run. */
  predicate Initial(q: Request, d: Disk) {
    BothOld(q, d) && d.releaseSaved == None && d.runtimeSaved == None && d.receipt == None
  }

  /** The disks of any number of runs, each cut off anywhere, laid end to end. */
  ghost predicate Runs(q: Request, disks: seq<Disk>) {
    |disks| > 0 && Initial(q, disks[0]) && forall i :: 0 < i < |disks| ==> SoloStep(q, disks[i - 1], disks[i])
  }

  /** The invariant in plain terms: a new release pointer stands beside the new runtime pointer that it
      names, a receipt over both, and a moved pointer over exact snapshots of both predecessors. */
  lemma {:induction false} RunsKeepTheInvariant(q: Request, disks: seq<Disk>, i: nat)
    requires Runs(q, disks) && i < |disks|
    ensures Inv(q, disks[i])
    ensures disks[i].release != q.expectedRelease.of ==>
      disks[i].release.ReleasePointer? && disks[i].release.runtime == Sha(disks[i].runtime)
    ensures disks[i].receipt != None ==>
      disks[i].release != q.expectedRelease.of && disks[i].runtime != q.expectedRuntime.of
    ensures disks[i].release != q.expectedRelease.of || disks[i].runtime != q.expectedRuntime.of ==>
      disks[i].releaseSaved == Some(q.expectedRelease.of) && disks[i].runtimeSaved == Some(q.expectedRuntime.of)
  {
    NewDiffersFromOld(q, Release);
    NewDiffersFromOld(q, Runtime);
    if i > 0 {
      RunsKeepTheInvariant(q, disks, i - 1);
      assert SoloStep(q, disks[i - 1], disks[i]);
    }
  }

  /** Exactly the disks from which an undisturbed, uninterrupted run succeeds. */
  predicate CanPublish(q: Request, d: Disk) {
    && q.PredecessorsBound()
    && SnapshotUsable(q, d, Release) && SnapshotUsable(q, d, Runtime)
    && (d.release == q.Before(Release) || d.release == q.After(Release))
    && (d.runtime == q.Before(Runtime) || d.runtime == q.After(Runtime))
    && (d.receipt == None || d.receipt == Some(q.ReceiptBytes()))
  }

  /** These disks in plain terms: each pointer holds its reviewed predecessor or the new bytes, each
      snapshot the exact predecessor, or is still to be taken of it, and no other receipt is there. */
  lemma PublishableDisks(q: Request, d: Disk)
    ensures CanPublish(q, d) <==>
      && q.PredecessorsBound()
      && (d.release == q.expectedRelease.of || d.release == Done(q).release)
      && (d.runtime == q.expectedRuntime.of || d.runtime == Done(q).runtime)
      && (d.releaseSaved == Some(q.expectedRelease.of) ||
          (d.releaseSaved == None && d.release == q.expectedRelease.of))
      && (d.runtimeSaved == Some(q.expectedRuntime.of) ||
          (d.runtimeSaved == None && d.runtime == q.expectedRuntime.of))
      && (d.receipt == None || d.receipt == Done(q).receipt)
  {
    assert d.Saved(Release) == d.releaseSaved && d.Saved(Runtime) == d.runtimeSaved;
    assert d.Current(Release) == d.release && d.Current(Runtime) == d.runtime;
  }

  /** Every disk that runs can leave behind lets a further run succeed, unless a creation
      was cut off before its bytes were written; then every further run fails closed. */
  lemma RunsConvergeUnlessTorn(q: Request, disks: seq<Disk>)
    requires Runs(q, disks) && q.PredecessorsBound()
    ensures CanPublish(q, disks[|disks| - 1]) <==> !Torn(disks[|disks| - 1])
  {
    RunsKeepTheInvariant(q, disks, |disks| - 1);
    var d := disks[|disks| - 1];
    assert d.Saved(Release) == d.releaseSaved && d.Saved(Runtime) == d.runtimeSaved;
    assert SnapshotUsable(q, d, Release) <==> d.releaseSaved != Some(Partial);
    assert SnapshotUsable(q, d, Runtime) <==> d.runtimeSaved != Some(Partial);
    assert q.Before(Release) != Partial && q.Before(Runtime) != Partial;
  }

  /** Solo writes that lead from one disk to another. */
  ghost predicate SoloChain(q: Request, start: Disk, writes: seq<(Disk, Disk)>, end: Disk) {
    && (forall i :: 0 <= i < |writes| ==> SoloStep(q, writes[i].0, writes[i].1))
    && (forall i :: 0 < i < |writes| ==> writes[i].0 == writes[i - 1].1)
    && (if |writes| == 0 then start == end else writes[0].0 == start && writes[|writes| - 1].1 == end)
  }

  /** The writes of one more run, whole or cut off, extend a history of runs. */
  lemma RunsExtend(q: Request, disks: seq<Disk>, writes: seq<(Disk, Disk)>, end: Disk)
    requires Runs(q, disks) && SoloChain(q, disks[|disks| - 1], writes, end)
    ensures var more := disks + seq(|writes|, i requires 0 <= i < |writes| => writes[i].1);
      Runs(q, more) && more[|more| - 1] == end
  {
    var more := disks + seq(|writes|, i requires 0 <= i < |writes| => writes[i].1);
    forall i | |disks| <= i < |more| ensures SoloStep(q, more[i - 1], more[i]) {
      var j := i - |disks|;
      assert more[i] == writes[j].1 && more[i - 1] == writes[j].0;
    }
  }

  // ------------------------------------------------------------ the program

  /** What the rest of the system answers during one run. */
  datatype Answers = Answers(packetAccepted: bool, inventoryMatches: bool, healthVerified: bool) {
    predicate Positive() { packetAccepted && inventoryMatches && healthVerified }
  }

  /** Where the guarded part raises, if it does. */
  datatype Fault = NoFault | BeforeRuntime | AfterRuntime | BeforeRelease | AfterRelease

  datatype Outcome = Published | AlreadyComplete | Refused | Failed | Crashed {
    predicate Succeeded() { Published? || AlreadyComplete? }
  }

  class Store {
    var disk: Disk
    /** The disk before and after each atomic write of this program. */
    ghost var writes: seq<(Disk, Disk)>
    /** Where the current run began. */
    ghost var start: Disk
    ghost var mark: nat

    /** A receipt stands only over two new pointers. */
    ghost predicate BeganProper(q: Request)
      reads this
    {
      start.receipt != None ==> BothNew(q, start)
    }

    /** The current run took only protocol steps; when it is alone they are solo steps and
        account for every change of the disk. */
    ghost predicate Wrote(q: Request, alone: bool)
      reads this
    {
      && mark <= |writes|
      && (forall i :: mark <= i < |writes| ==> Step(q, writes[i].0, writes[i].1))
      && (alone && BeganProper(q) ==> SoloChain(q, start, writes[mark..], disk))
    }

    /** Others may put any bytes at the two pointers. */
    method Interfere(ghost q: Request, alone: bool)
      modifies this`disk
      ensures alone ==> disk == old(disk)
      ensures disk == old(disk).(release := disk.release, runtime := disk.runtime)
      ensures old(Wrote(q, alone)) ==> Wrote(q, alone)
    {
      var release: Bytes := *;
      var runtime: Bytes := *;
      if !alone {
        disk := disk.(release := release, runtime := runtime);
      }
    }

    /** Whether the process dies here. */
    method CutOff(crashes: bool) returns (cut: bool)
      ensures cut ==> crashes
    {
      var dies: bool := *;
      cut := crashes && dies;
    }

    /** One atomic write. */
    method Put(d: Disk, ghost q: Request, ghost alone: bool)
      requires Wrote(q, alone)
      modifies this`disk, this`writes
      ensures disk == d
      ensures Step(q, old(disk), d) && (alone && BeganProper(q) ==> SoloStep(q, old(disk), d)) ==> Wrote(q, alone)
      ensures writes == old(writes) + [(old(disk), d)]
    {
      ghost var run := writes[mark..];
      writes := writes + [(disk, d)];
      assert writes[mark..] == run + [(disk, d)];
      disk := d;
    }
  }

  /** Create a predecessor snapshot exclusively and write it; an existing one must be exact. */
  method SaveSnapshot(s: Store, q: Request, k: Kind, alone: bool, crashes: bool) returns (r: Outcome)
    requires s.Wrote(q, alone) && (alone && s.BeganProper(q) && s.disk.receipt != None ==> BothNew(q, s.disk))
    modifies s`disk, s`writes
    ensures old(s.writes) <= s.writes
    ensures s.Wrote(q, alone)
    ensures r.Succeeded() ==> s.disk.Saved(k) == Some(q.Before(k))
    ensures r.Succeeded() || r.Refused? || (crashes && r.Crashed?)
    ensures s.disk == old(s.disk).(release := s.disk.release, runtime := s.disk.runtime,
                                   releaseSaved := s.disk.releaseSaved, runtimeSaved := s.disk.runtimeSaved)
    ensures forall j: Kind :: j != k ==> s.disk.Saved(j) == old(s.disk).Saved(j)
    ensures alone ==> s.disk.BothAre(old(s.disk).release, old(s.disk).runtime)
    ensures alone && r.Succeeded() ==> SnapshotUsable(q, old(s.disk), k)
    ensures alone && r.Refused? ==> s.disk == old(s.disk)
    ensures !crashes && alone ==> (r.Succeeded() <==> SnapshotUsable(q, old(s.disk), k))
  {
    NewDiffersFromOld(q, k);
    s.Interfere(q, alone);
    if s.disk.Saved(k) != None {
      return if s.disk.Saved(k) == Some(q.Before(k)) then Published else Refused;
    }
    if s.disk.Current(k) != q.Before(k) { return Refused; }
    assert SavesStep(q, s.disk, s.disk.Save(k, Partial), k);
    s.Put(s.disk.Save(k, Partial), q, alone);
    var cut := s.CutOff(crashes);
    if cut { return Crashed; }
    s.Interfere(q, alone);
    assert SavesStep(q, s.disk, s.disk.Save(k, q.Before(k)), k);
    s.Put(s.disk.Save(k, q.Before(k)), q, alone);
    cut := s.CutOff(crashes);
    r := if cut then Crashed else Published;
  }

  /** Move the runtime pointer, then the release pointer, each only from its reviewed
      predecessor; an exception takes back what is still ours. */
  method SwapPointers(s: Store, q: Request, fault: Fault, alone: bool, crashes: bool) returns (r: Outcome)
    requires s.Wrote(q, alone) && Snapshotted(q, s.disk)
    requires alone && s.BeganProper(q) ==> s.disk.receipt == None
    requires alone ==> BothOld(q, s.disk)
    modifies s`disk, s`writes
    ensures old(s.writes) <= s.writes
    ensures s.Wrote(q, alone)
    ensures s.disk == old(s.disk).(release := s.disk.release, runtime := s.disk.runtime)
    ensures r.Published? || r.Failed? || (crashes && r.Crashed?)
    ensures alone && r.Published? ==> fault == NoFault && BothNew(q, s.disk)
    ensures alone && r.Failed? ==> fault != NoFault && s.disk == old(s.disk)
  {
    NewDiffersFromOld(q, Release);
    NewDiffersFromOld(q, Runtime);
    var pointedRuntime, pointedRelease, cut := false, false, false;
    r := Failed;
    s.Interfere(q, alone);
    if fault != BeforeRuntime && s.disk.runtime == q.Before(Runtime) {
      cut := Point(s, q, Runtime, q.After(Runtime), alone, crashes);
      if cut { return Crashed; }
      pointedRuntime := true;
      s.Interfere(q, alone);
      if fault != AfterRuntime && fault != BeforeRelease && s.disk.release == q.Before(Release) {
        cut := Point(s, q, Release, q.After(Release), alone, crashes);
        if cut { return Crashed; }
        pointedRelease := true;
        s.Interfere(q, alone);
        if fault != AfterRelease && BothNew(q, s.disk) { return Published; }
      }
    }
    cut := TakeBack(s, q, pointedRuntime, pointedRelease, alone, crashes);
    if cut { r := Crashed; }
  }

  /** The `except` clause: the release pointer first, then the runtime pointer, each only if
      it still holds what this run put there. */
  method TakeBack(s: Store, q: Request, pointedRuntime: bool, pointedRelease: bool, alone: bool, crashes: bool)
    returns (cut: bool)
    requires s.Wrote(q, alone) && Snapshotted(q, s.disk)
    requires alone && s.BeganProper(q) ==> s.disk.receipt == None
    requires alone && s.disk.release == q.After(Release) ==> pointedRelease || !pointedRuntime
    modifies s`disk, s`writes
    ensures old(s.writes) <= s.writes
    ensures s.Wrote(q, alone) && (cut ==> crashes)
    ensures s.disk == old(s.disk).(release := s.disk.release, runtime := s.disk.runtime)
    ensures alone && !cut ==>
      && s.disk.release ==
        (if pointedRelease && old(s.disk).release == q.After(Release) then q.Before(Release) else old(s.disk).release)
      && s.disk.runtime ==
        (if pointedRuntime && old(s.disk).runtime == q.After(Runtime) then q.Before(Runtime) else old(s.disk).runtime)
  {
    NewDiffersFromOld(q, Release);
    NewDiffersFromOld(q, Runtime);
    cut := false;
    s.Interfere(q, alone);
    if pointedRelease && s.disk.release == q.After(Release) {
      cut := Point(s, q, Release, q.Before(Release), alone, crashes);
      if cut { return; }
    }
    s.Interfere(q, alone);
    if pointedRuntime && s.disk.runtime == q.After(Runtime) {
      cut := Point(s, q, Runtime, q.Before(Runtime), alone, crashes);
    }
  }

  /** Replace one pointer, from the one reviewed value to the other. */
  method Point(s: Store, q: Request, k: Kind, bytes: Bytes, alone: bool, crashes: bool) returns (cut: bool)
    requires s.Wrote(q, alone) && Snapshotted(q, s.disk)
    requires (bytes == q.After(k) && s.disk.Current(k) == q.Before(k)) ||
      (bytes == q.Before(k) && s.disk.Current(k) == q.After(k))
    requires alone && s.BeganProper(q) ==> s.disk.receipt == None
    requires alone && k.Release? && bytes == q.After(Release) ==> s.disk.runtime == q.After(Runtime)
    requires alone && k.Runtime? && bytes == q.Before(Runtime) ==> s.disk.release != q.After(Release)
    modifies s`disk, s`writes
    ensures old(s.writes) <= s.writes
    ensures s.Wrote(q, alone) && s.disk == old(s.disk).Point(k, bytes)
    ensures cut ==> crashes
  {
    NewDiffersFromOld(q, k);
    assert PointsStep(q, s.disk, s.disk.Point(k, bytes), k);
    s.Put(s.disk.Point(k, bytes), q, alone);
    cut := s.CutOff(crashes);
  }

  predicate SnapshotUsable(q: Request, d: Disk, k: Kind) {
    if d.Saved(k) == None then d.Current(k) == q.Before(k) else d.Saved(k) == Some(q.Before(k))
  }

  /** Create the receipt exclusively and write it; an existing one must be exact. */
  method SaveReceipt(s: Store, q: Request, alone: bool, crashes: bool) returns (r: Outcome)
    requires s.Wrote(q, alone)
    requires alone ==> BothNew(q, s.disk)
    modifies s`disk, s`writes
    ensures old(s.writes) <= s.writes
    ensures s.Wrote(q, alone)
    ensures r.Published? || r.Refused? || (crashes && r.Crashed?)
    ensures r.Published? ==> s.disk.receipt == Some(q.ReceiptBytes())
    ensures r.Refused? <==> old(s.disk).receipt != None && old(s.disk).receipt != Some(q.ReceiptBytes())
    ensures s.disk == old(s.disk).(release := s.disk.release, runtime := s.disk.runtime, receipt := s.disk.receipt)
    ensures alone ==> BothNew(q, s.disk)
    ensures r.Refused? || old(s.disk).receipt != None ==> s.disk.receipt == old(s.disk).receipt
  {
    s.Interfere(q, alone);
    if s.disk.receipt != None {
      return if s.disk.receipt == Some(q.ReceiptBytes()) then Published else Refused;
    }
    s.Put(s.disk.(receipt := Some(Partial)), q, alone);
    var cut := s.CutOff(crashes);
    if cut { return Crashed; }
    s.Interfere(q, alone);
    s.Put(s.disk.(receipt := Some(q.ReceiptBytes())), q, alone);
    cut := s.CutOff(crashes);
    r := if cut then Crashed else Published;
  }

  /** A pointer that no longer holds the half-published bytes is not for this program to
      replace: such a write is no protocol step. */
  lemma RestoringOverOthersIsNoStep(q: Request, d: Disk, k: Kind)
    requires d.Current(k) != q.After(k) && q.PredecessorsBound()
    ensures !Step(q, d, d.Point(k, q.Before(k)))
  {
    NewDiffersFromOld(q, k);
    var d' := d.Point(k, q.Before(k));
    forall j: Kind ensures !SavesStep(q, d, d', j) && !PointsStep(q, d, d', j) {
      NewDiffersFromOld(q, j);
      assert d'.Saved(j) == d.Saved(j) && q.Before(j) != Partial;
      assert d.Save(j, Partial).Saved(j) == Some(Partial) && d.Save(j, q.Before(j)).Saved(j) == Some(q.Before(j));
      assert j != k ==> d'.Current(j) == d.Current(j);
      assert d.Point(j, q.After(j)).Current(j) == q.After(j) && d.Point(j, q.Before(j)).Current(j) == q.Before(j);
    }
  }

  /** Give the half-published pointer its predecessor back.  The pointer was read before the
      health check, and is not read again. */
  method RestoreHalf(s: Store, q: Request, k: Kind, alone: bool, crashes: bool)
    returns (cut: bool, ghost overwritten: Option<(Kind, Bytes)>)
    requires s.Wrote(q, alone) && Snapshotted(q, s.disk)
    requires alone ==> s.disk.Current(k) == q.After(k) && (s.BeganProper(q) ==> s.disk.receipt == None)
    requires alone && k.Runtime? ==> s.disk.release != q.After(Release)
    modifies s
    ensures s.Wrote(q, alone) && (cut ==> crashes)
    ensures s.disk == old(s.disk).Point(k, q.Before(k))
    // The bytes of someone else are replaced exactly when they are there.
    ensures overwritten == if old(s.disk).Current(k) == q.After(k) then None else Some((k, old(s.disk).Current(k)))
    ensures overwritten.None? ==> s.mark == old(s.mark) && s.start == old(s.start)
    ensures overwritten.Some? ==> Overwrote(s, q, old(s.writes), overwritten.value)
    ensures old(s.writes) <= s.writes
  {
    overwritten := if s.disk.Current(k) == q.After(k) then None else Some((k, s.disk.Current(k)));
    assert overwritten == None ==> PointsStep(q, s.disk, s.disk.Point(k, q.Before(k)), k);
    NewDiffersFromOld(q, k);
    s.Put(s.disk.Point(k, q.Before(k)), q, alone);
    if overwritten.Some? {
      s.start, s.mark := s.disk, |s.writes|;
    }
    cut := s.CutOff(crashes);
  }

  /** The first write after those replaced bytes that this program had not put there, and the mark
      is set behind it. */
  ghost predicate Overwrote(s: Store, q: Request, before: seq<(Disk, Disk)>, lost: (Kind, Bytes))
    reads s
  {
    && |before| + 1 == s.mark <= |s.writes|
    && s.writes[|before|].0.Current(lost.0) == lost.1 != q.After(lost.0)
    && s.writes[|before|].1 == s.writes[|before|].0.Point(lost.0, q.Before(lost.0))
  }

  /** Secure both predecessors and check that they belong together. */
  method Prepare(s: Store, q: Request, a: Answers, alone: bool, crashes: bool) returns (r: Outcome)
    requires s.Wrote(q, alone) && (s.BeganProper(q) && s.disk.receipt != None && alone ==> BothNew(q, s.disk))
    modifies s`disk, s`writes
    ensures old(s.writes) <= s.writes && s.Wrote(q, alone)
    ensures r.Succeeded() || r.Refused? || (crashes && r.Crashed?)
    ensures r.Succeeded() ==> Snapshotted(q, s.disk) && q.PredecessorsBound() && a.inventoryMatches
    ensures alone ==> s.disk.BothAre(old(s.disk).release, old(s.disk).runtime)
    ensures s.disk.receipt == old(s.disk).receipt
    ensures alone && r.Succeeded() ==>
      SnapshotUsable(q, old(s.disk), Release) && SnapshotUsable(q, old(s.disk), Runtime)
    ensures alone && !crashes && r.Refused? ==>
      !(a.packetAccepted && a.inventoryMatches && q.PredecessorsBound()
        && SnapshotUsable(q, old(s.disk), Release) && SnapshotUsable(q, old(s.disk), Runtime))
  {
    if !a.packetAccepted { return Refused; }
    r := SaveSnapshot(s, q, Release, alone, crashes);
    if !r.Succeeded() { return; }
    assert s.disk.Saved(Runtime) == old(s.disk).Saved(Runtime);
    r := SaveSnapshot(s, q, Runtime, alone, crashes);
    if !r.Succeeded() { return; }
    assert s.disk.Saved(Release) == Some(q.Before(Release));
    r := if q.PredecessorsBound() && a.inventoryMatches then Published else Refused;
  }

  /** The pointer that a run found half-published, from the two pointers as they were read. */
  function HalfPublished(q: Request, release: Bytes, runtime: Bytes): Option<Kind> {
    if release == q.Before(Release) && runtime == q.After(Runtime) then Some(Runtime)
    else if release == q.After(Release) && runtime == q.Before(Runtime) then Some(Release)
    else None
  }

  /** What the recovery branch replaces unseen: the bytes at a pointer that was read as half-published
      and no longer holds what was read. */
  function Lost(q: Request, release: Bytes, runtime: Bytes, d: Disk): Option<(Kind, Bytes)> {
    var half := HalfPublished(q, release, runtime);
    if half.Some? && d.Current(half.value) != q.After(half.value)
    then Some((half.value, d.Current(half.value))) else None
  }

  /** Foreign bytes can be lost: from every disk with one half-published pointer, whatever another
      actor puts there after the reading and before the replacement. */
  lemma ForeignBytesAreLost(q: Request, read: Disk, k: Kind, foreign: Bytes)
    requires HalfPublished(q, read.release, read.runtime) == Some(k) && foreign != q.After(k)
    ensures var found := read.Point(k, foreign);
      && Lost(q, read.release, read.runtime, found) == Some((k, foreign))
      && (q.PredecessorsBound() ==> !Step(q, found, found.Point(k, q.Before(k))))
  {
    NewDiffersFromOld(q, Release);
    NewDiffersFromOld(q, Runtime);
    if q.PredecessorsBound() {
      RestoringOverOthersIsNoStep(q, read.Point(k, foreign), k);
    }
  }

  /** From the two pointers as they were read: restore a half-published one, swap both, and
      write the receipt. */
  method Advance(s: Store, q: Request, release: Bytes, runtime: Bytes, fault: Fault, alone: bool, crashes: bool)
    returns (r: Outcome, ghost overwritten: Option<(Kind, Bytes)>)
    requires s.Wrote(q, alone) && Snapshotted(q, s.disk)
    requires alone ==> s.disk.BothAre(release, runtime) && (s.BeganProper(q) ==> s.disk.receipt == None)
    requires !(release == q.After(Release) && runtime == q.After(Runtime))
    modifies s
    ensures s.Wrote(q, alone) && old(s.writes) <= s.writes
    // The pointer that was read as half-published gets its predecessor back; whatever else it holds
    // by now is replaced unseen.
    ensures overwritten == Lost(q, release, runtime, old(s.disk))
    ensures overwritten.None? ==> s.start == old(s.start) && s.mark == old(s.mark)
    ensures overwritten.Some? ==> Overwrote(s, q, old(s.writes), overwritten.value)
    ensures r.Published? || r.Refused? || r.Failed? || (crashes && r.Crashed?)
    ensures alone && r.Published? ==>
      HalfOrOld(q, release, runtime) && s.disk == Done(q) && old(s.disk).receipt in {None, Some(q.ReceiptBytes())}
    ensures alone && r.Failed? ==> fault != NoFault && BothOld(q, s.disk) && s.disk.receipt == old(s.disk).receipt
    ensures alone && r.Refused? ==>
      if HalfOrOld(q, release, runtime)
      then BothNew(q, s.disk) && old(s.disk).receipt !in {None, Some(q.ReceiptBytes())}
      else s.disk == old(s.disk)
  {
    NewDiffersFromOld(q, Release);
    NewDiffersFromOld(q, Runtime);
    overwritten := None;
    var cut := false;
    var half := HalfPublished(q, release, runtime);
    if half.Some? {
      cut, overwritten := RestoreHalf(s, q, half.value, alone, crashes);
    } else if release != q.Before(Release) || runtime != q.Before(Runtime) {
      return Refused, None;
    }
    if cut { r := Crashed; return; }
    r := SwapPointers(s, q, fault, alone, crashes);
    if r.Published? {
      r := SaveReceipt(s, q, alone, crashes);
    }
  }

  /** Each pointer holds one of its reviewed values. */
  predicate HalfOrOld(q: Request, release: Bytes, runtime: Bytes) {
    (release == q.Before(Release) || release == q.After(Release)) &&
      (runtime == q.Before(Runtime) || runtime == q.After(Runtime))
  }

  /** With both predecessors secure: read the pointers, then complete the receipt or advance. */
  method Decide(s: Store, q: Request, a: Answers, fault: Fault, alone: bool, crashes: bool)
    returns (r: Outcome, ghost overwritten: Option<(Kind, Bytes)>, ghost reached: Option<(Disk, Disk)>)
    requires s.Wrote(q, alone) && Snapshotted(q, s.disk)
    requires alone && s.BeganProper(q) && s.disk.receipt != None ==> BothNew(q, s.disk)
    modifies s
    ensures s.Wrote(q, alone) && old(s.writes) <= s.writes
    ensures overwritten.None? ==> s.start == old(s.start) && s.mark == old(s.mark)
    ensures overwritten.Some? ==> Overwrote(s, q, old(s.writes), overwritten.value)
    ensures overwritten == if reached.None? then None
      else Lost(q, reached.value.0.release, reached.value.0.runtime, reached.value.1)
    ensures alone ==> overwritten.None?
    ensures r.Crashed? ==> crashes
    ensures alone && r.Succeeded() ==>
      && HalfOrOld(q, old(s.disk).release, old(s.disk).runtime) && s.disk == Done(q)
      && old(s.disk).receipt in {None, Some(q.ReceiptBytes())}
    ensures alone ==> (r.AlreadyComplete? ==> BothNew(q, old(s.disk))) && (r.Published? ==> !BothNew(q, old(s.disk)))
    ensures alone && r.Failed? ==>
      fault != NoFault && !BothNew(q, old(s.disk)) && BothOld(q, s.disk) && s.disk.receipt == old(s.disk).receipt
    ensures alone && r.Refused? ==>
      || (BothNew(q, s.disk) && old(s.disk).receipt !in {None, Some(q.ReceiptBytes())})
      || (s.disk == old(s.disk) && !BothNew(q, s.disk)
          && (!a.healthVerified || !HalfOrOld(q, s.disk.release, s.disk.runtime)))
  {
    overwritten, reached := None, None;
    s.Interfere(q, alone);
    ghost var read := s.disk;
    var release, runtime := s.disk.release, s.disk.runtime;
    var complete := release == q.After(Release) && runtime == q.After(Runtime);
    if !complete && !a.healthVerified { return Refused, None, None; }
    s.Interfere(q, alone);
    if complete {
      r := SaveReceipt(s, q, alone, crashes);
      if r.Published? { r := AlreadyComplete; }
    } else {
      reached := Some((read, s.disk));
      r, overwritten := Advance(s, q, release, runtime, fault, alone, crashes);
    }
  }

  /** One run of the program.  `alone` says that nobody else touches the pointers, `crashes`
      that the process may die after any atomic write. */
  method Publish(s: Store, q: Request, a: Answers, fault: Fault, alone: bool, crashes: bool)
    returns (r: Outcome, ghost overwritten: Option<(Kind, Bytes)>, ghost reached: Option<(Disk, Disk)>)
    modifies s
    ensures s.Wrote(q, alone) && old(s.writes) <= s.writes
    // Alone, from a disk whose receipt, if any, stands over two new pointers, they continue the history.
    ensures alone && (old(s.disk).receipt == None || BothNew(q, old(s.disk))) ==>
      SoloChain(q, old(s.disk), s.writes[|old(s.writes)|..], s.disk)
    // Every write of the run is a step of the protocol, apart from the one that is reported.
    ensures forall i | |old(s.writes)| <= i < |s.writes| && (overwritten.None? || i != s.mark - 1) ::
      Step(q, s.writes[i].0, s.writes[i].1)
    ensures overwritten.Some? ==>
      && |old(s.writes)| < s.mark <= |s.writes|
      && var ((found, left), (k, bytes)) := (s.writes[s.mark - 1], overwritten.value);
      && bytes != q.After(k)
      && (k.Release? ==> found.release == bytes && left == found.(release := q.expectedRelease.of))
      && (k.Runtime? ==> found.runtime == bytes && left == found.(runtime := q.expectedRuntime.of))
    // That one is decided by the disk as it was read and the disk that the recovery found.
    ensures overwritten == if reached.None? then None
      else Lost(q, reached.value.0.release, reached.value.0.runtime, reached.value.1)
    ensures alone ==> overwritten.None?
    ensures r.Crashed? ==> crashes
    // An uninterrupted run succeeds exactly on the publishable disks, and then leaves exactly the finished one.
    ensures alone && !crashes && fault == NoFault && a.Positive() ==> (r.Succeeded() <==> CanPublish(q, old(s.disk)))
    ensures alone && r.Succeeded() ==> CanPublish(q, old(s.disk)) && s.disk == Done(q)
    ensures alone ==> (r.AlreadyComplete? ==> BothNew(q, old(s.disk))) && (r.Published? ==> !BothNew(q, old(s.disk)))
    // Once both pointers are new the health answer is not asked for again.
    ensures alone && !crashes && a.packetAccepted && a.inventoryMatches && BothNew(q, old(s.disk)) ==>
      (r.AlreadyComplete? <==> CanPublish(q, old(s.disk)))
    // An exception takes both pointers back.
    ensures alone && r.Failed? ==> BothOld(q, s.disk) && s.disk.receipt == old(s.disk).receipt
    // A refused run moves no pointer forward, unless all it objects to is the receipt.
    ensures alone && r.Refused? && !s.disk.BothAre(old(s.disk).release, old(s.disk).runtime) ==>
      BothNew(q, s.disk) && old(s.disk).receipt != None && old(s.disk).receipt != Some(q.ReceiptBytes())
  {
    overwritten, reached := None, None;
    s.start, s.mark := s.disk, |s.writes|;
    r := Prepare(s, q, a, alone, crashes);
    if !r.Succeeded() { return; }
    ghost var past := s.writes;
    r, overwritten, reached := Decide(s, q, a, fault, alone, crashes);
    assert overwritten.Some? ==> s.writes[..|past|] == past;
  }

  /** One publication after another: both succeed, and the second one's files belong together over the
      first one's pointers.  Each publication has its own snapshots and its own receipt. */
  method PublishInTurn(s: Store, q: Request, next: Request, a: Answers) returns (first: Outcome, second: Outcome)
    requires s.disk == Disk(q.expectedRelease.of, q.expectedRuntime.of, None, None, None) && q.PredecessorsBound()
    requires next.expectedRelease == Sha(Done(q).release) && next.expectedRuntime == Sha(Done(q).runtime)
    requires a.packetAccepted && a.inventoryMatches && a.healthVerified
    modifies s
    ensures first == Published && second == Published
    ensures s.disk == Done(next)
    ensures s.disk.releaseSaved == Some(Done(q).release) && s.disk.runtimeSaved == Some(Done(q).runtime)
  {
    NewDiffersFromOld(q, Release);
    NewDiffersFromOld(next, Release);
    PublicationsChain(q, next);
    ghost var lost;
    ghost var reached;
    first, lost, reached := Publish(s, q, a, NoFault, true, false);
    s.disk := Disk(s.disk.release, s.disk.runtime, None, None, None);
    second, lost, reached := Publish(s, next, a, NoFault, true, false);
  }
}
