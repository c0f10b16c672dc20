/** The two release pointers of a fleet switch, the publication worker's binding to them, and
    the gate that reads all three. Writes are atomic and may be cut off between any two; SHA-256
    is the constructor `Sha`, so it is injective and no document holds its own digest. */
module PointerSwitch {
  import opened Wrappers

  const RELEASE_SCHEMA := "dalton-current-release-0.2"
  const RUNTIME_SCHEMA := "dalton-runtime-config-pointer-0.2"
  const DEPLOYED := "deployed_verified"

  /** The fields that a switch does not manage. */
  type Rest = map<string, string>

  /** `Opaque` is a digest of anything but a runtime or release pointer. */
  datatype Digest = Sha(runtime: Runtime) | ShaRelease(release: Release) | Opaque(id: string)

  /** The runtime pointer; an absent field reads as the empty string, an absent time as 0. */
  datatype Runtime = Runtime(schema: string, status: string, at: int, commit: string, manifest: string,
                             prior: Option<Digest>, rest: Rest)

  datatype Release = Release(schema: string, status: string, ref: string, commit: string, manifest: string,
                             current: Option<Digest>, previous: Option<Digest>, at: int, rest: Rest)

  datatype Gate = Gate(ref: string, commit: string)

  /** The values of one switch. */
  datatype Plan = Plan(ref: string, commit: string, manifest: string)

  // ------------------------------------------------------------ the gate

  predicate Hex(s: string, length: nat) {
    |s| == length && forall c | c in s :: '0' <= c <= '9' || 'a' <= c <= 'f'
  }

  predicate Digits(s: string) {
    s != [] && forall c | c in s :: '0' <= c <= '9'
  }

  predicate RefFormat(ref: string) {
    var (foundation, sha) := ("foundation-r", "release:sha256:");
    || (foundation <= ref && Digits(ref[|foundation|..]))
    || (foundation <= ref && |ref| > |foundation| && 'a' <= ref[|ref| - 1] <= 'z' &&
      Digits(ref[|foundation|..|ref| - 1]))
    || (sha <= ref && Hex(ref[|sha|..], 64))
  }

  /** The grammar of a reference: a foundation revision with at most one letter, or the digest of a
      release. */
  lemma RefGrammar(ref: string)
    ensures RefFormat(ref) <==>
      || (exists d :: ref == "foundation-r" + d && d != "" && forall c | c in d :: '0' <= c <= '9')
      || (exists d, l ::
            && ref == "foundation-r" + d + [l] && d != ""
            && 'a' <= l <= 'z' && forall c | c in d :: '0' <= c <= '9')
      || (exists h ::
            && ref == "release:sha256:" + h && |h| == 64
            && forall c | c in h :: '0' <= c <= '9' || 'a' <= c <= 'f')
  {
    var (foundation, sha) := ("foundation-r", "release:sha256:");
    if foundation <= ref {
      assert ref == foundation + ref[|foundation|..];
      if |ref| > |foundation| {
        assert ref == foundation + ref[|foundation|..|ref| - 1] + [ref[|ref| - 1]];
      }
    }
    if sha <= ref {
      assert ref == sha + ref[|sha|..];
    }
    forall d, l | ref == foundation + d + [l] ensures ref[|foundation|..|ref| - 1] == d && ref[|ref| - 1] == l {}
    forall d | ref == foundation + d ensures ref[|foundation|..] == d {}
    forall h | ref == sha + h ensures ref[|sha|..] == h {}
  }

  /** The gate is active. */
  predicate Open(g: Gate, release: Option<Release>, runtime: Option<Runtime>) {
    && Hex(g.commit, 40) && RefFormat(g.ref)
    && release.Some? && runtime.Some?
    && release.value.schema == RELEASE_SCHEMA && runtime.value.schema == RUNTIME_SCHEMA
    && release.value.status == DEPLOYED && runtime.value.status == DEPLOYED
    && release.value.ref == g.ref && release.value.commit == g.commit && runtime.value.commit == g.commit
    && release.value.current == Some(Sha(runtime.value))
    && Hex(release.value.manifest, 64)
    && runtime.value.manifest == release.value.manifest
  }

  /** The gates that are active, and the pointers under which they are: two verified documents of one
      commit and one manifest, of which the release names the other by its digest. */
  lemma ActivePointers(g: Gate, release: Release, runtime: Runtime)
    ensures Open(g, Some(release), Some(runtime)) <==>
      && runtime == Runtime("dalton-runtime-config-pointer-0.2", "deployed_verified", runtime.at, g.commit,
                            release.manifest, runtime.prior, runtime.rest)
      && release == Release("dalton-current-release-0.2", "deployed_verified", g.ref, g.commit, release.manifest,
                            Some(Sha(runtime)), release.previous, release.at, release.rest)
      && RefFormat(g.ref) && |g.commit| == 40 && |release.manifest| == 64
      && (forall c | c in g.commit :: '0' <= c <= '9' || 'a' <= c <= 'f')
      && (forall c | c in release.manifest :: '0' <= c <= '9' || 'a' <= c <= 'f')
    ensures !Open(g, None, Some(runtime)) && !Open(g, Some(release), None) && !Open(g, None, None)
  {
  }

  // ------------------------------------------------------------ history

  /** How many runtime pointers a digest has behind it. */
  function Depth(d: Option<Digest>): nat {
    if d.Some? && d.value.Sha? then 1 + Depth(d.value.runtime.prior) else 0
  }

  function RuntimeDepth(runtime: Option<Runtime>): nat {
    if runtime.None? then 0 else 1 + Depth(runtime.value.prior)
  }

  function DigestOf(runtime: Option<Runtime>): Option<Digest> {
    if runtime.None? then None else Some(Sha(runtime.value))
  }

  function DigestOfRelease(release: Option<Release>): Option<Digest> {
    if release.None? then None else Some(ShaRelease(release.value))
  }

  /** Each document names the digest of the one before it. */
  ghost predicate RuntimesLinked(log: seq<Runtime>, first: Option<Runtime>) {
    forall i | 0 <= i < |log| :: log[i].prior == DigestOf(Latest(log[..i], first))
  }

  ghost predicate ReleasesLinked(log: seq<Release>, first: Option<Release>) {
    forall i | 0 <= i < |log| :: log[i].previous == DigestOfRelease(Latest(log[..i], first))
  }

  function Latest<T>(log: seq<T>, first: Option<T>): Option<T> {
    if log == [] then first else Some(log[|log| - 1])
  }

  lemma RuntimesLinkedNext(log: seq<Runtime>, first: Option<Runtime>, next: Runtime)
    requires RuntimesLinked(log, first) && next.prior == DigestOf(Latest(log, first))
    ensures RuntimesLinked(log + [next], first)
  {
    assert forall i | 0 <= i <= |log| :: (log + [next])[..i] == log[..i];
    assert log[..|log|] == log;
  }

  lemma ReleasesLinkedNext(log: seq<Release>, first: Option<Release>, next: Release)
    requires ReleasesLinked(log, first) && next.previous == DigestOfRelease(Latest(log, first))
    ensures ReleasesLinked(log + [next], first)
  {
    assert forall i | 0 <= i <= |log| :: (log + [next])[..i] == log[..i];
    assert log[..|log|] == log;
  }

  /** The runtime pointer that a switch writes. */
  function NextRuntime(plan: Plan, at: int, runtime: Option<Runtime>): Runtime {
    Runtime(RUNTIME_SCHEMA, DEPLOYED, at, plan.commit, plan.manifest, DigestOf(runtime),
            if runtime.Some? then runtime.value.rest else map[])
  }

  /** The release names a runtime pointer before it is written, and agrees with it in all that
      the gate compares. */
  predicate Foretells(release: Option<Release>, next: Runtime) {
    && release.Some? && release.value.current == Some(Sha(next))
    && release.value.schema == RELEASE_SCHEMA && release.value.status == DEPLOYED
    && release.value.commit == next.commit && Hex(next.commit, 40) && RefFormat(release.value.ref)
    && release.value.manifest == next.manifest && Hex(next.manifest, 64)
  }

  /** The gates active on a new runtime pointer under an old release pointer. */
  lemma OpenUnderOld(release: Option<Release>, next: Runtime)
    requires next.schema == RUNTIME_SCHEMA && next.status == DEPLOYED
    ensures forall g :: Open(g, release, Some(next)) <==>
      Foretells(release, next) && g == Gate(release.value.ref, next.commit)
  {
  }

  /** The release pointer that a switch writes over the new runtime pointer. */
  function NextRelease(plan: Plan, verifiedAt: int, next: Runtime, release: Option<Release>): Release {
    Release(RELEASE_SCHEMA, DEPLOYED, plan.ref, plan.commit, plan.manifest, Some(Sha(next)), DigestOfRelease(release),
            verifiedAt, if release.Some? then release.value.rest else map[])
  }

  /** The gates active on both new pointers. */
  lemma OpenOnBoth(plan: Plan, at: int, verifiedAt: int, runtime: Option<Runtime>, release: Option<Release>)
    ensures var next := NextRuntime(plan, at, runtime);
      forall g :: Open(g, Some(NextRelease(plan, verifiedAt, next, release)), Some(next)) <==>
        g == Gate(plan.ref, plan.commit) && Hex(plan.commit, 40) && RefFormat(plan.ref) && Hex(plan.manifest, 64)
  {
  }

  /** The release names no runtime pointer of this time or a later one. */
  predicate NamesEarlier(release: Option<Release>, at: int) {
    release.Some? && release.value.current.Some? && release.value.current.value.Sha?
    ==> release.value.current.value.runtime.at < at
  }

  /** The release names no runtime pointer with more predecessors than the present one has. */
  predicate NamesNoDeeper(release: Option<Release>, runtime: Option<Runtime>) {
    release.Some? ==> Depth(release.value.current) <= RuntimeDepth(runtime)
  }

  lemma {:induction false} DeeperByOne(runtime: Option<Runtime>, next: Runtime)
    requires next.prior == DigestOf(runtime)
    ensures RuntimeDepth(Some(next)) == RuntimeDepth(runtime) + 1 == Depth(Some(Sha(next)))
  {
  }

  class ReleaseHost {
    var runtime: Option<Runtime>
    var release: Option<Release>
    var worker: Option<Gate>
    /** The pointers at the beginning, and every pointer written since, in order. */
    ghost const firstRuntime: Option<Runtime>
    ghost const firstRelease: Option<Release>
    ghost var runtimes: seq<Runtime>
    ghost var releases: seq<Release>
    /** The pairs of pointers that one call wrote, and the pair at the beginning. */
    ghost var pairs: set<(Runtime, Release)>

    ghost predicate Valid()
      reads this
    {
      && runtime == Latest(runtimes, firstRuntime) && RuntimesLinked(runtimes, firstRuntime)
      && release == Latest(releases, firstRelease) && ReleasesLinked(releases, firstRelease)
      && RuntimeDepth(runtime) == RuntimeDepth(firstRuntime) + |runtimes|
      && (releases == [] ==> pairs == Pair(firstRuntime, firstRelease))
      && (releases != [] ==> NamesNoDeeper(release, runtime) && (Named() ==> (runtime.value, release.value) in pairs))
    }

    /** The release pointer names the runtime pointer. */
    predicate Named()
      reads this
    {
      release.Some? && runtime.Some? && release.value.current == Some(Sha(runtime.value))
    }

    /** A written runtime pointer is read under the release pointer of the beginning. */
    ghost predicate UnderFirst()
      reads this
    {
      releases == [] && runtimes != []
    }

    /** Every write so far and every time to come is past what the first release names. */
    ghost predicate PastFirst(log: seq<Runtime>, times: seq<int>) {
      && (forall r | r in log :: NamesEarlier(firstRelease, r.at))
      && (forall t | t in times :: NamesEarlier(firstRelease, t))
    }

    constructor (runtime: Option<Runtime>, release: Option<Release>, worker: Option<Gate>)
      ensures Valid() && this.runtime == runtime && this.release == release && this.worker == worker
      ensures firstRuntime == runtime && firstRelease == release && runtimes == [] && releases == []
    {
      this.runtime, this.release, this.worker := runtime, release, worker;
      firstRuntime, firstRelease, runtimes, releases := runtime, release, [], [];
      pairs := Pair(runtime, release);
    }

    /** From any beginning: an active gate reads two pointers of one call, or of the beginning, if
        and only if it does not read a written runtime pointer under the first release pointer. */
    lemma OpenMeansPaired(g: Gate)
      requires Valid() && Open(g, release, runtime)
      ensures (runtime.value, release.value) in pairs <==> !UnderFirst()
      ensures UnderFirst() ==> Foretells(firstRelease, runtime.value)
      ensures runtime.value.commit == release.value.commit == g.commit && release.value.ref == g.ref
    {
    }

    /** Under a clock that is past the time of what the first release names, every active gate of
        the whole history reads a pair. */
    lemma LaterWritesKeepPairs(g: Gate)
      requires Valid() && Open(g, release, runtime)
      requires forall r | r in runtimes :: NamesEarlier(firstRelease, r.at)
      ensures (runtime.value, release.value) in pairs
    {
    }

    /** The same holds from a beginning whose release names no deeper runtime pointer, whatever
        the clock says. */
    lemma ShallowReleaseKeepsPairs(g: Gate)
      requires Valid() && Open(g, release, runtime)
      requires NamesNoDeeper(firstRelease, firstRuntime)
      ensures (runtime.value, release.value) in pairs
    {
      assert Depth(Some(Sha(runtime.value))) == RuntimeDepth(runtime);
    }

    /** Replace the runtime pointer: a release pointer of this program then names some other
        document. */
    method WriteRuntime(next: Runtime)
      requires Valid() && next.prior == DigestOf(runtime)
      modifies this`runtime, this`runtimes
      ensures Valid() && runtime == Some(next) && runtimes == old(runtimes) + [next]
      ensures releases != [] ==> !Named()
    {
      DeeperByOne(runtime, next);
      RuntimesLinkedNext(runtimes, firstRuntime, next);
      assert |runtimes + [next]| == |runtimes| + 1 && (runtimes + [next])[|runtimes|] == next;
      runtime, runtimes := Some(next), runtimes + [next];
    }

    /** Replace the release pointer by one that names the runtime pointer. */
    method WriteRelease(next: Release)
      requires Valid() && runtime.Some?
      requires next.current == Some(Sha(runtime.value)) && next.previous == DigestOfRelease(release)
      modifies this`release, this`releases, this`pairs
      ensures Valid() && release == Some(next) && releases == old(releases) + [next]
      ensures pairs == old(pairs) + {(runtime.value, next)}
    {
      assert Depth(next.current) == RuntimeDepth(runtime);
      ReleasesLinkedNext(releases, firstRelease, next);
      release, releases, pairs := Some(next), releases + [next], pairs + {(runtime.value, next)};
    }

    /** Write both pointers, runtime first; a cut of 0 or 1 ends the call after that many writes. */
    method WritePointers(plan: Plan, at: int, verifiedAt: int, cut: nat)
      requires Valid()
      modifies this`runtime, this`release, this`runtimes, this`releases, this`pairs
      ensures Valid()
      ensures cut == 0 ==> runtime == old(runtime) && release == old(release) && pairs == old(pairs)
      ensures cut == 0 ==> runtimes == old(runtimes) && releases == old(releases)
      // Each new pointer names the one that it replaces and keeps the fields that are not managed.
      ensures cut >= 1 ==>
        runtime == match old(runtime)
          case None =>
            Some(Runtime("dalton-runtime-config-pointer-0.2", "deployed_verified", at, plan.commit, plan.manifest,
                         None, map[]))
          case Some(r) =>
            Some(Runtime("dalton-runtime-config-pointer-0.2", "deployed_verified", at, plan.commit, plan.manifest,
                         Some(Sha(r)), r.rest))
      ensures cut >= 1 ==> runtimes == old(runtimes) + [runtime.value]
      // Between the writes a gate is active exactly when the old release foretold the new runtime
      // pointer, which no release of this program does.
      ensures cut == 1 ==> release == old(release) && pairs == old(pairs) && releases == old(releases)
      ensures cut == 1 ==> forall g :: Open(g, release, runtime) <==>
        Foretells(release, runtime.value) && g == Gate(release.value.ref, plan.commit)
      ensures cut == 1 && releases != [] ==> !Foretells(release, runtime.value)
      ensures cut >= 2 ==> release.Some? && releases == old(releases) + [release.value]
      ensures cut >= 2 ==>
        release == match old(release)
          case None =>
            Some(Release("dalton-current-release-0.2", "deployed_verified", plan.ref, plan.commit, plan.manifest,
                         Some(Sha(runtime.value)), None, verifiedAt, map[]))
          case Some(r) =>
            Some(Release("dalton-current-release-0.2", "deployed_verified", plan.ref, plan.commit, plan.manifest,
                         Some(Sha(runtime.value)), Some(ShaRelease(r)), verifiedAt, r.rest))
      ensures cut >= 2 ==> pairs == old(pairs) + {(runtime.value, release.value)}
      // Both pointers written, the active gates are exactly those bound to this well-formed plan.
      ensures cut >= 2 ==> forall g :: Open(g, release, runtime) <==>
        g == Gate(plan.ref, plan.commit) && Hex(plan.commit, 40) && RefFormat(plan.ref) && Hex(plan.manifest, 64)
    {
      if cut == 0 { return; }
      var next := NextRuntime(plan, at, runtime);
      WriteRuntime(next);
      if cut == 1 {
        OpenUnderOld(release, next);
        return;
      }
      OpenOnBoth(plan, at, verifiedAt, old(runtime), release);
      WriteRelease(NextRelease(plan, verifiedAt, next, release));
    }

    /** The worker's gate is active. */
    predicate Working()
      reads this
    {
      worker.Some? && Open(worker.value, release, runtime)
    }

    /** The pointer part of a switch: both pointers, then the worker's binding if there is one. */
    method Switch(plan: Plan, at: int, verifiedAt: int, cut: nat)
      requires Valid()
      modifies this`runtime, this`release, this`worker, this`runtimes, this`releases, this`pairs
      ensures Valid()
      ensures cut <= 2 ==> worker == old(worker)
      ensures runtimes == old(runtimes) ||
        (runtime.Some? && runtime.value.at == at && runtimes == old(runtimes) + [runtime.value])
      // When the worker's gate is active after a cut: it was before, or the first release foretold
      // the new runtime pointer, or the worker had been bound to the plan already.
      ensures cut == 0 ==> (Working() <==> old(Working()))
      ensures cut == 1 && Working() ==> UnderFirst() && Foretells(release, runtime.value)
      ensures cut == 2 && Working() ==> worker.value == Gate(plan.ref, plan.commit)
      // A finished switch opens the worker's gate exactly when its values are well-formed.
      ensures cut > 2 ==> (worker.Some? <==> old(worker).Some?)
      ensures cut > 2 && worker.Some? ==>
        (Working() <==> Hex(plan.commit, 40) && RefFormat(plan.ref) && Hex(plan.manifest, 64))
    {
      WritePointers(plan, at, verifiedAt, cut);
      if cut <= 2 { return; }
      if worker.Some? {
        worker := Some(Gate(plan.ref, plan.commit));
      }
    }

    /** Any number of switches, each of them whole or cut off: when their times are past that of
        the runtime pointer which the first release names, or that release names no deeper one, the
        gate works only on a pair. */
    method Switches(plans: seq<Plan>, cuts: seq<nat>, times: seq<int>)
      requires Valid() && |plans| == |cuts| == |times|
      modifies this`runtime, this`release, this`worker, this`runtimes, this`releases, this`pairs
      ensures Valid()
      ensures Working() ==> ((runtime.value, release.value) in pairs <==> !UnderFirst())
      ensures Working() && NamesNoDeeper(firstRelease, firstRuntime) ==> (runtime.value, release.value) in pairs
      ensures Working() && PastFirst(old(runtimes), times) ==> (runtime.value, release.value) in pairs
    {
      for i := 0 to |plans|
        invariant Valid()
        invariant PastFirst(old(runtimes), times) ==> PastFirst(runtimes, times)
      {
        assert times[i] in times;
        Switch(plans[i], times[i], times[i], cuts[i]);
      }
      if Working() && NamesNoDeeper(firstRelease, firstRuntime) {
        ShallowReleaseKeepsPairs(worker.value);
      }
    }
  }

  function Pair(runtime: Option<Runtime>, release: Option<Release>): set<(Runtime, Release)> {
    if runtime.Some? && release.Some? then {(runtime.value, release.value)} else {}
  }

  /** No runtime pointer is written twice: the links never close to a cycle, so each recorded
      digest names one place in the history. */
  lemma {:induction false} HistoryIsAcyclic(log: seq<Runtime>, first: Option<Runtime>, i: nat, j: nat)
    requires RuntimesLinked(log, first) && i < j < |log|
    ensures RuntimeDepth(Some(log[i])) < RuntimeDepth(Some(log[j])) && log[i] != log[j]
  {
    assert log[j].prior == DigestOf(Latest(log[..j], first)) == Some(Sha(log[j - 1]));
    assert RuntimeDepth(Some(log[j - 1])) == Depth(log[j].prior);
    if i < j - 1 {
      HistoryIsAcyclic(log, first, i, j - 1);
    }
  }

  /** The exception is real: from every runtime pointer, also a missing one, and for every
      well-formed plan there is a release under which the first write of a switch opens a gate. */
  lemma ForetoldRuntimeOpens(plan: Plan, at: int, runtime: Option<Runtime>, release: Release)
    requires Hex(plan.commit, 40) && RefFormat(plan.ref) && Hex(plan.manifest, 64)
    ensures var next := NextRuntime(plan, at, runtime);
      var foretelling := release.(schema := RELEASE_SCHEMA, status := DEPLOYED, ref := plan.ref, commit := plan.commit,
                                  manifest := plan.manifest, current := Some(Sha(next)));
      && Open(Gate(plan.ref, plan.commit), Some(foretelling), Some(next))
      && !NamesEarlier(Some(foretelling), at) && !NamesNoDeeper(Some(foretelling), runtime)
  {
    var next := NextRuntime(plan, at, runtime);
    assert Depth(Some(Sha(next))) == 1 + Depth(DigestOf(runtime)) == 1 + RuntimeDepth(runtime);
  }
}
