/** The health window after a stopped-window deployment: the policy that the preflight admits, the
    observer that samples it, and the finalizer that verifies the observation from its files. */
module HealthWindow {
  import opened Wrappers

  /** Times are microseconds. */
  const SECOND := 1_000_000

  datatype Policy = Policy(count: int, interval: int, minimum: int)

  datatype Deployment = Deployment(started: int, finished: int)

  /** One entry of the health report. */
  datatype Check = Flag(b: bool) | Number(n: real) | Other

  const AGE := "heartbeat_age_seconds"

  datatype Heartbeat = Heartbeat(pid: Option<int>, startedAt: Option<int>)

  /** The decoded report of the health command. */
  datatype Wire = Wire(ok: bool, checks: map<string, Check>, heartbeat: Option<Heartbeat>)

  /** The file of one sample: `wire` is absent when the output is no report. */
  datatype Raw = Raw(at: int, exitCode: Option<int>, wire: Option<Wire>)

  /** One sample of the summary; SHA-256 is injective, so the digest stands for the file. */
  datatype Sample = Sample(at: int, exitCode: Option<int>, ok: bool, checks: Option<map<string, Check>>,
                           pid: Option<int>, startedAt: Option<int>, rawFile: nat, rawDigest: Raw)

  datatype Summary = Summary(passed: bool, policy: Policy, sampleCount: int, elapsed: int,
                             allHealthy: bool, same: bool, postdeployment: bool, longEnough: bool, accepted: bool,
                             samples: seq<Sample>)

  predicate SamplePasses(s: Sample) {
    && s.exitCode == Some(0) && s.ok
    && s.checks.Some? && s.checks.value != map[]
    && (forall k | k in s.checks.value && k != AGE :: s.checks.value[k] == Flag(true))
    && AGE in s.checks.value && s.checks.value[AGE].Number? && s.checks.value[AGE].n >= 0.0
  }

  /** All samples name one controller, with a positive process id and a start time. */
  predicate SameController(samples: seq<Sample>) {
    && samples != []
    && (forall s | s in samples :: s.pid == samples[0].pid && s.startedAt == samples[0].startedAt)
    && samples[0].pid.Some? && samples[0].pid.value > 0 && samples[0].startedAt.Some?
  }

  predicate FromDeployment(samples: seq<Sample>, d: Deployment) {
    SameController(samples) && d.started <= samples[0].startedAt.value <= d.finished
  }

  /** The conditions under which the observer accepts. */
  predicate Acceptable(samples: seq<Sample>, elapsed: int, p: Policy, d: Deployment) {
    && |samples| == p.count
    && (forall s | s in samples :: SamplePasses(s))
    && FromDeployment(samples, d)
    && elapsed >= p.minimum * SECOND
  }

  // ------------------------------------------------------------ verification

  /** Strictly increasing, not before the end of the deployment, and long enough. */
  predicate TimesHold(samples: seq<Sample>, p: Policy, d: Deployment) {
    && samples != []
    && (forall i | 0 <= i < |samples| - 1 :: samples[i].at < samples[i + 1].at)
    && samples[0].at >= d.finished
    && samples[|samples| - 1].at - samples[0].at >= p.minimum * SECOND
  }

  /** The raw file is the one that was summarised, and it says the same. */
  predicate RawAgrees(s: Sample, files: map<nat, Raw>, pid: Option<int>, startedAt: Option<int>) {
    && s.rawFile in files && files[s.rawFile] == s.rawDigest
    && var raw := files[s.rawFile];
    && raw.wire.Some? && raw.wire.value.heartbeat.Some?
    && raw.at == s.at && raw.exitCode == s.exitCode == Some(0)
    && raw.wire.value.ok == s.ok == true
    && Some(raw.wire.value.checks) == s.checks
    && raw.wire.value.heartbeat.value == Heartbeat(pid, startedAt)
  }

  /** Everything that the finalizer demands. */
  predicate Verified(summary: Summary, files: map<nat, Raw>, p: Policy, d: Deployment) {
    var samples := summary.samples;
    && summary.passed && summary.policy == p && summary.accepted && summary.allHealthy && summary.same
    && summary.postdeployment && summary.longEnough
    && summary.sampleCount == p.count && summary.elapsed >= p.minimum * SECOND && |samples| == p.count
    && (forall i | 0 <= i < |samples| :: samples[i].rawFile == i)
    && FromDeployment(samples, d)
    && TimesHold(samples, p, d)
    && forall s | s in samples :: SamplePasses(s) && RawAgrees(s, files, samples[0].pid, samples[0].startedAt)
  }

  /** The finalizer's checks, with its loop over the raw files. */
  method VerifyHealth(summary: Summary, files: map<nat, Raw>, p: Policy, d: Deployment) returns (ok: bool)
    ensures ok <==> Verified(summary, files, p, d)
  {
    var samples := summary.samples;
    if !(summary.passed && summary.policy == p && summary.accepted && summary.allHealthy && summary.same
         && summary.postdeployment && summary.longEnough
         && summary.sampleCount == p.count && summary.elapsed >= p.minimum * SECOND
         && |samples| == p.count) { return false; }
    if exists i :: 0 <= i < |samples| && samples[i].rawFile != i { return false; }
    if !FromDeployment(samples, d) || !TimesHold(samples, p, d) { return false; }
    for i := 0 to |samples|
      invariant forall j | 0 <= j < i ::
        SamplePasses(samples[j]) && RawAgrees(samples[j], files, samples[0].pid, samples[0].startedAt)
    {
      if !SamplePasses(samples[i]) || !RawAgrees(samples[i], files, samples[0].pid, samples[0].startedAt) {
        return false;
      }
    }
    ok := true;
  }

  /** Whatever passes verification satisfies the observer's own conditions. */
  lemma VerifiedIsAcceptable(summary: Summary, files: map<nat, Raw>, p: Policy, d: Deployment)
    requires Verified(summary, files, p, d)
    ensures Acceptable(summary.samples, summary.elapsed, p, d) && summary.accepted
  {
  }

  /** What verifies, in terms of the raw files: every sample repeats its own file, each file is a passing
      report of one controller of this deployment, and the times are in order and far enough apart. */
  lemma VerifiedFiles(summary: Summary, files: map<nat, Raw>, p: Policy, d: Deployment)
    ensures Verified(summary, files, p, d) <==>
      var (samples, n) := (summary.samples, |summary.samples|);
      && n > 0 && summary.policy == p && summary.sampleCount == n == p.count
      && summary.elapsed >= p.minimum * 1_000_000
      && summary.passed && summary.accepted && summary.allHealthy && summary.same
      && summary.postdeployment && summary.longEnough
      && samples[0].pid.Some? && samples[0].pid.value > 0
      && samples[0].startedAt.Some? && d.started <= samples[0].startedAt.value <= d.finished
      && (forall i | 0 <= i < n ::
            && samples[i].rawFile == i && i in files && samples[i].rawDigest == files[i]
            && samples[i].at == files[i].at && samples[i].exitCode == Some(0) && files[i].exitCode == Some(0)
            && files[i].wire.Some? && samples[i].ok && files[i].wire.value.ok
            && samples[i].checks == Some(files[i].wire.value.checks)
            && files[i].wire.value.heartbeat == Some(Heartbeat(samples[0].pid, samples[0].startedAt))
            && samples[i].pid == samples[0].pid && samples[i].startedAt == samples[0].startedAt)
      && (forall i | 0 <= i < n :: "heartbeat_age_seconds" in files[i].wire.value.checks)
      && (forall i, k | 0 <= i < n && k in files[i].wire.value.checks ::
            if k == "heartbeat_age_seconds"
            then files[i].wire.value.checks[k].Number? && files[i].wire.value.checks[k].n >= 0.0
            else files[i].wire.value.checks[k] == Flag(true))
      && (forall i | 0 < i < n :: samples[i - 1].at < samples[i].at)
      && samples[0].at >= d.finished && samples[n - 1].at - samples[0].at >= p.minimum * 1_000_000
  {
    var samples := summary.samples;
    if Verified(summary, files, p, d) {
      forall i | 0 <= i < |samples| ensures RawAgrees(samples[i], files, samples[0].pid, samples[0].startedAt) {
        assert samples[i] in samples;
      }
      forall i | 0 < i < |samples| ensures samples[i - 1].at < samples[i].at {
        assert samples[i - 1].at < samples[i - 1 + 1].at;
      }
    }
  }

  // ------------------------------------------------------------ observation

  /** The sample that the observer makes of a raw file. */
  function SampleOf(raw: Raw, index: nat): Sample {
    if raw.wire.None? then Sample(raw.at, None, false, None, None, None, index, raw)
    else
      var wire := raw.wire.value;
      Sample(raw.at, raw.exitCode, wire.ok, Some(wire.checks),
             if wire.heartbeat.Some? then wire.heartbeat.value.pid else None,
             if wire.heartbeat.Some? then wire.heartbeat.value.startedAt else None, index, raw)
  }

  /** What the observer leaves: a file and a sample for every index, and the verdict. */
  predicate Observed(summary: Summary, files: map<nat, Raw>, p: Policy, d: Deployment) {
    && summary.policy == p && summary.sampleCount == |summary.samples| == p.count
    && (forall i | 0 <= i < p.count :: i in files && summary.samples[i] == SampleOf(files[i], i))
    && (summary.allHealthy <==> forall s | s in summary.samples :: SamplePasses(s))
    && (summary.same <==> SameController(summary.samples))
    && (summary.postdeployment <==> FromDeployment(summary.samples, d))
    && (summary.longEnough <==> summary.elapsed >= p.minimum * SECOND)
    && (summary.passed <==> summary.accepted)
    && (summary.accepted <==> Acceptable(summary.samples, summary.elapsed, p, d))
  }

  class Observer {
    /** The monotonic clock and the wall clock. */
    var monotonic: int
    var wall: int
    var files: map<nat, Raw>

    /** Time passes, at least the given amount; a steady wall clock shows at least that, too. */
    method Pass(amount: nat, steady: bool)
      modifies this`monotonic, this`wall
      ensures monotonic >= old(monotonic) + amount
      ensures steady ==> wall >= old(wall) + amount
    {
      var more: int := *;
      var jump: int := *;
      monotonic := monotonic + amount + if more > 0 then more else 0;
      wall := wall + if steady && jump < amount then amount else jump;
    }

    /** Run the health command: any answer, any exception, any time. */
    method Invoke(at: int, steady: bool) returns (raw: Raw)
      modifies this`monotonic, this`wall
      ensures monotonic >= old(monotonic) && raw.at == at
      ensures steady ==> wall >= old(wall)
    {
      Pass(0, steady);
      var exitCode: Option<int> := *;
      var wire: Option<Wire> := *;
      raw := Raw(at, exitCode, wire);
    }

    /** Sample the controller `count` times, sleeping in between. */
    method SampleAll(p: Policy, steady: bool) returns (samples: seq<Sample>)
      requires p.count >= 2 && p.interval > 0 && (p.count - 1) * p.interval >= p.minimum
      modifies this
      ensures |samples| == p.count && forall i | 0 <= i < p.count :: i in files && samples[i] == SampleOf(files[i], i)
      ensures monotonic >= old(monotonic) + (p.count - 1) * (p.interval * SECOND)
      ensures steady ==> forall i | 0 <= i < p.count :: old(wall) <= samples[i].at <= wall
      ensures steady ==> forall i | 0 <= i < p.count - 1 :: samples[i + 1].at - samples[i].at >= p.interval * SECOND
    {
      samples, files := [], map[];
      ghost var slept := 0;
      for index := 0 to p.count
        invariant |samples| == index && slept == if index == 0 then 0 else (index - 1) * (p.interval * SECOND)
        invariant monotonic >= old(monotonic) + slept && (steady ==> wall >= old(wall))
        invariant forall i | 0 <= i < index :: i in files && samples[i] == SampleOf(files[i], i)
        invariant steady ==> forall i | 0 <= i < index :: old(wall) <= samples[i].at <= wall
        invariant steady ==> forall i | 0 <= i < index - 1 :: samples[i + 1].at - samples[i].at >= p.interval * SECOND
      {
        if index > 0 {
          Pass(p.interval * SECOND, steady);
          slept := slept + p.interval * SECOND;
        }
        var raw := Invoke(wall, steady);
        files := files[index := raw];
        samples := samples + [SampleOf(raw, index)];
      }
    }

    /** Sample, and judge the samples and the elapsed time. */
    method Observe(p: Policy, d: Deployment, steady: bool) returns (summary: Summary)
      requires p.count >= 2 && p.interval > 0 && (p.count - 1) * p.interval >= p.minimum
      modifies this
      ensures Observed(summary, files, p, d)
      // Whatever the wall clock does, the window is long enough by the monotonic one.
      ensures summary.elapsed >= p.minimum * SECOND && summary.longEnough
      // With a steady wall clock the samples are apart by the interval and span the minimum.
      ensures steady ==>
        forall i | 0 <= i < p.count - 1 :: summary.samples[i + 1].at - summary.samples[i].at >= p.interval * SECOND
      ensures steady ==> summary.samples[0].at >= old(wall)
      ensures steady ==> summary.samples[p.count - 1].at - summary.samples[0].at >= p.minimum * SECOND
    {
      var started := monotonic;
      var samples := SampleAll(p, steady);
      var elapsed := monotonic - started;
      SecondsScale(p);
      if steady {
        SpanOfSteps(samples, p.interval * SECOND, p.count - 1);
      }
      var allHealthy := forall s | s in samples :: SamplePasses(s);
      var accepted := allHealthy && FromDeployment(samples, d) && elapsed >= p.minimum * SECOND;
      summary :=
        Summary(accepted, p, |samples|, elapsed, allHealthy, SameController(samples), FromDeployment(samples, d),
                         elapsed >= p.minimum * SECOND, accepted, samples);
    }

    /** Observe and verify: with a steady clock and a deployment that finished before, the two
        agree. */
    method ObserveAndVerify(p: Policy, d: Deployment, steady: bool) returns (summary: Summary, ok: bool)
      requires p.count >= 2 && p.interval > 0 && (p.count - 1) * p.interval >= p.minimum
      modifies this
      ensures ok ==> summary.accepted
      ensures steady && d.finished <= old(wall) ==> (ok <==> summary.accepted)
    {
      summary := Observe(p, d, steady);
      ok := VerifyHealth(summary, files, p, d);
      if summary.accepted {
        ObservationVerifies(summary, files, p, d);
      }
    }
  }

  lemma {:induction false} SpanOfSteps(samples: seq<Sample>, step: int, k: nat)
    requires k < |samples| && forall i | 0 <= i < |samples| - 1 :: samples[i + 1].at - samples[i].at >= step
    ensures samples[k].at - samples[0].at >= k * step
  {
    if k > 0 {
      SpanOfSteps(samples, step, k - 1);
      assert samples[k - 1 + 1].at - samples[k - 1].at >= step;
      assert k * step == (k - 1) * step + step;
    }
  }

  lemma SecondsScale(p: Policy)
    requires p.count >= 2 && (p.count - 1) * p.interval >= p.minimum
    ensures (p.count - 1) * (p.interval * SECOND) >= p.minimum * SECOND
  {
    assert (p.count - 1) * (p.interval * SECOND) == (p.count - 1) * p.interval * SECOND;
  }

  /** A sample passes when its file is a report of a successful command that is well, whose entries are
      all true but for the age of the heartbeat, which is there and not negative. */
  lemma PassingSample(raw: Raw, index: nat)
    ensures SamplePasses(SampleOf(raw, index)) <==>
      && raw.exitCode == Some(0) && raw.wire.Some? && raw.wire.value.ok
      && var checks := raw.wire.value.checks;
      && "heartbeat_age_seconds" in checks
      && forall k | k in checks ::
        if k == "heartbeat_age_seconds" then checks[k].Number? && checks[k].n >= 0.0 else checks[k] == Flag(true)
  {
  }

  /** What the observer accepts, in terms of the raw files: every run of the health command succeeded with
      a passing report, all of one controller that started during the deployment, for long enough. */
  lemma AcceptedFiles(summary: Summary, files: map<nat, Raw>, p: Policy, d: Deployment)
    requires Observed(summary, files, p, d) && p.count > 0
    ensures summary.accepted <==>
      && summary.elapsed >= p.minimum * 1_000_000
      && (forall i | 0 <= i < p.count ::
            && files[i].exitCode == Some(0) && files[i].wire.Some? && files[i].wire.value.ok
            && files[i].wire.value.heartbeat.Some? && "heartbeat_age_seconds" in files[i].wire.value.checks)
      && (forall i, k | 0 <= i < p.count && k in files[i].wire.value.checks ::
            if k == "heartbeat_age_seconds"
            then files[i].wire.value.checks[k].Number? && files[i].wire.value.checks[k].n >= 0.0
            else files[i].wire.value.checks[k] == Flag(true))
      && (forall i | 0 <= i < p.count :: files[i].wire.value.heartbeat == files[0].wire.value.heartbeat)
      && var beat := files[0].wire.value.heartbeat.value;
      && beat.pid.Some? && beat.pid.value > 0
      && beat.startedAt.Some? && d.started <= beat.startedAt.value <= d.finished
    // The parts of the verdict say what they are named after.
    ensures summary.policy == p && summary.sampleCount == p.count && (summary.passed <==> summary.accepted)
  {
    var samples := summary.samples;
    forall i | 0 <= i < p.count ensures samples[i] in samples && samples[i] == SampleOf(files[i], i) {
      PassingSample(files[i], i);
    }
    forall s | s in samples ensures exists i | 0 <= i < p.count :: s == SampleOf(files[i], i) {
      var i :| 0 <= i < |samples| && samples[i] == s;
    }
  }

  /** An accepted observation passes verification exactly when its wall-clock times hold: all the
      rest follows from how the observer makes its samples. */
  lemma ObservationVerifies(summary: Summary, files: map<nat, Raw>, p: Policy, d: Deployment)
    requires Observed(summary, files, p, d) && summary.accepted
    ensures Verified(summary, files, p, d) <==> TimesHold(summary.samples, p, d)
  {
    var samples := summary.samples;
    forall s | s in samples ensures RawAgrees(s, files, samples[0].pid, samples[0].startedAt) {
      var i :| 0 <= i < |samples| && samples[i] == s;
      assert SamplePasses(s);
      assert s.pid == samples[0].pid && s.startedAt == samples[0].startedAt;
    }
  }

  /** Outside of the preflight's condition the two can disagree: when the last health command is
      slow, the observer's clock covers the minimum and the samples do not. */
  lemma ShortWindowDisagrees(p: Policy, d: Deployment, raw: Raw)
    requires p.count == 1 && p.minimum > 0
    requires SamplePasses(SampleOf(raw, 0)) && FromDeployment([SampleOf(raw, 0)], d)
    ensures var samples := [SampleOf(raw, 0)];
      var summary := Summary(true, p, 1, p.minimum * SECOND, true, true, true, true, true, samples);
      Observed(summary, map[0 := raw], p, d) && !Verified(summary, map[0 := raw], p, d)
  {
  }
}
