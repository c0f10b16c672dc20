/** The reviewed edit of the OpenClaw configuration: the broker's frame limit, the paths of up
    to two managed plugins, and the profile timeouts, each recorded as an edit that a replay can
    check. */
module FrameTransition {
  import opened JsonTree
  import opened Wrappers

  const DEFAULT_FRAME_BYTES := 262_144
  const TARGET_FRAME_BYTES := 1_048_576
  const MAX_COMPLETION_TIMEOUT_MS := 1_800_000

  const BROKER: Path := [Field("plugins"), Field("entries"), Field("dalton-openclaw-model-broker"), Field("config")]
  const FRAME: Path := BROKER + [Field("maxFrameBytes")]
  const PROFILES: Path := BROKER + [Field("profiles")]
  const LOAD_PATHS: Path := [Field("plugins"), Field("load"), Field("paths")]

  datatype Plugin = Plugin(previous: string, destination: string)

  /** What the operator asks for. `boundDeclared` says that the new broker's own schema declares
      the reviewed timeout bound. */
  datatype Request = Request(model: Option<Plugin>, web: Option<Plugin>, timeout: Option<int>, boundDeclared: bool)

  datatype Outcome = Refused | Reviewed(expected: Json, edits: seq<Edit>)

  /** The three edited places lie apart. */
  lemma ThreePlaces()
    ensures Diverge(FRAME, PROFILES) && Diverge(PROFILES, FRAME)
    ensures Diverge(LOAD_PATHS, PROFILES) && Diverge(LOAD_PATHS, FRAME) && Diverge(PROFILES, LOAD_PATHS)
    ensures Diverge(FRAME, LOAD_PATHS)
  {
    DivergeAfter([Field("plugins")], FRAME[1..], [Field("load"), Field("paths")]);
    DivergeAfter([Field("plugins")], PROFILES[1..], [Field("load"), Field("paths")]);
    DivergeAfter(BROKER, [Field("maxFrameBytes")], [Field("profiles")]);
    DivergeAfter(BROKER, [Field("profiles")], [Field("maxFrameBytes")]);
    DivergeAfter([Field("plugins")], [Field("load"), Field("paths")], FRAME[1..]);
    DivergeAfter([Field("plugins")], [Field("load"), Field("paths")], PROFILES[1..]);
    assert [Field("plugins")] + [Field("load"), Field("paths")] == LOAD_PATHS;
    assert [Field("plugins")] + FRAME[1..] == FRAME && [Field("plugins")] + PROFILES[1..] == PROFILES;
  }

  // ------------------------------------------------------------ the frame limit

  predicate FrameBaseline(j: Json) {
    && Look(j, BROKER).Present? && Look(j, BROKER).value.Obj?
    && Look(j, FRAME) in {Absent, Present(Int(DEFAULT_FRAME_BYTES)), Present(Int(TARGET_FRAME_BYTES))}
  }

  function FrameEdits(j: Json): seq<Edit> {
    if Look(j, FRAME) == Present(Int(TARGET_FRAME_BYTES)) then []
    else [Patch(FRAME, Look(j, FRAME), Present(Int(TARGET_FRAME_BYTES)))]
  }

  lemma FrameApplies(j: Json)
    requires FrameBaseline(j)
    ensures Replay(j, FrameEdits(j)).Some?
    ensures Look(Replay(j, FrameEdits(j)).value, FRAME) == Present(Int(TARGET_FRAME_BYTES))
  {
    var leaf := Present(Int(TARGET_FRAME_BYTES));
    WriteBelow(j, BROKER, [Field("maxFrameBytes")], leaf);
    WriteBelow(j, BROKER, [Field("maxFrameBytes")], Look(j, FRAME));
    LookWrite(j, FRAME, leaf);
    if FrameEdits(j) != [] {
      assert FrameEdits(j)[1..] == [];
    }
  }

  // ------------------------------------------------------------ the profile timeouts

  predicate Retired(timeout: int) {
    timeout == 600_000 || timeout == 900_000
  }

  predicate ValidProfile(p: Json) {
    && p.Obj?
    && "id" in p.fields && p.fields["id"].Str?
    && "timeoutMs" in p.fields && p.fields["timeoutMs"].Int?
    && 1 <= p.fields["timeoutMs"].n <= MAX_COMPLETION_TIMEOUT_MS
  }

  predicate ValidProfiles(items: seq<Json>) {
    && 0 < |items| <= 128
    && (forall k | 0 <= k < |items| :: ValidProfile(items[k]))
    && forall i, j | 0 <= i < j < |items| :: items[i].fields["id"] != items[j].fields["id"]
  }

  /** The first `count` profiles are valid, with the ids in `seen` and no id twice. */
  ghost predicate Checked(items: seq<Json>, count: nat, seen: set<Json>)
    requires count <= |items|
  {
    && (forall k | 0 <= k < count :: ValidProfile(items[k]) && items[k].fields["id"] in seen)
    && (forall id | id in seen :: exists k :: 0 <= k < count && ValidProfile(items[k]) && items[k].fields["id"] == id)
    && forall i, j | 0 <= i < j < count :: items[i].fields["id"] != items[j].fields["id"]
  }

  lemma CheckedNext(items: seq<Json>, count: nat, seen: set<Json>)
    requires count < |items| && Checked(items, count, seen)
    requires ValidProfile(items[count]) && items[count].fields["id"] !in seen
    ensures Checked(items, count + 1, seen + {items[count].fields["id"]})
  {
  }

  predicate ProfilesReady(j: Json) {
    Look(j, PROFILES).Present? && Look(j, PROFILES).value.Arr? && ValidProfiles(Look(j, PROFILES).value.items)
  }

  predicate NeedsMigration(p: Json) {
    ValidProfile(p) && Retired(p.fields["timeoutMs"].n)
  }

  function MigratedProfile(p: Json): Json {
    if NeedsMigration(p) then Obj(p.fields["timeoutMs" := Int(MAX_COMPLETION_TIMEOUT_MS)]) else p
  }

  /** The first `count` profiles migrated, the others as they were. */
  function Migrated(items: seq<Json>, count: nat): seq<Json> {
    seq(|items|, k requires 0 <= k < |items| => if k < count then MigratedProfile(items[k]) else items[k])
  }

  function TimeoutPath(k: nat): Path {
    PROFILES + [At(k), Field("timeoutMs")]
  }

  function ProfileEdits(items: seq<Json>, count: nat): seq<Edit>
    requires count <= |items|
  {
    if count == 0 then []
    else
      var p := items[count - 1];
      ProfileEdits(items, count - 1) +
      if NeedsMigration(p)
        then [Patch(TimeoutPath(count - 1), Present(p.fields["timeoutMs"]), Present(Int(MAX_COMPLETION_TIMEOUT_MS)))]
      else []
  }

  /** One more edit at the end of a replay. */
  lemma ReplayOneMore(j: Json, edits: seq<Edit>, e: Edit)
    requires Replay(j, edits).Some?
    ensures var here := Replay(j, edits).value;
      Replay(j, edits + [e]) == if Applies(here, e) then Some(Do(here, e)) else None
  {
    ReplayConcat(j, edits, [e]);
    assert [e][1..] == [];
  }

  /** Patching one timeout in the tree migrates exactly that profile of the array. */
  lemma PatchProfile(j: Json, items: seq<Json>, k: nat)
    requires Look(j, PROFILES) == Present(Arr(items)) && k < |items| && NeedsMigration(items[k])
    requires Writable(j, PROFILES, Present(Arr(Migrated(items, k))))
    ensures Writable(j, PROFILES, Present(Arr(Migrated(items, k + 1))))
    ensures var here := Write(j, PROFILES, Present(Arr(Migrated(items, k))));
      var e := Patch(TimeoutPath(k), Present(items[k].fields["timeoutMs"]), Present(Int(MAX_COMPLETION_TIMEOUT_MS)));
      Applies(here, e) && Do(here, e) == Write(j, PROFILES, Present(Arr(Migrated(items, k + 1))))
  {
    var partly := Arr(Migrated(items, k));
    var here := Write(j, PROFILES, Present(partly));
    var lower := [At(k), Field("timeoutMs")];
    var leaf := Present(Int(MAX_COMPLETION_TIMEOUT_MS));
    LookWrite(j, PROFILES, Present(partly));
    LookBelow(here, PROFILES, lower);
    assert Look(partly, lower) == Look(partly.items[k], lower[1..]) ==
      Look(items[k].fields["timeoutMs"], lower[1..][1..]);
    WriteBelow(here, PROFILES, lower, leaf);
    WriteBelow(here, PROFILES, lower, Look(partly, lower));
    assert Write(partly, lower, leaf) == Arr(Migrated(items, k + 1)) by {
      assert Write(partly, lower, leaf).items == Migrated(items, k + 1);
    }
    WriteWrite(j, PROFILES, Present(partly), Present(Arr(Migrated(items, k + 1))));
  }

  /** The first `count` profiles of the array are migrated in the tree, and the edits say how. */
  ghost predicate Progress(j: Json, items: seq<Json>, count: nat, expected: Json, edits: seq<Edit>)
    requires count <= |items|
  {
    && Look(j, PROFILES) == Present(Arr(items))
    && edits == ProfileEdits(items, count)
    && Replay(j, edits) == Some(expected)
    && Writable(j, PROFILES, Present(Arr(Migrated(items, count))))
    && expected == Write(j, PROFILES, Present(Arr(Migrated(items, count))))
  }

  lemma ProgressAtFirst(j: Json, items: seq<Json>)
    requires Look(j, PROFILES) == Present(Arr(items))
    ensures Progress(j, items, 0, j, [])
  {
    assert Migrated(items, 0) == items;
    WritableAt(j, PROFILES, Arr(items));
    WriteLook(j, PROFILES);
  }

  /** One profile more, patched if it needs it. */
  lemma ProgressNext(j: Json, items: seq<Json>, k: nat, expected: Json, edits: seq<Edit>)
    requires k < |items| && ValidProfile(items[k]) && Progress(j, items, k, expected, edits)
    ensures !NeedsMigration(items[k]) ==> Progress(j, items, k + 1, expected, edits)
    ensures NeedsMigration(items[k]) ==>
      var e := Patch(TimeoutPath(k), Present(items[k].fields["timeoutMs"]), Present(Int(MAX_COMPLETION_TIMEOUT_MS)));
      Applies(expected, e) && Progress(j, items, k + 1, Do(expected, e), edits + [e])
  {
    if NeedsMigration(items[k]) {
      PatchProfile(j, items, k);
      ReplayOneMore(j, edits,
        Patch(TimeoutPath(k), Present(items[k].fields["timeoutMs"]), Present(Int(MAX_COMPLETION_TIMEOUT_MS))));
    } else {
      assert Migrated(items, k + 1) == Migrated(items, k);
    }
  }

  /** Patch one profile if its timeout is a retired default. */
  method MigrateProfile(ghost j: Json, items: seq<Json>, k: nat, here: Json, past: seq<Edit>)
    returns (expected: Json, edits: seq<Edit>)
    requires k < |items| && ValidProfile(items[k]) && Progress(j, items, k, here, past)
    ensures Progress(j, items, k + 1, expected, edits)
  {
    ProgressNext(j, items, k, here, past);
    expected, edits := here, past;
    if NeedsMigration(items[k]) {
      var e := Patch(TimeoutPath(k), Present(items[k].fields["timeoutMs"]), Present(Int(MAX_COMPLETION_TIMEOUT_MS)));
      expected, edits := Do(here, e), past + [e];
    }
  }

  /** Walk over the profiles, checking each and recording an edit for each retired default. */
  method MigrateProfiles(j: Json) returns (ok: bool, expected: Json, edits: seq<Edit>)
    ensures ok <==> ProfilesReady(j)
    ensures ok ==> edits == ProfileEdits(Look(j, PROFILES).value.items, |Look(j, PROFILES).value.items|)
    ensures ok ==> Replay(j, edits) == Some(expected)
    // Patching leaf by leaf amounts to writing the migrated array once.
    ensures ok ==>
      var migrated := Present(Arr(Migrated(Look(j, PROFILES).value.items, |Look(j, PROFILES).value.items|)));
      Writable(j, PROFILES, migrated) && expected == Write(j, PROFILES, migrated)
  {
    ok, expected, edits := false, j, [];
    var found := Look(j, PROFILES);
    if !(found.Present? && found.value.Arr? && 0 < |found.value.items| <= 128) { return; }
    var items := found.value.items;
    ProgressAtFirst(j, items);
    var seen: set<Json> := {};
    var k := 0;
    while k < |items|
      invariant 0 <= k <= |items| && Checked(items, k, seen)
      invariant Progress(j, items, k, expected, edits)
    {
      var p := items[k];
      if !ValidProfile(p) || p.fields["id"] in seen { return; }
      CheckedNext(items, k, seen);
      seen := seen + {p.fields["id"]};
      expected, edits := MigrateProfile(j, items, k, expected, edits);
      k := k + 1;
    }
    ok := true;
  }

  /** A migrated inventory is valid, has no retired default left, and a second migration of it
      records no edit. */
  lemma {:induction false} MigrationSettles(items: seq<Json>, count: nat)
    requires ValidProfiles(items) && count <= |items|
    ensures var done := Migrated(items, |items|);
      && ValidProfiles(done)
      && (forall p | p in done :: !Retired(p.fields["timeoutMs"].n))
      && ProfileEdits(done, count) == []
  {
    var done := Migrated(items, |items|);
    assert forall k | 0 <= k < |items| :: ValidProfile(done[k]) && done[k].fields["id"] == items[k].fields["id"];
    if count > 0 {
      MigrationSettles(items, count - 1);
    }
  }

  // ------------------------------------------------------------ the whole transition

  function PluginEdits(request: Request): seq<Edit> {
    (if request.model.Some?
     then [Replace(LOAD_PATHS, request.model.value.previous, request.model.value.destination)] else []) +
    (if request.web.Some? then [Replace(LOAD_PATHS, request.web.value.previous, request.web.value.destination)] else [])
  }

  /** The edits that a request amounts to, read off the value before any of them. */
  function PlannedEdits(before: Json, request: Request): seq<Edit> {
    FrameEdits(before) + PluginEdits(request) +
    if request.timeout.Some? && ProfilesReady(before) then
      ProfileEdits(Look(before, PROFILES).value.items, |Look(before, PROFILES).value.items|)
    else []
  }

  predicate TimeoutAdmissible(request: Request) {
    request.timeout.Some? ==>
      request.timeout.value == MAX_COMPLETION_TIMEOUT_MS && request.model.Some? && request.boundDeclared
  }

  /** When a request is acceptable, in terms of the two values alone. */
  predicate Reviewable(before: Json, after: Json, request: Request) {
    && FrameBaseline(before)
    && TimeoutAdmissible(request)
    && (request.timeout.Some? ==> ProfilesReady(before))
    && Replay(before, PlannedEdits(before, request)).Some?
    && Same(after, Replay(before, PlannedEdits(before, request)).value)
    && Look(after, FRAME) == Present(Int(TARGET_FRAME_BYTES))
  }

  /** What the inventory of profiles must be, in full. */
  lemma ValidInventory(j: Json)
    ensures ProfilesReady(j) <==>
      var found := Look(j, [Field("plugins"), Field("entries"), Field("dalton-openclaw-model-broker"),
                            Field("config"), Field("profiles")]);
      && found.Present? && found.value.Arr? && 1 <= |found.value.items| <= 128
      && (forall p | p in found.value.items ::
            && p.Obj? && "id" in p.fields && p.fields["id"].Str?
            && "timeoutMs" in p.fields && p.fields["timeoutMs"].Int? && 1 <= p.fields["timeoutMs"].n <= 1_800_000)
      && forall i, k | 0 <= i < k < |found.value.items| ::
        found.value.items[i].fields["id"] != found.value.items[k].fields["id"]
  {
    assert PROFILES == [Field("plugins"), Field("entries"), Field("dalton-openclaw-model-broker"), Field("config"),
                        Field("profiles")];
    if Look(j, PROFILES).Present? && Look(j, PROFILES).value.Arr? {
      var items := Look(j, PROFILES).value.items;
      assert (forall k | 0 <= k < |items| :: ValidProfile(items[k])) <==> forall p | p in items :: ValidProfile(p);
    }
  }

  /** When a request is acceptable, in full but for the edits. */
  lemma WhatIsReviewed(before: Json, after: Json, request: Request)
    ensures Reviewable(before, after, request) <==>
      var config := [Field("plugins"), Field("entries"), Field("dalton-openclaw-model-broker"), Field("config")];
      var limit := config + [Field("maxFrameBytes")];
      && Look(before, config).Present? && Look(before, config).value.Obj?
      && (Look(before, limit) == Absent || Look(before, limit) == Present(Int(262_144)) ||
          Look(before, limit) == Present(Int(1_048_576)))
      && Look(after, limit) == Present(Int(1_048_576))
      && (request.timeout.Some? ==>
            request.timeout.value == 1_800_000 && request.model.Some? && request.boundDeclared && ProfilesReady(before))
      && Replay(before, PlannedEdits(before, request)).Some?
      && Same(after, Replay(before, PlannedEdits(before, request)).value)
  {
  }

  /** The planned edits: the limit unless it is raised already, one path for each plugin asked for, and
      the timeout of each profile that still has a retired default. */
  lemma WhatIsPlanned(before: Json, request: Request, e: Edit)
    ensures var config := [Field("plugins"), Field("entries"), Field("dalton-openclaw-model-broker"), Field("config")];
      var (limit, paths) := (config + [Field("maxFrameBytes")], [Field("plugins"), Field("load"), Field("paths")]);
      var profiles := Look(before, config + [Field("profiles")]);
      e in PlannedEdits(before, request) <==>
        || (Look(before, limit) != Present(Int(1_048_576)) &&
            e == Patch(limit, Look(before, limit), Present(Int(1_048_576))))
        || (exists p :: request.model == Some(p) && e == Replace(paths, p.previous, p.destination))
        || (exists p :: request.web == Some(p) && e == Replace(paths, p.previous, p.destination))
        || (request.timeout.Some? && ProfilesReady(before) &&
            exists k :: 0 <= k < |profiles.value.items| &&
              var timeout := profiles.value.items[k].fields["timeoutMs"];
              && (timeout == Int(600_000) || timeout == Int(900_000))
              && e == Patch(config + [Field("profiles"), At(k), Field("timeoutMs")], Present(timeout),
                            Present(Int(1_800_000))))
  {
    var config := [Field("plugins"), Field("entries"), Field("dalton-openclaw-model-broker"), Field("config")];
    if ProfilesReady(before) {
      var items := Look(before, PROFILES).value.items;
      ProfileEditsAre(items, |items|, e);
      forall k: nat ensures TimeoutPath(k) == config + [Field("profiles"), At(k), Field("timeoutMs")] {}
    }
  }

  lemma {:induction false} ProfileEditsAre(items: seq<Json>, count: nat, e: Edit)
    requires ValidProfiles(items) && count <= |items|
    ensures e in ProfileEdits(items, count) <==>
      exists k :: 0 <= k < count &&
        var timeout := items[k].fields["timeoutMs"];
        && (timeout == Int(600_000) || timeout == Int(900_000))
        && e == Patch(TimeoutPath(k), Present(timeout), Present(Int(1_800_000)))
  {
    if count > 0 {
      ProfileEditsAre(items, count - 1, e);
    }
  }

  /** The paths that a review may edit. */
  predicate Allowed(path: Path) {
    path == FRAME || path == LOAD_PATHS ||
      (|path| == |PROFILES| + 2 && path[..|PROFILES|] == PROFILES && path[|PROFILES| + 1] == Field("timeoutMs"))
  }

  lemma {:induction false} ProfileEditsAllowed(items: seq<Json>, count: nat)
    requires count <= |items|
    ensures forall e | e in ProfileEdits(items, count) :: Allowed(e.path)
  {
    if count > 0 {
      ProfileEditsAllowed(items, count - 1);
      assert TimeoutPath(count - 1)[..|PROFILES|] == PROFILES;
    }
  }

  /** A path that no edit of a review may touch. */
  predicate Untouched(path: Path) {
    Diverge(FRAME, path) && Diverge(LOAD_PATHS, path) && Diverge(PROFILES, path)
  }

  /** A replay of allowed edits leaves alone whatever lies off the edited places. */
  lemma AllowedEditsFrame(before: Json, edits: seq<Edit>, path: Path)
    requires Replay(before, edits).Some? && forall e | e in edits :: Allowed(e.path)
    requires Untouched(path)
    ensures Look(Replay(before, edits).value, path) == Look(before, path)
  {
    forall e | e in edits ensures Diverge(e.path, path) {
      if e.path != FRAME && e.path != LOAD_PATHS {
        DivergeBelow(PROFILES, e.path[|PROFILES|..], path);
        assert e.path == PROFILES + e.path[|PROFILES|..];
      }
    }
    ReplayFrame(before, edits, path);
  }

  /** Replace one plugin path, if the request names that plugin. */
  method SwapPlugin(before: Json, plugin: Option<Plugin>, j: Json, past: seq<Edit>)
    returns (ok: bool, expected: Json, edits: seq<Edit>)
    requires Replay(before, past) == Some(j)
    ensures edits == past +
      if plugin.Some? then [Replace(LOAD_PATHS, plugin.value.previous, plugin.value.destination)] else []
    ensures Replay(before, edits) == if ok then Some(expected) else None
  {
    ok, expected, edits := true, j, past;
    if plugin.Some? {
      var e := Replace(LOAD_PATHS, plugin.value.previous, plugin.value.destination);
      ReplayOneMore(before, past, e);
      ok, edits := Applies(j, e), past + [e];
      if ok {
        expected := Do(j, e);
      }
    } else {
      assert past + [] == past;
    }
  }

  /** The frame limit and the plugin paths leave the profiles as they were. */
  lemma EarlierEditsKeepProfiles(before: Json, request: Request)
    requires Replay(before, FrameEdits(before) + PluginEdits(request)).Some?
    ensures Look(Replay(before, FrameEdits(before) + PluginEdits(request)).value, PROFILES) == Look(before, PROFILES)
  {
    var edits := FrameEdits(before) + PluginEdits(request);
    assert forall e | e in edits :: e.path == FRAME || e.path == LOAD_PATHS;
    ThreePlaces();
    ReplayFrame(before, edits, PROFILES);
  }

  /** Check a candidate against the request and record the edits. */
  method Review(before: Json, after: Json, request: Request) returns (outcome: Outcome)
    ensures outcome.Reviewed? <==> Reviewable(before, after, request)
    ensures outcome.Reviewed? ==> outcome.edits == PlannedEdits(before, request)
    ensures outcome.Reviewed? ==>
      Replay(before, outcome.edits) == Some(outcome.expected) && Same(after, outcome.expected)
  {
    outcome := Refused;
    if !FrameBaseline(before) { return; }
    FrameApplies(before);
    var expected, edits := Replay(before, FrameEdits(before)).value, FrameEdits(before);
    ghost var profileEdits := PlannedEdits(before, request)[|FrameEdits(before) + PluginEdits(request)|..];
    ReplayConcat(before, FrameEdits(before) + PluginEdits(request), profileEdits);
    assert PlannedEdits(before, request) == FrameEdits(before) + PluginEdits(request) + profileEdits;
    var ok;
    ok, expected, edits := SwapPlugin(before, request.model, expected, edits);
    ghost var first := edits;
    if ok {
      ok, expected, edits := SwapPlugin(before, request.web, expected, edits);
      assert edits == FrameEdits(before) + PluginEdits(request);
    } else {
      ReplayConcat(before, first,
        if request.web.Some?
        then [Replace(LOAD_PATHS, request.web.value.previous, request.web.value.destination)] else []);
      assert first +
        (if request.web.Some?
         then [Replace(LOAD_PATHS, request.web.value.previous, request.web.value.destination)] else [])
        == FrameEdits(before) + PluginEdits(request);
    }
    if !ok { return; }
    EarlierEditsKeepProfiles(before, request);
    if request.timeout.Some? {
      if !TimeoutAdmissible(request) { return; }
      var ready, migrated, more := MigrateProfiles(expected);
      if !ready { return; }
      expected, edits := migrated, edits + more;
    } else {
      assert edits + [] == edits;
    }
    assert edits == PlannedEdits(before, request);
    assert Replay(before, edits) == Some(expected);
    if !Same(after, expected) || Look(after, FRAME) != Present(Int(TARGET_FRAME_BYTES)) { return; }
    outcome := Reviewed(expected, edits);
  }

  /** No edit after the first touches the frame limit. */
  lemma LaterEditsDiverge(before: Json, request: Request)
    ensures forall e | e in PlannedEdits(before, request)[|FrameEdits(before)|..] :: Diverge(e.path, FRAME)
  {
    var later := PlannedEdits(before, request)[|FrameEdits(before)|..];
    var profiles := later[|PluginEdits(request)|..];
    assert later == PluginEdits(request) + profiles;
    assert forall e | e in PluginEdits(request) :: e.path == LOAD_PATHS;
    assert Diverge(LOAD_PATHS, FRAME) by { ThreePlaces(); }
    if request.timeout.Some? && ProfilesReady(before) {
      var items := Look(before, PROFILES).value.items;
      assert profiles == ProfileEdits(items, |items|);
      ProfileEditsDiverge(items, |items|);
    } else {
      assert profiles == [];
    }
  }

  lemma {:induction false} ProfileEditsDiverge(items: seq<Json>, count: nat)
    requires count <= |items|
    ensures forall e | e in ProfileEdits(items, count) :: Diverge(e.path, FRAME)
  {
    if count > 0 {
      ProfileEditsDiverge(items, count - 1);
      ThreePlaces();
      DivergeBelow(PROFILES, [At(count - 1), Field("timeoutMs")], FRAME);
    }
  }

  /** The first edit raises the limit, and no later one moves it. */
  lemma LimitIsRaised(before: Json, request: Request)
    requires FrameBaseline(before) && Replay(before, PlannedEdits(before, request)).Some?
    ensures Look(Replay(before, PlannedEdits(before, request)).value, FRAME) == Present(Int(TARGET_FRAME_BYTES))
  {
    var edits := PlannedEdits(before, request);
    var later := edits[|FrameEdits(before)|..];
    FrameApplies(before);
    assert edits == FrameEdits(before) + later;
    ReplayConcat(before, FrameEdits(before), later);
    LaterEditsDiverge(before, request);
    ReplayFrame(Replay(before, FrameEdits(before)).value, later, FRAME);
  }

  /** What an accepted review means: the recorded edits lead from the reviewed value to the
      expected one and back, the limit is raised, nothing outside the three places moved, and the
      candidate is the expected value exactly unless the type of some leaf changed. */
  lemma ReviewMeaning(before: Json, after: Json, request: Request, path: Path)
    requires Reviewable(before, after, request)
    ensures var edits := PlannedEdits(before, request);
      var expected := Replay(before, edits).value;
      && Replay(expected, Undoing(edits)) == Some(before)
      && Look(expected, FRAME) == Present(Int(TARGET_FRAME_BYTES))
      && (Untouched(path) ==> Look(expected, path) == Look(before, path))
      && (after == expected <==> SameTypes(after, expected))
  {
    var edits := PlannedEdits(before, request);
    var expected := Replay(before, edits).value;
    ReplayBack(before, edits);
    SameIsExact(after, expected);
    if Look(before, PROFILES).Present? && Look(before, PROFILES).value.Arr? {
      ProfileEditsAllowed(Look(before, PROFILES).value.items, |Look(before, PROFILES).value.items|);
    }
    if Untouched(path) {
      AllowedEditsFrame(before, edits, path);
    }
    LimitIsRaised(before, request);
  }

  /** The profile edits migrate the whole array. */
  lemma {:induction false} ProgressTo(j: Json, items: seq<Json>, count: nat) returns (expected: Json)
    requires Look(j, PROFILES) == Present(Arr(items)) && ValidProfiles(items) && count <= |items|
    ensures Progress(j, items, count, expected, ProfileEdits(items, count))
  {
    if count == 0 {
      ProgressAtFirst(j, items);
      expected := j;
    } else {
      var before := ProgressTo(j, items, count - 1);
      ProgressNext(j, items, count - 1, before, ProfileEdits(items, count - 1));
      expected := Replay(j, ProfileEdits(items, count)).value;
      if !NeedsMigration(items[count - 1]) {
        assert ProfileEdits(items, count - 1) + [] == ProfileEdits(items, count - 1);
      }
    }
  }

  /** The destination of a plugin stands once in the array of paths, and what it replaces no
      longer does. */
  predicate PathInstalled(j: Json, plugin: Plugin) {
    && Look(j, LOAD_PATHS).Present? && Look(j, LOAD_PATHS).value.Arr?
    && Count(Look(j, LOAD_PATHS).value.items, Str(plugin.destination)) == 1
    && Str(plugin.previous) !in Look(j, LOAD_PATHS).value.items
  }

  /** One plugin edit installs its path. */
  lemma PluginInstalls(j: Json, plugin: Plugin)
    requires Applies(j, Replace(LOAD_PATHS, plugin.previous, plugin.destination))
    ensures PathInstalled(Do(j, Replace(LOAD_PATHS, plugin.previous, plugin.destination)), plugin)
  {
    var items := Look(j, LOAD_PATHS).value.items;
    ReplacedBack(items, plugin.previous, plugin.destination);
    WritableAt(j, LOAD_PATHS, Arr(Replaced(items, plugin.previous, plugin.destination)));
    LookWrite(j, LOAD_PATHS, Present(Arr(Replaced(items, plugin.previous, plugin.destination))));
  }

  /** The last plugin of a request has its path installed. */
  lemma LastPluginInstalls(before: Json, past: seq<Edit>, request: Request)
    requires Replay(before, past + PluginEdits(request)).Some?
    ensures var here := Replay(before, past + PluginEdits(request)).value;
      (request.web.Some? ==> PathInstalled(here, request.web.value)) &&
      (request.web.None? && request.model.Some? ==> PathInstalled(here, request.model.value))
  {
    var edits := PluginEdits(request);
    if edits != [] {
      var front, last := past + edits[..|edits| - 1], edits[|edits| - 1];
      assert past + edits == front + [last];
      ReplayConcat(before, front, [last]);
      assert [last][1..] == [];
      PluginInstalls(Replay(before, front).value, Plugin(last.retired, last.installed));
    }
  }

  /** One plugin's path exchanged, position by position. */
  function Swapped(items: seq<Json>, plugin: Plugin): seq<Json> {
    seq(|items|, k requires 0 <= k < |items| =>
      if items[k] == Str(plugin.previous) then Str(plugin.destination) else items[k])
  }

  /** The paths after a request: the model plugin's exchange, then the web-search plugin's. */
  function PathsAfter(items: seq<Json>, request: Request): seq<Json> {
    var first := if request.model.Some? then Swapped(items, request.model.value) else items;
    if request.web.Some? then Swapped(first, request.web.value) else first
  }

  /** The array keeps its length, and a position changes only if it held a path that the request
      replaces. */
  lemma PathsAfterKeeps(items: seq<Json>, request: Request, k: nat)
    requires k < |items|
    ensures |PathsAfter(items, request)| == |items|
    ensures PathsAfter(items, request)[k] != items[k] ==>
      || (request.model.Some? && items[k] == Str(request.model.value.previous))
      || (request.web.Some? && items[k] == Str(request.web.value.previous))
  {
  }

  /** A plugin edit exchanges the path wherever it stands, which is one position. */
  lemma PluginSwaps(j: Json, plugin: Plugin)
    requires Applies(j, Replace(LOAD_PATHS, plugin.previous, plugin.destination))
    ensures var after := Do(j, Replace(LOAD_PATHS, plugin.previous, plugin.destination));
      Look(after, LOAD_PATHS) == Present(Arr(Swapped(Look(j, LOAD_PATHS).value.items, plugin)))
  {
    var items := Look(j, LOAD_PATHS).value.items;
    var there := Replaced(items, plugin.previous, plugin.destination);
    ReplacedBack(items, plugin.previous, plugin.destination);
    assert there == Swapped(items, plugin) by {
      forall k | 0 <= k < |items| ensures there[k] == Swapped(items, plugin)[k] {
        assert there[k] in there;
      }
    }
    WritableAt(j, LOAD_PATHS, Arr(there));
    LookWrite(j, LOAD_PATHS, Present(Arr(there)));
  }

  /** The array of paths is exchanged position by position, or stays as it was without a plugin
      request; and it tells whether the model plugin stays installed. */
  predicate PathsReviewed(before: Json, after: Json, request: Request) {
    if request.model.None? && request.web.None? then Look(after, LOAD_PATHS) == Look(before, LOAD_PATHS)
    else
      && Look(before, LOAD_PATHS).Present? && Look(before, LOAD_PATHS).value.Arr?
      && Look(after, LOAD_PATHS) == Present(Arr(PathsAfter(Look(before, LOAD_PATHS).value.items, request)))
      && (request.model.Some? ==> ModelStays(Look(before, LOAD_PATHS).value.items, request))
  }

  /** What the plugin edits of a request make of the array of paths. */
  lemma PluginPaths(j: Json, request: Request)
    requires Replay(j, PluginEdits(request)).Some?
    ensures var after := Replay(j, PluginEdits(request)).value;
      PathsReviewed(j, after, request)
  {
    var edits := PluginEdits(request);
    if edits != [] {
      var items := Look(j, LOAD_PATHS).value.items;
      var first := Plugin(edits[0].retired, edits[0].installed);
      PluginSwaps(j, first);
      PluginInstalls(j, first);
      CountAbsent(Swapped(items, first), Str(first.destination));
      assert PathInstalled(Do(j, edits[0]), first);
      if |edits| == 2 {
        assert edits[1] == Replace(LOAD_PATHS, request.web.value.previous, request.web.value.destination);
        assert first == request.model.value && edits[1..][0] == edits[1];
        var next := Do(j, edits[0]);
        PluginSwaps(next, request.web.value);
        SwapKeeps(Swapped(items, first), request.web.value, Str(first.destination));
        assert edits[1..][1..] == [];
        assert Replay(Do(next, edits[1]), []) == Some(Do(next, edits[1]));
        assert Replay(next, edits[1..]) == Some(Do(next, edits[1]));
      } else {
        assert edits[1..] == [];
      }
    }
  }

  /** An exchange keeps every other path, and removes the one that it replaces. */
  lemma SwapKeeps(items: seq<Json>, plugin: Plugin, path: Json)
    requires path in items && Str(plugin.destination) !in items
    ensures path in Swapped(items, plugin) <==> path != Str(plugin.previous)
  {
    var k :| 0 <= k < |items| && items[k] == path;
    if path != Str(plugin.previous) {
      assert Swapped(items, plugin)[k] == path;
    }
  }

  /** The model plugin's destination is in the paths at the end exactly when the web-search plugin
      does not replace it. */
  predicate ModelStays(items: seq<Json>, request: Request)
    requires request.model.Some?
  {
    Str(request.model.value.destination) in PathsAfter(items, request) <==>
    request.web.None? || request.web.value.previous != request.model.value.destination
  }

  /** What an accepted review leaves in the edited places: the paths exchanged position by
      position with the last requested plugin installed, and the profiles migrated if that was
      requested or else as they were. */
  lemma ReviewedPlaces(before: Json, after: Json, request: Request)
    requires Reviewable(before, after, request)
    ensures var expected := Replay(before, PlannedEdits(before, request)).value;
      && (request.web.Some? ==> PathInstalled(expected, request.web.value))
      && (request.web.None? && request.model.Some? ==> PathInstalled(expected, request.model.value))
      && PathsReviewed(before, expected, request)
      && (request.timeout.None? ==> Look(expected, PROFILES) == Look(before, PROFILES))
      && (request.timeout.Some? ==>
          var items := Look(before, PROFILES).value.items;
          Look(expected, PROFILES) == Present(Arr(Migrated(items, |items|))))
  {
    var early := FrameEdits(before) + PluginEdits(request);
    var late := PlannedEdits(before, request)[|early|..];
    assert PlannedEdits(before, request) == early + late;
    ReplayConcat(before, early, late);
    var here := Replay(before, early).value;
    LastPluginInstalls(before, FrameEdits(before), request);
    EarlyPaths(before, request);
    EarlierEditsKeepProfiles(before, request);
    if request.timeout.Some? {
      var items := Look(before, PROFILES).value.items;
      assert late == ProfileEdits(items, |items|);
      var expected := ProgressTo(here, items, |items|);
      LookWrite(here, PROFILES, Present(Arr(Migrated(items, |items|))));
      ThreePlaces();
      WriteFrame(here, PROFILES, Present(Arr(Migrated(items, |items|))), LOAD_PATHS);
    } else {
      assert late == [];
    }
  }

  /** The array of paths that an accepted review leaves, in full: each requested plugin's path exchanged
      wherever it stood, the model plugin's first, and the last one installed once. */
  lemma ReviewedPaths(before: Json, after: Json, request: Request)
    requires Reviewable(before, after, request)
    ensures var was := Look(before, [Field("plugins"), Field("load"), Field("paths")]);
      var now :=
        Look(Replay(before, PlannedEdits(before, request)).value, [Field("plugins"), Field("load"), Field("paths")]);
      if request.model.None? && request.web.None? then now == was
      else
        && was.Present? && was.value.Arr? && now.Present? && now.value.Arr?
        && var (items, paths) := (was.value.items, now.value.items);
        && |paths| == |items|
        && (forall k | 0 <= k < |items| ::
              var first := if request.model.Some? && items[k] == Str(request.model.value.previous)
                           then Str(request.model.value.destination) else items[k];
              paths[k] == if request.web.Some? && first == Str(request.web.value.previous)
                          then Str(request.web.value.destination) else first)
        && var last := if request.web.Some? then request.web.value else request.model.value;
        && multiset(paths)[Str(last.destination)] == 1 && Str(last.previous) !in paths
        && (request.model.Some? ==>
              (Str(request.model.value.destination) in paths <==>
               request.web.None? || request.web.value.previous != request.model.value.destination))
  {
    ReviewedPlaces(before, after, request);
    var now := Look(Replay(before, PlannedEdits(before, request)).value, LOAD_PATHS);
    if request.model.Some? || request.web.Some? {
      var last := if request.web.Some? then request.web.value else request.model.value;
      CountIsMultiplicity(now.value.items, Str(last.destination));
    }
  }

  /** The profiles that an accepted review leaves, in full. */
  lemma ReviewedProfiles(before: Json, after: Json, request: Request)
    requires Reviewable(before, after, request)
    ensures var profiles := [Field("plugins"), Field("entries"), Field("dalton-openclaw-model-broker"),
                             Field("config"), Field("profiles")];
      var (was, now) := (Look(before, profiles), Look(Replay(before, PlannedEdits(before, request)).value, profiles));
      && (request.timeout.None? ==> now == was)
      && (request.timeout.Some? ==>
            && was.Present? && was.value.Arr? && now.Present? && now.value.Arr?
            && |now.value.items| == |was.value.items|
            && forall k | 0 <= k < |was.value.items| ::
              var p := was.value.items[k];
              && p.Obj? && "timeoutMs" in p.fields
              && now.value.items[k] ==
                 if p.fields["timeoutMs"] == Int(600_000) || p.fields["timeoutMs"] == Int(900_000)
                 then Obj(p.fields["timeoutMs" := Int(1_800_000)]) else p)
  {
    ReviewedPlaces(before, after, request);
    assert PROFILES == [Field("plugins"), Field("entries"), Field("dalton-openclaw-model-broker"), Field("config"),
                        Field("profiles")];
  }

  lemma {:induction false} CountIsMultiplicity(items: seq<Json>, item: Json)
    ensures Count(items, item) == multiset(items)[item]
  {
    if items != [] {
      CountIsMultiplicity(items[1..], item);
      assert items == [items[0]] + items[1..];
    }
  }

  /** The paths before the profiles are migrated. */
  lemma EarlyPaths(before: Json, request: Request)
    requires Replay(before, FrameEdits(before) + PluginEdits(request)).Some?
    ensures PathsReviewed(before, Replay(before, FrameEdits(before) + PluginEdits(request)).value, request)
  {
    ReplayConcat(before, FrameEdits(before), PluginEdits(request));
    ThreePlaces();
    ReplayFrame(before, FrameEdits(before), LOAD_PATHS);
    PluginPaths(Replay(before, FrameEdits(before)).value, request);
  }

  /** Every accepted candidate that holds `true` somewhere off the frame limit has an accepted
      sibling that holds `1` there instead. */
  lemma TypeChangeIsAccepted(before: Json, after: Json, request: Request, path: Path)
    requires Reviewable(before, after, request)
    requires Diverge(path, FRAME) && Look(after, path) == Present(Bool(true))
    ensures Writable(after, path, Present(Int(1)))
    ensures var sibling := Write(after, path, Present(Int(1))); Reviewable(before, sibling, request) && sibling != after
  {
    WritableAt(after, path, Int(1));
    WritableAt(after, path, Bool(true));
    WriteLook(after, path);
    WriteSame(after, path, Int(1), Bool(true));
    LookWrite(after, path, Present(Int(1)));
    WriteFrame(after, path, Present(Int(1)), FRAME);
  }
}
