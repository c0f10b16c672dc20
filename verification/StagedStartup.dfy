/** The restart at the end of a fleet switch: the agents fall into five groups, each group is
    bootstrapped with one bounded retry, and nothing but writers starts before every writer
    socket accepts a connection. */
module StagedStartup {
  import opened Wrappers

  /** A launch agent: its label, the label and the arguments that its plist declares. */
  datatype Agent = Agent(name: string, declared: string, arguments: seq<string>)

  datatype Row = Row(name: string, socket: Option<string>)

  /** What `launchctl` or a connection attempt answered. */
  datatype Event = Stopped(name: string) | Started(name: string, ok: bool) | Probed(name: string, ok: bool)

  // ------------------------------------------------------------ groups

  predicate EndsWith(s: string, suffix: string) {
    |suffix| <= |s| && s[|s| - |suffix|..] == suffix
  }

  predicate Contains(s: string, part: string) {
    exists i :: 0 <= i <= |s| && part <= s[i..]
  }

  function Stage(name: string): (stage: nat)
    ensures stage < 5
  {
    if EndsWith(name, ".writer") then 0
    else if EndsWith(name, ".control") then 1
    else if EndsWith(name, ".controller") then 2
    else if Contains(name, "publication-worker") then 4
    else 3
  }

  /** The stage of a label by its ending, and by what it contains. */
  lemma StageOfLabel(name: string)
    ensures Stage(name) == 0 <==> exists head :: name == head + ".writer"
    ensures Stage(name) == 1 <==> exists head :: name == head + ".control"
    ensures Stage(name) == 2 <==> exists head :: name == head + ".controller"
    ensures Stage(name) == 4 <==>
      && (exists head, tail :: name == head + "publication-worker" + tail)
      && (forall head :: name != head + ".writer" && name != head + ".control" && name != head + ".controller")
    ensures Stage(name) < 5
  {
    EndingSplits(name, ".writer");
    EndingSplits(name, ".control");
    EndingSplits(name, ".controller");
    PartSplits(name, "publication-worker");
    EndingsDiffer(name);
  }

  lemma EndingsDiffer(name: string)
    ensures EndsWith(name, ".writer") ==> !EndsWith(name, ".control") && !EndsWith(name, ".controller")
    ensures EndsWith(name, ".control") ==> !EndsWith(name, ".controller")
  {
    if EndsWith(name, ".writer") { assert name[|name| - 1] == 'r' && name[|name| - 4] == 'i'; }
    if EndsWith(name, ".control") { assert name[|name| - 1] == 'l'; }
    if EndsWith(name, ".controller") { assert name[|name| - 1] == 'r' && name[|name| - 4] == 'l'; }
  }

  lemma EndingSplits(s: string, suffix: string)
    ensures EndsWith(s, suffix) <==> exists head :: s == head + suffix
  {
    if EndsWith(s, suffix) {
      assert s == s[..|s| - |suffix|] + suffix;
    }
  }

  lemma PartSplits(s: string, part: string)
    ensures Contains(s, part) <==> exists head, tail :: s == head + part + tail
  {
    if Contains(s, part) {
      var i :| 0 <= i <= |s| && part <= s[i..];
      assert s == s[..i] + part + s[i + |part|..];
    }
    if head, tail :| s == head + part + tail {
      assert s[|head|..] == part + tail;
    }
  }

  /** The arguments that follow a `--socket`. */
  function SocketOptions(arguments: seq<string>): seq<string> {
    if |arguments| < 2 then []
    else (if arguments[0] == "--socket" then [arguments[1]] else []) + SocketOptions(arguments[1..])
  }

  /** A writer names itself, runs the writer server, and has one absolute socket. */
  predicate WriterOk(a: Agent) {
    && a.declared == a.name
    && |a.arguments| >= 3 && a.arguments[1..3] == ["-m", "dalton_core.writer_server"]
    && |SocketOptions(a.arguments)| == 1 && "/" <= SocketOptions(a.arguments)[0]
  }

  /** The only `--socket` with an argument is the one at `i`. */
  predicate OnlySocketAt(arguments: seq<string>, i: int) {
    && 0 <= i < |arguments| - 1 && arguments[i] == "--socket"
    && forall j | 0 <= j < |arguments| - 1 && arguments[j] == "--socket" :: j == i
  }

  lemma {:induction false} NoSocket(arguments: seq<string>)
    ensures SocketOptions(arguments) == [] <==> forall j | 0 <= j < |arguments| - 1 :: arguments[j] != "--socket"
  {
    if |arguments| >= 2 {
      NoSocket(arguments[1..]);
      assert forall j | 0 < j < |arguments| - 1 :: arguments[j] == arguments[1..][j - 1];
      assert forall j | 0 <= j < |arguments| - 2 :: arguments[1..][j] == arguments[j + 1];
    }
  }

  lemma {:induction false} SocketFound(arguments: seq<string>, i: int)
    requires OnlySocketAt(arguments, i)
    ensures SocketOptions(arguments) == [arguments[i + 1]]
  {
    assert forall j | 0 <= j < |arguments| - 2 :: arguments[1..][j] == arguments[j + 1];
    if i == 0 {
      NoSocket(arguments[1..]);
    } else {
      SocketFound(arguments[1..], i - 1);
    }
  }

  lemma {:induction false} SocketPlace(arguments: seq<string>) returns (i: int)
    requires |SocketOptions(arguments)| == 1
    ensures OnlySocketAt(arguments, i) && SocketOptions(arguments) == [arguments[i + 1]]
  {
    assert forall j | 0 < j < |arguments| - 1 :: arguments[j] == arguments[1..][j - 1];
    if arguments[0] == "--socket" {
      NoSocket(arguments[1..]);
      i := 0;
    } else {
      i := SocketPlace(arguments[1..]);
      i := i + 1;
    }
  }

  /** A writer is in order when it declares its own label, runs the writer server, and one place of
      its arguments, and no other, holds a `--socket` that an absolute path follows; its row carries
      that path. */
  lemma WriterInOrder(a: Agent)
    ensures WriterOk(a) <==>
      && a.declared == a.name
      && |a.arguments| >= 3 && a.arguments[1] == "-m" && a.arguments[2] == "dalton_core.writer_server"
      && exists i :: 0 <= i < |a.arguments| - 1 && a.arguments[i] == "--socket"
                     && (forall j | 0 <= j < |a.arguments| - 1 && a.arguments[j] == "--socket" :: j == i)
                     && a.arguments[i + 1] != "" && a.arguments[i + 1][0] == '/'
    ensures Stage(a.name) == 0 && WriterOk(a) ==>
      exists i :: 0 <= i < |a.arguments| - 1 && a.arguments[i] == "--socket"
                  && RowOf(a) == Row(a.name, Some(a.arguments[i + 1]))
    ensures Stage(a.name) != 0 ==> RowOf(a) == Row(a.name, None)
  {
    var arguments := a.arguments;
    if |SocketOptions(arguments)| == 1 {
      var i := SocketPlace(arguments);
      assert "/" <= SocketOptions(arguments)[0] <==> arguments[i + 1] != "" && arguments[i + 1][0] == '/';
    }
    forall i | 0 <= i < |arguments| - 1 && arguments[i] == "--socket" &&
      forall j | 0 <= j < |arguments| - 1 && arguments[j] == "--socket" :: j == i
      ensures SocketOptions(arguments) == [arguments[i + 1]]
    {
      SocketFound(arguments, i);
    }
    assert |arguments| >= 3 ==> arguments[1..3] == [arguments[1], arguments[2]];
  }

  predicate Acceptable(a: Agent) {
    Stage(a.name) == 0 ==> WriterOk(a)
  }

  const MAX_READY_MS := 600_000

  function RowOf(a: Agent): Row
    requires Acceptable(a)
  {
    Row(a.name, if Stage(a.name) == 0 then Some(SocketOptions(a.arguments)[0]) else None)
  }

  function Rows(agents: seq<Agent>): seq<Row>
    requires forall a | a in agents :: Acceptable(a)
  {
    seq(|agents|, k requires 0 <= k < |agents| => RowOf(agents[k]))
  }

  function Stages(agents: seq<Agent>): seq<nat> {
    seq(|agents|, k requires 0 <= k < |agents| => Stage(agents[k].name))
  }

  /** The items with the given key, in order. */
  function Select<T>(keys: seq<nat>, items: seq<T>, key: nat): seq<T>
    requires |keys| == |items|
  {
    if items == [] then []
    else
      var n := |items| - 1;
      Select(keys[..n], items[..n], key) + if keys[n] == key then [items[n]] else []
  }

  /** The rows of one stage, in order. */
  function Members(agents: seq<Agent>, stage: nat): seq<Row>
    requires forall a | a in agents :: Acceptable(a)
  {
    Select(Stages(agents), Rows(agents), stage)
  }

  /** What the first groups hold together. */
  function Together<T>(keys: seq<nat>, items: seq<T>, groups: nat): multiset<T>
    requires |keys| == |items|
  {
    if groups == 0 then multiset{} else Together(keys, items, groups - 1) + multiset(Select(keys, items, groups - 1))
  }

  function One<T>(item: T, there: bool): multiset<T> {
    if there then multiset{item} else multiset{}
  }

  lemma SelectNext<T>(keys: seq<nat>, items: seq<T>, key: nat)
    requires |keys| == |items| > 0
    ensures var n := |items| - 1;
      multiset(Select(keys, items, key)) == multiset(Select(keys[..n], items[..n], key)) + One(items[n], keys[n] == key)
  {
  }

  lemma {:induction false} TogetherNext<T>(keys: seq<nat>, items: seq<T>, groups: nat)
    requires |keys| == |items| > 0
    ensures var n := |items| - 1;
      Together(keys, items, groups) == Together(keys[..n], items[..n], groups) + One(items[n], keys[n] < groups)
  {
    if groups > 0 {
      TogetherNext(keys, items, groups - 1);
      SelectNext(keys, items, groups - 1);
    }
  }

  lemma {:induction false} NothingTogether<T>(groups: nat)
    ensures Together<T>([], [], groups) == multiset{}
  {
    if groups > 0 {
      NothingTogether<T>(groups - 1);
    }
  }

  /** Groups for all keys hold every item as often as the list does. */
  lemma {:induction false} SelectPartition<T>(keys: seq<nat>, items: seq<T>, groups: nat)
    requires |keys| == |items| && forall k | 0 <= k < |keys| :: keys[k] < groups
    ensures Together(keys, items, groups) == multiset(items)
  {
    if items == [] {
      NothingTogether<T>(groups);
    } else {
      var n := |items| - 1;
      SelectPartition(keys[..n], items[..n], groups);
      TogetherNext(keys, items, groups);
      assert items == items[..n] + [items[n]];
    }
  }

  /** The groups of stages 0 to 4 together hold every agent's row as often as the list does. */
  lemma GroupsPartition(agents: seq<Agent>)
    requires forall a | a in agents :: Acceptable(a)
    ensures Together(Stages(agents), Rows(agents), 5) == multiset(Rows(agents))
  {
    SelectPartition(Stages(agents), Rows(agents), 5);
  }

  lemma {:induction false} SelectAre<T>(keys: seq<nat>, items: seq<T>, key: nat)
    requires |keys| == |items|
    ensures forall item | item in Select(keys, items, key) ::
      exists k :: 0 <= k < |items| && items[k] == item && keys[k] == key
    ensures forall k | 0 <= k < |items| && keys[k] == key :: items[k] in Select(keys, items, key)
  {
    if items != [] {
      SelectAre(keys[..|items| - 1], items[..|items| - 1], key);
    }
  }

  /** The members of a stage are the rows of the agents at that stage. */
  lemma MembersAre(agents: seq<Agent>, stage: nat)
    requires forall a | a in agents :: Acceptable(a)
    ensures forall row | row in Members(agents, stage) :: Stage(row.name) == stage
    ensures forall a | a in agents && Stage(a.name) == stage :: RowOf(a) in Members(agents, stage)
  {
    SelectAre(Stages(agents), Rows(agents), stage);
    forall a | a in agents && Stage(a.name) == stage ensures RowOf(a) in Members(agents, stage) {
      var k :| 0 <= k < |agents| && agents[k] == a;
      assert Rows(agents)[k] == RowOf(a) && Stages(agents)[k] == stage;
    }
  }

  lemma MembersNext(agents: seq<Agent>, i: nat, stage: nat)
    requires i < |agents| && forall a | a in agents[..i + 1] :: Acceptable(a)
    ensures (forall a | a in agents[..i] :: Acceptable(a)) && Acceptable(agents[i])
    ensures Members(agents[..i + 1], stage) ==
      Members(agents[..i], stage) + if Stage(agents[i].name) == stage then [RowOf(agents[i])] else []
  {
    assert forall a | a in agents[..i] :: a in agents[..i + 1];
    assert agents[..i + 1][i] == agents[i];
    assert Stages(agents[..i + 1])[..i] == Stages(agents[..i]);
    assert Rows(agents[..i + 1])[..i] == Rows(agents[..i]);
  }

  /** One agent more, put into its group. */
  lemma SortedNext(agents: seq<Agent>, i: nat, sorted: seq<seq<Row>>)
    requires i < |agents| && Acceptable(agents[i]) && forall a | a in agents[..i] :: Acceptable(a)
    requires |sorted| == 5 && forall g | 0 <= g < 5 :: sorted[g] == Members(agents[..i], g)
    ensures forall a | a in agents[..i + 1] :: Acceptable(a)
    ensures var stage := Stage(agents[i].name);
      var next := sorted[stage := sorted[stage] + [RowOf(agents[i])]];
      forall g | 0 <= g < 5 :: next[g] == Members(agents[..i + 1], g)
  {
    assert agents[..i + 1] == agents[..i] + [agents[i]];
    forall g | 0 <= g < 5
      ensures Members(agents[..i + 1], g) ==
        Members(agents[..i], g) + if Stage(agents[i].name) == g then [RowOf(agents[i])] else []
    {
      MembersNext(agents, i, g);
    }
  }

  /** Validate the writers and sort the agents into their groups; any writer at fault refuses
      the switch. */
  method StartupGroups(agents: seq<Agent>) returns (groups: Option<seq<seq<Row>>>)
    ensures groups.Some? <==> forall a | a in agents :: Acceptable(a)
    ensures groups.Some? ==> |groups.value| == 5 && forall g | 0 <= g < 5 :: groups.value[g] == Members(agents, g)
  {
    var sorted: seq<seq<Row>> := [[], [], [], [], []];
    for i := 0 to |agents|
      invariant |sorted| == 5 && forall a | a in agents[..i] :: Acceptable(a)
      invariant forall g | 0 <= g < 5 :: sorted[g] == Members(agents[..i], g)
    {
      var a := agents[i];
      if !Acceptable(a) { return None; }
      SortedNext(agents, i, sorted);
      sorted := sorted[Stage(a.name) := sorted[Stage(a.name)] + [RowOf(a)]];
    }
    assert agents[..|agents|] == agents;
    groups := Some(sorted);
  }

  // ------------------------------------------------------------ what a trace may contain

  /** The agents of all earlier stages have started, and before anything but a writer every
      writer has accepted a connection. */
  predicate Ready(past: seq<Event>, agents: seq<Agent>, stage: nat) {
    forall a | a in agents ::
      && (Stage(a.name) < stage ==> Started(a.name, true) in past)
      && (Stage(a.name) == 0 < stage ==> Probed(a.name, true) in past)
  }

  /** No start comes before what it depends on. */
  ghost predicate Staged(trace: seq<Event>, agents: seq<Agent>) {
    forall k | 0 <= k < |trace| && trace[k].Started? :: Ready(trace[..k], agents, Stage(trace[k].name))
  }

  /** A stretch of one stage may follow once the stage is ready. */
  lemma StagedThen(trace: seq<Event>, more: seq<Event>, agents: seq<Agent>, stage: nat)
    requires Staged(trace, agents) && Ready(trace, agents, stage)
    requires forall e | e in more && e.Started? :: Stage(e.name) == stage
    ensures Staged(trace + more, agents)
  {
    var whole := trace + more;
    forall k | 0 <= k < |whole| && whole[k].Started? ensures Ready(whole[..k], agents, Stage(whole[k].name)) {
      if k < |trace| {
        assert whole[..k] == trace[..k];
      } else {
        assert whole[k] in more;
        assert whole[..k] == trace + more[..k - |trace|];
      }
    }
  }

  function Tries(rows: seq<Row>, answers: seq<bool>): seq<Event>
    requires |answers| <= |rows|
  {
    seq(|answers|, k requires 0 <= k < |answers| => Started(rows[k].name, answers[k]))
  }

  function Stops(rows: seq<Row>): seq<Event> {
    seq(|rows|, k requires 0 <= k < |rows| => Stopped(rows[k].name))
  }

  /** The rows whose first start failed, in order. */
  function Failed(rows: seq<Row>, answers: seq<bool>): seq<Row>
    requires |answers| <= |rows|
  {
    if answers == [] then []
    else
      var n := |answers| - 1;
      Failed(rows, answers[..n]) + if answers[n] then [] else [rows[n]]
  }

  lemma {:induction false} FailedAre(rows: seq<Row>, answers: seq<bool>)
    requires |answers| <= |rows|
    ensures forall k | 0 <= k < |answers| && !answers[k] :: rows[k] in Failed(rows, answers)
    ensures forall row | row in Failed(rows, answers) :: row in rows
  {
    if answers != [] {
      FailedAre(rows, answers[..|answers| - 1]);
    }
  }

  /** Everybody tried once; those who failed stopped and tried once more, up to the first who
      failed again. */
  predicate BoundedRetry(events: seq<Event>, rows: seq<Row>, first: seq<bool>, second: seq<bool>, raised: bool) {
    && |first| == |rows| && |second| <= |Failed(rows, first)|
    && events ==
      Tries(rows, first) + (if Failed(rows, first) == [] then [] else Stops(Failed(rows, first)))
      + Tries(Failed(rows, first), second)
    && (forall k | 0 <= k < |second| :: second[k] <==> !(raised && k == |second| - 1))
    && (raised ==> second != [])
    && (!raised ==> |second| == |Failed(rows, first)|)
  }

  /** A group that came through has every member started; and nothing else was touched. */
  lemma BoundedRetryStarts(events: seq<Event>, rows: seq<Row>, first: seq<bool>, second: seq<bool>, raised: bool)
    requires BoundedRetry(events, rows, first, second, raised)
    ensures !raised ==> forall row | row in rows :: Started(row.name, true) in events
    ensures forall e | e in events :: exists row :: row in rows && row.name == e.name
  {
    var failed := Failed(rows, first);
    FailedAre(rows, first);
    var (tries, stops, retries) :=
      (Tries(rows, first), if failed == [] then [] else Stops(failed), Tries(failed, second));
    if !raised {
      forall row | row in rows ensures Started(row.name, true) in events {
        var k :| 0 <= k < |rows| && rows[k] == row;
        if first[k] {
          assert tries[k] in events;
        } else {
          var j :| 0 <= j < |failed| && failed[j] == row;
          assert retries[j] == Started(row.name, true);
        }
      }
    }
    forall e | e in events ensures exists row :: row in rows && row.name == e.name {
      if k :| 0 <= k < |tries| && tries[k] == e {
        assert rows[k] in rows;
      } else if k :| 0 <= k < |stops| && stops[k] == e {
        assert failed[k] in rows;
      } else {
        var k :| 0 <= k < |retries| && retries[k] == e;
        assert failed[k] in rows;
      }
    }
  }

  /** A group's trace, event by event: one start each in order, then the stops of those that failed,
      then their second starts, which succeed but for the last one of a group that raises. */
  lemma GroupTrace(events: seq<Event>, rows: seq<Row>, first: seq<bool>, second: seq<bool>, raised: bool)
    requires BoundedRetry(events, rows, first, second, raised)
    ensures var (failed, n, f) := (Failed(rows, first), |rows|, |Failed(rows, first)|);
      && |first| == n && |events| == n + f + |second| && |second| <= f
      && (forall k | 0 <= k < n :: events[k] == Started(rows[k].name, first[k]))
      && (forall k | 0 <= k < f :: events[n + k] == Stopped(failed[k].name))
      && (forall k | 0 <= k < |second| ::
            events[n + f + k] == Started(failed[k].name, !raised || k < |second| - 1))
      && (if raised then |second| > 0 else |second| == f)
  {
    var failed := Failed(rows, first);
    var (tries, stops, retries) :=
      (Tries(rows, first), if failed == [] then [] else Stops(failed), Tries(failed, second));
    assert events == tries + stops + retries && |stops| == |failed|;
    assert forall k | 0 <= k < |second| :: (tries + stops + retries)[|rows| + |failed| + k] == retries[k];
  }

  /** Those that failed at first are exactly the rows whose start was refused, in the order of the
      rows. */
  lemma {:induction false} FailedInOrder(rows: seq<Row>, answers: seq<bool>) returns (places: seq<nat>)
    requires |answers| <= |rows|
    ensures |places| == |Failed(rows, answers)|
    ensures forall j | 0 <= j < |places| :: places[j] < |answers| && Failed(rows, answers)[j] == rows[places[j]]
    ensures forall i, j | 0 <= i < j < |places| :: places[i] < places[j]
    ensures forall k | 0 <= k < |answers| :: k in places <==> !answers[k]
  {
    places := [];
    if answers != [] {
      var n := |answers| - 1;
      places := FailedInOrder(rows, answers[..n]);
      assert forall k | k in places :: k < n;
      if !answers[n] { places := places + [n]; }
    }
  }

  // ------------------------------------------------------------ the program

  class Startup {
    var actions: seq<Event>
    /** The monotonic clock, in milliseconds. */
    var clock: nat

    /** Ask launchd to start an agent; the answer is not ours. */
    method Launch(name: string) returns (ok: bool)
      modifies this`actions
      ensures actions == old(actions) + [Started(name, ok)]
    {
      ok := *;
      actions := actions + [Started(name, ok)];
    }

    method StopAll(rows: seq<Row>)
      modifies this`actions
      ensures actions == old(actions) + Stops(rows)
    {
      for i := 0 to |rows|
        invariant actions == old(actions) + Stops(rows[..i])
      {
        assert Stops(rows[..i + 1]) == Stops(rows[..i]) + [Stopped(rows[i].name)];
        actions := actions + [Stopped(rows[i].name)];
      }
      assert rows[..|rows|] == rows;
    }

    /** Start every row once and remember those that failed. */
    method StartEach(rows: seq<Row>) returns (failed: seq<Row>, ghost answers: seq<bool>)
      modifies this`actions
      ensures |answers| == |rows| && actions == old(actions) + Tries(rows, answers) && failed == Failed(rows, answers)
    {
      failed, answers := [], [];
      for i := 0 to |rows|
        invariant |answers| == i && actions == old(actions) + Tries(rows, answers) && failed == Failed(rows, answers)
      {
        var ok := Launch(rows[i].name);
        assert Tries(rows, answers + [ok]) == Tries(rows, answers) + [Started(rows[i].name, ok)];
        assert (answers + [ok])[..i] == answers;
        answers := answers + [ok];
        if !ok { failed := failed + [rows[i]]; }
      }
    }

    /** Start row after row until one fails. */
    method StartUntilFailure(rows: seq<Row>) returns (raised: bool, ghost answers: seq<bool>)
      modifies this`actions
      ensures |answers| <= |rows| && actions == old(actions) + Tries(rows, answers)
      ensures forall k | 0 <= k < |answers| :: answers[k] <==> !(raised && k == |answers| - 1)
      ensures if raised then answers != [] else |answers| == |rows|
    {
      raised, answers := false, [];
      for i := 0 to |rows|
        invariant |answers| == i && actions == old(actions) + Tries(rows, answers)
        invariant forall k | 0 <= k < i :: answers[k]
      {
        var ok := Launch(rows[i].name);
        assert Tries(rows, answers + [ok]) == Tries(rows, answers) + [Started(rows[i].name, ok)];
        answers := answers + [ok];
        if !ok { return true, answers; }
      }
    }

    /** Start a group, with one retry for those that fail. */
    method BootstrapGroup(rows: seq<Row>)
      returns (raised: bool, ghost events: seq<Event>, ghost first: seq<bool>, ghost second: seq<bool>)
      modifies this`actions
      ensures actions == old(actions) + events && BoundedRetry(events, rows, first, second, raised)
    {
      var failed;
      failed, first := StartEach(rows);
      raised, second := false, [];
      if failed != [] {
        StopAll(failed);
        raised, second := StartUntilFailure(failed);
      }
      events := Tries(rows, first) + (if failed == [] then [] else Stops(failed)) + Tries(failed, second);
    }

    /** One pass over the sockets; the answers are not ours. */
    method Probe(rows: seq<Row>) returns (all: bool, ghost events: seq<Event>)
      modifies this`actions
      ensures actions == old(actions) + events && |events| == |rows|
      ensures forall k | 0 <= k < |rows| :: events[k].Probed? && events[k].name == rows[k].name
      ensures all <==> forall k | 0 <= k < |rows| :: events[k].ok
    {
      all, events := true, [];
      for i := 0 to |rows|
        invariant |events| == i && actions == old(actions) + events
        invariant forall k | 0 <= k < i :: events[k].Probed? && events[k].name == rows[k].name
        invariant all <==> forall k | 0 <= k < i :: events[k].ok
      {
        var ok: bool := *;
        actions, events := actions + [Probed(rows[i].name, ok)], events + [Probed(rows[i].name, ok)];
        all := all && ok;
      }
    }

    /** Time passes: at least the given amount. */
    method Sleep(amount: nat)
      modifies this`clock
      ensures clock >= old(clock) + amount
    {
      var more: int := *;
      clock := clock + amount + if more > 0 then more else 0;
    }

    /** Poll until every writer accepts a connection in one pass, or the deadline has passed. */
    method WaitWriterSockets(rows: seq<Row>, milliseconds: nat) returns (ready: bool, ghost events: seq<Event>)
      modifies this`actions, this`clock
      ensures actions == old(actions) + events && |events| >= |rows|
      ensures forall e | e in events :: e.Probed?
      ensures ready ==> forall k | 0 <= k < |rows| :: events[|events| - |rows|..][k] == Probed(rows[k].name, true)
      ensures !ready ==> clock >= old(clock) + milliseconds
      ensures !ready ==>
        exists k :: 0 <= k < |rows| && events[|events| - |rows|..][k] == Probed(rows[k].name, false)
    {
      var deadline := clock + milliseconds;
      events := [];
      while true
        invariant actions == old(actions) + events && forall e | e in events :: e.Probed?
        decreases if deadline > clock then deadline - clock + 1 else 0
      {
        var all, pass := Probe(rows);
        ghost var before := events;
        events := events + pass;
        assert events[|events| - |rows|..] == pass;
        if all { return true, events; }
        ghost var k :| 0 <= k < |rows| && !pass[k].ok;
        assert events[|events| - |rows|..][k] == Probed(rows[k].name, false);
        if clock >= deadline { return false, events; }
        Sleep(if deadline - clock < 200 then deadline - clock else 200);
      }
    }

    /** Bootstrap one stage of an ordered start. */
    method BootstrapStage(agents: seq<Agent>, stage: nat, group: seq<Row>, ghost past: seq<Event>)
      returns (raised: bool, ghost trace: seq<Event>)
      requires (forall a | a in agents :: Acceptable(a)) && group == Members(agents, stage)
      requires Staged(past, agents) && Ready(past, agents, stage)
      modifies this`actions
      ensures past <= trace && actions == old(actions) + trace[|past|..]
      ensures Staged(trace, agents)
      ensures !raised ==> forall a | a in agents && Stage(a.name) == stage :: Started(a.name, true) in trace
    {
      ghost var events, first, second;
      raised, events, first, second := BootstrapGroup(group);
      BoundedRetryStarts(events, group, first, second, raised);
      MembersAre(agents, stage);
      StagedThen(past, events, agents, stage);
      trace := past + events;
      assert !raised ==> forall a | a in agents && Stage(a.name) == stage :: Started(RowOf(a).name, true) in events;
    }

    /** Start the writers and wait until all of them accept a connection. */
    method StartWriters(agents: seq<Agent>, group: seq<Row>, milliseconds: nat)
      returns (ready: bool, ghost trace: seq<Event>)
      requires (forall a | a in agents :: Acceptable(a)) && group == Members(agents, 0)
      modifies this`actions, this`clock
      ensures actions == old(actions) + trace && Staged(trace, agents)
      ensures ready ==> Ready(trace, agents, 1)
    {
      var raised;
      raised, trace := BootstrapStage(agents, 0, group, []);
      if raised { return false, trace; }
      ghost var probes;
      ghost var before := trace;
      ready, probes := WaitWriterSockets(group, milliseconds);
      StagedThen(before, probes, agents, 0);
      trace := before + probes;
      if ready {
        AllProbed(agents, probes);
      }
    }

    /** Stop everything, then start group by group. */
    method Restart(agents: seq<Agent>, milliseconds: nat) returns (started: bool, ghost trace: seq<Event>)
      modifies this
      // Nothing moves when a writer or the time limit is at fault; else all are stopped first.
      ensures actions == old(actions) +
        if (forall a | a in agents && Stage(a.name) == 0 :: WriterOk(a)) && milliseconds <= 600_000
        then seq(|agents|, k requires 0 <= k < |agents| => Stopped(agents[k].name)) + trace else []
      ensures !(forall a | a in agents && Stage(a.name) == 0 :: WriterOk(a)) || milliseconds > 600_000 ==> !started
      // On every path, a start comes after those of all earlier stages, and after a connection to
      // every writer unless it is one.
      ensures forall k, a | 0 <= k < |trace| && trace[k].Started? && a in agents ::
        && (Stage(a.name) < Stage(trace[k].name) ==> Started(a.name, true) in trace[..k])
        && (Stage(a.name) == 0 < Stage(trace[k].name) ==> Probed(a.name, true) in trace[..k])
      ensures started ==> forall a | a in agents :: Started(a.name, true) in trace
      ensures started ==> forall a | a in agents && Stage(a.name) == 0 :: Probed(a.name, true) in trace
    {
      trace := [];
      var sorted := StartupGroups(agents);
      if sorted.None? || milliseconds > MAX_READY_MS { return false, trace; }
      var groups := sorted.value;
      StopAll(Rows(agents));
      assert Stops(Rows(agents)) == seq(|agents|, k requires 0 <= k < |agents| => Stopped(agents[k].name));
      started, trace := StartAll(agents, groups, milliseconds);
    }

    /** Start group by group, with the wait for the sockets after the first. */
    method StartAll(agents: seq<Agent>, groups: seq<seq<Row>>, milliseconds: nat)
      returns (started: bool, ghost trace: seq<Event>)
      requires forall a | a in agents :: Acceptable(a)
      requires |groups| == 5 && forall g | 0 <= g < 5 :: groups[g] == Members(agents, g)
      modifies this`actions, this`clock
      ensures actions == old(actions) + trace && Staged(trace, agents)
      ensures started ==> Ready(trace, agents, 5)
    {
      started, trace := StartWriters(agents, groups[0], milliseconds);
      if !started { return; }
      for g := 1 to 5
        invariant actions == old(actions) + trace
        invariant Staged(trace, agents) && Ready(trace, agents, g)
      {
        ghost var past := trace;
        var raised;
        raised, trace := BootstrapStage(agents, g, groups[g], past);
        assert trace == past + trace[|past|..];
        if raised { return false, trace; }
      }
    }
  }

  /** A last pass over the writers' rows is a pass over the writers. */
  lemma AllProbed(agents: seq<Agent>, probes: seq<Event>)
    requires forall a | a in agents :: Acceptable(a)
    requires var rows := Members(agents, 0);
      |probes| >= |rows| && forall k | 0 <= k < |rows| :: probes[|probes| - |rows|..][k] == Probed(rows[k].name, true)
    ensures forall a | a in agents && Stage(a.name) == 0 :: Probed(a.name, true) in probes
  {
    var rows := Members(agents, 0);
    MembersAre(agents, 0);
    forall a | a in agents && Stage(a.name) == 0 ensures Probed(a.name, true) in probes {
      assert RowOf(a) in rows;
      var k :| 0 <= k < |rows| && rows[k] == RowOf(a);
      assert probes[|probes| - |rows|..][k] in probes;
    }
  }
}
