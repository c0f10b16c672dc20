/** The compaction of the router's idempotency table: rows that carry a whole decision are
    rewritten into references, batch by batch, while other connections may append. */
module RouteCompaction {
  import opened Wrappers

  /** A decision document, by content. */
  type Decision = string

  datatype Value = Text(s: string) | Tree(decision: Decision)

  /** `result_json`: an object, or anything else. */
  datatype Stored = Object(fields: map<string, Value>) | NotObject

  datatype Row = Row(key: string, decisionId: string, result: Stored)

  /** The idempotency table by rowid, and the immutable decisions by id. */
  type Table = map<int, Row>
  type Decisions = map<string, Decision>

  const REFERENCE := Text("model-route-idempotency-result-ref:v1")

  function ReferenceTo(decisionId: string): Stored {
    Object(map["result" := REFERENCE, "status" := Text("fresh"), "decision_ref" := Text(decisionId)])
  }

  /** The SQL condition of a row that the script rewrites. */
  predicate InlineCopy(row: Row, decisions: Decisions) {
    && row.decisionId in decisions
    && row.result == Object(map["status" := Text("fresh"), "decision" := Tree(decisions[row.decisionId])])
  }

  /** The answer to a repeated request; `None` is an exception. */
  function Replay(row: Row, decisions: Decisions): Option<map<string, Value>> {
    match row.result
    case NotObject => None
    case Object(fields) =>
      if "result" in fields && fields["result"] == REFERENCE then
        if "decision_ref" in fields && fields["decision_ref"] == Text(row.decisionId) && row.decisionId in decisions
        then Some(map["status" := Text("duplicate"), "decision" := Tree(decisions[row.decisionId])])
        else None
      else Some(fields["status" := Text("duplicate")])
  }

  function Rewritten(row: Row): Row {
    row.(result := ReferenceTo(row.decisionId))
  }

  /** A rewritten row answers as before, and is no inline copy any more. */
  lemma RewriteKeepsReplay(row: Row, decisions: Decisions)
    requires InlineCopy(row, decisions)
    ensures Replay(Rewritten(row), decisions) == Replay(row, decisions)
    ensures !InlineCopy(Rewritten(row), decisions)
  {
    var fields := map["status" := Text("fresh"), "decision" := Tree(decisions[row.decisionId])];
    assert "result" !in fields;
    assert fields["status" := Text("duplicate")] ==
      map["status" := Text("duplicate"), "decision" := Tree(decisions[row.decisionId])];
    assert "result" in Rewritten(row).result.fields;
  }

  /** What a repeated request gets: the stored object as a duplicate, or the decision that a reference
      names, if that is the row's own and there is one. */
  lemma ReplayAnswers(row: Row, decisions: Decisions)
    ensures Replay(row, decisions) == None <==>
      || row.result.NotObject?
      || (var fields := row.result.fields;
          && "result" in fields && fields["result"] == Text("model-route-idempotency-result-ref:v1")
          && !("decision_ref" in fields && fields["decision_ref"] == Text(row.decisionId)
               && row.decisionId in decisions))
    ensures row.result.Object? && Replay(row, decisions).Some? ==>
      var (fields, answer) := (row.result.fields, Replay(row, decisions).value);
      && "status" in answer && answer["status"] == Text("duplicate")
      && if "result" in fields && fields["result"] == Text("model-route-idempotency-result-ref:v1")
         then answer.Keys == {"status", "decision"} && answer["decision"] == Tree(decisions[row.decisionId])
         else
           && answer.Keys == fields.Keys + {"status"}
           && forall k | k in fields && k != "status" :: answer[k] == fields[k]
  {
  }

  /** Every inline copy of the range rewritten, everything else as it was. */
  function Compacted(rows: Table, decisions: Decisions, low: int, upper: int): Table {
    map r | r in rows :: if low < r <= upper && InlineCopy(rows[r], decisions) then Rewritten(rows[r]) else rows[r]
  }

  /** The same, row by row. */
  predicate IsCompacted(rows': Table, rows: Table, decisions: Decisions, low: int, upper: int) {
    && rows'.Keys == rows.Keys
    && forall r | r in rows ::
      rows'[r] == if low < r <= upper && InlineCopy(rows[r], decisions) then Rewritten(rows[r]) else rows[r]
  }

  lemma CompactedRows(rows: Table, decisions: Decisions, low: int, upper: int)
    ensures IsCompacted(Compacted(rows, decisions, low, upper), rows, decisions, low, upper)
    ensures forall rows' | IsCompacted(rows', rows, decisions, low, upper) ::
      rows' == Compacted(rows, decisions, low, upper)
  {
  }

  /** Adjacent ranges compact to their union. */
  lemma CompactedNext(next: Table, here: Table, rows: Table, decisions: Decisions, low: int, middle: int, upper: int)
    requires low <= middle <= upper && IsCompacted(here, rows, decisions, low, middle)
    requires IsCompacted(next, here, decisions, middle, upper)
    ensures IsCompacted(next, rows, decisions, low, upper)
  {
  }

  predicate UniqueKeys(rows: Table) {
    forall r, q {:trigger rows[r].key, rows[q].key} | r in rows && q in rows && rows[r].key == rows[q].key :: r == q
  }

  /** Nothing is lost or changed. */
  predicate Extends(rows: Table, decisions: Decisions, rows': Table, decisions': Decisions) {
    && (forall r | r in rows :: r in rows' && rows'[r] == rows[r])
    && (forall d | d in decisions :: d in decisions' && decisions'[d] == decisions[d])
  }

  /** What the other connections may do: append rows above all rowids, with fresh keys, and
      append decisions. */
  predicate Appended(rows: Table, decisions: Decisions, rows': Table, decisions': Decisions) {
    && Extends(rows, decisions, rows', decisions')
    && (forall r, q | r in rows' && r !in rows && q in rows :: q < r)
    && UniqueKeys(rows')
  }

  /** Any new row may be appended, above the others and under a new key. */
  lemma AnyRowMayBeAppended(rows: Table, decisions: Decisions, high: int, row: Row, id: string, decision: Decision)
    requires UniqueKeys(rows) && forall r | r in rows :: r < high && rows[r].key != row.key
    ensures Appended(rows, decisions, rows[high := row], decisions)
    ensures id !in decisions ==> Appended(rows, decisions, rows, decisions[id := decision])
  {
  }

  /** No two rows share a key, whatever else they share. */
  lemma KeysTellRows(rows: Table)
    ensures UniqueKeys(rows) <==> forall r, q | r in rows && q in rows && r != q :: rows[r].key != rows[q].key
  {
  }

  /** Every row is as the others left it, or the rewriting of an inline copy that was recorded
      once. */
  ghost predicate ValidTable(rows: Table, original: Table, rewrites: seq<int>, decisions: Decisions) {
    && UniqueKeys(rows) && rows.Keys == original.Keys
    && (forall r | r in rows ::
      if r in rewrites then InlineCopy(original[r], decisions) && rows[r] == Rewritten(original[r])
      else rows[r] == original[r])
    && (forall r | r in rewrites :: r in rows)
    && (forall i, j | 0 <= i < j < |rewrites| :: rewrites[i] != rewrites[j])
  }

  /** The given rows rewritten. */
  function Partly(rows: Table, picked: seq<int>): Table {
    map r | r in rows :: if r in picked then Rewritten(rows[r]) else rows[r]
  }

  lemma BatchKeepsValid(rows: Table, original: Table, rewrites: seq<int>, decisions: Decisions, picked: seq<int>)
    requires ValidTable(rows, original, rewrites, decisions)
    requires forall r | r in picked :: r in rows && InlineCopy(rows[r], decisions)
    requires forall i, j | 0 <= i < j < |picked| :: picked[i] < picked[j]
    ensures ValidTable(Partly(rows, picked), original, rewrites + picked, decisions)
  {
    forall r | r in picked ensures r !in rewrites {
      if r in rewrites { RewriteKeepsReplay(original[r], decisions); }
    }
    assert forall i | 0 <= i < |picked| :: picked[i] in picked;
    assert forall i | 0 <= i < |rewrites| :: rewrites[i] in rewrites;
    var rows' := Partly(rows, picked);
    forall r, q | r in rows' && q in rows' && rows'[r].key == rows'[q].key ensures r == q {
      assert rows[r].key == rows[q].key;
    }
  }

  class RouterDb {
    var rows: Table
    var decisions: Decisions
    /** Whether the trigger that forbids updates exists. */
    var trigger: bool
    /** The rows as they would be without this program, and the rowids that it rewrote. */
    ghost var original: Table
    ghost var rewrites: seq<int>

    ghost predicate Valid()
      reads this
    {
      ValidTable(rows, original, rewrites, decisions)
    }

    /** Nobody who repeats a request can tell that the table was compacted. */
    lemma ReplayPreserved(r: int)
      requires Valid() && r in rows
      ensures r in original && Replay(rows[r], decisions) == Replay(original[r], decisions)
    {
      if r in rewrites {
        RewriteKeepsReplay(original[r], decisions);
      }
    }

    /** Other connections append, outside this program's transactions. */
    method Interfere(quiet: bool)
      requires Valid()
      modifies this`rows, this`decisions, this`original
      ensures Valid() && Extends(old(rows), old(decisions), rows, decisions)
      ensures Extends(old(original), old(decisions), original, decisions)
      ensures quiet ==> rows == old(rows) && decisions == old(decisions)
    {
      var rows': Table := *;
      var decisions': Decisions := *;
      ghost var original' := map r | r in rows' :: if r in rows then original[r] else rows'[r];
      if !quiet && MayAppend(rows', decisions') {
        rows, decisions, original := rows', decisions', original';
      }
    }

    predicate MayAppend(rows': Table, decisions': Decisions)
      reads this
    {
      Appended(rows, decisions, rows', decisions')
    }

    /** The rows of the range that the batch's query returns, in the order of their rowids. */
    method SelectCopies(low: int, upper: int) returns (picked: seq<int>)
      requires low <= upper
      ensures forall r :: r in picked <==> low < r <= upper && r in rows && InlineCopy(rows[r], decisions)
      ensures forall i, j | 0 <= i < j < |picked| :: picked[i] < picked[j]
    {
      picked := [];
      for r := low to upper
        invariant forall q :: q in picked <==> low < q <= r && q in rows && InlineCopy(rows[q], decisions)
        invariant forall i, j | 0 <= i < j < |picked| :: picked[i] < picked[j]
      {
        if r + 1 in rows && InlineCopy(rows[r + 1], decisions) {
          forall i | 0 <= i < |picked| ensures picked[i] < r + 1 { assert picked[i] in picked; }
          picked := picked + [r + 1];
        }
      }
    }

    /** `UPDATE … WHERE idempotency_key = ?`, which the trigger forbids while it exists. */
    method UpdateByKey(key: string, result: Stored)
      requires !trigger
      modifies this`rows
      ensures rows == map r | r in old(rows) ::
        if old(rows)[r].key == key then old(rows)[r].(result := result) else old(rows)[r]
    {
      rows := map r | r in rows :: if rows[r].key == key then rows[r].(result := result) else rows[r];
    }

    /** One transaction: drop the trigger, rewrite the copies of the range, restore the trigger;
        roll back if the update with number `failing` fails. */
    method CompactBatch(low: int, upper: int, failing: nat) returns (count: nat, raised: bool)
      requires Valid() && trigger && low <= upper
      modifies this`rows, this`trigger, this`rewrites
      ensures Valid() && trigger
      ensures raised ==> rows == old(rows) && rewrites == old(rewrites)
      ensures !raised ==> IsCompacted(rows, old(rows), decisions, low, upper)
      ensures !raised ==> |rewrites| == |old(rewrites)| + count && old(rewrites) <= rewrites
      ensures !raised ==> forall r :: r in rewrites[|old(rewrites)|..] <==>
        low < r <= upper && r in old(rows) && InlineCopy(old(rows)[r], decisions)
      ensures !raised && count == 0 ==> rows == old(rows)
    {
      var snapshot := rows;
      var picked := SelectCopies(low, upper);
      if picked == [] {
        assert IsCompacted(rows, rows, decisions, low, upper);
        return 0, false;
      }
      trigger := false;
      for j := 0 to |picked|
        invariant rewrites == old(rewrites) && !trigger && rows == Partly(snapshot, picked[..j]) &&
          forall r | r in picked :: r in snapshot
      {
        if j == failing {
          rows, trigger := snapshot, true;
          return 0, true;
        }
        var r := picked[j];
        PartlyNext(snapshot, picked, j);
        UpdateByKey(snapshot[r].key, ReferenceTo(snapshot[r].decisionId));
      }
      trigger := true;
      assert picked[..|picked|] == picked;
      assert IsCompacted(rows, snapshot, decisions, low, upper);
      BatchKeepsValid(snapshot, original, rewrites, decisions, picked);
      rewrites := rewrites + picked;
      return |picked|, false;
    }

    /** The highest rowid, 0 for an empty table. */
    method MaxRowid() returns (high: int)
      ensures forall r | r in rows :: r <= high
      ensures high in rows || (high == 0 && rows.Keys == {})
    {
      high := 0;
      var left := rows.Keys;
      while true
        invariant left <= rows.Keys && (high in rows || (high == 0 && left == rows.Keys))
        invariant forall r | r in rows && r !in left :: r <= high
        decreases left
      {
        if r :| r in left {
          if r > high || left == rows.Keys { high := r; }
          left := left - {r};
        } else {
          return;
        }
      }
    }

    /** The run that began with the given tables has done the range up to `low`. */
    ghost predicate Along(rows0: Table, decisions0: Decisions, original0: Table, low: int, mark: nat, quiet: bool)
      reads this
    {
      && Valid() && mark <= |rewrites|
      && Extends(original0, decisions0, original, decisions)
      && Advanced(rows0, decisions0, low, rows, decisions, rewrites[mark..])
      && (quiet ==> decisions == decisions0 && IsCompacted(rows, rows0, decisions0, 0, low))
      && (quiet ==> forall r | r in rewrites[mark..] :: 0 < r && r in rows0 && InlineCopy(rows0[r], decisions0))
    }

    lemma AlongAtFirst(quiet: bool)
      requires Valid()
      ensures Along(rows, decisions, original, 0, |rewrites|, quiet)
    {
      assert rewrites[|rewrites|..] == [];
    }

    /** One turn of the loop: the others append, then one batch is compacted. */
    method Turn(low: int, upper: int, failing: nat, quiet: bool,
                ghost rows0: Table, ghost decisions0: Decisions, ghost original0: Table, ghost mark: nat)
      returns (count: nat, raised: bool)
      requires trigger && 0 <= low <= upper && Along(rows0, decisions0, original0, low, mark, quiet)
      modifies this`rows, this`decisions, this`trigger, this`original, this`rewrites
      ensures trigger && old(rewrites) <= rewrites
      ensures Valid() && Extends(original0, decisions0, original, decisions)
      ensures !raised ==>
        Along(rows0, decisions0, original0, upper, mark, quiet) && |rewrites| == |old(rewrites)| + count
    {
      ghost var (rows1, decisions1, past) := (rows, decisions, rewrites);
      Interfere(quiet);
      AppendedAdvances(rows0, decisions0, low, rows1, decisions1, rows, decisions, past[mark..]);
      ghost var found := rows;
      count, raised := CompactBatch(low, upper, failing);
      if raised { return; }
      assert rewrites[mark..] == past[mark..] + rewrites[|past|..];
      assert quiet ==> forall r | r in rewrites[|past|..] :: r in rows0 && found[r] == rows0[r];
      BatchAdvances(rows0, decisions0, low, upper, found, rows, decisions, past[mark..], rewrites[|past|..]);
      if quiet {
        CompactedNext(rows, found, rows0, decisions0, 0, low, upper);
      }
    }

    /** The batches up to the highest rowid at the beginning. */
    method CompactAll(batch: nat, failing: seq<nat>, quiet: bool, high: int)
      returns (count: nat, raised: bool, ghost upper: int)
      requires Valid() && batch > 0 && trigger
      modifies this`rows, this`decisions, this`trigger, this`original, this`rewrites
      ensures trigger && Valid() && Extends(old(original), old(decisions), original, decisions)
      ensures old(rewrites) <= rewrites && (!raised ==> |rewrites| == |old(rewrites)| + count)
      ensures !raised ==>
        high <= upper && Along(old(rows), old(decisions), old(original), upper, |old(rewrites)|, quiet)
    {
      count, raised := 0, false;
      var low, turn := 0, 0;
      AlongAtFirst(quiet);
      while low < high
        invariant trigger && low >= 0 && old(rewrites) <= rewrites
        invariant Along(old(rows), old(decisions), old(original), low, |old(rewrites)|, quiet)
        invariant |rewrites| == |old(rewrites)| + count
        decreases high - low
      {
        var n;
        n, raised := Turn(low, low + batch, if turn < |failing| then failing[turn] else batch, quiet,
                          old(rows), old(decisions), old(original), |old(rewrites)|);
        if raised { return count, true, low; }
        count, low, turn := count + n, low + batch, turn + 1;
      }
      upper := low;
    }

    /** Rewrite all copies, unless the table is unguarded. */
    method Apply(batch: nat, failing: seq<nat>, quiet: bool)
      returns (count: nat, refused: bool, raised: bool, ghost upper: int)
      requires Valid() && batch > 0
      modifies this`rows, this`decisions, this`trigger, this`original, this`rewrites
      // On every path the trigger is there again and every row replays as its original would.
      ensures refused <==> !old(trigger)
      ensures refused ==> rows == old(rows) && rewrites == old(rewrites) && !trigger && Valid()
      ensures !refused ==> trigger && Valid() && Extends(old(original), old(decisions), original, decisions)
      ensures old(rewrites) <= rewrites && (!raised && !refused ==> |rewrites| == |old(rewrites)| + count)
      // A run that comes to its end has passed every row of the beginning.
      ensures !raised && !refused ==> Along(old(rows), old(decisions), old(original), upper, |old(rewrites)|, quiet)
      ensures !raised && !refused ==> forall r | r in old(rows) :: r <= upper
      // Undisturbed, exactly the objects that repeat their own decision have become references.
      ensures quiet && !raised && !refused ==>
        rows == map r | r in old(rows) ::
          var row := old(rows)[r];
          if 0 < r && row.decisionId in old(decisions)
             && row.result == Object(map["status" := Text("fresh"), "decision" := Tree(old(decisions)[row.decisionId])])
          then Row(row.key, row.decisionId,
                   Object(map["result" := Text("model-route-idempotency-result-ref:v1"), "status" := Text("fresh"),
                              "decision_ref" := Text(row.decisionId)]))
          else row
    {
      if !trigger { return 0, true, false, 0; }
      refused := false;
      var high := MaxRowid();
      count, raised, upper := CompactAll(batch, failing, quiet, high);
    }

    /** What it means to have passed every row: each inline copy of the beginning is rewritten and
        recorded, once. */
    lemma CopiesAreRewritten(rows0: Table, decisions0: Decisions, original0: Table, upper: int, mark: nat, quiet: bool,
        r: int)
      requires Along(rows0, decisions0, original0, upper, mark, quiet) && forall q | q in rows0 :: q <= upper
      requires r in Copies(rows0, decisions0) && 0 < r
      ensures r in rows && rows[r] == Rewritten(rows0[r])
      ensures exists i :: mark <= i < |rewrites| && rewrites[i] == r
      ensures forall i, j | 0 <= i < |rewrites| && 0 <= j < |rewrites| && rewrites[i] == r == rewrites[j] :: i == j
    {
      var i :| 0 <= i < |rewrites[mark..]| && rewrites[mark..][i] == r;
      assert rewrites[mark + i] == r;
    }

    /** An undisturbed run over a table without copies rewrites nothing. */
    lemma NothingToRewrite(rows0: Table, decisions0: Decisions, original0: Table, upper: int, mark: nat)
      requires Along(rows0, decisions0, original0, upper, mark, true)
      requires forall r | r in Copies(rows0, decisions0) :: r <= 0
      ensures rows == rows0 && |rewrites| == mark
    {
      assert forall r | r in rewrites[mark..] :: r in Copies(rows0, decisions0);
      assert rewrites[mark..] == [] || rewrites[mark..][|rewrites[mark..]| - 1] in rewrites[mark..];
      forall r | r in rows0 && 0 < r ensures !InlineCopy(rows0[r], decisions0) {
        assert r !in Copies(rows0, decisions0);
      }
    }

    /** Two undisturbed runs that come to their ends: the second rewrites nothing. */
    method ApplyTwice(batch: nat, failing: seq<nat>) returns (first: nat, second: nat, finished: bool)
      requires Valid() && trigger && batch > 0
      modifies this`rows, this`decisions, this`trigger, this`original, this`rewrites
      ensures Valid() && trigger
      ensures finished ==> second == 0 && |rewrites| == |old(rewrites)| + first
      ensures finished ==> forall r | r in Copies(rows, decisions) :: r <= 0
    {
      var refused, raised;
      ghost var upper, again;
      first, refused, raised, upper := Apply(batch, failing, true);
      second := 0;
      if raised { return first, 0, false; }
      assert forall r | r in Copies(rows, decisions) :: r <= 0 by {
        CompactedRows(old(rows), decisions, 0, upper);
        CompactionSettles(old(rows), decisions, 0, upper);
      }
      ghost var (rows1, decisions1, original1, mark) := (rows, decisions, original, |rewrites|);
      second, refused, raised, again := Apply(batch, failing, true);
      if raised { return first, second, false; }
      NothingToRewrite(rows1, decisions1, original1, again, mark);
      finished := true;
    }
  }

  /** The copies of the range up to `low` are rewritten and recorded, the rows above untouched. */
  ghost predicate Advanced(rows0: Table, decisions0: Decisions, low: int, rows: Table, decisions: Decisions,
      done: seq<int>)
  {
    && (forall r | r in rows0 :: r in rows && (low < r ==> rows[r] == rows0[r]))
    && (forall d | d in decisions0 :: d in decisions && decisions[d] == decisions0[d])
    && forall r | r in rows0 && 0 < r <= low && InlineCopy(rows0[r], decisions0) ::
      r in done && rows[r] == Rewritten(rows0[r])
  }

  lemma AppendedAdvances(rows0: Table, decisions0: Decisions, low: int, rows: Table, decisions: Decisions,
      rows': Table, decisions': Decisions, done: seq<int>)
    requires Advanced(rows0, decisions0, low, rows, decisions, done) && Extends(rows, decisions, rows', decisions')
    ensures Advanced(rows0, decisions0, low, rows', decisions', done)
  {
  }

  lemma BatchAdvances(rows0: Table, decisions0: Decisions, low: int, upper: int, rows: Table, rows': Table,
      decisions: Decisions, done: seq<int>, more: seq<int>)
    requires low <= upper && Advanced(rows0, decisions0, low, rows, decisions, done) &&
      IsCompacted(rows', rows, decisions, low, upper)
    requires forall r :: r in more <==> low < r <= upper && r in rows && InlineCopy(rows[r], decisions)
    ensures Advanced(rows0, decisions0, upper, rows', decisions, done + more)
  {
    forall r | r in rows0 && 0 < r <= upper && InlineCopy(rows0[r], decisions0)
      ensures r in done + more && rows'[r] == Rewritten(rows0[r])
    {
      if low < r { assert r in more; }
    }
  }

  /** An update by key rewrites exactly the row that was selected. */
  lemma PartlyNext(rows: Table, picked: seq<int>, j: nat)
    requires UniqueKeys(rows) && j < |picked| && picked[j] in rows
    requires forall i | 0 <= i < j :: picked[i] != picked[j]
    ensures var (here, row) := (Partly(rows, picked[..j]), rows[picked[j]]);
      Partly(rows, picked[..j + 1]) ==
        map r | r in here :: if here[r].key == row.key then here[r].(result := ReferenceTo(row.decisionId)) else here[r]
  {
    assert picked[..j + 1] == picked[..j] + [picked[j]];
    assert picked[j] !in picked[..j];
    var (here, row) := (Partly(rows, picked[..j]), rows[picked[j]]);
    forall r | r in rows ensures here[r].key == row.key <==> r == picked[j] {
      assert here[r].key == rows[r].key;
    }
  }

  /** The rowids of all inline copies. */
  function Copies(rows: Table, decisions: Decisions): set<int> {
    set r | r in rows && InlineCopy(rows[r], decisions)
  }

  /** A compacted table has no copy in the range any more, and compacting it again changes
      nothing. */
  lemma CompactionSettles(rows: Table, decisions: Decisions, low: int, upper: int)
    ensures forall r | r in Copies(Compacted(rows, decisions, low, upper), decisions) :: !(low < r <= upper)
    ensures Compacted(Compacted(rows, decisions, low, upper), decisions, low, upper) ==
      Compacted(rows, decisions, low, upper)
  {
    forall r | r in rows && InlineCopy(rows[r], decisions) ensures !InlineCopy(Rewritten(rows[r]), decisions) {
      RewriteKeepsReplay(rows[r], decisions);
    }
  }
}
