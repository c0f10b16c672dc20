/** The host's shared daily budget: one hash-chained policy file, and one binding file beside
    each environment's ledger that names the policy by its hash. */
module SharedBudget {
  import opened Wrappers

  datatype Caps = Caps(dailyCost: real, dailyPaidCalls: int, alphaEngineCalls: int)

  /** A content hash; it is injective, and no policy holds its own. */
  datatype Hash = Of(policy: Policy) | Unknown(id: string)

  datatype Policy = Policy(caps: Caps, revision: nat, prior: Option<Hash>, updatedAt: string, actor: string)

  datatype Binding = Binding(policyPath: string, policyHash: Hash, managerConfig: string, environment: string)

  /** A file as its loader sees it. */
  datatype PolicyFile = NoPolicy | BadPolicy | GoodPolicy(policy: Policy)
  datatype BindingFile = BadBinding | GoodBinding(binding: Binding)

  /** An environment and the place of its binding, beside its ledger. */
  datatype Environment = Environment(id: string, target: string)

  datatype Row = Row(environment: Environment, inPlace: bool, binding: Binding)

  datatype Host = Host(policyPath: string, managerConfig: string, environments: seq<Environment>) {
    function Wanted(e: Environment, hash: Hash): Binding {
      Binding(policyPath, hash, managerConfig, e.id)
    }
  }

  /** Every environment has the binding to this policy. */
  predicate AllBound(host: Host, bindings: map<string, BindingFile>, policy: Policy) {
    forall e | e in host.environments ::
      e.target in bindings && bindings[e.target] == GoodBinding(host.Wanted(e, Of(policy)))
  }

  /** No two environments with different ids keep their ledgers in one place. */
  predicate SeparateLedgers(environments: seq<Environment>) {
    forall e, f | e in environments && f in environments && e.target == f.target :: e == f
  }

  /** All bindings can hold at once only when the ledgers are separate. */
  lemma SharedLedgerCannotBeBound(host: Host, bindings: map<string, BindingFile>, policy: Policy)
    requires AllBound(host, bindings, policy)
    ensures SeparateLedgers(host.environments)
  {
    forall e, f | e in host.environments && f in host.environments && e.target == f.target ensures e == f {
      assert host.Wanted(e, Of(policy)) == host.Wanted(f, Of(policy));
    }
  }

  /** What revision a run writes for the wanted caps, if any. */
  predicate Keeps(file: PolicyFile, caps: Caps) {
    file.GoodPolicy? && file.policy.caps == caps
  }

  function NextPolicy(file: PolicyFile, caps: Caps, at: string, actor: string): Policy
    requires !file.BadPolicy?
  {
    if Keeps(file, caps) then file.policy
    else if file.NoPolicy? then Policy(caps, 1, None, at, actor)
    else Policy(caps, file.policy.revision + 1, Some(Of(file.policy)), at, actor)
  }

  /** The chain of revisions: each is the next number and carries the hash of the one before. */
  predicate Chained(log: seq<Policy>) {
    forall i | 0 < i < |log| :: log[i].revision == log[i - 1].revision + 1 && log[i].prior == Some(Of(log[i - 1]))
  }

  lemma {:induction false} NumberedOn(log: seq<Policy>)
    requires Chained(log)
    ensures forall k | 0 <= k < |log| :: log[k].revision == log[0].revision + k
  {
    if |log| > 1 {
      var earlier := log[..|log| - 1];
      NumberedOn(earlier);
      assert earlier[|log| - 2].revision == log[0].revision + |log| - 2;
      forall k | 0 <= k < |log| ensures log[k].revision == log[0].revision + k {
        assert k < |log| - 1 ==> earlier[k] == log[k];
      }
    }
  }

  /** What the rows of a plan leave in place when they are written in order. */
  function Written(bindings: map<string, BindingFile>, rows: seq<Row>): map<string, BindingFile> {
    if rows == [] then bindings
    else
      var last := rows[|rows| - 1];
      var before := Written(bindings, rows[..|rows| - 1]);
      if last.inPlace then before else before[last.environment.target := GoodBinding(last.binding)]
  }

  /** The row of an environment: nothing is written where the binding is in place already. */
  function RowOf(host: Host, bindings: map<string, BindingFile>, e: Environment, hash: Hash): Row {
    var wanted := host.Wanted(e, hash);
    Row(e, e.target in bindings && bindings[e.target] == GoodBinding(wanted), wanted)
  }

  function Rows(host: Host, bindings: map<string, BindingFile>, hash: Hash): seq<Row> {
    seq(|host.environments|,
      k requires 0 <= k < |host.environments| => RowOf(host, bindings, host.environments[k], hash))
  }

  /** Each target ends with the binding of an environment that keeps its ledger there, or as it
      was. */
  lemma {:induction false} WrittenAt(host: Host, bindings: map<string, BindingFile>, hash: Hash, count: nat,
      e: Environment)
    requires SeparateLedgers(host.environments) && e in host.environments && count <= |host.environments|
    ensures var after := Written(bindings, Rows(host, bindings, hash)[..count]);
      if e in host.environments[..count] then e.target in after && after[e.target] == GoodBinding(host.Wanted(e, hash))
      else
        && (e.target in after <==> e.target in bindings)
        && (e.target in bindings ==> after[e.target] == bindings[e.target])
  {
    if count > 0 {
      WrittenAt(host, bindings, hash, count - 1, e);
      var rows := Rows(host, bindings, hash);
      assert rows[..count][..count - 1] == rows[..count - 1];
      var last := host.environments[count - 1];
      assert rows[..count][count - 1] == RowOf(host, bindings, last, hash);
      assert host.environments[..count] == host.environments[..count - 1] + [last];
      assert last in host.environments;
      if e.target == last.target { assert e == last; }
    }
  }

  class Files {
    var policy: PolicyFile
    var bindings: map<string, BindingFile>
    /** The policies that the policy file held, in order, and the bindings written since with the
        policy that was on disk then. */
    ghost var revisions: seq<Policy>
    ghost var bound: set<(Binding, Policy)>
    /** The number of files that this program replaced. */
    ghost var writes: nat

    ghost predicate Valid()
      reads this
    {
      && Chained(revisions)
      && (policy.GoodPolicy? ==> revisions != [] && revisions[|revisions| - 1] == policy.policy)
      && (policy.NoPolicy? ==> revisions == [])
      && forall b | b in bound :: b.0.policyHash == Of(b.1)
    }

    /** One revision more: the next number, naming the one that it replaces. */
    method WritePolicy(next: Policy)
      requires Valid() && !policy.BadPolicy?
      requires policy.GoodPolicy? ==>
        next.revision == policy.policy.revision + 1 && next.prior == Some(Of(policy.policy))
      modifies this`policy, this`revisions, this`writes
      ensures Valid() && policy == GoodPolicy(next) && revisions == old(revisions) + [next] && writes == old(writes) + 1
    {
      policy, revisions, writes := GoodPolicy(next), revisions + [next], writes + 1;
    }

    /** Compare every environment's binding with the wanted one. */
    method PlanBindings(host: Host, hash: Hash) returns (rows: seq<Row>)
      ensures rows == Rows(host, bindings, hash)
    {
      rows := [];
      for i := 0 to |host.environments|
        invariant |rows| == i && forall k | 0 <= k < i :: rows[k] == RowOf(host, bindings, host.environments[k], hash)
      {
        var e := host.environments[i];
        var wanted := host.Wanted(e, hash);
        var inPlace := e.target in bindings && bindings[e.target].GoodBinding? && bindings[e.target].binding == wanted;
        rows := rows + [Row(e, inPlace, wanted)];
      }
    }

    /** Write one binding, unless it is in place. */
    method WriteBinding(row: Row)
      requires Valid() && policy.GoodPolicy? && row.binding.policyHash == Of(policy.policy)
      modifies this`bindings, this`bound, this`writes
      ensures Valid() && old(bound) <= bound
      ensures bindings ==
        if row.inPlace then old(bindings) else old(bindings)[row.environment.target := GoodBinding(row.binding)]
      ensures writes == old(writes) + if row.inPlace then 0 else 1
    {
      if !row.inPlace {
        bindings := bindings[row.environment.target := GoodBinding(row.binding)];
        bound, writes := bound + {(row.binding, policy.policy)}, writes + 1;
      }
    }

    /** Write the bindings in order; the process dies after `cut` of them have been considered. */
    method WriteBindings(rows: seq<Row>, cut: nat)
      requires Valid() && policy.GoodPolicy? && forall r | r in rows :: r.binding.policyHash == Of(policy.policy)
      modifies this`bindings, this`bound, this`writes
      ensures Valid() && bindings == Written(old(bindings), if cut < |rows| then rows[..cut] else rows)
      ensures old(bound) <= bound && old(writes) <= writes
      ensures (forall r | r in rows :: r.inPlace) ==> writes == old(writes)
    {
      var i := 0;
      while i < |rows| && i < cut
        invariant 0 <= i <= |rows| && i <= cut
        invariant Valid() && bindings == Written(old(bindings), rows[..i])
        invariant old(bound) <= bound && old(writes) <= writes
        invariant (forall r | r in rows :: r.inPlace) ==> writes == old(writes)
      {
        assert rows[..i + 1][..i] == rows[..i];
        WriteBinding(rows[i]);
        i := i + 1;
      }
      assert i == |rows| ==> rows[..i] == rows;
    }

    /** Plan and apply: policy first, then the bindings. The process dies before the first write,
        or after the policy and `cut - 1` bindings. */
    method Run(host: Host, caps: Caps, at: string, actor: string, cut: nat) returns (refused: bool)
      requires Valid()
      modifies this
      ensures Valid() && (refused <==> old(policy).BadPolicy?)
      ensures refused ==> policy == old(policy) && bindings == old(bindings) && writes == old(writes)
      ensures !refused && cut == 0 ==> policy == old(policy) && bindings == old(bindings)
      // Each run adds one revision or none, and none for the caps in force.
      ensures !refused && cut > 0 ==>
        policy.GoodPolicy? && policy == match old(policy)
          case NoPolicy => GoodPolicy(Policy(caps, 1, None, at, actor))
          case GoodPolicy(p) =>
            if p.caps == caps then GoodPolicy(p)
            else GoodPolicy(Policy(caps, p.revision + 1, Some(Of(p)), at, actor))
          case BadPolicy => BadPolicy
      ensures revisions == if policy == old(policy) then old(revisions) else old(revisions) + [policy.policy]
      // A run that comes to its end binds every environment to the policy on disk, if they can
      // all be bound.
      ensures !refused && cut > |host.environments| ==>
        ((forall e | e in host.environments :: e.target in bindings && bindings[e.target] ==
            GoodBinding(Binding(host.policyPath, Of(policy.policy), host.managerConfig, e.id)))
          <==>
          forall e, f | e in host.environments && f in host.environments && e.target == f.target :: e == f)
      // With all that in place already, nothing is written.
      ensures Keeps(old(policy), caps) && AllBound(host, old(bindings), old(policy).policy) ==>
        writes == old(writes) && bindings == old(bindings)
    {
      if policy.BadPolicy? { return true; }
      refused := false;
      var keep := Keeps(policy, caps);
      var next := NextPolicy(policy, caps, at, actor);
      var rows := PlanBindings(host, Of(next));
      if cut == 0 {
        return;
      }
      if !keep {
        WritePolicy(next);
      }
      ghost var before := bindings;
      WriteBindings(rows, cut - 1);
      RunBinds(host, before, next, rows, cut);
    }

    /** Any runs, each with its own caps and cut off anywhere. */
    method RunEach(host: Host, requests: seq<Caps>, cuts: seq<nat>, at: string, actor: string)
      requires Valid() && !policy.BadPolicy? && |requests| == |cuts|
      modifies this
      ensures Valid() && !policy.BadPolicy? && old(revisions) <= revisions
      ensures old(policy).NoPolicy? && revisions != [] ==> revisions[0].revision == 1 && revisions[0].prior == None
    {
      for i := 0 to |requests|
        invariant Valid() && !policy.BadPolicy? && old(revisions) <= revisions
        invariant old(policy).NoPolicy? && revisions != [] ==> revisions[0].revision == 1 && revisions[0].prior == None
      {
        var _ := Run(host, requests[i], at, actor, cuts[i]);
      }
    }

    /** Any runs, each with its own caps and cut off anywhere, and then one whole run: every
        environment is bound to the policy on disk, and repeating that run writes nothing. */
    method RunsBind(host: Host, requests: seq<Caps>, cuts: seq<nat>, caps: Caps, at: string, actor: string)
      returns (ghost repeated: nat)
      requires Valid() && !policy.BadPolicy? && |requests| == |cuts| && SeparateLedgers(host.environments)
      modifies this
      ensures Valid() && policy.GoodPolicy? && policy.policy.caps == caps
      ensures forall e | e in host.environments ::
        && e.target in bindings
        && bindings[e.target] ==
             GoodBinding(Binding(host.policyPath, Of(policy.policy), host.managerConfig, e.id))
      // The policies that were ever on disk are numbered on and each names the one before it by its
      // hash; without a policy to begin with they number from one.
      ensures old(revisions) <= revisions && revisions[|revisions| - 1] == policy.policy
      ensures forall k | 0 < k < |revisions| ::
        revisions[k].revision == revisions[k - 1].revision + 1 && revisions[k].prior == Some(Of(revisions[k - 1]))
      ensures old(policy).NoPolicy? ==>
        forall k | 0 <= k < |revisions| :: revisions[k].revision == k + 1 && (k == 0 ==> revisions[k].prior == None)
      // `repeated` counts the writes of the repetition.
      ensures repeated == 0
    {
      RunEach(host, requests, cuts, at, actor);
      var _ := Run(host, caps, at, actor, |host.environments| + 1);
      repeated := Repeat(host, caps, at, actor, |host.environments| + 1);
      NumberedOn(revisions);
    }

    /** A run over what a whole run has left writes nothing and changes nothing, wherever it is cut. */
    method Repeat(host: Host, caps: Caps, at: string, actor: string, cut: nat) returns (ghost repeated: nat)
      requires Valid() && policy.GoodPolicy? && policy.policy.caps == caps
      requires AllBound(host, bindings, policy.policy)
      modifies this
      ensures Valid() && policy == old(policy) && bindings == old(bindings) && revisions == old(revisions)
      ensures repeated == 0 && writes == old(writes)
    {
      var _ := Run(host, caps, at, actor, cut);
      repeated := writes - old(writes);
    }
  }

  lemma RunBinds(host: Host, bindings: map<string, BindingFile>, policy: Policy, rows: seq<Row>, cut: nat)
    requires rows == Rows(host, bindings, Of(policy)) && cut > 0
    ensures var after := Written(bindings, if cut - 1 < |rows| then rows[..cut - 1] else rows);
      && (cut > |host.environments| ==> (AllBound(host, after, policy) <==> SeparateLedgers(host.environments)))
      && (AllBound(host, bindings, policy) ==> after == bindings && forall r | r in rows :: r.inPlace)
  {
    var after := Written(bindings, if cut - 1 < |rows| then rows[..cut - 1] else rows);
    if SeparateLedgers(host.environments) && cut > |host.environments| {
      var n := |host.environments|;
      assert rows[..n] == rows && host.environments[..n] == host.environments;
      forall e | e in host.environments
        ensures e.target in after && after[e.target] == GoodBinding(host.Wanted(e, Of(policy)))
      {
        WrittenAt(host, bindings, Of(policy), n, e);
      }
    }
    if AllBound(host, after, policy) {
      SharedLedgerCannotBeBound(host, after, policy);
    }
    if AllBound(host, bindings, policy) {
      forall r | r in rows ensures r.inPlace {
        var k :| 0 <= k < |rows| && rows[k] == r;
        assert host.environments[k] in host.environments;
      }
      NothingWritten(bindings, if cut - 1 < |rows| then rows[..cut - 1] else rows);
    }
  }

  lemma {:induction false} NothingWritten(bindings: map<string, BindingFile>, rows: seq<Row>)
    requires forall r | r in rows :: r.inPlace
    ensures Written(bindings, rows) == bindings
  {
    if rows != [] {
      NothingWritten(bindings, rows[..|rows| - 1]);
    }
  }
}
