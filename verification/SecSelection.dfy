/** The installation of a reviewed SEC discovery selection: plan, approval receipt and selector
    are created exclusively in that order, and taken back in the opposite order on failure. */
module SecSelection {
  import opened Wrappers

  /** A validated packet, by identity. */
  type Packet = string

  datatype Target = Candidate | Receipt | Selector

  datatype Document =
    | PlanDocument(packet: Packet)
    | SelectorDocument(packet: Packet)
    | ReceiptDocument(packet: Packet, actor: string, approvedAt: string)

  /** What is at a target: exactly the encoding of a document, another rendering of it, something
      else, or a symbolic link. */
  datatype File = Encoded(document: Document) | Rendered(document: Document) | Unreadable | Symlink

  type Directory = map<Target, File>

  /** `BeforeLink` fails the creation of a target, `AfterLink` fails it after its link while the
      temporary name is removed, `Late` strikes after all three. */
  datatype Fault = NoFault | BeforeLink(target: Target) | AfterLink(target: Target) | Late

  datatype Outcome = Refused | Installed(approvedAt: string) | Raised

  /** The selector is never there without the plan and the receipt that it depends on. */
  predicate Closed(d: Directory) {
    Selector in d ==> Candidate in d && Receipt in d
  }

  predicate HumanActor(actor: string) {
    "human:" <= actor
  }

  /** The receipt on disk, read as this packet's approval. */
  function ExistingReceipt(d: Directory, packet: Packet): Option<Document> {
    if Receipt in d && (d[Receipt].Encoded? || d[Receipt].Rendered?) then
      var doc := d[Receipt].document;
      if doc.ReceiptDocument? && doc.packet == packet && HumanActor(doc.actor) then Some(doc) else None
    else None
  }

  predicate AbsentOr(d: Directory, t: Target, document: Document) {
    t in d ==> d[t] == Encoded(document)
  }

  /** Nothing stands in the way of this actor's installation of this packet. */
  predicate Resumable(d: Directory, packet: Packet, actor: string) {
    && AbsentOr(d, Candidate, PlanDocument(packet))
    && AbsentOr(d, Selector, SelectorDocument(packet))
    && (Receipt in d ==> d[Receipt].Encoded? && d[Receipt].document.ReceiptDocument?
                         && AbsentOr(d, Receipt, ReceiptDocument(packet, actor, d[Receipt].document.approvedAt)))
  }

  /** The documents of a run that stores this time of approval. */
  function Data(t: Target, packet: Packet, actor: string, approvedAt: string): Document {
    match t
    case Candidate => PlanDocument(packet)
    case Receipt => ReceiptDocument(packet, actor, approvedAt)
    case Selector => SelectorDocument(packet)
  }

  /** All three targets hold exactly the required bytes. */
  predicate Complete(d: Directory, packet: Packet, actor: string, approvedAt: string) {
    forall t: Target :: t in d && d[t] == Encoded(Data(t, packet, actor, approvedAt))
  }

  /** The time that a run uses: the stored one if there is one. */
  function ApprovalTime(d: Directory, packet: Packet, now: string): string {
    if ExistingReceipt(d, packet).Some? then ExistingReceipt(d, packet).value.approvedAt else now
  }

  /** The one failure that leaves the selector alone: after its link, when this run had created
      something that it depends on. */
  predicate OrphansSelector(d: Directory, fault: Fault) {
    fault == AfterLink(Selector) && Selector !in d && !(Candidate in d && Receipt in d)
  }

  /** A run can show the selector alone only if it found it so or fails in that one way. */
  predicate MayOrphan(d: Directory, fault: Fault) {
    !Closed(d) || OrphansSelector(d, fault)
  }

  /** What a failed run leaves: a target that was linked and not recorded stays. */
  function Residue(d: Directory, fault: Fault, packet: Packet, actor: string, approvedAt: string): Directory {
    if fault.AfterLink? && fault.target !in d
    then d[fault.target := Encoded(Data(fault.target, packet, actor, approvedAt))] else d
  }

  predicate Fails(d: Directory, fault: Fault) {
    fault.Late? || ((fault.BeforeLink? || fault.AfterLink?) && fault.target !in d)
  }

  /** A run that fails restores the directory exactly unless the failing step comes after a link,
      and keeps the dependencies closed unless that link is the selector's. */
  lemma ResidueMeaning(d: Directory, fault: Fault, packet: Packet, actor: string, approvedAt: string)
    requires Fails(d, fault) && (Selector in d ==> Candidate in d && Receipt in d)
    ensures Residue(d, fault, packet, actor, approvedAt) == d <==> !fault.AfterLink?
    ensures var left := Residue(d, fault, packet, actor, approvedAt);
      (Selector in left ==> Candidate in left && Receipt in left) <==>
      !(fault == AfterLink(Selector) && !(Candidate in d && Receipt in d))
    ensures Resumable(d, packet, actor) && approvedAt == ApprovalTime(d, packet, approvedAt) ==>
      Resumable(Residue(d, fault, packet, actor, approvedAt), packet, actor)
  {
    if fault.AfterLink? {
      assert fault.target in Residue(d, fault, packet, actor, approvedAt) && fault.target !in d;
    }
  }

  /** A run is refused unless a person asks for it and each target is vacant or holds what this run
      would write, the receipt at any time of approval. */
  lemma WhatIsResumed(d: Directory, packet: Packet, actor: string)
    ensures HumanActor(actor) && Resumable(d, packet, actor) <==>
      && "human:" <= actor
      && (Candidate in d ==> d[Candidate] == Encoded(PlanDocument(packet)))
      && (Receipt in d ==> exists approvedAt :: d[Receipt] == Encoded(ReceiptDocument(packet, actor, approvedAt)))
      && (Selector in d ==> d[Selector] == Encoded(SelectorDocument(packet)))
  {
    if Receipt in d && d[Receipt].Encoded? && d[Receipt].document.ReceiptDocument? {
      var approvedAt := d[Receipt].document.approvedAt;
      assert Resumable(d, packet, actor) ==> d[Receipt] == Encoded(ReceiptDocument(packet, actor, approvedAt));
    }
  }

  /** The documents of a complete installation. */
  lemma CompleteFiles(d: Directory, packet: Packet, actor: string, approvedAt: string)
    requires Complete(d, packet, actor, approvedAt)
    ensures d == map[Candidate := Encoded(PlanDocument(packet)),
                     Receipt := Encoded(ReceiptDocument(packet, actor, approvedAt)),
                     Selector := Encoded(SelectorDocument(packet))]
  {
    forall t | t in d ensures t in {Candidate, Receipt, Selector} {
      match t case Candidate => case Receipt => case Selector =>
    }
  }

  const ORDER: seq<Target> := [Candidate, Receipt, Selector]

  function Rank(t: Target): nat {
    match t case Candidate => 0 case Receipt => 1 case Selector => 2
  }

  /** The directory keeps everything it had, and whatever was added is this run's document. */
  predicate Between(d: Directory, v: Directory, packet: Packet, actor: string, approvedAt: string) {
    d.Keys <= v.Keys &&
      forall t | t in v :: v[t] == if t in d then d[t] else Encoded(Data(t, packet, actor, approvedAt))
  }

  /** Everything that a run can leave is admissible again, and its receipt gives a later run the
      same time of approval. */
  lemma BetweenResumable(d: Directory, v: Directory, packet: Packet, actor: string, now: string)
    requires HumanActor(actor) && Resumable(d, packet, actor)
    requires Between(d, v, packet, actor, ApprovalTime(d, packet, now))
    ensures Resumable(v, packet, actor)
    ensures Receipt in v ==> forall later :: ApprovalTime(v, packet, later) == ApprovalTime(d, packet, now)
    ensures Candidate in v && Receipt in v && Selector in v ==> Complete(v, packet, actor, ApprovalTime(d, packet, now))
  {
    if Candidate in v && Receipt in v && Selector in v {
      forall t: Target ensures t in v && v[t] == Encoded(Data(t, packet, actor, ApprovalTime(d, packet, now))) {
        match t case Candidate => case Receipt => case Selector =>
      }
    }
  }

  /** A target that a failed run linked and did not record. */
  predicate Stray(t: Target, d: Directory, fault: Fault) {
    fault == AfterLink(t) && t !in d
  }

  /** A state that a crash may leave behind during a run that began in `d`. */
  predicate Sound(v: Directory, d: Directory, packet: Packet, actor: string, approvedAt: string, orphan: bool) {
    Between(d, v, packet, actor, approvedAt) && (Closed(v) || orphan)
  }

  /** What was added to `d` came in the order of the dependencies. */
  predicate InOrder(d: Directory, v: Directory) {
    && (Receipt in v ==> Receipt in d || Candidate in v)
    && (Selector in v ==> Selector in d || (Candidate in v && Receipt in v))
  }

  ghost predicate AllSound(trail: seq<Directory>, d: Directory, packet: Packet, actor: string, approvedAt: string,
      orphan: bool)
  {
    forall v | v in trail :: Sound(v, d, packet, actor, approvedAt, orphan)
  }

  /** The targets of a rank below `i` have been passed without a failure: each is there, and
      `made` lists those that were missing, in order. */
  ghost predicate Progress(d: Directory, v: Directory, made: seq<Target>, i: nat, fault: Fault, packet: Packet,
      actor: string, approvedAt: string)
  {
    && Between(d, v, packet, actor, approvedAt)
    && (forall t: Target :: t in v <==> t in d || Rank(t) < i)
    && (forall t: Target :: t in made <==> t !in d && Rank(t) < i)
    && (forall j, k | 0 <= j < k < |made| :: Rank(made[j]) < Rank(made[k]))
    && (forall t | t in made :: fault != BeforeLink(t) && fault != AfterLink(t))
  }

  /** The first `j` of the created targets are still to be taken back. */
  ghost predicate Remaining(d: Directory, v: Directory, made: seq<Target>, j: nat, fault: Fault, packet: Packet,
      actor: string, approvedAt: string)
    requires j <= |made|
  {
    && Between(d, v, packet, actor, approvedAt)
    && (forall t: Target :: t in v <==> t in d || t in made[..j] || Stray(t, d, fault))
    && (forall t | t in made :: t !in d && !Stray(t, d, fault))
    && (forall j, k | 0 <= j < k < |made| :: Rank(made[j]) < Rank(made[k]))
  }

  /** What was there at the beginning is what this run would have written. */
  predicate Prior(d: Directory, packet: Packet, actor: string, approvedAt: string) {
    forall t | t in d :: d[t] == Encoded(Data(t, packet, actor, approvedAt))
  }

  lemma SameRank(a: Target, b: Target)
    ensures Rank(a) == Rank(b) <==> a == b
  {
  }

  /** One target more that is there already. */
  lemma ProgressPast(d: Directory, v: Directory, made: seq<Target>, t: Target, fault: Fault, packet: Packet,
      actor: string, approvedAt: string)
    requires Prior(d, packet, actor, approvedAt) && Progress(d, v, made, Rank(t), fault, packet, actor, approvedAt)
    ensures t in v <==> t in d
    ensures t in v ==> v[t] == Encoded(Data(t, packet, actor, approvedAt))
    ensures t in v ==> Progress(d, v, made, Rank(t) + 1, fault, packet, actor, approvedAt)
  {
    forall x: Target ensures Rank(x) < Rank(t) + 1 <==> Rank(x) < Rank(t) || x == t { SameRank(x, t); }
  }

  /** One target more that is created. */
  lemma ProgressNext(d: Directory, v: Directory, made: seq<Target>, t: Target, fault: Fault, packet: Packet,
      actor: string, approvedAt: string)
    requires t !in d && Progress(d, v, made, Rank(t), fault, packet, actor, approvedAt)
    requires fault != BeforeLink(t) && fault != AfterLink(t)
    ensures var next := v[t := Encoded(Data(t, packet, actor, approvedAt))];
      Progress(d, next, made + [t], Rank(t) + 1, fault, packet, actor, approvedAt)
  {
    forall x: Target ensures Rank(x) < Rank(t) + 1 <==> Rank(x) < Rank(t) || x == t { SameRank(x, t); }
    forall j | 0 <= j < |made| ensures Rank(made[j]) < Rank(t) { assert made[j] in made; }
  }

  /** One target more whose creation fails, before or after its link. */
  lemma ProgressStops(d: Directory, v: Directory, made: seq<Target>, t: Target, fault: Fault, packet: Packet,
      actor: string, approvedAt: string)
    requires t !in d && Progress(d, v, made, Rank(t), fault, packet, actor, approvedAt)
    ensures fault == BeforeLink(t) ==> Remaining(d, v, made, |made|, fault, packet, actor, approvedAt)
    ensures fault == AfterLink(t) ==>
      Remaining(d, v[t := Encoded(Data(t, packet, actor, approvedAt))], made, |made|, fault, packet, actor, approvedAt)
  {
    assert made[..|made|] == made;
  }

  /** Whatever is created next, its dependencies are there. */
  lemma ProgressSound(d: Directory, v: Directory, made: seq<Target>, t: Target, fault: Fault, packet: Packet,
      actor: string, approvedAt: string)
    requires t !in d && Progress(d, v, made, Rank(t), fault, packet, actor, approvedAt)
    ensures Sound(v[t := Encoded(Data(t, packet, actor, approvedAt))], d, packet, actor, approvedAt, !Closed(d))
    ensures InOrder(d, v[t := Encoded(Data(t, packet, actor, approvedAt))])
  {
  }

  /** What comes of the next target. */
  lemma ProgressAt(d: Directory, v: Directory, made: seq<Target>, t: Target, fault: Fault, packet: Packet,
      actor: string, approvedAt: string)
    requires Prior(d, packet, actor, approvedAt) && Progress(d, v, made, Rank(t), fault, packet, actor, approvedAt)
    ensures t in v <==> t in d
    ensures t in v ==>
      v[t] == Encoded(Data(t, packet, actor, approvedAt)) &&
      Progress(d, v, made, Rank(t) + 1, fault, packet, actor, approvedAt)
    ensures t !in v ==>
      var next := v[t := Encoded(Data(t, packet, actor, approvedAt))];
      && Sound(next, d, packet, actor, approvedAt, !Closed(d)) && InOrder(d, next)
      && (fault == BeforeLink(t) ==> Remaining(d, v, made, |made|, fault, packet, actor, approvedAt))
      && (fault == AfterLink(t) ==> Remaining(d, next, made, |made|, fault, packet, actor, approvedAt))
      && (fault != BeforeLink(t) && fault != AfterLink(t)
          ==> Progress(d, next, made + [t], Rank(t) + 1, fault, packet, actor, approvedAt))
  {
    ProgressPast(d, v, made, t, fault, packet, actor, approvedAt);
    if t !in v {
      ProgressSound(d, v, made, t, fault, packet, actor, approvedAt);
      ProgressStops(d, v, made, t, fault, packet, actor, approvedAt);
      if fault != BeforeLink(t) && fault != AfterLink(t) {
        ProgressNext(d, v, made, t, fault, packet, actor, approvedAt);
      }
    }
  }

  /** All targets passed. */
  lemma ProgressAll(d: Directory, v: Directory, made: seq<Target>, fault: Fault, packet: Packet, actor: string,
      approvedAt: string)
    requires Progress(d, v, made, 3, fault, packet, actor, approvedAt)
    ensures Fails(d, fault) <==> fault.Late?
    ensures forall t: Target :: t in v
    ensures Remaining(d, v, made, |made|, fault, packet, actor, approvedAt)
  {
    assert made[..|made|] == made;
    if fault.AfterLink? || fault.BeforeLink? {
      assert Rank(fault.target) < 3;
    }
  }

  /** One target taken back. */
  lemma RemainingNext(d: Directory, v: Directory, made: seq<Target>, j: nat, fault: Fault, packet: Packet,
      actor: string, approvedAt: string)
    requires j < |made|
    requires Remaining(d, v, made, j + 1, fault, packet, actor, approvedAt)
    ensures made[j] in v && v[made[j]] == Encoded(Data(made[j], packet, actor, approvedAt))
    ensures Remaining(d, v - {made[j]}, made, j, fault, packet, actor, approvedAt)
    ensures Sound(v - {made[j]}, d, packet, actor, approvedAt, MayOrphan(d, fault))
  {
    var v' := v - {made[j]};
    assert made[..j + 1] == made[..j] + [made[j]];
    forall t | t in made[..j] ensures t != made[j] && t != Selector {
      var k :| 0 <= k < j && made[k] == t;
    }
  }

  lemma RemainingNone(d: Directory, v: Directory, made: seq<Target>, fault: Fault, packet: Packet, actor: string,
      approvedAt: string)
    requires Remaining(d, v, made, 0, fault, packet, actor, approvedAt)
    ensures v == Residue(d, fault, packet, actor, approvedAt)
  {
  }

  /** A file at a target, with the document that this program wrote or found there. */
  datatype Entry = Entry(target: Target, inode: nat, document: Document)

  class TargetDirectory {
    var files: Directory
    /** Every state of the directory that a crash could have left. */
    var history: seq<Directory>
    /** Which file is at each target, and the next file number. */
    ghost var inodes: map<Target, nat>
    ghost var next: nat
    /** The links that this program made, and the files that it removed. */
    ghost var created: set<Entry>
    ghost var removed: set<Entry>

    ghost predicate Valid()
      reads this
    {
      inodes.Keys == files.Keys && forall c | c in created :: c.inode < next
    }

    /** Since the given moment this program linked the document at the target. */
    ghost predicate LinkedSince(past: set<Entry>, t: Target, document: Document)
      reads this
    {
      exists c :: c in created && c !in past && c.target == t && c.document == document
    }

    /** Every target that was vacant in `d` holds a file that this program linked. */
    ghost predicate OursBeyond(d: Directory)
      reads this
    {
      forall t | t in files && t in inodes && t !in d ::
        files[t].Encoded? && Entry(t, inodes[t], files[t].document) in created
    }

    method Record()
      modifies this`history
      ensures history == old(history) + [files]
    {
      history := history + [files];
    }

    /** The other actors may leave anything. */
    method Interfere(quiet: bool)
      requires Valid()
      modifies this`files, this`inodes, this`next
      ensures Valid() && next >= old(next)
      ensures quiet ==> files == old(files) && inodes == old(inodes)
    {
      var files': Directory := *;
      ghost var inodes': map<Target, nat> := *;
      if !quiet {
        files, inodes :=
          files', map t | t in files' :: if t in inodes' && 0 <= inodes'[t] < next then inodes'[t] else next;
        next := next + 1;
      }
    }

    /** `link`, which fails rather than overwrite: callable only on a vacant name. */
    method Link(t: Target, document: Document) returns (ghost inode: nat)
      requires Valid() && t !in files
      modifies this`files, this`history, this`created, this`inodes, this`next
      ensures Valid() && files == old(files)[t := Encoded(document)] && history == old(history) + [files]
      ensures inodes == old(inodes)[t := inode] && inode == old(next) < next
      ensures created == old(created) + {Entry(t, inode, document)}
    {
      inode := next;
      files, inodes := files[t := Encoded(document)], inodes[t := inode];
      created, next := created + {Entry(t, inode, document)}, next + 1;
      Record();
    }

    /** Link a document into a vacant name, leave an identical one, refuse anything else. */
    method AtomicCreate(t: Target, document: Document, fault: Fault, quiet: bool)
      returns (made: bool, raised: bool, ghost trail: seq<Directory>)
      requires Valid()
      modifies this`files, this`history, this`created, this`inodes, this`next
      ensures Valid() && old(created) <= created
      ensures forall c | c in created && c !in old(created) :: c.target == t && c.document == document
      ensures made ==> LinkedSince(old(created), t, document) && !raised
      ensures history == old(history) + trail && (quiet ==> trail == if files == old(files) then [] else [files])
      ensures quiet ==> forall d :: old(OursBeyond(d)) ==> OursBeyond(d)
      ensures quiet ==>
        if t in old(files) then !made && files == old(files) && (raised <==> old(files)[t] != Encoded(document))
        else if fault == BeforeLink(t) then raised && files == old(files)
        else files == old(files)[t := Encoded(document)] && raised == !made == (fault == AfterLink(t))
    {
      trail := [];
      if t in files { return false, files[t] != Encoded(document), trail; }
      Interfere(quiet);
      if fault == BeforeLink(t) || t in files { return false, true, trail; }
      trail := [files[t := Encoded(document)]];
      ghost var inode := Link(t, document);
      assert Entry(t, inode, document) in created && Entry(t, inode, document) !in old(created);
      raised := fault == AfterLink(t);
      made := !raised;
    }

    /** Remove whatever file is at the target with exactly these bytes: the program does not look at
        the identity of the file. */
    method RemoveIfSame(t: Target, document: Document) returns (ghost trail: seq<Directory>)
      requires Valid()
      modifies this`files, this`history, this`removed, this`inodes
      ensures Valid() && history == old(history) + trail
      ensures if t in old(files) && old(files)[t] == Encoded(document)
        then files == old(files) - {t} && inodes == old(inodes) - {t} && trail == [files]
             && removed == old(removed) + {Entry(t, old(inodes)[t], document)}
        else files == old(files) && inodes == old(inodes) && trail == [] && removed == old(removed)
    {
      trail := [];
      if t in files && files[t] == Encoded(document) {
        trail := [files - {t}];
        removed := removed + {Entry(t, inodes[t], document)};
        files, inodes := files - {t}, inodes - {t};
        Record();
      }
    }

    /** Another actor replaces the file at a target by a file with the same bytes. */
    method ReplaceByTwin(t: Target) returns (ghost twin: nat)
      requires Valid() && t in files
      modifies this`inodes, this`next
      ensures Valid() && inodes == old(inodes)[t := twin] && twin == old(next) < next
    {
      twin := next;
      inodes, next := inodes[t := twin], next + 1;
    }

    /** A removed file need not be the one that was linked: from every directory where a target is
        vacant, an identical file that another actor puts there is taken back in its place. */
    method TwinIsRemoved(t: Target, document: Document) returns (ghost mine: nat, ghost twin: nat)
      requires Valid() && t !in files
      modifies this
      ensures Valid() && mine != twin && files == old(files)
      ensures Entry(t, mine, document) in created && Entry(t, twin, document) !in created
      ensures removed == old(removed) + {Entry(t, twin, document)}
    {
      mine := Link(t, document);
      twin := ReplaceByTwin(t);
      ghost var _ := RemoveIfSame(t, document);
    }

    /** Take back the file at a target, if it still has the bytes that were linked there. */
    method TakeBack(t: Target, document: Document, quiet: bool) returns (ghost trail: seq<Directory>)
      requires Valid()
      modifies this`files, this`history, this`removed, this`inodes, this`next
      ensures Valid() && old(removed) <= removed && history == old(history) + trail
      ensures forall r | r in removed && r !in old(removed) :: r.target == t && r.document == document
      ensures quiet && t in old(files) && old(files)[t] == Encoded(document) ==>
        && files == old(files) - {t} && inodes == old(inodes) - {t} && trail == [files]
        && removed == old(removed) + {Entry(t, old(inodes)[t], document)}
    {
      Interfere(quiet);
      trail := RemoveIfSame(t, document);
    }

    /** Create the targets in order until one fails; `made` lists those that this run created. */
    method CreateAll(packet: Packet, actor: string, approvedAt: string, fault: Fault, quiet: bool)
      returns (made: seq<Target>, raised: bool, ghost trail: seq<Directory>)
      requires Valid() && (quiet ==> Prior(files, packet, actor, approvedAt))
      modifies this`files, this`history, this`created, this`inodes, this`next
      ensures Valid() && old(created) <= created && history == old(history) + trail
      ensures forall t | t in made :: LinkedSince(old(created), t, Data(t, packet, actor, approvedAt))
      ensures forall c | c in created && c !in old(created) :: c.document == Data(c.target, packet, actor, approvedAt)
      ensures quiet ==> OursBeyond(old(files))
      ensures quiet ==> (raised <==> Fails(old(files), fault))
      ensures quiet && raised ==> Remaining(old(files), files, made, |made|, fault, packet, actor, approvedAt)
      ensures quiet && !raised ==> Between(old(files), files, packet, actor, approvedAt)
      ensures quiet && !raised ==> forall t: Target :: t in files
      ensures quiet ==> forall v | v in trail :: InOrder(old(files), v)
      ensures quiet ==> AllSound(trail, old(files), packet, actor, approvedAt, !Closed(old(files)))
      ensures quiet ==> Sound(files, old(files), packet, actor, approvedAt, !Closed(old(files)))
      ensures |made| <= |ORDER|
    {
      made, raised, trail := [], false, [];
      for i := 0 to |ORDER|
        invariant Valid() && old(created) <= created && history == old(history) + trail && !raised
        invariant forall t | t in made :: LinkedSince(old(created), t, Data(t, packet, actor, approvedAt))
        invariant forall c | c in created && c !in old(created) ::
          c.document == Data(c.target, packet, actor, approvedAt)
        invariant quiet ==> OursBeyond(old(files))
        invariant quiet ==> Progress(old(files), files, made, i, fault, packet, actor, approvedAt)
        invariant quiet ==> forall v | v in trail :: InOrder(old(files), v)
        invariant quiet ==> AllSound(trail, old(files), packet, actor, approvedAt, !Closed(old(files)))
        invariant quiet ==> Sound(files, old(files), packet, actor, approvedAt, !Closed(old(files)))
        invariant |made| <= i
      {
        var t := ORDER[i];
        assert Rank(t) == i;
        if quiet {
          ProgressAt(old(files), files, made, t, fault, packet, actor, approvedAt);
        }
        ghost var more;
        var now;
        now, raised, more := AtomicCreate(t, Data(t, packet, actor, approvedAt), fault, quiet);
        trail := trail + more;
        if raised { return; }
        if now { made := made + [t]; }
      }
      if quiet {
        ProgressAll(old(files), files, made, fault, packet, actor, approvedAt);
      }
      raised := fault.Late?;
    }

    /** Everything removed since was at one of these targets with the bytes of this run, and
        undisturbed it was what this program had linked there. */
    ghost predicate RemovedOf(made: seq<Target>, past: set<Entry>, packet: Packet, actor: string, approvedAt: string,
        quiet: bool)
      reads this
    {
      forall r | r in removed && r !in past ::
        r.target in made && r.document == Data(r.target, packet, actor, approvedAt) && (quiet ==> r in created)
    }

    /** The undo has come down to the first `j` of the targets made, in a run that began in `d`. */
    ghost predicate Undoing(made: seq<Target>, j: nat, packet: Packet, actor: string, approvedAt: string,
        d: Directory, fault: Fault)
      reads this
    {
      j <= |made| && OursBeyond(d) && Remaining(d, files, made, j, fault, packet, actor, approvedAt)
    }

    /** Take back the last of the remaining targets. */
    method UndoOne(made: seq<Target>, j: nat, packet: Packet, actor: string, approvedAt: string, quiet: bool,
                   ghost d: Directory, ghost fault: Fault)
      returns (ghost trail: seq<Directory>)
      requires Valid() && j < |made|
      requires quiet ==> Undoing(made, j + 1, packet, actor, approvedAt, d, fault)
      modifies this`files, this`history, this`removed, this`inodes, this`next
      ensures Valid() && history == old(history) + trail
      ensures forall past :: old(RemovedOf(made, past, packet, actor, approvedAt, quiet)) ==>
        RemovedOf(made, past, packet, actor, approvedAt, quiet)
      ensures quiet ==> Undoing(made, j, packet, actor, approvedAt, d, fault)
      ensures quiet ==> AllSound(trail, d, packet, actor, approvedAt, MayOrphan(d, fault))
      ensures quiet ==> Sound(files, d, packet, actor, approvedAt, MayOrphan(d, fault))
    {
      if quiet {
        RemainingNext(d, files, made, j, fault, packet, actor, approvedAt);
      }
      assert made[j] in made;
      trail := TakeBack(made[j], Data(made[j], packet, actor, approvedAt), quiet);
    }

    /** Take back what this run created, last first; an error ends this after `undone` targets. */
    method UndoAll(made: seq<Target>, undone: nat, packet: Packet, actor: string, approvedAt: string, quiet: bool,
                   ghost d: Directory, ghost fault: Fault)
      returns (ghost trail: seq<Directory>)
      requires Valid()
      requires quiet ==> Undoing(made, |made|, packet, actor, approvedAt, d, fault)
      requires quiet ==> Sound(files, d, packet, actor, approvedAt, MayOrphan(d, fault))
      modifies this`files, this`history, this`removed, this`inodes, this`next
      ensures Valid() && history == old(history) + trail
      ensures RemovedOf(made, old(removed), packet, actor, approvedAt, quiet)
      ensures quiet && |made| <= undone ==> files == Residue(d, fault, packet, actor, approvedAt)
      ensures quiet && undone < |made| ==>
        Remaining(d, files, made, |made| - undone, fault, packet, actor, approvedAt)
      ensures quiet ==> AllSound(trail, d, packet, actor, approvedAt, MayOrphan(d, fault))
      ensures quiet ==> Sound(files, d, packet, actor, approvedAt, MayOrphan(d, fault))
    {
      var j := |made|;
      trail := [];
      while j > 0 && |made| - j < undone
        invariant 0 <= j <= |made| && |made| - j <= undone && Valid() && history == old(history) + trail
        invariant RemovedOf(made, old(removed), packet, actor, approvedAt, quiet)
        invariant quiet ==> Undoing(made, j, packet, actor, approvedAt, d, fault)
        invariant quiet ==> AllSound(trail, d, packet, actor, approvedAt, MayOrphan(d, fault))
        invariant quiet ==> Sound(files, d, packet, actor, approvedAt, MayOrphan(d, fault))
      {
        j := j - 1;
        ghost var more := UndoOne(made, j, packet, actor, approvedAt, quiet, d, fault);
        trail := trail + more;
      }
      if quiet && j == 0 {
        RemainingNone(d, files, made, fault, packet, actor, approvedAt);
      }
    }

    /** The checks before the first write, and the time of approval: the stored one if there is one. */
    method Review(packet: Packet, actor: string, now: string) returns (approvedAt: Option<string>)
      ensures approvedAt.Some? <==> HumanActor(actor) && Resumable(files, packet, actor)
      ensures approvedAt.Some? ==> approvedAt.value == ApprovalTime(files, packet, now)
      ensures approvedAt.Some? ==> Prior(files, packet, actor, approvedAt.value)
    {
      approvedAt := None;
      var prior := ExistingReceipt(files, packet);
      if Receipt in files && prior.None? { return; }
      if !HumanActor(actor) || (prior.Some? && prior.value.actor != actor) { return; }
      var time := if prior.Some? then prior.value.approvedAt else now;
      forall t | t in files ensures t in {Candidate, Receipt, Selector} {
        match t case Candidate => case Receipt => case Selector =>
      }
      if exists t ::
          t in {Candidate, Receipt, Selector} && t in files && files[t] != Encoded(Data(t, packet, actor, time))
      {
        return;
      }
      approvedAt := Some(time);
    }

    /** The `apply` command: refuse on any conflict, reuse a stored approval, create the three
        files, take them back on failure. */
    method Apply(packet: Packet, actor: string, now: string, fault: Fault, undone: nat, quiet: bool)
      returns (outcome: Outcome, ghost trail: seq<Directory>)
      requires Valid()
      modifies this
      ensures Valid() && history == old(history) + trail
      ensures outcome.Refused? <==> !(HumanActor(actor) && Resumable(old(files), packet, actor))
      ensures outcome.Refused? ==> files == old(files) && trail == []
      // An installation leaves the three documents, with the stored time of approval if there is one,
      // and the files appear in their order.
      ensures quiet && outcome.Installed? ==>
        && outcome.approvedAt == (if Receipt in old(files) then old(files)[Receipt].document.approvedAt else now)
        && files == map[Candidate := Encoded(PlanDocument(packet)),
                        Receipt := Encoded(ReceiptDocument(packet, actor, outcome.approvedAt)),
                        Selector := Encoded(SelectorDocument(packet))]
        && forall v | v in trail ::
          && (Receipt in v ==> Receipt in old(files) || Candidate in v)
          && (Selector in v ==> Selector in old(files) || (Candidate in v && Receipt in v))
      // A failure, if the undo comes to its end, leaves what was there, and the target whose link was
      // not recorded.
      ensures quiet && outcome.Raised? && undone >= 3 ==>
        files == match fault
          case AfterLink(Candidate) => old(files)[Candidate := Encoded(PlanDocument(packet))]
          case AfterLink(Receipt) => old(files)[Receipt := Encoded(ReceiptDocument(packet, actor, now))]
          case AfterLink(Selector) => old(files)[Selector := Encoded(SelectorDocument(packet))]
          case _ => old(files)
      // Whatever the other actors do, a removed file is one that this run linked, or a later file at
      // that target with exactly its bytes; undisturbed it is the linked one.
      ensures forall r | r in removed && r !in old(removed) ::
        exists c :: c in created && c !in old(created) && c.target == r.target && c.document == r.document
      ensures quiet ==> forall r | r in removed && r !in old(removed) :: r in created
      // Undisturbed, no crash leaves a selector without what it depends on, unless it was there so, or its
      // own link is what failed after this run had created one of the two.
      ensures quiet ==>
        || (Selector in old(files) && !(Candidate in old(files) && Receipt in old(files)))
        || (fault == AfterLink(Selector) && Selector !in old(files) &&
            !(Candidate in old(files) && Receipt in old(files)))
        || ((forall v | v in trail :: Selector in v ==> Candidate in v && Receipt in v) &&
            (Selector in files ==> Candidate in files && Receipt in files))
      // Undisturbed, the outcome and the directory are exact.
      ensures quiet && !outcome.Refused? ==>
        var approvedAt := ApprovalTime(old(files), packet, now);
        && (outcome.Raised? <==> Fails(old(files), fault))
        && (outcome.Installed? ==> outcome == Installed(approvedAt) && Complete(files, packet, actor, approvedAt))
        && (outcome.Raised? && undone >= |ORDER| ==> files == Residue(old(files), fault, packet, actor, approvedAt))
        && AllSound(trail, old(files), packet, actor, approvedAt, MayOrphan(old(files), fault))
        && Sound(files, old(files), packet, actor, approvedAt, MayOrphan(old(files), fault))
    {
      trail := [];
      var admitted := Review(packet, actor, now);
      if admitted.None? { return Refused, trail; }
      var approvedAt := admitted.value;
      ghost var d := files;
      var made, raised;
      made, raised, trail := CreateAll(packet, actor, approvedAt, fault, quiet);
      if !raised {
        assert quiet ==> Complete(files, packet, actor, approvedAt) by {
          if quiet { BetweenResumable(d, files, packet, actor, now); }
        }
        if quiet {
          CompleteFiles(files, packet, actor, approvedAt);
        }
        return Installed(approvedAt), trail;
      }
      ghost var more := UndoAll(made, undone, packet, actor, approvedAt, quiet, d, fault);
      trail := trail + more;
      outcome := Raised;
    }

    /** Runs of one actor, each of which may fail anywhere, and each of which the process may not
        survive: then the directory stays in any one of the states that the run went through. */
    method Attempts(packet: Packet, actor: string, nows: seq<string>, faults: seq<Fault>, undos: seq<nat>,
                    deaths: seq<nat>)
      requires Valid() && |nows| == |faults| == |undos| == |deaths|
      requires HumanActor(actor) && Resumable(files, packet, actor)
      modifies this
      ensures Valid() && Resumable(files, packet, actor)
      ensures forall t | t in old(files) :: t in files && files[t] == old(files)[t]
      // Unless one of them fails after the selector's link, the dependencies stay closed.
      ensures AfterLink(Selector) in faults
        || (Selector in old(files) && !(Candidate in old(files) && Receipt in old(files)))
        || (Selector in files ==> Candidate in files && Receipt in files)
    {
      for i := 0 to |nows|
        invariant Valid() && Resumable(files, packet, actor)
        invariant forall t | t in old(files) :: t in files && files[t] == old(files)[t]
        invariant Closed(old(files)) && AfterLink(Selector) !in faults ==> Closed(files)
      {
        ghost var d := files;
        var before := |history|;
        var outcome;
        ghost var trail;
        outcome, trail := Apply(packet, actor, nows[i], faults[i], undos[i], true);
        ghost var approvedAt := ApprovalTime(d, packet, nows[i]);
        if before + deaths[i] < |history| {
          files := history[before + deaths[i]];
          inodes := map t | t in files :: if t in inodes then inodes[t] else next;
          assert files in trail;
        }
        if files != d {
          StateMeaning(d, files, faults[i], packet, actor, nows[i]);
        }
        assert faults[i] in faults;
      }
    }

    /** After any such history one undisturbed run completes the installation, with the time of
        approval that a receipt on disk already carries. */
    method Recover(packet: Packet, actor: string, nows: seq<string>, faults: seq<Fault>, undos: seq<nat>,
                   deaths: seq<nat>, now: string)
      returns (outcome: Outcome)
      requires Valid() && |nows| == |faults| == |undos| == |deaths|
      requires HumanActor(actor) && Resumable(files, packet, actor)
      modifies this
      ensures outcome.Installed? && Complete(files, packet, actor, outcome.approvedAt)
      ensures Receipt in old(files) ==> outcome.approvedAt == ApprovalTime(old(files), packet, now)
    {
      Attempts(packet, actor, nows, faults, undos, deaths);
      ghost var trail;
      outcome, trail := Apply(packet, actor, now, NoFault, 0, true);
    }
  }

  /** Each state of a run, and each directory that it leaves, is one to resume from. */
  lemma StateMeaning(d: Directory, v: Directory, fault: Fault, packet: Packet, actor: string, now: string)
    requires HumanActor(actor) && Resumable(d, packet, actor)
    requires var approvedAt := ApprovalTime(d, packet, now);
      || Sound(v, d, packet, actor, approvedAt, MayOrphan(d, fault))
      || v == Residue(d, fault, packet, actor, approvedAt)
      || Complete(v, packet, actor, approvedAt)
    ensures Resumable(v, packet, actor)
    ensures forall t | t in d :: t in v && v[t] == d[t]
    ensures !MayOrphan(d, fault) ==> Closed(v)
  {
    var approvedAt := ApprovalTime(d, packet, now);
    if Complete(v, packet, actor, approvedAt) {
      forall t | t in d ensures v[t] == d[t] {
        match t case Candidate => case Receipt => case Selector =>
      }
      assert Candidate in v && Receipt in v && Selector in v;
    }
  }
}
