/** Schema 0.1 of the successor configuration transition: five files installed in order into
    the state directory, with an owned rollback, and three ways to compute the model
    inventory that results. */
module ConfigTransition {
  import opened Wrappers

  /** File names of the state directory; `Model(stem)` stands for `<stem>-model-config.json`. */
  datatype Name = Model(stem: string) | DocumentConfig | LaneConfig | Other(name: string)

  const DRAFT := Model("mission-document-draft")
  const VERIFIER := Model("mission-document-verifier")
  const INITIAL_SCREEN := Model("initial-screen")

  type Value = string

  /** The bytes of a file: a JSON value as it is spelled there, or no JSON. */
  datatype Content = Json(value: Value, spelling: string) | NotJson(bytes: string) {
    function Read(): Option<Value> {
      if Json? then Some(value) else None
    }
  }

  /** What is read from the model files; a file that is no JSON has no value. */
  type Inventory = map<Name, Option<Value>>

  datatype File = File(inode: nat, content: Content)

  /** A manifest row; without `before` it is an exclusive add, otherwise a compare-and-replace. */
  datatype Row = Row(name: Name, before: Option<Content>, after: Content)

  datatype Manifest = Manifest(rows: seq<Row>, before: Inventory, after: Inventory) {
    /** Each of the five targets once, with its closed operation; the inventories hold values. */
    predicate WellFormed() {
      && (forall n | n in before :: before[n].Some?)
      && (forall n | n in after :: after[n].Some?)
      && |rows| == 5
      && (set r | r in rows :: r.name) == {DRAFT, VERIFIER, INITIAL_SCREEN, DocumentConfig, LaneConfig}
      && (forall i, j | 0 <= i < j < |rows| :: rows[i].name != rows[j].name)
      && (forall r | r in rows :: r.before.Some? <==> r.name == INITIAL_SCREEN)
    }
  }

  // ------------------------------------------------------------ contents

  function Contents(files: map<Name, File>): map<Name, Content> {
    map n | n in files :: files[n].content
  }

  function Models(contents: map<Name, Content>): Inventory {
    map n | n in contents && n.Model? :: contents[n].Read()
  }

  /** The contents after the given rows, one by one. */
  function Overlay(contents: map<Name, Content>, rows: seq<Row>): map<Name, Content> {
    if rows == [] then contents
    else
      var last := rows[|rows| - 1];
      Overlay(contents, rows[..|rows| - 1])[last.name := last.after]
  }

  /** The pure build of the final inventory. */
  function BuiltInventory(baseline: Inventory, draft: Content, verifier: Content, screen: Content): Inventory {
    baseline[DRAFT := draft.Read()][VERIFIER := verifier.Read()][INITIAL_SCREEN := screen.Read()]
  }

  /** The fold over a manifest that rebuilds the final inventory: only model rows count. */
  function ExpectedInventory(baseline: Inventory, rows: seq<Row>): Inventory {
    if rows == [] then baseline
    else
      var last := rows[|rows| - 1];
      var models := ExpectedInventory(baseline, rows[..|rows| - 1]);
      if last.name.Model? then models[last.name := last.after.Read()] else models
  }

  /** The manifest that the preparation step writes. */
  function BuildTransition(baseline: Inventory, draft: Content, verifier: Content, screenBefore: Content,
                           screen: Content, document: Content, lane: Content): Manifest
  {
    Manifest([Row(DRAFT, None, draft), Row(VERIFIER, None, verifier),
              Row(INITIAL_SCREEN, Some(screenBefore), screen),
              Row(DocumentConfig, None, document), Row(LaneConfig, None, lane)],
             baseline, BuiltInventory(baseline, draft, verifier, screen))
  }

  /** Rows leave every other name as it was. */
  lemma {:induction false} OverlayFrame(contents: map<Name, Content>, rows: seq<Row>, n: Name)
    requires forall k | 0 <= k < |rows| :: rows[k].name != n
    ensures n in Overlay(contents, rows) <==> n in contents
    ensures n in contents ==> Overlay(contents, rows)[n] == contents[n]
  {
    if rows != [] {
      OverlayFrame(contents, rows[..|rows| - 1], n);
    }
  }

  /** Every row of a list with distinct names has its bytes in place at the end. */
  lemma {:induction false} OverlayAt(contents: map<Name, Content>, rows: seq<Row>, k: nat)
    requires k < |rows| && Distinct(rows)
    ensures rows[k].name in Overlay(contents, rows) && Overlay(contents, rows)[rows[k].name] == rows[k].after
  {
    if k < |rows| - 1 {
      OverlayAt(contents, rows[..|rows| - 1], k);
    }
  }

  /** Restricting the directory to its models commutes with installing rows. */
  lemma {:induction false} ModelsOfOverlay(contents: map<Name, Content>, rows: seq<Row>)
    ensures Models(Overlay(contents, rows)) == ExpectedInventory(Models(contents), rows)
  {
    if rows != [] {
      ModelsOfOverlay(contents, rows[..|rows| - 1]);
    }
  }

  /** The pure build, the fold over the manifest and the directory itself agree, for every
      baseline and every state directory that holds it. */
  lemma InventoriesAgree(contents: map<Name, Content>, draft: Content, verifier: Content, screenBefore: Content,
                         screen: Content, document: Content, lane: Content)
    ensures var m := BuildTransition(Models(contents), draft, verifier, screenBefore, screen, document, lane);
      && m.after == ExpectedInventory(Models(contents), m.rows)
      && m.after == Models(Overlay(contents, m.rows))
  {
    var m := BuildTransition(Models(contents), draft, verifier, screenBefore, screen, document, lane);
    ModelsOfOverlay(contents, m.rows);
    var rows := m.rows;
    assert rows[..4][..3] == rows[..3] && rows[..3][..2] == rows[..2] && rows[..2][..1] == rows[..1] &&
      rows[..1][..0] == [];
    var first := Models(contents)[DRAFT := draft.Read()];
    assert ExpectedInventory(Models(contents), rows[..1]) == first;
    assert ExpectedInventory(Models(contents), rows[..2]) == first[VERIFIER := verifier.Read()];
    assert ExpectedInventory(Models(contents), rows[..3]) == m.after;
    assert ExpectedInventory(Models(contents), rows[..4]) == m.after;
  }

  // ------------------------------------------------------------ the program

  /** One entry of the `changed` list. */
  datatype Change = Change(row: Row, inode: nat) {
    function Ours(): File { File(inode, row.after) }
  }

  /** What the file at a name was, and what this program left there instead. */
  datatype Displacement = Displacement(name: Name, file: File, successor: Option<Content>)

  /** `Torn` is a receipt file that was created and not completely written. */
  datatype Receipt = Torn | Bound(targets: seq<(Name, Content)>)

  /** The step that fails: between the link or replace of a row and its entry in `changed`, after
      that entry, at the hook before the receipt, or while the created receipt is written. */
  datatype Fault = NoFault | Recording(at: nat) | AfterRow(at: nat) | BeforeReceipt | WritingReceipt {
    /** The fault strikes one of the first `count` rows. */
    predicate Hits(count: nat) {
      (Recording? || AfterRow?) && at < count
    }
  }

  datatype Outcome = Refused | Applied | Raised(conflicts: seq<Name>)

  predicate Distinct(rows: seq<Row>) {
    forall i, j | 0 <= i < j < |rows| :: rows[i].name != rows[j].name
  }

  predicate Installable(contents: map<Name, Content>, row: Row) {
    if row.before.None? then row.name !in contents
    else row.name in contents && contents[row.name] == row.before.value
  }

  /** The checks before the first write. */
  predicate Admissible(m: Manifest, contents: map<Name, Content>, receipt: Option<Receipt>) {
    && receipt.None?
    && m.WellFormed()
    && Models(contents) == m.before
    && forall r | r in m.rows :: Installable(contents, r)
  }

  /** When the models read as an inventory of values. */
  lemma ReadsAs(contents: map<Name, Content>, inventory: Inventory)
    ensures Models(contents) == inventory && (forall n :: n in inventory ==> inventory[n] != None) <==>
      && (forall n :: n in inventory <==> n in contents && n.Model?)
      && (forall n | n in inventory :: contents[n].Json? && inventory[n] == Some(contents[n].value))
  {
    if forall n :: n in inventory <==> n in contents && n.Model? {
      assert Models(contents).Keys == inventory.Keys;
      forall n | n in inventory
        ensures Models(contents)[n] == inventory[n] != None <==>
          contents[n].Json? && inventory[n] == Some(contents[n].value)
      {
      }
    }
  }

  /** Which directories are admissible, in terms of their files: no receipt is there, each of the five
      targets is listed once with its operation, the models read as the reviewed inventory, added names
      are vacant, and what is replaced has the reviewed bytes. */
  lemma AdmissibleFiles(m: Manifest, contents: map<Name, Content>, receipt: Option<Receipt>)
    ensures Admissible(m, contents, receipt) <==>
      && receipt == None
      && |m.rows| == 5
      && (forall i, j | 0 <= i < j < 5 :: m.rows[i].name != m.rows[j].name)
      && (set r | r in m.rows :: r.name) == {DRAFT, VERIFIER, INITIAL_SCREEN, DocumentConfig, LaneConfig}
      && (forall n :: n in m.before <==> n in contents && n.Model?)
      && (forall n | n in m.before :: contents[n].Json? && m.before[n] == Some(contents[n].value))
      && (forall n | n in m.after :: m.after[n] != None)
      && (forall r | r in m.rows ::
            if r.name == INITIAL_SCREEN then r.name in contents && r.before == Some(contents[r.name])
            else r.name !in contents && r.before == None)
  {
    ReadsAs(contents, m.before);
  }

  /** Only the values of the models and the bytes of what a row replaces decide: any other file may be
      spelled otherwise. */
  lemma SpellingIsFree(m: Manifest, contents: map<Name, Content>, respelled: map<Name, Content>)
    requires respelled.Keys == contents.Keys && Models(respelled) == Models(contents)
    requires forall r | r in m.rows && r.before.Some? && r.name in contents :: respelled[r.name] == contents[r.name]
    ensures Admissible(m, respelled, None) <==> Admissible(m, contents, None)
  {
    forall r | r in m.rows ensures Installable(respelled, r) <==> Installable(contents, r) {
      assert r.name in respelled <==> r.name in contents;
    }
  }

  /** A replaced model that holds the reviewed value in another spelling is refused. */
  lemma RespelledTargetIsRefused(m: Manifest, contents: map<Name, Content>, r: Row, spelling: string)
    requires Admissible(m, contents, None) && r in m.rows && r.before.Some? && r.name.Model?
    requires contents[r.name].Json? && spelling != contents[r.name].spelling
    ensures var respelled := contents[r.name := Json(contents[r.name].value, spelling)];
      Models(respelled) == m.before && !Admissible(m, respelled, None)
  {
    var respelled := contents[r.name := Json(contents[r.name].value, spelling)];
    assert Models(respelled) == Models(contents);
    assert !Installable(respelled, r);
  }

  function Bindings(rows: seq<Row>): seq<(Name, Content)> {
    seq(|rows|, k requires 0 <= k < |rows| => (rows[k].name, rows[k].after))
  }

  function Reverted(contents: map<Name, Content>, row: Row): map<Name, Content> {
    if row.before.None? then contents - {row.name} else contents[row.name := row.before.value]
  }

  /** What a failed run leaves behind: a file that was installed but never recorded stays. */
  function Residue(contents: map<Name, Content>, rows: seq<Row>, fault: Fault): map<Name, Content> {
    if fault.Recording? && fault.at < |rows| then contents[rows[fault.at].name := rows[fault.at].after] else contents
  }

  /** Taking back the last of several distinct rows gives what the others left. */
  lemma RevertOverlay(contents: map<Name, Content>, rows: seq<Row>, j: nat)
    requires j < |rows| && Distinct(rows) && Installable(contents, rows[j])
    ensures Reverted(Overlay(contents, rows[..j + 1]), rows[j]) == Overlay(contents, rows[..j])
  {
    OverlayFrame(contents, rows[..j], rows[j].name);
    assert rows[..j + 1][..j] == rows[..j];
  }

  /** A row with another name may as well have been installed first. */
  lemma {:induction false} OverlayCommutes(contents: map<Name, Content>, rows: seq<Row>, name: Name, content: Content)
    requires forall k | 0 <= k < |rows| :: rows[k].name != name
    ensures Overlay(contents, rows)[name := content] == Overlay(contents[name := content], rows)
  {
    if rows != [] {
      OverlayCommutes(contents, rows[..|rows| - 1], name, content);
    }
  }

  /** What the next of several distinct rows finds and leaves. */
  lemma NextRow(contents: map<Name, Content>, rows: seq<Row>, k: nat)
    requires k < |rows| && Distinct(rows)
    ensures Installable(Overlay(contents, rows[..k]), rows[k]) <==> Installable(contents, rows[k])
    ensures Overlay(contents, rows[..k])[rows[k].name := rows[k].after] == Overlay(contents, rows[..k + 1])
    ensures Overlay(contents, rows[..k])[rows[k].name := rows[k].after] ==
      Overlay(contents[rows[k].name := rows[k].after], rows[..k])
  {
    OverlayFrame(contents, rows[..k], rows[k].name);
    OverlayCommutes(contents, rows[..k], rows[k].name, rows[k].after);
    assert rows[..k + 1][..k] == rows[..k];
  }

  /** A failed run restores the directory exactly, whatever it held, unless the failing step lies
      between the installation of a row and its entry in `changed`. */
  lemma RestoredUnlessUnrecorded(m: Manifest, contents: map<Name, Content>, fault: Fault)
    requires Admissible(m, contents, None)
    requires fault.Recording? && fault.at < 5 ==> m.rows[fault.at].before != Some(m.rows[fault.at].after)
    ensures Residue(contents, m.rows, fault) == contents <==> !(fault.Recording? && fault.at < 5)
  {
    if fault.Recording? && fault.at < 5 {
      var row := m.rows[fault.at];
      assert Installable(contents, row);
      assert Residue(contents, m.rows, fault)[row.name] == row.after;
    }
  }

  /** A file this program may take away: the reviewed predecessor of a row, its own work, or what it
      took for its own work. */
  ghost predicate MayDisplace(d: Displacement, rows: seq<Row>, owned: set<(Name, File)>) {
    (d.name, d.file) in owned || exists r :: r in rows && r.name == d.name && r.before == Some(d.file.content)
  }

  /** The target of a change still is the file this run installed. */
  predicate Holds(files: map<Name, File>, c: Change) {
    c.row.name in files && files[c.row.name] == c.Ours()
  }

  /** The directory holds the recorded rows over `contents`, each installed by this run. */
  ghost predicate Exact(files: map<Name, File>, changed: seq<Change>, rows: seq<Row>, contents: map<Name, Content>) {
    && |changed| <= |rows|
    && Contents(files) == Overlay(contents, rows[..|changed|])
    && forall k | 0 <= k < |changed| ::
      changed[k].row == rows[k] && Holds(files, changed[k]) && Installable(contents, rows[k])
  }

  /** Installing the next row keeps the directory exact, whether the row is recorded or not. */
  lemma ExactGrows(files: map<Name, File>, changed: seq<Change>, rows: seq<Row>, contents: map<Name, Content>,
      c: Change)
    requires |changed| < |rows| && Distinct(rows) && c.row == rows[|changed|]
    requires Exact(files, changed, rows, contents) && Installable(contents, c.row)
    ensures Exact(files[c.row.name := c.Ours()], changed + [c], rows, contents)
    ensures Exact(files[c.row.name := c.Ours()], changed, rows, contents[c.row.name := c.row.after])
  {
    var files' := files[c.row.name := c.Ours()];
    NextRow(contents, rows, |changed|);
    assert Contents(files') == Contents(files)[c.row.name := c.row.after];
  }

  /** The entries of `changed` are the first rows, each with the installed file or the one adopted
      for it; at most the next row was installed without an entry, and only for one of the given files. */
  ghost predicate Records(changed: seq<Change>, rows: seq<Row>, installed: set<(Name, File)>,
      owned: set<(Name, File)>, adopted: set<(Name, File)>, unrecorded: set<(Name, File)>)
  {
    && |changed| <= |rows|
    && (forall k | 0 <= k < |changed| :: changed[k].row == rows[k] && (rows[k].name, changed[k].Ours()) in owned)
    && (forall d | d in installed ::
      || (d in unrecorded && |changed| < |rows| && d.0 == rows[|changed|].name)
      || exists k :: 0 <= k < |changed| && IsRecord(d, changed[k], adopted))
  }

  predicate IsRecord(d: (Name, File), c: Change, adopted: set<(Name, File)>) {
    d.0 == c.row.name && (d.1 == c.Ours() || (d.0, c.Ours()) in adopted)
  }

  /** Each installation is the unrecorded one of the next row, or it is recorded, or a file adopted for it. */
  lemma EveryInstallation(changed: seq<Change>, rows: seq<Row>, installed: set<(Name, File)>,
      owned: set<(Name, File)>, adopted: set<(Name, File)>, unrecorded: set<(Name, File)>)
    requires Records(changed, rows, installed, owned, adopted, unrecorded)
    ensures forall d | d in installed ::
      || (|changed| < |rows| && d.0 == rows[|changed|].name && d in unrecorded)
      || exists k :: 0 <= k < |changed| && d.0 == changed[k].row.name
                     && (d.1 == File(changed[k].inode, changed[k].row.after) ||
                         (d.0, File(changed[k].inode, changed[k].row.after)) in adopted)
  {
  }

  /** The next installation, with its entry or, when the run stops there, without one. */
  lemma RecordsNext(past: seq<Change>, rows: seq<Row>, installed: set<(Name, File)>, owned: set<(Name, File)>,
      adopted: set<(Name, File)>, d: (Name, File), installed': set<(Name, File)>,
      owned': set<(Name, File)>, adopted': set<(Name, File)>)
    requires Records(past, rows, installed, owned, adopted, {}) && owned <= owned' && adopted <= adopted'
    requires |past| < |rows| && d.0 == rows[|past|].name && installed' <= installed + {d}
    ensures Records(past, rows, installed', owned', adopted', {d})
    ensures forall c: Change | c.row == rows[|past|] && IsRecord(d, c, adopted') && (d.0, c.Ours()) in owned' ::
      Records(past + [c], rows, installed', owned', adopted', {})
  {
    forall e | e in installed ensures exists k :: 0 <= k < |past| && IsRecord(e, past[k], adopted') {
      var k :| 0 <= k < |past| && IsRecord(e, past[k], adopted);
      assert IsRecord(e, past[k], adopted');
    }
    forall c: Change | c.row == rows[|past|] && IsRecord(d, c, adopted') && (d.0, c.Ours()) in owned'
      ensures Records(past + [c], rows, installed', owned', adopted', {})
    {
      var changed := past + [c];
      forall e | e in installed' ensures exists k :: 0 <= k < |changed| && IsRecord(e, changed[k], adopted') {
        if e in installed {
          var k :| 0 <= k < |past| && IsRecord(e, past[k], adopted');
          assert IsRecord(e, changed[k], adopted');
        } else {
          assert IsRecord(e, changed[|past|], adopted');
        }
      }
    }
  }

  lemma RecordsStay(changed: seq<Change>, rows: seq<Row>, installed: set<(Name, File)>, owned: set<(Name, File)>,
      adopted: set<(Name, File)>, unrecorded: set<(Name, File)>, owned': set<(Name, File)>,
      adopted': set<(Name, File)>, unrecorded': set<(Name, File)>)
    requires Records(changed, rows, installed, owned, adopted, unrecorded)
    requires owned <= owned' && adopted <= adopted' && unrecorded <= unrecorded'
    ensures Records(changed, rows, installed, owned', adopted', unrecorded')
  {
    forall d | d in installed && !(d in unrecorded && |changed| < |rows| && d.0 == rows[|changed|].name)
      ensures exists k :: 0 <= k < |changed| && IsRecord(d, changed[k], adopted')
    {
      var k :| 0 <= k < |changed| && IsRecord(d, changed[k], adopted);
      assert IsRecord(d, changed[k], adopted');
    }
  }

  lemma BoundNames(rows: seq<Row>)
    ensures (set t | t in Bindings(rows) :: t.0) == (set r | r in rows :: r.name)
  {
    forall r | r in rows ensures exists t :: t in Bindings(rows) && t.0 == r.name {
      var k :| 0 <= k < |rows| && rows[k] == r;
      assert Bindings(rows)[k] in Bindings(rows);
    }
    forall t | t in Bindings(rows) ensures exists r :: r in rows && r.name == t.0 {
      var k :| 0 <= k < |rows| && Bindings(rows)[k] == t;
      assert rows[k] in rows;
    }
  }

  /** Over an installed directory the receipt lists the five targets, once each, with what they hold. */
  lemma BindingsHold(m: Manifest, contents: map<Name, Content>, files: map<Name, File>)
    requires m.WellFormed() && Contents(files) == Overlay(contents, m.rows)
    ensures var targets := Bindings(m.rows);
      && (set t | t in targets :: t.0) == {DRAFT, VERIFIER, INITIAL_SCREEN, DocumentConfig, LaneConfig}
      && (forall i, k | 0 <= i < k < |targets| :: targets[i].0 != targets[k].0)
      && (forall t | t in targets :: t.0 in files && files[t.0].content == t.1)
  {
    var targets := Bindings(m.rows);
    BoundNames(m.rows);
    forall t | t in targets ensures t.0 in files && files[t.0].content == t.1 {
      var k :| 0 <= k < |targets| && targets[k] == t;
      OverlayAt(contents, m.rows, k);
      assert t.0 in Contents(files);
    }
  }

  class StateDirectory {
    var files: map<Name, File>
    var next: nat
    var receipt: Option<Receipt>
    /** Files this program put at a name, those among them that a row installed, and the files
        it displaced. */
    ghost var created: set<(Name, File)>
    ghost var installed: set<(Name, File)>
    ghost var displaced: set<Displacement>
    /** Files of other actors that were read as the installed ones: their inode was at the name when
        the program asked for the identity of what it had just put there. */
    ghost var adopted: set<(Name, File)>
    /** Installed files whose name led to no file when the program asked for their identity. */
    ghost var gone: set<(Name, File)>

    ghost predicate OnlyOwned(rows: seq<Row>, before: set<Displacement>)
      reads this
    {
      forall d :: d in displaced && d !in before ==> MayDisplace(d, rows, created + adopted)
    }

    /** Nothing but files with the bytes of a row was adopted since. */
    ghost predicate AdoptedTwins(rows: seq<Row>, before: set<(Name, File)>)
      reads this
    {
      before <= adopted &&
      forall a | a in adopted && a !in before :: exists r :: r in rows && r.name == a.0 && r.after == a.1.content
    }

    /** The other actors may leave any files at all, and may take the name of the receipt. */
    method Interfere(quiet: bool)
      modifies this`files, this`next, this`receipt
      ensures quiet ==> files == old(files) && receipt == old(receipt)
    {
      var files': map<Name, File> := *;
      var next': nat := *;
      var receipt': Option<Receipt> := *;
      if !quiet {
        files, next, receipt := files', next', receipt';
      }
    }

    method PutFile(name: Name, content: Content) returns (inode: nat)
      modifies this`files, this`next, this`created, this`displaced
      ensures inode == old(next) && next == inode + 1
      ensures files == old(files)[name := File(inode, content)]
      ensures created == old(created) + {(name, File(inode, content))}
      ensures displaced ==
        old(displaced) + (if name in old(files) then {Displacement(name, old(files)[name], Some(content))} else {})
    {
      inode := next;
      next := next + 1;
      displaced := displaced + (if name in files then {Displacement(name, files[name], Some(content))} else {});
      created := created + {(name, File(inode, content))};
      files := files[name := File(inode, content)];
    }

    /** Take one change back if its target is still the file this run installed. */
    method Restore(c: Change, ghost rows: seq<Row>, ghost before: set<Displacement>) returns (owned: bool)
      requires OnlyOwned(rows, before) && (c.row.name, c.Ours()) in created + adopted
      modifies this`files, this`next, this`created, this`displaced
      ensures OnlyOwned(rows, before) && old(created) <= created
      ensures owned <==> Holds(old(files), c)
      ensures !owned ==> files == old(files) && displaced == old(displaced)
      ensures c.row.before.None? ==> created == old(created)
      ensures owned ==> displaced == old(displaced) + {Displacement(c.row.name, c.Ours(), c.row.before)}
      ensures owned ==> Contents(files) == Reverted(Contents(old(files)), c.row)
      ensures forall n | n != c.row.name ::
        (n in files <==> n in old(files)) && (n in files ==> files[n] == old(files)[n])
    {
      owned := c.row.name in files && files[c.row.name] == c.Ours();
      if !owned { return; }
      if c.row.before.None? {
        displaced := displaced + {Displacement(c.row.name, files[c.row.name], None)};
        files := files - {c.row.name};
      } else {
        var _ := PutFile(c.row.name, c.row.before.value);
      }
    }

    /** Read the identity of what was just installed: whatever file is at the name by now. */
    method Identify(row: Row, ghost mine: nat) returns (change: Option<Change>)
      modifies this`adopted, this`gone
      ensures change.Some? <==> row.name in files
      ensures change.Some? ==> change.value == Change(row, files[row.name].inode)
      ensures adopted == old(adopted) +
        if change.Some? && change.value.inode != mine then {(row.name, change.value.Ours())} else {}
      ensures gone == old(gone) + if change.None? then {(row.name, File(mine, row.after))} else {}
    {
      if row.name !in files {
        gone := gone + {(row.name, File(mine, row.after))};
        return None;
      }
      change := Some(Change(row, files[row.name].inode));
      adopted := adopted + if change.value.inode != mine then {(row.name, change.value.Ours())} else {};
    }

    /** Another actor replaces the file at a name by a new one with the same bytes. */
    method ReplaceByTwin(name: Name) returns (twin: nat)
      requires name in files
      modifies this`files, this`next
      ensures twin == old(next) && next == twin + 1
      ensures files == old(files)[name := File(twin, old(files)[name].content)]
    {
      twin := next;
      files, next := files[name := File(twin, files[name].content)], next + 1;
    }

    /** The one way to displace a file of someone else: it has the installed bytes and came between
        the installation and the reading of the identity. */
    method TwinIsTakenBack(row: Row) returns (mine: nat, twin: nat)
      requires row.before.None? && row.name !in files && forall c | c in created :: c.1.inode < next
      modifies this`files, this`next, this`created, this`displaced, this`adopted, this`gone
      ensures mine != twin && files == old(files)
      ensures (row.name, File(mine, row.after)) in created && (row.name, File(twin, row.after)) !in created
      ensures Displacement(row.name, File(twin, row.after), None) in displaced
    {
      mine := PutFile(row.name, row.after);
      twin := ReplaceByTwin(row.name);
      var change := Identify(row, mine);
      ghost var past := displaced;
      var owned := Restore(change.value, [], past);
      assert row.name !in Contents(files);
      assert files == old(files);
    }

    /** Link into a vacant name, or replace exactly the reviewed file, and read the identity of the
        installed file; otherwise do nothing. */
    method Install(row: Row, ghost rows: seq<Row>, ghost before: set<Displacement>, quiet: bool)
      returns (change: Option<Change>, ghost done: bool, ghost mine: nat)
      requires OnlyOwned(rows, before) && row in rows
      modifies this`files, this`next, this`receipt, this`created, this`installed, this`displaced, this`adopted,
        this`gone
      ensures OnlyOwned(rows, before) && old(created) <= created && AdoptedTwins([row], old(adopted))
      ensures done <==> Installable(Contents(old(files)), row)
      ensures !done ==> change.None? && files == old(files) && installed == old(installed)
      ensures done ==> (row.name, File(mine, row.after)) in created
      ensures done ==> installed == old(installed) + {(row.name, File(mine, row.after))}
      // What is recorded is the installed file, or one that was adopted in its place; nothing is recorded
      // of a file that was gone.
      ensures gone == old(gone) + if done && change.None? then {(row.name, File(mine, row.after))} else {}
      ensures change.Some? ==> change.value.row == row && done
      ensures change.Some? ==> change.value.inode == mine || (row.name, change.value.Ours()) in adopted
      ensures quiet ==> receipt == old(receipt) && adopted == old(adopted) && gone == old(gone)
      ensures quiet && done ==> change == Some(Change(row, mine))
      ensures quiet && done ==> files == old(files)[row.name := File(mine, row.after)]
    {
      change, done, mine := None, false, 0;
      if !Installable(Contents(files), row) { return; }
      var inode := PutFile(row.name, row.after);
      done, mine := true, inode;
      installed := installed + {(row.name, File(inode, row.after))};
      Interfere(quiet);
      change := Identify(row, mine);
    }

    /** The installations that may lack an entry when the run stops after `count` entries: those whose
        file was gone, and the one that the fault strikes. */
    ghost function Unrecorded(fault: Fault, count: nat): set<(Name, File)>
      reads this
    {
      gone + if fault == Recording(count) then installed else {}
    }

    /** The files of the rows that this run installed, was to account for, and may take for its own. */
    ghost predicate Recorded(changed: seq<Change>, rows: seq<Row>, before: set<(Name, File)>,
        unrecorded: set<(Name, File)>)
      reads this
    {
      Records(changed, rows, installed - before, created + adopted, adopted, unrecorded)
    }

    /** Install the next row: it is recorded, or the run stops. */
    method InstallNext(past: seq<Change>, rows: seq<Row>, fault: Fault, quiet: bool,
                       ghost before: set<Displacement>, ghost earlier: set<(Name, File)>,
                       ghost contents: map<Name, Content>)
      returns (changed: seq<Change>, raised: bool)
      requires Distinct(rows) && |past| < |rows|
      requires OnlyOwned(rows, before) && Recorded(past, rows, earlier, {})
      requires quiet ==> Exact(files, past, rows, contents)
      modifies this`files, this`next, this`receipt, this`created, this`installed, this`displaced, this`adopted,
        this`gone
      ensures OnlyOwned(rows, before) && AdoptedTwins(rows, old(adopted))
      ensures Recorded(changed, rows, earlier, if raised then Unrecorded(fault, |changed|) else {})
      ensures quiet ==> receipt == old(receipt) && adopted == old(adopted) && gone == old(gone)
      ensures !raised ==> |changed| == |past| + 1 && fault != Recording(|past|) && fault != AfterRow(|past|)
      ensures |past| <= |changed|
      ensures quiet && raised && Installable(contents, rows[|past|]) ==>
        fault == Recording(|past|) || fault == AfterRow(|past|)
      ensures quiet && !raised ==> Exact(files, changed, rows, contents)
      ensures quiet && raised && Installable(contents, rows[|past|]) ==>
        Exact(files, changed, rows, Residue(contents, rows, fault))
    {
      changed, raised := past, false;
      Interfere(quiet);
      var row := rows[|past|];
      if quiet {
        NextRow(contents, rows, |past|);
      }
      ghost var found := files;
      ghost var done;
      ghost var mine;
      var change;
      change, done, mine := Install(row, rows, before, quiet);
      if quiet && done {
        ExactGrows(found, past, rows, contents, change.value);
      }
      ghost var known, owned, twins := old(installed - earlier), old(created + adopted), old(adopted);
      ghost var d := (row.name, File(mine, row.after));
      if done {
        RecordsNext(past, rows, known, owned, twins, d, installed - earlier, created + adopted, adopted);
      } else {
        RecordsStay(past, rows, known, owned, twins, {}, created + adopted, adopted, {});
      }
      if change.None? || fault == Recording(|past|) {
        ghost var stopped := if done then {d} else {};
        RecordsStay(past, rows, installed - earlier, created + adopted, adopted, stopped,
                    created + adopted, adopted, Unrecorded(fault, |past|));
        return changed, true;
      }
      changed := past + [change.value];
      raised := fault == AfterRow(|past|);
      if raised {
        RecordsStay(changed, rows, installed - earlier, created + adopted, adopted, {},
                    created + adopted, adopted, Unrecorded(fault, |changed|));
      }
    }

    /** Install the rows in order until one cannot be installed, or until the fault. */
    method InstallAll(rows: seq<Row>, fault: Fault, quiet: bool)
      returns (changed: seq<Change>, raised: bool)
      requires Distinct(rows) && forall r | r in rows :: Installable(Contents(files), r)
      modifies this`files, this`next, this`receipt, this`created, this`installed, this`displaced, this`adopted,
        this`gone
      ensures OnlyOwned(rows, old(displaced)) && AdoptedTwins(rows, old(adopted))
      ensures Recorded(changed, rows, old(installed), if raised then Unrecorded(fault, |changed|) else {})
      ensures !raised ==> |changed| == |rows| && !fault.Hits(|rows|)
      ensures quiet ==> receipt == old(receipt) && adopted == old(adopted) && gone == old(gone)
      ensures quiet && raised ==>
        fault.Hits(|rows|) && Exact(files, changed, rows, Residue(Contents(old(files)), rows, fault))
      ensures quiet && !raised ==> Exact(files, changed, rows, Contents(old(files)))
    {
      changed, raised := [], false;
      while |changed| < |rows| && !raised
        invariant OnlyOwned(rows, old(displaced)) && AdoptedTwins(rows, old(adopted))
        invariant Recorded(changed, rows, old(installed), if raised then Unrecorded(fault, |changed|) else {})
        invariant !raised ==> !fault.Hits(|changed|)
        invariant quiet ==> receipt == old(receipt) && adopted == old(adopted) && gone == old(gone)
        invariant quiet && !raised ==> Exact(files, changed, rows, Contents(old(files)))
        invariant quiet && raised ==>
          fault.Hits(|rows|) && Exact(files, changed, rows, Residue(Contents(old(files)), rows, fault))
        decreases |rows| - |changed|, !raised
      {
        changed, raised :=
          InstallNext(changed, rows, fault, quiet, old(displaced), old(installed), Contents(old(files)));
      }
    }

    /** The target of a row is as it was before the row. */
    predicate AtBefore(row: Row)
      reads this
    {
      if row.before.None? then row.name !in files
      else row.name in files && files[row.name].content == row.before.value
    }

    /** Take one change back, unless it is no longer ours or the operating system refuses. */
    method RollbackOne(c: Change, stuck: bool, quiet: bool, ghost rows: seq<Row>, ghost before: set<Displacement>)
      returns (owned: bool)
      requires OnlyOwned(rows, before) && (c.row.name, c.Ours()) in created + adopted
      modifies this`files, this`next, this`receipt, this`created, this`displaced
      ensures OnlyOwned(rows, before) && old(created) <= created && old(displaced) <= displaced
      ensures owned ==> Displacement(c.row.name, c.Ours(), c.row.before) in displaced
      ensures quiet ==> receipt == old(receipt) && (owned <==> !stuck && Holds(old(files), c))
      ensures quiet && !owned ==> files == old(files)
      ensures quiet && owned ==> Contents(files) == Reverted(Contents(old(files)), c.row) && AtBefore(c.row)
      ensures quiet ==> forall n | n != c.row.name ::
        (n in files <==> n in old(files)) && (n in files ==> files[n] == old(files)[n])
    {
      Interfere(quiet);
      owned := false;
      if !stuck {
        ghost var found := Contents(files);
        owned := Restore(c, rows, before);
        assert owned ==> (c.row.name in Contents(files) <==> c.row.before.Some?);
        assert owned && c.row.before.Some? ==> Contents(files)[c.row.name] == c.row.before.value;
      }
    }

    /** From entry `j` on, exactly the stuck ones are named and still in place, and all others are as
        they were; the entries before it are still in place. */
    ghost predicate Settled(changed: seq<Change>, conflicts: seq<Name>, stuck: set<nat>, j: nat)
      reads this
    {
      && (forall k | 0 <= k < j && k < |changed| :: Holds(files, changed[k]))
      && (forall k | j <= k < |changed| :: changed[k].row.name in conflicts <==> k in stuck)
      && forall k | j <= k < |changed| :: if k in stuck then Holds(files, changed[k]) else AtBefore(changed[k].row)
    }

    /** Every entry from `j` on is either taken back or named, and nothing else is named. */
    ghost predicate Accounted(changed: seq<Change>, conflicts: seq<Name>, j: nat)
      reads this
    {
      && (forall k | j <= k < |changed| ::
        || changed[k].row.name in conflicts
        || Displacement(changed[k].row.name, changed[k].Ours(), changed[k].row.before) in displaced)
      && forall n | n in conflicts :: exists k :: j <= k < |changed| && changed[k].row.name == n
    }

    predicate Separate(changed: seq<Change>) {
      forall i, k | 0 <= i < k < |changed| :: changed[i].row.name != changed[k].row.name
    }

    /** One more entry is taken back or named. */
    method RollbackNext(changed: seq<Change>, j: nat, past: seq<Name>, stuck: set<nat>, quiet: bool,
        ghost rows: seq<Row>, ghost before: set<Displacement>)
      returns (conflicts: seq<Name>)
      requires j < |changed| && Separate(changed) && OnlyOwned(rows, before)
      requires (changed[j].row.name, changed[j].Ours()) in created + adopted
      requires Accounted(changed, past, j + 1) && (quiet ==> Settled(changed, past, stuck, j + 1))
      modifies this`files, this`next, this`receipt, this`created, this`displaced
      ensures OnlyOwned(rows, before) && old(created) <= created
      ensures Accounted(changed, conflicts, j) && (quiet ==> Settled(changed, conflicts, stuck, j))
      ensures quiet ==> receipt == old(receipt)
      ensures quiet && j !in stuck ==>
        conflicts == past && Contents(files) == Reverted(Contents(old(files)), changed[j].row)
    {
      var owned := RollbackOne(changed[j], j in stuck, quiet, rows, before);
      conflicts := if owned then past else past + [changed[j].row.name];
    }

    /** Take the changes back, last first, and name the targets that are no longer ours or that the
        operating system would not let go; `stuck` numbers the latter. */
    method RollbackChanged(changed: seq<Change>, stuck: set<nat>, ghost rows: seq<Row>,
        ghost before: set<Displacement>, quiet: bool, ghost contents: map<Name, Content>)
      returns (conflicts: seq<Name>)
      requires OnlyOwned(rows, before) && Distinct(rows) && |changed| <= |rows|
      requires forall k | 0 <= k < |changed| ::
        changed[k].row == rows[k] && (rows[k].name, changed[k].Ours()) in created + adopted
      requires quiet ==> Exact(files, changed, rows, contents)
      modifies this`files, this`next, this`receipt, this`created, this`displaced
      ensures OnlyOwned(rows, before) && old(created) <= created
      ensures Accounted(changed, conflicts, 0)
      ensures quiet ==> Settled(changed, conflicts, stuck, 0) && receipt == old(receipt)
      ensures quiet && stuck == {} ==> conflicts == [] && Contents(files) == contents
    {
      conflicts := [];
      var j := |changed|;
      while j > 0
        invariant 0 <= j <= |changed|
        invariant OnlyOwned(rows, before) && old(created) <= created
        invariant Accounted(changed, conflicts, j)
        invariant quiet ==> Settled(changed, conflicts, stuck, j) && receipt == old(receipt)
        invariant quiet && stuck == {} ==> conflicts == [] && Contents(files) == Overlay(contents, rows[..j])
      {
        j := j - 1;
        if quiet {
          RevertOverlay(contents, rows, j);
        }
        conflicts := RollbackNext(changed, j, conflicts, stuck, quiet, rows, before);
      }
    }

    /** The inventory check, the hook and the exclusive creation of the receipt. */
    method SealReceipt(m: Manifest, fault: Fault, quiet: bool) returns (raised: bool)
      modifies this`files, this`next, this`receipt
      ensures quiet ==> files == old(files)
      ensures quiet ==>
        (raised <==>
         || Models(Contents(old(files))) != m.after || old(receipt).Some?
         || fault.BeforeReceipt? || fault.WritingReceipt?)
      ensures !raised ==> receipt == Some(Bound(Bindings(m.rows)))
      ensures quiet && raised ==>
        receipt == old(receipt) ||
        (fault.WritingReceipt? && receipt == Some(Torn) && Models(Contents(files)) == m.after)
      ensures quiet && raised && Models(Contents(files)) == m.after && old(receipt).None? && fault.WritingReceipt? ==>
        receipt == Some(Torn)
    {
      Interfere(quiet);
      if Models(Contents(files)) != m.after { return true; }
      Interfere(quiet);
      if fault.BeforeReceipt? || receipt.Some? { return true; }
      if fault.WritingReceipt? {
        receipt := Some(Torn);
        return true;
      }
      receipt := Some(Bound(Bindings(m.rows)));
      raised := false;
    }

    /** The part of the program inside the `try`. */
    method InstallAndSeal(m: Manifest, fault: Fault, quiet: bool)
      returns (changed: seq<Change>, raised: bool)
      requires Admissible(m, Contents(files), receipt)
      modifies this`files, this`next, this`receipt, this`created, this`installed, this`displaced, this`adopted,
        this`gone
      ensures OnlyOwned(m.rows, old(displaced)) && AdoptedTwins(m.rows, old(adopted))
      ensures raised ==> Recorded(changed, m.rows, old(installed), Unrecorded(fault, |changed|))
      ensures quiet ==> adopted == old(adopted) && gone == old(gone)
      ensures !raised ==> receipt == Some(Bound(Bindings(m.rows)))
      ensures quiet ==>
        (!raised <==>
         && m.after == ExpectedInventory(m.before, m.rows)
         && !fault.Hits(5) && !fault.BeforeReceipt? && !fault.WritingReceipt?)
      ensures quiet && !raised ==> Contents(files) == Overlay(Contents(old(files)), m.rows)
      ensures quiet && raised ==> Exact(files, changed, m.rows, Residue(Contents(old(files)), m.rows, fault))
      ensures quiet && raised ==>
        receipt == if fault.WritingReceipt? && m.after == ExpectedInventory(m.before, m.rows) then Some(Torn) else None
    {
      ghost var contents := Contents(files);
      assert Models(Overlay(contents, m.rows)) == ExpectedInventory(m.before, m.rows) by {
        ModelsOfOverlay(contents, m.rows);
      }
      changed, raised := InstallAll(m.rows, fault, quiet);
      if raised { return; }
      assert m.rows[..|m.rows|] == m.rows;
      RecordsStay(changed, m.rows, installed - old(installed), created + adopted, adopted, {},
                  created + adopted, adopted, Unrecorded(fault, |changed|));
      raised := SealReceipt(m, fault, quiet);
    }

    /** Install and seal, and take back on failure. */
    method Attempt(m: Manifest, fault: Fault, stuck: set<nat>, quiet: bool)
      returns (outcome: Outcome, ghost changed: seq<Change>)
      requires Admissible(m, Contents(files), receipt)
      modifies this`files, this`next, this`receipt, this`created, this`installed, this`displaced, this`adopted,
        this`gone
      ensures OnlyOwned(m.rows, old(displaced)) && AdoptedTwins(m.rows, old(adopted)) && !outcome.Refused?
      ensures quiet ==> adopted == old(adopted) && gone == old(gone)
      ensures outcome.Applied? ==> receipt == Some(Bound(Bindings(m.rows)))
      ensures outcome.Raised? ==> Recorded(changed, m.rows, old(installed), Unrecorded(fault, |changed|))
      ensures outcome.Raised? ==> Accounted(changed, outcome.conflicts, 0)
      ensures quiet ==>
        (outcome.Applied? <==>
         && m.after == ExpectedInventory(m.before, m.rows)
         && !fault.Hits(5) && !fault.BeforeReceipt? && !fault.WritingReceipt?)
      ensures quiet && outcome.Applied? ==> Contents(files) == Overlay(Contents(old(files)), m.rows)
      ensures quiet && outcome.Raised? ==> Settled(changed, outcome.conflicts, stuck, 0)
      ensures quiet && outcome.Raised? && stuck == {} ==>
        outcome.conflicts == [] && Contents(files) == Residue(Contents(old(files)), m.rows, fault)
      ensures quiet && outcome.Raised? ==>
        receipt == if fault.WritingReceipt? && m.after == ExpectedInventory(m.before, m.rows) then Some(Torn) else None
    {
      changed := [];
      ghost var base := Residue(Contents(files), m.rows, fault);
      var entries, raised;
      entries, raised := InstallAndSeal(m, fault, quiet);
      changed := entries;
      if !raised { return Applied, changed; }
      ghost var owned := created + adopted;
      var conflicts := RollbackChanged(entries, stuck, m.rows, old(displaced), quiet, base);
      RecordsStay(changed, m.rows, installed - old(installed), owned, adopted, Unrecorded(fault, |changed|),
                  created + adopted, adopted, Unrecorded(fault, |changed|));
      outcome := Raised(conflicts);
    }

    /** Apply the transition, and take it back when anything fails. */
    method ApplyTransition(m: Manifest, fault: Fault, stuck: set<nat>, quiet: bool)
      returns (outcome: Outcome, ghost changed: seq<Change>)
      modifies this`files, this`next, this`receipt, this`created, this`installed, this`displaced, this`adopted,
        this`gone
      // Whatever the other actors do, only reviewed predecessors and this run's own files are displaced,
      // or twins of these that were adopted while their identity was read.
      ensures forall d | d in displaced && d !in old(displaced) ::
        || (d.name, d.file) in created + adopted
        || exists r :: r in m.rows && r.name == d.name && r.before == Some(d.file.content)
      ensures forall a | a in adopted && a !in old(adopted) ::
        exists r :: r in m.rows && r.name == a.0 && r.after == a.1.content
      ensures quiet ==> adopted == old(adopted) && gone == old(gone)
      ensures outcome.Refused? <==> !Admissible(m, Contents(old(files)), old(receipt))
      ensures outcome.Refused? ==> files == old(files) && receipt == old(receipt) && displaced == old(displaced)
      // The receipt of an applied transition binds every target to the bytes that it is to hold.
      ensures outcome.Applied? ==>
        && receipt.Some? && receipt.value.Bound? && |receipt.value.targets| == |m.rows|
        && forall k | 0 <= k < |m.rows| :: receipt.value.targets[k] == (m.rows[k].name, m.rows[k].after)
      // A failed run took every recorded installation back to its prior state, or names it; at most
      // one installation is not recorded, the one that the fault strikes or whose file was gone at once.
      ensures outcome.Raised? ==>
        |changed| <= |m.rows| && forall k | 0 <= k < |changed| ::
          && changed[k].row == m.rows[k]
          && (m.rows[k].name, File(changed[k].inode, m.rows[k].after)) in created + adopted
          && (changed[k].row.name in outcome.conflicts ||
              Displacement(m.rows[k].name, File(changed[k].inode, m.rows[k].after), m.rows[k].before) in displaced)
      ensures outcome.Raised? ==>
        forall n | n in outcome.conflicts :: exists k :: 0 <= k < |changed| && changed[k].row.name == n
      ensures outcome.Raised? ==>
        forall d | d in installed && d !in old(installed) ::
          || (|changed| < |m.rows| && d.0 == m.rows[|changed|].name && (d in gone || fault == Recording(|changed|)))
          || exists k :: 0 <= k < |changed| && d.0 == changed[k].row.name
                         && (d.1 == File(changed[k].inode, changed[k].row.after) ||
                             (d.0, File(changed[k].inode, changed[k].row.after)) in adopted)
      // Undisturbed, the outcome is decided by the inputs and the state is exact.
      ensures quiet && !outcome.Refused? ==>
        (outcome.Applied? <==>
         && m.after == ExpectedInventory(m.before, m.rows)
         && !fault.Hits(5) && !fault.BeforeReceipt? && !fault.WritingReceipt?)
      ensures quiet && outcome.Applied? ==> Contents(files) == Overlay(Contents(old(files)), m.rows)
      ensures quiet && outcome.Applied? ==>
        var targets := receipt.value.targets;
        && (set t | t in targets :: t.0) == {DRAFT, VERIFIER, INITIAL_SCREEN, DocumentConfig, LaneConfig}
        && (forall i, k | 0 <= i < k < |targets| :: targets[i].0 != targets[k].0)
        && (forall t | t in targets :: t.0 in files && files[t.0].content == t.1)
      ensures quiet && outcome.Raised? ==>
        forall k | 0 <= k < |changed| ::
          var row := changed[k].row;
          if k in stuck then
            row.name in outcome.conflicts && row.name in files && files[row.name] == File(changed[k].inode, row.after)
          else
            row.name !in outcome.conflicts &&
            if row.before.None? then row.name !in files
            else row.name in files && files[row.name].content == row.before.value
      ensures quiet && outcome.Raised? && stuck == {} ==>
        outcome.conflicts == [] && Contents(files) == Residue(Contents(old(files)), m.rows, fault)
      ensures quiet && outcome.Raised? ==>
        receipt == if fault.WritingReceipt? && m.after == ExpectedInventory(m.before, m.rows) then Some(Torn) else None
    {
      changed := [];
      if !Admissible(m, Contents(files), receipt) { return Refused, changed; }
      outcome, changed := Attempt(m, fault, stuck, quiet);
      if outcome.Raised? {
        EveryInstallation(changed, m.rows, installed - old(installed), created + adopted, adopted,
                          Unrecorded(fault, |changed|));
      }
      if quiet && outcome.Applied? {
        BindingsHold(m, Contents(old(files)), files);
      }
    }

    /** The preparation and then the application, in terms of the files: over a directory without the
        added files, with the replaced one at its reviewed bytes and every model readable, all five
        targets get their bytes, nothing else changes, and the receipt lists the five with these bytes. */
    method PrepareAndApply(draft: Content, verifier: Content, screenBefore: Content, screen: Content,
                           document: Content, lane: Content)
      returns (outcome: Outcome)
      requires receipt == None && draft.Json? && verifier.Json? && screen.Json?
      requires DRAFT !in files && VERIFIER !in files && DocumentConfig !in files && LaneConfig !in files
      requires INITIAL_SCREEN in files && files[INITIAL_SCREEN].content == screenBefore
      requires forall n | n in files && n.Model? :: files[n].content.Json?
      modifies this`files, this`next, this`receipt, this`created, this`installed, this`displaced, this`adopted,
        this`gone
      ensures outcome == Applied
      ensures Contents(files) == Contents(old(files))[DRAFT := draft][VERIFIER := verifier]
        [INITIAL_SCREEN := screen][DocumentConfig := document][LaneConfig := lane]
      ensures receipt == Some(Bound([(DRAFT, draft), (VERIFIER, verifier), (INITIAL_SCREEN, screen),
                                     (DocumentConfig, document), (LaneConfig, lane)]))
    {
      ghost var contents := Contents(files);
      var m := BuildTransition(Models(Contents(files)), draft, verifier, screenBefore, screen, document, lane);
      BuiltIsAdmissible(contents, draft, verifier, screenBefore, screen, document, lane);
      InventoriesAgree(contents, draft, verifier, screenBefore, screen, document, lane);
      ghost var changed;
      outcome, changed := ApplyTransition(m, NoFault, {}, true);
      OverlayOfFive(contents, m.rows, draft, verifier, screen, document, lane);
      TargetsOfFive(receipt.value.targets, m.rows, draft, verifier, screen, document, lane);
    }
  }

  /** The five rows of a preparation. */
  predicate FiveRows(rows: seq<Row>, draft: Content, verifier: Content, screen: Content, document: Content,
      lane: Content)
  {
    && |rows| == 5
    && rows[0].name == DRAFT && rows[0].after == draft
    && rows[1].name == VERIFIER && rows[1].after == verifier
    && rows[2].name == INITIAL_SCREEN && rows[2].after == screen
    && rows[3].name == DocumentConfig && rows[3].after == document
    && rows[4].name == LaneConfig && rows[4].after == lane
  }

  lemma OverlayOfFive(contents: map<Name, Content>, rows: seq<Row>, draft: Content, verifier: Content, screen: Content,
      document: Content, lane: Content)
    requires FiveRows(rows, draft, verifier, screen, document, lane)
    ensures Overlay(contents, rows) == contents[DRAFT := draft][VERIFIER := verifier][INITIAL_SCREEN := screen]
      [DocumentConfig := document][LaneConfig := lane]
  {
    assert rows[..4][..3] == rows[..3] && rows[..3][..2] == rows[..2] && rows[..2][..1] == rows[..1];
    assert rows[..1][..0] == [] && Overlay(contents, rows[..1]) == contents[DRAFT := draft];
    assert Overlay(contents, rows[..2]) == contents[DRAFT := draft][VERIFIER := verifier];
    assert Overlay(contents, rows[..3]) == contents[DRAFT := draft][VERIFIER := verifier][INITIAL_SCREEN := screen];
  }

  lemma TargetsOfFive(targets: seq<(Name, Content)>, rows: seq<Row>, draft: Content, verifier: Content,
      screen: Content, document: Content, lane: Content)
    requires FiveRows(rows, draft, verifier, screen, document, lane) && |targets| == 5
    requires forall k | 0 <= k < 5 :: targets[k] == (rows[k].name, rows[k].after)
    ensures targets == [(DRAFT, draft), (VERIFIER, verifier), (INITIAL_SCREEN, screen),
                        (DocumentConfig, document), (LaneConfig, lane)]
  {
  }

  lemma BuiltIsAdmissible(contents: map<Name, Content>, draft: Content, verifier: Content,
      screenBefore: Content, screen: Content, document: Content, lane: Content)
    requires DRAFT !in contents && VERIFIER !in contents && DocumentConfig !in contents && LaneConfig !in contents
    requires INITIAL_SCREEN in contents && contents[INITIAL_SCREEN] == screenBefore
    requires draft.Json? && verifier.Json? && screen.Json?
    requires forall n | n in contents && n.Model? :: contents[n].Json?
    ensures var m := BuildTransition(Models(contents), draft, verifier, screenBefore, screen, document, lane);
      Admissible(m, contents, None) && FiveRows(m.rows, draft, verifier, screen, document, lane)
  {
    var m := BuildTransition(Models(contents), draft, verifier, screenBefore, screen, document, lane);
    FiveNames(m.rows, draft, verifier, screen, document, lane);
    assert forall n | n in Models(contents) :: Models(contents)[n] == contents[n].Read();
  }

  lemma FiveNames(rows: seq<Row>, draft: Content, verifier: Content, screen: Content, document: Content, lane: Content)
    requires FiveRows(rows, draft, verifier, screen, document, lane)
    ensures (set r | r in rows :: r.name) == {DRAFT, VERIFIER, INITIAL_SCREEN, DocumentConfig, LaneConfig}
    ensures Distinct(rows)
  {
    var names := set r | r in rows :: r.name;
    assert forall k | 0 <= k < 5 :: rows[k] in rows && rows[k].name in names;
    assert rows[0].name == DRAFT && rows[1].name == VERIFIER && rows[2].name == INITIAL_SCREEN;
    assert rows[3].name == DocumentConfig && rows[4].name == LaneConfig;
  }
}
