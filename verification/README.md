# Verified model of the deployment protocols

The deployment scripts of this repository are small hand-written transactions over files: they
displace, link, replace and undo, while other actors may race them, any step may fail and the
process may die between two steps. This project models those transactions in Dafny, branch by
branch, and proves what they keep. `dafny verify dfyconfig.toml` checks all of it.

Conventions used throughout:

* The outside is a parameter. `Interfere(quiet)` (or `alone`, `steady`) stands for any number of
  moves of other actors between two of our steps; clauses that begin with `quiet ==>` say exactly
  what an undisturbed run does, all other clauses hold under any interference. A `Fault`, `Plan` or
  `cut` argument chooses the step that raises or after which the process dies, so one contract
  covers every one of them.
* Ghost fields (`log`, `views`, `writes`, `displaced`, `rewrites`, a returned `trail`) record what
  happened in order, so that contracts speak about every step and not only about the end.
* SHA-256 is injective: a digest is a constructor around the value it was taken of, or the value
  itself. A JSON document is a value tree or a record of the fields that matter.

| module | what it models |
|---|---|
| `FileSystem`, `CompareAndInstall` | names, inodes and racing owners; the owned compare-and-install of the broker window |
| `BrokerWindow` | host patch, config swap and gateway stop/start, with failure recovery and rollback |
| `Publication` | two pointers, two snapshots and one receipt, run again after any crash |
| `ConfigTransition` | five targets installed with an owned rollback; three computations of the model inventory |
| `WriterTokenRestore` | restoration of the writer tokens through the evidence directory |
| `JsonTree`, `FrameTransition` | paths, patches and unique replacements in JSON trees; the reviewed OpenClaw edit and its replay |
| `PointerSwitch`, `StagedStartup` | the hash-linked pointer pair behind the publication gate; the staged restart of a fleet |
| `RoutingAlignment` | plans and saves that bring every environment to one model routing |
| `SecSelection` | plan, approval receipt and selector, created in order and taken back |
| `SharedBudget` | the chained host policy and the bindings to it |
| `RouteCompaction` | rewriting of idempotency rows that keeps every replay |
| `EvidenceBundle` | the Markdown bundle and a reader for section 4.5 of CommonMark 0.31.2 |
| `HealthWindow` | the policy, the observer and the verification of the health window |

## Where the code does less than it says

Each of these is stated in a contract as an exact condition, or shown by a lemma.

* `_compare_and_install`: a failure at `candidate.lstat()` leaves the new file installed, and a failing
  last `path.stat()` withdraws it with nothing left to put back. The temporary names are created before
  the `try`: when the creation of the second one fails the first stays, and when its closing or unlinking
  fails both stay. Every other failure restores the directory exactly, provided that the handlers do their
  part (`CompareAndInstall.RestoredOutsideTheGaps`, both directions).
* Broker window: recovery decides by the host receipt. If the host step failed and its own undo did not
  bring the target back, or if the config file was lost, the gateway is started on files that do not
  belong together, unless that start itself raises with the gateway stopped (`MixedStart`, both
  directions in `BrokerWindow.Window.ApplyReviewedTransition`). The writing of the host receipt can raise
  after the link and leave it over a target that was put back; recovery then refuses and the gateway stays
  down. A rollback looks at the host target only
  after it stopped the gateway and put the config back; a target that changed since the apply leaves the
  gateway down (`BrokerWindow.Window.RollbackReviewedTransition`).
* Publication: a creation that is cut off before its bytes are written makes every later run fail
  closed (`Publication.RunsConvergeUnlessTorn`). The recovery branch replaces a pointer that it read
  before the finalizer ran and does not read again, so bytes that another actor put there meanwhile
  are overwritten: exactly when the pointer was read as half-published and no longer holds what was read
  (`Publication.Lost`, `Publication.ForeignBytesAreLost`). A foreign receipt is noticed
  only after both pointers have moved.
* Writer-token restore: the sync of the evidence directory is outside the `try`; its failure leaves the
  target vacant, with the value kept in the evidence.
* Config transition: an installation that fails before it is entered in `changed` stays installed
  (`ConfigTransition.RestoredUnlessUnrecorded`). The identity of an installed file is read from its name
  after the link or replace, so a file with the same bytes that another actor put there meanwhile is taken
  for the own one and taken back (`ConfigTransition.StateDirectory.TwinIsTakenBack`). The inventory is
  compared by JSON value and a replaced target by its bytes, so a target with the reviewed value in another
  spelling is refused and every other model may be respelled (`ConfigTransition.RespelledTargetIsRefused`,
  `ConfigTransition.SpellingIsFree`). A receipt whose writing fails stays as a torn file over
  restored targets.
* Frame transition: the candidate is compared with the equality of the source language, in which `true`,
  `1` and `1.0` are equal, so a candidate whose leaf changed its type is accepted
  (`FrameTransition.TypeChangeIsAccepted`); it is the expected value exactly when no type changed.
* Release pointers: while a switch has replaced the runtime pointer and not yet the release pointer, a
  gate is active exactly when the old release already names the digest of the new runtime pointer and
  agrees with it in the remaining fields; only the release of the beginning can
  (`PointerSwitch.ReleaseHost.WritePointers`, `PointerSwitch.ForetoldRuntimeOpens`).
* Routing alignment: the documentation says that a tier save drops the tier's stage pins
  (`scripts/align_model_routing.py:239-241`), while `publish_tier_selection` keeps them
  (`src/dalton_core/model_selection.py:659-660`). The model has both, as `Writer.drops`. Either way one
  run may not be enough, and two are enough exactly when the saves reach what they have to, which can be
  decided before the first of them (`RoutingAlignment.TwoRunsAlign`).
* SEC selection: if the creation of the selector fails after its link, undo removes the plan and the
  receipt that this run created and leaves the selector alone; this is the only way
  (`SecSelection.ResidueMeaning`). Undo knows its files by their bytes alone, so an identical file of
  another actor that replaced a linked one is removed in its place
  (`SecSelection.TargetDirectory.TwinIsRemoved`).
* Evidence bundle: names, paths and labels are not checked for line endings. For a reader of section 4.5 of
  CommonMark, which knows fenced blocks and no others, a bundle is read back if and only if no line of a
  header opens a fence (`EvidenceBundle.ReadBackExactly`), and one line of a name, path or label that opens
  one breaks it (`EvidenceBundle.OpeningNameBreaks`). Texts with carriage returns come
  back line by line but not character by character (`EvidenceBundle.ExactText`).
* Shared budget: two environments whose ledgers lie in one place cannot both be bound
  (`SharedBudget.SharedLedgerCannotBeBound`).

## Model

| member | source | states |
|---|---|---|
| CompareAndInstall.CompareAndInstall | scripts/openclaw_broker_stopped_window.py:73-134 | under any interference and any fault no file that others own is written to, and no inode loses its last name except the two files created here and the owned one; the log decides what was displaced, at most one file, and that is owned if and only if it is the one seen at the path with the reviewed bytes and nothing kept the program from seeing so; a displaced file is at the held name or was moved back, and only the owned one may have been discarded; success means that exactly the owned file was displaced, the new bytes were published by exclusive link, and nothing else happened; undisturbed, outcome and directory are exact for every fault and every failure of the handlers |
| CompareAndInstall.Reserve | scripts/openclaw_broker_stopped_window.py:86-95 | the two temporary names are created without a handler: undisturbed, exactly the names created so far remain at each failure, and otherwise the candidate alone |
| CompareAndInstall.Install | scripts/openclaw_broker_stopped_window.py:86-134 | the `try` with its handlers keeps that accounting over the log and ends, undisturbed, in the final names of the fault and the failures of the handlers |
| CompareAndInstall.Body | scripts/openclaw_broker_stopped_window.py:95-117 | what the guarded body displaced is what the log says, and is kept whether or not it raises; it returns only with exactly the four moves of an installation |
| CompareAndInstall.HoldOwned | scripts/openclaw_broker_stopped_window.py:96-108 | what was displaced is what the log says; it counts as owned if and only if it is the expected inode with the reviewed bytes and could be inspected; any other is at the held name or went back to a vacant path |
| CompareAndInstall.PublishCandidate | scripts/openclaw_broker_stopped_window.py:109-117 | publication by link onto a vacant name, then the three remaining steps in order |
| CompareAndInstall.Recover | scripts/openclaw_broker_stopped_window.py:118-127 | withdraws only the own publication and gives the held file its name back without overwriting; undisturbed, exact for every failing operation of its own |
| CompareAndInstall.Sweep | scripts/openclaw_broker_stopped_window.py:128-134 | a held file that is not the owned one is never discarded; undisturbed, exact for every failing operation of its own |
| CompareAndInstall.UndoIsExact | scripts/openclaw_broker_stopped_window.py:96-134 | body and working handlers together give back the original names for every failing step inside the `try`, except in its two gaps, where they leave the new file or nothing |
| CompareAndInstall.RestoredOutsideTheGaps | scripts/openclaw_broker_stopped_window.py:86-134 | with any fault and any failures of the handlers, a failed run restores the directory if and only if it failed outside the gaps, unlinked what it published, swept the candidate, and one of two attempts to return the held file worked |
| BrokerWindow.SwapFile | scripts/openclaw_broker_stopped_window.py:73-134 | an undisturbed compare-and-install, with any expected file, any fault and any failures of the handlers, and whatever the path holds, ends as one of the four swaps that the window is built from, and returns only from the one that succeeds |
| BrokerWindow.Window.ApplyReviewedTransition | scripts/openclaw_broker_stopped_window.py:644-737 | from every host target, also one that is not at its reviewed bytes: refuses if and only if the checks fail, the config is not at the reviewed bytes, the gateway is not loaded or the receipt directory is there; at every step a patched config stands over a patched host; the gateway is loaded only on the pair of the beginning or the installed one if and only if the run is not one of the mixed starts; applied if and only if every step succeeds, named one by one; a recovered run ends where it began; a host receipt left over a target that is not the installed file leaves the gateway down |
| BrokerWindow.Window.Recover | scripts/openclaw_broker_stopped_window.py:715-736 | recovery by config identity and host receipt: when it succeeds, and exactly when it starts the gateway on a mixed pair |
| BrokerWindow.Window.InstallAndRestart | scripts/openclaw_broker_stopped_window.py:671-714 | succeeds exactly on a clean plan over a host target at its reviewed bytes; otherwise leaves one of the states that recovery expects |
| BrokerWindow.Window.ApplyHostPatch | scripts/openclaw_broker_stopped_window.py:422-454 | succeeds exactly when every step does, and leaves a receipt exactly then or when its writing raised after the link; a target that is not at its reviewed bytes is left alone; on failure the original host target exactly when the own undo brought it back |
| BrokerWindow.Window.RollbackReviewedTransition | scripts/openclaw_broker_stopped_window.py:740-811 | refuses if and only if the checks fail, the config is not at the installed bytes, the gateway is not loaded or a receipt is missing; from every host target the patched host is never put back under the new config, and the gateway is loaded only on the pair of the beginning or the restored one; succeeds if and only if every step does and the host target still is the installed file, and otherwise leaves the gateway down once it was stopped |
| BrokerWindow.Window.ApplyAndRollBack | scripts/openclaw_broker_stopped_window.py:644-811 | the round trip, with and without a host patch: from the reviewed files, a loaded gateway and no receipt directory, with every step succeeding, an apply installs both files and the rollback after it ends at the view of the beginning |
| Publication.Publish | scripts/publish_successor_verified_release.py:174-378 | every write is a step of the protocol, apart from the one replacement of bytes of others that is reported, which the pointers as read and the disk then found decide; an undisturbed uninterrupted run succeeds exactly on the publishable disks and leaves exactly the finished one; an exception takes both pointers back |
| Publication.Advance | scripts/publish_successor_verified_release.py:328-378 | from the pointers as they were read: bytes of others are replaced exactly when a pointer was read as half-published and holds something else by now; otherwise every write is a protocol step; undisturbed, each outcome says what the disk holds |
| Publication.RestoreHalf | scripts/publish_successor_verified_release.py:331-341 | the half-published pointer gets its predecessor, and other bytes are lost if and only if it no longer holds what was published |
| Publication.ForeignBytesAreLost | scripts/publish_successor_verified_release.py:329-335 | for every disk with one half-published pointer, either of the two, and any foreign bytes put there after the reading, these are lost and the replacement is no protocol step |
| Publication.RunsKeepTheInvariant | scripts/publish_successor_verified_release.py:328-378 | over any runs, each cut off anywhere, in terms of the bytes on the disk: the new release pointer stands only beside the new runtime pointer, the receipt only beside both, and a pointer that moved has its predecessor in the snapshot |
| Publication.RunsConvergeUnlessTorn | scripts/publish_successor_verified_release.py:74-82 | whatever runs leave behind, a further run succeeds if and only if no creation was torn |
| Publication.PublishableDisks | scripts/publish_successor_verified_release.py:174-206 | which disks are publishable: each pointer at its reviewed predecessor or the new bytes, each snapshot exact or still to be taken of the live predecessor, and no other receipt |
| Publication.RunsExtend | scripts/publish_successor_verified_release.py:174-378 | the writes of one more run extend the history, so the invariant is one of whole histories |
| Publication.NewDiffersFromOld | scripts/publish_successor_verified_release.py:230-279 | the new pointers differ from their predecessors because they contain their digests |
| Publication.FinishedFilesBelongTogether | scripts/publish_successor_verified_release.py:230-326 | on a finished disk the release pointer names the digest of the runtime pointer beside it, each pointer names the digest of the saved predecessor, and the receipt names the digests of both pointers and of both snapshots |
| Publication.BoundPredecessors | scripts/publish_successor_verified_release.py:192-206 | which predecessors belong together: two pointers of the same commit of which the release names the digest of the runtime, or a legacy runtime that names the digest of the release |
| Publication.PublishInTurn | scripts/publish_successor_verified_release.py:174-378 | the chaining law: after a publication, a request that expects the digests of the two pointers just published can be published in turn, and saves those two as its predecessors |
| Publication.SwapPointers | scripts/publish_successor_verified_release.py:345-376 | runtime first, then release, each only over its reviewed predecessor; failure leaves the disk as it was |
| Publication.TakeBack | scripts/publish_successor_verified_release.py:364-374 | takes back what still is this run's publication, release first, and nothing else |
| Publication.SaveSnapshot | scripts/publish_successor_verified_release.py:180-191 | a snapshot is created once, of the reviewed live predecessor, and a usable one is never replaced |
| Publication.SaveReceipt | scripts/publish_successor_verified_release.py:377-378 | the receipt is created exclusively, an exact one is accepted, any other refused |
| Publication.RestoringOverOthersIsNoStep | scripts/publish_successor_verified_release.py:334-341 | replacing a pointer that no longer holds the half-published bytes is outside the protocol |
| WriterTokenRestore.RestoreProtectedState | scripts/execute_successor_stopped_window_candidate.py:674-747 | under any interference nothing is unlinked or overwritten and the displaced file keeps its evidence name; nothing is displaced unless the protected state was found as reviewed twice, and success means that it was so at the end too and leaves the reviewed bytes; every publication is an exclusive link; undisturbed, the result of every fault and of every answer of the three checks is exact |
| WriterTokenRestore.Publish | scripts/execute_successor_stopped_window_candidate.py:726-745 | links the reviewed bytes, or the displaced file into a vacant name |
| ConfigTransition.StateDirectory.ApplyTransition | scripts/prepare_successor_config_transition.py:2081-2237 | refuses exactly on an inadmissible directory; only reviewed predecessors, own files and twins adopted while their identity was read are ever displaced; applied if and only if no fault strikes and the manifest's final inventory is the expected one; a failed run takes every recorded installation back or names it, and at most one installation is unrecorded: the one that the fault strikes, or whose name led to no file when its identity was read; undisturbed exactly the targets that the operating system would not let go are named and the rest of the directory is restored up to the named residue |
| ConfigTransition.StateDirectory.InstallAll | scripts/prepare_successor_config_transition.py:2167-2197 | installs the rows in order; the entries are the installed files or the ones adopted for them, and at most the next row is installed without an entry |
| ConfigTransition.StateDirectory.Install | scripts/prepare_successor_config_transition.py:2168-2195 | an exclusive add needs a vacant name, a replacement the reviewed bytes, otherwise nothing changes; the entry has the identity found at the name afterwards: that of the installed file, or of one adopted in its place |
| ConfigTransition.StateDirectory.TwinIsTakenBack | scripts/prepare_successor_config_transition.py:2168-2195 | a file of the same bytes that comes between installation and reading of the identity is taken back though this program did not create it |
| ConfigTransition.StateDirectory.RollbackChanged | scripts/prepare_successor_config_transition.py:2138-2165 | every change is taken back to its prior state or named, because it is someone else's or the operating system refuses, and only changes are named; undisturbed, exactly the refused ones are named and still in place |
| ConfigTransition.StateDirectory.Restore | scripts/prepare_successor_config_transition.py:2142-2164 | a target is touched exactly when it still is the installed file by inode and bytes, and then returns to its prior state |
| ConfigTransition.StateDirectory.SealReceipt | scripts/prepare_successor_config_transition.py:2198-2228 | the receipt is created exclusively, after the inventory check, and lists every target by name with the bytes installed there |
| ConfigTransition.BindingsHold | scripts/prepare_successor_config_transition.py:2213-2219 | over an installed directory the receipt lists each target once, and each listed name holds exactly the listed bytes |
| ConfigTransition.StateDirectory.PrepareAndApply | scripts/prepare_successor_config_transition.py:1202-2237 | building a manifest and applying it, in terms of the files alone: over vacant targets and a screen at its reviewed bytes, with readable models, the transition is applied, the five files hold the new bytes and every other file is as before, and the receipt lists the five names with those bytes |
| ConfigTransition.RestoredUnlessUnrecorded | scripts/prepare_successor_config_transition.py:2190-2197 | a failed run restores the directory if and only if it did not fail between an installation and its record |
| ConfigTransition.InventoriesAgree | scripts/prepare_successor_config_transition.py:229-246 | for every baseline the pure build, the fold over the manifest and the directory after installation read as the same inventory of JSON values |
| ConfigTransition.SpellingIsFree | scripts/prepare_successor_config_transition.py:2098-2133 | only the values of the models and the bytes of what is replaced decide whether the directory is admissible |
| ConfigTransition.AdmissibleFiles | scripts/prepare_successor_config_transition.py:2098-2133 | a directory is admissible if and only if there is no receipt, the five targets of the manifest are the five of the protocol, the replaced one is at its reviewed bytes and the others are vacant, and the models are readable and have the reviewed values |
| ConfigTransition.RespelledTargetIsRefused | scripts/prepare_successor_config_transition.py:2098-2133 | a replaced model with the reviewed value in any other spelling leaves the inventory as reviewed and the directory inadmissible |
| ConfigTransition.ModelsOfOverlay | scripts/prepare_successor_config_transition.py:1202-1225 | restricting the directory to its models commutes with installing any rows |
| ConfigTransition.RevertOverlay | scripts/prepare_successor_config_transition.py:2150-2160 | reverting the last row gives the state before it |
| ConfigTransition.OverlayAt | scripts/prepare_successor_config_transition.py:2168-2195 | with distinct names every target holds its own bytes at the end |
| JsonTree.LookWrite | scripts/prepare_successor_config_transition.py:347-373 | a write is read back |
| JsonTree.WriteLook | scripts/prepare_successor_config_transition.py:347-373 | writing what is there, or removing what is absent, changes nothing |
| JsonTree.WriteWrite | scripts/prepare_successor_config_transition.py:364-373 | the last write wins and is as admissible as if it were the only one |
| JsonTree.WriteFrame | scripts/prepare_successor_config_transition.py:364-373 | a write leaves every diverging path alone |
| JsonTree.WriteBelow | scripts/prepare_successor_config_transition.py:699-714 | an edit inside a node is the edit of the node |
| JsonTree.ReplacedBack | scripts/prepare_successor_config_transition.py:664-677 | a unique replacement meets the precondition of its opposite, which undoes it |
| JsonTree.ReplayBack | scripts/prepare_successor_config_transition.py:637-714 | the opposite edits in reverse order lead back exactly |
| JsonTree.ReplayFrame | scripts/prepare_successor_config_transition.py:637-714 | edits leave alone whatever lies off all their paths |
| JsonTree.SameIsExact | scripts/prepare_successor_config_transition.py:715-716 | two trees are equal if and only if they compare equal and no leaf changed its type |
| FrameTransition.Review | scripts/prepare_successor_config_transition.py:615-719 | accepts exactly the candidates that compare equal to the replay of the planned edits over the reviewed value, each edit meeting its precondition, and records those edits |
| FrameTransition.WhatIsReviewed | scripts/prepare_successor_config_transition.py:615-719 | the conditions of acceptance one by one: the object of the broker, the three admitted limits, the raised limit of the candidate, the bound and the plugin of a timeout migration, and a candidate that compares equal to the replay |
| FrameTransition.WhatIsPlanned | scripts/prepare_successor_config_transition.py:632-714 | an edit is planned if and only if it raises a limit that is not raised yet, replaces the path of a requested plugin, or migrates a profile with a timeout of 600 or 900 seconds |
| FrameTransition.ValidInventory | scripts/prepare_successor_config_transition.py:694-704 | the admitted inventories: 1 to 128 profiles, each with an identifier of its own and a timeout of 1 to 1,800,000 milliseconds |
| FrameTransition.ReviewMeaning | scripts/prepare_successor_config_transition.py:632-719 | the edits lead from the reviewed to the expected value and back, the limit is raised, whatever lies off the limit, the plugin paths and the profiles is untouched, and the candidate is exact unless a type changed |
| FrameTransition.ReviewedPlaces | scripts/prepare_successor_config_transition.py:642-714 | the plugin paths are exchanged position by position and otherwise kept; the last requested plugin's destination stands once and what it replaces is gone; the model plugin's destination is there if and only if the web-search plugin does not replace it; the profiles are the migrated ones, each with its other fields, or as they were when no migration was asked for |
| FrameTransition.ReviewedPaths | scripts/prepare_successor_config_transition.py:654-693 | the array of paths position by position: the model plugin's path exchanged and then that of the web-search plugin; the last destination stands exactly once |
| FrameTransition.ReviewedProfiles | scripts/prepare_successor_config_transition.py:694-714 | the profiles position by position: a timeout of 600 or 900 seconds becomes 1800, everything else is as before |
| FrameTransition.PathsAfterKeeps | scripts/prepare_successor_config_transition.py:664-693 | the array of plugin paths keeps its length, and a position changes only if it held a path that the request replaces |
| FrameTransition.MigrateProfiles | scripts/prepare_successor_config_transition.py:694-714 | accepts exactly the valid inventories; patching leaf by leaf equals writing the migrated array once |
| FrameTransition.MigrationSettles | src/dalton_core/openclaw_broker_limits.py:6-8 | after a migration no retired default is left and a second one records no edit |
| FrameTransition.FrameApplies | scripts/prepare_successor_config_transition.py:626-640 | every reviewed baseline takes the frame edit and ends at the target limit |
| FrameTransition.TypeChangeIsAccepted | scripts/prepare_successor_config_transition.py:715-716 | every accepted candidate with a true flag off the limit has an accepted sibling with the number one there |
| RoutingAlignment.Machine.Align | scripts/align_model_routing.py:228-298 | an environment that cannot be read stays as it is; every other gets the prefix of its plan up to its failure, with the failing save made in any part of its lineages, or all of it; and neither touches another environment |
| RoutingAlignment.Machine.PlanEnvironment | scripts/align_model_routing.py:147-179 | the loops compute the plan; a stage is in it if and only if some lineage that takes part in the stage does not have the selected pin, or nobody takes part in it and there is a lineage |
| RoutingAlignment.AlignedPlansNothing | scripts/align_model_routing.py:180-188 | nothing to publish if and only if every holder of every selection has it |
| RoutingAlignment.TierEntries | scripts/align_model_routing.py:147-163 | an aligned tier in terms of the entries: every lineage that has a chain for the tier has the selected one, and there is one unless the router is empty |
| RoutingAlignment.StageEntries | scripts/align_model_routing.py:163-179 | an aligned stage in terms of the entries: every lineage with a pin for the stage or a chain for its tier has the pin with exactly the selected chain, and there is one unless the router is empty |
| RoutingAlignment.PlanEntries | scripts/align_model_routing.py:147-179 | what is planned: exactly the tiers and stages that some lineage that takes part has otherwise, or in which none takes part although there are lineages; tiers come before stages |
| RoutingAlignment.RunAlignsTier | src/dalton_core/model_routing_sync.py:425-451 | one run aligns a tier if and only if it was aligned or its save covers it |
| RoutingAlignment.RunAlignsStage | src/dalton_core/model_routing_sync.py:454-479 | with the tiers aligned, one run aligns a stage if and only if it was aligned or its save covers it |
| RoutingAlignment.OneSave | src/dalton_core/model_selection.py:627-700 | one save, lineage by lineage: those in reach get the chain or the pin and keep every other entry, but for the stage pins of a tier whose save drops them |
| RoutingAlignment.TwoRunsAlign | scripts/align_model_routing.py:413-435 | two runs align an environment if and only if, before the first of them, every tier is aligned or coverable and every stage is within reach |
| RoutingAlignment.StageFixableAfterRun | src/dalton_core/model_selection.py:627-700 | after one run a stage is aligned or coverable if and only if it was within reach before: beyond its own save every party to it keeps the wanted pin, where a pin is lost only to a tier save that drops pins and a tier save makes its lineages parties |
| RoutingAlignment.RunsConverge | scripts/align_model_routing.py:251-298 | when the writer covers the selections: after any runs cut off anywhere, also between two lineages of one save, one run aligns all tiers, a second everything, and a third publishes nothing |
| RoutingAlignment.WhatIsCovered | src/dalton_core/model_selection.py:627-700 | the condition of that convergence over the entries: each save reaches somebody, beyond it no lineage has another chain for the tier, and whoever takes part in a stage beyond its save has the wanted pin for good |
| RoutingAlignment.ConvergedEntries | scripts/align_model_routing.py:251-298 | after the runs that converge, each lineage that takes part in a selected tier or stage has exactly the selected chain there |
| RoutingAlignment.CutOffKeepsTiers | scripts/align_model_routing.py:261-276 | a run cut off anywhere, also between two lineages of one save, un-aligns no tier |
| RoutingAlignment.OneRunIsNotEnough | src/dalton_core/model_selection.py:627-700 | whether or not a tier save drops pins, there is a covered environment that needs the second run |
| RoutingAlignment.UnfixableStays | scripts/align_model_routing.py:147-163 | a tier that one run cannot align, no later run can |
| PointerSwitch.ReleaseHost.WritePointers | scripts/release_switch.py:386-428 | from every pair of pointers, also with a missing or restored one: between the two writes a gate is active if and only if the old release names the new runtime pointer and agrees with it, which a release of this program never does; each pointer names the digest of the one that it replaced and keeps its unmanaged fields; afterwards exactly the gates bound to this well-formed plan are active |
| PointerSwitch.ActivePointers | src/dalton_core/research_publication_authority.py:53-83 | a gate is active if and only if the two pointers are deployed documents of the bound commit and one manifest, of well-formed values, and the release names the other by its digest |
| PointerSwitch.RefGrammar | src/dalton_core/research_publication_authority.py:9 | the references that a gate takes: a foundation revision with digits and at most one letter, or a release with 64 hexadecimal digits |
| PointerSwitch.ReleaseHost.OpenMeansPaired | src/dalton_core/research_publication_authority.py:53-83 | in every reachable state an active gate reads two pointers of one call, or of the beginning, if and only if it does not read a written runtime pointer under the first release, and always the bound commit |
| PointerSwitch.ReleaseHost.LaterWritesKeepPairs | scripts/release_switch.py:398-428 | when every runtime pointer was written later than the one that the first release names, every active gate of the history reads a pair |
| PointerSwitch.ReleaseHost.ShallowReleaseKeepsPairs | scripts/release_switch.py:396-428 | the same holds, whatever the clock, when the first release names no runtime pointer with more predecessors than the present one has |
| PointerSwitch.ReleaseHost.Switch | scripts/release_switch.py:576-592 | after a cut-off switch the worker's gate is active only if it was before, if the first release foretold the new runtime pointer, or if the worker was bound to the plan already; after a finished one exactly when its values are well-formed |
| PointerSwitch.ReleaseHost.Switches | scripts/release_switch.py:576-592 | after any number of switches, whole or cut off, the worker's gate reads a pair unless it reads a written runtime pointer under the first release; with times past what the first release names it always does |
| PointerSwitch.HistoryIsAcyclic | scripts/release_switch.py:396-407 | along the hash links no runtime pointer repeats |
| PointerSwitch.ForetoldRuntimeOpens | src/dalton_core/research_publication_authority.py:75-82 | the exception is real: from every runtime pointer, also a missing one, there is a release under which the first write of a switch opens a gate |
| StagedStartup.Startup.Restart | scripts/release_switch.py:492-608 | on every path and at every start event: all agents of earlier stages have started, and every writer socket has accepted a connection unless a writer starts; everybody is stopped first, and nothing moves when a writer or the limit is at fault; a restart that ends well has started every agent |
| StagedStartup.StageOfLabel | scripts/release_switch.py:433-454 | which labels fall into which stage, by their ending or by what they contain |
| StagedStartup.WriterInOrder | scripts/release_switch.py:437-444 | a writer is in order if and only if it declares its own label, runs the writer server, and has exactly one socket option with an absolute path, which its row carries |
| StagedStartup.Startup.BootstrapGroup | scripts/release_switch.py:458-475 | the trace is exactly one start each, then a stop and one retry for those that failed, up to the first second failure |
| StagedStartup.GroupTrace | scripts/release_switch.py:458-475 | the trace of a group event by event: one start each, the stops of the failed ones, and their second starts, which succeed but for the last one of a group that raises |
| StagedStartup.FailedInOrder | scripts/release_switch.py:458-475 | the failed ones are exactly the rows whose start was refused, in the order of the rows |
| StagedStartup.Startup.WaitWriterSockets | scripts/release_switch.py:478-489 | ready means that one pass found all sockets, otherwise the deadline has passed and a socket is missing |
| StagedStartup.StartupGroups | scripts/release_switch.py:431-455 | five groups in order, or a refusal exactly when some writer is not in order |
| StagedStartup.GroupsPartition | scripts/release_switch.py:433-454 | the groups together hold every agent as often as the list |
| SecSelection.TargetDirectory.Apply | scripts/install_sec_8k_discovery_selection.py:207-302 | refuses exactly on a conflict; a removed file is one that this run linked or a later one at its target with exactly its bytes, and undisturbed the linked one; undisturbed, success leaves exactly the plan, the receipt with the stored time of approval and the selector, which appear in this order; a failure whose undo comes to its end leaves what was there and the one target whose link was not recorded; every state on the way, also when the undo itself breaks off, keeps the dependencies closed unless the selector is orphaned in the one way |
| SecSelection.WhatIsResumed | scripts/install_sec_8k_discovery_selection.py:207-262 | a run is admitted if and only if a person asks for it and each target is vacant or holds what this run would write, the receipt at any time of approval |
| SecSelection.ResidueMeaning | scripts/install_sec_8k_discovery_selection.py:282-302 | a failed run restores the directory if and only if it did not fail after a link, and keeps the dependencies closed if and only if it does not orphan the selector |
| SecSelection.TargetDirectory.Recover | scripts/install_sec_8k_discovery_selection.py:222-236 | after any runs that failed, broke off their undo or were killed, one undisturbed run completes the installation with the time of approval that was on disk |
| SecSelection.TargetDirectory.Attempts | scripts/install_sec_8k_discovery_selection.py:185-204 | any such runs leave a directory to resume from, keep everything that was there, and keep the dependencies closed unless one orphans the selector |
| SecSelection.TargetDirectory.AtomicCreate | scripts/install_sec_8k_discovery_selection.py:132-151 | creates into a vacant name, accepts identical bytes, refuses anything else |
| SecSelection.TargetDirectory.UndoAll | scripts/install_sec_8k_discovery_selection.py:294-302 | takes back, last first, only what has the bytes that this run linked there, which undisturbed is what it linked; an error leaves exactly the targets not yet reached |
| SecSelection.TargetDirectory.TwinIsRemoved | scripts/install_sec_8k_discovery_selection.py:294-302 | into every vacant target: when an identical file of another actor replaces the linked one, that file is removed though this program did not link it |
| SecSelection.BetweenResumable | scripts/install_sec_8k_discovery_selection.py:185-230 | every state that a run can leave is admissible again and fixes the time of approval |
| SharedBudget.Files.Run | scripts/bind_shared_daily_budget.py:66-162 | adds one revision or, for the caps in force, none: revision 1 without a predecessor, or the next number with the hash of the policy that it replaces; a whole run binds every environment to the path and the hash of the policy on disk if and only if their ledgers are separate; with everything in place it writes nothing |
| SharedBudget.Files.RunsBind | scripts/bind_shared_daily_budget.py:145-162 | after any cut-off runs with any caps, one whole run binds every environment to the policy on disk, and its repetition makes no write; the policies that were ever on disk are numbered on without a gap and each names the one before it by its hash |
| SharedBudget.Files.Repeat | scripts/bind_shared_daily_budget.py:66-162 | over a policy with the same caps and all bindings in place a run, whole or cut off anywhere, writes and changes nothing |
| SharedBudget.Files.WriteBindings | scripts/bind_shared_daily_budget.py:158-162 | leaves the bindings of the rows written so far, and writes only what is not in place |
| SharedBudget.SharedLedgerCannotBeBound | scripts/bind_shared_daily_budget.py:117-141 | all environments are bound at once only if no two share the place of their ledger |
| SharedBudget.WrittenAt | scripts/bind_shared_daily_budget.py:145-162 | which targets a cut-off run has bound and which are as before |
| RouteCompaction.RouterDb.Apply | scripts/compact_model_route_idempotency.py:121-161 | on every path, with others appending in between, the trigger exists again and every row is as others left it or the once-recorded rewriting of an inline copy; a run to the end has passed every row of the beginning, and the count is the number of rewritten rows; undisturbed, exactly the objects that repeat their own decision as a fresh result have become references to it |
| RouteCompaction.RouterDb.ReplayPreserved | src/dalton_core/model_router.py:2684-2711 | every row replays as its original would |
| RouteCompaction.ReplayAnswers | src/dalton_core/model_router.py:2684-2711 | a repeated request gets the stored object as a duplicate, or the decision that a reference names if it is the one of the row and exists, and otherwise an error |
| RouteCompaction.RewriteKeepsReplay | scripts/compact_model_route_idempotency.py:78-84 | a reference answers exactly as the inline copy that it replaces, and is none itself |
| RouteCompaction.RouterDb.CompactBatch | scripts/compact_model_route_idempotency.py:137-158 | one transaction rewrites exactly the copies of its range, or nothing, and restores the trigger |
| RouteCompaction.RouterDb.CopiesAreRewritten | scripts/compact_model_route_idempotency.py:132-160 | every inline copy of the captured range is rewritten and recorded once |
| RouteCompaction.RouterDb.ApplyTwice | scripts/compact_model_route_idempotency.py:121-161 | an undisturbed second run rewrites nothing, and no copy with a positive rowid is left |
| RouteCompaction.PartlyNext | scripts/compact_model_route_idempotency.py:148-152 | an update by key changes exactly the selected row |
| EvidenceBundle.Fence | scripts/collect_review_evidence.py:205-214 | one pass computes the shortest fence of at least four backticks that the text does not contain |
| EvidenceBundle.LongestRunMeans | scripts/collect_review_evidence.py:205-214 | the computed length is that of the longest run: a run of a length exists if and only if it is no longer |
| EvidenceBundle.FenceHolds | scripts/collect_review_evidence.py:217-231 | no line of a text closes the block that its fence opens |
| EvidenceBundle.OpeningLines | scripts/collect_review_evidence.py:227-229 | the lines in which the reader sees an opening fence, written out as section 4.5 of CommonMark 0.31.2 has them: up to three spaces, at least three backticks or tildes, and an info string |
| EvidenceBundle.ClosingLines | scripts/collect_review_evidence.py:227-229 | and those in which it sees a closing one: up to three spaces, at least as many of the same character, and nothing but spaces and tabs |
| EvidenceBundle.RoundTrip | scripts/collect_review_evidence.py:235-280 | a reader of fenced blocks finds exactly the texts of the bundle, in order and whatever they contain, if and only if no line of a header opens a block |
| EvidenceBundle.PayloadHoldsBoth | scripts/collect_review_evidence.py:258-262 | the text of a command begins with its labelled output, if there is any, ends with its labelled error output, if there is any, and holds nothing else |
| EvidenceBundle.BothIsOneText | scripts/collect_review_evidence.py:258-262 | and it is the only text that does |
| EvidenceBundle.DocumentIsFound | scripts/collect_review_evidence.py:235-253 | in a bundle with quiet headers the block at the place of each document shows the text of the file |
| EvidenceBundle.OutputsAreFound | scripts/collect_review_evidence.py:254-280 | and the block at the place of each command shows a text that begins with its output and ends with its error output |
| EvidenceBundle.DocumentIsRecorded | scripts/collect_review_evidence.py:217-253 | the lines before the block of a document give its path, its digest and its size |
| EvidenceBundle.CommandIsRecorded | scripts/collect_review_evidence.py:254-275 | the lines before the block of a command give its name, its arguments, its return code, its digest and its size |
| EvidenceBundle.TitleIsRecorded | scripts/collect_review_evidence.py:235-242 | a bundle begins with its name, schema, manifest digest, time and collection mode |
| EvidenceBundle.ReadBackExactly | scripts/collect_review_evidence.py:217-280 | the same in terms of the entries: of the title block and of each document's and command's header |
| EvidenceBundle.StaysAhead | scripts/collect_review_evidence.py:205-231 | once a block is open that is none of the texts' own, the blocks cannot come out as the texts: a text never shows its own fence, so no block makes up for the one too many |
| EvidenceBundle.PlainBundleReadBack | scripts/collect_review_evidence.py:217-280 | with names, paths and labels of one line each the round trip holds for all texts |
| EvidenceBundle.ExactText | scripts/collect_review_evidence.py:227-228 | for the reader defined here the text comes back character by character, without trailing line feeds, if and only if it has no carriage return |
| EvidenceBundle.OpeningNameBreaks | scripts/collect_review_evidence.py:243-253 | a name, path or label with any line that opens a block breaks the round trip, whatever else the bundle holds |
| EvidenceBundle.RenderBundle | scripts/collect_review_evidence.py:235-280 | the loops render exactly the document of the round trip |
| HealthWindow.Observer.Observe | scripts/observe_successor_health_candidate.py:84-131 | the summary is the verdict on exactly the written samples; for every policy whose samples cover the minimum the window is long enough by the monotonic clock, and when no sleep is shorter on the wall clock, which may run ahead but not back, the samples are apart by the interval and span the minimum |
| HealthWindow.Observer.ObserveAndVerify | scripts/execute_successor_stopped_window_candidate.py:477-488 | with such a wall clock and a deployment that finished before, an observation under a policy whose samples cover the minimum is accepted if and only if it verifies |
| HealthWindow.AcceptedFiles | scripts/observe_successor_health_candidate.py:84-131 | what is accepted, in terms of the raw files: every command succeeded with a report that is well and whose entries are true, the age of the heartbeat is there and not negative, all reports name one controller that started during the deployment, and enough time has passed |
| HealthWindow.ObservationVerifies | scripts/finalize_successor_health_candidate.py:56-110 | an accepted observation verifies if and only if its wall-clock times hold |
| HealthWindow.VerifiedIsAcceptable | scripts/finalize_successor_health_candidate.py:56-110 | whatever verifies satisfies the observer's own conditions |
| HealthWindow.VerifyHealth | scripts/finalize_successor_health_candidate.py:63-110 | the checks and the loop over the raw files decide exactly the stated verification |
| HealthWindow.VerifiedFiles | scripts/finalize_successor_health_candidate.py:56-110 | what verifies, in terms of the summary and the raw files, condition by condition |
| HealthWindow.ShortWindowDisagrees | scripts/observe_successor_health_candidate.py:113-118 | outside the admitted policies the observer can accept what does not verify |

## Left out

* Real file-system details: permission bits, durability of syncs, temporary names of atomic drafts, recycled inode numbers, and writes into existing inodes. Each completed write, link, rename or replace is atomic and durable; only the publication artifacts and the transition receipt can be torn.
* A check of bytes and the replacement or removal that follows it are one step; interference happens between such steps.
* `operation_lock`, the steps inside `_write_exclusive` (its three ends are modelled) and the receipt validators of the broker window: a second run of the same operation is not modelled.
* The service compare-and-swap of transition schemas 0.2 and later (`scripts/prepare_successor_config_transition.py:1929-1931`), which unlinks the held file without an ownership guard; the no-loss claim is that of the broker version only.
* FrameTransition.Review: the reading of packets, plugin trees, host-patch metadata and the plugin's own schema are answers in the request.
* PointerSwitch.ReleaseHost.Switch: the plists, manager and workspace manifests that a switch also rewrites, the pointer paths in the worker's binding, and the workspace form of the gate are not modelled.
* StagedStartup.Startup.Restart: the wait times between stop and start, resumed publications and the health checks after the restart are not modelled.
* RoutingAlignment.Machine.Align: how the source environment agrees with itself, immutable policy versions and the validation of chains by the writer are not modelled; the lineages that a save reaches are a parameter, and one lineage is saved at once or not at all.
* SharedBudget.Files.Run: validation of caps and actors, the ledgers themselves and a concurrent second operator are not modelled.
* RouteCompaction.RouterDb.Apply: SQLite itself, `survey`, the checks before a vacuum and rows with a rowid below one, which the batches do not visit, are not modelled.
* EvidenceBundle.RoundTrip: the reader knows fenced code blocks at the top level only, not the other block structures of Markdown; collection of the evidence and the atomic write of the bundle are left out.
* EvidenceBundle.ExactText: the reader keeps U+0000, which a reader after section 2.3 of CommonMark 0.31.2 shows as the replacement character; for that one a text with U+0000 is not exact either.
* HealthWindow.Observer.Observe: times are whole microseconds; the observer's other summary fields and the finalizer's later steps are left out.
* `scripts/migrate_state_dir.py`, Cockpit checks, previews, report rendering and command lines.
