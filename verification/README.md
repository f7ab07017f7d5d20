# Crash-safe administration of an installation's retained evidence and keys

This project models the administrative state machines of the installer and
proves what they promise about whole runs. A run is an administrator's command
that may die between any two of its steps and be asked for again; the properties
are about every such history, not about one call.

## How it is modelled

- A directory is a map from names to contents. Files are created, renamed and
  removed atomically; a write that dies leaves a beginning of its payload. Each
  object that takes steps (`Disk`, `Workspace`, `ChainFolder`, `PlanFile`,
  `JournalFile`) carries `stop`, the number of steps its process still lives;
  `None` is a process that does not die. Where several such objects work
  together, a run dies with the first that reaches zero.
- An outcome is `Done`, `Refused` (the code raised and left the rest to an
  administrator) or `Stopped` (the process died).
- A digest is a function that may collide. Where a property rests on two digests
  being different, the collision is named: checkpoints and their chain speak of the
  two texts that would collide (`Collide`), the evidence ledger of events that do
  not (`Apart`), the reference groups of candidates that do not (`Told`). Only the
  retention journal carries the value itself in place of its digest.
- A canonical text reads back as its document, and cut short it reads as none. This
  is asked only of documents whose strings are UTF-8 (`Storable`), as those of every
  admitted plan and checkpoint are.
- A private key is 32 bytes. The random source gives finitely many keys that differ
  (`Supply`); a history states how many it may need, one for each kind and run.
  A registry names a public half of 32 bytes.
- Every object of a staged tree has a number from its birth; the platform identity
  that a checkpoint records is an arbitrary function of that number.
- A journal decoder reads a record the same with CR or CR LF at its end (`IgnoresEnds`):
  white space around a JSON document means nothing.
- What is assumed of keys, registries, texts, ledgers and decoders is met by a concrete
  case: `KeyInstances`, `HoldTextInstances`, `CodecInstances`, `PreparationInstance`,
  `EvidenceInstances`, `JsonlInstances`.
- Exclusion locks mean there is one actor at a time.
- The `Across…` methods and `Administer`, `Unfold` are histories: a command
  repeated after every death, or any mix of commands.

## The files

| file | subject |
|---|---|
| `DurableFiles.dfy`, `PrivateKeys.dfy` | the private writer and the staging of private keys |
| `OwnershipProvisioning.dfy`, `OwnershipReachability.dfy` | the ownership authorities, for any number of kinds, and exactly which directories their runs leave |
| `RetentionProvisioning.dfy`, `KeyRotation.dfy` | the retention key: its first pair and its replacement |
| `KeyInstances.dfy` | keys, a registry text and an installed pair that meet all that is assumed of them |
| `ReferenceGroups.dfy`, `RetentionMaintenance.dfy`, `LegalHolds.dfy`, `Maintenance.dfy`, `MaintenanceRuns.dfy` | retention maintenance: reference groups, journal, holds, one session, whole histories |
| `HoldTextInstances.dfy` | texts of barrier and holds that meet all that is assumed of them |
| `MaterialPlan.dfy`, `Staging.dfy` | the frozen plan of a transition and its expansion |
| `ProvisioningCodecs.dfy`, `CheckpointCodec.dfy`, `CheckpointChain.dfy`, `Preparation.dfy` | plan and checkpoint texts, the checkpoint chain, and the preparation of a verified set |
| `CodecInstances.dfy`, `PreparationInstance.dfy` | a canonical text and a preparation that meet all that is assumed of them |
| `EvidenceEvents.dfy`, `EvidenceMeaning.dfy`, `EvidenceAcceptance.dfy`, `EvidenceLedger.dfy`, `EvidenceExport.dfy`, `Qualification.dfy` | the certification evidence ledger, what it accepts, its export, and the qualification derived from it |
| `EvidenceLimits.dfy`, `EvidenceInstances.dfy` | where the ledger's budgets give out, each with a concrete ledger |
| `JsonlLines.dfy`, `JsonlGroups.dfy`, `JsonlMerging.dfy`, `JsonlSequences.dfy` | the lines of a journal file, the groups that go, what a file reads as when lines merge, and deletions one after another |
| `JsonlCompaction.dfy`, `JsonlReadings.dfy`, `JsonlInstances.dfy` | compaction step by step, what the runtime reads from the file, and a decoder with files that show where it goes wrong |

## Where the code promises less than one might expect

- **Rotation with a full history.** The archive reader admits 1024 keys, and only
  after both keys of a rotation have been saved. With no room for them the
  rotation opens, saves them, and is refused from then on. `Rotate` succeeds
  exactly when the history with both keys has at most 1024 entries, which can be
  counted before the call. `RotateUntilRefused` is the run that gets there:
  rotation after rotation until the history is full, then refusals for good.
- **A run can lose its name.** A `begin` that dies between creating its journal file
  and committing its intents leaves a file that no later `begin` of that run accepts.
  Nothing was touched, and another run id is free to begin. It happens if and only if
  the first process that lives for a step lives for exactly one (`Strands`): then
  `BeginThroughStops` and `MaintainAcrossStops` end there, and otherwise they succeed.
- **A finished rotation asked for again is refused.** A death right after the
  transaction folder is removed leaves the new pair, complete. The next run with the
  old key id is refused because the key has changed; nothing else is touched.
- **An open rotation asked for under another id.** Once the previous registry is on record
  it is refused, untouched. Before that only the folder is there: if it is otherwise empty
  and a readable history holds the other id, the folder is removed and the answer is
  success, as after a cleanup that died, with the installed key unchanged
  (`RotatedAway`); otherwise it is refused, untouched.
- **A commit can lose the ledger.** The event rows have a budget that only the
  reader checks. `Operate` returns `Lost` exactly when the rows with the new event
  exceed 64 MiB. `CommitCanLoseLedger` is such a run: 65 censuses of 14 000 stored
  documents each, of about 1 MB each, as the length of a digest implies.
- **A full ledger with a pending cycle cannot be opened.** Opening closes a pending
  cycle with one more event, which the limit of 10 000 refuses. `Open` states
  exactly when a ledger opens; `FullLedgerCannotOpen` is one that does not.
- **An export may not fit.** Event bodies travel as artifacts, so the replay of an
  export succeeds exactly when artifacts and event bodies together fit the
  artifact budget (`ExportReplaysIdentically`). `ExportMayNotFit` is a ledger whose
  artifacts fill that budget to the byte.
- **CR in a journal file.** Lines also end at CR. Removing a line between one that
  ends in CR and one that is only LF merges the two (`ReturnsCanMerge`), and a
  file left ending in CR no longer reads. `SurvivorsExactly` states exactly when
  the survivors survive; without CR they always do.
  - A permitted deletion of a feedback turn can bring an older turn back into the 200
    lines the runtime reads (`DeletionCanReachBack`). `WindowExactly` states exactly
    when: the last line kept before those lines swallows the first of them;
    `WindowsExactly` does so for any sequence of deletions. Without CR it never happens.
  - The order of deletions can matter (`OrderCanMatter`). It does not if and only if
    each group still has its recorded version at its turn (`FilesExactly`), which is
    what a deletion checks; so a plan that is done leaves the same file in any order.
  - The status of a skill survives every permitted deletion of import records, with CR
    or without.
- **Closing a defect does not reset the successes**, so a counted cycle may have run
  while a finding was open; a qualification needs all findings settled at the end.

## Model

| member | source | states |
|---|---|---|
| DurableFiles.Disk.WriteExclusive | install/birth_ownership_authority_provisioner.py:282-390 | refused exactly when the final name is taken or the temporary is neither the payload nor shorter; otherwise the final file is the payload, and a death leaves a beginning of it |
| PrivateKeys.LoadOrCreatePrivate | install/birth_ownership_authority_provisioner.py:480-520 | a key whole under either name is the key; only without one is a key drawn; what a death leaves holds a beginning of that key |
| OwnershipProvisioning.Provisioner.CheckpointPrefix | install/birth_ownership_authority_provisioner.py:421-477 | returns the only checkpoint that classifies the inventory, and refuses exactly when none does |
| OwnershipProvisioning.Provisioner.ValidateCompletedPairs | install/birth_ownership_authority_provisioner.py:560-588 | accepts exactly completed pairs whose registries bind their keys and whose public keys differ |
| OwnershipProvisioning.Provisioner.LoadOrCreatePair | install/birth_ownership_authority_provisioner.py:523-557 | brings one kind's key and registry about, keeping every staged key, from any interrupted state |
| OwnershipProvisioning.Provisioner.Provision | install/birth_ownership_authority_provisioner.py:591-678 | from every state a stopped run leaves, with keys still to draw, it is never refused, keeps every staged key, and if it lives publishes the complete directory; whatever it started from, success means a complete directory; an unaccepted inventory, a damaged published directory, and a published one beside a pending one are refused untouched |
| OwnershipProvisioning.Provisioner.ProvisionAcrossStops | install/birth_ownership_authority_provisioner.py:591-678 | through any number of deaths the directory is published and each kind's key is the one first staged whole |
| OwnershipProvisioning.WriterDone | install/birth_ownership_authority_provisioner.py:631-660 | publishing the next file takes an interrupted directory to an interrupted directory, one checkpoint further when it was one |
| OwnershipProvisioning.VerifiedIsComplete | install/birth_ownership_authority_provisioner.py:596-612 | a verified directory holds every pair, with distinct unforbidden keys, and nothing else |
| OwnershipProvisioning.CompleteExactly | install/birth_ownership_authority_provisioner.py:596-612 | a directory is complete exactly when every kind has a whole key and the registry of that key, no two keys are one and none is forbidden, every checkpoint has its text, and nothing else is there |
| OwnershipReachability.ReachableIsInterrupted | install/birth_ownership_authority_provisioner.py:591-678 | a directory is reached by some run of atomic steps, none drawing a key twice, if and only if it has the interrupted shape and no key is staged for two kinds |
| OwnershipReachability.AcceptsExactlyReached | install/birth_ownership_authority_provisioner.py:421-588 | the inventory check, the pair check and the writer of the file under way accept a directory if and only if some stopped run leaves it, but for what a torn temporary holds |
| OwnershipReachability.ShapeIsReached | install/birth_ownership_authority_provisioner.py:621-660 | every interrupted shape without a key staged twice is where some run of the writer's steps stops |
| RetentionProvisioning.Installer.CompletePending | install/birth_retention_authority_provisioner.py:94-113 | a pending directory is finished exactly when its inventory, staged key and registry are completable; a staged key is kept |
| RetentionProvisioning.Installer.Provision | install/birth_retention_authority_provisioner.py:78-121 | succeeds from the completable directories while a key is staged or can be drawn, and from no others; a death leaves one; the published pair verifies and is one a rotation can start from |
| RetentionProvisioning.Installer.ProvisionAcrossStops | install/birth_retention_authority_provisioner.py:78-121 | from nothing, through any deaths, to an installed pair whose key is the one first whole on disk |
| KeyRotation.IdleVerifies | install/birth_retention_authority_provisioner.py:34-60 | a matching pair outside a rotation passes the whole-directory check |
| KeyRotation.VerifiedExactly | install/birth_retention_authority_provisioner.py:34-60 | the whole-directory check passes exactly over a whole unforbidden key and its registry, with nothing else but a history of at most 1024 readable unforbidden keys |
| KeyRotation.WriterDone | install/birth_retention_authority_provisioner.py:204-256 | each file of the rotation takes a state a stopped rotation can leave to another such state |
| KeyRotation.WriterStops | install/birth_retention_authority_provisioner.py:204-256 | so does a death in the middle of writing it |
| KeyRotation.StopIsSafe | install/birth_retention_authority_provisioner.py:237-270 | at every stop the installed pair is (old, old), (new, old) or (new, new), and both public keys are archived before either file is replaced |
| KeyRotation.PrivateReplaced | install/birth_retention_authority_provisioner.py:244-256 | replacing the private key keeps the order of the effects |
| KeyRotation.RegistryReplaced | install/birth_retention_authority_provisioner.py:244-256 | replacing the registry comes after the private key and completes the pair |
| KeyRotation.CleanedIsIdle | install/birth_retention_authority_provisioner.py:188-201 | an emptied transaction over the new pair is a finished rotation |
| KeyRotation.Rotator.CleanedBeginsAgain | install/birth_retention_authority_provisioner.py:173-201 | a complete rotation whose folder is still there is also a rotation just opened from the new key |
| KeyRotation.Rotator.RotateUntilRefused | runtime/executor_birth_retention_authority.py:93-107 | uninterrupted rotations succeed exactly as often as the history has room, and every later request is refused over the pair then installed, which no longer verifies |
| KeyRotation.Rotator.Mark | install/birth_retention_authority_provisioner.py:166-171 | opens the transaction exactly over a verified active pair of the expected id, and refuses anything else untouched |
| KeyRotation.Rotator.Recognise | install/birth_retention_authority_provisioner.py:173-204 | recognises a transaction under way, or one that died in its last cleanup, which it finishes |
| KeyRotation.Rotator.Open | install/birth_retention_authority_provisioner.py:164-204 | after it the rotation of the expected id is under way with its previous registry on record, or was finished by a cleanup that died; under another id no file changes, and it is refused unless the folder is empty over a history that holds that id |
| KeyRotation.Rotator.StageSuccessor | install/birth_retention_authority_provisioner.py:205-229 | the successor is the staged key, or the installed one, or one drawn now; a key fully staged never changes; refused untouched when the registry on record is not the active one of the expected id |
| KeyRotation.Rotator.ArchiveBoth | install/birth_retention_authority_provisioner.py:237-241 | both public keys are in a readable history, or it is refused because the history is too long |
| KeyRotation.RotationPassesThrough | install/birth_retention_authority_provisioner.py:230-236 | in every state of a rotation the installed files are a pair it passes through, and the new pair once the registry is new: neither the check of the pair nor the readback before cleanup ever refuses one |
| KeyRotation.Rotator.InstallSuccessor | install/birth_retention_authority_provisioner.py:230-272 | over a known successor: refused, with the installed pair untouched, exactly for want of room in the history; otherwise the new pair, or a state to resume from, a death after the last step included |
| KeyRotation.Rotator.Rotate | install/birth_retention_authority_provisioner.py:153-272 | from every state of the same rotation a surviving run reaches the new pair with both keys in history, exactly when the history has room; a rotation asked for again after it finished is refused untouched; an open one asked for under another id leaves every file alone and is refused, but for an empty folder over a history that holds that id, which is removed; whatever it started from, success means a directory that verifies with another key than the one named, and an open one with a foreign file is refused untouched |
| KeyRotation.Rotator.RotateAcrossStops | install/birth_retention_authority_provisioner.py:153-272 | with room, any number of deaths, also after the last step, ends in one new pair; every stop on the way shows (old, old), (new, old) or (new, new) of that same pair |
| ReferenceGroups.IndependentGroups | install/birth_retention_maintenance.py:148-176 | the groups are exactly the connected components of the references among the candidates, each candidate in one group, once; when no two candidates collide, computing them again gives the same groups in the same order |
| ReferenceGroups.Neighbours | install/birth_retention_maintenance.py:156-162 | the neighbour sets are exactly the undirected edges between candidates |
| ReferenceGroups.Collect | install/birth_retention_maintenance.py:163-176 | the search from an unseen candidate collects exactly its component, once each, and ends |
| ReferenceGroups.NoEdgeCrossesGroups | install/birth_retention_maintenance.py:148-155 | no reference joins two groups |
| ReferenceGroups.ClosedIsComponent | install/birth_retention_maintenance.py:163-176 | a set closed under references and reached from one object is that object's component |
| RetentionJournal.ManifestIsPlanned | install/birth_retention_maintenance.py:388-400 | the manifest of the groups names every candidate once, in contiguous groups, adjacent candidates in one group |
| RetentionJournal.ReconciledIsSound | install/birth_retention_maintenance.py:499-513 | a run reconciled at a group boundary leaves no reference between a candidate that is gone and one that is there |
| RetentionJournal.GroupsGrow | install/birth_retention_maintenance.py:328-338 | contiguous group ids never decrease along the journal |
| RetentionJournal.OneManifest | install/birth_retention_maintenance.py:316-367 | journals that verify behind one barrier hold one manifest under the same holds, each row with a receipt of its own object for that run, and nothing pending once complete |
| LegalHolds.HoldRegister.Update | install/birth_retention_maintenance.py:203-255 | the exact refusals of the compare-and-swap, a stale expectation and a raised barrier among them; otherwise the register becomes the new set, and at a death it is the old set or the new one, the change half done |
| LegalHolds.HoldRegister.UpdateAcrossStops | install/birth_retention_maintenance.py:203-255 | asked for again after every death the change completes, and every state between shows the old set or the new one |
| LegalHolds.RetryIsAccepted | install/birth_retention_maintenance.py:228-243 | an interrupted change asked for again is not refused |
| LegalHolds.Owners.Delete | install/birth_retention_maintenance.py:93-98 | the version is rechecked, absence is idempotent, nothing else changes |
| RetentionSession.Maintenance.BuildManifest | install/birth_retention_maintenance.py:388-400 | one signed intent for each grouped object, exactly when every one is in a known store at its inventoried version |
| RetentionSession.RefusedExactly | install/birth_retention_maintenance.py:376-387 | the candidates are refused exactly when one is open, rooted, held or not yet due, or when two are the same object |
| RetentionSession.Maintenance.OpenJournal | install/birth_retention_maintenance.py:407-440 | the journal of the run holds exactly the planned intents, none acted on, or the run is refused; a run without a journal gets none, a bare one or the whole one as the process has no step left, one, or more |
| RetentionSession.Maintenance.Begin | install/birth_retention_maintenance.py:369-444 | raises the barrier only over a committed journal of unheld, eligible, observed candidates; nothing physical happens; refused untouched while a change of holds is half done; a run nothing stands in the way of is not refused, nor is one asked for again after a death, unless its journal was created and its intents were not committed |
| RetentionSession.Maintenance.DeleteRow | install/birth_retention_maintenance.py:467-484 | one effect extends the deleted prefix by one, or leaves the next row gone but unmarked |
| RetentionSession.Maintenance.Sweep | install/birth_retention_maintenance.py:461-484 | whole groups in order within the budget; it stops only at the end, when time is up, or before a group larger than what is left of the budget, however much it deleted |
| RetentionSession.Maintenance.Resume | install/birth_retention_maintenance.py:446-489 | completed, remaining and previously deleted rows add up, at most the budget is completed, only unheld candidates go, the deleted rows stay a prefix; a surviving session stops only with nothing left, out of time, or before a group larger than what is left of its budget |
| RetentionSession.Maintenance.Recover | install/birth_retention_maintenance.py:316-367 | reads the barrier and the journal behind it; whatever the files say, it accepts exactly a barrier whose journal verifies and whose rows all agree with known stores; what the runs leave is refused only without a barrier or for an unknown store |
| RetentionSession.Maintenance.ReadOutcomes | install/birth_retention_maintenance.py:498-510 | gives every row the outcome its store shows, exactly when nothing pending must stay and no group is partly gone |
| RetentionSession.Maintenance.Settle | install/birth_retention_maintenance.py:491-513 | its exact refusals; otherwise the outcomes of all rows are committed at a group boundary, and no reference dangles |
| RetentionSession.Maintenance.Finish | install/birth_retention_maintenance.py:491-530 | its exact refusals; when it succeeds the barrier is down, the counts are those of the stores, and no reference dangles |
| RetentionSession.ResolvedIsReconciled | install/birth_retention_maintenance.py:498-513 | outcomes read from the stores with all-or-none groups end at a group boundary |
| RetentionSession.GroupsDecide | install/birth_retention_maintenance.py:499-509 | the presence sets of the groups decide the all-or-none check |
| RetentionSession.Advance | install/birth_retention_maintenance.py:467-484 | the first unmarked object goes, then its row is marked, and the prefix shape is kept at both points |
| RetentionSession.ActiveVerifies | install/birth_retention_maintenance.py:316-367 | the journal behind a barrier passes every reader's check, and every row agrees with its store |
| RetentionRuns.AbsentIsPrefix | install/birth_retention_maintenance.py:446-489 | with d rows marked deleted the absent rows are a prefix of length d or d+1 |
| RetentionRuns.AtMostOnePartial | install/birth_retention_maintenance.py:446-489 | at most one reference group of an active run is partly gone |
| RetentionRuns.Execute | install/birth_retention_maintenance.py:203-530 | one command, dying anywhere, deletes nothing held and nothing but candidates of the run behind the barrier; what it answers is true of the state it leaves, and it is refused only for its own exact reasons |
| RetentionRuns.Administer | install/birth_retention_maintenance.py:203-530 | so does every step of any history of begin, resume, finish and hold changes; whenever the barrier comes down no reference dangles; and each command is answered as its state demands (`Obeys`) |
| RetentionRuns.HeldSurvives | install/birth_retention_maintenance.py:316-326 | an object held throughout a history outlives it unchanged |
| RetentionRuns.BeginThroughStops | install/birth_retention_maintenance.py:369-444 | a run asked for again after every death gets its barrier up over untouched candidates, unless and only unless the first process that lived for a step lived for one: then it is stranded between journal and intents |
| RetentionRuns.DrainRun | install/birth_retention_maintenance.py:446-489 | sessions one after another, each with a budget that covers the largest group and time for one group, delete every candidate of the run |
| RetentionRuns.MaintainAcrossStops | install/birth_retention_maintenance.py:369-530 | a run asked for and resumed through any deaths ends with every candidate gone, nothing else touched, the barrier down; or, exactly when a death stranded its beginning, with nothing touched at all |
| MaterialPlan.ParentComesFirst | install/birth_authority_provisioner.py:234-254 | byte order and listed parents put every directory before what it holds |
| MaterialPlan.PrefixBelow | install/birth_authority_provisioner.py:169-171 | a proper beginning of a path sorts before it |
| MaterialPlan.BelowIsTotal | install/birth_authority_provisioner.py:235-243 | byte order is total and strict |
| Staging.Workspace.EnsureFile | install/birth_authority_provisioner.py:1560-1606 | its exact refusals; otherwise the file has the payload and no pending remains; a death leaves a beginning under the pending name |
| Staging.Workspace.EnsureDirectory | install/birth_authority_provisioner.py:1552-1557 | the directory exists and what was there stays |
| Staging.Workspace.CheckInventory | install/birth_authority_provisioner.py:1609-1628 | every planned directory holds exactly its planned children |
| Staging.NothingElse | install/birth_authority_provisioner.py:1609-1628 | nothing in the tree escapes the inventory check |
| Staging.Workspace.Materialise | install/birth_authority_provisioner.py:1505-1549 | succeeds on exactly the trees of finished objects and torn pendings, and then the tree is the plan; a second run changes nothing; no object under its final name is ever altered or replaced by another, so the identities noted while expanding are those of the final objects |
| Staging.Workspace.MaterialiseAcrossStops | install/birth_authority_provisioner.py:1505-1549 | through any deaths the tree ends equal to the plan, and what had its final name is the same object still |
| Staging.InterruptedConverges | install/birth_authority_provisioner.py:1505-1549 | a plan-order prefix with at most one torn pending is such a tree |
| Staging.PendingsDiffer | install/birth_authority_provisioner.py:1517-1535 | no two files of a plan share a pending name |
| CanonicalDocuments.HexRoundTrip | install/birth_authority_provisioner.py:181-212 | payload bytes survive their hexadecimal form |
| PlanCodec.EntryRoundTrip | install/birth_authority_provisioner.py:173-231 | an entry survives its document |
| PlanCodec.PlanTextIsExact | install/birth_authority_provisioner.py:256-301 | a text decodes to a plan if and only if the plan is admitted and that is its text within 1 MiB |
| PlanCodec.TornPlanIsNoPlan | install/birth_authority_provisioner.py:280-301 | no text cut short decodes to a plan |
| CheckpointCodec.RecordRoundTrip | install/birth_authority_provisioner.py:394-491 | an inventory record survives its document |
| CheckpointCodec.CheckpointTextIsExact | install/birth_authority_provisioner.py:776-879 | a text decodes to a checkpoint if and only if the checkpoint is admitted and that is its text within 1 MiB |
| CheckpointCodec.DecodedIsWhole | install/birth_authority_provisioner.py:776-879 | whatever a text decodes to has a place within bounds, a predecessor exactly when it is not the first, and one record a path |
| CheckpointCodec.SuppliedOrderDoesNotMatter | install/birth_authority_provisioner.py:494-511 | the order in which an inventory was supplied reaches neither the checkpoint nor its text |
| CheckpointCodec.ShuffledIsRefused | install/birth_authority_provisioner.py:871-878 | a text that reads as a document whose inventory is out of order decodes to nothing |
| CheckpointCodec.OneDigestOneCheckpoint | install/birth_authority_provisioner.py:793-810 | two checkpoints with one digest are one checkpoint, or the two digested texts are a collision |
| CheckpointCodec.OneOrder | install/birth_authority_provisioner.py:494-511 | there is one way to put a set of records in order |
| CheckpointChain.ChainFolder.ReadChain | install/birth_authority_provisioner.py:1429-1475 | reads the one contiguous, linked, monotone chain, and refuses exactly the directories that hold none |
| CheckpointChain.OneChain | install/birth_authority_provisioner.py:1429-1475 | a directory holds one chain |
| CheckpointChain.StepsArePlaced | install/birth_authority_provisioner.py:1452-1472 | each step of a chain names its transaction, its place, and the digest of the step before it |
| CheckpointChain.ChainFolder.Append | install/birth_authority_provisioner.py:1066-1077 | extends the chain by one step, or dies leaving the chain with at most a beginning of that step pending |
| CheckpointChain.ChainFolder.Recover | install/birth_authority_provisioner.py:1304-1348 | promotes the pending step exactly when it is whole and follows, removes it otherwise, and alters no committed checkpoint |
| CheckpointChain.TornOrWhole | install/birth_authority_provisioner.py:1320-1348 | recovery finishes an interrupted step when its file was whole and undoes it otherwise |
| CheckpointChain.ChainFolder.Unfold | install/birth_authority_provisioner.py:1200-1475 | in any interleaving of appends, deaths and recoveries each event extends the readable chain by at most one step and alters nothing committed; a step is taken exactly when nothing is pending and it follows and fits, and a recovery is never refused |
| CheckpointChain.HistoryOnlyAppends | install/birth_authority_provisioner.py:1200-1475 | an earlier chain stays a beginning of every later one |
| CheckpointChain.StatesOnlyAdvance | install/birth_authority_provisioner.py:1466-1472 | states along a chain never go back |
| CheckpointChain.ReviewComesBeforeInstall | install/birth_authority_provisioner.py:109-130 | after a verified step nothing is staged any more, and the author, the set and the marker are installed only after it, in that order |
| Preparation.PlanFile.Ensure | install/birth_authority_provisioner.py:1079-1128 | a plan with its final name is returned unchanged and nothing is asked for; a whole pending becomes the plan; only otherwise is the offer taken; a plan of another transaction or header is never returned |
| Preparation.TornPlanIsOffer | install/birth_authority_provisioner.py:1101-1120 | what is found whole under the pending name is a plan that was offered, never a fragment |
| Preparation.MeasuredDescribes | install/birth_authority_provisioner.py:1531-1548 | what a preparation measures is, entry by entry, what is on disk, in the one order of an inventory |
| Preparation.Preparer.Prepare | install/birth_authority_provisioner.py:1893-1935 | a successful preparation leaves the staged tree as the one plan, and behind the opening step, or one that collides with it, a verified step that describes that tree: one record for each entry, with its path, confidentiality, size, digest of the payload and identity of that very object, and the digests of the review; once the plan stands that step is the same in every later run; from an interrupted preparation it is never refused and leaves exactly the opening and the verified step |
| Preparation.Preparer.PrepareAcrossStops | install/birth_authority_provisioner.py:1893-1935 | through any deaths, with a new offer each time, the plan that first got its final name is the plan of every later run, and the chain ends in the verified step that describes the objects that stand for it |
| Preparation.VerifiedIsFinished | install/birth_authority_provisioner.py:1926-1929 | a chain of two that ends in the candidate began with the opening step, unless another text has its digest |
| EvidenceEvents.OneHeadOneChronology | install/birth_certification_evidence.py:142-154 | two readable ledgers with one head have one list of events, when no two different events of theirs collide |
| EvidenceEvents.ReplayInLarger | install/birth_certification_evidence.py:164-181 | artifacts stored later do not change what the chronology meant |
| EvidenceLedger.Evidence.ResultsPass | install/birth_certification_evidence.py:296-333 | accepts exactly results that cover the frozen cases once, on turns used nowhere else, with evidence behind every pass; and says whether all passed |
| EvidenceLedger.Evidence.Advance | install/birth_certification_evidence.py:183-294 | takes an event exactly when the state admits it, to exactly the state it implies |
| EvidenceAcceptance.AcceptsExactly | install/birth_certification_evidence.py:183-294 | a ledger with one more event replays if and only if the act is admitted by the chronology and the stored documents alone: a closure, for one, when no cycle is under way, it names the latest unsettled report of its finding, and its three documents are stored |
| EvidenceAcceptance.FinishExactly | install/birth_certification_evidence.py:296-333 | results are accepted exactly when they cover the cases of the profile in force once each, on turns that no event of the chronology used, with evidence behind every pass |
| EvidenceLedger.GrantedExactly | install/birth_certification_evidence.py:128-140 | the limits that the ledger checks, and the admission of the act, read off its tables |
| EvidenceLedger.Evidence.Rebuild | install/birth_certification_evidence.py:142-154 | the cold reader succeeds exactly on tables within budget whose events replay, and the state is their replay |
| EvidenceLedger.Evidence.Operate | install/birth_certification_evidence.py:128-138 | an operation is refused exactly when its artifacts or the event do not fit, or the chronology and the documents do not admit the act; after every operation, refused or accepted, the state is the replay of the committed events; a commit that cannot be read back is exactly one over the event budget |
| EvidenceLedger.Evidence.Open | install/birth_certification_evidence.py:456-485 | opens exactly the readable ledgers that have room to close a pending cycle |
| EvidenceLimits.CommitCanLoseLedger | install/birth_certification_evidence.py:335-349 | a readable ledger of 64 events and an accepted census of stored documents whose commit leaves the ledger unreadable |
| EvidenceLimits.FullLedgerOpensExactly | install/birth_certification_evidence.py:456-485 | a full ledger can be opened if and only if its last event starts no cycle |
| EvidenceLimits.FullLedgerCannotOpen | install/birth_certification_evidence.py:456-485 | a readable ledger of 10 000 small events that no session can open |
| EvidenceMeaning.SuccessesMean | install/birth_certification_evidence.py:198-294 | the successes are the last two at most of the cycles that passed since the latest reset |
| EvidenceMeaning.SuccessesAreWitnessed | install/birth_certification_evidence.py:283-294 | every success is a whole passing cycle started under the current profile and covering its cases |
| EvidenceMeaning.TwoWholeCycles | install/birth_certification_evidence.py:296-333 | two successes are two different cycles, the earlier first, both of the profile in force, each passing every case that profile froze, at least one, with every declared probe, on turns, at least one, that no other event used |
| EvidenceMeaning.NoTurnTwice | install/birth_certification_evidence.py:306-332 | no turn is consumed twice in the whole chronology |
| EvidenceMeaning.StartsCloseOnce | install/birth_certification_evidence.py:283-294 | no cycle is closed twice |
| EvidenceMeaning.ProfileMeans | install/birth_certification_evidence.py:198-258 | profile, bindings and cases are those of the profile in force, and none when a new scope ended it |
| EvidenceMeaning.ImportMeans | install/birth_certification_evidence.py:198-286 | the ledger holds an import exactly while the latest one stands: no finding, scope, profile or own cycle since |
| EvidenceMeaning.OpenFindingsMean | install/birth_certification_evidence.py:198-233 | a finding is open if and only if some report of it was never settled, and the stored digest is that of its latest report |
| EvidenceMeaning.ClosureNamesLatest | install/birth_certification_evidence.py:227-233 | an accepted closure names the latest open report |
| EvidenceExport.ReplayExport | install/birth_certification_reuse.py:143-156 | a fresh store replays exactly the exports that fit, to the replay of their events |
| EvidenceExport.ExportReplaysIdentically | install/birth_certification_reuse.py:211-227 | an exported ledger replays to the identical state, exactly when artifacts and event bodies fit the budget |
| EvidenceLimits.ExportMayNotFit | install/birth_certification_reuse.py:211-227 | a readable ledger whose export does not open, because its event bodies are artifacts too many |
| EvidenceExport.AuditOrderAgrees | install/birth_certification_reuse.py:159-208 | the finished cycles among the successes, in chronology order, are the successes in order |
| EvidenceExport.AuditCycles | install/birth_certification_reuse.py:143-208 | an export is accepted, with the successes as its cycles, if and only if it opens and its chronology has a profile in force, two cycles passed since the latest reset, none under way and no unsettled report: the check of the cycles' order never refuses one |
| EvidenceExport.CheckImportHistory | install/birth_certification_reuse.py:387-405 | an import may repeat an earlier one only if no finding was reported since the latest, the destination is unchanged and it continued nothing; cycles never imported before are always allowed |
| EvidenceExport.InvalidatedStaysOut | install/birth_certification_reuse.py:387-405 | in any history whose fresh imports were checked and whose continuations repeat the import that stands, cycles imported before a reported finding never come in again |
| EvidenceExport.ContinuationStays | install/birth_certification_reuse.py:387-474 | in such a history, cycles once continued only come in as continuations |
| Qualification.ScopeNamesTheGaps | install/birth_certification_qualification.py:74-85 | two histories share a scope if and only if they have the same gaps, however listed, when their two sorted lists do not collide |
| Qualification.LocalQualificationMeans | install/birth_certification_qualification.py:88-162 | a qualification derived from the own ledger means two distinct whole cycles on disjoint nonempty sets of turns covering every case of the profile in force, which is bound to the required head; no import, no unsettled finding, the declared gaps, and five different admissions; it records that head, the last event, the scope, exactly those admissions and the producers |
| Qualification.ImportedQualificationMeans | install/birth_certification_qualification.py:88-162 | a qualification derived from imported cycles means the import stands with its whole export stored, nothing has ended it since, its two cycles differ, no finding is unsettled, and the history suffices; it records the same facts, and the evidence offered |
| Qualification.DerivedRecords | install/birth_certification_qualification.py:135-163 | every derived qualification records the required head, the last event and the scope of the chronology, exactly the admissions of the history, its producers, and the operational evidence offered |
| Qualification.QualifiesExactly | install/birth_certification_qualification.py:88-162 | a qualification is derived if and only if the chronology has no unsettled report and no cycle under way, the history suffices, and either no import stands and two own cycles passed since the latest reset under a profile bound to the head, or the standing import is the one whose two cycles are offered |
| JsonlLines.SplitsBack | install/birth_retention_jsonl.py:143-148 | lines joined and split again are the same lines if and only if none of them ends in CR before a line that starts with LF |
| JsonlLines.Decode | install/birth_retention_jsonl.py:143-165 | the strict reading of a journal file |
| JsonlGroups.SurvivorsExactly | install/birth_retention_jsonl.py:213-226 | the file left by a deletion reads as exactly the kept lines if and only if no kept line swallows the next and the last ends with LF |
| JsonlGroups.NoReturnsReadBack | install/birth_retention_jsonl.py:143-165 | without CR that always holds |
| JsonlGroups.ReturnsCanMerge | install/birth_retention_jsonl.py:143-148 | three lines, with CR, whose second cannot be deleted without changing the first |
| JsonlGroups.WithoutOthers | install/birth_retention_jsonl.py:178-187 | deleting one group leaves the records, hence the version, of every other |
| JsonlMerging.SettledReading | install/birth_retention_jsonl.py:143-165 | lines written one after another read as themselves with every blank line joined to the record that swallows it, and read at all if and only if the last ends with LF |
| JsonlMerging.UnchangedExactly | install/birth_retention_jsonl.py:213-226 | deleting a group from the file as it reads takes exactly the group's own lines if and only if no line of the group has taken an LF |
| JsonlSequences.FilesExactly | install/birth_retention_jsonl.py:213-226 | deletions one after another, the file read again before each, leave the file without those groups if and only if each group had its recorded version at its turn |
| JsonlSequences.NoReturnsInAnyOrder | install/birth_retention_jsonl.py:213-226 | without CR every version holds at its turn, and the file is the same in any order |
| JsonlSequences.OrderCanMatter | install/birth_retention_jsonl.py:143-148 | a file, with CR, that two deletions leave empty in one order and not in the other |
| JsonlCompaction.JournalFile.Delete | install/birth_retention_jsonl.py:213-262 | its exact refusals, a moved version, a retained record and a copy of something else among them; otherwise the file is the kept lines, and a death leaves the file with a beginning of the copy beside it |
| JsonlCompaction.JournalFile.DeleteAcrossStops | install/birth_retention_jsonl.py:232-260 | resuming from whatever copy the deaths left gives the same file |
| JsonlCompaction.JournalFile.RecordVersions | install/birth_retention_jsonl.py:204-211 | the versions of a plan as the file has them, refused exactly when a group is missing |
| JsonlCompaction.JournalFile.DeletePlan | install/birth_retention_jsonl.py:213-262 | one session of a plan at its recorded versions: at every point the file is the file without the first rows, and without all when it is done |
| JsonlCompaction.JournalFile.DeletePlanAcrossStops | install/birth_retention_jsonl.py:213-262 | through any deaths a plan that is done leaves the file without any of its rows, with CR or without; without CR it is always done |
| JsonlReadings.WindowExactly | install/birth_retention_feedback.py:107-117 | after a permitted deletion the runtime reads the same last 200 physical lines of the file if and only if the last line kept before them does not swallow the first of them |
| JsonlReadings.WindowsExactly | install/birth_retention_feedback.py:107-117 | after any sequence of permitted deletions, each from the file as it then reads, those lines are the same if and only if at none of them the first was swallowed |
| JsonlReadings.ReadingsSurvive | runtime/turn_feedback.py:387-387 | without CR any sequence of permitted deletions from the file leaves the lines the runtime reads |
| JsonlReadings.DeletionCanReachBack | install/birth_retention_feedback.py:107-110 | a file, with CR, and a permitted deletion that brings an older turn into those lines |
| JsonlReadings.ImportReadingsSurvive | install/birth_retention_import_audit.py:84-96 | with CR or without, any sequence of permitted deletions from the file leaves every skill's physically last import record, and a file that reads |
| JsonlReadings.FeedbackPermissionsAreSteady | install/birth_retention_feedback.py:107-117 | a turn that may go may still go after others went, so a whole plan can be carried out |
| JsonlReadings.ImportPermissionsAreSteady | install/birth_retention_import_audit.py:84-96 | the same for import records |
| JsonlReadings.DeleteTurns | install/birth_retention_feedback.py:107-117 | a plan of closed turns, carried out through any deaths on a file without CR, is refused only for a turn the file does not have; otherwise it is done, and the runtime reads the lines it read before |
| JsonlReadings.DeleteImports | install/birth_retention_import_audit.py:84-96 | the same for import records and the status of every skill |

## Left out

- File descriptors, `renameat2`, fsync ordering under power loss, flock, ownership and mode bits, Windows identities: only atomic steps on names and writes cut short remain.
- Ed25519, SHA-256, JSON text and SQLite: functions, keys of 32 bytes, and tables.
- JSON fractions, duplicate and unknown field names, and strings with lone surrogates: a text with one of them reads as no document here; the code refuses it too, at the latest when it writes what it decoded again to compare.
- Python's limit on the digits of an integer: numbers are unbounded here, and an admitted document always has a text.
- Graph storage, `mark` and receipts' own format: `Begin` takes the candidates as given, and a receipt is what it signs.
- Time budgets: `Resume` takes the number of groups it may still begin in time; `plan`'s observation windows are part of an object's eligibility.
- Staging.Workspace.Publish: a failed re-read that withdraws its own pending file is not modelled, because only deaths interrupt a step here.
- CheckpointChain.ChainFolder.Append: asks for a checkpoint of at most 1 MiB; the code withdraws a longer one after its re-read refuses it.
- Preparation.Preparer.Prepare: takes the header as already recovered, and the author's store, which the review of the staged set also reads, as unchanged.
- `recover_header`, the transaction directory's admission of names (`read_state`), and the catalogue of paths and roles a plan must match.
- V1 provisioning and its deliberate refusals of half-built states, and `_remove_transaction_v1`.
- The native oracle of an export's audit, signatures, trust files and certificates: only chronology, profile and cycle facts remain, and a continuation is an import that repeats the export that stands.
- EvidenceLedger.Evidence.Operate: stands for every administrative operation, which all store artifacts and append one act; `event`, `snapshot` and the SQLite file checks add only field checks.
- JsonlLines.Decode: the budgets on record length and count are left out; a deletion lowers both, but for one LF that a record ending in CR can take.
- The archived rotations of journal files, and the owners that differ only in schema checks (cost, affinity, efficacy, evaluation, promoter audit, sites, synth, reviews, SQLite, epochs, jobs).
- JsonlReadings.FeedbackPermissionsAreSteady: the closure rules of feedback effects and quarantines are one predicate on the turn, since they read only that turn's records and the reviews.
- Cutover orchestration, subprocess workers, systemd and `/proc` scanning, uid switching, installer phases.
