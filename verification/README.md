# Contract authority, verified

This project models the journaled, crash-recoverable contract authority of a chapter production system in
Dafny, together with the gates that decide when a contract may move, and proves what they promise.

- **Contract lifecycle.** Versions of a chapter contract are immutable items that go from candidate to active to
  archived. One pointer per contract says which version is current. Creating a candidate, activating the first
  version and switching to the next one are sequences of atomic file replacements, kept on track by journals
  (`Lifecycle`, `SwitchRecovery`, `CandidateRecovery`, `InitialRecovery`, `LifecycleRuns`, `ContractLifecycle`).
  What holds over whole runs beyond the invariant is in `LifecycleFrames`, `ActivationHistory`, `ApprovalGate`,
  `RevisionApproval`, `PointerRecords`, `LifecycleGuards` and `StagedAuthority`;
  `LifecycleExample` and `ReadyExample` show a run in which every call succeeds.
- **Two write-ahead stores.** Approval-time records with one journal per record and references between records
  (`RecordStore`, `RecordRecovery`, `RecordContent`, `RecordTampering`, `ContractRecordStore`), and a hash-chained log of fulfillment evidence with
  supersession (`FulfillmentStore`, `FulfillmentRecovery`, `FulfillmentTampering`, `Supersession`, `ContractFulfillmentStore`).
- **The idempotent command boundary**, shared by concurrent callers (`Commands`, `CommandRuns`,
  `CommandTheorems`, `CommandBoundary`, `CommandAnswers`).
- **Revisions and approvals.** The canonical leaf difference of two decisions, its verification by
  recomputation, what verification leaves open, and the approvals a revision demands (`Leaves`, `Diffs`, `Revision`,
  `RevisionIdentity`, `RetypedRevisions`, `Paths`, `Approval`). What they do is also said about the attribute names
  and indices of the places concerned (`PathPatterns`, `ContentPaths`, `RevisionContent`, `RevisionApproval`).
- **Gates.** Baseline manifests, reviewer results and their gate, field evidence, causal analysis, preflight and
  fulfillment (`Baseline`, `Review`, `ReviewGate`, `EvidenceIntegrity`, `Causality`, `ContractFields`,
  `Preflight`, `PreflightGate`, `ReadyMeaning`, `Fulfillment`). What they read of a decision is read from its tree (`TreeReading`,
  `FieldPaths`, `DecisionReading`, `DecisionEvidence`, `PreflightVerdict`, `FulfillmentFields`, `FrozenContract`), and
  `Fulfillability` joins preflight with fulfillment. `ReadyTree`, `EvidenceTrees`, `ReadyContract` and
  `FulfillmentExample` hold contracts that pass preflight.
- **Chapter checkpoints** in one shared log, and the orchestrator steps that append to it (`Checkpoints`,
  `CheckpointRuns`, `CheckpointStore`, `ChapterOrchestrator`).

How to read the model:

- An operation on disk is the sequence of states after each of its atomic writes, with its answer. Dying after
  `k` writes leaves the `k`-th state (`Durability.After`). Classes hold the files as fields; their methods take
  the number of writes after which the process dies, and are proved to leave exactly that state.
- SHA-256 over canonical JSON is a datatype constructor of the hashed payload, hence injective. Where a digest
  takes part in a sort key, its rendering as text is an arbitrary function.
- The project lock is mutual exclusion of whole operations, a crash inside an operation included. The command
  boundary, whose callers share only a lock file, is modelled step by step instead.
- Clocks, the resolver of baseline sources, evidence sources, validators and handlers are parameters. Preflight, causal
  analysis and fulfillment read fields, evidence bindings and optional candidates from the tree of the decision. The
  lifecycle functions take the verdict of preflight as a function; the coordinator's methods require it to be the verdict
  of `PreflightVerdict` and compute it, and `ActivationHistory` concludes about runs with such verdicts.
- A checkpoint line that holds one of U+0085, U+2028 and U+2029 is written raw and split when the log is read.
- A scalar remembers its Python type, and comparison follows Python: `True` equals `1`, a text enumeration its text.
  Canonical JSON keeps `True` and `1` apart and writes an enumeration as its text. The fields of a decision have the
  types of its schema, so its hash tells decisions apart; the values listed in a request may have any scalar type.

Findings the proofs made precise, each with its exact condition or a concrete input:

- A temporary revision-authority file left by a crash blocks every later attempt, because it is opened for
  exclusive creation, and freezes its contract at the current version
  (`CandidateRecovery.RetriesFinishUnlessStaged`, `StagedAuthority.StagedFileFreezesContract`).
- A command handler that itself reports `command_version_unavailable` is run again on a retry; otherwise each key
  runs at most once (`CommandTheorems.AtMostOnceIff`).
- Verifying a revision request does not compare the identities of the two decisions, nor any baseline
  fingerprint or scene impact; building does compare the identities (`RevisionIdentity.IdentityIsNotCompared`,
  `Revision.VerifiedUnique`). Creating a candidate loads the current version by the candidate's own contract id, so
  every stored authority joins two decisions of one identity (`RevisionIdentity.AuthoritiesKeepIdentity`).
- Verification accepts `True` for `1` in the listed changes; such a request has other digests and cannot take over
  from the original once that has written its journal (`Revision.VerifyIffBuilt`,
  `RetypedRevisions.RetypedReplacement`, `LifecycleExample.RetypedRequestVerifies`).
- The checkpoint log is appended in place. A crash between opening the file and the end of the line leaves a log that
  is refused from then on, at once or after one more append; so does, without any crash, a project name or a reference
  with one of the three Unicode line separators, which are written raw and split when the log is read
  (`CheckpointRuns.StepSparesLogIff`, `CheckpointRuns.SeparatorInNameSpoils`, `CheckpointRuns.DeadForever`,
  `CheckpointRuns.NextAppendSpoils`).
- A contract with an empty plan passes preflight and can never be fulfilled: the evaluator wants intent evidence for
  the plan's reason besides non-applicability, preflight admits no reference of another role than non-applicability
  there, and fulfillment records are about verification or realization (`Fulfillability.ReadyIsFulfillableIff`,
  `FulfillmentExample.EmptyPlanIsNeverFulfilled`). The design
  (docs/superpowers/specs/2026-08-20-narrative-director-chapter-contract-approval-design.md:240) wants intent,
  verification and non-applicability for such a field, as the evaluator does; the model follows the code of both.
- Appending a fulfillment record again with `1` for `True` succeeds and is dropped; for a contract that expects the
  dropped type the stored record is stale (`FulfillmentRecovery.RetypedAppendIsDropped`, `Fulfillment.RetypedIsStale`).

## Model

| member | source | states |
|---|---|---|
| `SwitchRecovery.RetriesFinishTheSwitch` | creative_os/domains/contract_lifecycle.py:312-370 | After any number of attempts of one switch, each cut off after any number of durable writes, one more call with the same arguments returns the pointer of an uninterrupted call and leaves exactly the same project. |
| `SwitchRecovery.FinishedSwitch` | creative_os/domains/contract_lifecycle.py:605-643 | A completed switch leaves the new pointer current, the new version ACTIVE, the old one ARCHIVED and the journal committed, and changes nothing else. |
| `SwitchRecovery.JournalNeverAhead` | creative_os/domains/contract_lifecycle.py:612-641 | After any number of crashed attempts and a crash at any write of one more, each journal stage is backed by the step it names (activated, pointer moved, archived), the journal has not gone back, and the writes a repeated call still makes have become fewer by at least those that landed. |
| `SwitchRecovery.PathMakesProgress` | creative_os/domains/contract_lifecycle.py:612-641 | From any in-order progress every prefix of the remaining writes is in order, never lowers the journal stage, never undoes activation, shortens what is left, and all of them reach the finished state. |
| `SwitchRecovery.AdvanceAt` | creative_os/domains/contract_lifecycle.py:605-643 | Advancing a half-done switch writes precisely the remaining stages and returns the new pointer, wherever the journal lags behind. |
| `SwitchRecovery.RepeatedCall` | creative_os/domains/contract_lifecycle.py:349-370 | At every intermediate stage all gates of the switch answer as before, so the repeated call takes the remaining writes and succeeds. |
| `SwitchRecovery.FirstCall` | creative_os/domains/contract_lifecycle.py:334-348 | A successful first call writes its prepared journal and then all stages in order. |
| `SwitchRecovery.OneActiveVersion` | creative_os/domains/contract_lifecycle.py:605-643 | With exactly one ACTIVE version before a switch there are at most the old and the new one during it, and only the new one after it. |
| `LifecycleRuns.CallKeeps` | creative_os/domains/contract_lifecycle.py:141-643 | Every coordinator call, cut off anywhere, keeps the invariant (the pointer targets an ACTIVE item of matching contract, version and hash; approvals granted; authorities derived), changes no stored content, and moves a pointer only from nothing to version 1 or from v to v+1. |
| `LifecycleRuns.RunsKeepInv` | creative_os/domains/contract_lifecycle.py:396-441 | Over any run of first activations, candidates, switches, crashes and stale retries the invariant holds and no pointer disappears or goes back to a lower version. |
| `LifecycleRuns.PointerAlwaysReads` | creative_os/domains/contract_lifecycle.py:847-868 | In every project reachable from an empty one the current pointer reads back without an error. |
| `LifecycleRuns.CurrentRevisionIsApproved` | creative_os/domains/contract_lifecycle.py:228-257 | Whenever version 2 or later is current, the approval record its pointer binds is about that contract, version, content and baseline and approves the full contract, the post-freeze revision, and every item whose patterns cover the path text of a leaf changed from the previous version or of a declared causal path. |
| `RevisionApproval.CurrentRevisionIsApproved` | creative_os/domains/contract_lifecycle.py:228-257 | Whenever version 2 or later is current, the full contract and the revision are approved, and so is each special item that watches a place at which the stored version differs from the stored version before, or that the revision declares as affected; places are attribute names and indices, statuses are fields of the record. The revision asked for no special item to whose fields no declared path leads. |
| `RevisionApproval.WatchedIsContent` | creative_os/domains/contract_approval.py:359-367 | No field that a special item watches is left out of the leaves that a revision compares. |
| `LifecycleRuns.SwitchKeeps` | creative_os/domains/contract_lifecycle.py:326-348 | No switch call, accepted or refused, fresh or stale, breaks the invariant at any of its writes. |
| `LifecycleRuns.CreateReplacementKeeps` | creative_os/domains/contract_lifecycle.py:206-288 | Creating a replacement candidate keeps the invariant at each write and never touches a pointer or an existing version. |
| `LifecycleRuns.ActivateInitialKeeps` | creative_os/domains/contract_lifecycle.py:443-531 | Activating the first version keeps the invariant at each write, also when it is repeated after later versions became current. |
| `LifecycleRuns.PreparedIsGranted` | creative_os/domains/contract_lifecycle.py:536-603 | A prepared pointer names the requested version and content, every required item is approved in the record it binds, and that record is about this version, content and baseline. |
| `ActivationHistory.CurrentVersionPassedTheGates` | creative_os/domains/contract_lifecycle.py:443-603 | In every reachable project the reviewer result bound by a current pointer is about the stored active version, has no high issue, and each issue that blocks or asks for a human is named by id, hash, code, field path and evidence hash in a bound human decision about this very result; if the calls were made with the verdicts of causal analysis and preflight, one of them passed that version, with resolving evidence for every causal leaf. |
| `ApprovalGate.OnlyApprovedBecomesCurrent` | creative_os/domains/contract_lifecycle.py:466-480 | In every reachable project, at any version, the approval record bound by a current pointer has the full contract approved and every other decision approved or not applicable, read off its seven status fields. |
| `ApprovalGate.UnapprovedIsRefused` | creative_os/domains/contract_lifecycle.py:466-480 | With a record whose full contract is not approved, or with any rejected item, first activation answers "not approved" and a switch fails, and neither writes anything. |
| `LifecycleGuards.CurrentTargetFits` | creative_os/domains/contract_lifecycle.py:847-868 | In every reachable project the target of a current pointer is stored, ACTIVE, and has the contract, version and content that pointer and key name. |
| `LifecycleGuards.FirstActivationFits` | creative_os/domains/contract_lifecycle.py:443-603 | A first activation that answers a pointer or writes anything is for version 1, stored, not archived, with the named content, ready, with resolving sources, and by the actor who approved the full contract. |
| `LifecycleGuards.InitialAnswers` | creative_os/domains/contract_lifecycle.py:141-204 | Creating version 1 succeeds only for a decision whose contract and chapter names are those of its chapter number, of at most three digits; it answers that decision as a candidate, writes one item if there was none, and never overwrites a stored one. |
| `LifecycleGuards.SwitchDemands` | creative_os/domains/contract_lifecycle.py:312-370 | A switch that succeeds or writes anything is for version 2 or later of a well-named contract, has an authority for this version and content that lists the standing approvals in order, found the expected pointer current (a repeated call: its own journal), and passed every gate. |
| `LifecycleGuards.ReplacementDemands` | creative_os/domains/contract_lifecycle.py:206-288 | A replacement that succeeds or writes anything goes from a current pointer whose target fits to the next version, with a request for this contract, version, content and base. |
| `PointerRecords.CurrentLeadsToRecords` | creative_os/domains/contract_lifecycle.py:587-603 | One of the calls activated exactly the key, content and baseline that a current pointer names; if it read a recovered record store, the two record ids lead to the approval and the reviewer result whose digests the pointer binds, both about its version, content and baseline, the assets are those of the review, and the dispositions are all stored ones of that review. |
| `PointerRecords.CandidateIsBound` | creative_os/domains/contract_lifecycle.py:206-288 | A successful first replacement stores the candidate and an authority that carries the versions, contents, both baselines, causal paths, change requests and change texts of its request. |
| `PointerRecords.SwitchNeedsAuthority` | creative_os/domains/contract_lifecycle.py:326-333 | A switch succeeds only from the base and the base baseline of the stored request, to its content and its replacement baseline. |
| `LifecycleFrames.SwitchWritesPrepared` | creative_os/domains/contract_lifecycle.py:326-370 | At each write of a switch, revisions are untouched and the only pointer written is the one that all gates prepared. |
| `ReadyExample.VersionTwoIsReachable` | creative_os/domains/contract_lifecycle.py:141-643 | Four calls on an empty project, all with the verdicts of causal analysis and preflight on the trees of the decisions, create, activate, revise and switch a contract: version 2 ends current and ACTIVE with another baseline than version 1, which ends ARCHIVED, so the run theorems speak about real runs. |
| `ReadyContract.VersionIsReady` | creative_os/domains/contract_preflight.py:72-132 | Every version of a contract whose tree holds all causal fields, one evidence reference for each of them and a candidate that affects the chapter is resolved by causal analysis and ready in preflight, also if its last plan is empty. |
| `LifecycleExample.SwitchSucceeds` | creative_os/domains/contract_lifecycle.py:312-370 | With records, approvals, review and authority that fit, the switch to a second ready version, which differs in its target length and in its baseline, passes every gate and succeeds with the new baseline. |
| `LifecycleExample.RequestVerifies` | creative_os/domains/contract_revision.py:273-325 | For two decisions that differ in one minor leaf, the request listing that leaf, declared as causal impact, verifies. |
| `CandidateRecovery.RetriesFinishUnlessStaged` | creative_os/domains/contract_lifecycle.py:206-288 | After any number of crashed attempts to create a replacement candidate, one more call finishes with the result of an uninterrupted call exactly when no temporary authority file was left behind; otherwise it fails. |
| `CandidateRecovery.StagedFileStopsRetries` | creative_os/domains/contract_lifecycle.py:735-740 | A crash right after the exclusive creation of the temporary authority file makes every retry of the same call fail, however often it is repeated. |
| `StagedAuthority.StagedFileFreezesContract` | creative_os/domains/contract_lifecycle.py:702-744 | After that crash, whatever is called and wherever it crashes, the contract pointer never changes again, no call creates a candidate for the next version, and no switch to it succeeds. |
| `StagedAuthority.RunStaysStuck` | creative_os/domains/contract_lifecycle.py:702-744 | A version that is staged without an authority stays so under any run of calls, and the pointer one version below stays where it is. |
| `RetypedRevisions.RetypedDigests` | creative_os/domains/contract_lifecycle.py:716-724 | Of requests that Python equates, the stored authority and the prepare journal are equal exactly if no boolean stands for an integer or the other way round. |
| `RetypedRevisions.RetypedReplacement` | creative_os/domains/contract_lifecycle.py:206-288 | A request that only swaps texts and enumerations does in every call what the original does; one that swaps a boolean and an integer is refused as a conflict once the original has written its journal. |
| `RevisionIdentity.AuthoritiesKeepIdentity` | creative_os/domains/contract_lifecycle.py:206-288 | Whatever is called, a stored revision authority joins two valid decisions of one identity, the one its key names; a constructed request behind it is, as Python compares, one that building gives. |
| `InitialRecovery.RetriesFinishTheActivation` | creative_os/domains/contract_lifecycle.py:525-534 | However often the first activation crashed, one more call answers and leaves what an uninterrupted call does. |
| `ContractLifecycle.ContractLifecycleCoordinator.CreateInitialCandidate` | creative_os/domains/contract_lifecycle.py:141-204 | Stores version 1 as an immutable candidate, or returns the one already stored if its content matches. |
| `ContractLifecycle.ContractLifecycleCoordinator.ActivateFirst` | creative_os/domains/contract_lifecycle.py:443-531 | Activates version 1 and writes its pointer after all gates; a call that dies after n writes leaves the n-th state of the specified sequence. |
| `ContractLifecycle.ContractLifecycleCoordinator.WritePointer` | creative_os/domains/contract_lifecycle.py:422-441 | Replaces the pointer file only if its target is stored, ACTIVE and has the named contract, version and hash. |
| `ContractLifecycle.ContractLifecycleCoordinator.PrepareActivation` | creative_os/domains/contract_lifecycle.py:536-603 | Reads approvals, gate, sources, stored content and, from the stored decision itself, causal analysis and preflight without writing, and answers the pointer exactly when all of them pass. |
| `ContractLifecycle.ContractLifecycleCoordinator.Switch` | creative_os/domains/contract_lifecycle.py:312-370 | The compare-and-swap of the current pointer: binds the revision authority, starts or resumes the journal, and follows the specified write sequence up to any crash. |
| `ContractLifecycle.ContractLifecycleCoordinator.AdvanceSwitch` | creative_os/domains/contract_lifecycle.py:605-617 | Activates the new version unless that is done, recording it in the journal. |
| `ContractLifecycle.ContractLifecycleCoordinator.AdvancePointer` | creative_os/domains/contract_lifecycle.py:618-625 | Moves the pointer from the old to the new version unless that is done, and refuses any other current pointer. |
| `ContractLifecycle.ContractLifecycleCoordinator.AdvanceArchive` | creative_os/domains/contract_lifecycle.py:626-636 | Archives the old version only while the new one is ACTIVE and current. |
| `ContractLifecycle.ContractLifecycleCoordinator.CommitSwitch` | creative_os/domains/contract_lifecycle.py:637-643 | Commits the journal once and re-reads the pointer. |
| `ContractLifecycle.ContractLifecycleCoordinator.CreateReplacementCandidate` | creative_os/domains/contract_lifecycle.py:206-288 | Verifies the revision against the stored current version before writing journal, authority and candidate in order. |
| `ContractLifecycle.ContractLifecycleCoordinator.WritePrepareJournal` | creative_os/domains/contract_lifecycle.py:804-845 | Writes the prepare journal unless a committed one is there; a different binding is a conflict. |
| `ContractLifecycle.ContractLifecycleCoordinator.WriteAuthorityFile` | creative_os/domains/contract_lifecycle.py:702-744 | Creates the temporary file exclusively and renames it; an equal authority is accepted, a different one is a conflict. |
| `ContractLifecycle.ContractLifecycleCoordinator.AddCandidate` | creative_os/domains/contract_lifecycle.py:262-288 | Adds the candidate once, or accepts an equal one, and commits the prepare journal. |
| `RecordRecovery.RecoverySettles` | creative_os/domains/contract_record_store.py:476-521 | Recovery succeeds from every kept state, passes only through kept states holding the same durable records, and ends with every journal committed and every record file present, for any listing order. |
| `RecordRecovery.RecoveryIsIdempotent` | creative_os/domains/contract_record_store.py:476-521 | Recovering again writes nothing, and the outcome does not depend on the order in which the directories are listed. |
| `RecordRecovery.SaveIsAtomic` | creative_os/domains/contract_record_store.py:379-441 | A save cut off at any write leaves the old records, or the old records plus the new one exactly when its prepared journal had landed; no other record changes. |
| `RecordRecovery.SaveAnswers` | creative_os/domains/contract_record_store.py:379-441 | A completed save returns the record id exactly when this very record is stored afterwards. |
| `RecordRecovery.RunsKeepEveryRecord` | creative_os/domains/contract_record_store.py:379-521 | Over any run of saves, recoveries and crashes no durable record is lost or changed, and at most one journal is prepared at a time. |
| `RecordRecovery.ReferencesNeverDangle` | creative_os/domains/contract_record_store.py:557-587 | Every stored disposition refers to exactly one stored, committed reviewer result with its id and hash, and that result holds an issue with the same id, hash, code, field path and evidence hash. |
| `RecordRecovery.UnboundIsRefused` | creative_os/domains/contract_record_store.py:557-587 | Saving a disposition is answered "unbound" exactly when it differs from every issue of every stored result with its result id and hash in at least one of the five fields, and then no record is added, cut short or not. |
| `RecordContent.StoredIsFine` | creative_os/domains/contract_record_store.py:693-747 | Every stored record stands under the name made of its content, and its content is in order: manifests sorted with one profile and their own fingerprint, approvals without contradiction, reviewer results with the hash of what they say, dispositions decided by a named human. |
| `RecordContent.ContradictionsAreRefused` | creative_os/domains/contract_record_store.py:379-395 | A record whose decisions contradict each other, whose digests do not fit, or that no human decided is refused before anything is read or written. |
| `RecordTampering.AcceptedIsSettled` | creative_os/domains/contract_record_store.py:476-521 | Whatever was on the disk: if recovery succeeds, every journal is committed, every record file has a journal with the same content and stands under its own name, every disposition is bound, and nothing was lost; so orphaned, altered, misnamed and missing record files are refused. |
| `RecordRecovery.OneKeeps` | creative_os/domains/contract_record_store.py:485-514 | Finishing one journal succeeds and keeps all invariants at each of its writes; dispositions are finished only once reviewer results are committed. |
| `RecordRecovery.FindExactFinds` | creative_os/domains/contract_record_store.py:301-343 | The lookup finds something exactly when approval and baseline are stored and agree and exactly one stored reviewer result is about the contract, version, content, baseline and rule set. |
| `RecordRecovery.FoundIsExact` | creative_os/domains/contract_record_store.py:324-367 | What the lookup returns is stored and about the query, the dispositions are all stored ones that name the reviewer result, and each agrees with one of its issues in id, hash, code, field path and evidence hash. |
| `RecordRecovery.FindExactIsStable` | creative_os/domains/contract_record_store.py:301-303 | Crashes inside the recovery that precedes a lookup do not change what the lookup finds. |
| `ContractRecordStore.ContractRecordStore.RecoverJournal` | creative_os/domains/contract_record_store.py:489-514 | Finishes one journal: record file, then commit, or the error of its branch. |
| `ContractRecordStore.ContractRecordStore.RecoverJournals` | creative_os/domains/contract_record_store.py:485-514 | Loops over the listing and finishes the journals of one phase, up to any crash. |
| `ContractRecordStore.ContractRecordStore.CheckRecordFiles` | creative_os/domains/contract_record_store.py:516-521 | The closing loop over the record files reports the first orphan or unloadable one in listing order. |
| `ContractRecordStore.ContractRecordStore.RecoverLocked` | creative_os/domains/contract_record_store.py:476-521 | Both phases and the closing check, cut off anywhere, leave the state of the specified write sequence. |
| `ContractRecordStore.ContractRecordStore.SaveRecord` | creative_os/domains/contract_record_store.py:379-441 | Recover, validate the binding, compare with an existing record, then prepared journal, record file and committed journal. |
| `FulfillmentRecovery.RecoverySucceeds` | creative_os/domains/contract_fulfillment_store.py:73-108 | From every consistent disk recovery returns the durable log, loses nothing at any crash point inside itself, and when it completes the journal is gone and the head matches. |
| `FulfillmentRecovery.AppendIsAtomic` | creative_os/domains/contract_fulfillment_store.py:33-53 | After a crash between any two writes of an append the next recovery returns the old log, or the old log plus the record exactly when the journal had been written. |
| `FulfillmentRecovery.AppendAnswers` | creative_os/domains/contract_fulfillment_store.py:38-53 | A completed append succeeds exactly when recovery afterwards returns a record that Python equates with the appended one, and answers that record; it is the appended one exactly when recovery returns that; a conflict is reported exactly when the id is held by a record that Python does not equate with it. |
| `FulfillmentRecovery.RetypedAppendIsDropped` | creative_os/domains/contract_fulfillment_store.py:38-43 | Appending a stored record again with 1 for True, or the other way round, succeeds without a write of its own, answers the stored record, and leaves the appended one out of the log. |
| `FulfillmentRecovery.TrueThenOne` | creative_os/domains/contract_fulfillment_store.py:38-43 | From an empty store, for any record that supersedes nothing: it is appended with value True, then the same record with value 1 succeeds and the log still holds True. |
| `Fulfillment.RetypedIsStale` | creative_os/domains/contract_fulfillment.py:146-172 | If a contract can use a record, a stored record that Python equates with it but whose value has another type is stale, and so is the whole result. |
| `FulfillmentRecovery.RunsNeverLoseRecords` | creative_os/domains/contract_fulfillment_store.py:33-108 | Over any run of appends, recoveries and crashes the log only grows at its end, by records that were appended. |
| `FulfillmentStore.AcceptedIffValid` | creative_os/domains/contract_fulfillment_store.py:110-137 | The record file is accepted exactly when it is a hash chain with distinct ids whose supersessions point backward within one binding. |
| `FulfillmentStore.ExtensionAccepted` | creative_os/domains/contract_fulfillment_store.py:46-49 | An accepted log extended by one appended record is accepted again. |
| `FulfillmentStore.LastHashFixesLog` | creative_os/domains/contract_fulfillment_store.py:203-225 | Two accepted record files with the same final entry hash are the same log. |
| `FulfillmentStore.SupersedesIff` | creative_os/domains/contract_fulfillment_store.py:152-162 | The supersession check accepts a record exactly when supersession still points backward within one binding. |
| `FulfillmentTampering.RecoveryAcceptedIff` | creative_os/domains/contract_fulfillment_store.py:73-108 | On any disk recovery succeeds exactly if the record file is a valid log and either there is no journal and the head names the last line, or a prepared journal goes on from the log, or the journal's entry is the last line; only in the last case is the head compared with nothing. |
| `FulfillmentTampering.HeadFixesLog` | creative_os/domains/contract_fulfillment_store.py:106-107 | Without a journal one head file admits one log: no other record file is accepted with it. |
| `FulfillmentTampering.TruncationIsRefused` | creative_os/domains/contract_fulfillment_store.py:106-107 | An accepted record file that lost its last lines is refused as tampered and left as it is. |
| `Supersession.ActiveIsGlobal` | creative_os/domains/contract_fulfillment_store.py:63-67 | The active records of a binding are the same whether supersession is read from its own records or from the whole log. |
| `Supersession.EveryRecordHasActiveHeir` | creative_os/domains/contract_fulfillment_store.py:63-67 | Every record of an accepted log is active or reached by a supersession chain from an active record. |
| `Supersession.ChainsDescend` | creative_os/domains/contract_fulfillment_store.py:152-162 | Supersession chains run strictly backward inside one binding, so there are no cycles. |
| `Supersession.ActiveNonEmpty` | creative_os/domains/contract_fulfillment_store.py:55-67 | A binding has an active record exactly when it has a record. |
| `ContractFulfillmentStore.ContractFulfillmentStore.ReadRecords` | creative_os/domains/contract_fulfillment_store.py:110-137 | The reading loop returns the records, or the error of the first line that does not continue the chain. |
| `ContractFulfillmentStore.ContractFulfillmentStore.RecoverLocked` | creative_os/domains/contract_fulfillment_store.py:73-108 | Replays or discards the announced append, one file replacement at a time, up to any crash. |
| `ContractFulfillmentStore.ContractFulfillmentStore.AppendRecord` | creative_os/domains/contract_fulfillment_store.py:33-53 | Recovers, answers a stored record that Python equates with this one, and otherwise writes journal, record file and head and removes the journal, up to any crash. |
| `CommandTheorems.AtMostOnceIff` | creative_os/workspace_command.py:224-277 | In every interleaving of callers, crashes and retries each key runs the handler at most once, if and only if handlers never report the code `command_version_unavailable`. |
| `CommandTheorems.ReservedCodeRunsTwice` | creative_os/workspace_command.py:258-265 | A handler that does report that code has its reservation released and runs a second time on a retry. |
| `CommandTheorems.OneStoredResult` | creative_os/workspace_command.py:120-152 | All completed calls with one key had one fingerprint and return the one stored result. |
| `CommandTheorems.OtherFingerprintNeverRuns` | creative_os/workspace_command.py:125-130 | A call that shares the key of a handler run but not its fingerprint never owns the reservation and is never answered with a stored result. |
| `CommandTheorems.ReleaseOnlyBeforeHandler` | creative_os/workspace_command.py:154-166 | A reservation is only released while the handler has not run for its key. |
| `CommandTheorems.CompletedForever` | creative_os/workspace_command.py:137-152 | A stored result is never changed or removed again. |
| `CommandTheorems.RetryReplays` | creative_os/workspace_command.py:279-287 | Retrying an answered command later gives the same answer without running the handler. |
| `CommandRuns.RunKeepsInv` | creative_os/workspace_command.py:120-199 | The protocol invariant (one owner per key, snapshots current under the lock, stored answers stored) holds in every interleaving. |
| `CommandBoundary.ExecutionIsSoloRun` | creative_os/workspace_command.py:224-339 | The sequential call of the boundary is one lone caller of the concurrent protocol: same store, same handler runs, same answer. |
| `CommandAnswers.AcceptedIff` | creative_os/workspace_command.py:289-339 | A fresh call is accepted exactly if the version matches, the handler returned normally and the refresh was not scheduled or gave a non-empty receipt; the answer carries exactly the handler's audit reference and events and the receipt, and is what the store keeps. |
| `CommandAnswers.UnknownLeavesReservation` | creative_os/workspace_command.py:259-336 | If the handler raised or the refresh failed or gave no receipt, the answer is command_outcome_unknown with the emitted events, and the reservation stays. |
| `CommandAnswers.RejectionIsStored` | creative_os/workspace_command.py:259-312 | A rejection is answered and stored with its own error, unless that uses one of the two codes of the boundary. |
| `CommandAnswers.RefusalIsStored` | creative_os/workspace_command.py:259-323 | A refusal is answered and stored with the status, error, audit reference and events of the handler, unless its error uses one of the two codes of the boundary. |
| `CommandAnswers.VersionFirst` | creative_os/workspace_command.py:289-301 | A version that differs is rejected for good without a handler run; a version that cannot be read is answered as such and leaves no trace. |
| `CommandAnswers.UsedKeyIsForever` | creative_os/workspace_command.py:120-152 | After any later calls with any keys the record of a used key is unchanged and no handler ran for it again: a reservation answers command_outcome_unknown, a stored result itself, another fingerprint a conflict. |
| `CommandBoundary.FileCommandResultStore.Replace` | creative_os/workspace_command.py:120-199 | One locked section: lock file, replacement of the store file if it changes, unlock, up to any crash. |
| `CommandBoundary.Boundary.ExecuteCommand` | creative_os/workspace_command.py:224-277 | Reserve, check the version, run the handler, then complete, release or leave the reservation, up to any crash. |
| `Leaves.FlatteningIsExact` | creative_os/domains/contract_revision.py:344-365 | Flattening assigns distinct paths to distinct leaves and keeps exactly the leaves of the decision. |
| `Leaves.CollectLeaves` | creative_os/domains/contract_revision.py:344-365 | The recursive visitor fills the dictionary with the leaves outside the excluded paths. |
| `Leaves.PathsDistinct` | creative_os/domains/contract_revision.py:347-362 | No two leaves of a tree with well-formed field names get the same path. |
| `Diffs.DiffIsTheExactOne` | creative_os/domains/contract_revision.py:229-241 | The computed change list is sorted and names every differing leaf once with both values and presence flags and nothing else, and it is the only such list. |
| `Diffs.PatchReachesTheNewLeaves` | creative_os/domains/contract_revision.py:229-241 | Patching the old leaves gives the new ones up to Python equality, and identically exactly when no leaf changed only in type. |
| `Diffs.DiffBackwards` | creative_os/domains/contract_revision.py:229-241 | Swapping both sides of every change is the difference in the other direction, so a revision can be undone. |
| `Diffs.NoChangesIffSame` | creative_os/domains/contract_revision.py:242-243 | There is no change exactly when both leaf maps are equal. |
| `Revision.VerifyIffBuilt` | creative_os/domains/contract_revision.py:209-325 | For decisions of one identity, a constructed request verifies exactly when building from the same inputs gives a request that Python equates with it, and the very same one exactly when its values have the types of the leaves. |
| `RevisionIdentity.IdentityIsNotCompared` | creative_os/domains/contract_revision.py:273-325 | A constructed request from version 1 of one contract to version 2 of another, with all identity leaves declared as causal impact, verifies although building refuses the pair. |
| `LifecycleExample.RetypedRequestVerifies` | creative_os/domains/contract_revision.py:309-323 | A constructed request with True where the leaf holds 1 verifies although building gives another request, and its authority has another digest. |
| `Diffs.SameAsDiffIff` | creative_os/domains/contract_revision.py:229-241 | A change list that Python equates with the computed one names exactly the differing leaves, and is identical to it exactly when its values have the types of the leaves. |
| `Revision.BuildVerifies` | creative_os/domains/contract_revision.py:209-271 | What `build` returns passes `verify` against the same decisions and authority. |
| `Revision.VerifiedUnique` | creative_os/domains/contract_revision.py:309-323 | Requests verified against the same authority differ, as Python compares, at most in baseline fingerprints and scene impact, which are never compared; apart from these they are identical exactly when no value differs in type. |
| `Revision.VerifiedHidesNothing` | creative_os/domains/contract_revision.py:273-325 | A verified request names exactly the differing leaves, with values that Python equates with theirs and that are identical exactly if the types agree, declares each as causal impact, and for each major one there is an approved change request with the same old and new text. |
| `ContentPaths.KeptIff` | creative_os/domains/contract_revision.py:344-365 | Flattening leaves out exactly the places at or below the contract version, the intent evidence bindings and the unclassified legacy evidence. |
| `ContentPaths.AlteredIffDiffers` | creative_os/domains/contract_revision.py:229-241 | The leaf maps of two decisions differ at the text of a place exactly if one decision has a scalar there and the other none, or one that Python does not equate with it. |
| `RevisionContent.MajorIff` | creative_os/domains/contract_revision.py:368-371 | A path is major exactly if its attributes and indices start with those of one of the thirteen major fields. |
| `RevisionContent.AlteredPlacesAreAnsweredFor` | creative_os/domains/contract_revision.py:273-325 | When a revision verifies, every place of content at which the decisions differ is declared as causal impact, and for each at or below a major field, array items included, an approved change request of the chapter quotes the old and the new value. |
| `RevisionContent.ReferencesAreExact` | creative_os/domains/contract_revision.py:377-404 | In a verified request each reference stands for an approved change request of the chapter and covers exactly the major places whose old and new value that request quotes; every approved request that quotes one has its reference. |
| `RevisionContent.ConstructIffFine` | creative_os/domains/contract_revision.py:157-186 | The constructor accepts exactly requests with contiguous versions, at least one change, and changes, causal paths and covered paths that are field paths in order without repetition, and with distinct request ids. |
| `RevisionContent.VerifiedRequestsAreFine` | creative_os/domains/contract_revision.py:273-325 | One change request with a blank part, or without chapters, subjects or hooks, makes every verification fail; a verified request carries the identities, versions and hashes of the two decisions. |
| `Revision.ApprovedReferences` | creative_os/domains/contract_revision.py:377-404 | The loop over change requests returns the references sorted by request id, or refuses the first invalid request. |
| `Approval.RequiredRevisionApprovals` | creative_os/domains/contract_approval.py:327-367 | A frozen replacement needs the full contract, the post-freeze revision, every special item that watches a place to which a changed or affected path leads, and no special item to whose fields no path leads, each once and in fixed order. |
| `Approval.RequiredReapprovals` | creative_os/domains/contract_approval.py:252-325 | Refuses a path outside the candidate; otherwise an item is asked for exactly when there is a change and one of its channels gives a reason, each item once and in fixed order: every item that watches a reported place, the full contract for any change, and what the candidate needs anyway when a baseline role changed. |
| `Approval.CoversIffWatches` | creative_os/domains/contract_approval.py:422-435 | The patterns of an item cover the text of a path exactly if its steps lead to a watched field: at or below by attributes, exactly at, or among the items of an array at any index and below them as long as no index follows an index. |
| `Approval.CoversStartsAtField` | creative_os/domains/contract_approval.py:422-435 | Whatever text an item covers starts with the text of one of the fields it watches. |
| `PathPatterns.IsPathIff` | creative_os/domains/contract_approval.py:449-453 | The text of attributes and indices is a field path exactly if it starts with an attribute and no index follows an index. |
| `Approval.OrderedIsUnique` | creative_os/domains/contract_approval.py:325-367 | A set of required items has one listing in the fixed order, so equal demands are stored as equal tuples. |
| `Approval.ReapprovalsGrow` | creative_os/domains/contract_approval.py:281-325 | Reporting more changes never makes an approval unnecessary. |
| `Approval.FreezeAddsRevisionIff` | creative_os/domains/contract_approval.py:281-367 | The frozen rule asks for what the unfrozen rule asks on the same paths plus the revision item, exactly when some path is reported and no outline item is pulled in by affected paths alone. |
| `Approval.FreezeDropsOutline` | creative_os/domains/contract_approval.py:320-325 | One affected path of a candidate with an outline change: before the freeze the outline item is asked for again, after it it is not. |
| `Baseline.CanonicalEntries` | creative_os/domains/contract_baseline.py:73-97 | The loop with seen sources and profile counter accepts exactly non-empty entry lists with distinct sources and one profile, and sorts them. |
| `Baseline.BuildForgetsOrder` | creative_os/domains/contract_baseline.py:67-97 | Any reordering of the entries gives the same manifest or the same refusal. |
| `Baseline.ConstructIffCanonical` | creative_os/domains/contract_baseline.py:59-66 | The constructor accepts exactly the canonical order with its own fingerprint. |
| `Baseline.BuildIsCanonical` | creative_os/domains/contract_baseline.py:67-107 | Fingerprints of built manifests are equal exactly for reorderings of the same entries. |
| `Review.BuildForgetsOrder` | creative_os/domains/contract_review.py:163-317 | A reviewer result is identical, hash included, for any reordering of its assets and issues. |
| `Review.IssueForgetsOrder` | creative_os/domains/contract_review.py:40-55 | An issue is identical, hashes included, for any reordering of its evidence checks. |
| `Review.ConstructIffBuild` | creative_os/domains/contract_review.py:254-317 | The constructor accepts exactly what building the same body gives, and building is idempotent. |
| `Review.ConstructIffFine` | creative_os/domains/contract_review.py:254-282 | The constructor accepts a result exactly if its assets and issues are in order without repetition, high issues block, and every digest is that of what it covers. |
| `ReviewGate.ValidateReviewerGate` | creative_os/domains/contract_review.py:353-404 | For a current reviewer result the gate is ready exactly when no issue is high and the dispositions are in one-to-one correspondence with the issues that block or need a human; missing and stale results are told apart. |
| `ReviewGate.MatchDispositions` | creative_os/domains/contract_review.py:383-404 | The loop with the set of matched indexes decides exactly that one-to-one correspondence. |
| `ReviewGate.PassesMeans` | creative_os/domains/contract_review.py:383-404 | A ready gate leaves no high issue, a settling disposition for each issue that needs one, and as many dispositions as such issues. |
| `ReviewGate.GatePassesIff` | creative_os/domains/contract_review.py:383-404 | Valid dispositions take a result with distinct issue ids through the gate exactly if no issue is high, each issue that blocks or asks for a human is named, in all five fields and with the id and hash of the result, by exactly one of them, and none of them names anything else. |
| `ReviewGate.OpenIssueBlocks` | creative_os/domains/contract_review.py:383-404 | An issue that asks for a human blocks the gate even if it is not blocking itself, unless a disposition names it and this very result; that one is accepted or resolved, with a reason, by a named actor that is no system actor. |
| `ReviewGate.CurrentMeans` | creative_os/domains/contract_review.py:424-455 | A current result is about the expected contract, version, content, baseline, rule set and assets, no issue id occurs twice, and no issue was altered after it was hashed. |
| `EvidenceIntegrity.DeduplicateEvidenceRefs` | creative_os/domains/narrative_evidence.py:281-292 | One pass with a seen set keeps the first reference of every eight-part key. |
| `EvidenceIntegrity.DedupKeepsEachKeyOnce` | creative_os/domains/narrative_evidence.py:281-292 | Every key survives deduplication, exactly once. |
| `EvidenceIntegrity.DedupKeepsFirst` | creative_os/domains/narrative_evidence.py:281-292 | The reference kept for a key is the first one with it. |
| `EvidenceIntegrity.DedupIsIdempotent` | creative_os/domains/narrative_evidence.py:281-292 | Deduplicating twice is deduplicating once. |
| `EvidenceIntegrity.DedupOnFields` | creative_os/domains/narrative_evidence.py:258-292 | No two kept references agree in contract, version, field, role, source, source version, locator and hash; every dropped one agrees in all of them with a kept one. |
| `EvidenceIntegrity.ResolvesIff` | creative_os/domains/narrative_evidence.py:343-474 | A reference resolves exactly if it is about the place and the resolver finds a source with its id, version, hash and a kind, whose first excerpt at the locator is the quoted one, that lists the assertion for the place, and whose first value for the place, or the lack of one, is the asserted one. |
| `PreflightGate.PlaceSoundMeans` | creative_os/domains/narrative_evidence.py:392-474 | The integrity checks of all references at one place pass exactly when every one resolves to a source with equal identity, version, hash, excerpt, assertion and same-typed value. |
| `Causality.ValidateResult` | creative_os/domains/narrative_causality.py:108-163 | A causal result is accepted exactly when it has no blocking issue, belongs to this candidate and its resolutions, carries the candidate hash, rule set and field list, and everything in it is settled. |
| `Causality.AcceptedIffAnalysis` | creative_os/domains/narrative_causality.py:69-163 | Among results without issues, exactly the resolved analysis of this very candidate is accepted. |
| `ReadyMeaning.SettledIff` | creative_os/domains/narrative_causality.py:243-298 | A candidate is settled exactly if it names fields that the contract has, its impact is decided by a human or by the current rules, and, if it affects the chapter, its value is known and stands in one of the named fields. |
| `ReadyMeaning.AcceptedIff` | creative_os/domains/narrative_causality.py:108-163 | A causal result is accepted exactly if it lists the candidate's own resolutions for this very content, rule set and field list without a blocking issue, and each resolution is well-formed and decided. |
| `PreflightGate.AffectingCandidatesAreEvidenced` | creative_os/domains/narrative_causality.py:243-298 | In a ready contract every candidate that affects the chapter stands in a field it depends on, and all evidence bound to that field, at least one reference, resolves and asserts the very text of the candidate. |
| `Preflight.RequiredEvidenceRoles` | creative_os/domains/contract_preflight.py:159-252 | The loops compute exactly which concrete paths need evidence, with role and value, and report issues exactly when a control field, causal field, choice or plan is incomplete. |
| `Preflight.RequireFields` | creative_os/domains/contract_preflight.py:174-201 | Going through the causal fields notes every scalar and every array item, and reports exactly the incomplete ones. |
| `Preflight.RequireReasons` | creative_os/domains/contract_preflight.py:221-250 | Each empty plan needs its reason, each filled plan must not have one. |
| `PreflightGate.ValidateEvidence` | creative_os/domains/contract_preflight.py:255-344 | The evidence loops report nothing exactly when every binding names a required path and every required path has only sound references, at least one. |
| `PreflightGate.ValidatePlace` | creative_os/domains/contract_preflight.py:295-342 | The checks at one path report nothing exactly when its references are sound, although the Task/Director comparison is made as well. |
| `PreflightGate.ConflictIsNeverAlone` | creative_os/domains/contract_preflight.py:328-342 | A Task/Director conflict at a path implies that some reference there fails its own check. |
| `PreflightGate.ValidateContract` | creative_os/domains/contract_preflight.py:72-132 | Preflight is ready exactly when the candidate validates, all fields are complete, all evidence resolves, the causal result is accepted and required obligations are present. |
| `PreflightGate.ReadyCoversEverything` | creative_os/domains/contract_preflight.py:61-132 | A ready candidate has resolving evidence of exactly the required role for every causal field, every array index and every empty plan, and its causal result is bound to its content hash. |
| `ReadyMeaning.ReadyIff` | creative_os/domains/contract_preflight.py:61-132 | A contract is ready exactly if every field is filled as its kind demands, the control fields fit each other, all required evidence resolves, an analysis of this very content under the current rules is unblocked, every optional candidate is well-formed and decided, and a contract of schema version 3 has obligations. |
| `ReadyMeaning.CompleteIffFilled` | creative_os/domains/contract_preflight.py:174-252 | Fields are complete exactly if texts are not blank, enumerations are members, arrays hold texts and are not empty, plans have either values or a reason, and nothing of the choice is missing. |
| `ReadyMeaning.ControlsFitIff` | creative_os/domains/contract_preflight.py:360-374 | Control fields pass exactly if contract and chapter id are those of a positive chapter number, version and target length are positive, the schema version is 2 or 3, the kind is right, and profile, volume and arc are named. |
| `PreflightVerdict.CheckPreflight` | creative_os/domains/contract_lifecycle.py:578-587 | Reads the decision, runs causal analysis and preflight with its result, and passes exactly when the analysis is resolved and preflight is ready. |
| `TreeReading.ReadIffListed` | creative_os/domains/contract_preflight.py:392-405 | Following attribute names and indices from a decision finds a scalar exactly if flattening the decision for revisions lists that scalar under the text of the same path. |
| `TreeReading.PathTextInjective` | creative_os/domains/contract_preflight.py:392-405 | Two paths with the same text take the same attributes and indices. |
| `FieldPaths.TextInjective` | creative_os/domains/narrative_causality.py:21-45 | Different causal fields, array items, missing choice fields and plan reasons have different path texts. |
| `FieldPaths.PlacesRoundTrip` | creative_os/domains/narrative_causality.py:301-313 | Reading the text of a concrete causal path gives back the place it names, any other text names none, and writing what was read gives back the text. |
| `DecisionEvidence.ReadsAreLeaves` | creative_os/domains/contract_preflight.py:174-201 | At a complete causal field or array item preflight reads exactly the leaf that flattening lists under that path. |
| `DecisionEvidence.ReadyLeavesAreEvidenced` | creative_os/domains/contract_preflight.py:72-132 | A ready decision lists every causal field among its leaves, and each leaf that is a causal field or an item of one has evidence in the decision, at least one reference, that resolves and asserts the value of that very leaf. |
| `DecisionEvidence.ReadyBindingsAreOwn` | creative_os/domains/narrative_decision.py:500-645 | A ready decision has contract and chapter names of its chapter number, and its bindings name different paths and hold at least one reference each, all of this contract and version, for the binding's path, with an intent or non-applicability role. |
| `Fulfillment.EvaluateContract` | creative_os/domains/contract_fulfillment.py:129-224 | The loops over records and fields compute the specified result for the fields and frozen evidence derived from the decision. |
| `Fulfillment.GroupRecords` | creative_os/domains/contract_fulfillment.py:146-172 | Records are split into stale ones and, per path and in order, usable ones. |
| `Fulfillment.EvaluationForgetsOrder` | creative_os/domains/contract_fulfillment.py:129-224 | The whole result is the same for every order of the active records. |
| `Fulfillment.StatusMeans` | creative_os/domains/contract_fulfillment.py:218-224 | The status is stale exactly when some record is stale, and otherwise fulfilled exactly when every required role of every field and of both metadata fields is met. |
| `Fulfillment.FulfilledIff` | creative_os/domains/contract_fulfillment.py:146-224 | The contract is fulfilled exactly if every record fits it and every field is intended, verified and realized (the reason of an empty plan: intended, declared not applicable and verified) by frozen evidence of its value or by records, and both metadata fields are verified and realized; a verification of another artifact, version or hash realizes nothing. |
| `Fulfillment.StaleIffMisfit` | creative_os/domains/contract_fulfillment.py:146-172 | The result is stale exactly if some record is about another binding, about no field of the contract, asserts another value or a value for an enumeration member, or is refused by the validator. |
| `Fulfillment.MoreEvidenceKeepsFulfilled` | creative_os/domains/contract_fulfillment.py:146-224 | Adding a record that is not stale never loses fulfillment. |
| `FulfillmentFields.ListFields` | creative_os/domains/contract_fulfillment.py:236-254 | The loops over causal fields, array items and plans list exactly the fields to fulfil with their values, an item as it is and a scalar by its text, and each empty plan by its reason; they fail exactly when something cannot be read. |
| `FrozenContract.ContractOf` | creative_os/domains/contract_fulfillment.py:143-145 | Derives from a decision the identity, the fields by the texts of their paths, the evidence frozen per path and the metadata. |
| `FrozenContract.EvidenceIsFrozen` | creative_os/domains/contract_fulfillment.py:144 | The references frozen under the path of a causal place are exactly those that preflight saw at that place, in order. |
| `Fulfillability.ReadyIsFrozen` | creative_os/domains/contract_fulfillment.py:176-180 | A decision that passes preflight has frozen evidence for every field to fulfil, all of it with one role, intent or for a reason non-applicability, and with the value of the field. |
| `Fulfillability.ReadyIsFulfillableIff` | creative_os/domains/contract_fulfillment.py:176-187 | A contract that passes preflight can be fulfilled by some records exactly if every plan has values and no array item is an enumeration member. |
| `FulfillmentExample.EmptyPlanIsNeverFulfilled` | creative_os/domains/contract_fulfillment.py:181-185 | Of two contracts that both pass preflight, the one with an empty plan, whose reason has the non-applicability evidence that preflight demands, is fulfilled by no records, and the other one by some. |
| `CheckpointRuns.EveryChapterIsOnePath` | creative_os/domains/chapter_run_checkpoint_store.py:10-39 | Under any interleaving of runs over many chapters, with stale readings, crashes inside the file writes and references that break a line, each chapter is one path from its initial state with sequence 1..n, linked hashes and n at most 10, and no line is lost unless the log stops reading back; it has come to its state in the only way that leads there. |
| `CheckpointRuns.WholeIffUsable` | creative_os/domains/chapter_run_checkpoint_store.py:10-39 | A log ends in whole lines exactly if it reads back and takes every acceptable checkpoint that stays one line, reading it back behind all others. |
| `CheckpointRuns.StepSparesLogIff` | creative_os/domains/chapter_run_checkpoint_store.py:19-24 | An accepted append of a run leaves a usable log usable exactly if it dies before the file is opened, or if project name and references hold no character that splits a line on reading and it does not die before the line and its newline are written. |
| `CheckpointRuns.BrokenLineSpoils` | creative_os/domains/chapter_run_checkpoint_store.py:19-34 | An accepted checkpoint whose line is split on reading is answered with success, and the log never reads back again, whatever is appended later. |
| `CheckpointRuns.SeparatorInNameSpoils` | creative_os/domains/chapter_run_checkpoint_store.py:21-45 | The first checkpoint of a project whose name holds a Unicode line separator is such a checkpoint. |
| `CheckpointRuns.DeadForever` | creative_os/domains/chapter_run_checkpoint_store.py:10-39 | A log that is torn, or created but still empty, is refused by every later append and never changes again. |
| `CheckpointRuns.NextAppendSpoils` | creative_os/domains/chapter_run_checkpoint_store.py:19-24 | If only the newline of the last line is missing the log reads back, and the next append is answered with success although it destroys that line and its own, so the log never reads back again. |
| `CheckpointRuns.StepKeeps` | creative_os/domains/chapter_run_checkpoint_store.py:10-25 | One append, whoever makes it and wherever it crashes, keeps every chapter a path and only adds to a log that still reads back. |
| `CheckpointRuns.AppendTwice` | creative_os/domains/chapter_run_checkpoint_store.py:12-15 | Appending the same checkpoint again succeeds without writing, unless the first append spoiled the log, which it does exactly behind a line without its newline or with a line that is split on reading. |
| `Checkpoints.KeyInjective` | creative_os/domains/chapter_run_checkpoint.py:53-62 | The key project:chapter:sequence names one project, chapter and sequence, even if the project name contains colons. |
| `Checkpoints.PathCounts` | creative_os/domains/chapter_run_checkpoint.py:57-62 | Along a path of the transition table sequence, hashes and keys are linked, and the sequence is bounded by the depth of the state. |
| `Checkpoints.PathIsShort` | creative_os/domains/chapter_run_checkpoint.py:25-39 | No path of the transition table has more than ten checkpoints. |
| `Checkpoints.OnlyOneWay` | creative_os/domains/chapter_run_checkpoint.py:25-39 | Every state but blocked and paused is reached by one sequence of states only, so a recorded, incomplete, reviewed or committed chapter has skipped nothing. |
| `ChapterOrchestrator.AdvanceOfCurrentIsAppended` | creative_os/domains/chapter_run_checkpoint_store.py:10-25 | An allowed advance of the current checkpoint is never a conflict and is answered with success; it becomes current exactly when the log is usable and its line is not split on reading, and otherwise the log is reported as tampered from then on. |
| `ChapterOrchestrator.SeparatorsSpoil` | creative_os/domains/chapter_run_checkpoint_store.py:10-39 | On a usable log an allowed advance is answered with success and becomes current exactly if neither the project name nor a reference holds U+0085, U+2028 or U+2029; otherwise the log does not read back any more. |
| `CheckpointStore.ChapterRunCheckpointStore.RecoverAll` | creative_os/domains/chapter_run_checkpoint_store.py:30-39 | The loop with a running previous hash returns the records or reports tampering, also for a log that some line has torn. |
| `CheckpointStore.ChapterRunCheckpointStore.AppendCheckpoint` | creative_os/domains/chapter_run_checkpoint_store.py:10-25 | Returns an equal stored checkpoint, refuses a conflicting one and an empty file, otherwise opens the file, writes the line, which may be split on reading, and then the head, up to a crash between or inside these writes. |
| `ChapterOrchestrator.ChapterProductionOrchestrator.Start` | creative_os/domains/chapter_production_orchestrator.py:25-41 | A chapter that is absent or awaits approval is shown awaiting if the audit is not ready, approved with its reference if there is no projection, and proposed with the hash of the projection otherwise; one further on is shown as it is and the log is unchanged; without readiness at most a first checkpoint is written, also if the call crashes; a usable log, one-line names and enough writes always end in a view. The log changes by the steps of a run. |
| `ChapterOrchestrator.ChapterProductionOrchestrator.RecordEngagementReview` | creative_os/domains/chapter_production_orchestrator.py:46-57 | Advances a proposed chapter to the reviewed state with the record hash and the context as references, refuses any other state without a write, and moves the log by one run step. |
| `ChapterOrchestrator.ChapterProductionOrchestrator.RecordFulfillment` | creative_os/domains/chapter_production_orchestrator.py:58-99 | Advances a reviewed chapter to recorded with both hashes, or to incomplete with the artifact hash, as the evaluator says; shows a recorded one again and refuses any other state, both without a write; moves the log by one run step. |

## Left out

- Writer continuation authorizations, the fifth record type of the record store, with their own binding rules.
- Command receipts of the record store, which is a second, simpler copy of the command protocol.
- File handles, links, Win32 calls, directory syncing and temporary names of atomic writes, except the exclusively created temporary authority file.
- Tampered or unparsable lifecycle files: the coordinator's files are read as what was written; its checks of targets, bindings, stages and versions are modelled. The two stores and the checkpoint log do model files that do not read back.
- The textual form of record ids and physical keys is kept structured; slug and length limits on ids are not modelled.
- The field validation rules of a decision beyond its identity, its evidence bindings and the types of its optional candidates; preflight takes their outcome as an input.
- The identity of a decision is kept beside its tree, which holds it as well; the two are not compared.
- In evidence read from a decision, an asserted value that is an enumeration member, which never agrees with a source, makes the reference unreadable.
- In preflight, values that are not tuples or plans count as unreadable, and the wording of issues and repair hints is dropped, so duplicates are judged by code and place only.
- Unicode case folding, Unicode digits in paths, floating point leaves, timestamps and time zones.
- Timestamps and audit entries of stored items; an item is its content, evidence, status and approver.
- CommandBoundary.Boundary.ExecuteCommand: does not model the in-memory mode without a store, nor the request checks and fingerprint that precede the reservation.
- ChapterOrchestrator.ChapterProductionOrchestrator.RecordEngagementReview: takes the checks of the artifact and the appended review record as done; only the checkpoint is modelled.
- ChapterOrchestrator.ChapterProductionOrchestrator.RecordFulfillment: takes the checks of the artifact, the appended records and the evaluator's verdict as parameters.
- ContractLifecycle.ContractLifecycleCoordinator.PrepareActivation: takes whether the baseline sources resolve, and what evidence sources they resolve to, as parameters.
- SwitchRecovery.OneActiveVersion: speaks about one switch that is finished before the next one begins; a switch that is abandoned after moving the pointer leaves its old version active.
- LifecycleRuns.RunsKeepInv: does not claim that the prepare journal of a candidate never goes back, because a retry rewrites its first stage; only the committed stage is final.
- Approval.RequiredReapprovals: takes the reported change paths and event paths as already checked for form, duplicates and domain by their constructors.
- The decision evidence inside approval records, and the applicability context of the approval policy.
- Looking up records without a rule set, listing contract versions, plain record loads, and everything around language models, HTTP, the console and scripts.
