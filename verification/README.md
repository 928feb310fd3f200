# A versioned research store, verified

This project models the research store's tables, the transactions that write them and the
algorithms that read them, and proves what they keep. SQLite tables are maps and sequences, one
`transaction` is one atomic step that either happens or leaves no trace, and a generated identifier is an
argument, so a clash with an existing key is one more outcome. Hashes and other foreign answers are
arbitrary functions; nothing assumes that a hash is injective.

The code that changes tables or files appears twice. Methods on handles (`BranchStore`, `DecisionStore`,
`ArtifactStore`, `Disclosure.Gateway`, `LifecycleStore`, `ClaimStore`, `Readiness`) follow the source statement by
statement and loop by loop; their contracts equate the new state and the answer with a specification
function of the old state. The lemmas are about those functions and about runs of them.

| modules | subject |
|---|---|
| `Texts`, `Graph` | code-unit texts and sorting; dependency walks and the two breadth-first searches |
| `Tables`, `Branches`, `Registration`, `Decisions` | rows, and what each transaction writes and answers |
| `Invariants`, `LedgerInvariants`, `Store` | the table invariants, the command machine and its runs |
| `Refinement`, `Guarantees`, `DecisionGuarantees`, `Readiness` | the refinement to one list of maps per branch, replay, impact, decisions, readiness |
| `BranchOutcomes`, `Adoptions`, `DecisionOutcomes` | when each branch and decision command is accepted, and what the others answer |
| `BranchStore`, `DecisionStore` | the branch and decision transactions as they run |
| `Artifacts`, `ArtifactStore` | artifact files under crashes and exceptions at every step |
| `Disclosure` | inherited restrictions and disclosure decisions |
| `Json`, `CanonicalForm`, `Authorization` | the canonical printer, the snapshot comparator, scope matching |
| `Lifecycle`, `LifecycleRuns`, `LifecycleStore` | fences, checkpoints and quarantine |
| `Claims`, `ClaimStore`, `ClaimGuarantees`, `ClaimOutcomes` | cached claim support, also when calls are cut between their statements |

The results are the lemmas of `Refinement`, `Guarantees`, `DecisionGuarantees`, `LifecycleRuns`, `ClaimGuarantees`,
`CanonicalForm`, `Authorization`, `Artifacts`, `Disclosure` and the three modules of outcomes. Methods with loops or rollback (the two searches,
`InsertDependencies`, `RecordImpacts`, `PromoteBranch`, `CarryThenCommit`, `ReassessClaims`, `EffectiveRestriction`) carry
proofs of their own; the straight-line ones mainly tie the code's statements to the functions those lemmas are about.

Where the code does less than its reader may expect, the model follows the code and says exactly what holds:

- The canonical printer does not tell null from a number that is not finite, which JSON text such as `1e999`
  parses to (`CanonicalForm.OverflowPrintsAsNull`); `CanonicalForm.CanonicalDecidesSettled` is the statement for all values.
- The snapshot comparator is not reflexive on NaN (`CanonicalForm.SameIsEquivalence`).
- `setEqual` decides set equality on lists without repetitions (`DecisionGuarantees.SetEqualDecides`), which is what all its
  callers pass; on others it does not (`DecisionGuarantees.SetEqualFooled`).
- The destinations that survive a combination depend on the order in which the sources are given
  (`Disclosure.CombinationDependsOnOrder`); `Disclosure.OrderIrrelevantExactly` says when they do not.
- A registered file whose path looks temporary is lost to the next recovery (`Artifacts.TemporaryPathIsLost`,
  `Artifacts.SurvivesExactly`).
- A claim's support is inserted for and updated in two statements. A crash between them leaves it stale, and sending the
  command again does not repair it (`ClaimGuarantees.StaleIsReachable`, `ReplayRepairsNothing`);
  `ClaimGuarantees.SupportExactly` says exactly which stored supports are current.
- A source notice corrects and reassesses in two transactions. One cut between them never reassesses anything
  (`ClaimGuarantees.CutNoticeIsLost`).
- The two searches are dual exactly on graphs without cycles, which registration guarantees.

Verify everything with `dafny verify dfyconfig.toml`.

## Model

| member | source | states |
|---|---|---|
| Graph.DependentVersions | src/branches/dependency-store.ts:13-36 | The reverse search ends on every finite edge list, cyclic ones too, and returns exactly the versions from which a non-empty walk of dependencies leads to the source |
| Graph.BuildReverse | src/branches/dependency-store.ts:14-20 | The map built first lists, under each version, exactly its direct dependants |
| Graph.Mark | src/branches/dependency-store.ts:24-34 | One round adds the dependants not met before to the result and queues exactly those |
| Graph.ResolveTransitiveVersions | src/policy/disclosure-gateway.ts:20-46 | The forward search ends and returns, each once and in breadth-first order of discovery, exactly the versions reachable from the roots by a walk that avoids the empty identifier |
| Graph.RootsFirst | src/policy/disclosure-gateway.ts:25-43 | It lists the named roots first, in the order they are given, whatever the dependencies |
| Graph.ClosedRootsAsGiven | src/policy/disclosure-gateway.ts:25-43 | Roots that need nothing beside themselves are listed exactly as given |
| Graph.Enqueue | src/policy/disclosure-gateway.ts:38-42 | Queues exactly the dependencies not met before, in row order |
| Graph.ResolvesIsReaches | src/policy/disclosure-gateway.ts:26-43 | With no empty identifier about, what the search skips is irrelevant: it resolves plain reachability |
| Graph.SearchesAreDual | src/branches/dependency-store.ts:13-36 | On an acyclic graph v is found from s by the reverse search exactly when v differs from s and s is resolved from v |
| Graph.DualExactlyWhenAcyclic | src/policy/disclosure-gateway.ts:20-46 | The two searches are dual for all pairs if and only if the graph has no cycle |
| Graph.NewVersionKeepsAcyclic | src/artifacts/artifact-store.ts:181-213 | A new version whose dependencies exist already closes no cycle and leaves both ends of every edge present |
| BranchStore.CreateBranch | src/branches/branch-store.ts:67-99 | Writes the branch row, its first snapshot, a copy of the parent head and the history entry, or nothing when a key is taken |
| BranchStore.InsertBranch | src/branches/branch-store.ts:77-85 | The three inserts of a fork, none of them when the id, name or snapshot is taken |
| BranchStore.CopyBranchSnapshot | src/branches/branch-store.ts:101-115 | Adds one snapshot row and a full copy of the old snapshot's references under the new snapshot |
| BranchStore.InsertHistory | src/persistence/history-store.ts:37-66 | Appends one entry exactly when its command id is new |
| BranchStore.WriteReferences | src/branches/promotion-store.ts:114-118 | The upserts leave the copied map overridden by the changed references, later ones winning |
| BranchStore.CopyAndWrite | src/branches/promotion-store.ts:112-118 | The new snapshot holds the old head overridden by the changes; no other snapshot changes |
| BranchStore.UpdateBranchReference | src/branches/branch-store.ts:127-177 | Each of its outcomes (bad version, blocked, unknown artifact, other logical object, replay, stale, accepted) with exactly the tables it leaves |
| BranchStore.PromoteBranch | src/branches/promotion-store.ts:48-157 | Each of its outcomes with the tables it leaves, undone completely when a later statement throws |
| BranchStore.CollectChanged | src/branches/promotion-store.ts:79-88 | The loop yields the references that differ, in order, or the first logical id the source lacks |
| BranchStore.CarryChanged | src/branches/promotion-store.ts:89-156 | From the changed references on: the no-op entry, or the new snapshot, impact rows, head and entry |
| BranchStore.RecordImpacts | src/branches/promotion-store.ts:120-135 | The loops over changes and their dependants insert the impact rows and return the impacted set of the specification |
| BranchStore.AffectedNow | src/branches/promotion-store.ts:122-128 | The candidates of one change: dependants of the new version and of the one it replaces |
| BranchStore.AddImpact | src/branches/dependency-store.ts:38-50 | Inserts a row unless its unique key is present, in which case the older row stays |
| BranchStore.RecordSharedSourceCorrection | src/branches/dependency-store.ts:86-130 | Each outcome of a correction with the rows it leaves |
| BranchStore.RecordCorrectionImpacts | src/branches/dependency-store.ts:106-117 | The loop over branches and their references adds exactly the rows of the specification |
| BranchStore.CompareBranchReferences | src/decisions/alternative-store.ts:22-37 | Lists, ascending, exactly the logical ids at which the two heads differ, with both versions |
| BranchStore.DifferencesExact | src/decisions/alternative-store.ts:27-35 | A logical id is listed exactly when the two heads differ on it, and then with both sides |
| Registration.RegisteredExactly | src/artifacts/artifact-store.ts:181-213 | The transaction commits if and only if the store is ready, id and label are free and the dependencies are acceptable; then it adds the version and one row per dependency |
| Registration.DependencyRowsExactly | src/artifacts/artifact-store.ts:196-212 | The loop succeeds if and only if every dependency exists, is another version, has a relation that is not blank and is not repeated; then its rows are theirs, in order |
| ArtifactStore.InsertArtifact | src/artifacts/artifact-store.ts:181-213 | Version row and dependency rows are written together or not at all, with the error of the first round that throws |
| ArtifactStore.InsertDependencies | src/artifacts/artifact-store.ts:196-212 | The loop stops at the first self-reference, blank relation, unknown or repeated dependency |
| ArtifactStore.FailureIsFinal | src/artifacts/artifact-store.ts:196-212 | The first failing dependency decides the error, whatever follows it |
| Invariants.EffectKeeps | src/branches/branch-store.ts:148-176 | Every allowed write keeps all table invariants, and snapshots, references in them and history only ever grow |
| Guarantees.ReferencesTypedAlways | src/branches/branch-store.ts:117-141 | In every reachable state, discards included, every reference of every snapshot maps a logical id to a version registered under that id |
| Invariants.AppendsKeeps | src/branches/promotion-store.ts:111-147 | Appending a snapshot to a branch keeps heads, numbering, ownership, typing and the history chain |
| Invariants.ForksKeeps | src/branches/branch-store.ts:76-97 | Forking keeps them too |
| Invariants.AddsVersionKeeps | src/artifacts/artifact-store.ts:181-213 | So does registering a version with its dependencies |
| Invariants.DropsVersionKeeps | src/artifacts/artifact-store.ts:256-264 | So does discarding one: nothing that stays refers to it |
| Store.PlanAllowed | src/branches/branch-store.ts:117-176 | What each command plans is allowed: only versions registered under a logical id are ever referenced under it |
| Store.StepKeeps | src/branches/promotion-store.ts:48-157 | Every command, in every outcome, keeps the branch, graph and decision invariants together |
| Store.InitialSound | src/project/project-store.ts:245-261 | A new project, with its main branch at revision 0 on one snapshot without a parent, satisfies them |
| Store.Run | src/branches/branch-store.ts:148-176 | So does every state any run of commands reaches from a sound one |
| Refinement.StepRefines | src/branches/promotion-store.ts:76-136 | Seen as one list of maps per branch, each accepted command does exactly the simple step on the lists (append m[k := v], append the override by the carried ids, start a list with the parent's last map); all others change no list |
| Refinement.RunExtendsLines | src/branches/branch-store.ts:101-115 | Over any run every earlier list is a prefix of the later one: no map is altered and no branch touches another's list |
| Refinement.CarryRefines | src/decisions/alternative-store.ts:145-182 | Promotion and adoption append the destination overridden by the carried ids, or nothing when that equals the head |
| Refinement.SnapshotIsEntry | src/branches/branch-store.ts:48-56 | The references of the snapshot with revision r are entry r of its branch's list |
| Refinement.LineOfBranch | src/branches/branch-store.ts:58-65 | A list is one longer than the branch's revision and ends with its current references |
| Refinement.UpdateRefines | src/branches/branch-store.ts:157-163 | An accepted update appends the head with one logical id rebound |
| Refinement.PromoteRefines | src/branches/promotion-store.ts:76-118 | An accepted promotion appends the override by the promoted ids |
| Refinement.AdoptRefines | src/decisions/alternative-store.ts:136-182 | An accepted adoption appends the override by the adopted ids: those requested, or else those of the chosen versions, each of which the source maps to a chosen version |
| Refinement.CreateRefines | src/branches/branch-store.ts:76-97 | A fork starts a list with the parent's last map |
| Refinement.NothingDiffers | src/branches/promotion-store.ts:85-89 | No reference changes exactly when the override equals the destination |
| Refinement.PromotedIdsElements | src/branches/promotion-store.ts:78 | Without a selection the promoted ids are all those of the source head |
| Guarantees.RevisionsComplete | src/branches/branch-store.ts:157-174 | In every reachable state a branch at revision n has exactly one snapshot per revision 0..n, each the parent of the next, the first hanging from the fork point, and its history entries chain up to n |
| Guarantees.RootOf | src/branches/branch-store.ts:80-82 | Walking parents from any snapshot ends at one without a parent |
| Guarantees.UpdateOnce | src/branches/branch-store.ts:148-156 | An accepted update saw the current revision; repeated after any run it changes nothing and answers with its recorded revision and snapshot; a different hash under its command is rejected |
| Guarantees.PromotionOnce | src/branches/promotion-store.ts:48-75 | The same for promotions, no-op ones included |
| Guarantees.OneEffectPerCommand | src/persistence/history-store.ts:15-19 | A command id that had an effect, as a fork, update, promotion, correction or adoption, has no other in any later state, as whichever of these it is sent again |
| Guarantees.CorrectionOnce | src/branches/dependency-store.ts:93-105 | An accepted correction sent again after any run changes nothing and answers with its first rows if and only if its version is still registered |
| Guarantees.Remembered | src/persistence/history-store.ts:15-19 | What a command recorded is what its id finds in every later state |
| Guarantees.VersionHolds | src/artifacts/artifact-store.ts:256-264 | A version an update put on a branch is never discarded afterwards |
| Guarantees.GraphSound | src/artifacts/artifact-store.ts:181-213 | In every reachable state the graph is closed and acyclic and the two searches are dual |
| Guarantees.ImpactExact | src/branches/promotion-store.ts:119-135 | The impacted versions are exactly the destination references that depend on a changed version or on the one it replaced |
| Guarantees.ImpactRowsExact | src/branches/promotion-store.ts:121-134 | The rows added are one per impacted version, each naming a change that touches it; earlier rows stay |
| Guarantees.PromotionImpactExact | src/branches/promotion-store.ts:76-135 | On every sound state an accepted promotion reports exactly the references on which the two heads differ and exactly the references that depend on them, and its command has exactly one impact row for each of the latter |
| Guarantees.AdoptionImpactExact | src/decisions/alternative-store.ts:136-175 | The same for an accepted adoption |
| Guarantees.CarryImpactExact | src/branches/promotion-store.ts:79-135 | The writes common to both have exactly the impact they report |
| Guarantees.CorrectionExact | src/branches/dependency-store.ts:106-117 | A correction adds exactly the pairs of branch and current reference that are the source or depend on it, and alters no other row |
| Guarantees.CorrectionReplyExact | src/branches/dependency-store.ts:74-79 | On every sound state a fresh correction answers with, and leaves under its command, the rows of exactly those pairs |
| Guarantees.NoRowsUnder | src/branches/dependency-store.ts:38-50 | A command the history does not know has no impact row |
| BranchOutcomes.UpdateAcceptedExactly | src/branches/branch-store.ts:127-177 | An update is accepted if and only if the store is ready, the expected revision is not negative and is the branch's, the version is registered under the logical id, no entry has the command and the snapshot id is free; then its reply, snapshot and entry are these |
| BranchOutcomes.UpdateRefusedExactly | src/branches/branch-store.ts:127-158 | Stale exactly when only the revision differs, with the current revision and snapshot; blocked exactly on a store that is not ready; and exactly when it throws |
| BranchOutcomes.UpdateReplayedExactly | src/branches/branch-store.ts:148-153 | A used command answers with the entry recorded under it, as a duplicate if and only if the payload hashes agree |
| BranchOutcomes.PromotionAcceptedExactly | src/branches/promotion-store.ts:48-157 | A promotion is accepted if and only if it names two existing branches of a ready store, its command is unused, it saw the destination's revision, asks only for what the source has, and changes nothing or has a free snapshot id; it moves the destination on exactly when the heads disagree on an id it asks for |
| BranchOutcomes.PromotionRefusedExactly | src/branches/promotion-store.ts:48-88 | Stale exactly when only the revision differs; and exactly when it is blocked or throws |
| BranchOutcomes.PromotionReplayedExactly | src/branches/promotion-store.ts:49-62 | A used command answers with its entry, as a duplicate if and only if the payload hashes agree |
| BranchOutcomes.ForkAcceptedExactly | src/branches/branch-store.ts:67-99 | A fork succeeds if and only if the store is ready, the parent exists, id, name and snapshot id are free and no entry has its command |
| BranchOutcomes.CorrectionAcceptedExactly | src/branches/dependency-store.ts:86-130 | A correction answers with rows if and only if the store is ready, the notice says something, the version is registered and the command is unused or was used for the same correction |
| BranchOutcomes.DiscardedExactly | src/artifacts/artifact-store.ts:241-264 | A version is dropped if and only if the store is ready, it is registered, no dependency touches it and no reference, impact row or other table holds it |
| DecisionGuarantees.AllPromoted | src/branches/promotion-store.ts:76-118 | After an accepted promotion of everything the destination has every version of the source, which is unchanged |
| DecisionGuarantees.OnlyMissingRemain | src/decisions/alternative-store.ts:29-35 | So every difference left has a null source version |
| DecisionGuarantees.PromotionSettles | src/branches/promotion-store.ts:89-110 | Promoting everything again under a new command changes no revision and no reference |
| DecisionGuarantees.FirstOf | src/decisions/decision-store.ts:169-188 | Walking packet parents ends at a packet of version 1 |
| DecisionGuarantees.LinesDoNotBranch | src/decisions/decision-store.ts:181-187 | Two packets of one line with one version are the same packet |
| DecisionGuarantees.DecisionsCorrespond | src/decisions/decision-store.ts:293-309 | In every reachable state approved decisions and commitments pair off one to one, agreeing on packet, branch, revision and selection, and each commitment selects a non-empty set of packet candidates |
| DecisionGuarantees.SetEqualDecides | src/decisions/decision-helpers.ts:63-69 | On duplicate-free lists the comparison decides set equality |
| DecisionGuarantees.SetEqualFooled | src/decisions/decision-helpers.ts:63-69 | On lists with repetitions, which no caller passes, it does not: two copies of a pass for a and b |
| DecisionGuarantees.AdoptionCommitsOnce | src/decisions/alternative-store.ts:188-208 | On every sound state an accepted adoption adds one decision and its commitment exactly when no approved decision on the packet selects the same set; else it answers with the commitment there is |
| LedgerInvariants.ReviseKeepsLedger | src/decisions/decision-store.ts:169-188 | A revision keeps version(child) = version(parent) + 1 and at most one child |
| LedgerInvariants.DecideKeepsLedger | src/decisions/decision-store.ts:274-313 | Recording a decision keeps the pairing of approvals and commitments |
| LedgerInvariants.SetStatusKeepsLedger | src/decisions/decision-lifecycle-store.ts:54-81 | Reopening, archiving and superseding keep it |
| LedgerInvariants.AdoptKeepsLedger | src/decisions/alternative-store.ts:188-208 | So does adoption |
| DecisionStore.InsertDecisionPacket | src/decisions/decision-store.ts:85-160 | Every refusal in its order, or exactly one new packet row |
| DecisionStore.CreateDecisionPacket | src/decisions/decision-store.ts:162-167 | A packet with a parent or a version other than 1 is refused here |
| DecisionStore.ReviseDecisionPacket | src/decisions/decision-store.ts:169-188 | An existing child is returned unchanged, else the child row is inserted |
| DecisionStore.InsertCommitment | src/decisions/commitment-store.ts:42-72 | Row and event together, or neither |
| DecisionStore.ApproveAndCommit | src/decisions/decision-store.ts:293-309 | Decision, commitment and the link between them, or nothing |
| DecisionStore.RecordOwnerDecision | src/decisions/decision-store.ts:246-314 | Each outcome with the ledger it leaves |
| DecisionStore.SetCommitmentStatus | src/decisions/commitment-store.ts:186-207 | Changes one status and logs one event unless the command id was seen |
| DecisionStore.ChangePacketStatus | src/decisions/decision-lifecycle-store.ts:22-81 | Each outcome of a lifecycle event with the ledger it leaves |
| DecisionStore.AdoptBranchAlternative | src/decisions/alternative-store.ts:76-214 | Each outcome with both the branch tables and the ledger it leaves; a late failure undoes both |
| DecisionStore.CarryThenCommit | src/decisions/alternative-store.ts:136-208 | Branch writes and ledger writes stand or fall together |
| DecisionStore.RecordAdoption | src/decisions/alternative-store.ts:176-208 | The adoption row, and a decision with its commitment only when none covers the selection |
| Adoptions.ExposedExactly | src/decisions/alternative-store.ts:136-144 | The ids to carry are found if and only if the source maps each adopted id to a chosen version; then they are the adopted ids: those requested, or else those of the chosen versions |
| Adoptions.SelectionIsChosen | src/decisions/alternative-store.ts:102 | The versions selected are those the request names, or else the packet's candidates |
| DecisionOutcomes.AdoptionAcceptedExactly | src/decisions/alternative-store.ts:76-214 | On every sound state an adoption is accepted if and only if it is in order, its command is unused, source and destination are at the revisions of the packet and the request, the source exposes the chosen versions and the identifiers it needs are free |
| DecisionOutcomes.AdoptionRefusedExactly | src/decisions/alternative-store.ts:76-135 | Stale exactly when a revision is not the one seen, the packet's among them; a used command replays its adoption exactly when the payload hashes agree |
| DecisionOutcomes.AdoptedVersionsChosen | src/decisions/alternative-store.ts:136-144 | After an accepted adoption the destination maps every adopted id to a chosen version, the one the source has, and every other id as before |
| DecisionOutcomes.AdoptionRecorded | src/decisions/alternative-store.ts:176-187 | An accepted adoption is recorded as it was answered |
| DecisionOutcomes.AdoptionOnce | src/decisions/alternative-store.ts:114-122 | Sent again after any run, while in order and choosing the same, it answers with the revision, snapshot, changes and impact it first produced |
| DecisionOutcomes.DecisionRecordedExactly | src/decisions/decision-store.ts:246-314 | A decision is recorded if and only if it is in order, its command is unused, the packet is not closed, the branch is at the packet's revision, and its keys are free |
| DecisionOutcomes.RecordedIsAsked | src/decisions/decision-store.ts:274-313 | What is recorded is what was asked, at the packet's revision; an approval adds its commitment, any other disposition none |
| DecisionOutcomes.DecisionRefusedExactly | src/decisions/decision-store.ts:246-292 | Stale exactly on another packet version or revision; a used command answers with its stored decision exactly when the payload hashes agree |
| DecisionOutcomes.PublishedExactly | src/decisions/decision-store.ts:162-167 | A packet is published if and only if it is asked for as a first version and is in order |
| DecisionOutcomes.RevisedExactly | src/decisions/decision-store.ts:169-188 | A revision answers with the packet's child if it has one, and otherwise publishes one, if and only if rationale, branch and parent fit and the new packet is in order |
| DecisionOutcomes.InsertedExactly | src/decisions/decision-store.ts:85-160 | A packet is inserted if and only if its question says something, its snapshot is its branch's at its revision, its candidates are distinct and registered, and id and version are free; the row holds them |
| DecisionOutcomes.StatusSetExactly | src/decisions/decision-lifecycle-store.ts:21-78 | A lifecycle event takes effect if and only if it is in order and its command is unused; it sets the status of the packet and, when it archives or supersedes, of the commitment made last |
| DecisionOutcomes.LastCommitmentFollows | src/decisions/decision-lifecycle-store.ts:66-71 | Archiving or superseding a packet does the same to the commitment made last on it, and to no other |
| DecisionOutcomes.LastDecisionExactly | src/decisions/decision-lifecycle-store.ts:38-41 | The decision consulted is the last on the packet |
| Readiness.AssessReadiness | src/decisions/readiness-store.ts:22-139 | Fails exactly on the refusals, in their order; a known command answers with its stored row and writes nothing; a fresh one stores exactly the assessment it returns, with the causes of every check |
| Readiness.CheckCandidates | src/decisions/readiness-store.ts:46-57 | The candidate causes in order, and the versions they point at |
| Readiness.CheckContent | src/decisions/readiness-store.ts:58-73 | The content causes in order |
| Readiness.CheckImpacts | src/decisions/readiness-store.ts:74-82 | One cause per recorded impact on the commitment's versions |
| Readiness.ReadyExactly | src/decisions/readiness-store.ts:42-121 | A fresh assessment is ready if and only if the branch is at the commitment's revision, its map holds every selected version, all content is available, no impact is recorded, and policy, authorization and packet allow it |
| Readiness.BlockedExactly | src/decisions/readiness-store.ts:110-121 | It is blocked if and only if content is missing, policy or the packet stands against it, the authorization is denied, or its refusal speaks of one of these; it asks for review exactly when neither blocked nor ready |
| Readiness.CausesExactly | src/decisions/readiness-store.ts:42-118 | A cause is listed if and only if it stands: one condition for each kind |
| Readiness.AffectedExactly | src/decisions/readiness-store.ts:42-114 | The versions pointed at are exactly the candidates that are not current, the versions without content, both ends of each impact, and all of them when policy or authorization refuses |
| Readiness.RequestedExactly | src/decisions/readiness-store.ts:22-41 | The commitment assessed is the one named, if there is one, and otherwise the first active one on the packet named |
| Readiness.AnsweredExactly | src/decisions/readiness-store.ts:22-41 | A request is assessed if and only if the store is ready and it leads to a commitment of a known packet on an existing branch, the one it names if it names one |
| Readiness.RunKeepsCommitments | src/decisions/commitment-store.ts:186-207 | Over any run a commitment keeps its branch, revision and selection |
| Readiness.NeverReadyAgain | src/decisions/readiness-store.ts:42-44 | Once the branch has moved past the revision, no fresh assessment of that commitment is ready after any run |
| ArtifactStore.StageFile | src/artifacts/artifact-store.ts:157-178 | Files, the finalized flag and the way the flow goes on, for an interruption before, during or after each file operation |
| ArtifactStore.RegisterArtifactVersion | src/artifacts/artifact-store.ts:123-238 | The whole registration with its catch block, which may itself be cut short, equals the specification of an interrupted attempt |
| ArtifactStore.DiscardArtifactVersion | src/artifacts/artifact-store.ts:241-269 | Row first, file second, either refused or possibly interrupted between |
| ArtifactStore.ListTemporaryFiles | src/artifacts/artifact-store.ts:316-319 | Exactly the files of a temporary shape |
| ArtifactStore.Sweep | src/branches/recovery.ts:167-169 | Removes temporary files only and reports them, all of them unless it is cut short; a store that is not ready is left alone |
| Artifacts.AttemptSafe | src/artifacts/artifact-store.ts:150-238 | Interrupted anywhere, a registration leaves every committed row its file, unchanged, with the recorded hash and length |
| Artifacts.FaultlessExactly | src/artifacts/artifact-store.ts:123-238 | Without faults a registration succeeds if and only if its identifiers name something, its content is there and has the expected hash, its paths are free and its row can be committed; then row, file and nothing else are as described |
| Artifacts.MismatchRefused | src/artifacts/artifact-store.ts:145-149 | Content whose hash is not the expected one is never registered, whatever faults, and leaves no trace |
| Artifacts.InspectedExactly | src/artifacts/artifact-store.ts:276-303 | Available, missing, corrupt or unavailable: one condition for each over row and file |
| Artifacts.DiscardRemovesFile | src/artifacts/artifact-store.ts:254-268 | A discard that runs to its end removes the file of its row, and no other |
| Artifacts.PathsExactly | src/artifacts/artifact-store.ts:150-152 | Content goes where it is told, else by hash and id |
| Artifacts.TempShapedExactly | src/artifacts/artifact-store.ts:316-319 | The temporary shapes, spelled out |
| Artifacts.RaisedLeavesNoTrace | src/artifacts/artifact-store.ts:219-225 | An exception before the commit whose clean-up completes leaves no row and no file |
| Artifacts.DiscardSafe | src/artifacts/artifact-store.ts:254-268 | A discard removes no other row's file, and a crash in it leaves no row without its file |
| Artifacts.CrashSafe | src/artifacts/artifact-store.ts:150-238 | After any run of interrupted registrations, discards and sweeps no committed row is missing or corrupt, and a completed sweep leaves no temporary file |
| Artifacts.BytesNeverChange | src/artifacts/artifact-store.ts:170-173 | Between any two states of a run between which a version stays registered, its row and the bytes of its file are the same |
| Artifacts.SurvivesExactly | src/branches/recovery.ts:167-169 | A registered file survives the sweep if and only if its path does not look temporary |
| Artifacts.TemporaryPathIsLost | src/artifacts/artifact-store.ts:150-151 | A registration under the path a.tmp is accepted, and its row points at nothing after the next sweep |
| Disclosure.EffectiveRestriction | src/policy/disclosure-gateway.ts:48-141 | Folds over exactly the closure: flags, highest label, notes, transformations, and the destinations and purposes that combine |
| Disclosure.ReadVersion | src/policy/disclosure-gateway.ts:73-122 | What one version adds to each accumulator |
| Disclosure.ReadPermissions | src/policy/disclosure-gateway.ts:92-110 | What the loop over its permissions collects |
| Disclosure.IntersectSets | src/policy/disclosure-gateway.ts:143-155 | Exactly the items of the first set that every set has or admits by the wildcard |
| Disclosure.SetsExact | src/policy/disclosure-gateway.ts:112-126 | In terms of permissions: named by the first version with an active one, and granted by all of them |
| Disclosure.OrderIrrelevantExactly | src/policy/disclosure-gateway.ts:124-126 | The combination is the same for every order of the closure if and only if every name all versions admit and some version names is named by every version with an active permission |
| Disclosure.EveryOrderIsAListing | src/policy/disclosure-gateway.ts:24-45 | Sources that need nothing else are listed in the order the request gives them, so every order occurs |
| Disclosure.CombinationDependsOnOrder | src/policy/disclosure-gateway.ts:143-155 | On a store without dependencies the sources a, b and b, a are offered different destinations when a grants the wildcard and b one place: none, and that place |
| Disclosure.RestrictionsInherited | src/policy/disclosure-gateway.ts:48-141 | If the closure of T contains that of S, every flag and note of S holds for T and T's highest rank is at least S's, unknown labels ranking 1 |
| Disclosure.DerivedIsWider | src/policy/disclosure-gateway.ts:20-46 | Material that reaches every source has a closure that contains theirs |
| Disclosure.RegistrationInherits | src/artifacts/artifact-store.ts:196-212 | Registering over a dependency makes the new version resolve to all it resolves to |
| Disclosure.Gateway.RequestDisclosure | src/policy/disclosure-gateway.ts:309-559 | Decides as specified over the closure and logs exactly that decision when the store is writable |
| Disclosure.Gateway.RecordDecision | src/policy/disclosure-gateway.ts:561-595 | Appends to the log exactly when writable |
| Disclosure.DeniedOnFlagsExactly | src/policy/disclosure-gateway.ts:459-512 | A non-local request with sources is denied on the flags if and only if the closure is local-only, withdrawn or expired |
| Disclosure.DenialInherited | src/policy/disclosure-gateway.ts:459-512 | A denial on the flags for S is a denial for every non-local request over a wider closure, whatever policy evaluation says |
| Disclosure.AllowedIsClear | src/policy/disclosure-gateway.ts:459-540 | An allowed non-local request has every version behind it classified, permitted, and free of withdrawn or expired permissions |
| Disclosure.HighestOutranks | src/policy/disclosure-gateway.ts:65-83 | No label met outranks the highest, and it is one of them unless it is public |
| Disclosure.HighestNext | src/policy/disclosure-gateway.ts:73-83 | One more version keeps it the strictest label met, the last unknown one when nothing stricter than public is known |
| Disclosure.RanksInOrder | src/policy/disclosure-gateway.ts:65-82 | The order of the four labels, and the place of unknown ones: with confidential |
| Disclosure.NotesExactly | src/policy/disclosure-gateway.ts:73-110 | Which notes a version adds |
| Disclosure.FlagsExactly | src/policy/disclosure-gateway.ts:459-512 | Which flag a request is denied on, in terms of the versions behind it: local-only when one lacks a classification or permission, else withdrawn, else expired |
| Disclosure.SourcelessExactly | src/policy/disclosure-gateway.ts:336-451 | Without sources a request is allowed if and only if it is diagnostics or telemetry of operations only and stays local, or goes to an explicit place for an explicit purpose with the owner's opt-in |
| Disclosure.SourcedExactly | src/policy/disclosure-gateway.ts:317-559 | With sources: denied for an unknown operation and on a flag going out; allowed when it stays local; left to policy otherwise |
| Json.QuoteUnique | src/ethics/authorization-assessment.ts:64-66 | A printed string is uniquely decodable whatever follows it, lone surrogates included |
| Json.JoinUnique | src/ethics/authorization-assessment.ts:61 | A comma-joined list is uniquely decodable when its parts are |
| Json.CanonicalSeparable | src/ethics/authorization-assessment.ts:59-67 | Before a delimiter or the end, no printing of a value is mistaken for another |
| CanonicalForm.LabelsAgree | src/ethics/authorization-assessment.ts:61 | Two labellings with the same equalities agree on what is a permutation |
| CanonicalForm.CanonicalDecides | src/ethics/authorization-assessment.ts:59-67 | Finite values print the same if and only if they are equal as bags: up to the order of array elements and object keys at every depth |
| CanonicalForm.CanonicalDecidesSettled | src/ethics/authorization-assessment.ts:59-67 | For all values: the printer forgets the two orders and the difference between null and numbers that are not finite, and nothing else |
| CanonicalForm.OverflowPrintsAsNull | src/ethics/authorization-assessment.ts:66 | A number that overflowed prints as null does, so finiteness is needed above |
| CanonicalForm.SameDecides | src/lifecycle/lifecycle-gate.ts:98-110 | The comparator holds if and only if the values are equal up to key order and hold no NaN |
| CanonicalForm.SameIsEquivalence | src/lifecycle/lifecycle-gate.ts:98-110 | It is symmetric and transitive, and reflexive exactly on values without NaN |
| CanonicalForm.SameImpliesCanonical | src/lifecycle/lifecycle-gate.ts:98-110 | What it accepts prints the same |
| CanonicalForm.CanonicalIsCoarser | src/lifecycle/lifecycle-gate.ts:100 | Not conversely: it keeps the order of arrays, which the printer forgets |
| Texts.SortDecidesPermutation | src/ethics/authorization-assessment.ts:61 | Sorting by code units forgets exactly the order |
| Authorization.ConditionsDecided | src/ethics/authorization-assessment.ts:69-80 | Two arrays are covered exactly when they are equal as bags; one authorized condition, or one requested label, also stands for itself |
| Authorization.ScopeDecides | src/ethics/authorization-assessment.ts:82-208 | No mismatch if and only if the scope permits: for an object, population or data use is documented and each of the six dimensions is documented exactly if supplied, well-formed and covering; for a label, exactly one of the two is asked and like it |
| Authorization.TextDecided | src/ethics/authorization-assessment.ts:115-125 | One text dimension: no complaint exactly when documented and supplied agree |
| Authorization.ClassesDecided | src/ethics/authorization-assessment.ts:127-145 | Every requested class is like an authorized one, in a proper array |
| Authorization.PermittedExactly | src/ethics/authorization-assessment.ts:220-297 | The flag: permitted if and only if the newest record naming the activity is in force and its scope permits the checked context; older records never count |
| Authorization.StatusExactly | src/ethics/authorization-assessment.ts:220-297 | The status over the rows: withdrawn exactly when the newest row of the activity is; expired exactly when it is expired or past its readable time; pending and unknown as recorded; needs-review exactly when it is in force and does not permit, or the context is not proper; unauthorized otherwise |
| Authorization.RowStatusExactly | src/ethics/authorization-assessment.ts:260-296 | The same for one row, one condition for each status, with the row named |
| Authorization.ProperExactly | src/ethics/authorization-assessment.ts:229-239 | A context is proper if and only if every text it gives says something, its classes are a non-empty list of such texts and its conditions are not null |
| Authorization.CheckedExactly | src/ethics/authorization-assessment.ts:229-239 | What is checked of a proper context is what it gives |
| Authorization.ScopeReads | src/ethics/authorization-assessment.ts:27-34 | A dimension is documented under the first of its two spellings |
| CanonicalForm.ValueAtExactly | src/ethics/authorization-assessment.ts:27-34 | What is read under a key is the first field with that key |
| Authorization.NewestIsFirst | src/ethics/authorization-assessment.ts:247-258 | The record consulted is the newest that names the activity |
| Authorization.PermissionNarrows | src/ethics/authorization-assessment.ts:82-208 | Permission survives asking for no more: alike labels, some of the classes, conditions in another order |
| Authorization.PermittedStays | src/ethics/authorization-assessment.ts:291-296 | So does the whole verdict |
| Authorization.NarrowerClassesPermitted | src/ethics/authorization-assessment.ts:136-141 | In particular for any non-empty part of the data classes |
| Lifecycle.InputsFinding | src/lifecycle/lifecycle-gate.ts:493-591 | The inputs pass exactly when each does; otherwise one of them is the reason |
| Lifecycle.FirstDiffering | src/lifecycle/lifecycle-gate.ts:382-396 | No field differs exactly when each supplied one that is recorded is the same |
| Lifecycle.InputsExactly | src/lifecycle/lifecycle-gate.ts:112-139 | The inputs are every element of an array snapshot, or of an array under versionIds, in order and no others; a text under inputVersionId only when versionIds holds no array, and under inputVersion only after that; a snapshot that does not parse is its trimmed self |
| Lifecycle.ActivityReads | src/lifecycle/lifecycle-gate.ts:58-67 | The activity read is the known one the snapshot holds; anything else held there is invalid |
| Lifecycle.RecordedReads | src/lifecycle/lifecycle-gate.ts:69-96 | Each context field is read from the snapshot under its own key |
| LifecycleStore.Gate.CreateLifecycleOperation | src/lifecycle/lifecycle-gate.ts:141-182 | Inserts the operation, or throws and changes nothing |
| LifecycleStore.Gate.UpdateStatus | src/lifecycle/lifecycle-gate.ts:207-222 | Overwrites the status, or throws and changes nothing |
| LifecycleStore.Gate.FenceRevokedOperation | src/lifecycle/lifecycle-gate.ts:224-259 | Adds the fence row and sets the status, or neither |
| LifecycleStore.Gate.FindFence | src/lifecycle/lifecycle-gate.ts:305-310 | Tells whether there is a fence, and the reason of the newest |
| LifecycleStore.Gate.CheckLifecyclePolicy | src/lifecycle/lifecycle-gate.ts:291-703 | Status, fence and checkpoint rows of the first check that fails, or a passed checkpoint |
| LifecycleStore.FindObstacle | src/lifecycle/lifecycle-gate.ts:335-692 | The checks in their order |
| LifecycleStore.FindDifference | src/lifecycle/lifecycle-gate.ts:382-396 | The first field supplied otherwise than recorded |
| LifecycleStore.FindUnrecorded | src/lifecycle/lifecycle-gate.ts:464-476 | The first field supplied but not recorded |
| LifecycleStore.FindInAuthorization | src/lifecycle/lifecycle-gate.ts:436-477 | The authorization of the recorded context, and the fence a withdrawn or expired one calls for |
| LifecycleStore.FindInInput | src/lifecycle/lifecycle-gate.ts:493-590 | One input: known, classified, and stopped by policy or by the restrictions of its closure |
| LifecycleStore.FindInInputs | src/lifecycle/lifecycle-gate.ts:480-591 | The first input that is stopped |
| LifecycleStore.Gate.AcceptCandidate | src/lifecycle/lifecycle-gate.ts:705-788 | Settled, quarantined or accepted, with the tables each leaves |
| LifecycleStore.Gate.ResumeOperation | src/lifecycle/lifecycle-gate.ts:790-820 | Running when its check passes, blocked otherwise |
| LifecycleRuns.FencesArePermanent | src/lifecycle/lifecycle-gate.ts:224-266 | Once an operation is fenced, no call in any run passes a check, accepts or resumes it, whatever its status is set to |
| LifecycleRuns.RevocationIsFinal | src/lifecycle/lifecycle-gate.ts:436-566 | A check that finds the authorization withdrawn or expired, a permission withdrawn, or policy denying for a withdrawal, fences: renewing any of them changes nothing. When it finds that is in GoneAuthorizationFences |
| LifecycleRuns.GoneAuthorizationFences | src/lifecycle/lifecycle-gate.ts:436-463 | A check that gets to the authorization of an activity whose newest row is withdrawn or has lapsed fences the operation, and no later call in any run lets it on |
| LifecycleRuns.FencedExactly | src/lifecycle/lifecycle-gate.ts:207-259 | A fence takes hold if and only if the gate is writable and the operation exists, and so does a new status; the fence is there with its reason |
| LifecycleRuns.CreatedExactly | src/lifecycle/lifecycle-gate.ts:141-182 | An operation is created if and only if the gate is writable, it has a type and its id is free; it holds the snapshot and status given |
| LifecycleRuns.StatusAfterCheck | src/lifecycle/lifecycle-gate.ts:291-702 | A check leaves the status alone when it passes or finds a fence or cancellation; otherwise the operation is fenced if a fence was added and blocked if not, and no other operation is touched |
| LifecycleRuns.ReasonTellsStatus | src/lifecycle/lifecycle-gate.ts:305-702 | The reason of a check tells its status: passed, denied or blocked |
| LifecycleRuns.QuarantineIsTheLog | src/lifecycle/lifecycle-gate.ts:726-758 | Over any run the quarantine table grows by exactly one row per refused candidate, in order, with its checkpoint's reason |
| LifecycleRuns.QuarantinedExactly | src/lifecycle/lifecycle-gate.ts:728-758 | A candidate of an open operation is quarantined if and only if its check fails |
| LifecycleRuns.PassesExactly | src/lifecycle/lifecycle-gate.ts:305-702 | A check passes if and only if the operation is neither fenced nor cancelled, the request agrees with the snapshot, its activity is authorized, its protocol current, every input of the snapshot in order, the caller entitled and no command denied |
| LifecycleRuns.ContextReads | src/lifecycle/lifecycle-gate.ts:69-96 | The context authorized is all the snapshot records when that is proper, else nothing |
| LifecycleRuns.AcceptedExactly | src/lifecycle/lifecycle-gate.ts:705-788 | A candidate is accepted if and only if its operation is open, not fenced by row or status, and may proceed to acceptance |
| LifecycleRuns.ResumedExactly | src/lifecycle/lifecycle-gate.ts:790-820 | An operation is resumed if and only if it is not fenced and may proceed to resume |
| LifecycleRuns.PassedIsBound | src/lifecycle/lifecycle-gate.ts:382-396 | With a recorded activity, a passed check means every supplied option equals the snapshot's field and the snapshot's own context is authorized |
| LifecycleRuns.OptionsMoveNoVerdict | src/lifecycle/lifecycle-gate.ts:436-476 | So the options laid over the snapshot's context leave the authorization verdict as it is |
| ClaimStore.ClaimBook.ComputeSupport | src/evidence/claim-store.ts:110-129 | The successive assignments end at the support the rows call for, which SupportMeans spells out |
| ClaimStore.ClaimBook.SomeLink | src/evidence/claim-store.ts:113-117 | Finds a matching link of the claim exactly when there is one |
| ClaimStore.ClaimBook.SomeVerification | src/evidence/claim-store.ts:116-125 | The same for verifications |
| ClaimStore.ClaimBook.UpdateClaimSupport | src/evidence/claim-store.ts:110-132 | Rewrites the stored support of one claim and nothing else |
| ClaimStore.ClaimBook.RecordClaim | src/evidence/claim-store.ts:142-176 | Each outcome with the tables it leaves |
| ClaimStore.ClaimBook.LinkClaimEvidence | src/evidence/claim-store.ts:178-214 | Each outcome with the tables it leaves, cut between insert and update or not |
| ClaimStore.ClaimBook.VerifyCitation | src/evidence/claim-store.ts:248-299 | Each outcome with the tables it leaves, cut between insert and update or not |
| ClaimStore.ClaimBook.InsertReassessment | src/evidence/claim-matrix-store.ts:116-131 | One row and the needs-reassessment mark |
| ClaimStore.ClaimBook.ReassessClaims | src/evidence/claim-matrix-store.ts:94-98 | The loop over the linked claims |
| ClaimStore.ClaimBook.ApplySourceNotice | src/evidence/claim-matrix-store.ts:79-100 | Correction first, then the reassessments, or the duplicate answer, cut between the two transactions or not |
| ClaimGuarantees.SupportExactly | src/evidence/claim-store.ts:207-212 | In every reachable state the stored support of a claim is the recomputation from the rows there were when it was last written; it is current unless an insert for the claim was cut off from its update and nothing wrote the support since, and then exactly when those rows make no difference |
| ClaimGuarantees.UncutIsCurrent | src/evidence/claim-store.ts:206-213 | Without such cuts the stored support of every claim equals the recomputation from the current rows |
| ClaimOutcomes.SupportMeans | src/evidence/claim-store.ts:110-132 | The recomputed support over the rows themselves, one condition for each of the eight values: contested exactly when the claim is not reassessed and has both a supporting and a challenging link, and so on down to unverified |
| ClaimOutcomes.StoredSupportMeans | src/evidence/claim-store.ts:110-132 | In every state of a run without cuts the stored support of every claim is the value whose condition its rows meet |
| ClaimGuarantees.ReplayRepairsNothing | src/evidence/claim-store.ts:186-193 | Sending the command of an inserted link or verification again, after any run, writes nothing |
| ClaimGuarantees.CutLinkIsStale | src/evidence/claim-store.ts:207-212 | A first substantive link cut after its insert leaves the claim unverified though its rows call for substantive support |
| ClaimGuarantees.StaleIsReachable | src/evidence/claim-store.ts:174-212 | Two steps from a new project reach such a state |
| ClaimGuarantees.TraceStepKeeps | src/evidence/claim-matrix-store.ts:94-131 | Every operation, cut or not, and every other command of the project, keeps the account of what each support was computed from |
| Claims.OrderDoesNotMatter | src/evidence/claim-store.ts:111-128 | The recomputation depends on which rows there are, not on their order |
| ClaimGuarantees.ReassessmentIsForever | src/evidence/claim-store.ts:128-129 | After its first reassessment a claim needs reassessment in every later state |
| ClaimGuarantees.NoticeExact | src/evidence/claim-matrix-store.ts:112-131 | A completed notice reassesses exactly the claims linked to its source, each once, with the support it had; one whose command is in the history, or that is cut, reassesses none |
| ClaimGuarantees.NoticeOnce | src/evidence/claim-matrix-store.ts:85-93 | A completed notice sent again after any run writes nothing and answers with the rows the first one wrote if and only if its source is still known |
| ClaimGuarantees.CutNoticeIsLost | src/evidence/claim-matrix-store.ts:85-98 | A notice cut after its correction reassesses nothing in any later state; sent again it writes nothing and, while its source is known, answers as a duplicate with no rows |
| ClaimOutcomes.RecordedExactly | src/evidence/claim-store.ts:142-176 | A claim is recorded anew if and only if the store is ready, it states something under a command that is unused, and its id is free; it starts unverified |
| ClaimOutcomes.LinkedExactly | src/evidence/claim-store.ts:134-140 | A link is inserted if and only if the store is ready, role, claim, item and source are known, the command is unused and the claim has no such link; its status follows from access and excerpt |
| ClaimOutcomes.VerifiedExactly | src/evidence/claim-store.ts:248-299 | A verification is inserted if and only if the store is ready, claim and source are known and the command is unused |
| ClaimOutcomes.CitationMeans | src/evidence/claim-store.ts:253-274 | What it says: identity and access are the source's, and it is substantive only of an identified full text the claim is linked to in substance |
| ClaimOutcomes.ReplayedExactly | src/evidence/claim-store.ts:142-282 | A used command answers with its row exactly when the payload hashes agree, else with a conflict; it writes nothing |
| ClaimOutcomes.NoticeAppliedExactly | src/evidence/claim-matrix-store.ts:79-100 | A notice is applied if and only if the store is ready, it says something, its source is known and registered, its command is unused, and it is not cut; the correction carries its kind and text |

## Left out

- Identifier syntax: only the empty identifier is refused; the pattern `assertIdentifier` checks is not modelled.
- Capabilities and ownership checks on decisions, claims and notices: every caller is taken to be entitled. The lifecycle gate's capability branches are modelled.
- Timestamps: rows are in the order they were written, so ties in `created_at` (the newest fence, the latest decision) are resolved by that order.
- Concurrent processes on one database: each transaction is one step, as SQLite serializes them.
- Queries without an ORDER BY: their rows come in table order, which the discovery order of dependencies rests on; the roots of a search do not depend on it.
- Policy storage: classifications, permissions and `evaluatePolicy` are arbitrary answers, which may change from call to call.
- Protocol currency, command execution and evidence storage: arbitrary answers too.
- Foreign keys of tables outside the model hold a version in `Registration.DiscardRow` through an arbitrary flag.
- Symbolic links, `realpath` and directory walks: the artifact root is a map from paths to bytes, and full paths are taken to be as written.
- The `disk-full` checkpoint row of a failed registration, and the reconciliation of deletion paths in recovery.
- Lookups of labels such as `constructor` through an object's prototype in the sensitivity ranks.
- `undefined` inside conditions and scopes: values are JSON, extended by the numbers JSON cannot print.
- Number printing: a finite number is its printed text, which is the same for 0 and -0.
- `normalize` is an arbitrary function of the text; `trim` for emptiness checks is modelled.
- The keys of an operations-only payload: whether a payload is one is an argument of the disclosure request.
- Reasons and messages are constructors, not sentences; where the code searches a reason for a word, the text is kept.
- Deletion, export and restore, which also remove claim links and artifact rows.
- Parsing of rows and JSON columns, listing functions and report rendering: they add only easy members.
- BranchStore.PromoteBranch: impact rows are a table keyed by the unique index, so the order in which they were inserted is not modelled.
- Artifacts.CrashSafe: paths of artifacts are assumed not to look temporary; Artifacts.SurvivesExactly shows that the assumption is exact.
- Readiness.AssessReadiness: the reason and next-action sentences of the stored row, which are made from its causes, are not modelled.
