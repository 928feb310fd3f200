/** The tables of the project database, as values, and the handle that holds them. */
module Tables {
  import opened Texts
  import opened Graph

  datatype Access = FullText | MetadataOnly | AbstractOnly | Unavailable

  /** A row of `artifact_versions`. */
  datatype VersionRow = VersionRow(
    logicalId: Id, versionLabel: Id, contentHash: Option<Text>, storagePath: Option<Text>,
    byteLength: Option<nat>, access: Access)

  datatype BranchRow = BranchRow(name: Id, parentSnapshot: Option<Id>, current: Id, revision: nat)

  datatype SnapshotRow = SnapshotRow(branch: Id, parent: Option<Id>, revision: nat)

  datatype Operation = BranchCreated | ReferenceUpdated | BranchPromoted | AlternativeAdopted | SourceCorrected

  datatype HistoryRow = HistoryRow(
    branch: Option<Id>, command: Id, operation: Operation, expected: nat, resulting: nat,
    source: Option<Id>, destination: Option<Id>, payloadHash: Text)

  datatype ImpactKind = PromotionImpact | AdoptionImpact | SharedSourceCorrection

  /** The unique key of `impact_records`, and the columns it determines. */
  datatype ImpactKey = ImpactKey(command: Id, branch: Id, dependent: Id, kind: ImpactKind)
  datatype ImpactRow = ImpactRow(source: Id, notice: Text)

  datatype Reference = Reference(logicalId: Id, version: Id)

  /** The tables behind branches and artifacts. `ready` is the handle's writable-and-ready flag. */
  datatype Db = Db(
    ready: bool,
    versions: map<Id, VersionRow>,
    dependencies: seq<DependencyRow>,
    branches: map<Id, BranchRow>,
    snapshots: map<Id, SnapshotRow>,
    references: map<(Id, Id), Id>,
    history: seq<HistoryRow>,
    impacts: map<ImpactKey, ImpactRow>)

  datatype Disposition = Approved | DecisionRejected | Deferred

  datatype PacketStatus = Published | Open | Archived | Superseded

  datatype Packet = Packet(
    version: nat, branch: Id, snapshot: Id, revision: nat, candidates: seq<Id>, dependencies: seq<Id>,
    actions: set<Disposition>, status: PacketStatus, parent: Option<Id>)

  datatype Decision = Decision(
    id: Id, packet: Id, packetVersion: nat, disposition: Disposition, selected: seq<Id>, dependencies: seq<Id>,
    command: Id, branch: Id, revision: nat, commitment: Option<Id>, payloadHash: Text)

  datatype CommitmentStatus = Active | CommitmentArchived | CommitmentSuperseded

  datatype Commitment = Commitment(
    id: Id, decision: Id, packet: Id, packetVersion: nat, branch: Id, revision: nat,
    selected: seq<Id>, dependencies: seq<Id>, status: CommitmentStatus)

  datatype Adoption = Adoption(
    payloadHash: Text, packet: Id, source: Id, destination: Id, revision: nat, snapshot: Id,
    changed: seq<Reference>, impacted: set<Id>)

  /** The tables behind decisions. `commitmentEvents` and `packetEvents` keep the unique
      command ids of the two event tables; decisions and commitments are in row order. */
  datatype Ledger = Ledger(
    packets: map<Id, Packet>,
    decisions: seq<Decision>,
    commitments: seq<Commitment>,
    commitmentEvents: set<Id>,
    packetEvents: map<Id, Text>,
    adoptions: map<Id, Adoption>)

  datatype Error =
    | ReadOnly | InvalidIdentifier | InvalidVersion | InvalidPromotion | InvalidAdoption | InvalidNotice | InvalidDependency
    | InvalidPacket | InvalidArgument | InvalidTransition | BranchNotFound | ArtifactNotFound | PacketNotFound
    | DependencyNotFound | PromotionInvalid | DuplicateCommand | ConstraintViolated

  datatype Status = Accepted | Duplicate | Rejected | Stale | Blocked

  /** What a mutation returns, or the error it throws. */
  datatype Reply =
    | Reply(status: Status, revision: int, snapshot: Option<Id>, changed: seq<Reference>, impacted: set<Id>, commitment: Option<Id>)
    | Impacts(rows: map<ImpactKey, ImpactRow>)
    | PacketReply(packetId: Id)
    | DecisionReply(outcome: DecisionOutcome, decision: Option<Decision>)
    | Done
    | Thrown(error: Error)

  predicate AcceptedBy(reply: Reply)
  {
    reply.Reply? && reply.status.Accepted?
  }

  datatype DecisionOutcome = Recorded(disposition: Disposition) | DecisionDuplicate | DecisionRefused | DecisionStale

  /** What the hashes of `payloadHash` and `commandHash` are taken of. */
  datatype Payload =
    | CreatePayload(branch: Id, name: Id, parent: Id)
    | UpdatePayload(branch: Id, logicalId: Id, version: Id, expected: int)
    | PromotePayload(source: Id, destination: Id, expected: int, logicalIds: Option<seq<Id>>)
    | CorrectionPayload(version: Id, notice: Text)
    | AdoptPayload(packet: Id, source: Id, destination: Id, selected: seq<Id>, logicalIds: Option<seq<Id>>, expectedRevision: Option<int>)
    | DecisionPayload(packet: Id, packetVersion: nat, disposition: Disposition, selected: seq<Id>, dependencies: seq<Id>, rationale: Text)
    | LifecyclePayload(packet: Id, status: PacketStatus, replacement: Option<Id>, reason: Text)

  type Hash = Payload -> Text

  /** `snapshotReferences`: the rows of one snapshot, as the map every caller makes of them. */
  function ReferencesOf(references: map<(Id, Id), Id>, snapshot: Id): map<Id, Id>
  {
    map l | l in (set k | k in references.Keys && k.0 == snapshot :: k.1) :: references[(snapshot, l)]
  }

  function RowsOf(snapshot: Id, m: map<Id, Id>): map<(Id, Id), Id>
  {
    map k | k in (set l | l in m.Keys :: (snapshot, l)) :: m[k.1]
  }

  /** `historyByCommand`. */
  function Command(history: seq<HistoryRow>, command: Id): (row: Option<HistoryRow>)
    ensures row.Some? ==> row.value in history && row.value.command == command
    ensures row.None? <==> forall i :: 0 <= i < |history| ==> history[i].command != command
  {
    if history == [] then None
    else if history[0].command == command then Some(history[0])
    else Command(history[1..], command)
  }

  class Handle {
    var db: Db
    var ledger: Ledger
    const hash: Hash

    constructor (db: Db, ledger: Ledger, hash: Hash)
      ensures this.db == db && this.ledger == ledger && this.hash == hash
    {
      this.db := db;
      this.ledger := ledger;
      this.hash := hash;
    }
  }
}
