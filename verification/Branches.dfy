/** Branch mutations: what each transaction decides, as an effect on the tables.
    `newId` becomes an argument. */
module Branches {
  import opened Texts
  import opened Graph
  import opened Tables

  /** What one transaction writes. A transaction that throws writes nothing. */
  datatype Effect =
    | Nothing
    | Logs(row: HistoryRow)
    | Forks(branch: Id, name: Id, parentSnapshot: Id, snapshot: Id, row: HistoryRow)
    | Appends(branch: Id, snapshot: Id, changed: seq<Reference>, impacts: map<ImpactKey, ImpactRow>, row: HistoryRow)
    | Corrects(impacts: map<ImpactKey, ImpactRow>, row: HistoryRow)
    | AddsVersion(id: Id, version: VersionRow, dependencies: seq<DependencyRow>)
    | DropsVersion(id: Id)

  function Overrides(changed: seq<Reference>): map<Id, Id>
  {
    if changed == [] then map[] else
    var last := changed[|changed| - 1];
    Overrides(changed[..|changed| - 1])[last.logicalId := last.version]
  }

  /** `copyBranchSnapshot` followed by the upserts and the update of the branch row. */
  function Append(db: Db, branch: Id, snapshot: Id, changed: seq<Reference>): Db
    requires branch in db.branches
  {
    var b := db.branches[branch];
    db.(snapshots := db.snapshots[snapshot := SnapshotRow(branch, Some(b.current), b.revision + 1)],
        references := db.references + RowsOf(snapshot, ReferencesOf(db.references, b.current) + Overrides(changed)),
        branches := db.branches[branch := b.(current := snapshot, revision := b.revision + 1)])
  }

  function Fork(db: Db, branch: Id, name: Id, parentSnapshot: Id, snapshot: Id): Db
  {
    db.(branches := db.branches[branch := BranchRow(name, Some(parentSnapshot), snapshot, 0)],
        snapshots := db.snapshots[snapshot := SnapshotRow(branch, Some(parentSnapshot), 0)],
        references := db.references + RowsOf(snapshot, ReferencesOf(db.references, parentSnapshot)))
  }

  function Log(db: Db, row: HistoryRow): Db
  {
    db.(history := db.history + [row])
  }

  function Apply(db: Db, e: Effect): Db
    requires e.Appends? ==> e.branch in db.branches
  {
    match e
    case Nothing => db
    case Logs(row) => Log(db, row)
    case Forks(b, name, parent, s, row) => Log(Fork(db, b, name, parent, s), row)
    case Appends(b, s, changed, impacts, row) => Log(Append(db, b, s, changed).(impacts := impacts), row)
    case Corrects(impacts, row) => Log(db.(impacts := impacts), row)
    case AddsVersion(id, v, deps) => db.(versions := db.versions[id := v], dependencies := db.dependencies + deps)
    case DropsVersion(id) => db.(versions := db.versions - {id})
  }

  function Replied(status: Status, revision: int, snapshot: Option<Id>): Reply
  {
    Reply(status, revision, snapshot, [], {}, None)
  }

  /** `existingMutationResult`. */
  function Replay(row: HistoryRow, payloadHash: Text): Reply
  {
    Replied(if row.payloadHash == payloadHash then Duplicate else Rejected, row.resulting, row.destination)
  }

  // ---------------------------------------------------------------- createBranch

  function CreateCommand(branch: Id): Id { T("branch-create-") + branch }

  predicate NameTaken(db: Db, name: Id)
  {
    exists b :: b in db.branches && db.branches[b].name == name
  }

  ghost function CreateBranch(h: Hash, db: Db, branch: Id, name: Id, parent: Id, newId: Id): (a: (Effect, Reply))
    ensures AcceptedBy(a.1) || a.0 == Nothing
    ensures a.0.Appends? ==> a.0.branch in db.branches
  {
    if !db.ready then (Nothing, Thrown(ReadOnly))
    else if parent !in db.branches then (Nothing, Thrown(BranchNotFound))
    else if branch in db.branches || NameTaken(db, name) || newId in db.snapshots
      || Command(db.history, CreateCommand(branch)).Some? then (Nothing, Thrown(ConstraintViolated))
    else
      var s := db.branches[parent].current;
      var row := HistoryRow(Some(branch), CreateCommand(branch), BranchCreated, 0, 0, Some(s), Some(newId),
                            h(CreatePayload(branch, name, parent)));
      (Forks(branch, name, s, newId, row), Replied(Accepted, 0, Some(newId)))
  }

  // ------------------------------------------------------- updateBranchReference

  datatype UpdateRequest = UpdateRequest(branch: Id, logicalId: Id, version: Id, expected: int, command: Id)

  ghost function UpdateBranchReference(h: Hash, db: Db, r: UpdateRequest, newId: Id): (a: (Effect, Reply))
    ensures AcceptedBy(a.1) || a.0 == Nothing
    ensures a.0.Appends? ==> a.0.branch in db.branches
  {
    if r.expected < 0 then (Nothing, Thrown(InvalidVersion))
    else if !db.ready then (Nothing, Replied(Blocked, r.expected, None))
    else if r.version !in db.versions then (Nothing, Thrown(ArtifactNotFound))
    else if db.versions[r.version].logicalId != r.logicalId then (Nothing, Replied(Rejected, r.expected, None))
    else
      var digest := h(UpdatePayload(r.branch, r.logicalId, r.version, r.expected));
      var existing := Command(db.history, r.command);
      if existing.Some? then (Nothing, Replay(existing.value, digest))
      else if r.branch !in db.branches then (Nothing, Thrown(BranchNotFound))
      else
        var b := db.branches[r.branch];
        if b.revision != r.expected then (Nothing, Replied(Stale, b.revision, Some(b.current)))
        else if newId in db.snapshots then (Nothing, Thrown(ConstraintViolated))
        else
          var row := HistoryRow(Some(r.branch), r.command, ReferenceUpdated, b.revision, b.revision + 1,
                                Some(b.current), Some(newId), digest);
          (Appends(r.branch, newId, [Reference(r.logicalId, r.version)], db.impacts, row),
           Replied(Accepted, b.revision + 1, Some(newId)))
  }

  // --------------------------------------------------------------- promoteBranch

  datatype PromotionRequest = PromotionRequest(source: Id, destination: Id, expected: int, logicalIds: Option<seq<Id>>, command: Id)

  /** The references among `ids` on which the destination disagrees with the source. */
  function Differing(source: map<Id, Id>, destination: map<Id, Id>, ids: seq<Id>): (changed: seq<Reference>)
    requires forall l :: l in ids ==> l in source
  {
    if ids == [] then [] else
    var l := ids[|ids| - 1];
    var init := ids[..|ids| - 1];
    assert forall k :: k in init ==> k in ids;
    var rest := Differing(source, destination, init);
    if l in destination && destination[l] == source[l] then rest else rest + [Reference(l, source[l])]
  }

  /** The versions present in the new map that depend on `version` or on `previous`. */
  ghost function Affected(dependencies: seq<DependencyRow>, present: set<Id>, version: Id, previous: Option<Id>): set<Id>
  {
    set v | v in present && (DependsOn(dependencies, v, version) || (previous.Some? && DependsOn(dependencies, v, previous.value)))
  }

  function Lookup(m: map<Id, Id>, l: Id): Option<Id>
  {
    if l in m then Some(m[l]) else None
  }

  ghost function Impacted(dependencies: seq<DependencyRow>, present: set<Id>, destination: map<Id, Id>, changed: seq<Reference>): set<Id>
  {
    if changed == [] then {} else
    var last := changed[|changed| - 1];
    Impacted(dependencies, present, destination, changed[..|changed| - 1])
      + Affected(dependencies, present, last.version, Lookup(destination, last.logicalId))
  }

  /** `addImpact` for each dependant: `INSERT OR IGNORE` keeps an earlier row of the same key. */
  function AddImpacts(impacts: map<ImpactKey, ImpactRow>, command: Id, branch: Id, source: Id, dependents: set<Id>, kind: ImpactKind, notice: Text): map<ImpactKey, ImpactRow>
  {
    (map k | k in ImpactKeys(command, branch, dependents, kind) :: ImpactRow(source, notice)) + impacts
  }

  function ImpactKeys(command: Id, branch: Id, dependents: set<Id>, kind: ImpactKind): set<ImpactKey>
  {
    set d | d in dependents :: ImpactKey(command, branch, d, kind)
  }

  ghost function ChangeImpacts(impacts: map<ImpactKey, ImpactRow>, command: Id, branch: Id, kind: ImpactKind, notice: Text,
    dependencies: seq<DependencyRow>, present: set<Id>, destination: map<Id, Id>, changed: seq<Reference>): map<ImpactKey, ImpactRow>
  {
    if changed == [] then impacts else
    var last := changed[|changed| - 1];
    var earlier := ChangeImpacts(impacts, command, branch, kind, notice, dependencies, present, destination, changed[..|changed| - 1]);
    AddImpacts(earlier, command, branch, last.version,
      Affected(dependencies, present, last.version, Lookup(destination, last.logicalId)), kind, notice)
  }

  function PROMOTION_NOTICE(): Text { T("promoted version may affect this dependent") }

  ghost function PromotedIds(db: Db, r: PromotionRequest): seq<Id>
    requires r.source in db.branches
  {
    if r.logicalIds.Some? then Sort(Distinct(r.logicalIds.value))
    else Listing(ReferencesOf(db.references, db.branches[r.source].current).Keys)
  }

  function PromotionHash(h: Hash, r: PromotionRequest): Text
  {
    h(PromotePayload(r.source, r.destination, r.expected,
      if r.logicalIds.Some? then Some(Sort(Distinct(r.logicalIds.value))) else None))
  }

  ghost function PromoteBranch(h: Hash, db: Db, r: PromotionRequest, newId: Id): (a: (Effect, Reply))
    ensures AcceptedBy(a.1) || a.0 == Nothing
    ensures a.0.Appends? ==> a.0.branch in db.branches
  {
    if r.source == r.destination then (Nothing, Thrown(InvalidPromotion))
    else if r.expected < 0 then (Nothing, Thrown(InvalidVersion))
    else if !db.ready then (Nothing, Replied(Blocked, r.expected, None))
    else
      var existing := Command(db.history, r.command);
      if existing.Some? then (Nothing, Replay(existing.value, PromotionHash(h, r)))
      else if r.source !in db.branches || r.destination !in db.branches then (Nothing, Thrown(BranchNotFound))
      else if db.branches[r.destination].revision != r.expected then
        (Nothing, Replied(Stale, db.branches[r.destination].revision, None))
      else
        var source := ReferencesOf(db.references, db.branches[r.source].current);
        var ids := PromotedIds(db, r);
        if exists l :: l in ids && l !in source then (Nothing, Thrown(PromotionInvalid))
        else Carry(db, r.source, r.destination, ids, r.command, BranchPromoted, PromotionImpact, PROMOTION_NOTICE(), PromotionHash(h, r), newId)
  }

  /** Carries the references `ids` of one branch to another, as promotion and adoption do. */
  ghost function Carry(db: Db, from: Id, to: Id, ids: seq<Id>, command: Id, operation: Operation, kind: ImpactKind, notice: Text, digest: Text, newId: Id): (a: (Effect, Reply))
    requires from in db.branches && to in db.branches
    requires forall l :: l in ids ==> l in ReferencesOf(db.references, db.branches[from].current)
    ensures if a.1.Thrown? then a.0 == Nothing else AcceptedBy(a.1) && a.1.snapshot.Some? && a.1.revision >= 0
    ensures a.0.Appends? ==> a.0.branch in db.branches
  {
    var s := db.branches[from].current;
    CarryChanged(db, s, to, Differing(ReferencesOf(db.references, s), ReferencesOf(db.references, db.branches[to].current), ids),
      command, operation, kind, notice, digest, newId)
  }

  /** The writes of a promotion or adoption whose differing references are `changed`. */
  ghost function CarryChanged(db: Db, s: Id, to: Id, changed: seq<Reference>, command: Id, operation: Operation, kind: ImpactKind, notice: Text, digest: Text, newId: Id): (a: (Effect, Reply))
    requires to in db.branches
    ensures if a.1.Thrown? then a.0 == Nothing else AcceptedBy(a.1) && a.1.snapshot.Some? && a.1.revision >= 0
    ensures a.0.Appends? ==> a.0.branch in db.branches
  {
    var b := db.branches[to];
    var destination := ReferencesOf(db.references, b.current);
    var present := (destination + Overrides(changed)).Values;
    if changed == [] then
      (Logs(HistoryRow(Some(to), command, operation, b.revision, b.revision, Some(s), Some(b.current), digest)),
       Replied(Accepted, b.revision, Some(b.current)))
    else if newId in db.snapshots then (Nothing, Thrown(ConstraintViolated))
    else
      (Appends(to, newId, changed,
         ChangeImpacts(db.impacts, command, to, kind, notice, db.dependencies, present, destination, changed),
         HistoryRow(Some(to), command, operation, b.revision, b.revision + 1, Some(s), Some(newId), digest)),
       Reply(Accepted, b.revision + 1, Some(newId), changed, Impacted(db.dependencies, present, destination, changed), None))
  }

  // ------------------------------------------------- recordSharedSourceCorrection

  datatype CorrectionRequest = CorrectionRequest(version: Id, notice: Text, command: Id)

  ghost predicate Visited(db: Db, version: Id, branch: Id, v: Id)
  {
    && branch in db.branches
    && v in ReferencesOf(db.references, db.branches[branch].current).Values
    && (v == version || DependsOn(db.dependencies, v, version))
  }

  ghost function VisitedOn(db: Db, version: Id, branch: Id): set<Id>
    requires branch in db.branches
  {
    set v | v in ReferencesOf(db.references, db.branches[branch].current).Values && Visited(db, version, branch, v)
  }

  /** The impact rows a correction leaves after the branches `done` were handled. */
  ghost function CorrectionImpacts(db: Db, r: CorrectionRequest, done: seq<Id>): map<ImpactKey, ImpactRow>
    requires forall b :: b in done ==> b in db.branches
  {
    if done == [] then db.impacts else
    var b := done[|done| - 1];
    assert b in done && forall c :: c in done[..|done| - 1] ==> c in done;
    AddImpacts(CorrectionImpacts(db, r, done[..|done| - 1]), r.command, b, r.version, VisitedOn(db, r.version, b), SharedSourceCorrection, r.notice)
  }

  function ImpactsOf(impacts: map<ImpactKey, ImpactRow>, command: Id): map<ImpactKey, ImpactRow>
  {
    map k | k in impacts && k.command == command :: impacts[k]
  }

  ghost function RecordCorrection(h: Hash, db: Db, r: CorrectionRequest): (Effect, Reply)
  {
    if !db.ready then (Nothing, Thrown(ReadOnly))
    else if IsBlank(r.notice) then (Nothing, Thrown(InvalidNotice))
    else if r.version !in db.versions then (Nothing, Thrown(ArtifactNotFound))
    else
      var digest := h(CorrectionPayload(r.version, r.notice));
      var existing := Command(db.history, r.command);
      if existing.Some? then
        if existing.value.payloadHash != digest then (Nothing, Thrown(DuplicateCommand))
        else (Nothing, Impacts(ImpactsOf(db.impacts, r.command)))
      else
        var impacts := CorrectionImpacts(db, r, Listing(db.branches.Keys));
        (Corrects(impacts, HistoryRow(None, r.command, SourceCorrected, 0, 0, None, None, digest)),
         Impacts(ImpactsOf(impacts, r.command)))
  }
}
