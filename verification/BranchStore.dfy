/** The branch transactions as the store runs them: statement by statement on the handle's
    tables, undone when a statement throws. Each is proved against its specification. */
module BranchStore {
  import opened Texts
  import opened Graph
  import opened Tables
  import opened Branches
  import opened Invariants
  import opened Store

  lemma RowsOfSum(s: Id, a: map<Id, Id>, b: map<Id, Id>)
    ensures RowsOf(s, a) + RowsOf(s, b) == RowsOf(s, a + b)
  {
    RowsOfKeys(s, a);
    RowsOfKeys(s, b);
    RowsOfKeys(s, a + b);
  }

  lemma RowsOfUpdate(s: Id, m: map<Id, Id>, l: Id, v: Id)
    ensures RowsOf(s, m[l := v]) == RowsOf(s, m)[(s, l) := v]
  {
    RowsOfKeys(s, m);
    RowsOfKeys(s, m[l := v]);
  }

  method InsertHistory(handle: Handle, row: HistoryRow) returns (ok: bool)
    modifies handle`db
    ensures ok <==> Tables.Command(old(handle.db).history, row.command).None?
    ensures handle.db == if ok then Log(old(handle.db), row) else old(handle.db)
  {
    ok := Tables.Command(handle.db.history, row.command).None?;
    if ok {
      handle.db := handle.db.(history := handle.db.history + [row]);
    }
  }

  /** `copyBranchSnapshot`: inserts the snapshot row and copies the old snapshot's references. */
  method CopyBranchSnapshot(handle: Handle, oldSnapshot: Id, newSnapshot: Id, branch: Id, revision: nat) returns (ok: bool)
    modifies handle`db
    ensures ok <==> newSnapshot !in old(handle.db).snapshots
    ensures handle.db == if !ok then old(handle.db) else old(handle.db).(
      snapshots := old(handle.db).snapshots[newSnapshot := SnapshotRow(branch, Some(oldSnapshot), revision)],
      references := old(handle.db).references + RowsOf(newSnapshot, ReferencesOf(old(handle.db).references, oldSnapshot)))
  {
    ok := newSnapshot !in handle.db.snapshots;
    if ok {
      handle.db := handle.db.(snapshots := handle.db.snapshots[newSnapshot := SnapshotRow(branch, Some(oldSnapshot), revision)]);
      handle.db := handle.db.(references := handle.db.references + RowsOf(newSnapshot, ReferencesOf(handle.db.references, oldSnapshot)));
    }
  }

  lemma WriteOneMore(before: map<(Id, Id), Id>, snapshot: Id, changed: seq<Reference>, i: nat)
    requires i < |changed|
    ensures before + RowsOf(snapshot, Overrides(changed[..i + 1]))
      == (before + RowsOf(snapshot, Overrides(changed[..i])))[(snapshot, changed[i].logicalId) := changed[i].version]
  {
    assert changed[..i + 1][..i] == changed[..i];
    RowsOfUpdate(snapshot, Overrides(changed[..i]), changed[i].logicalId, changed[i].version);
  }

  lemma CopyThenWrite(references: map<(Id, Id), Id>, s: Id, m: map<Id, Id>, over: map<Id, Id>)
    ensures (references + RowsOf(s, m)) + RowsOf(s, over) == references + RowsOf(s, m + over)
  {
    RowsOfSum(s, m, over);
    assert (references + RowsOf(s, m)) + RowsOf(s, over) == references + (RowsOf(s, m) + RowsOf(s, over));
  }

  /** The upserts of the changed references into a snapshot. */
  method WriteReferences(handle: Handle, snapshot: Id, changed: seq<Reference>)
    modifies handle`db
    ensures handle.db == old(handle.db).(references := old(handle.db).references + RowsOf(snapshot, Overrides(changed)))
  {
    ghost var before := handle.db.references;
    assert before + RowsOf(snapshot, Overrides([])) == before;
    for i := 0 to |changed|
      invariant handle.db == old(handle.db).(references := before + RowsOf(snapshot, Overrides(changed[..i])))
    {
      WriteOneMore(before, snapshot, changed, i);
      handle.db := handle.db.(references := handle.db.references[(snapshot, changed[i].logicalId) := changed[i].version]);
    }
    assert changed[..|changed|] == changed;
  }

  /** A copy of the branch's current snapshot with the changed references written over it. */
  method CopyAndWrite(handle: Handle, branch: Id, newId: Id, changed: seq<Reference>) returns (copied: bool)
    requires branch in handle.db.branches
    modifies handle`db
    ensures copied <==> newId !in old(handle.db).snapshots
    ensures !copied ==> handle.db == old(handle.db)
    ensures copied ==> handle.db == old(handle.db).(
      snapshots := old(handle.db).snapshots[newId := SnapshotRow(branch, Some(old(handle.db).branches[branch].current), old(handle.db).branches[branch].revision + 1)],
      references := old(handle.db).references
        + RowsOf(newId, ReferencesOf(old(handle.db).references, old(handle.db).branches[branch].current) + Overrides(changed)))
  {
    hide ReferencesOf;
    hide RowsOf;
    hide Overrides;
    var b := handle.db.branches[branch];
    copied := CopyBranchSnapshot(handle, b.current, newId, branch, b.revision + 1);
    if copied {
      WriteReferences(handle, newId, changed);
      CopyThenWrite(old(handle.db).references, newId, ReferencesOf(old(handle.db).references, b.current), Overrides(changed));
    }
  }

  method SetHead(handle: Handle, branch: Id, snapshot: Id, revision: nat)
    requires branch in handle.db.branches
    modifies handle`db
    ensures handle.db == old(handle.db).(branches := old(handle.db).branches[branch := old(handle.db).branches[branch].(current := snapshot, revision := revision)])
  {
    handle.db := handle.db.(branches := handle.db.branches[branch := handle.db.branches[branch].(current := snapshot, revision := revision)]);
  }

  // ---------------------------------------------------------------- createBranch

  method CreateBranch(handle: Handle, branch: Id, name: Id, parent: Id, newId: Id) returns (reply: Reply)
    modifies handle`db
    ensures handle.db == Apply(old(handle.db), Branches.CreateBranch(handle.hash, old(handle.db), branch, name, parent, newId).0)
    ensures reply == Branches.CreateBranch(handle.hash, old(handle.db), branch, name, parent, newId).1
  {
    hide ReferencesOf;
    hide RowsOf;
    if !handle.db.ready { return Thrown(ReadOnly); }
    if parent !in handle.db.branches { return Thrown(BranchNotFound); }
    var s := handle.db.branches[parent].current;
    var before := handle.db;
    var forked := InsertBranch(handle, branch, name, s, newId);
    if !forked { return Thrown(ConstraintViolated); }
    var logged := InsertHistory(handle, HistoryRow(Some(branch), CreateCommand(branch), BranchCreated, 0, 0, Some(s), Some(newId),
                                                   handle.hash(CreatePayload(branch, name, parent))));
    if !logged {
      handle.db := before;
      return Thrown(ConstraintViolated);
    }
    return Replied(Accepted, 0, Some(newId));
  }

  /** The branch row, its first snapshot and that snapshot's references. */
  method InsertBranch(handle: Handle, branch: Id, name: Id, s: Id, newId: Id) returns (ok: bool)
    modifies handle`db
    ensures ok <==> branch !in old(handle.db).branches && !NameTaken(old(handle.db), name) && newId !in old(handle.db).snapshots
    ensures handle.db == if ok then Fork(old(handle.db), branch, name, s, newId) else old(handle.db)
  {
    hide ReferencesOf;
    hide RowsOf;
    var before := handle.db;
    if branch in handle.db.branches || NameTaken(handle.db, name) { return false; }
    handle.db := handle.db.(branches := handle.db.branches[branch := BranchRow(name, Some(s), newId, 0)]);
    ok := CopyBranchSnapshot(handle, s, newId, branch, 0);
    if !ok { handle.db := before; }
  }

  // ------------------------------------------------------- updateBranchReference

  method UpdateBranchReference(handle: Handle, r: UpdateRequest, newId: Id) returns (reply: Reply)
    modifies handle`db
    ensures handle.db == Apply(old(handle.db), Branches.UpdateBranchReference(handle.hash, old(handle.db), r, newId).0)
    ensures reply == Branches.UpdateBranchReference(handle.hash, old(handle.db), r, newId).1
  {
    hide ReferencesOf;
    hide RowsOf;
    if r.expected < 0 { return Thrown(InvalidVersion); }
    if !handle.db.ready { return Replied(Blocked, r.expected, None); }
    if r.version !in handle.db.versions { return Thrown(ArtifactNotFound); }
    if handle.db.versions[r.version].logicalId != r.logicalId { return Replied(Rejected, r.expected, None); }
    var digest := handle.hash(UpdatePayload(r.branch, r.logicalId, r.version, r.expected));
    var existing := Tables.Command(handle.db.history, r.command);
    if existing.Some? { return Replay(existing.value, digest); }
    if r.branch !in handle.db.branches { return Thrown(BranchNotFound); }
    var b := handle.db.branches[r.branch];
    if b.revision != r.expected { return Replied(Stale, b.revision, Some(b.current)); }
    var appended := AppendAndLog(handle, r.branch, newId, [Reference(r.logicalId, r.version)],
      HistoryRow(Some(r.branch), r.command, ReferenceUpdated, b.revision, b.revision + 1, Some(b.current), Some(newId), digest));
    if !appended { return Thrown(ConstraintViolated); }
    return Replied(Accepted, b.revision + 1, Some(newId));
  }

  /** A new snapshot with the changed references, the branch moved to it, and the history entry. */
  method AppendAndLog(handle: Handle, branch: Id, newId: Id, changed: seq<Reference>, row: HistoryRow) returns (ok: bool)
    requires branch in handle.db.branches && Tables.Command(handle.db.history, row.command).None?
    modifies handle`db
    ensures ok <==> newId !in old(handle.db).snapshots
    ensures !ok ==> handle.db == old(handle.db)
    ensures ok ==> handle.db == Log(Append(old(handle.db), branch, newId, changed), row)
  {
    hide ReferencesOf;
    hide RowsOf;
    hide Overrides;
    var b := handle.db.branches[branch];
    ok := CopyAndWrite(handle, branch, newId, changed);
    if ok {
      SetHead(handle, branch, newId, b.revision + 1);
      var logged := InsertHistory(handle, row);
    }
  }

  // ------------------------------------------------- promotion and adoption of references

  /** The first loop of a promotion: what differs, unless the source lacks a reference. */
  method CollectChanged(source: map<Id, Id>, destination: map<Id, Id>, ids: seq<Id>) returns (missing: bool, changed: seq<Reference>)
    ensures missing <==> exists l :: l in ids && l !in source
    ensures !missing ==> changed == Differing(source, destination, ids)
  {
    missing, changed := false, [];
    for i := 0 to |ids|
      invariant forall l :: l in ids[..i] ==> l in source
      invariant changed == Differing(source, destination, ids[..i])
    {
      if ids[i] !in source { return true, []; }
      assert ids[..i + 1] == ids[..i] + [ids[i]];
      assert ids[..i + 1][..i] == ids[..i];
      if !(ids[i] in destination && destination[ids[i]] == source[ids[i]]) {
        changed := changed + [Reference(ids[i], source[ids[i]])];
      }
    }
    assert ids[..|ids|] == ids;
  }

  /** `addImpact`: `INSERT OR IGNORE`. */
  method AddImpact(handle: Handle, key: ImpactKey, row: ImpactRow)
    modifies handle`db
    ensures handle.db == old(handle.db).(impacts := map[key := row] + old(handle.db).impacts)
  {
    if key !in handle.db.impacts {
      handle.db := handle.db.(impacts := handle.db.impacts[key := row]);
    }
    assert handle.db.impacts == map[key := row] + old(handle.db).impacts;
  }

  lemma AddImpactsMore(impacts: map<ImpactKey, ImpactRow>, command: Id, branch: Id, source: Id, ds: set<Id>, d: Id, kind: ImpactKind, notice: Text)
    ensures AddImpacts(impacts, command, branch, source, ds + {d}, kind, notice)
      == map[ImpactKey(command, branch, d, kind) := ImpactRow(source, notice)] + AddImpacts(impacts, command, branch, source, ds, kind, notice)
    ensures AddImpacts(impacts, command, branch, source, {}, kind, notice) == impacts
  {
    assert ImpactKeys(command, branch, ds + {d}, kind) == ImpactKeys(command, branch, ds, kind) + {ImpactKey(command, branch, d, kind)};
  }

  /** One impact row for each of a set of dependents. */
  method AddEachImpact(handle: Handle, command: Id, branch: Id, source: Id, dependents: set<Id>, kind: ImpactKind, notice: Text)
    modifies handle`db
    ensures handle.db == old(handle.db).(impacts := AddImpacts(old(handle.db).impacts, command, branch, source, dependents, kind, notice))
  {
    var rest := dependents;
    AddImpactsMore(handle.db.impacts, command, branch, source, {}, [], kind, notice);
    while rest != {}
      invariant rest <= dependents
      invariant handle.db == old(handle.db).(impacts := AddImpacts(old(handle.db).impacts, command, branch, source, dependents - rest, kind, notice))
      decreases rest
    {
      var d :| d in rest;
      assert dependents - (rest - {d}) == (dependents - rest) + {d};
      AddImpactsMore(old(handle.db).impacts, command, branch, source, dependents - rest, d, kind, notice);
      AddImpact(handle, ImpactKey(command, branch, d, kind), ImpactRow(source, notice));
      rest := rest - {d};
    }
    assert dependents - rest == dependents;
  }

  /** The dependents of a changed reference and of what it replaced, among those present. */
  method AffectedNow(dependencies: seq<DependencyRow>, present: set<Id>, ref: Reference, destination: map<Id, Id>) returns (affected: set<Id>)
    ensures affected == Affected(dependencies, present, ref.version, Lookup(destination, ref.logicalId))
  {
    var candidates := DependentVersions(dependencies, ref.version);
    if ref.logicalId in destination {
      var more := DependentVersions(dependencies, destination[ref.logicalId]);
      candidates := candidates + more;
    }
    affected := candidates * present;
  }

  /** The impact loop of a promotion or adoption. */
  method RecordImpacts(handle: Handle, command: Id, branch: Id, kind: ImpactKind, notice: Text, present: set<Id>,
      destination: map<Id, Id>, changed: seq<Reference>) returns (impacted: set<Id>)
    modifies handle`db
    ensures impacted == Impacted(old(handle.db).dependencies, present, destination, changed)
    ensures handle.db == old(handle.db).(impacts :=
      ChangeImpacts(old(handle.db).impacts, command, branch, kind, notice, old(handle.db).dependencies, present, destination, changed))
  {
    impacted := {};
    for i := 0 to |changed|
      invariant impacted == Impacted(old(handle.db).dependencies, present, destination, changed[..i])
      invariant handle.db == old(handle.db).(impacts :=
        ChangeImpacts(old(handle.db).impacts, command, branch, kind, notice, old(handle.db).dependencies, present, destination, changed[..i]))
    {
      assert changed[..i + 1][..i] == changed[..i];
      var affected := AffectedNow(handle.db.dependencies, present, changed[i], destination);
      AddEachImpact(handle, command, branch, changed[i].version, affected, kind, notice);
      impacted := impacted + affected;
    }
    assert changed[..|changed|] == changed;
  }

  /** The writes shared by promotion and adoption, up to and including the history entry. */
  method CarryChanged(handle: Handle, s: Id, to: Id, changed: seq<Reference>, command: Id, operation: Operation, kind: ImpactKind, notice: Text, digest: Text, newId: Id)
    returns (reply: Reply)
    requires to in handle.db.branches && Tables.Command(handle.db.history, command).None?
    requires forall k :: k in handle.db.references ==> k.0 in handle.db.snapshots
    modifies handle`db
    ensures handle.db == Apply(old(handle.db), Branches.CarryChanged(old(handle.db), s, to, changed, command, operation, kind, notice, digest, newId).0)
    ensures reply == Branches.CarryChanged(old(handle.db), s, to, changed, command, operation, kind, notice, digest, newId).1
  {
    hide ReferencesOf;
    hide RowsOf;
    hide Overrides;
    hide ChangeImpacts, Impacted;
    var b := handle.db.branches[to];
    var destination := ReferencesOf(handle.db.references, b.current);
    if changed == [] {
      var logged := InsertHistory(handle, HistoryRow(Some(to), command, operation, b.revision, b.revision, Some(s), Some(b.current), digest));
      return Replied(Accepted, b.revision, Some(b.current));
    }
    var copied := CopyAndWrite(handle, to, newId, changed);
    if !copied { return Thrown(ConstraintViolated); }
    RowsReadBack(old(handle.db).references, newId, destination + Overrides(changed));
    var present := ReferencesOf(handle.db.references, newId).Values;
    var impacted := RecordImpacts(handle, command, to, kind, notice, present, destination, changed);
    SetHead(handle, to, newId, b.revision + 1);
    var logged := InsertHistory(handle, HistoryRow(Some(to), command, operation, b.revision, b.revision + 1, Some(s), Some(newId), digest));
    return Reply(Accepted, b.revision + 1, Some(newId), changed, impacted, None);
  }

  // --------------------------------------------------------------- promoteBranch

  method PromoteBranch(handle: Handle, r: PromotionRequest, newId: Id) returns (reply: Reply)
    requires Kept(handle.db)
    modifies handle`db
    ensures handle.db == Apply(old(handle.db), Branches.PromoteBranch(handle.hash, old(handle.db), r, newId).0)
    ensures reply == Branches.PromoteBranch(handle.hash, old(handle.db), r, newId).1
  {
    hide ReferencesOf;
    hide RowsOf;
    hide Overrides;
    if r.source == r.destination { return Thrown(InvalidPromotion); }
    if r.expected < 0 { return Thrown(InvalidVersion); }
    if !handle.db.ready { return Replied(Blocked, r.expected, None); }
    var digest := PromotionHash(handle.hash, r);
    var existing := Tables.Command(handle.db.history, r.command);
    if existing.Some? { return Replay(existing.value, digest); }
    if r.source !in handle.db.branches || r.destination !in handle.db.branches { return Thrown(BranchNotFound); }
    var source, destination := handle.db.branches[r.source], handle.db.branches[r.destination];
    if destination.revision != r.expected { return Replied(Stale, destination.revision, None); }
    var sourceMap := ReferencesOf(handle.db.references, source.current);
    var ids;
    if r.logicalIds.Some? {
      ids := Sort(Distinct(r.logicalIds.value));
    } else {
      ids := SortedKeys(sourceMap.Keys);
    }
    var missing, changed := CollectChanged(sourceMap, ReferencesOf(handle.db.references, destination.current), ids);
    if missing { return Thrown(PromotionInvalid); }
    ReferencesOwned(handle.db.snapshots, handle.db.references, handle.db.versions);
    reply := CarryChanged(handle, source.current, r.destination, changed, r.command, BranchPromoted, PromotionImpact, PROMOTION_NOTICE(), digest, newId);
  }

  // ------------------------------------------------- recordSharedSourceCorrection

  method RecordSharedSourceCorrection(handle: Handle, r: CorrectionRequest) returns (reply: Reply)
    modifies handle`db
    ensures handle.db == Apply(old(handle.db), RecordCorrection(handle.hash, old(handle.db), r).0)
    ensures reply == RecordCorrection(handle.hash, old(handle.db), r).1
  {
    if !handle.db.ready { return Thrown(ReadOnly); }
    if IsBlank(r.notice) { return Thrown(InvalidNotice); }
    if r.version !in handle.db.versions { return Thrown(ArtifactNotFound); }
    var digest := handle.hash(CorrectionPayload(r.version, r.notice));
    var existing := Tables.Command(handle.db.history, r.command);
    if existing.Some? {
      if existing.value.payloadHash != digest { return Thrown(DuplicateCommand); }
      return Impacts(ImpactsOf(handle.db.impacts, r.command));
    }
    RecordCorrectionImpacts(handle, r);
    var logged := InsertHistory(handle, HistoryRow(None, r.command, SourceCorrected, 0, 0, None, None, digest));
    return Impacts(ImpactsOf(handle.db.impacts, r.command));
  }

  lemma VisitedIs(db: Db, version: Id, branch: Id, affected: set<Id>)
    requires branch in db.branches && forall v :: v in affected <==> v == version || DependsOn(db.dependencies, v, version)
    ensures affected * ReferencesOf(db.references, db.branches[branch].current).Values == VisitedOn(db, version, branch)
  {
    hide ReferencesOf;
  }

  lemma CorrectionNone(db: Db, r: CorrectionRequest)
    ensures CorrectionImpacts(db, r, []) == db.impacts
  {
  }

  lemma CorrectionOneMore(db: Db, r: CorrectionRequest, branches: seq<Id>, i: nat)
    requires i < |branches| && forall b :: b in branches ==> b in db.branches
    ensures (forall b :: b in branches[..i] ==> b in db.branches) && (forall b :: b in branches[..i + 1] ==> b in db.branches)
    ensures CorrectionImpacts(db, r, branches[..i + 1]) == AddImpacts(CorrectionImpacts(db, r, branches[..i]),
      r.command, branches[i], r.version, VisitedOn(db, r.version, branches[i]), SharedSourceCorrection, r.notice)
  {
    assert branches[..i + 1][..i] == branches[..i] && branches[i] in branches;
  }

  /** Over every branch in order, one impact row for each affected current reference. */
  method RecordCorrectionImpacts(handle: Handle, r: CorrectionRequest)
    modifies handle`db
    ensures handle.db == old(handle.db).(impacts := CorrectionImpacts(old(handle.db), r, Listing(old(handle.db).branches.Keys)))
  {
    hide ReferencesOf;
    hide VisitedOn;
    hide AddImpacts;
    hide DependsOn;
    hide RowsOf;
    hide CorrectionImpacts;
    CorrectionNone(handle.db, r);
    var affected := DependentVersions(handle.db.dependencies, r.version);
    affected := affected + {r.version};
    var branches := SortedKeys(handle.db.branches.Keys);
    ghost var before := handle.db;
    for i := 0 to |branches|
      invariant forall b :: b in branches ==> b in before.branches
      invariant handle.db == before.(impacts := CorrectionImpacts(before, r, branches[..i]))
    {
      CorrectionOneMore(before, r, branches, i);
      assert branches[i] in branches;
      var visited := affected * ReferencesOf(handle.db.references, handle.db.branches[branches[i]].current).Values;
      VisitedIs(before, r.version, branches[i], affected);
      AddEachImpact(handle, r.command, branches[i], r.version, visited, SharedSourceCorrection, r.notice);
    }
    assert branches[..|branches|] == branches;
  }

  // ------------------------------------------------------ compareBranchReferences

  datatype Difference = Difference(logicalId: Id, source: Option<Id>, destination: Option<Id>)

  function DifferenceAt(source: map<Id, Id>, destination: map<Id, Id>, l: Id): Difference
  {
    Difference(l, Lookup(source, l), Lookup(destination, l))
  }

  function DifferencesAmong(source: map<Id, Id>, destination: map<Id, Id>, ids: seq<Id>): seq<Difference>
  {
    if ids == [] then [] else
    var l := ids[|ids| - 1];
    var earlier := DifferencesAmong(source, destination, ids[..|ids| - 1]);
    if Lookup(source, l) != Lookup(destination, l) then earlier + [DifferenceAt(source, destination, l)] else earlier
  }

  /** The comparison lists exactly the logical ids on which the branches differ. */
  lemma {:induction false} DifferencesExact(source: map<Id, Id>, destination: map<Id, Id>, ids: seq<Id>, d: Difference)
    ensures d in DifferencesAmong(source, destination, ids) <==>
      d.logicalId in ids && d == DifferenceAt(source, destination, d.logicalId) && d.source != d.destination
  {
    if ids != [] {
      assert ids == ids[..|ids| - 1] + [ids[|ids| - 1]];
      DifferencesExact(source, destination, ids[..|ids| - 1], d);
    }
  }

  /** `compareBranchReferences`. */
  method CompareBranchReferences(db: Db, sourceBranch: Id, destinationBranch: Id) returns (differences: seq<Difference>)
    requires sourceBranch in db.branches && destinationBranch in db.branches
    ensures var source, destination := ReferencesOf(db.references, db.branches[sourceBranch].current), ReferencesOf(db.references, db.branches[destinationBranch].current);
      && differences == DifferencesAmong(source, destination, Listing(source.Keys + destination.Keys))
      && forall d :: d in differences <==> d == DifferenceAt(source, destination, d.logicalId) && d.source != d.destination
  {
    hide ReferencesOf;
    var source, destination := ReferencesOf(db.references, db.branches[sourceBranch].current), ReferencesOf(db.references, db.branches[destinationBranch].current);
    var ids := SortedKeys(source.Keys + destination.Keys);
    differences := [];
    for i := 0 to |ids|
      invariant differences == DifferencesAmong(source, destination, ids[..i])
    {
      assert ids[..i + 1][..i] == ids[..i];
      if Lookup(source, ids[i]) != Lookup(destination, ids[i]) {
        differences := differences + [DifferenceAt(source, destination, ids[i])];
      }
    }
    assert ids[..|ids|] == ids;
    forall d ensures d in differences <==> d == DifferenceAt(source, destination, d.logicalId) && d.source != d.destination {
      DifferencesExact(source, destination, ids, d);
    }
  }
}
