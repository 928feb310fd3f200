/** What a caller of the branch commands can rely on, over any run. */
module Guarantees {
  import opened Texts
  import opened Graph
  import opened Tables
  import opened Branches
  import opened Registration
  import opened Decisions
  import opened Invariants
  import opened LedgerInvariants
  import opened Store
  import opened Refinement

  // ------------------------------------------------------------ revisions

  /** Walks up from `s` to the snapshot without a parent; it always gets there. */
  ghost function RootOf(snapshots: Snapshots, s: Id): (root: Id)
    requires SnapshotsRooted(snapshots) && s in snapshots
    ensures root in snapshots && snapshots[root].parent.None?
  {
    assert Rooted(snapshots, s);
    var n: nat :| RootedIn(snapshots, s, n);
    RootWithin(snapshots, s, n)
  }

  ghost function RootWithin(snapshots: Snapshots, s: Id, n: nat): (root: Id)
    requires RootedIn(snapshots, s, n)
    ensures root in snapshots && snapshots[root].parent.None?
    decreases n
  {
    if n == 0 then s else RootWithin(snapshots, snapshots[s].parent.value, n - 1)
  }

  /** In every reachable state a branch at revision n has exactly one snapshot of each
      revision 0..n, each the parent of the next, the first hanging from the fork point;
      and its history entries chain up to n. */
  lemma RevisionsComplete(h: Hash, first: Id, cs: seq<Store.Command>, b: Id, r: nat)
    requires b in Reached(h, first, cs).db.branches && r <= Reached(h, first, cs).db.branches[b].revision
    ensures var db := Reached(h, first, cs).db;
      && Kept(db)
      && (forall t :: t in db.snapshots && db.snapshots[t].branch == b && db.snapshots[t].revision == r <==> t == SnapshotAt(db, b, r))
      && db.snapshots[SnapshotAt(db, b, r)].parent == (if r == 0 then db.branches[b].parentSnapshot else Some(SnapshotAt(db, b, r - 1)))
      && (forall t :: t in db.snapshots && db.snapshots[t].branch == b ==> db.snapshots[t].revision <= db.branches[b].revision)
      && Chained(db.history, b, db.branches[b].revision)
  {
    var db := Reached(h, first, cs).db;
    OneSnapshotEach(db, b, r);
    ParentsChain(db, b, r);
    forall t | t in db.snapshots && db.snapshots[t].branch == b ensures db.snapshots[t].revision <= db.branches[b].revision {
      assert Owned(db.branches, db.snapshots, t);
    }
  }

  lemma OneSnapshotEach(db: Db, b: Id, r: nat)
    requires Kept(db) && b in db.branches && r <= db.branches[b].revision
    ensures forall t :: t in db.snapshots && db.snapshots[t].branch == b && db.snapshots[t].revision == r <==> t == SnapshotAt(db, b, r)
  {
    forall t | t in db.snapshots && db.snapshots[t].branch == b && db.snapshots[t].revision == r ensures t == SnapshotAt(db, b, r) {
      assert !Clash(db.snapshots, t, SnapshotAt(db, b, r));
    }
  }

  lemma ParentsChain(db: Db, b: Id, r: nat)
    requires Kept(db) && b in db.branches && r <= db.branches[b].revision
    ensures db.snapshots[SnapshotAt(db, b, r)].parent == if r == 0 then db.branches[b].parentSnapshot else Some(SnapshotAt(db, b, r - 1))
  {
    if r > 0 {
      var t := SnapshotAt(db, b, r);
      assert Anchored(db.snapshots, b, db.snapshots[t].parent.value, r - 1, db.branches[b].parentSnapshot);
      OneSnapshotEach(db, b, r - 1);
    }
  }

  // ------------------------------------------------------------ idempotent commands

  lemma {:induction false} CommandStable(history: seq<HistoryRow>, later: seq<HistoryRow>, command: Id)
    requires history <= later && Tables.Command(history, command).Some?
    ensures Tables.Command(later, command) == Tables.Command(history, command)
  {
    if history[0].command != command {
      CommandStable(history[1..], later[1..], command);
    }
  }

  lemma {:induction false} CommandAppended(history: seq<HistoryRow>, row: HistoryRow)
    requires Tables.Command(history, row.command).None?
    ensures Tables.Command(history + [row], row.command) == Some(row)
  {
    if history != [] {
      assert (history + [row])[1..] == history[1..] + [row];
      CommandAppended(history[1..], row);
    }
  }

  function UpdateHash(h: Hash, r: UpdateRequest): Text
  {
    h(UpdatePayload(r.branch, r.logicalId, r.version, r.expected))
  }

  /** The entry `row` of an accepted command records what was answered and what was expected. */
  ghost predicate Records(db: Db, row: HistoryRow, branch: Id, command: Id, expected: int, digest: Text, reply: Reply)
  {
    && branch in db.branches && row.branch == Some(branch) && row.command == command && row.payloadHash == digest
    && reply.Reply? && row.resulting == reply.revision && row.destination == reply.snapshot
    && expected == row.expected == db.branches[branch].revision
    && db.ready && Tables.Command(db.history, command).None?
  }

  lemma UpdateRecords(h: Hash, db: Db, r: UpdateRequest, newId: Id)
    requires AcceptedBy(UpdateBranchReference(h, db, r, newId).1)
    ensures var (e, reply) := UpdateBranchReference(h, db, r, newId);
      e.Appends? && e.branch == r.branch && Records(db, e.row, r.branch, r.command, r.expected, UpdateHash(h, r), reply)
      && reply == Replied(Accepted, r.expected + 1, Some(newId))
  {
  }

  lemma PromotionRecords(h: Hash, db: Db, r: PromotionRequest, newId: Id)
    requires AcceptedBy(PromoteBranch(h, db, r, newId).1)
    ensures var (e, reply) := PromoteBranch(h, db, r, newId);
      && (e.Logs? || (e.Appends? && e.branch == r.destination))
      && Records(db, e.row, r.destination, r.command, r.expected, PromotionHash(h, r), reply)
    ensures r.source != r.destination && r.expected >= 0
  {
  }

  /** A recorded entry is what its command id finds in every later state. */
  lemma Remembered(db: Db, e: Effect, later: Db)
    requires e.Logs? || e.Corrects? || (e.Appends? && e.branch in db.branches)
    requires Tables.Command(db.history, e.row.command).None? && Grows(Apply(db, e), later)
    ensures Tables.Command(later.history, e.row.command) == Some(e.row) && later.ready == db.ready
  {
    CommandAppended(db.history, e.row);
    CommandStable(db.history + [e.row], later.history, e.row.command);
  }

  lemma UpdateShape(h: Hash, db: Db, r: UpdateRequest, newId: Id)
    requires AcceptedBy(UpdateBranchReference(h, db, r, newId).1)
    ensures var e := UpdateBranchReference(h, db, r, newId).0;
      e.Appends? && e.changed == [Reference(r.logicalId, r.version)] && Allowed(db, e)
      && r.version in db.versions && db.versions[r.version].logicalId == r.logicalId
  {
  }

  /** The version an accepted update put on a branch stays referenced, so it stays registered. */
  lemma VersionHolds(db: Db, e: Effect, l: Id, v: Id, later: Db)
    requires Kept(db) && Allowed(db, e) && e.Appends? && e.changed == [Reference(l, v)]
    requires v in db.versions && Grows(Apply(db, e), later)
    ensures v in later.versions && later.versions[v] == db.versions[v]
  {
    ReferenceWritten(db, e, l, v);
    HeldVersion(Apply(db, e), later, (e.snapshot, l));
  }

  lemma ReferenceWritten(db: Db, e: Effect, l: Id, v: Id)
    requires Kept(db) && Allowed(db, e) && e.Appends? && e.changed == [Reference(l, v)]
    ensures (e.snapshot, l) in Apply(db, e).references && Apply(db, e).references[(e.snapshot, l)] == v
  {
    AppendsKeeps(db, e);
    OverrideOne(ReferencesOf(db.references, db.branches[e.branch].current), l, v);
    ReferencesOfKeys(Apply(db, e).references, e.snapshot);
  }

  lemma HeldVersion(db: Db, later: Db, k: (Id, Id))
    requires Grows(db, later) && k in db.references && db.references[k] in db.versions
    ensures db.references[k] in later.versions && later.versions[db.references[k]] == db.versions[db.references[k]]
  {
  }

  /** An accepted update, repeated after any run and whatever identifier it would get, changes
      nothing and answers with the revision and snapshot it first produced; another update
      under its command id changes nothing either, and is rejected when its hash differs. */
  lemma UpdateOnce(h: Hash, s: State, r: UpdateRequest, newId: Id, cs: seq<Store.Command>, again: UpdateRequest, newId': Id)
    requires Sound(s) && AcceptedBy(Plan(h, s, Update(r, newId)).2)
    requires again.command == r.command
    ensures r.branch in s.db.branches && r.expected == s.db.branches[r.branch].revision
    ensures var later := Run(h, After(h, s, Update(r, newId)), cs);
      var (effect, _, reply) := Plan(h, later, Update(again, newId'));
      && effect == Nothing
      && (again == r ==> reply == Replied(Duplicate, r.expected + 1, Some(newId)))
      && (UpdateHash(h, again) != UpdateHash(h, r) && reply.Reply? ==> reply.status.Rejected?)
  {
    hide SnapshotsRooted, SnapshotsOwned, OnePerRevision, BranchesAnchored, ReferencesTyped, CommandsUnique, AllWitnessed, AllChained, GraphKept, ImpactsLogged;
    hide Carry, ReferencesOf, AdoptAlternative;
    UpdateOnceIn(h, s.db, r, newId, Run(h, After(h, s, Update(r, newId)), cs).db, again, newId');
  }

  lemma UpdateOnceIn(h: Hash, db: Db, r: UpdateRequest, newId: Id, later: Db, again: UpdateRequest, newId': Id)
    requires Kept(db) && AcceptedBy(UpdateBranchReference(h, db, r, newId).1) && again.command == r.command
    requires Grows(Apply(db, UpdateBranchReference(h, db, r, newId).0), later)
    ensures r.branch in db.branches && r.expected == db.branches[r.branch].revision
    ensures var (effect, reply) := UpdateBranchReference(h, later, again, newId');
      && effect == Nothing
      && (again == r ==> reply == Replied(Duplicate, r.expected + 1, Some(newId)))
      && (UpdateHash(h, again) != UpdateHash(h, r) && reply.Reply? ==> reply.status.Rejected?)
  {
    UpdateRecords(h, db, r, newId);
    UpdateShape(h, db, r, newId);
    var e := UpdateBranchReference(h, db, r, newId).0;
    VersionHolds(db, e, r.logicalId, r.version, later);
    Remembered(db, e, later);
    UpdateReplayed(h, later, e.row, again, newId');
  }

  lemma UpdateReplayed(h: Hash, db: Db, row: HistoryRow, r: UpdateRequest, newId: Id)
    requires Tables.Command(db.history, r.command) == Some(row) && db.ready
    ensures var (effect, reply) := UpdateBranchReference(h, db, r, newId);
      && effect == Nothing
      && (r.expected >= 0 && r.version in db.versions && db.versions[r.version].logicalId == r.logicalId ==> reply == Replay(row, UpdateHash(h, r)))
      && (row.payloadHash != UpdateHash(h, r) && reply.Reply? ==> reply.status.Rejected?)
  {
  }

  /** The same for promotions, including those that changed nothing. */
  lemma PromotionOnce(h: Hash, s: State, r: PromotionRequest, newId: Id, cs: seq<Store.Command>, again: PromotionRequest, newId': Id)
    requires Sound(s) && AcceptedBy(Plan(h, s, Promote(r, newId)).2)
    requires again.command == r.command
    ensures r.destination in s.db.branches && r.expected == s.db.branches[r.destination].revision
    ensures var later := Run(h, After(h, s, Promote(r, newId)), cs);
      var (effect, _, reply) := Plan(h, later, Promote(again, newId'));
      var original := Plan(h, s, Promote(r, newId)).2;
      && effect == Nothing
      && (again == r ==> reply == Replied(Duplicate, original.revision, original.snapshot))
      && (PromotionHash(h, again) != PromotionHash(h, r) && reply.Reply? ==> reply.status.Rejected?)
  {
    hide SnapshotsRooted, SnapshotsOwned, OnePerRevision, BranchesAnchored, ReferencesTyped, CommandsUnique, AllWitnessed, AllChained, GraphKept, ImpactsLogged;
    hide Carry, PromotedIds, ReferencesOf, AdoptAlternative;
    PromotionOnceIn(h, s.db, r, newId, Run(h, After(h, s, Promote(r, newId)), cs).db, again, newId');
  }

  lemma PromotionOnceIn(h: Hash, db: Db, r: PromotionRequest, newId: Id, later: Db, again: PromotionRequest, newId': Id)
    requires Kept(db) && AcceptedBy(PromoteBranch(h, db, r, newId).1) && again.command == r.command
    requires Grows(Apply(db, PromoteBranch(h, db, r, newId).0), later)
    ensures r.destination in db.branches && r.expected == db.branches[r.destination].revision
    ensures var (effect, reply) := PromoteBranch(h, later, again, newId');
      var original := PromoteBranch(h, db, r, newId).1;
      && effect == Nothing
      && (again == r ==> reply == Replied(Duplicate, original.revision, original.snapshot))
      && (PromotionHash(h, again) != PromotionHash(h, r) && reply.Reply? ==> reply.status.Rejected?)
  {
    PromotionRecords(h, db, r, newId);
    var e := PromoteBranch(h, db, r, newId).0;
    Remembered(db, e, later);
    PromotionReplayed(h, later, e.row, again, newId');
  }

  lemma PromotionReplayed(h: Hash, db: Db, row: HistoryRow, r: PromotionRequest, newId: Id)
    requires Tables.Command(db.history, r.command) == Some(row) && db.ready
    ensures var (effect, reply) := PromoteBranch(h, db, r, newId);
      && effect == Nothing
      && (r.source != r.destination && r.expected >= 0 ==> reply == Replay(row, PromotionHash(h, r)))
      && (row.payloadHash != PromotionHash(h, r) && reply.Reply? ==> reply.status.Rejected?)
  {
  }

  // ------------------------------------------------------------ one effect per command

  /** The id under which a command enters the shared history. */
  function CommandOf(c: Store.Command): Option<Id>
  {
    match c
    case Create(branch, _, _, _) => Some(CreateCommand(branch))
    case Update(r, _) => Some(r.command)
    case Promote(r, _) => Some(r.command)
    case Correct(r) => Some(r.command)
    case Adopt(r, _) => Some(r.command)
    case _ => None
  }

  lemma UsedCommandPlansNothing(h: Hash, s: State, c: Store.Command)
    requires CommandOf(c).Some? && Tables.Command(s.db.history, CommandOf(c).value).Some?
    ensures Plan(h, s, c).0 == Nothing && Plan(h, s, c).1 == s.ledger
  {
    hide Carry, CarryAndCommit, CorrectionImpacts, ExposedIds, ReferencesOf;
  }

  lemma EffectIsLogged(h: Hash, s: State, c: Store.Command)
    requires Kept(s.db) && CommandOf(c).Some? && Plan(h, s, c).0 != Nothing
    ensures Tables.Command(Step(h, s, c).db.history, CommandOf(c).value).Some?
  {
    PlanAllowed(h, s, c);
    PlanNamesCommand(h, s, c);
    var e := Plan(h, s, c).0;
    assert Apply(s.db, e).history[|s.db.history|] == e.row;
  }

  lemma PlanNamesCommand(h: Hash, s: State, c: Store.Command)
    requires CommandOf(c).Some? && Plan(h, s, c).0 != Nothing
    ensures var e := Plan(h, s, c).0;
      (e.Logs? || e.Forks? || e.Appends? || e.Corrects?) && e.row.command == CommandOf(c).value
  {
    hide CorrectionImpacts, ExposedIds, ReferencesOf, ChangeImpacts, Impacted, Differing, Commit, Overrides, PromotedIds, Selection, AdoptionHash, IsBlank, T;
  }

  /** A command id that had an effect, as a fork, an update, a promotion, a correction or an
      adoption, has no other in any later state, as whichever of these it is sent again. */
  lemma OneEffectPerCommand(h: Hash, s: State, c: Store.Command, cs: seq<Store.Command>, again: Store.Command)
    requires Sound(s) && CommandOf(c).Some? && Plan(h, s, c).0 != Nothing && CommandOf(again) == CommandOf(c)
    ensures var later := Run(h, After(h, s, c), cs);
      Step(h, later, again) == later
  {
    hide Plan, Run;
    var after := After(h, s, c);
    var later := Run(h, after, cs);
    EffectIsLogged(h, s, c);
    LoggedLater(after.db.history, later.db.history, CommandOf(c).value);
    UsedCommandPlansNothing(h, later, again);
    PlanAllowed(h, later, again);
  }

  /** An accepted correction, sent again after any run, answers with the rows it first recorded
      as long as its version is registered. */
  lemma CorrectionOnce(h: Hash, s: State, r: CorrectionRequest, cs: seq<Store.Command>)
    requires Sound(s) && Plan(h, s, Correct(r)).2.Impacts? && Tables.Command(s.db.history, r.command).None?
    ensures var later := Run(h, After(h, s, Correct(r)), cs);
      && Step(h, later, Correct(r)) == later
      && (Plan(h, later, Correct(r)).2 == Plan(h, s, Correct(r)).2 <==> r.version in later.db.versions)
  {
    hide Run, CorrectionImpacts;
    var later := Run(h, After(h, s, Correct(r)), cs);
    OneEffectPerCommand(h, s, Correct(r), cs, Correct(r));
    CorrectionReplayed(h, s.db, r, later.db);
  }

  lemma CorrectionReplayed(h: Hash, db: Db, r: CorrectionRequest, later: Db)
    requires Kept(db) && RecordCorrection(h, db, r).1.Impacts? && Tables.Command(db.history, r.command).None?
    requires Grows(Apply(db, RecordCorrection(h, db, r).0), later)
    ensures RecordCorrection(h, later, r).1 == RecordCorrection(h, db, r).1 <==> r.version in later.versions
  {
    hide CorrectionImpacts;
    var e := RecordCorrection(h, db, r).0;
    Remembered(db, e, later);
    CommandAppended(db.history, e.row);
    SameRowsLater(Apply(db, e), later, r.command);
  }

  /** A command in the history keeps exactly its impact rows. */
  lemma SameRowsLater(db: Db, later: Db, command: Id)
    requires Grows(db, later) && Tables.Command(db.history, command).Some?
    ensures ImpactsOf(later.impacts, command) == ImpactsOf(db.impacts, command)
  {
    forall k | k in later.impacts && k.command == command ensures k in db.impacts {
      assert LoggedKey(db.history, k);
    }
  }

  // ------------------------------------------------------------ the dependency graph

  lemma KeptIsIdentified(db: Db)
    requires GraphKept(db.dependencies, db.versions)
    ensures Identified(db.dependencies)
  {
    forall i | 0 <= i < |db.dependencies| ensures db.dependencies[i].artifact != [] && db.dependencies[i].dependency != [] {
      assert db.dependencies[i].artifact in db.versions.Keys && db.dependencies[i].dependency in db.versions.Keys;
    }
  }

  /** In every reachable state both ends of every dependency exist, no version depends on
      itself, and the two searches are inverse to each other. */
  lemma GraphSound(h: Hash, first: Id, cs: seq<Store.Command>)
    ensures var db := Reached(h, first, cs).db;
      ClosedOver(db.dependencies, db.versions.Keys) && Acyclic(db.dependencies) && Dual(db.dependencies)
  {
    var db := Reached(h, first, cs).db;
    KeptIsIdentified(db);
    DualExactlyWhenAcyclic(db.dependencies);
  }

  // ------------------------------------------------------------ reported impact

  /** `v` is touched by one changed reference. */
  ghost predicate TouchedBy(dependencies: seq<DependencyRow>, destination: Refs, ref: Reference, v: Id)
  {
    || DependsOn(dependencies, v, ref.version)
    || (ref.logicalId in destination && DependsOn(dependencies, v, destination[ref.logicalId]))
  }

  ghost predicate Touched(dependencies: seq<DependencyRow>, destination: Refs, changed: seq<Reference>, v: Id)
  {
    exists i :: 0 <= i < |changed| && TouchedBy(dependencies, destination, changed[i], v)
  }

  lemma TouchedStep(dependencies: seq<DependencyRow>, destination: Refs, changed: seq<Reference>, v: Id)
    requires changed != []
    ensures Touched(dependencies, destination, changed, v) <==>
      Touched(dependencies, destination, changed[..|changed| - 1], v) || TouchedBy(dependencies, destination, changed[|changed| - 1], v)
  {
    var init := changed[..|changed| - 1];
    if Touched(dependencies, destination, init, v) {
      var i :| 0 <= i < |init| && TouchedBy(dependencies, destination, init[i], v);
      assert TouchedBy(dependencies, destination, changed[i], v);
    }
    if Touched(dependencies, destination, changed, v) {
      var i :| 0 <= i < |changed| && TouchedBy(dependencies, destination, changed[i], v);
      assert i < |init| ==> TouchedBy(dependencies, destination, init[i], v);
    }
  }

  /** The reported impact is exactly the references now on the destination that depend on some
      changed version or on the version it replaced. */
  lemma {:induction false} ImpactExact(dependencies: seq<DependencyRow>, present: set<Id>, destination: Refs, changed: seq<Reference>, v: Id)
    ensures v in Impacted(dependencies, present, destination, changed) <==> v in present && Touched(dependencies, destination, changed, v)
  {
    if changed != [] {
      ImpactExact(dependencies, present, destination, changed[..|changed| - 1], v);
      TouchedStep(dependencies, destination, changed, v);
    }
  }

  /** A command the history does not know has no impact row yet. */
  lemma NoRowsUnder(db: Db, command: Id)
    requires ImpactsLogged(db.impacts, db.history) && Tables.Command(db.history, command).None?
    ensures forall k :: k in db.impacts ==> k.command != command
  {
    forall k | k in db.impacts ensures k.command != command {
      assert LoggedKey(db.history, k);
    }
  }

  lemma AddImpactsRows(impacts: map<ImpactKey, ImpactRow>, command: Id, branch: Id, source: Id, dependents: set<Id>, kind: ImpactKind, notice: Text, k: ImpactKey)
    ensures var later := AddImpacts(impacts, command, branch, source, dependents, kind, notice);
      && (k in later <==> k in impacts || (k == ImpactKey(command, branch, k.dependent, kind) && k.dependent in dependents))
      && (k in impacts ==> later[k] == impacts[k])
      && (k in later && k !in impacts ==> later[k] == ImpactRow(source, notice))
  {
  }

  /** The row names a changed version that touches the dependent. */
  ghost predicate Attributed(dependencies: seq<DependencyRow>, destination: Refs, changed: seq<Reference>, notice: Text, row: ImpactRow, dependent: Id)
  {
    exists i :: 0 <= i < |changed|
      && row == ImpactRow(changed[i].version, notice) && TouchedBy(dependencies, destination, changed[i], dependent)
  }

  /** The rows a promotion or adoption adds are exactly one per impacted reference, each naming a
      changed version that touches it; rows already there stay as they were. */
  lemma {:induction false} ImpactRowsExact(impacts: map<ImpactKey, ImpactRow>, command: Id, branch: Id, kind: ImpactKind, notice: Text,
      dependencies: seq<DependencyRow>, present: set<Id>, destination: Refs, changed: seq<Reference>, k: ImpactKey)
    ensures var later := ChangeImpacts(impacts, command, branch, kind, notice, dependencies, present, destination, changed);
      var added := k == ImpactKey(command, branch, k.dependent, kind) && k.dependent in Impacted(dependencies, present, destination, changed);
      && (k in later <==> k in impacts || added)
      && (k in impacts ==> later[k] == impacts[k])
      && (k in later && k !in impacts ==> Attributed(dependencies, destination, changed, notice, later[k], k.dependent))
  {
    if changed != [] {
      var init, last := changed[..|changed| - 1], changed[|changed| - 1];
      ImpactRowsExact(impacts, command, branch, kind, notice, dependencies, present, destination, init, k);
      var earlier := ChangeImpacts(impacts, command, branch, kind, notice, dependencies, present, destination, init);
      AddImpactsRows(earlier, command, branch, last.version, Affected(dependencies, present, last.version, Lookup(destination, last.logicalId)), kind, notice, k);
      if k in earlier && k !in impacts {
        var i :| 0 <= i < |init| && earlier[k] == ImpactRow(init[i].version, notice) && TouchedBy(dependencies, destination, init[i], k.dependent);
        assert changed[i] == init[i] && TouchedBy(dependencies, destination, changed[i], k.dependent);
      }
    }
  }

  /** The head of branch `b`. */
  ghost function HeadOf(db: Db, b: Id): Refs
    requires b in db.branches
  {
    ReferencesOf(db.references, db.branches[b].current)
  }

  /** `changed` lists exactly the references on which two heads differ, with their new versions. */
  ghost predicate ListsDifferences(before: Refs, after: Refs, changed: seq<Reference>)
  {
    forall l :: if Changes(changed, l) then l in after && Lookup(before, l) != Lookup(after, l) && Reference(l, after[l]) in changed
                else Lookup(before, l) == Lookup(after, l)
  }

  ghost predicate Changes(changed: seq<Reference>, l: Id)
  {
    exists ref :: ref in changed && ref.logicalId == l
  }

  /** The reported impact is what the change from head `before` to head `after` calls for. */
  ghost predicate ReportIsExact(dependencies: seq<DependencyRow>, before: Refs, after: Refs, changed: seq<Reference>, impacted: set<Id>)
  {
    && ListsDifferences(before, after, changed)
    && (forall v :: v in impacted <==> v in after.Values && Touched(dependencies, before, changed, v))
  }

  /** The table holds, beside all it held before, exactly one row of the command per impacted
      version, naming a change that touches it. */
  ghost predicate RowsAreExact(dependencies: seq<DependencyRow>, before: Refs, changed: seq<Reference>, impacted: set<Id>,
      impacts: map<ImpactKey, ImpactRow>, later: map<ImpactKey, ImpactRow>, to: Id, command: Id, kind: ImpactKind, notice: Text)
  {
    && (forall k :: k in later && k.command == command <==> k == ImpactKey(command, to, k.dependent, kind) && k.dependent in impacted)
    && (forall k :: k in later && k.command == command ==> Attributed(dependencies, before, changed, notice, later[k], k.dependent))
    && (forall k: ImpactKey :: k.command != command ==> (k in later <==> k in impacts))
    && (forall k :: k in impacts ==> k in later && later[k] == impacts[k])
  }

  ghost predicate ImpactIsExact(db: Db, later: Db, to: Id, command: Id, kind: ImpactKind, notice: Text, reply: Reply)
    requires to in db.branches && to in later.branches && reply.Reply?
  {
    && ReportIsExact(db.dependencies, HeadOf(db, to), HeadOf(later, to), reply.changed, reply.impacted)
    && RowsAreExact(db.dependencies, HeadOf(db, to), reply.changed, reply.impacted, db.impacts, later.impacts, to, command, kind, notice)
  }

  lemma {:induction false} OverridesOfChanges(changed: seq<Reference>, source: Refs)
    requires forall ref :: ref in changed ==> ref.logicalId in source && ref.version == source[ref.logicalId]
    ensures forall l :: l in Overrides(changed) <==> Changes(changed, l)
    ensures forall l :: l in Overrides(changed) ==> l in source && Overrides(changed)[l] == source[l]
  {
    if changed != [] {
      var init, last := changed[..|changed| - 1], changed[|changed| - 1];
      assert changed == init + [last];
      OverridesOfChanges(init, source);
      forall l ensures Changes(changed, l) <==> Changes(init, l) || l == last.logicalId {
        if l == last.logicalId {
          assert last in changed;
        }
      }
    }
  }

  lemma {:induction false} DifferingDiffers(source: Refs, destination: Refs, ids: seq<Id>)
    requires forall l :: l in ids ==> l in source
    ensures forall ref :: ref in Differing(source, destination, ids) ==>
      ref.logicalId in source && ref.version == source[ref.logicalId] && Lookup(destination, ref.logicalId) != Some(ref.version)
  {
    if ids != [] {
      assert forall k :: k in ids[..|ids| - 1] ==> k in ids;
      DifferingDiffers(source, destination, ids[..|ids| - 1]);
    }
  }

  lemma OverrideListsDifferences(source: Refs, destination: Refs, changed: seq<Reference>)
    requires forall ref :: ref in changed ==>
      ref.logicalId in source && ref.version == source[ref.logicalId] && Lookup(destination, ref.logicalId) != Some(ref.version)
    ensures ListsDifferences(destination, destination + Overrides(changed), changed)
  {
    hide Overrides;
    OverridesOfChanges(changed, source);
    var after := destination + Overrides(changed);
    forall l ensures if Changes(changed, l) then l in after && Lookup(destination, l) != Lookup(after, l) && Reference(l, after[l]) in changed
                     else Lookup(destination, l) == Lookup(after, l) {
      if Changes(changed, l) {
        var ref :| ref in changed && ref.logicalId == l;
        assert ref == Reference(l, source[l]);
      }
    }
  }

  /** The writes of an accepted promotion or adoption have exactly the impact they report. */
  lemma CarryImpactExact(db: Db, from: Id, to: Id, ids: seq<Id>, command: Id, operation: Operation, kind: ImpactKind, notice: Text, digest: Text, newId: Id)
    requires Kept(db) && from in db.branches && to in db.branches && Tables.Command(db.history, command).None?
    requires forall l :: l in ids ==> l in ReferencesOf(db.references, db.branches[from].current)
    requires AcceptedBy(Carry(db, from, to, ids, command, operation, kind, notice, digest, newId).1)
    ensures Allowed(db, Carry(db, from, to, ids, command, operation, kind, notice, digest, newId).0)
    ensures var (e, reply) := Carry(db, from, to, ids, command, operation, kind, notice, digest, newId);
      to in Apply(db, e).branches && ImpactIsExact(db, Apply(db, e), to, command, kind, notice, reply)
  {
    hide ReferencesOf, Overrides, Impacted, ChangeImpacts, Differing, ReportIsExact, RowsAreExact;
    var (e, reply) := Carry(db, from, to, ids, command, operation, kind, notice, digest, newId);
    CarryAllowed(db, from, to, ids, command, operation, kind, notice, digest, newId);
    NoRowsUnder(db, command);
    var source, destination := HeadOf(db, from), HeadOf(db, to);
    var changed := Differing(source, destination, ids);
    DifferingDiffers(source, destination, ids);
    CarriedReport(db.dependencies, source, destination, changed);
    CarriedRows(db, to, command, kind, notice, (destination + Overrides(changed)).Values, destination, changed);
    if e.Appends? {
      AppendsKeeps(db, e);
    } else {
      NoOverrides(destination);
    }
  }

  lemma CarriedReport(dependencies: seq<DependencyRow>, source: Refs, destination: Refs, changed: seq<Reference>)
    requires forall ref :: ref in changed ==>
      ref.logicalId in source && ref.version == source[ref.logicalId] && Lookup(destination, ref.logicalId) != Some(ref.version)
    ensures var after := destination + Overrides(changed);
      ReportIsExact(dependencies, destination, after, changed, Impacted(dependencies, after.Values, destination, changed))
  {
    hide Overrides, Impacted, Touched, ListsDifferences;
    OverrideListsDifferences(source, destination, changed);
    var after := destination + Overrides(changed);
    forall v ensures v in Impacted(dependencies, after.Values, destination, changed) <==> v in after.Values && Touched(dependencies, destination, changed, v) {
      ImpactExact(dependencies, after.Values, destination, changed, v);
    }
  }

  lemma NoOverrides(destination: Refs)
    ensures destination + Overrides([]) == destination
  {
  }

  lemma CarriedRows(db: Db, to: Id, command: Id, kind: ImpactKind, notice: Text, present: set<Id>, destination: Refs, changed: seq<Reference>)
    requires forall k :: k in db.impacts ==> k.command != command
    ensures var impacted := Impacted(db.dependencies, present, destination, changed);
      var later := ChangeImpacts(db.impacts, command, to, kind, notice, db.dependencies, present, destination, changed);
      && RowsAreExact(db.dependencies, destination, changed, impacted, db.impacts, later, to, command, kind, notice)
      && (changed == [] ==> later == db.impacts && impacted == {})
  {
    var impacted := Impacted(db.dependencies, present, destination, changed);
    var later := ChangeImpacts(db.impacts, command, to, kind, notice, db.dependencies, present, destination, changed);
    assert changed == [] ==> later == db.impacts && impacted == {};
    hide Attributed, Impacted, ChangeImpacts, RowsAreExact;
    forall k ensures RowExact(db.dependencies, destination, changed, impacted, db.impacts, later, to, command, kind, notice, k) {
      ImpactRowsExact(db.impacts, command, to, kind, notice, db.dependencies, present, destination, changed, k);
    }
    EveryRowExact(db.dependencies, destination, changed, impacted, db.impacts, later, to, command, kind, notice);
  }

  ghost predicate RowExact(dependencies: seq<DependencyRow>, before: Refs, changed: seq<Reference>, impacted: set<Id>,
      impacts: map<ImpactKey, ImpactRow>, later: map<ImpactKey, ImpactRow>, to: Id, command: Id, kind: ImpactKind, notice: Text, k: ImpactKey)
  {
    && (k in later <==> k in impacts || (k == ImpactKey(command, to, k.dependent, kind) && k.dependent in impacted))
    && (k in impacts ==> later[k] == impacts[k])
    && (k in later && k !in impacts ==> Attributed(dependencies, before, changed, notice, later[k], k.dependent))
  }

  lemma EveryRowExact(dependencies: seq<DependencyRow>, before: Refs, changed: seq<Reference>, impacted: set<Id>,
      impacts: map<ImpactKey, ImpactRow>, later: map<ImpactKey, ImpactRow>, to: Id, command: Id, kind: ImpactKind, notice: Text)
    requires forall k :: k in impacts ==> k.command != command
    requires forall k :: RowExact(dependencies, before, changed, impacted, impacts, later, to, command, kind, notice, k)
    ensures RowsAreExact(dependencies, before, changed, impacted, impacts, later, to, command, kind, notice)
  {
    hide Attributed;
    forall k ensures k in later && k.command == command <==> k == ImpactKey(command, to, k.dependent, kind) && k.dependent in impacted {
      assert RowExact(dependencies, before, changed, impacted, impacts, later, to, command, kind, notice, k);
    }
    forall k: ImpactKey ensures k.command != command ==> (k in later <==> k in impacts)
      ensures k in impacts ==> k in later && later[k] == impacts[k]
      ensures k in later && k.command == command ==> Attributed(dependencies, before, changed, notice, later[k], k.dependent) {
      assert RowExact(dependencies, before, changed, impacted, impacts, later, to, command, kind, notice, k);
    }
  }

  /** What an accepted promotion reports and records as impact is exact. */
  lemma PromotionImpactExact(h: Hash, s: State, r: PromotionRequest, newId: Id)
    requires Sound(s) && AcceptedBy(Plan(h, s, Promote(r, newId)).2)
    ensures r.destination in s.db.branches
    ensures r.destination in After(h, s, Promote(r, newId)).db.branches
    ensures ImpactIsExact(s.db, After(h, s, Promote(r, newId)).db, r.destination, r.command, PromotionImpact, PROMOTION_NOTICE(), Plan(h, s, Promote(r, newId)).2)
  {
    PromotedImpact(h, s.db, r, newId);
  }

  lemma PromotedImpact(h: Hash, db: Db, r: PromotionRequest, newId: Id)
    requires Kept(db) && AcceptedBy(PromoteBranch(h, db, r, newId).1)
    ensures var (e, reply) := PromoteBranch(h, db, r, newId);
      && r.destination in db.branches && r.destination in Apply(db, e).branches
      && ImpactIsExact(db, Apply(db, e), r.destination, r.command, PromotionImpact, PROMOTION_NOTICE(), reply)
  {
    hide ReferencesOf, Carry, ImpactIsExact, PromotedIds;
    CarryImpactExact(db, r.source, r.destination, PromotedIds(db, r), r.command, BranchPromoted, PromotionImpact, PROMOTION_NOTICE(), PromotionHash(h, r), newId);
  }

  /** So is what an accepted adoption reports and records. */
  lemma AdoptionImpactExact(h: Hash, s: State, r: AdoptionRequest, ids: NewIds)
    requires Sound(s) && AcceptedBy(Plan(h, s, Adopt(r, ids)).2)
    ensures r.destination in s.db.branches
    ensures r.destination in After(h, s, Adopt(r, ids)).db.branches
    ensures ImpactIsExact(s.db, After(h, s, Adopt(r, ids)).db, r.destination, r.command, AdoptionImpact, ADOPTION_NOTICE(), Plan(h, s, Adopt(r, ids)).2)
  {
    AdoptedImpact(h, s.db, s.ledger, r, ids);
  }

  lemma AdoptedImpact(h: Hash, db: Db, ledger: Ledger, r: AdoptionRequest, ids: NewIds)
    requires Kept(db) && AcceptedBy(AdoptAlternative(h, db, ledger, r, ids).2)
    ensures var (e, _, reply) := AdoptAlternative(h, db, ledger, r, ids);
      && r.destination in db.branches && r.destination in Apply(db, e).branches
      && ImpactIsExact(db, Apply(db, e), r.destination, r.command, AdoptionImpact, ADOPTION_NOTICE(), reply)
  {
    hide ReferencesOf, CarryAndCommit, ImpactIsExact, ExposedIds, Selection;
    var packet := ledger.packets[r.packet];
    var selected := Selection(packet, r);
    CommittedImpact(db, ledger, r, packet, selected, ExposedIds(db, r.source, selected, r.logicalIds).ids, AdoptionHash(h, r, selected), ids);
  }

  lemma CommittedImpact(db: Db, ledger: Ledger, r: AdoptionRequest, packet: Packet, selected: seq<Id>, logicalIds: seq<Id>, digest: Text, ids: NewIds)
    requires Kept(db) && r.source in db.branches && r.destination in db.branches && Tables.Command(db.history, r.command).None?
    requires forall l :: l in logicalIds ==> l in ReferencesOf(db.references, db.branches[r.source].current)
    requires AcceptedBy(CarryAndCommit(db, ledger, r, packet, selected, logicalIds, digest, ids).2)
    ensures var (e, _, reply) := CarryAndCommit(db, ledger, r, packet, selected, logicalIds, digest, ids);
      && r.destination in Apply(db, e).branches
      && ImpactIsExact(db, Apply(db, e), r.destination, r.command, AdoptionImpact, ADOPTION_NOTICE(), reply)
  {
    hide ReferencesOf, Carry, Commit;
    CarryImpactExact(db, r.source, r.destination, logicalIds, r.command, AlternativeAdopted, AdoptionImpact, ADOPTION_NOTICE(), digest, ids.snapshot);
    hide Touched, Attributed, ListsDifferences, Kept;
  }

  ghost predicate CorrectedPair(db: Db, r: CorrectionRequest, k: ImpactKey)
  {
    && k == ImpactKey(r.command, k.branch, k.dependent, SharedSourceCorrection)
    && k.branch in db.branches && k.dependent in HeadOf(db, k.branch).Values
    && (k.dependent == r.version || DependsOn(db.dependencies, k.dependent, r.version))
  }

  /** The rows a correction adds are exactly the pairs of branch and current reference that are
      the source or depend on it; rows already there stay as they were. */
  lemma {:induction false} CorrectionExact(db: Db, r: CorrectionRequest, done: seq<Id>, k: ImpactKey)
    requires forall b :: b in done ==> b in db.branches
    ensures var later := CorrectionImpacts(db, r, done);
      && (k in later <==> k in db.impacts || (k.branch in done && CorrectedPair(db, r, k)))
      && (k in db.impacts ==> later[k] == db.impacts[k])
      && (k in later && k !in db.impacts ==> later[k] == ImpactRow(r.version, r.notice))
  {
    if done != [] {
      var init, b := done[..|done| - 1], done[|done| - 1];
      assert b in done && done == init + [b];
      assert forall c :: c in init ==> c in done;
      CorrectionExact(db, r, init, k);
      AddImpactsRows(CorrectionImpacts(db, r, init), r.command, b, r.version, VisitedOn(db, r.version, b), SharedSourceCorrection, r.notice, k);
    }
  }

  /** The rows of exactly the pairs of branch and current reference that `r` concerns in `db`. */
  ghost predicate CorrectionRows(db: Db, r: CorrectionRequest, rows: map<ImpactKey, ImpactRow>)
  {
    forall k {:trigger k in rows} {:trigger CorrectedPair(db, r, k)} ::
      (k in rows <==> CorrectedPair(db, r, k)) && (k in rows ==> rows[k] == ImpactRow(r.version, r.notice))
  }

  /** A fresh correction on a sound state answers with, and leaves under its command, the rows of
      exactly those pairs. */
  lemma CorrectionReplyExact(h: Hash, s: State, r: CorrectionRequest)
    requires Sound(s) && Tables.Command(s.db.history, r.command).None? && Plan(h, s, Correct(r)).2.Impacts?
    ensures CorrectionRows(s.db, r, Plan(h, s, Correct(r)).2.rows)
    ensures ImpactsOf(After(h, s, Correct(r)).db.impacts, r.command) == Plan(h, s, Correct(r)).2.rows
    ensures forall k: ImpactKey :: k.command != r.command ==> (k in After(h, s, Correct(r)).db.impacts <==> k in s.db.impacts)
  {
    hide ReferencesOf, CorrectionImpacts;
    CorrectedRows(h, s.db, r);
  }

  lemma CorrectedRows(h: Hash, db: Db, r: CorrectionRequest)
    requires Kept(db) && Tables.Command(db.history, r.command).None? && RecordCorrection(h, db, r).1.Impacts?
    ensures var (e, reply) := RecordCorrection(h, db, r);
      && e.Corrects? && CorrectionRows(db, r, reply.rows) && reply.rows == ImpactsOf(e.impacts, r.command)
      && (forall k: ImpactKey :: k.command != r.command ==> (k in e.impacts <==> k in db.impacts))
  {
    hide CorrectionImpacts, ReferencesOf, CorrectedPair;
    NoRowsUnder(db, r.command);
    hide Kept;
    var later := CorrectionImpacts(db, r, Listing(db.branches.Keys));
    forall k
      ensures k in later <==> k in db.impacts || CorrectedPair(db, r, k)
      ensures k in later && k !in db.impacts ==> later[k] == ImpactRow(r.version, r.notice)
      ensures CorrectedPair(db, r, k) ==> k.command == r.command
    {
      CorrectionExact(db, r, Listing(db.branches.Keys), k);
      CorrectedFacts(db, r, k);
    }
  }

  lemma CorrectedFacts(db: Db, r: CorrectionRequest, k: ImpactKey)
    ensures CorrectedPair(db, r, k) ==> k.branch in db.branches && k.command == r.command
  {
  }

  /** In every reachable state, discards included, every reference of every snapshot maps a
      logical id to a version registered under it. */
  lemma ReferencesTypedAlways(h: Hash, first: Id, cs: seq<Store.Command>, t: Id, l: Id)
    requires l in ReferencesOf(Reached(h, first, cs).db.references, t)
    ensures var db := Reached(h, first, cs).db;
      var v := ReferencesOf(db.references, t)[l];
      v in db.versions && db.versions[v].logicalId == l
  {
    hide ReferencesOf;
    MapTyped(Reached(h, first, cs).db, t);
  }
}
