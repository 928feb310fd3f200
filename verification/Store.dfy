/** The project store as one state machine: every mutating command, runs of commands, and
    the invariants that hold in every reachable state. */
module Store {
  import opened Texts
  import opened Graph
  import opened Tables
  import opened Branches
  import opened Registration
  import opened Decisions
  import opened Invariants
  import opened LedgerInvariants

  datatype State = State(db: Db, ledger: Ledger)

  /** A command and the identifiers `newId` would generate for it. */
  datatype Command =
    | Create(branch: Id, name: Id, parent: Id, newSnapshot: Id)
    | Update(update: UpdateRequest, newSnapshot: Id)
    | Promote(promotion: PromotionRequest, newSnapshot: Id)
    | Correct(correction: CorrectionRequest)
    | Register(id: Id, version: VersionRow, inputs: seq<DependencyInput>)
    | Discard(id: Id, heldElsewhere: bool)
    | Publish(input: PacketInput)
    | Revise(prior: Id, rationale: Text, input: PacketInput)
    | Decide(decision: DecisionRequest, newDecision: Id, newCommitment: Id)
    | SetStatus(lifecycle: LifecycleRequest)
    | Adopt(adoption: AdoptionRequest, newIds: NewIds)

  ghost function BranchPlan(h: Hash, db: Db, c: Command): (Effect, Reply)
  {
    match c
    case Create(b, n, p, s) => CreateBranch(h, db, b, n, p, s)
    case Update(r, s) => UpdateBranchReference(h, db, r, s)
    case Promote(r, s) => PromoteBranch(h, db, r, s)
    case Correct(r) => RecordCorrection(h, db, r)
    case Register(id, v, inputs) => RegisterRow(db, id, v, inputs)
    case Discard(id, held) => DiscardRow(db, id, held)
    case _ => (Nothing, Done)
  }

  ghost function LedgerPlan(h: Hash, s: State, c: Command): (Ledger, Reply)
  {
    match c
    case Publish(input) => CreatePacket(s.db, s.ledger, input)
    case Revise(p, why, input) => RevisePacket(s.db, s.ledger, p, why, input)
    case Decide(r, d, m) => RecordOwnerDecision(h, s.db, s.ledger, r, d, m)
    case SetStatus(r) => SetPacketStatus(h, s.db, s.ledger, r)
    case _ => (s.ledger, Done)
  }

  /** What a command writes and answers. */
  ghost function Plan(h: Hash, s: State, c: Command): (Effect, Ledger, Reply)
  {
    if c.Adopt? then AdoptAlternative(h, s.db, s.ledger, c.adoption, c.newIds)
    else if c.Publish? || c.Revise? || c.Decide? || c.SetStatus? then
      var (ledger, reply) := LedgerPlan(h, s, c);
      (Nothing, ledger, reply)
    else
      var (effect, reply) := BranchPlan(h, s.db, c);
      (effect, s.ledger, reply)
  }

  lemma {:induction false} DifferingFromSource(source: map<Id, Id>, destination: map<Id, Id>, ids: seq<Id>)
    requires forall l :: l in ids ==> l in source
    ensures forall i :: 0 <= i < |Differing(source, destination, ids)| ==>
      var ref := Differing(source, destination, ids)[i];
      ref.logicalId in ids && ref.logicalId in source && ref.version == source[ref.logicalId]
  {
    if ids != [] {
      assert forall k :: k in ids[..|ids| - 1] ==> k in ids;
      DifferingFromSource(source, destination, ids[..|ids| - 1]);
    }
  }

  lemma {:induction false} ChangesImpactUnder(impacts: map<ImpactKey, ImpactRow>, command: Id, branch: Id, kind: ImpactKind, notice: Text,
      dependencies: seq<DependencyRow>, present: set<Id>, destination: map<Id, Id>, changed: seq<Reference>)
    ensures AddsImpactsUnder(command, impacts,
      ChangeImpacts(impacts, command, branch, kind, notice, dependencies, present, destination, changed))
  {
    if changed != [] {
      ChangesImpactUnder(impacts, command, branch, kind, notice, dependencies, present, destination, changed[..|changed| - 1]);
    }
  }

  lemma {:induction false} CorrectsImpactUnder(db: Db, r: CorrectionRequest, done: seq<Id>)
    requires forall b :: b in done ==> b in db.branches
    ensures AddsImpactsUnder(r.command, db.impacts, CorrectionImpacts(db, r, done))
  {
    if done != [] {
      assert forall c :: c in done[..|done| - 1] ==> c in done;
      CorrectsImpactUnder(db, r, done[..|done| - 1]);
    }
  }

  lemma CarryAllowed(db: Db, from: Id, to: Id, ids: seq<Id>, command: Id, operation: Operation, kind: ImpactKind, notice: Text, digest: Text, newId: Id)
    requires Kept(db) && from in db.branches && to in db.branches && Tables.Command(db.history, command).None?
    requires forall l :: l in ids ==> l in ReferencesOf(db.references, db.branches[from].current)
    ensures Allowed(db, Carry(db, from, to, ids, command, operation, kind, notice, digest, newId).0)
  {
    var source := ReferencesOf(db.references, db.branches[from].current);
    var destination := ReferencesOf(db.references, db.branches[to].current);
    DifferingFromSource(source, destination, ids);
    MapTyped(db, db.branches[from].current);
    var changed := Differing(source, destination, ids);
    ChangesImpactUnder(db.impacts, command, to, kind, notice, db.dependencies, (destination + Overrides(changed)).Values, destination, changed);
  }

  lemma BranchPlanAllowed(h: Hash, db: Db, c: Command)
    requires Kept(db)
    ensures Allowed(db, BranchPlan(h, db, c).0)
  {
    match c
    case Create(b, n, p, s) =>
      if p in db.branches {
        assert HeadAnchored(db.branches, db.snapshots, p);
      }
    case Promote(r, s) => PromoteAllowed(h, db, r, s);
    case Correct(r) => CorrectsImpactUnder(db, r, Listing(db.branches.Keys));
    case Discard(id, held) =>
    case _ =>
  }

  lemma PromoteAllowed(h: Hash, db: Db, r: PromotionRequest, newId: Id)
    requires Kept(db)
    ensures Allowed(db, PromoteBranch(h, db, r, newId).0)
  {
    if r.source in db.branches && r.destination in db.branches && Tables.Command(db.history, r.command).None? {
      var ids := PromotedIds(db, r);
      if forall l :: l in ids ==> l in ReferencesOf(db.references, db.branches[r.source].current) {
        CarryAllowed(db, r.source, r.destination, ids, r.command, BranchPromoted, PromotionImpact, PROMOTION_NOTICE(), PromotionHash(h, r), newId);
      }
    }
  }

  lemma AdoptAllowed(h: Hash, s: State, r: AdoptionRequest, ids: NewIds)
    requires Kept(s.db)
    ensures Allowed(s.db, AdoptAlternative(h, s.db, s.ledger, r, ids).0)
  {
    if r.packet in s.ledger.packets && r.source in s.db.branches && r.destination in s.db.branches {
      AdoptingAllowed(h, s, r, s.ledger.packets[r.packet], Selection(s.ledger.packets[r.packet], r), ids);
    }
  }

  lemma AdoptingAllowed(h: Hash, s: State, r: AdoptionRequest, packet: Packet, selected: seq<Id>, ids: NewIds)
    requires Kept(s.db) && r.source in s.db.branches && r.destination in s.db.branches
    ensures Allowed(s.db, Adopting(h, s.db, s.ledger, r, packet, selected, ids).0)
  {
    if Adopting(h, s.db, s.ledger, r, packet, selected, ids).0 != Nothing {
      CarryAndCommitAllowed(s.db, s.ledger, r, packet, selected,
        ExposedIds(s.db, r.source, selected, r.logicalIds).ids, AdoptionHash(h, r, selected), ids);
    }
  }

  lemma CarryAndCommitAllowed(db: Db, ledger: Ledger, r: AdoptionRequest, packet: Packet, selected: seq<Id>, logicalIds: seq<Id>, digest: Text, ids: NewIds)
    requires Kept(db) && r.source in db.branches && r.destination in db.branches && Tables.Command(db.history, r.command).None?
    requires forall l :: l in logicalIds ==> l in ReferencesOf(db.references, db.branches[r.source].current)
    ensures Allowed(db, CarryAndCommit(db, ledger, r, packet, selected, logicalIds, digest, ids).0)
  {
    CarryAllowed(db, r.source, r.destination, logicalIds, r.command, AlternativeAdopted, AdoptionImpact, ADOPTION_NOTICE(), digest, ids.snapshot);
  }

  lemma PlanAllowed(h: Hash, s: State, c: Command)
    requires Kept(s.db)
    ensures Allowed(s.db, Plan(h, s, c).0)
  {
    if c.Adopt? {
      AdoptAllowed(h, s, c.adoption, c.newIds);
    } else {
      BranchPlanAllowed(h, s.db, c);
    }
  }

  ghost predicate Sound(s: State)
  {
    Kept(s.db) && LedgerKept(s.ledger)
  }

  ghost function Step(h: Hash, s: State, c: Command): State
    requires Kept(s.db)
  {
    PlanAllowed(h, s, c);
    State(Apply(s.db, Plan(h, s, c).0), Plan(h, s, c).1)
  }

  lemma StepKeeps(h: Hash, s: State, c: Command)
    requires Sound(s)
    ensures Sound(Step(h, s, c)) && Grows(s.db, Step(h, s, c).db)
  {
    PlanAllowed(h, s, c);
    EffectKeeps(s.db, Plan(h, s, c).0);
    if c.Adopt? {
      AdoptKeepsLedger(h, s.db, s.ledger, c.adoption, c.newIds);
    } else if c.Publish? || c.Revise? || c.Decide? || c.SetStatus? {
      LedgerPlanKeeps(h, s, c);
    }
  }

  lemma LedgerPlanKeeps(h: Hash, s: State, c: Command)
    requires LedgerKept(s.ledger)
    ensures LedgerKept(LedgerPlan(h, s, c).0)
  {
    match c
    case Publish(input) => CreateKeepsLedger(s.db, s.ledger, input);
    case Revise(p, why, input) => ReviseKeepsLedger(s.db, s.ledger, p, why, input);
    case Decide(r, d, m) => DecideKeepsLedger(h, s.db, s.ledger, r, d, m);
    case SetStatus(r) => SetStatusKeepsLedger(h, s.db, s.ledger, r);
    case _ =>
  }

  ghost function After(h: Hash, s: State, c: Command): (later: State)
    requires Sound(s)
    ensures Sound(later) && Grows(s.db, later.db) && later == Step(h, s, c)
  {
    StepKeeps(h, s, c);
    Step(h, s, c)
  }

  ghost function Run(h: Hash, s: State, cs: seq<Command>): (later: State)
    requires Sound(s)
    ensures Sound(later) && Grows(s.db, later.db)
    decreases |cs|
  {
    if cs == [] then s else
    var later := Run(h, After(h, s, cs[0]), cs[1..]);
    GrowsTransitive(s.db, After(h, s, cs[0]).db, later.db);
    later
  }

  /** The project as `createProject` leaves it: an empty `main` branch at revision 0. */
  ghost function Initial(first: Id): State
  {
    State(
      Db(true, map[], [], map[T("main") := BranchRow(T("main"), None, first, 0)],
         map[first := SnapshotRow(T("main"), None, 0)], map[], [], map[]),
      Ledger(map[], [], [], {}, map[], map[]))
  }

  lemma InitialSound(first: Id)
    ensures Sound(Initial(first))
  {
    var db := Initial(first).db;
    assert RootedIn(db.snapshots, first, 0);
    assert Acyclic(db.dependencies) by {
      forall p: seq<Id> | Walk([], p) ensures |p| == 1 {
        assert |p| > 1 ==> Edge([], p[0], p[1]);
      }
    }
  }

  /** The states a project can reach from its creation. */
  ghost function Reached(h: Hash, first: Id, cs: seq<Command>): (s: State)
    ensures Sound(s)
  {
    InitialSound(first);
    Run(h, Initial(first), cs)
  }
}
