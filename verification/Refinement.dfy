/** The branch, snapshot and reference tables implement one append-only list of maps per
    branch: entry r is the branch's references at revision r. */
module Refinement {
  import opened Texts
  import opened Graph
  import opened Tables
  import opened Branches
  import opened Registration
  import opened Decisions
  import opened Adoptions
  import opened Invariants
  import opened Store

  type Refs = map<Id, Id>

  /** The simple form: per branch, the references at revisions 0, 1, ..., newest last. */
  type Lines = map<Id, seq<Refs>>

  /** The snapshot `k` parents above `s`. */
  ghost function Up(snapshots: Snapshots, s: Id, k: nat): Id
    decreases k
  {
    if k == 0 || s !in snapshots || snapshots[s].parent.None? then s
    else Up(snapshots, snapshots[s].parent.value, k - 1)
  }

  /** The maps of the `n` ancestors of snapshot `s`, oldest first, and its own. */
  ghost function LineOf(snapshots: Snapshots, references: map<(Id, Id), Id>, s: Id, n: nat): seq<Refs>
  {
    seq(n + 1, r requires 0 <= r <= n => ReferencesOf(references, Up(snapshots, s, n - r)))
  }

  ghost function LineAt(db: Db, b: Id): seq<Refs>
    requires b in db.branches
  {
    LineOf(db.snapshots, db.references, db.branches[b].current, db.branches[b].revision)
  }

  ghost function Abstract(db: Db): Lines
  {
    map b | b in db.branches :: LineAt(db, b)
  }

  ghost predicate NoneEmpty(lines: Lines)
  {
    forall b :: b in lines ==> lines[b] != []
  }

  ghost function Head(lines: Lines, b: Id): Refs
    requires b in lines && lines[b] != []
  {
    lines[b][|lines[b]| - 1]
  }

  ghost function Extend(lines: Lines, b: Id, m: Refs): Lines
    requires b in lines
  {
    lines[b := lines[b] + [m]]
  }

  /** `destination` with the references `ids` of `source` over it. */
  ghost function Override(source: Refs, destination: Refs, ids: set<Id>): Refs
  {
    destination + (map l | l in ids && l in source :: source[l])
  }

  ghost function CarryLines(lines: Lines, from: Id, to: Id, ids: set<Id>): Lines
    requires NoneEmpty(lines) && from in lines && to in lines
  {
    var m := Override(Head(lines, from), Head(lines, to), ids);
    if m == Head(lines, to) then lines else Extend(lines, to, m)
  }

  // ---------------------------------------------------------------- the lines

  lemma {:induction false} UpAnchored(snapshots: Snapshots, b: Id, s: Id, n: nat, fork: Option<Id>, k: nat)
    requires Anchored(snapshots, b, s, n, fork) && k <= n
    ensures Anchored(snapshots, b, Up(snapshots, s, k), n - k, fork)
    decreases k
  {
    if k > 0 {
      UpAnchored(snapshots, b, snapshots[s].parent.value, n - 1, fork, k - 1);
    }
  }

  lemma {:induction false} UpStable(snapshots: Snapshots, later: Snapshots, b: Id, s: Id, n: nat, fork: Option<Id>, k: nat)
    requires Anchored(snapshots, b, s, n, fork) && k <= n && SnapshotsGrow(snapshots, later)
    ensures Up(later, s, k) == Up(snapshots, s, k)
    decreases k
  {
    if k > 0 {
      UpStable(snapshots, later, b, snapshots[s].parent.value, n - 1, fork, k - 1);
    }
  }

  lemma LineOfStep(snapshots: Snapshots, references: map<(Id, Id), Id>, s: Id, n: nat)
    ensures LineOf(snapshots, references, s, 0) == [ReferencesOf(references, s)]
    ensures s in snapshots && snapshots[s].parent.Some? ==>
      LineOf(snapshots, references, s, n + 1) == LineOf(snapshots, references, snapshots[s].parent.value, n) + [ReferencesOf(references, s)]
  {
    if s in snapshots && snapshots[s].parent.Some? {
      var whole, upper := LineOf(snapshots, references, s, n + 1), LineOf(snapshots, references, snapshots[s].parent.value, n);
      forall r | 0 <= r <= n ensures whole[r] == upper[r] {
        assert Up(snapshots, s, n + 1 - r) == Up(snapshots, snapshots[s].parent.value, n - r);
      }
    }
  }

  lemma LineStable(db: Db, later: Db, b: Id, s: Id, n: nat, fork: Option<Id>)
    requires Anchored(db.snapshots, b, s, n, fork)
    requires SnapshotsGrow(db.snapshots, later.snapshots) && ReferencesGrow(db.snapshots, db.references, later.references)
    ensures LineOf(later.snapshots, later.references, s, n) == LineOf(db.snapshots, db.references, s, n)
  {
    var line, later_line := LineOf(db.snapshots, db.references, s, n), LineOf(later.snapshots, later.references, s, n);
    forall r | 0 <= r < |line| ensures later_line[r] == line[r] {
      UpStable(db.snapshots, later.snapshots, b, s, n, fork, n - r);
      UpAnchored(db.snapshots, b, s, n, fork, n - r);
      ReferencesStable(db.snapshots, db.references, later.references, Up(db.snapshots, s, n - r));
    }
  }

  /** A branch's list is its revision plus one long and ends with its current references. */
  lemma LineOfBranch(db: Db, b: Id)
    requires Kept(db) && b in db.branches
    ensures |Abstract(db)[b]| == db.branches[b].revision + 1
    ensures Head(Abstract(db), b) == ReferencesOf(db.references, db.branches[b].current)
  {
    assert Up(db.snapshots, db.branches[b].current, 0) == db.branches[b].current;
  }

  lemma AbstractNoneEmpty(db: Db)
    requires Kept(db)
    ensures NoneEmpty(Abstract(db))
  {
    forall b | b in db.branches ensures Abstract(db)[b] != [] {
      LineOfBranch(db, b);
    }
  }

  /** The snapshot of branch `b` at revision `r`, found by walking up from its head. */
  ghost function SnapshotAt(db: Db, b: Id, r: nat): (t: Id)
    requires BranchesAnchored(db.branches, db.snapshots) && b in db.branches && r <= db.branches[b].revision
    ensures Anchored(db.snapshots, b, t, r, db.branches[b].parentSnapshot)
  {
    assert HeadAnchored(db.branches, db.snapshots, b);
    UpAnchored(db.snapshots, b, db.branches[b].current, db.branches[b].revision, db.branches[b].parentSnapshot, db.branches[b].revision - r);
    Up(db.snapshots, db.branches[b].current, db.branches[b].revision - r)
  }

  /** Entry r of the list is the reference map of the one snapshot of revision r. */
  lemma SnapshotIsEntry(db: Db, t: Id)
    requires Kept(db) && t in db.snapshots
    ensures var b, r := db.snapshots[t].branch, db.snapshots[t].revision;
      b in db.branches && r < |LineAt(db, b)| && LineAt(db, b)[r] == ReferencesOf(db.references, t)
  {
    var b, r := db.snapshots[t].branch, db.snapshots[t].revision;
    assert Owned(db.branches, db.snapshots, t);
    assert !Clash(db.snapshots, t, SnapshotAt(db, b, r));
  }

  // ---------------------------------------------------------- effects on the lines

  /** A branch whose row is unchanged keeps its list. */
  lemma SameRowSameLine(db: Db, later: Db, b: Id)
    requires BranchesAnchored(db.branches, db.snapshots) && Grows(db, later) && b in db.branches
    ensures LineOf(later.snapshots, later.references, db.branches[b].current, db.branches[b].revision) == LineAt(db, b)
  {
    assert HeadAnchored(db.branches, db.snapshots, b);
    LineStable(db, later, b, db.branches[b].current, db.branches[b].revision, db.branches[b].parentSnapshot);
  }

  lemma SameBranchesSameLines(db: Db, later: Db)
    requires BranchesAnchored(db.branches, db.snapshots) && Grows(db, later) && later.branches == db.branches
    ensures Abstract(later) == Abstract(db)
  {
    forall b | b in db.branches ensures LineAt(later, b) == LineAt(db, b) {
      SameRowSameLine(db, later, b);
    }
  }

  lemma OneLineChanges(db: Db, later: Db, b: Id)
    requires BranchesAnchored(db.branches, db.snapshots) && Grows(db, later) && b in later.branches
    requires later.branches == db.branches[b := later.branches[b]]
    ensures Abstract(later) == Abstract(db)[b := LineAt(later, b)]
  {
    forall c | c in db.branches && c != b ensures LineAt(later, c) == LineAt(db, c) {
      SameRowSameLine(db, later, c);
    }
  }

  lemma HeadMoves(db: Db, later: Db, b: Id, m: Refs)
    requires BranchesAnchored(db.branches, db.snapshots) && Grows(db, later) && b in db.branches && b in later.branches
    requires later.branches == db.branches[b := later.branches[b]] && later.branches[b].revision == db.branches[b].revision + 1
    requires later.branches[b].current in later.snapshots && later.snapshots[later.branches[b].current].parent == Some(db.branches[b].current)
    requires ReferencesOf(later.references, later.branches[b].current) == m
    ensures Abstract(later) == Extend(Abstract(db), b, m)
  {
    SameRowSameLine(db, later, b);
    OneLineChanges(db, later, b);
    LineOfStep(later.snapshots, later.references, later.branches[b].current, db.branches[b].revision);
  }

  lemma AppendsExtends(db: Db, e: Effect)
    requires Kept(db) && Allowed(db, e) && e.Appends?
    ensures Abstract(Apply(db, e)) == Extend(Abstract(db), e.branch,
      ReferencesOf(db.references, db.branches[e.branch].current) + Overrides(e.changed))
  {
    var later, m := Apply(db, e), ReferencesOf(db.references, db.branches[e.branch].current) + Overrides(e.changed);
    assert Grows(db, later) && ReferencesOf(later.references, e.snapshot) == m by {
      AppendsKeeps(db, e);
    }
    HeadMoves(db, later, e.branch, m);
  }

  lemma ForksExtends(db: Db, e: Effect)
    requires Kept(db) && Allowed(db, e) && e.Forks?
    ensures Abstract(Apply(db, e)) == Abstract(db)[e.branch := [ReferencesOf(db.references, e.parentSnapshot)]]
  {
    ForksKeeps(db, e);
    OneLineChanges(db, Apply(db, e), e.branch);
    LineOfStep(Apply(db, e).snapshots, Apply(db, e).references, e.snapshot, 0);
  }

  // ------------------------------------------------- the override, computed two ways

  lemma OverrideOneMore(source: Refs, destination: Refs, ids: set<Id>, l: Id)
    requires l in source
    ensures Override(source, destination, ids + {l}) == Override(source, destination, ids)[l := source[l]]
    ensures l in destination && destination[l] == source[l] ==>
      Override(source, destination, ids + {l}) == Override(source, destination, ids)
  {
  }

  lemma UpdateOfSum(a: Refs, b: Refs, l: Id, v: Id)
    ensures a + b[l := v] == (a + b)[l := v]
  {
  }

  lemma {:induction false} OverridesOfDiffering(source: Refs, destination: Refs, ids: seq<Id>)
    requires forall l :: l in ids ==> l in source
    ensures destination + Overrides(Differing(source, destination, ids)) == Override(source, destination, Elements(ids))
  {
    if ids == [] {
      assert Overrides([]) == map[];
      assert Override(source, destination, {}) == destination;
    } else {
      var init, last := ids[..|ids| - 1], ids[|ids| - 1];
      assert forall l :: l in init ==> l in ids;
      OverridesOfDiffering(source, destination, init);
      OverrideOneMore(source, destination, Elements(init), last);
      assert Elements(ids) == Elements(init) + {last} by { assert ids == init + [last]; }
      var earlier := Differing(source, destination, init);
      UpdateOfSum(destination, Overrides(earlier), last, source[last]);
      OverridesOneMore(earlier, Reference(last, source[last]));
      hide Overrides, Override;
    }
  }

  lemma OverridesOneMore(changed: seq<Reference>, ref: Reference)
    ensures Overrides(changed + [ref]) == Overrides(changed)[ref.logicalId := ref.version]
  {
    assert (changed + [ref])[..|changed|] == changed;
  }

  lemma {:induction false} NothingDiffers(source: Refs, destination: Refs, ids: seq<Id>)
    requires forall l :: l in ids ==> l in source
    ensures Differing(source, destination, ids) == [] <==> Override(source, destination, Elements(ids)) == destination
  {
    if Differing(source, destination, ids) == [] {
      OverridesOfDiffering(source, destination, ids);
    }
    if Override(source, destination, Elements(ids)) == destination && ids != [] {
      var init, last := ids[..|ids| - 1], ids[|ids| - 1];
      assert forall l :: l in init ==> l in ids;
      assert last in Override(source, destination, Elements(ids));
      assert Override(source, destination, Elements(ids))[last] == source[last];
      assert Override(source, destination, Elements(init)) == destination by {
        forall l | l in Elements(init) && l in source
          ensures l in destination && destination[l] == source[l]
        {
          assert Override(source, destination, Elements(ids))[l] == source[l];
        }
      }
      NothingDiffers(source, destination, init);
    }
  }

  /** Promotion and adoption append the destination overridden by the carried references, or
      nothing when that changes nothing. */
  lemma CarryRefines(db: Db, from: Id, to: Id, ids: seq<Id>, command: Id, operation: Operation, kind: ImpactKind, notice: Text, digest: Text, newId: Id)
    requires Kept(db) && from in db.branches && to in db.branches && Tables.Command(db.history, command).None?
    requires forall l :: l in ids ==> l in ReferencesOf(db.references, db.branches[from].current)
    requires !Carry(db, from, to, ids, command, operation, kind, notice, digest, newId).1.Thrown?
    ensures NoneEmpty(Abstract(db))
    ensures Allowed(db, Carry(db, from, to, ids, command, operation, kind, notice, digest, newId).0)
    ensures Abstract(Apply(db, Carry(db, from, to, ids, command, operation, kind, notice, digest, newId).0))
      == CarryLines(Abstract(db), from, to, Elements(ids))
  {
    var e := Carry(db, from, to, ids, command, operation, kind, notice, digest, newId).0;
    CarryAllowed(db, from, to, ids, command, operation, kind, notice, digest, newId);
    AbstractNoneEmpty(db);
    CarryEffectRefines(db, from, to, ids, e);
  }

  lemma CarryEffectRefines(db: Db, from: Id, to: Id, ids: seq<Id>, e: Effect)
    requires Kept(db) && from in db.branches && to in db.branches && Allowed(db, e) && NoneEmpty(Abstract(db))
    requires forall l :: l in ids ==> l in ReferencesOf(db.references, db.branches[from].current)
    requires var changed := Differing(ReferencesOf(db.references, db.branches[from].current), ReferencesOf(db.references, db.branches[to].current), ids);
      if changed == [] then e.Logs? else e.Appends? && e.branch == to && e.changed == changed
    ensures Abstract(Apply(db, e)) == CarryLines(Abstract(db), from, to, Elements(ids))
  {
    hide ReferencesOf, RowsOf, Overrides, Differing, Override;
    LineOfBranch(db, from);
    LineOfBranch(db, to);
    var source, destination := ReferencesOf(db.references, db.branches[from].current), ReferencesOf(db.references, db.branches[to].current);
    NothingDiffers(source, destination, ids);
    if e.Appends? {
      OverridesOfDiffering(source, destination, ids);
      AppendsExtends(db, e);
    } else {
      EffectKeeps(db, e);
      SameBranchesSameLines(db, Apply(db, e));
    }
  }

  // ------------------------------------------------------------------ the theorem

  /** The logical ids a command carries from one branch to another. */
  ghost function CarriedIds(s: State, c: Store.Command): set<Id>
    requires c.Promote? || c.Adopt?
  {
    if c.Promote? then
      if c.promotion.logicalIds.Some? then Elements(c.promotion.logicalIds.value)
      else if c.promotion.source in Abstract(s.db) && Abstract(s.db)[c.promotion.source] != [] then Head(Abstract(s.db), c.promotion.source).Keys
      else {}
    else if c.adoption.packet !in s.ledger.packets then {}
    else AdoptedIds(s.db.versions, s.ledger.packets[c.adoption.packet], c.adoption)
  }

  /** What an accepted command does to the lists, in terms of the lists alone. */
  ghost function SimpleStep(s: State, c: Store.Command): Lines
    requires NoneEmpty(Abstract(s.db))
  {
    var lines := Abstract(s.db);
    match c
    case Create(b, _, parent, _) => if parent in lines then lines[b := [Head(lines, parent)]] else lines
    case Update(r, _) => if r.branch in lines then Extend(lines, r.branch, Head(lines, r.branch)[r.logicalId := r.version]) else lines
    case Promote(r, _) => if r.source in lines && r.destination in lines then CarryLines(lines, r.source, r.destination, CarriedIds(s, c)) else lines
    case Adopt(r, _) => if r.source in lines && r.destination in lines then CarryLines(lines, r.source, r.destination, CarriedIds(s, c)) else lines
    case _ => lines
  }

  lemma OverrideOne(m: Refs, l: Id, v: Id)
    ensures m + Overrides([Reference(l, v)]) == m[l := v]
  {
    assert Overrides([Reference(l, v)]) == map[l := v] by {
      assert [Reference(l, v)][..0] == [];
    }
  }

  lemma AppendOne(db: Db, e: Effect, l: Id, v: Id)
    requires Kept(db) && Allowed(db, e) && e.Appends? && e.changed == [Reference(l, v)]
    ensures NoneEmpty(Abstract(db))
    ensures Abstract(Apply(db, e)) == Extend(Abstract(db), e.branch, Head(Abstract(db), e.branch)[l := v])
  {
    AbstractNoneEmpty(db);
    AppendsExtends(db, e);
    LineOfBranch(db, e.branch);
    OverrideOne(ReferencesOf(db.references, db.branches[e.branch].current), l, v);
  }

  lemma UpdateAccepted(h: Hash, db: Db, r: UpdateRequest, newId: Id)
    requires Kept(db) && AcceptedBy(UpdateBranchReference(h, db, r, newId).1)
    ensures NoneEmpty(Abstract(db)) && Allowed(db, UpdateBranchReference(h, db, r, newId).0) && r.branch in db.branches
    ensures Abstract(Apply(db, UpdateBranchReference(h, db, r, newId).0))
      == Extend(Abstract(db), r.branch, Head(Abstract(db), r.branch)[r.logicalId := r.version])
  {
    AppendOne(db, UpdateBranchReference(h, db, r, newId).0, r.logicalId, r.version);
  }

  lemma UpdateRefines(h: Hash, s: State, c: Store.Command)
    requires Sound(s) && c.Update? && NoneEmpty(Abstract(s.db))
    ensures Abstract(Step(h, s, c).db) == if AcceptedBy(Plan(h, s, c).2) then SimpleStep(s, c) else Abstract(s.db)
  {
    if AcceptedBy(Plan(h, s, c).2) {
      UpdateAccepted(h, s.db, c.update, c.newSnapshot);
    }
  }

  lemma CreateAccepted(h: Hash, db: Db, b: Id, name: Id, parent: Id, newId: Id)
    requires Kept(db) && AcceptedBy(CreateBranch(h, db, b, name, parent, newId).1)
    ensures NoneEmpty(Abstract(db)) && Allowed(db, CreateBranch(h, db, b, name, parent, newId).0) && parent in db.branches
    ensures Abstract(Apply(db, CreateBranch(h, db, b, name, parent, newId).0)) == Abstract(db)[b := [Head(Abstract(db), parent)]]
  {
    AbstractNoneEmpty(db);
    assert HeadAnchored(db.branches, db.snapshots, parent);
    LineOfBranch(db, parent);
    ForksExtends(db, CreateBranch(h, db, b, name, parent, newId).0);
  }

  lemma CreateRefines(h: Hash, s: State, c: Store.Command)
    requires Sound(s) && c.Create? && NoneEmpty(Abstract(s.db))
    ensures Abstract(Step(h, s, c).db) == if AcceptedBy(Plan(h, s, c).2) then SimpleStep(s, c) else Abstract(s.db)
  {
    if AcceptedBy(Plan(h, s, c).2) {
      CreateAccepted(h, s.db, c.branch, c.name, c.parent, c.newSnapshot);
    }
  }

  lemma PromotedIdsElements(db: Db, r: PromotionRequest)
    requires Kept(db) && r.source in db.branches
    ensures NoneEmpty(Abstract(db))
    ensures Elements(PromotedIds(db, r)) ==
      if r.logicalIds.Some? then Elements(r.logicalIds.value) else Head(Abstract(db), r.source).Keys
  {
    AbstractNoneEmpty(db);
    LineOfBranch(db, r.source);
    if r.logicalIds.Some? {
      DistinctKeepsElements(r.logicalIds.value);
      SortSorts(Distinct(r.logicalIds.value));
      NoDuplicatesPermuted(Distinct(r.logicalIds.value), Sort(Distinct(r.logicalIds.value)));
      assert Elements(Distinct(r.logicalIds.value)) == Elements(r.logicalIds.value);
    }
  }

  lemma PromoteAccepted(h: Hash, db: Db, r: PromotionRequest, newId: Id)
    requires Kept(db) && AcceptedBy(PromoteBranch(h, db, r, newId).1)
    ensures NoneEmpty(Abstract(db)) && Allowed(db, PromoteBranch(h, db, r, newId).0)
    ensures r.source in db.branches && r.destination in db.branches
    ensures Abstract(Apply(db, PromoteBranch(h, db, r, newId).0))
      == CarryLines(Abstract(db), r.source, r.destination, Elements(PromotedIds(db, r)))
  {
    CarryRefines(db, r.source, r.destination, PromotedIds(db, r), r.command, BranchPromoted, PromotionImpact, PROMOTION_NOTICE(), PromotionHash(h, r), newId);
  }

  lemma PromoteRefines(h: Hash, s: State, c: Store.Command)
    requires Sound(s) && c.Promote? && NoneEmpty(Abstract(s.db))
    ensures Abstract(Step(h, s, c).db) == if AcceptedBy(Plan(h, s, c).2) then SimpleStep(s, c) else Abstract(s.db)
  {
    if AcceptedBy(Plan(h, s, c).2) {
      PromoteAccepted(h, s.db, c.promotion, c.newSnapshot);
      PromotedAreCarried(s, c);
    }
  }

  lemma PromotedAreCarried(s: State, c: Store.Command)
    requires Sound(s) && c.Promote? && c.promotion.source in s.db.branches
    ensures CarriedIds(s, c) == Elements(PromotedIds(s.db, c.promotion))
  {
    PromotedIdsElements(s.db, c.promotion);
  }

  lemma AdoptAccepted(h: Hash, db: Db, ledger: Ledger, r: AdoptionRequest, ids: NewIds)
    requires Kept(db) && AcceptedBy(AdoptAlternative(h, db, ledger, r, ids).2)
    ensures NoneEmpty(Abstract(db)) && Allowed(db, AdoptAlternative(h, db, ledger, r, ids).0)
    ensures r.source in db.branches && r.destination in db.branches && r.packet in ledger.packets
    ensures Exposes(db.versions, ReferencesOf(db.references, db.branches[r.source].current), ledger.packets[r.packet], r)
    ensures Abstract(Apply(db, AdoptAlternative(h, db, ledger, r, ids).0))
      == CarryLines(Abstract(db), r.source, r.destination, AdoptedIds(db.versions, ledger.packets[r.packet], r))
  {
    hide Exposes, AdoptedIds, ExposedIds, CarryLines;
    AdoptingAccepted(h, db, ledger, r, ledger.packets[r.packet], Selection(ledger.packets[r.packet], r), ids);
    ExposedExactly(db, ledger.packets[r.packet], r);
  }

  lemma AdoptingAccepted(h: Hash, db: Db, ledger: Ledger, r: AdoptionRequest, packet: Packet, selected: seq<Id>, ids: NewIds)
    requires Kept(db) && r.source in db.branches && r.destination in db.branches
    requires AcceptedBy(Adopting(h, db, ledger, r, packet, selected, ids).2)
    ensures NoneEmpty(Abstract(db)) && Allowed(db, Adopting(h, db, ledger, r, packet, selected, ids).0)
    ensures ExposedIds(db, r.source, selected, r.logicalIds).Ids?
    ensures Abstract(Apply(db, Adopting(h, db, ledger, r, packet, selected, ids).0))
      == CarryLines(Abstract(db), r.source, r.destination, Elements(ExposedIds(db, r.source, selected, r.logicalIds).ids))
  {
    CommitAccepted(db, ledger, r, packet, selected, ExposedIds(db, r.source, selected, r.logicalIds).ids, AdoptionHash(h, r, selected), ids);
  }

  lemma CommitAccepted(db: Db, ledger: Ledger, r: AdoptionRequest, packet: Packet, selected: seq<Id>, logicalIds: seq<Id>, digest: Text, ids: NewIds)
    requires Kept(db) && r.source in db.branches && r.destination in db.branches && Tables.Command(db.history, r.command).None?
    requires forall l :: l in logicalIds ==> l in ReferencesOf(db.references, db.branches[r.source].current)
    requires AcceptedBy(CarryAndCommit(db, ledger, r, packet, selected, logicalIds, digest, ids).2)
    ensures NoneEmpty(Abstract(db)) && Allowed(db, CarryAndCommit(db, ledger, r, packet, selected, logicalIds, digest, ids).0)
    ensures Abstract(Apply(db, CarryAndCommit(db, ledger, r, packet, selected, logicalIds, digest, ids).0))
      == CarryLines(Abstract(db), r.source, r.destination, Elements(logicalIds))
  {
    CarryRefines(db, r.source, r.destination, logicalIds, r.command, AlternativeAdopted, AdoptionImpact, ADOPTION_NOTICE(), digest, ids.snapshot);
  }

  lemma AdoptRefines(h: Hash, s: State, c: Store.Command)
    requires Sound(s) && c.Adopt? && NoneEmpty(Abstract(s.db))
    ensures Abstract(Step(h, s, c).db) == if AcceptedBy(Plan(h, s, c).2) then SimpleStep(s, c) else Abstract(s.db)
  {
    hide AdoptAlternative, Exposes, AdoptedIds, LineAt, ReferencesOf, Head, CarryLines;
    if AcceptedBy(Plan(h, s, c).2) {
      AdoptAccepted(h, s.db, s.ledger, c.adoption, c.newIds);
    }
  }

  /** Every accepted command does to the tables exactly what the simple step does to the
      lists; every other command, refused, replayed, stale or failed, changes no list. */
  lemma StepRefines(h: Hash, s: State, c: Store.Command)
    requires Sound(s)
    ensures NoneEmpty(Abstract(s.db))
    ensures Abstract(Step(h, s, c).db) == if AcceptedBy(Plan(h, s, c).2) then SimpleStep(s, c) else Abstract(s.db)
  {
    hide Abstract, Step, Plan, SimpleStep, NoneEmpty, SnapshotsRooted, SnapshotsOwned, OnePerRevision, BranchesAnchored, ReferencesTyped, CommandsUnique, AllWitnessed, AllChained, GraphKept;
    AbstractNoneEmpty(s.db);
    match c
    case Create(_, _, _, _) => CreateRefines(h, s, c);
    case Update(_, _) => UpdateRefines(h, s, c);
    case Promote(_, _) => PromoteRefines(h, s, c);
    case Adopt(_, _) => AdoptRefines(h, s, c);
    case _ => OtherStepRefines(h, s, c);
  }

  /** Corrections, registrations, discards and decisions move no branch. */
  lemma OtherStepRefines(h: Hash, s: State, c: Store.Command)
    requires Sound(s) && !c.Create? && !c.Update? && !c.Promote? && !c.Adopt?
    ensures NoneEmpty(Abstract(s.db))
    ensures Abstract(Step(h, s, c).db) == if AcceptedBy(Plan(h, s, c).2) then SimpleStep(s, c) else Abstract(s.db)
  {
    hide CorrectionImpacts, IsBlank, DependencyRows, LabelTaken, TouchedByDependency, HeldByForeignKey, T;
    hide LedgerPlan, SnapshotsRooted, SnapshotsOwned, OnePerRevision, ReferencesTyped, CommandsUnique, AllWitnessed, AllChained, GraphKept;
    AbstractNoneEmpty(s.db);
    StepKeeps(h, s, c);
    SameBranchesSameLines(s.db, Step(h, s, c).db);
    hide Abstract;
  }

  /** Over any run, every branch's list only grows at its end. */
  lemma RunExtendsLines(h: Hash, s: State, cs: seq<Store.Command>, b: Id)
    requires Sound(s) && b in s.db.branches
    ensures b in Run(h, s, cs).db.branches
    ensures Abstract(s.db)[b] <= Abstract(Run(h, s, cs).db)[b]
  {
    LinePrefix(s.db, Run(h, s, cs).db, b);
  }

  lemma LinePrefix(db: Db, later: Db, b: Id)
    requires Kept(db) && Kept(later) && Grows(db, later) && b in db.branches
    ensures b in later.branches && LineAt(db, b) <= LineAt(later, b)
  {
    forall r | 0 <= r < |LineAt(db, b)| ensures r < |LineAt(later, b)| && LineAt(later, b)[r] == LineAt(db, b)[r] {
      EntryStays(db, later, b, r);
    }
  }

  lemma EntryStays(db: Db, later: Db, b: Id, r: nat)
    requires Kept(db) && Kept(later) && Grows(db, later) && b in db.branches && r <= db.branches[b].revision
    ensures b in later.branches && r < |LineAt(db, b)| && r < |LineAt(later, b)| && LineAt(later, b)[r] == LineAt(db, b)[r]
  {
    var t := SnapshotAt(db, b, r);
    SnapshotIsEntry(db, t);
    SnapshotIsEntry(later, t);
    ReferencesStable(db.snapshots, db.references, later.references, t);
  }
}
