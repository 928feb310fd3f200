/** When packets, decisions and adoptions are accepted, and what the others answer. */
module DecisionOutcomes {
  import opened Texts
  import opened Graph
  import opened Tables
  import opened Branches
  import opened Decisions
  import opened Adoptions
  import opened Invariants
  import opened LedgerInvariants
  import opened Store
  import opened Refinement
  import opened DecisionGuarantees
  import opened BranchOutcomes

  // ------------------------------------------------------------------ adoptions

  /** What an adoption needs before revisions and commands are looked at. */
  ghost predicate AdoptionInOrder(db: Db, ledger: Ledger, r: AdoptionRequest)
  {
    && db.ready && r.source != r.destination && r.packet in ledger.packets
    && var packet := ledger.packets[r.packet];
    && packet.branch == r.source && packet.status != Archived && packet.status != Superseded
    && Chosen(packet, r) != [] && (forall v :: v in Chosen(packet, r) ==> v in packet.candidates)
    && r.source in db.branches && r.destination in db.branches
  }

  /** The adoption sees the packet's revision of the source and, when it names one, the
      destination's. */
  ghost predicate RevisionsSeen(db: Db, ledger: Ledger, r: AdoptionRequest)
    requires AdoptionInOrder(db, ledger, r)
  {
    && db.branches[r.source].revision == ledger.packets[r.packet].revision
    && (r.expectedRevision.Some? ==> r.expectedRevision.value == db.branches[r.destination].revision)
  }

  /** The keys of the decision and commitment an adoption would add are free. */
  ghost predicate AdoptionKeysFree(ledger: Ledger, command: Id, ids: NewIds)
  {
    && (forall d :: d in ledger.decisions ==> d.id != ids.decision && d.command != T("adoption-decision-") + command)
    && (forall c :: c in ledger.commitments ==> c.id != ids.commitment && c.decision != ids.decision)
    && EventCommand(T("adoption-") + command) !in ledger.commitmentEvents
  }

  lemma KeysFreeMeans(ledger: Ledger, id: Id, command: Id, commitment: Id)
    ensures DecisionTaken(ledger.decisions, id, command) <==> !(forall d :: d in ledger.decisions ==> d.id != id && d.command != command)
    ensures CommitmentTaken(ledger.commitments, commitment, id) <==> !(forall c :: c in ledger.commitments ==> c.id != commitment && c.decision != id)
  {
    if DecisionTaken(ledger.decisions, id, command) {
      var i :| 0 <= i < |ledger.decisions| && (ledger.decisions[i].id == id || ledger.decisions[i].command == command);
      assert ledger.decisions[i] in ledger.decisions;
    }
    if CommitmentTaken(ledger.commitments, commitment, id) {
      var i :| 0 <= i < |ledger.commitments| && (ledger.commitments[i].id == commitment || ledger.commitments[i].decision == id);
      assert ledger.commitments[i] in ledger.commitments;
    }
  }

  lemma CommitsExactly(ledger: Ledger, r: AdoptionRequest, packet: Packet, selected: seq<Id>, digest: Text, reply: Reply, ids: NewIds)
    requires LedgerKept(ledger) && NoDuplicates(selected)
    requires reply.Reply? && reply.snapshot.Some? && reply.revision >= 0
    ensures Commit(ledger, r, packet, selected, digest, reply, ids).0.Some? <==>
      Covered(ledger.decisions, r.packet, selected) || AdoptionKeysFree(ledger, r.command, ids)
  {
    hide T;
    CoveredByFirst(ledger, r.packet, selected);
    KeysFreeMeans(ledger, ids.decision, T("adoption-decision-") + r.command, ids.commitment);
    var approved := FirstApproved(ledger.decisions, r.packet, selected);
    if approved.Some? {
      ApprovedHasCommitment(ledger, approved.value);
    }
    hide LedgerKept, Covered;
  }

  /** What an adoption in order needs besides to be accepted. */
  ghost predicate MayAdopt(db: Db, ledger: Ledger, r: AdoptionRequest, ids: NewIds)
    requires AdoptionInOrder(db, ledger, r)
  {
    var packet := ledger.packets[r.packet];
    && r.command !in ledger.adoptions && BranchOutcomes.Unused(db.history, r.command)
    && RevisionsSeen(db, ledger, r)
    && Exposes(db.versions, BranchOutcomes.HeadOf(db, r.source), packet, r)
    && (AgreeOn(BranchOutcomes.HeadOf(db, r.source), BranchOutcomes.HeadOf(db, r.destination), AdoptedIds(db.versions, packet, r)) || ids.snapshot !in db.snapshots)
    && (Covered(ledger.decisions, r.packet, Chosen(packet, r)) || AdoptionKeysFree(ledger, r.command, ids))
  }

  /** The answer has the destination's revision, moved on unless the heads agree on the adopted ids. */
  ghost predicate MovesUnlessAgreed(db: Db, ledger: Ledger, r: AdoptionRequest, reply: Reply)
    requires AdoptionInOrder(db, ledger, r) && reply.Reply?
  {
    var agree := AgreeOn(BranchOutcomes.HeadOf(db, r.source), BranchOutcomes.HeadOf(db, r.destination), AdoptedIds(db.versions, ledger.packets[r.packet], r));
    reply.revision == if agree then db.branches[r.destination].revision else db.branches[r.destination].revision + 1
  }

  /** On a sound state an adoption is accepted if and only if it is in order, its command is unused,
      source and destination are at the revisions of the packet and the request, the source
      exposes the chosen versions, and the identifiers it needs are free. It moves the
      destination on exactly when the heads disagree on an adopted id. */
  lemma AdoptionAcceptedExactly(h: Hash, s: State, r: AdoptionRequest, ids: NewIds)
    requires Sound(s)
    ensures var reply := Plan(h, s, Adopt(r, ids)).2;
      && (AcceptedBy(reply) <==> AdoptionInOrder(s.db, s.ledger, r) && MayAdopt(s.db, s.ledger, r, ids))
      && (AcceptedBy(reply) ==> MovesUnlessAgreed(s.db, s.ledger, r, reply))
  {
    AdoptedExactly(h, s.db, s.ledger, r, ids);
  }

  lemma CoveredSame(decisions: seq<Decision>, packet: Id, selected: seq<Id>, chosen: seq<Id>)
    requires Elements(selected) == Elements(chosen)
    ensures Covered(decisions, packet, selected) <==> Covered(decisions, packet, chosen)
  {
    if Covered(decisions, packet, selected) {
      var i :| 0 <= i < |decisions| && Covers(decisions[i], packet, selected);
      assert Covers(decisions[i], packet, chosen);
    }
    if Covered(decisions, packet, chosen) {
      var i :| 0 <= i < |decisions| && Covers(decisions[i], packet, chosen);
      assert Covers(decisions[i], packet, selected);
    }
  }

  lemma SelectionInOrder(packet: Packet, r: AdoptionRequest)
    ensures (Selection(packet, r) != [] && AllIn(Selection(packet, r), packet.candidates)) <==>
      (Chosen(packet, r) != [] && forall v :: v in Chosen(packet, r) ==> v in packet.candidates)
  {
    hide Selection;
    SelectionIsChosen(packet, r);
    var selected, chosen := Selection(packet, r), Chosen(packet, r);
    assert selected != [] ==> selected[0] in selected;
    assert chosen != [] ==> chosen[0] in chosen;
    assert AllIn(selected, packet.candidates) <==> forall v :: v in selected ==> v in packet.candidates;
  }

  lemma AdoptedExactly(h: Hash, db: Db, ledger: Ledger, r: AdoptionRequest, ids: NewIds)
    requires LedgerKept(ledger)
    ensures var reply := AdoptAlternative(h, db, ledger, r, ids).2;
      && (AcceptedBy(reply) <==> AdoptionInOrder(db, ledger, r) && MayAdopt(db, ledger, r, ids))
      && (AcceptedBy(reply) ==> MovesUnlessAgreed(db, ledger, r, reply))
  {
    hide Selection, Chosen, ExposedIds, Exposes, AdoptedIds, CarryAndCommit, LedgerKept, ReferencesOf, AgreeOn, Covered, AdoptionKeysFree, AllIn;
    BranchOutcomes.UnusedIsNone(db.history, r.command);
    if r.packet in ledger.packets {
      var packet := ledger.packets[r.packet];
      SelectionInOrder(packet, r);
      if AdoptionInOrder(db, ledger, r) {
        SelectionIsChosen(packet, r);
        ExposedExactly(db, packet, r);
        CoveredSame(ledger.decisions, r.packet, Selection(packet, r), Chosen(packet, r));
        var exposed := ExposedIds(db, r.source, Selection(packet, r), r.logicalIds);
        if exposed.Ids? {
          CarriedExactly(db, ledger, r, packet, Selection(packet, r), exposed.ids, AdoptionHash(h, r, Selection(packet, r)), ids);
        }
      }
    }
  }

  lemma CarriedExactly(db: Db, ledger: Ledger, r: AdoptionRequest, packet: Packet, selected: seq<Id>, logicalIds: seq<Id>, digest: Text, ids: NewIds)
    requires LedgerKept(ledger) && NoDuplicates(selected) && r.source in db.branches && r.destination in db.branches
    requires forall l :: l in logicalIds ==> l in ReferencesOf(db.references, db.branches[r.source].current)
    ensures var reply := CarryAndCommit(db, ledger, r, packet, selected, logicalIds, digest, ids).2;
      var agree := AgreeOn(BranchOutcomes.HeadOf(db, r.source), BranchOutcomes.HeadOf(db, r.destination), Elements(logicalIds));
      && (AcceptedBy(reply) <==>
            (agree || ids.snapshot !in db.snapshots) && (Covered(ledger.decisions, r.packet, selected) || AdoptionKeysFree(ledger, r.command, ids)))
      && (AcceptedBy(reply) ==> reply.revision == db.branches[r.destination].revision + (if agree then 0 else 1))
  {
    hide LedgerKept, Commit, ReferencesOf, Covered, AdoptionKeysFree, AgreeOn, Differing, ChangeImpacts, Impacted, Overrides;
    DifferingNone(BranchOutcomes.HeadOf(db, r.source), BranchOutcomes.HeadOf(db, r.destination), logicalIds);
    var reply := Carry(db, r.source, r.destination, logicalIds, r.command, AlternativeAdopted, AdoptionImpact, ADOPTION_NOTICE(), digest, ids.snapshot).1;
    if !reply.Thrown? {
      CommitsExactly(ledger, r, packet, selected, digest, reply, ids);
    }
  }

  /** The other answers of an adoption: stale exactly when only a revision is not the one seen, and
      a used command replays its recorded adoption when the payload hashes agree. */
  lemma AdoptionRefusedExactly(h: Hash, db: Db, ledger: Ledger, r: AdoptionRequest, ids: NewIds)
    ensures var reply := AdoptAlternative(h, db, ledger, r, ids).2;
      && (reply.Reply? && reply.status.Stale? <==> AdoptionInOrder(db, ledger, r) && r.command !in ledger.adoptions && !RevisionsSeen(db, ledger, r))
      && (reply.Reply? && reply.status.Stale? ==> reply == Replied(Stale, db.branches[r.destination].revision, None))
      && (AdoptionInOrder(db, ledger, r) && r.command in ledger.adoptions ==>
            var a := ledger.adoptions[r.command];
            reply == if a.payloadHash == h(AdoptPayload(r.packet, r.source, r.destination, Distinct(Chosen(ledger.packets[r.packet], r)), r.logicalIds, r.expectedRevision))
                     then Reply(Duplicate, a.revision, Some(a.snapshot), a.changed, a.impacted, None)
                     else Replied(Rejected, db.branches[r.destination].revision, None))
  {
    hide ExposedIds, CarryAndCommit, ReferencesOf, AllIn, Distinct;
    if r.packet in ledger.packets {
      SelectionInOrder(ledger.packets[r.packet], r);
    }
  }

  /** After an accepted adoption the destination maps every adopted id to a chosen version, the one
      the source has, and every other id as before. */
  lemma AdoptedVersionsChosen(h: Hash, s: State, r: AdoptionRequest, ids: NewIds, l: Id)
    requires Sound(s) && AcceptedBy(Plan(h, s, Adopt(r, ids)).2)
    ensures r.packet in s.ledger.packets && r.source in s.db.branches && r.destination in s.db.branches
    ensures r.destination in After(h, s, Adopt(r, ids)).db.branches
    ensures var packet := s.ledger.packets[r.packet];
      var later := BranchOutcomes.HeadOf(After(h, s, Adopt(r, ids)).db, r.destination);
      if l in AdoptedIds(s.db.versions, packet, r) then l in later && Lookup(BranchOutcomes.HeadOf(s.db, r.source), l) == Some(later[l]) && later[l] in Chosen(packet, r)
      else Lookup(later, l) == Lookup(BranchOutcomes.HeadOf(s.db, r.destination), l)
  {
    hide AdoptAlternative, Exposes, AdoptedIds, ReferencesOf, LineAt;
    var later := After(h, s, Adopt(r, ids)).db;
    AdoptAccepted(h, s.db, s.ledger, r, ids);
    var packet := s.ledger.packets[r.packet];
    LineOfBranch(s.db, r.source);
    LineOfBranch(s.db, r.destination);
    LineOfBranch(later, r.destination);
    ExposedEntry(s.db.versions, BranchOutcomes.HeadOf(s.db, r.source), packet, r, l);
    hide Abstract;
  }

  lemma ExposedEntry(versions: map<Id, VersionRow>, head: map<Id, Id>, packet: Packet, r: AdoptionRequest, l: Id)
    requires Exposes(versions, head, packet, r)
    ensures l in AdoptedIds(versions, packet, r) ==> l in head && head[l] in Chosen(packet, r)
  {
  }

  /** An accepted adoption is recorded as it was answered. */
  lemma AdoptionRecorded(h: Hash, db: Db, ledger: Ledger, r: AdoptionRequest, ids: NewIds)
    requires AcceptedBy(AdoptAlternative(h, db, ledger, r, ids).2)
    ensures var (_, later, reply) := AdoptAlternative(h, db, ledger, r, ids);
      && r.packet in ledger.packets && reply.snapshot.Some? && reply.revision >= 0
      && later.packets == ledger.packets
      && later.adoptions == ledger.adoptions[r.command := Adoption(
           h(AdoptPayload(r.packet, r.source, r.destination, Distinct(Chosen(ledger.packets[r.packet], r)), r.logicalIds, r.expectedRevision)),
           r.packet, r.source, r.destination, reply.revision, reply.snapshot.value, reply.changed, reply.impacted)]
  {
    hide ExposedIds, Carry, ReferencesOf, AllIn, Distinct, FirstApproved, CommitmentOf, T;
  }

  lemma PlanKeepsAdoptions(h: Hash, s: State, c: Store.Command, command: Id)
    requires command in s.ledger.adoptions
    ensures command in Plan(h, s, c).1.adoptions && Plan(h, s, c).1.adoptions[command] == s.ledger.adoptions[command]
  {
    hide AdoptAlternative, BranchPlan, Distinct, IsBlank, T;
    match c
    case Adopt(r, ids) => AdoptKeepsAdoptions(h, s.db, s.ledger, r, ids, command);
    case _ =>
  }

  lemma AdoptKeepsAdoptions(h: Hash, db: Db, ledger: Ledger, r: AdoptionRequest, ids: NewIds, command: Id)
    requires command in ledger.adoptions
    ensures var later := AdoptAlternative(h, db, ledger, r, ids).1;
      command in later.adoptions && later.adoptions[command] == ledger.adoptions[command]
  {
    if AcceptedBy(AdoptAlternative(h, db, ledger, r, ids).2) {
      AdoptionRecorded(h, db, ledger, r, ids);
      AdoptedUnused(h, db, ledger, r, ids);
    }
    hide AdoptAlternative;
  }

  lemma AdoptedUnused(h: Hash, db: Db, ledger: Ledger, r: AdoptionRequest, ids: NewIds)
    requires AcceptedBy(AdoptAlternative(h, db, ledger, r, ids).2)
    ensures r.command !in ledger.adoptions
  {
    hide ExposedIds, CarryAndCommit, ReferencesOf, AllIn, Selection;
  }

  lemma {:induction false} RunKeepsAdoptions(h: Hash, s: State, cs: seq<Store.Command>, command: Id)
    requires Sound(s) && command in s.ledger.adoptions
    ensures command in Run(h, s, cs).ledger.adoptions && Run(h, s, cs).ledger.adoptions[command] == s.ledger.adoptions[command]
    decreases |cs|
  {
    hide Sound, Plan;
    if cs != [] {
      PlanKeepsAdoptions(h, s, cs[0], command);
      RunKeepsAdoptions(h, After(h, s, cs[0]), cs[1..], command);
    }
  }

  /** An accepted adoption sent again after any run, while it is still in order and chooses the same,
      answers with the revision, snapshot, changes and impact it first produced. */
  lemma AdoptionOnce(h: Hash, s: State, r: AdoptionRequest, ids: NewIds, cs: seq<Store.Command>, ids': NewIds)
    requires Sound(s) && AcceptedBy(Plan(h, s, Adopt(r, ids)).2)
    ensures var original := Plan(h, s, Adopt(r, ids)).2;
      var later := Run(h, After(h, s, Adopt(r, ids)), cs);
      && r.packet in s.ledger.packets
      && (AdoptionInOrder(later.db, later.ledger, r)
          && Distinct(Chosen(later.ledger.packets[r.packet], r)) == Distinct(Chosen(s.ledger.packets[r.packet], r)) ==>
            Plan(h, later, Adopt(r, ids')).2 == Reply(Duplicate, original.revision, original.snapshot, original.changed, original.impacted, None))
  {
    AdoptionRecorded(h, s.db, s.ledger, r, ids);
    hide Sound, Run, AdoptAlternative, Chosen, Distinct, AdoptionInOrder;
    var later := Run(h, After(h, s, Adopt(r, ids)), cs);
    RunKeepsAdoptions(h, After(h, s, Adopt(r, ids)), cs, r.command);
    AdoptionRefusedExactly(h, later.db, later.ledger, r, ids');
  }

  // ------------------------------------------------------------------ owner decisions

  /** The decision fits its packet: an action it permits, on some of its candidates, on exactly its
      dependencies. */
  ghost predicate FitsPacket(packet: Packet, r: DecisionRequest)
  {
    && (r.branch.Some? ==> r.branch.value == packet.branch)
    && r.disposition.Some? && r.disposition.value in packet.actions
    && (r.disposition.value == Approved ==> r.selected != [])
    && (forall v :: v in r.selected ==> v in packet.candidates)
    && (r.dependencies.Some? ==> Elements(r.dependencies.value) == Elements(packet.dependencies))
  }

  /** The store is ready and the decision fits the packet version the owner saw. */
  ghost predicate DecisionInOrder(db: Db, ledger: Ledger, r: DecisionRequest)
  {
    && db.ready && r.packet in ledger.packets && FitsPacket(ledger.packets[r.packet], r)
    && (r.packetVersion.Some? ==> r.packetVersion.value == ledger.packets[r.packet].version)
    && ledger.packets[r.packet].branch in db.branches
  }

  ghost predicate CommandFree(decisions: seq<Decision>, command: Id)
  {
    forall d :: d in decisions ==> d.command != command
  }

  /** The branch is at the packet's revision, and at the one the request names. */
  ghost predicate DecisionTimely(db: Db, ledger: Ledger, r: DecisionRequest)
    requires DecisionInOrder(db, ledger, r)
  {
    var packet := ledger.packets[r.packet];
    && db.branches[packet.branch].revision == packet.revision
    && (r.expectedRevision.Some? ==> r.expectedRevision.value == packet.revision)
  }

  ghost predicate DecisionKeysFree(ledger: Ledger, r: DecisionRequest, decisionId: Id, commitmentId: Id)
    requires r.disposition.Some?
  {
    && (forall d :: d in ledger.decisions ==> d.id != decisionId)
    && (r.disposition.value == Approved ==>
          && (forall c :: c in ledger.commitments ==> c.id != commitmentId && c.decision != decisionId)
          && EventCommand(r.command) !in ledger.commitmentEvents)
  }

  ghost predicate Closed(packet: Packet)
  {
    packet.status == Archived || packet.status == Superseded
  }

  /** The decision on record says what the owner decided, of the packet and revision seen. */
  ghost predicate RecordsRequest(d: Decision, packet: Packet, r: DecisionRequest)
    requires r.disposition.Some?
  {
    && d.packet == r.packet && d.packetVersion == packet.version && d.disposition == r.disposition.value && d.command == r.command
    && NoDuplicates(d.selected) && Elements(d.selected) == Elements(r.selected) && Elements(d.dependencies) == Elements(packet.dependencies)
    && d.branch == packet.branch && d.revision == packet.revision
  }

  lemma FitsExactly(packet: Packet, r: DecisionRequest)
    requires NoDuplicates(packet.dependencies)
    ensures var selected, dependencies := Distinct(r.selected), Distinct(if r.dependencies.Some? then r.dependencies.value else packet.dependencies);
      && NoDuplicates(selected) && Elements(selected) == Elements(r.selected) && (selected == [] <==> r.selected == [])
      && (AllIn(selected, packet.candidates) <==> forall v :: v in r.selected ==> v in packet.candidates)
      && (SetEqual(dependencies, packet.dependencies) <==> (r.dependencies.Some? ==> Elements(r.dependencies.value) == Elements(packet.dependencies)))
      && Elements(dependencies) == Elements(if r.dependencies.Some? then r.dependencies.value else packet.dependencies)
  {
    hide Distinct, SetEqual;
    var named := if r.dependencies.Some? then r.dependencies.value else packet.dependencies;
    var selected, dependencies := Distinct(r.selected), Distinct(named);
    DistinctKeepsElements(r.selected);
    DistinctKeepsElements(named);
    assert Elements(selected) == Elements(r.selected) && Elements(dependencies) == Elements(named);
    SetEqualDecides(dependencies, packet.dependencies);
    assert selected != [] ==> selected[0] in selected;
    assert r.selected != [] ==> r.selected[0] in r.selected;
    assert AllIn(selected, packet.candidates) <==> forall v :: v in selected ==> v in packet.candidates;
  }

  lemma FoundByCommand(decisions: seq<Decision>, d: Decision)
    requires DecisionKeysUnique(decisions) && d in decisions
    ensures DecisionByCommand(decisions, d.command) == Some(d)
  {
    var i :| 0 <= i < |decisions| && decisions[i] == d;
    var found := DecisionByCommand(decisions, d.command).value;
    var j :| 0 <= j < |decisions| && decisions[j] == found;
  }

  lemma CommandFreeIsNone(decisions: seq<Decision>, command: Id)
    ensures CommandFree(decisions, command) <==> DecisionByCommand(decisions, command).None?
  {
    if DecisionByCommand(decisions, command).None? {
      forall d | d in decisions ensures d.command != command {
        var i :| 0 <= i < |decisions| && decisions[i] == d;
      }
    }
  }

  lemma ApprovesExactly(ledger: Ledger, d: Decision, commitment: Id, r: DecisionRequest)
    requires d.command == r.command && r.disposition == Some(Approved) && CommandFree(ledger.decisions, r.command)
    ensures Approve(ledger, d, commitment, EventCommand(r.command)).Some? <==> DecisionKeysFree(ledger, r, d.id, commitment)
  {
    KeysFreeMeans(ledger, d.id, d.command, commitment);
  }

  lemma InsertsExactly(ledger: Ledger, d: Decision, r: DecisionRequest, commitment: Id)
    requires d.command == r.command && r.disposition.Some? && r.disposition.value != Approved && CommandFree(ledger.decisions, r.command)
    ensures DecisionTaken(ledger.decisions, d.id, d.command) <==> !DecisionKeysFree(ledger, r, d.id, commitment)
  {
    KeysFreeMeans(ledger, d.id, d.command, commitment);
  }

  /** A decision is recorded if and only if it is in order, its command is unused, the packet is not
      closed, the branch is at the packet's revision, and its keys are free. */
  lemma DecisionRecordedExactly(h: Hash, db: Db, ledger: Ledger, r: DecisionRequest, decisionId: Id, commitmentId: Id)
    requires LedgerKept(ledger)
    ensures var (later, reply) := RecordOwnerDecision(h, db, ledger, r, decisionId, commitmentId);
      && (reply.DecisionReply? && reply.outcome.Recorded? <==>
            && DecisionInOrder(db, ledger, r) && CommandFree(ledger.decisions, r.command) && !Closed(ledger.packets[r.packet])
            && DecisionTimely(db, ledger, r) && DecisionKeysFree(ledger, r, decisionId, commitmentId))
      && (!(reply.DecisionReply? && reply.outcome.Recorded?) ==> later == ledger)
  {
    hide Distinct, SetEqual, AllIn, EventCommand, Approve, DecisionTaken, DecisionKeysFree, CommandFree;
    CommandFreeIsNone(ledger.decisions, r.command);
    if r.packet in ledger.packets && r.disposition.Some? {
      var packet := ledger.packets[r.packet];
      assert NoDuplicates(packet.dependencies);
      FitsExactly(packet, r);
      if DecisionInOrder(db, ledger, r) && CommandFree(ledger.decisions, r.command) {
        var d := Unlinked(h, db, packet, r, decisionId);
        if d.disposition.Approved? {
          ApprovesExactly(ledger, d, commitmentId, r);
        } else {
          InsertsExactly(ledger, d, r, commitmentId);
        }
      }
    }
    hide LedgerKept, NoDuplicates;
  }

  /** The decision row before it is linked to a commitment. */
  ghost function Unlinked(h: Hash, db: Db, packet: Packet, r: DecisionRequest, decisionId: Id): Decision
    requires r.disposition.Some? && packet.branch in db.branches
  {
    var selected, dependencies := Distinct(r.selected), Distinct(if r.dependencies.Some? then r.dependencies.value else packet.dependencies);
    Decision(decisionId, r.packet, packet.version, r.disposition.value, selected, dependencies, r.command, packet.branch,
      db.branches[packet.branch].revision, None, h(DecisionPayload(r.packet, packet.version, r.disposition.value, selected, dependencies, Rationale(r))))
  }

  /** One decision was added, and a commitment made of it exactly if it approves. */
  ghost predicate AddsDecision(ledger: Ledger, later: Ledger, d: Decision)
  {
    && later.decisions == ledger.decisions + [d] && later.packets == ledger.packets
    && if d.disposition.Approved?
       then
         && |later.commitments| == |ledger.commitments| + 1 && later.commitments[..|ledger.commitments|] == ledger.commitments
         && Pairs(d, later.commitments[|ledger.commitments|]) && later.commitments[|ledger.commitments|].status == Active
       else later.commitments == ledger.commitments && d.commitment.None?
  }

  /** What is recorded is what was asked, at the packet's revision, and an approval adds its
      commitment with it. */
  lemma RecordedIsAsked(h: Hash, db: Db, ledger: Ledger, r: DecisionRequest, decisionId: Id, commitmentId: Id)
    requires LedgerKept(ledger)
    requires RecordOwnerDecision(h, db, ledger, r, decisionId, commitmentId).1.DecisionReply?
    requires RecordOwnerDecision(h, db, ledger, r, decisionId, commitmentId).1.outcome.Recorded?
    ensures r.packet in ledger.packets && r.disposition.Some?
    ensures var (later, reply) := RecordOwnerDecision(h, db, ledger, r, decisionId, commitmentId);
      && reply.outcome.disposition == r.disposition.value && reply.decision.Some? && reply.decision.value.id == decisionId
      && RecordsRequest(reply.decision.value, ledger.packets[r.packet], r) && AddsDecision(ledger, later, reply.decision.value)
  {
    hide Distinct, SetEqual, AllIn, EventCommand, DecisionTaken, CommitmentTaken;
    var packet := ledger.packets[r.packet];
    assert NoDuplicates(packet.dependencies);
    FitsExactly(packet, r);
    hide LedgerKept, NoDuplicates;
  }

  /** The other answers of a decision: stale exactly on another packet version or another revision,
      and a used command answers with its stored decision when the payload hashes agree. */
  lemma DecisionRefusedExactly(h: Hash, db: Db, ledger: Ledger, r: DecisionRequest, decisionId: Id, commitmentId: Id)
    requires LedgerKept(ledger)
    ensures var reply := RecordOwnerDecision(h, db, ledger, r, decisionId, commitmentId).1;
      && (reply.DecisionReply? && reply.outcome.DecisionStale? <==>
            || (db.ready && r.packet in ledger.packets && FitsPacket(ledger.packets[r.packet], r)
                && r.packetVersion.Some? && r.packetVersion.value != ledger.packets[r.packet].version)
            || (DecisionInOrder(db, ledger, r) && CommandFree(ledger.decisions, r.command) && !Closed(ledger.packets[r.packet]) && !DecisionTimely(db, ledger, r)))
      && (DecisionInOrder(db, ledger, r) && CommandFree(ledger.decisions, r.command) && Closed(ledger.packets[r.packet]) ==>
            reply == DecisionReply(DecisionRefused, None))
  {
    hide Distinct, SetEqual, AllIn, EventCommand;
    CommandFreeIsNone(ledger.decisions, r.command);
    if r.packet in ledger.packets {
      assert NoDuplicates(ledger.packets[r.packet].dependencies);
      FitsExactly(ledger.packets[r.packet], r);
    }
    hide LedgerKept, NoDuplicates, Approve;
  }

  lemma DecisionReplayedExactly(h: Hash, db: Db, ledger: Ledger, r: DecisionRequest, decisionId: Id, commitmentId: Id, d: Decision)
    requires LedgerKept(ledger) && DecisionInOrder(db, ledger, r) && d in ledger.decisions && d.command == r.command
    ensures var packet := ledger.packets[r.packet];
      var digest := h(DecisionPayload(r.packet, packet.version, r.disposition.value, Distinct(r.selected),
        Distinct(if r.dependencies.Some? then r.dependencies.value else packet.dependencies), if r.rationale.Some? then r.rationale.value else []));
      RecordOwnerDecision(h, db, ledger, r, decisionId, commitmentId)
        == (ledger, if d.payloadHash == digest then DecisionReply(DecisionDuplicate, Some(d)) else DecisionReply(DecisionRefused, None))
  {
    hide Distinct, SetEqual, AllIn;
    FoundByCommand(ledger.decisions, d);
    assert NoDuplicates(ledger.packets[r.packet].dependencies);
    FitsExactly(ledger.packets[r.packet], r);
    hide LedgerKept, NoDuplicates, Approve;
  }

  // ------------------------------------------------------------------ packets

  /** What a packet on branch `b` at version `version` needs to be inserted. */
  ghost predicate PacketInOrder(db: Db, ledger: Ledger, input: PacketInput, b: Id)
  {
    && db.ready && !IsBlank(input.question) && b in db.branches
    && var revision := if input.revision.Some? then input.revision.value else db.branches[b].revision;
    && var snapshot := if input.snapshot.Some? then input.snapshot.value else db.branches[b].current;
    && revision >= 0 && snapshot in db.snapshots && db.snapshots[snapshot].branch == b && db.snapshots[snapshot].revision == revision
    && input.candidates.ids != [] && (input.candidates.Detailed? ==> NoDuplicates(input.candidates.ids))
    && (forall v :: v in input.candidates.ids || v in input.dependencies ==> v in db.versions)
    && input.actions != Some({}) && input.id !in ledger.packets
  }

  /** The packet row says what was published, on the snapshot and revision seen. */
  ghost predicate PublishesInput(packet: Packet, db: Db, input: PacketInput, b: Id, version: nat, parent: Option<Id>)
    requires b in db.branches
  {
    && packet.version == version && packet.parent == parent && packet.branch == b && packet.status == Published
    && packet.snapshot == (if input.snapshot.Some? then input.snapshot.value else db.branches[b].current)
    && packet.revision == (if input.revision.Some? then input.revision.value else db.branches[b].revision)
    && NoDuplicates(packet.candidates) && Elements(packet.candidates) == Elements(input.candidates.ids)
    && NoDuplicates(packet.dependencies) && Elements(packet.dependencies) == Elements(input.dependencies)
    && packet.actions == (if input.actions.Some? then input.actions.value else {Approved, DecisionRejected, Deferred})
  }

  lemma CandidatesInOrder(db: Db, input: PacketInput)
    ensures var candidates, dependencies := CandidateIds(input.candidates), Distinct(input.dependencies);
      && Elements(candidates) == Elements(input.candidates.ids) && (candidates == [] <==> input.candidates.ids == [])
      && NoDuplicates(dependencies) && Elements(dependencies) == Elements(input.dependencies)
      && (|Distinct(candidates)| == |candidates| <==> (input.candidates.Detailed? ==> NoDuplicates(input.candidates.ids)))
      && (|Distinct(candidates)| == |candidates| ==> NoDuplicates(candidates))
      && (!(exists i :: 0 <= i < |candidates| && candidates[i] !in db.versions) <==> forall v :: v in input.candidates.ids ==> v in db.versions)
      && (!(exists i :: 0 <= i < |dependencies| && dependencies[i] !in db.versions) <==> forall v :: v in input.dependencies ==> v in db.versions)
  {
    var ids := input.candidates.ids;
    var candidates, dependencies := CandidateIds(input.candidates), Distinct(input.dependencies);
    DistinctKeepsElements(ids);
    DistinctKeepsElements(candidates);
    DistinctKeepsElements(input.dependencies);
    hide Distinct;
    assert Elements(candidates) == Elements(ids) && Elements(dependencies) == Elements(input.dependencies);
    assert candidates != [] ==> candidates[0] in candidates;
    assert ids != [] ==> ids[0] in ids;
    SameCountExactly(candidates);
    EveryElement(candidates, ids, db.versions.Keys);
    EveryElement(dependencies, input.dependencies, db.versions.Keys);
  }

  lemma EveryElement(s: seq<Id>, t: seq<Id>, known: set<Id>)
    requires Elements(s) == Elements(t)
    ensures !(exists i :: 0 <= i < |s| && s[i] !in known) <==> forall v :: v in t ==> v in known
  {
    forall v ensures v in s <==> v in t {
      assert v in s <==> v in Elements(s);
      assert v in t <==> v in Elements(t);
    }
    if forall v :: v in t ==> v in known {
      forall i | 0 <= i < |s| ensures s[i] in known {
        assert s[i] in s;
      }
    }
  }

  lemma SameCountExactly(s: seq<Id>)
    ensures |Distinct(s)| == |s| <==> NoDuplicates(s)
  {
    DistinctKeepsElements(s);
    NoDuplicatesCount(Distinct(s));
    assert Elements(Distinct(s)) == Elements(s);
    if NoDuplicates(s) {
      NoDuplicatesCount(s);
    } else {
      var i, j :| 0 <= i < j < |s| && s[i] == s[j];
      RepetitionShrinks(s, i, j);
    }
  }

  lemma InsertedExactly(db: Db, ledger: Ledger, input: PacketInput, parent: Option<Id>, b: Id)
    requires parent.Some? ==> parent.value in ledger.packets && !SiblingExists(ledger, parent, ledger.packets[parent.value].version + 1)
    requires b == if input.branch.Some? then input.branch.value else if parent.Some? then ledger.packets[parent.value].branch else T("main")
    ensures var (later, reply) := InsertPacket(db, ledger, input, parent);
      var version := if parent.Some? then ledger.packets[parent.value].version + 1 else 1;
      && (reply == PacketReply(input.id) <==> PacketInOrder(db, ledger, input, b))
      && (reply.PacketReply? ==>
            && reply.packetId == input.id && input.id in later.packets && later == ledger.(packets := ledger.packets[input.id := later.packets[input.id]])
            && PublishesInput(later.packets[input.id], db, input, b, version, parent))
      && (!reply.PacketReply? ==> later == ledger)
  {
    hide Distinct, CandidateIds, IsBlank, NoDuplicates;
    CandidatesInOrder(db, input);
  }

  /** A packet is published if and only if it is asked for as a first version and is in order. */
  lemma PublishedExactly(db: Db, ledger: Ledger, input: PacketInput)
    ensures var (later, reply) := CreatePacket(db, ledger, input);
      var b := if input.branch.Some? then input.branch.value else T("main");
      && (reply.PacketReply? <==> input.parent.None? && (input.version.Some? ==> input.version.value == 1) && PacketInOrder(db, ledger, input, b))
      && (reply.PacketReply? ==> input.id in later.packets && PublishesInput(later.packets[input.id], db, input, b, 1, None))
      && (!reply.PacketReply? ==> later == ledger)
  {
    InsertedExactly(db, ledger, input, None, if input.branch.Some? then input.branch.value else T("main"));
    hide InsertPacket, PacketInOrder, PublishesInput;
  }

  /** A revision answers with the packet's child if it has one, and otherwise publishes one, if and
      only if the rationale says something, the branch and parent named are the packet's own, and
      the new packet is in order. */
  lemma RevisedExactly(db: Db, ledger: Ledger, prior: Id, rationale: Text, input: PacketInput, child: Option<Id>)
    requires LedgerKept(ledger)
    requires if child.Some? then child.value in ledger.packets && ledger.packets[child.value].parent == Some(prior)
             else forall p :: p in ledger.packets ==> ledger.packets[p].parent != Some(prior)
    ensures var (later, reply) := RevisePacket(db, ledger, prior, rationale, input);
      var asked := db.ready && !IsBlank(rationale) && prior in ledger.packets
        && (input.branch.Some? ==> input.branch.value == ledger.packets[prior].branch) && (input.parent.Some? ==> input.parent.value == prior);
      && (reply.PacketReply? <==> asked && (child.Some? || PacketInOrder(db, ledger, input, ledger.packets[prior].branch)))
      && (reply.PacketReply? && child.Some? ==> reply.packetId == child.value && later == ledger)
      && (reply.PacketReply? && child.None? ==> input.id in later.packets)
      && (reply.PacketReply? && child.None? ==>
            PublishesInput(later.packets[input.id], db, input, ledger.packets[prior].branch, ledger.packets[prior].version + 1, Some(prior)))
      && (!reply.PacketReply? ==> later == ledger)
  {
    hide IsBlank, PublishesInput, PacketInOrder, InsertPacket;
    if prior in ledger.packets {
      SiblingIsChild(ledger, prior, child);
      if child.None? {
        InsertedExactly(db, ledger, input, Some(prior), if input.branch.Some? then input.branch.value else ledger.packets[prior].branch);
      }
    }
    hide LedgerKept;
  }

  lemma SiblingIsChild(ledger: Ledger, prior: Id, child: Option<Id>)
    requires LedgerKept(ledger) && prior in ledger.packets
    requires if child.Some? then child.value in ledger.packets && ledger.packets[child.value].parent == Some(prior)
             else forall p :: p in ledger.packets ==> ledger.packets[p].parent != Some(prior)
    ensures SiblingExists(ledger, Some(prior), ledger.packets[prior].version + 1) <==> child.Some?
    ensures child.Some? ==> ChildOf(ledger, prior) == child.value
  {
    hide DecisionsExact, DecisionKeysUnique, CommitmentKeysUnique, ApprovalsCommitted, CommitmentsApproved, CandidatesListed;
    if child.Some? {
      assert ledger.packets[child.value].version == ledger.packets[prior].version + 1;
    }
  }

  // ------------------------------------------------------------------ packet status

  /** `d` is the last decision on the packet, or the last one with a commitment. */
  ghost predicate Latest(decisions: seq<Decision>, packet: Id, committed: bool, d: Decision)
  {
    exists i :: 0 <= i < |decisions| && decisions[i] == d && About(d, packet, committed)
      && forall j :: i < j < |decisions| ==> !About(decisions[j], packet, committed)
  }

  ghost predicate About(d: Decision, packet: Id, committed: bool)
  {
    d.packet == packet && (committed ==> d.commitment.Some?)
  }

  lemma {:induction false} LastDecisionExactly(decisions: seq<Decision>, packet: Id, committed: bool)
    ensures LastDecision(decisions, packet, committed).None? <==> forall i :: 0 <= i < |decisions| ==> !About(decisions[i], packet, committed)
    ensures LastDecision(decisions, packet, committed).Some? ==> Latest(decisions, packet, committed, LastDecision(decisions, packet, committed).value)
  {
    if decisions != [] {
      var init, last := decisions[..|decisions| - 1], decisions[|decisions| - 1];
      LastDecisionExactly(init, packet, committed);
      if About(last, packet, committed) {
        assert decisions[|decisions| - 1] == last;
      } else if LastDecision(init, packet, committed).Some? {
        var d := LastDecision(init, packet, committed).value;
        var i :| 0 <= i < |init| && init[i] == d && About(d, packet, committed) && forall j :: i < j < |init| ==> !About(init[j], packet, committed);
        assert decisions[i] == d;
        forall j | i < j < |decisions| ensures !About(decisions[j], packet, committed) {
          assert j < |init| ==> decisions[j] == init[j];
        }
      } else {
        forall i | 0 <= i < |decisions| ensures !About(decisions[i], packet, committed) {
          assert i < |init| ==> decisions[i] == init[i];
        }
      }
    }
  }

  lemma LatestIsOne(decisions: seq<Decision>, packet: Id, committed: bool, d: Decision)
    requires Latest(decisions, packet, committed, d)
    ensures LastDecision(decisions, packet, committed) == Some(d)
  {
    LastDecisionExactly(decisions, packet, committed);
    var i :| 0 <= i < |decisions| && decisions[i] == d && About(d, packet, committed) && forall j :: i < j < |decisions| ==> !About(decisions[j], packet, committed);
    var e := LastDecision(decisions, packet, committed).value;
    var k :| 0 <= k < |decisions| && decisions[k] == e && About(e, packet, committed) && forall j :: k < j < |decisions| ==> !About(decisions[j], packet, committed);
    assert i == k;
  }

  /** What a lifecycle event needs: reopening is for deferred packets on their own revision, and a
      replacement is a revision of the packet. */
  ghost predicate EventInOrder(db: Db, ledger: Ledger, r: LifecycleRequest)
  {
    && db.ready && r.packet in ledger.packets
    && var packet := ledger.packets[r.packet];
    && packet.branch in db.branches
    && (r.target == Open ==> db.branches[packet.branch].revision == packet.revision)
    && (r.target == Open ==> exists d :: Latest(ledger.decisions, r.packet, false, d) && d.disposition == Deferred)
    && (r.expectedVersion.Some? ==> r.expectedVersion.value == packet.version)
    && (r.replacement.Some? ==> r.replacement.value in ledger.packets && ledger.packets[r.replacement.value].parent == Some(r.packet))
  }

  /** A lifecycle event takes effect if and only if it is in order and its command is unused; it sets
      the packet's status and, when it archives or supersedes, that of the commitment made last. */
  lemma StatusSetExactly(h: Hash, db: Db, ledger: Ledger, r: LifecycleRequest)
    ensures var (later, reply) := SetPacketStatus(h, db, ledger, r);
      && (reply.Done? <==> EventInOrder(db, ledger, r) && r.command !in ledger.packetEvents)
      && (reply.Done? ==> later.packets == ledger.packets[r.packet := ledger.packets[r.packet].(status := r.target)] && later.decisions == ledger.decisions)
      && (reply.Done? && (r.target == Open || r.target == Published) ==> later.commitments == ledger.commitments)
      && (!reply.Done? ==> later == ledger)
      && var digest := h(LifecyclePayload(r.packet, r.target, r.replacement, if r.reason.Some? then r.reason.value else []));
      && (reply.Done? ==> later.packetEvents == ledger.packetEvents[r.command := digest])
      && (EventInOrder(db, ledger, r) && r.command in ledger.packetEvents ==>
            reply == DecisionReply(if ledger.packetEvents[r.command] == digest then DecisionDuplicate else DecisionRefused, None))
  {
    LastDecisionExactly(ledger.decisions, r.packet, false);
    hide Latest, About, LastDecision;
    forall d | Latest(ledger.decisions, r.packet, false, d) ensures LastDecision(ledger.decisions, r.packet, false) == Some(d) {
      LatestIsOne(ledger.decisions, r.packet, false, d);
    }
  }

  /** Archiving or superseding a packet does the same to the commitment made last on it. */
  lemma LastCommitmentFollows(h: Hash, db: Db, ledger: Ledger, r: LifecycleRequest, d: Decision, j: nat)
    requires LedgerKept(ledger) && SetPacketStatus(h, db, ledger, r).1.Done? && (r.target == Archived || r.target == Superseded)
    requires EventCommand(r.command) !in ledger.commitmentEvents && Latest(ledger.decisions, r.packet, true, d) && j < |ledger.commitments|
    ensures var later := SetPacketStatus(h, db, ledger, r).0;
      && |later.commitments| == |ledger.commitments| && SameButStatus(ledger.commitments[j], later.commitments[j])
      && later.commitments[j].status ==
           if Some(ledger.commitments[j].id) != d.commitment then ledger.commitments[j].status
           else if r.target == Archived then CommitmentArchived else CommitmentSuperseded
  {
    LatestIsOne(ledger.decisions, r.packet, true, d);
    hide LedgerKept, EventCommand;
  }
}
