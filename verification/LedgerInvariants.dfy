/** What the decision tables keep. */
module LedgerInvariants {
  import opened Texts
  import opened Graph
  import opened Tables
  import opened Branches
  import opened Decisions

  /** A revision is one version past its parent; a first packet is version 1. */
  ghost predicate LinesNumbered(packets: map<Id, Packet>)
  {
    forall p :: p in packets ==>
      && (packets[p].parent.None? ==> packets[p].version == 1)
      && (packets[p].parent.Some? ==>
        packets[p].parent.value in packets && packets[p].version == packets[packets[p].parent.value].version + 1)
  }

  ghost predicate OneChildEach(packets: map<Id, Packet>)
  {
    forall p, q :: p in packets && q in packets && p != q ==> packets[p].parent.None? || packets[p].parent != packets[q].parent
  }

  ghost predicate CandidatesListed(packets: map<Id, Packet>)
  {
    forall p :: p in packets ==>
      packets[p].candidates != [] && NoDuplicates(packets[p].candidates) && NoDuplicates(packets[p].dependencies)
  }

  /** A decision selects among its packet's candidates, each once; approvals select something. */
  ghost predicate Exact(packets: map<Id, Packet>, d: Decision)
  {
    && d.packet in packets && d.packetVersion == packets[d.packet].version
    && AllIn(d.selected, packets[d.packet].candidates) && NoDuplicates(d.selected)
    && (d.disposition.Approved? ==> d.selected != [])
    && (d.disposition.Approved? <==> d.commitment.Some?)
  }

  ghost predicate DecisionsExact(packets: map<Id, Packet>, decisions: seq<Decision>)
  {
    forall i :: 0 <= i < |decisions| ==> Exact(packets, decisions[i])
  }

  ghost predicate DecisionKeysUnique(decisions: seq<Decision>)
  {
    forall i, j :: 0 <= i < j < |decisions| ==> decisions[i].id != decisions[j].id && decisions[i].command != decisions[j].command
  }

  ghost predicate CommitmentKeysUnique(commitments: seq<Commitment>)
  {
    forall i, j :: 0 <= i < j < |commitments| ==> commitments[i].id != commitments[j].id && commitments[i].decision != commitments[j].decision
  }

  /** `c` is the commitment `d` created. */
  ghost predicate Pairs(d: Decision, c: Commitment)
  {
    && d.disposition.Approved? && d.commitment == Some(c.id) && c.decision == d.id
    && c.packet == d.packet && c.packetVersion == d.packetVersion && c.selected == d.selected && c.dependencies == d.dependencies
    && c.branch == d.branch && c.revision == d.revision
  }

  ghost predicate HasCommitment(commitments: seq<Commitment>, d: Decision)
  {
    exists j :: 0 <= j < |commitments| && Pairs(d, commitments[j])
  }

  ghost predicate HasDecision(decisions: seq<Decision>, c: Commitment)
  {
    exists i :: 0 <= i < |decisions| && Pairs(decisions[i], c)
  }

  ghost predicate ApprovalsCommitted(decisions: seq<Decision>, commitments: seq<Commitment>)
  {
    forall i :: 0 <= i < |decisions| && decisions[i].disposition.Approved? ==> HasCommitment(commitments, decisions[i])
  }

  ghost predicate CommitmentsApproved(decisions: seq<Decision>, commitments: seq<Commitment>)
  {
    forall j :: 0 <= j < |commitments| ==> HasDecision(decisions, commitments[j])
  }

  ghost predicate LedgerKept(ledger: Ledger)
  {
    && LinesNumbered(ledger.packets) && OneChildEach(ledger.packets) && CandidatesListed(ledger.packets)
    && DecisionsExact(ledger.packets, ledger.decisions)
    && DecisionKeysUnique(ledger.decisions) && CommitmentKeysUnique(ledger.commitments)
    && ApprovalsCommitted(ledger.decisions, ledger.commitments)
    && CommitmentsApproved(ledger.decisions, ledger.commitments)
  }

  // ------------------------------------------------------------------ packets

  lemma DistinctSame(s: seq<Id>)
    requires |Distinct(s)| == |s|
    ensures NoDuplicates(s)
  {
    DistinctKeepsElements(s);
    NoDuplicatesCount(Distinct(s));
    assert Elements(Distinct(s)) == Elements(s);
    forall i, j | 0 <= i < j < |s| ensures s[i] != s[j] {
      if s[i] == s[j] {
        RepetitionShrinks(s, i, j);
      }
    }
  }

  lemma NewPacketKeepsLines(packets: map<Id, Packet>, id: Id, packet: Packet, ledger: Ledger)
    requires ledger.packets == packets && id !in packets
    requires LinesNumbered(packets) && OneChildEach(packets) && CandidatesListed(packets)
    requires packet.parent.None? ==> packet.version == 1
    requires packet.parent.Some? ==> packet.parent.value in packets && packet.version == packets[packet.parent.value].version + 1
    requires !SiblingExists(ledger, packet.parent, packet.version)
    requires packet.candidates != [] && NoDuplicates(packet.candidates) && NoDuplicates(packet.dependencies)
    ensures var later := packets[id := packet];
      LinesNumbered(later) && OneChildEach(later) && CandidatesListed(later)
  {
    forall p | p in packets && packet.parent.Some? ensures packets[p].parent != packet.parent {
      assert LinesNumbered(packets);
    }
  }

  lemma AddPacketKeeps(ledger: Ledger, id: Id, packet: Packet)
    requires LedgerKept(ledger) && id !in ledger.packets
    requires packet.parent.None? ==> packet.version == 1
    requires packet.parent.Some? ==>
      packet.parent.value in ledger.packets && packet.version == ledger.packets[packet.parent.value].version + 1
    requires !SiblingExists(ledger, packet.parent, packet.version)
    requires packet.candidates != [] && NoDuplicates(packet.candidates) && NoDuplicates(packet.dependencies)
    ensures LedgerKept(ledger.(packets := ledger.packets[id := packet]))
  {
    hide DecisionKeysUnique, CommitmentKeysUnique, ApprovalsCommitted, CommitmentsApproved;
    var later := ledger.packets[id := packet];
    NewPacketKeepsLines(ledger.packets, id, packet, ledger);
    hide LinesNumbered, OneChildEach, CandidatesListed;
    assert DecisionsExact(later, ledger.decisions) by {
      forall i | 0 <= i < |ledger.decisions| ensures Exact(later, ledger.decisions[i]) {
        assert Exact(ledger.packets, ledger.decisions[i]);
      }
    }
  }

  lemma InsertKeepsLedger(db: Db, ledger: Ledger, input: PacketInput, parent: Option<Id>)
    requires LedgerKept(ledger) && (parent.Some? ==> parent.value in ledger.packets)
    ensures LedgerKept(InsertPacket(db, ledger, input, parent).0)
  {
    var later := InsertPacket(db, ledger, input, parent).0;
    if later != ledger {
      DistinctSame(CandidateIds(input.candidates));
      DistinctKeepsElements(input.dependencies);
      AddPacketKeeps(ledger, input.id, later.packets[input.id]);
    }
  }

  lemma CreateKeepsLedger(db: Db, ledger: Ledger, input: PacketInput)
    requires LedgerKept(ledger)
    ensures LedgerKept(CreatePacket(db, ledger, input).0)
  {
    InsertKeepsLedger(db, ledger, input, None);
  }

  lemma ReviseKeepsLedger(db: Db, ledger: Ledger, prior: Id, rationale: Text, input: PacketInput)
    requires LedgerKept(ledger)
    ensures LedgerKept(RevisePacket(db, ledger, prior, rationale, input).0)
  {
    if prior in ledger.packets {
      InsertKeepsLedger(db, ledger, input, Some(prior));
    }
  }

  // ------------------------------------------------------------------ decisions

  lemma HasCommitmentAppend(commitments: seq<Commitment>, c: Commitment, d: Decision)
    requires HasCommitment(commitments, d) || Pairs(d, c)
    ensures HasCommitment(commitments + [c], d)
  {
    var cs := commitments + [c];
    if Pairs(d, c) {
      assert Pairs(d, cs[|commitments|]);
    } else {
      var j :| 0 <= j < |commitments| && Pairs(d, commitments[j]);
      assert Pairs(d, cs[j]);
    }
  }

  lemma HasDecisionAppend(decisions: seq<Decision>, d: Decision, c: Commitment)
    requires HasDecision(decisions, c) || Pairs(d, c)
    ensures HasDecision(decisions + [d], c)
  {
    var ds := decisions + [d];
    if Pairs(d, c) {
      assert Pairs(ds[|decisions|], c);
    } else {
      var i :| 0 <= i < |decisions| && Pairs(decisions[i], c);
      assert Pairs(ds[i], c);
    }
  }

  lemma ApprovedPair(decisions: seq<Decision>, commitments: seq<Commitment>, d: Decision, c: Commitment)
    requires ApprovalsCommitted(decisions, commitments) && CommitmentsApproved(decisions, commitments) && Pairs(d, c)
    ensures ApprovalsCommitted(decisions + [d], commitments + [c]) && CommitmentsApproved(decisions + [d], commitments + [c])
  {
    var ds, cs := decisions + [d], commitments + [c];
    forall i | 0 <= i < |ds| && ds[i].disposition.Approved? ensures HasCommitment(cs, ds[i]) {
      HasCommitmentAppend(commitments, c, ds[i]);
    }
    forall j | 0 <= j < |cs| ensures HasDecision(ds, cs[j]) {
      HasDecisionAppend(decisions, d, cs[j]);
    }
  }

  lemma KeysUniqueAppend(ledger: Ledger, d: Decision, c: Commitment)
    requires DecisionKeysUnique(ledger.decisions) && CommitmentKeysUnique(ledger.commitments)
    requires !DecisionTaken(ledger.decisions, d.id, d.command)
    ensures DecisionKeysUnique(ledger.decisions + [d])
    ensures !CommitmentTaken(ledger.commitments, c.id, c.decision) ==> CommitmentKeysUnique(ledger.commitments + [c])
  {
  }

  lemma ApproveKeeps(ledger: Ledger, d: Decision, commitment: Id, eventCommand: Id)
    requires LedgerKept(ledger) && d.disposition.Approved?
    requires Exact(ledger.packets, d.(commitment := Some(commitment)))
    ensures var later := Approve(ledger, d, commitment, eventCommand); later.Some? ==> LedgerKept(later.value)
  {
    var later := Approve(ledger, d, commitment, eventCommand);
    if later.Some? {
      var approved, c := d.(commitment := Some(commitment)), CommitmentFor(d, commitment);
      ApprovedPair(ledger.decisions, ledger.commitments, approved, c);
      KeysUniqueAppend(ledger, approved, c);
      assert DecisionsExact(ledger.packets, ledger.decisions + [approved]);
    }
  }

  lemma RefusalPairs(decisions: seq<Decision>, commitments: seq<Commitment>, d: Decision)
    requires ApprovalsCommitted(decisions, commitments) && CommitmentsApproved(decisions, commitments) && !d.disposition.Approved?
    ensures ApprovalsCommitted(decisions + [d], commitments) && CommitmentsApproved(decisions + [d], commitments)
  {
    forall j | 0 <= j < |commitments| ensures HasDecision(decisions + [d], commitments[j]) {
      HasDecisionAppend(decisions, d, commitments[j]);
    }
  }

  lemma RefusalKeeps(ledger: Ledger, d: Decision)
    requires LedgerKept(ledger) && !d.disposition.Approved? && Exact(ledger.packets, d)
    requires !DecisionTaken(ledger.decisions, d.id, d.command)
    ensures LedgerKept(ledger.(decisions := ledger.decisions + [d]))
  {
    RefusalPairs(ledger.decisions, ledger.commitments, d);
    assert DecisionsExact(ledger.packets, ledger.decisions + [d]);
    assert DecisionKeysUnique(ledger.decisions + [d]);
  }

  lemma DecideKeepsLedger(h: Hash, db: Db, ledger: Ledger, r: DecisionRequest, decisionId: Id, commitmentId: Id)
    requires LedgerKept(ledger)
    ensures LedgerKept(RecordOwnerDecision(h, db, ledger, r, decisionId, commitmentId).0)
  {
    var (later, reply) := RecordOwnerDecision(h, db, ledger, r, decisionId, commitmentId);
    if later != ledger {
      DistinctKeepsElements(r.selected);
      var d := reply.decision.value;
      if d.disposition.Approved? {
        ApproveKeeps(ledger, d.(commitment := None), commitmentId, EventCommand(r.command));
      } else {
        RefusalKeeps(ledger, d);
      }
    }
  }

  // ------------------------------------------------------------------ status

  lemma RestatusApprovals(decisions: seq<Decision>, commitments: seq<Commitment>, id: Id, status: CommitmentStatus)
    requires ApprovalsCommitted(decisions, commitments)
    ensures ApprovalsCommitted(decisions, WithStatus(commitments, id, status))
  {
    var cs := WithStatus(commitments, id, status);
    forall i | 0 <= i < |decisions| && decisions[i].disposition.Approved? ensures HasCommitment(cs, decisions[i]) {
      assert HasCommitment(commitments, decisions[i]);
      var j :| 0 <= j < |commitments| && Pairs(decisions[i], commitments[j]);
      assert Pairs(decisions[i], cs[j]);
    }
  }

  lemma RestatusCommitments(decisions: seq<Decision>, commitments: seq<Commitment>, id: Id, status: CommitmentStatus)
    requires CommitmentsApproved(decisions, commitments)
    ensures CommitmentsApproved(decisions, WithStatus(commitments, id, status))
  {
    var cs := WithStatus(commitments, id, status);
    forall j | 0 <= j < |cs| ensures HasDecision(decisions, cs[j]) {
      assert HasDecision(decisions, commitments[j]);
      var i :| 0 <= i < |decisions| && Pairs(decisions[i], commitments[j]);
      assert Pairs(decisions[i], cs[j]);
    }
  }

  lemma RestatusUnique(commitments: seq<Commitment>, id: Id, status: CommitmentStatus)
    requires CommitmentKeysUnique(commitments)
    ensures CommitmentKeysUnique(WithStatus(commitments, id, status))
  {
  }

  lemma RestatusPacket(ledger: Ledger, id: Id, status: PacketStatus)
    requires LedgerKept(ledger) && id in ledger.packets
    ensures LedgerKept(ledger.(packets := ledger.packets[id := ledger.packets[id].(status := status)]))
  {
    var later := ledger.packets[id := ledger.packets[id].(status := status)];
    assert LinesNumbered(later) && OneChildEach(later);
    forall i | 0 <= i < |ledger.decisions| ensures Exact(later, ledger.decisions[i]) {
      assert Exact(ledger.packets, ledger.decisions[i]);
    }
  }

  lemma RestatusCommitment(ledger: Ledger, id: Id, status: CommitmentStatus, events: set<Id>, packetEvents: map<Id, Text>)
    requires LedgerKept(ledger)
    ensures LedgerKept(ledger.(commitments := WithStatus(ledger.commitments, id, status), commitmentEvents := events, packetEvents := packetEvents))
  {
    RestatusApprovals(ledger.decisions, ledger.commitments, id, status);
    RestatusCommitments(ledger.decisions, ledger.commitments, id, status);
    RestatusUnique(ledger.commitments, id, status);
  }

  lemma MarkKeepsLedger(ledger: Ledger, r: LifecycleRequest, digest: Text)
    requires LedgerKept(ledger) && r.packet in ledger.packets
    ensures LedgerKept(MarkPacket(ledger, r, digest))
  {
    RestatusPacket(ledger, r.packet, r.target);
    var marked := ledger.(packets := ledger.packets[r.packet := ledger.packets[r.packet].(status := r.target)]);
    var later := MarkPacket(ledger, r, digest);
    var approved := LastDecision(ledger.decisions, r.packet, true);
    if approved.Some? {
      RestatusCommitment(marked, approved.value.commitment.value,
        if r.target.Archived? then CommitmentArchived else CommitmentSuperseded, later.commitmentEvents, later.packetEvents);
    }
  }

  lemma SetStatusKeepsLedger(h: Hash, db: Db, ledger: Ledger, r: LifecycleRequest)
    requires LedgerKept(ledger)
    ensures LedgerKept(SetPacketStatus(h, db, ledger, r).0)
  {
    if r.packet in ledger.packets {
      MarkKeepsLedger(ledger, r, h(LifecyclePayload(r.packet, r.target, r.replacement, if r.reason.Some? then r.reason.value else [])));
    }
  }

  // ------------------------------------------------------------------ adoption

  lemma CommitKeeps(ledger: Ledger, r: AdoptionRequest, packet: Packet, selected: seq<Id>, digest: Text, reply: Reply, ids: NewIds)
    requires LedgerKept(ledger) && r.packet in ledger.packets && packet == ledger.packets[r.packet]
    requires reply.Reply? && reply.snapshot.Some? && reply.revision >= 0
    requires NoDuplicates(selected) && selected != [] && AllIn(selected, packet.candidates)
    ensures var later := Commit(ledger, r, packet, selected, digest, reply, ids).0; later.Some? ==> LedgerKept(later.value)
  {
    var adopted := ledger.(adoptions := ledger.adoptions[r.command :=
      Adoption(digest, r.packet, r.source, r.destination, reply.revision, reply.snapshot.value, reply.changed, reply.impacted)]);
    var d := Decision(ids.decision, r.packet, packet.version, Approved, selected, packet.dependencies,
                      T("adoption-decision-") + r.command, r.destination, reply.revision, None, digest);
    assert LedgerKept(adopted);
    ApproveKeeps(adopted, d, ids.commitment, EventCommand(T("adoption-") + r.command));
  }

  lemma CarryAndCommitKeepsLedger(db: Db, ledger: Ledger, r: AdoptionRequest, packet: Packet, selected: seq<Id>, logicalIds: seq<Id>, digest: Text, ids: NewIds)
    requires LedgerKept(ledger) && r.source in db.branches && r.destination in db.branches
    requires r.packet in ledger.packets && packet == ledger.packets[r.packet]
    requires NoDuplicates(selected) && selected != [] && AllIn(selected, packet.candidates)
    requires forall l :: l in logicalIds ==> l in ReferencesOf(db.references, db.branches[r.source].current)
    ensures LedgerKept(CarryAndCommit(db, ledger, r, packet, selected, logicalIds, digest, ids).1)
  {
    var reply := Carry(db, r.source, r.destination, logicalIds, r.command, AlternativeAdopted, AdoptionImpact, ADOPTION_NOTICE(), digest, ids.snapshot).1;
    if !reply.Thrown? {
      CommitKeeps(ledger, r, packet, selected, digest, reply, ids);
    }
  }

  lemma AdoptingCommits(h: Hash, db: Db, ledger: Ledger, r: AdoptionRequest, packet: Packet, selected: seq<Id>, ids: NewIds)
    requires r.source in db.branches && r.destination in db.branches
    ensures var a := Adopting(h, db, ledger, r, packet, selected, ids);
      var chosen := ExposedIds(db, r.source, selected, r.logicalIds);
      a.1 != ledger ==>
        && chosen.Ids?
        && a == CarryAndCommit(db, ledger, r, packet, selected, chosen.ids, AdoptionHash(h, r, selected), ids)
  {
  }

  lemma AdoptingKeepsLedger(h: Hash, db: Db, ledger: Ledger, r: AdoptionRequest, packet: Packet, selected: seq<Id>, ids: NewIds)
    requires LedgerKept(ledger) && r.source in db.branches && r.destination in db.branches
    requires r.packet in ledger.packets && packet == ledger.packets[r.packet]
    requires NoDuplicates(selected) && selected != [] && AllIn(selected, packet.candidates)
    ensures LedgerKept(Adopting(h, db, ledger, r, packet, selected, ids).1)
  {
    AdoptingCommits(h, db, ledger, r, packet, selected, ids);
    if Adopting(h, db, ledger, r, packet, selected, ids).1 != ledger {
      CarryAndCommitKeepsLedger(db, ledger, r, packet, selected,
        ExposedIds(db, r.source, selected, r.logicalIds).ids, AdoptionHash(h, r, selected), ids);
    }
  }

  lemma AdoptKeepsLedger(h: Hash, db: Db, ledger: Ledger, r: AdoptionRequest, ids: NewIds)
    requires LedgerKept(ledger)
    ensures LedgerKept(AdoptAlternative(h, db, ledger, r, ids).1)
  {
    if AdoptAlternative(h, db, ledger, r, ids).1 != ledger {
      var packet := ledger.packets[r.packet];
      DistinctKeepsElements(if r.selected.Some? then r.selected.value else packet.candidates);
      AdoptingKeepsLedger(h, db, ledger, r, packet, Selection(packet, r), ids);
    }
  }
}
