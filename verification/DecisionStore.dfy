/** The decision transactions, statement by statement on the handle's tables. */
module DecisionStore {
  import opened Texts
  import opened Graph
  import opened Tables
  import opened Branches
  import opened Decisions
  import opened Invariants
  import opened LedgerInvariants
  import BranchStore

  // ------------------------------------------------------------------ packets

  method CreateDecisionPacket(handle: Handle, input: PacketInput) returns (reply: Reply)
    modifies handle`ledger
    ensures (handle.ledger, reply) == CreatePacket(handle.db, old(handle.ledger), input)
  {
    if input.parent.Some? || (input.version.Some? && input.version.value != 1) { return Thrown(InvalidPacket); }
    reply := InsertDecisionPacket(handle, input, None);
  }

  method InsertDecisionPacket(handle: Handle, input: PacketInput, parent: Option<Id>) returns (reply: Reply)
    requires parent.Some? ==> parent.value in handle.ledger.packets
    modifies handle`ledger
    ensures (handle.ledger, reply) == InsertPacket(handle.db, old(handle.ledger), input, parent)
  {
    hide Distinct, CandidateIds, IsBlank, SiblingExists, T;
    var db, ledger := handle.db, handle.ledger;
    if !db.ready { return Thrown(ReadOnly); }
    if IsBlank(input.question) { return Thrown(InvalidArgument); }
    var branchId := T("main");
    if input.branch.Some? { branchId := input.branch.value; } else if parent.Some? { branchId := ledger.packets[parent.value].branch; }
    if branchId !in db.branches { return Thrown(BranchNotFound); }
    var revision: int := db.branches[branchId].revision;
    if input.revision.Some? { revision := input.revision.value; }
    if revision < 0 { return Thrown(InvalidVersion); }
    var snapshot := if input.snapshot.Some? then input.snapshot.value else db.branches[branchId].current;
    if snapshot !in db.snapshots || db.snapshots[snapshot].branch != branchId || db.snapshots[snapshot].revision != revision {
      return Thrown(InvalidPacket);
    }
    var candidates, dependencies := CandidateIds(input.candidates), Distinct(input.dependencies);
    if candidates == [] || |Distinct(candidates)| != |candidates| { return Thrown(InvalidPacket); }
    if (exists i :: 0 <= i < |candidates| && candidates[i] !in db.versions)
      || (exists i :: 0 <= i < |dependencies| && dependencies[i] !in db.versions) { return Thrown(ArtifactNotFound); }
    var actions := if input.actions.Some? then input.actions.value else {Approved, DecisionRejected, Deferred};
    if actions == {} { return Thrown(InvalidPacket); }
    var version := if parent.Some? then ledger.packets[parent.value].version + 1 else 1;
    if input.id in ledger.packets || SiblingExists(ledger, parent, version) { return Thrown(ConstraintViolated); }
    handle.ledger := ledger.(packets := ledger.packets[input.id :=
      Packet(version, branchId, snapshot, revision, candidates, dependencies, actions, Published, parent)]);
    return PacketReply(input.id);
  }

  method ReviseDecisionPacket(handle: Handle, prior: Id, rationale: Text, input: PacketInput) returns (reply: Reply)
    requires LedgerKept(handle.ledger)
    modifies handle`ledger
    ensures (handle.ledger, reply) == RevisePacket(handle.db, old(handle.ledger), prior, rationale, input)
  {
    var ledger := handle.ledger;
    if !handle.db.ready { return Thrown(ReadOnly); }
    if IsBlank(rationale) { return Thrown(InvalidArgument); }
    if prior !in ledger.packets { return Thrown(PacketNotFound); }
    if input.branch.Some? && input.branch.value != ledger.packets[prior].branch { return Thrown(InvalidPacket); }
    if input.parent.Some? && input.parent.value != prior { return Thrown(InvalidPacket); }
    if SiblingExists(ledger, Some(prior), ledger.packets[prior].version + 1) {
      var child :| child in ledger.packets && ledger.packets[child].parent == Some(prior) && ledger.packets[child].version == ledger.packets[prior].version + 1;
      return PacketReply(child);
    }
    reply := InsertDecisionPacket(handle, input, Some(prior));
  }

  // --------------------------------------------------- decisions and commitments

  method InsertDecision(handle: Handle, d: Decision) returns (ok: bool)
    modifies handle`ledger
    ensures ok <==> !DecisionTaken(old(handle.ledger).decisions, d.id, d.command)
    ensures handle.ledger == if ok then old(handle.ledger).(decisions := old(handle.ledger).decisions + [d]) else old(handle.ledger)
  {
    ok := !DecisionTaken(handle.ledger.decisions, d.id, d.command);
    if ok {
      handle.ledger := handle.ledger.(decisions := handle.ledger.decisions + [d]);
    }
  }

  /** `insertCommitment`: the row, then its event; nothing when either violates a key. */
  method InsertCommitment(handle: Handle, c: Commitment, eventCommand: Id) returns (ok: bool)
    modifies handle`ledger
    ensures ok <==> !CommitmentTaken(old(handle.ledger).commitments, c.id, c.decision) && eventCommand !in old(handle.ledger).commitmentEvents
    ensures handle.ledger == if !ok then old(handle.ledger) else old(handle.ledger).(
      commitments := old(handle.ledger).commitments + [c], commitmentEvents := old(handle.ledger).commitmentEvents + {eventCommand})
  {
    if CommitmentTaken(handle.ledger.commitments, c.id, c.decision) { return false; }
    var before := handle.ledger;
    handle.ledger := handle.ledger.(commitments := handle.ledger.commitments + [c]);
    if eventCommand in handle.ledger.commitmentEvents {
      handle.ledger := before;
      return false;
    }
    handle.ledger := handle.ledger.(commitmentEvents := handle.ledger.commitmentEvents + {eventCommand});
    return true;
  }

  /** The approving part of a decision or an adoption: decision row, commitment, link. */
  method ApproveAndCommit(handle: Handle, d: Decision, commitment: Id, eventCommand: Id) returns (ok: bool)
    modifies handle`ledger
    ensures ok <==> Approve(old(handle.ledger), d, commitment, eventCommand).Some?
    ensures handle.ledger == if ok then Approve(old(handle.ledger), d, commitment, eventCommand).value else old(handle.ledger)
  {
    var before := handle.ledger;
    ok := InsertDecision(handle, d);
    if !ok { return; }
    ok := InsertCommitment(handle, CommitmentFor(d, commitment), eventCommand);
    if !ok {
      handle.ledger := before;
      return;
    }
    var last := |handle.ledger.decisions| - 1;
    handle.ledger := handle.ledger.(decisions := handle.ledger.decisions[last := d.(commitment := Some(commitment))]);
    assert handle.ledger.decisions == before.decisions + [d.(commitment := Some(commitment))];
  }

  method RecordOwnerDecision(handle: Handle, r: DecisionRequest, decisionId: Id, commitmentId: Id) returns (reply: Reply)
    modifies handle`ledger
    ensures (handle.ledger, reply) == Decisions.RecordOwnerDecision(handle.hash, handle.db, old(handle.ledger), r, decisionId, commitmentId)
  {
    var db, ledger := handle.db, handle.ledger;
    if !db.ready { return Thrown(ReadOnly); }
    if r.packet !in ledger.packets { return Thrown(PacketNotFound); }
    var packet := ledger.packets[r.packet];
    if r.branch.Some? && r.branch.value != packet.branch { return DecisionReply(DecisionRefused, None); }
    if r.disposition.None? { return Thrown(InvalidArgument); }
    var disposition := r.disposition.value;
    var selected := Distinct(r.selected);
    var dependencies := Distinct(if r.dependencies.Some? then r.dependencies.value else packet.dependencies);
    if disposition !in packet.actions || (disposition.Approved? && selected == [])
      || !AllIn(selected, packet.candidates) || !SetEqual(dependencies, packet.dependencies) {
      return DecisionReply(DecisionRefused, None);
    }
    if r.packetVersion.Some? && r.packetVersion.value != packet.version { return DecisionReply(DecisionStale, None); }
    if packet.branch !in db.branches { return Thrown(BranchNotFound); }
    var branch := db.branches[packet.branch];
    var digest := handle.hash(DecisionPayload(r.packet, packet.version, disposition, selected, dependencies, Rationale(r)));
    var existing := DecisionByCommand(ledger.decisions, r.command);
    if existing.Some? {
      if existing.value.payloadHash != digest { return DecisionReply(DecisionRefused, None); }
      return DecisionReply(DecisionDuplicate, existing);
    }
    if packet.status.Archived? || packet.status.Superseded? { return DecisionReply(DecisionRefused, None); }
    if r.expectedRevision.Some? && r.expectedRevision.value != branch.revision { return DecisionReply(DecisionStale, None); }
    if branch.revision != packet.revision { return DecisionReply(DecisionStale, None); }
    var d := Decision(decisionId, r.packet, packet.version, disposition, selected, dependencies, r.command, packet.branch, branch.revision, None, digest);
    var ok;
    if disposition.Approved? {
      ok := ApproveAndCommit(handle, d, commitmentId, EventCommand(r.command));
      d := d.(commitment := Some(commitmentId));
    } else {
      ok := InsertDecision(handle, d);
    }
    if !ok { return Thrown(ConstraintViolated); }
    return DecisionReply(Recorded(disposition), Some(d));
  }

  // ------------------------------------------------------- packet lifecycle events

  /** `setCommitmentStatus`: nothing when the event's command id was seen before. */
  method SetCommitmentStatus(handle: Handle, id: Id, status: CommitmentStatus, eventCommand: Id)
    modifies handle`ledger
    ensures handle.ledger == if eventCommand in old(handle.ledger).commitmentEvents then old(handle.ledger) else old(handle.ledger).(
      commitments := WithStatus(old(handle.ledger).commitments, id, status), commitmentEvents := old(handle.ledger).commitmentEvents + {eventCommand})
  {
    if eventCommand in handle.ledger.commitmentEvents { return; }
    handle.ledger := handle.ledger.(commitments := WithStatus(handle.ledger.commitments, id, status));
    handle.ledger := handle.ledger.(commitmentEvents := handle.ledger.commitmentEvents + {eventCommand});
  }

  method ChangePacketStatus(handle: Handle, r: LifecycleRequest) returns (reply: Reply)
    modifies handle`ledger
    ensures (handle.ledger, reply) == SetPacketStatus(handle.hash, handle.db, old(handle.ledger), r)
  {
    var db, ledger := handle.db, handle.ledger;
    if !db.ready { return Thrown(ReadOnly); }
    if r.packet !in ledger.packets { return Thrown(PacketNotFound); }
    var packet := ledger.packets[r.packet];
    if packet.branch !in db.branches { return Thrown(BranchNotFound); }
    if r.target.Open? {
      if db.branches[packet.branch].revision != packet.revision { return DecisionReply(DecisionRefused, None); }
      var latest := LastDecision(ledger.decisions, r.packet, false);
      if latest.None? || !latest.value.disposition.Deferred? { return DecisionReply(DecisionRefused, None); }
    }
    if r.expectedVersion.Some? && r.expectedVersion.value != packet.version { return DecisionReply(DecisionRefused, None); }
    if r.replacement.Some? {
      if r.replacement.value !in ledger.packets { return Thrown(PacketNotFound); }
      if ledger.packets[r.replacement.value].parent != Some(r.packet) { return DecisionReply(DecisionRefused, None); }
    }
    var digest := handle.hash(LifecyclePayload(r.packet, r.target, r.replacement, if r.reason.Some? then r.reason.value else []));
    if r.command in ledger.packetEvents {
      return DecisionReply(if ledger.packetEvents[r.command] != digest then DecisionRefused else DecisionDuplicate, None);
    }
    handle.ledger := handle.ledger.(packets := handle.ledger.packets[r.packet := packet.(status := r.target)]);
    handle.ledger := handle.ledger.(packetEvents := handle.ledger.packetEvents[r.command := digest]);
    if r.target.Archived? || r.target.Superseded? {
      var approved := LastDecision(handle.ledger.decisions, r.packet, true);
      if approved.Some? {
        SetCommitmentStatus(handle, approved.value.commitment.value,
          if r.target.Archived? then CommitmentArchived else CommitmentSuperseded, EventCommand(r.command));
      }
    }
    return Done;
  }

  // ---------------------------------------------------------- adoptBranchAlternative

  method AdoptBranchAlternative(handle: Handle, r: AdoptionRequest, ids: NewIds) returns (reply: Reply)
    requires Kept(handle.db)
    modifies handle`db, handle`ledger
    ensures handle.db == Apply(old(handle.db), AdoptAlternative(handle.hash, old(handle.db), old(handle.ledger), r, ids).0)
    ensures handle.ledger == AdoptAlternative(handle.hash, old(handle.db), old(handle.ledger), r, ids).1
    ensures reply == AdoptAlternative(handle.hash, old(handle.db), old(handle.ledger), r, ids).2
  {
    if !handle.db.ready { return Thrown(ReadOnly); }
    if r.source == r.destination { return Thrown(InvalidAdoption); }
    if r.packet !in handle.ledger.packets { return Thrown(PacketNotFound); }
    var packet := handle.ledger.packets[r.packet];
    var selected := Selection(packet, r);
    if packet.branch != r.source || packet.status.Archived? || packet.status.Superseded?
      || selected == [] || !AllIn(selected, packet.candidates) {
      if r.destination !in handle.db.branches { return Thrown(BranchNotFound); }
      return Replied(Rejected, handle.db.branches[r.destination].revision, None);
    }
    if r.source !in handle.db.branches || r.destination !in handle.db.branches { return Thrown(BranchNotFound); }
    reply := AdoptSelected(handle, r, packet, selected, ids);
  }

  method AdoptSelected(handle: Handle, r: AdoptionRequest, packet: Packet, selected: seq<Id>, ids: NewIds) returns (reply: Reply)
    requires Kept(handle.db) && r.source in handle.db.branches && r.destination in handle.db.branches
    modifies handle`db, handle`ledger
    ensures handle.db == Apply(old(handle.db), Adopting(handle.hash, old(handle.db), old(handle.ledger), r, packet, selected, ids).0)
    ensures handle.ledger == Adopting(handle.hash, old(handle.db), old(handle.ledger), r, packet, selected, ids).1
    ensures reply == Adopting(handle.hash, old(handle.db), old(handle.ledger), r, packet, selected, ids).2
  {
    hide ReferencesOf;
    var source, destination := handle.db.branches[r.source], handle.db.branches[r.destination];
    var digest := AdoptionHash(handle.hash, r, selected);
    if r.command in handle.ledger.adoptions {
      if handle.ledger.adoptions[r.command].payloadHash != digest { return Replied(Rejected, destination.revision, None); }
      return RecordedAdoption(handle.ledger.adoptions[r.command]);
    }
    if r.expectedRevision.Some? && destination.revision != r.expectedRevision.value { return Replied(Stale, destination.revision, None); }
    if source.revision != packet.revision { return Replied(Stale, destination.revision, None); }
    var chosen := ExposedIds(handle.db, r.source, selected, r.logicalIds);
    if chosen.NoIds? { return Thrown(chosen.error); }
    if Tables.Command(handle.db.history, r.command).Some? { return Thrown(ConstraintViolated); }
    reply := CarryThenCommit(handle, r, packet, selected, chosen.ids, digest, ids);
  }

  method CarryThenCommit(handle: Handle, r: AdoptionRequest, packet: Packet, selected: seq<Id>, logicalIds: seq<Id>, digest: Text, ids: NewIds) returns (reply: Reply)
    requires Kept(handle.db) && r.source in handle.db.branches && r.destination in handle.db.branches
    requires Tables.Command(handle.db.history, r.command).None?
    requires forall l :: l in logicalIds ==> l in ReferencesOf(handle.db.references, handle.db.branches[r.source].current)
    modifies handle`db, handle`ledger
    ensures handle.db == Apply(old(handle.db), CarryAndCommit(old(handle.db), old(handle.ledger), r, packet, selected, logicalIds, digest, ids).0)
    ensures handle.ledger == CarryAndCommit(old(handle.db), old(handle.ledger), r, packet, selected, logicalIds, digest, ids).1
    ensures reply == CarryAndCommit(old(handle.db), old(handle.ledger), r, packet, selected, logicalIds, digest, ids).2
  {
    hide ReferencesOf;
    hide Branches.CarryChanged;
    hide Approve;
    var before := handle.db;
    var source := handle.db.branches[r.source].current;
    var missing, changed := BranchStore.CollectChanged(ReferencesOf(handle.db.references, source),
      ReferencesOf(handle.db.references, handle.db.branches[r.destination].current), logicalIds);
    ReferencesOwned(handle.db.snapshots, handle.db.references, handle.db.versions);
    reply := BranchStore.CarryChanged(handle, source, r.destination, changed, r.command, AlternativeAdopted, AdoptionImpact, ADOPTION_NOTICE(), digest, ids.snapshot);
    if reply.Thrown? { return; }
    var committed, commitment := RecordAdoption(handle, r, packet, selected, digest, reply, ids);
    if !committed {
      handle.db := before;
      return Thrown(ConstraintViolated);
    }
    reply := reply.(commitment := commitment);
  }

  /** The adoption row, and a new approved decision with its commitment when none covers it. */
  method RecordAdoption(handle: Handle, r: AdoptionRequest, packet: Packet, selected: seq<Id>, digest: Text, reply: Reply, ids: NewIds)
    returns (ok: bool, commitment: Option<Id>)
    requires reply.Reply? && reply.snapshot.Some? && reply.revision >= 0
    modifies handle`ledger
    ensures ok <==> Commit(old(handle.ledger), r, packet, selected, digest, reply, ids).0.Some?
    ensures handle.ledger == if ok then Commit(old(handle.ledger), r, packet, selected, digest, reply, ids).0.value else old(handle.ledger)
    ensures commitment == Commit(old(handle.ledger), r, packet, selected, digest, reply, ids).1
  {
    var before := handle.ledger;
    handle.ledger := handle.ledger.(adoptions := handle.ledger.adoptions[r.command :=
      Adoption(digest, r.packet, r.source, r.destination, reply.revision, reply.snapshot.value, reply.changed, reply.impacted)]);
    var approved := FirstApproved(handle.ledger.decisions, r.packet, selected);
    if approved.Some? {
      var covering := CommitmentOf(handle.ledger.commitments, r.packet, approved.value.id);
      if covering.Some? { return true, Some(covering.value.id); }
    }
    var d := Decision(ids.decision, r.packet, packet.version, Approved, selected, packet.dependencies,
                      T("adoption-decision-") + r.command, r.destination, reply.revision, None, digest);
    ok := ApproveAndCommit(handle, d, ids.commitment, EventCommand(T("adoption-") + r.command));
    if !ok { handle.ledger := before; }
    return ok, Some(ids.commitment);
  }
}
