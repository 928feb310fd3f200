/** Decision packets, owner decisions, commitments and the adoption of alternatives. */
module Decisions {
  import opened Texts
  import opened Graph
  import opened Tables
  import opened Branches

  // --------------------------------------------------------------- decision-helpers

  predicate SetEqual(left: seq<Id>, right: seq<Id>)
  {
    |left| == |right| && forall i :: 0 <= i < |left| ==> left[i] in right
  }

  predicate AllIn(ids: seq<Id>, among: seq<Id>)
  {
    forall i :: 0 <= i < |ids| ==> ids[i] in among
  }

  // --------------------------------------------------------------- decision packets

  datatype Candidates = Detailed(ids: seq<Id>) | Plain(ids: seq<Id>)

  datatype PacketInput = PacketInput(
    id: Id, question: Text, branch: Option<Id>, revision: Option<int>, snapshot: Option<Id>,
    candidates: Candidates, dependencies: seq<Id>, actions: Option<set<Disposition>>,
    parent: Option<Id>, version: Option<int>)

  function CandidateIds(c: Candidates): seq<Id>
  {
    match c case Detailed(ids) => ids case Plain(ids) => Distinct(ids)
  }

  predicate SiblingExists(ledger: Ledger, parent: Option<Id>, version: nat)
  {
    parent.Some? && exists p :: p in ledger.packets && ledger.packets[p].parent == parent && ledger.packets[p].version == version
  }

  function InsertPacket(db: Db, ledger: Ledger, input: PacketInput, parent: Option<Id>): (Ledger, Reply)
    requires parent.Some? ==> parent.value in ledger.packets
  {
    var branchId := if input.branch.Some? then input.branch.value
                    else if parent.Some? then ledger.packets[parent.value].branch else T("main");
    if !db.ready then (ledger, Thrown(ReadOnly))
    else if IsBlank(input.question) then (ledger, Thrown(InvalidArgument))
    else if branchId !in db.branches then (ledger, Thrown(BranchNotFound))
    else
      var branch := db.branches[branchId];
      var revision: int := if input.revision.Some? then input.revision.value else branch.revision;
      var snapshot := if input.snapshot.Some? then input.snapshot.value else branch.current;
      var candidates := CandidateIds(input.candidates);
      var dependencies := Distinct(input.dependencies);
      var actions := if input.actions.Some? then input.actions.value else {Approved, DecisionRejected, Deferred};
      var version := if parent.Some? then ledger.packets[parent.value].version + 1 else 1;
      if revision < 0 then (ledger, Thrown(InvalidVersion))
      else if snapshot !in db.snapshots || db.snapshots[snapshot].branch != branchId || db.snapshots[snapshot].revision != revision
        then (ledger, Thrown(InvalidPacket))
      else if candidates == [] || |Distinct(candidates)| != |candidates| then (ledger, Thrown(InvalidPacket))
      else if (exists i :: 0 <= i < |candidates| && candidates[i] !in db.versions)
        || (exists i :: 0 <= i < |dependencies| && dependencies[i] !in db.versions) then (ledger, Thrown(ArtifactNotFound))
      else if actions == {} then (ledger, Thrown(InvalidPacket))
      else if input.id in ledger.packets || SiblingExists(ledger, parent, version) then (ledger, Thrown(ConstraintViolated))
      else
        (ledger.(packets := ledger.packets[input.id := Packet(version, branchId, snapshot, revision, candidates, dependencies, actions, Published, parent)]),
         PacketReply(input.id))
  }

  function CreatePacket(db: Db, ledger: Ledger, input: PacketInput): (Ledger, Reply)
  {
    if input.parent.Some? || (input.version.Some? && input.version.value != 1) then (ledger, Thrown(InvalidPacket))
    else InsertPacket(db, ledger, input, None)
  }

  ghost function RevisePacket(db: Db, ledger: Ledger, prior: Id, rationale: Text, input: PacketInput): (Ledger, Reply)
  {
    if !db.ready then (ledger, Thrown(ReadOnly))
    else if IsBlank(rationale) then (ledger, Thrown(InvalidArgument))
    else if prior !in ledger.packets then (ledger, Thrown(PacketNotFound))
    else if input.branch.Some? && input.branch.value != ledger.packets[prior].branch then (ledger, Thrown(InvalidPacket))
    else if input.parent.Some? && input.parent.value != prior then (ledger, Thrown(InvalidPacket))
    else if SiblingExists(ledger, Some(prior), ledger.packets[prior].version + 1) then
      (ledger, PacketReply(ChildOf(ledger, prior)))
    else InsertPacket(db, ledger, input, Some(prior))
  }

  ghost function ChildOf(ledger: Ledger, prior: Id): Id
    requires prior in ledger.packets && SiblingExists(ledger, Some(prior), ledger.packets[prior].version + 1)
  {
    var c :| c in ledger.packets && ledger.packets[c].parent == Some(prior) && ledger.packets[c].version == ledger.packets[prior].version + 1;
    c
  }

  // --------------------------------------------------- decision and commitment rows

  predicate DecisionTaken(decisions: seq<Decision>, id: Id, command: Id)
  {
    exists i :: 0 <= i < |decisions| && (decisions[i].id == id || decisions[i].command == command)
  }

  predicate CommitmentTaken(commitments: seq<Commitment>, id: Id, decision: Id)
  {
    exists i :: 0 <= i < |commitments| && (commitments[i].id == id || commitments[i].decision == decision)
  }

  function DecisionByCommand(decisions: seq<Decision>, command: Id): (d: Option<Decision>)
    ensures d.Some? ==> d.value in decisions && d.value.command == command
    ensures d.None? <==> forall i :: 0 <= i < |decisions| ==> decisions[i].command != command
  {
    if decisions == [] then None
    else if decisions[0].command == command then Some(decisions[0])
    else DecisionByCommand(decisions[1..], command)
  }

  predicate SameButStatus(c: Commitment, later: Commitment)
  {
    later == c.(status := later.status)
  }

  /** Commitments are never removed and only their status changes. */
  predicate CommitmentsStay(commitments: seq<Commitment>, later: seq<Commitment>)
  {
    |commitments| <= |later| && forall i :: 0 <= i < |commitments| ==> SameButStatus(commitments[i], later[i])
  }

  function CommitmentFor(d: Decision, id: Id): Commitment
  {
    Commitment(id, d.id, d.packet, d.packetVersion, d.branch, d.revision, d.selected, d.dependencies, Active)
  }

  /** Inserts an approved decision, its commitment and the commitment's event, and links
      them; nothing when one of the inserts violates a key. */
  function Approve(ledger: Ledger, d: Decision, commitment: Id, eventCommand: Id): Option<Ledger>
  {
    if DecisionTaken(ledger.decisions, d.id, d.command) || CommitmentTaken(ledger.commitments, commitment, d.id)
      || eventCommand in ledger.commitmentEvents then None
    else Some(ledger.(
      decisions := ledger.decisions + [d.(commitment := Some(commitment))],
      commitments := ledger.commitments + [CommitmentFor(d, commitment)],
      commitmentEvents := ledger.commitmentEvents + {eventCommand}))
  }

  // ------------------------------------------------------------- recordOwnerDecision

  datatype DecisionRequest = DecisionRequest(
    packet: Id, branch: Option<Id>, disposition: Option<Disposition>, selected: seq<Id>, dependencies: Option<seq<Id>>,
    packetVersion: Option<int>, expectedRevision: Option<int>, rationale: Option<Text>, command: Id)

  function EventCommand(command: Id): Id { T("commitment-") + command }

  function Rationale(r: DecisionRequest): Text
  {
    if r.rationale.Some? then r.rationale.value else []
  }

  function RecordOwnerDecision(h: Hash, db: Db, ledger: Ledger, r: DecisionRequest, decisionId: Id, commitmentId: Id): (Ledger, Reply)
  {
    if !db.ready then (ledger, Thrown(ReadOnly))
    else if r.packet !in ledger.packets then (ledger, Thrown(PacketNotFound))
    else
      var packet := ledger.packets[r.packet];
      var selected := Distinct(r.selected);
      var dependencies := Distinct(if r.dependencies.Some? then r.dependencies.value else packet.dependencies);
      if r.branch.Some? && r.branch.value != packet.branch then (ledger, DecisionReply(DecisionRefused, None))
      else if r.disposition.None? then (ledger, Thrown(InvalidArgument))
      else if r.disposition.value !in packet.actions then (ledger, DecisionReply(DecisionRefused, None))
      else if r.disposition.value.Approved? && selected == [] then (ledger, DecisionReply(DecisionRefused, None))
      else if !AllIn(selected, packet.candidates) || !SetEqual(dependencies, packet.dependencies) then
        (ledger, DecisionReply(DecisionRefused, None))
      else if r.packetVersion.Some? && r.packetVersion.value != packet.version then (ledger, DecisionReply(DecisionStale, None))
      else if packet.branch !in db.branches then (ledger, Thrown(BranchNotFound))
      else
        var branch := db.branches[packet.branch];
        var digest := h(DecisionPayload(r.packet, packet.version, r.disposition.value, selected, dependencies, Rationale(r)));
        var existing := DecisionByCommand(ledger.decisions, r.command);
        if existing.Some? then
          if existing.value.payloadHash != digest then (ledger, DecisionReply(DecisionRefused, None))
          else (ledger, DecisionReply(DecisionDuplicate, existing))
        else if packet.status.Archived? || packet.status.Superseded? then (ledger, DecisionReply(DecisionRefused, None))
        else if r.expectedRevision.Some? && r.expectedRevision.value != branch.revision then (ledger, DecisionReply(DecisionStale, None))
        else if branch.revision != packet.revision then (ledger, DecisionReply(DecisionStale, None))
        else
          var d := Decision(decisionId, r.packet, packet.version, r.disposition.value, selected, dependencies,
                            r.command, packet.branch, branch.revision, None, digest);
          if d.disposition.Approved? then
            var approved := Approve(ledger, d, commitmentId, EventCommand(r.command));
            if approved.None? then (ledger, Thrown(ConstraintViolated))
            else (approved.value, DecisionReply(Recorded(Approved), Some(d.(commitment := Some(commitmentId)))))
          else if DecisionTaken(ledger.decisions, d.id, d.command) then (ledger, Thrown(ConstraintViolated))
          else (ledger.(decisions := ledger.decisions + [d]), DecisionReply(Recorded(d.disposition), Some(d)))
  }

  // ------------------------------------------------------- packet lifecycle events

  datatype LifecycleRequest = LifecycleRequest(
    packet: Id, target: PacketStatus, expectedVersion: Option<int>, replacement: Option<Id>, reason: Option<Text>, command: Id)

  function LastDecision(decisions: seq<Decision>, packet: Id, committed: bool): (d: Option<Decision>)
    ensures d.Some? ==> d.value in decisions && d.value.packet == packet && (committed ==> d.value.commitment.Some?)
  {
    if decisions == [] then None else
    var d := decisions[|decisions| - 1];
    if d.packet == packet && (committed ==> d.commitment.Some?) then Some(d)
    else LastDecision(decisions[..|decisions| - 1], packet, committed)
  }

  /** `setCommitmentStatus` without its event. */
  function WithStatus(commitments: seq<Commitment>, id: Id, status: CommitmentStatus): (later: seq<Commitment>)
    ensures |later| == |commitments|
    ensures forall i :: 0 <= i < |later| ==>
      later[i] == (if commitments[i].id == id then commitments[i].(status := status) else commitments[i])
  {
    seq(|commitments|, i requires 0 <= i < |commitments| =>
      if commitments[i].id == id then commitments[i].(status := status) else commitments[i])
  }

  function SetPacketStatus(h: Hash, db: Db, ledger: Ledger, r: LifecycleRequest): (Ledger, Reply)
  {
    if !db.ready then (ledger, Thrown(ReadOnly))
    else if r.packet !in ledger.packets then (ledger, Thrown(PacketNotFound))
    else
      var packet := ledger.packets[r.packet];
      var latest := LastDecision(ledger.decisions, r.packet, false);
      if packet.branch !in db.branches then (ledger, Thrown(BranchNotFound))
      else if r.target.Open? && (db.branches[packet.branch].revision != packet.revision
                                 || latest.None? || !latest.value.disposition.Deferred?) then (ledger, DecisionReply(DecisionRefused, None))
      else if r.expectedVersion.Some? && r.expectedVersion.value != packet.version then (ledger, DecisionReply(DecisionRefused, None))
      else if r.replacement.Some? && r.replacement.value !in ledger.packets then (ledger, Thrown(PacketNotFound))
      else if r.replacement.Some? && ledger.packets[r.replacement.value].parent != Some(r.packet) then (ledger, DecisionReply(DecisionRefused, None))
      else
        var digest := h(LifecyclePayload(r.packet, r.target, r.replacement, if r.reason.Some? then r.reason.value else []));
        if r.command in ledger.packetEvents then
          (ledger, DecisionReply(if ledger.packetEvents[r.command] != digest then DecisionRefused else DecisionDuplicate, None))
        else
          (MarkPacket(ledger, r, digest), Done)
  }

  /** Sets the packet's status and, when it is archived or superseded, that of the commitment
      of its last committed decision. */
  function MarkPacket(ledger: Ledger, r: LifecycleRequest, digest: Text): Ledger
    requires r.packet in ledger.packets
  {
    var marked := ledger.(packets := ledger.packets[r.packet := ledger.packets[r.packet].(status := r.target)],
                          packetEvents := ledger.packetEvents[r.command := digest]);
    var approved := LastDecision(ledger.decisions, r.packet, true);
    if r.target.Open? || r.target.Published? || approved.None? || EventCommand(r.command) in ledger.commitmentEvents then marked
    else marked.(
      commitments := WithStatus(ledger.commitments, approved.value.commitment.value,
                                if r.target.Archived? then CommitmentArchived else CommitmentSuperseded),
      commitmentEvents := ledger.commitmentEvents + {EventCommand(r.command)})
  }

  // ---------------------------------------------------------- adoptBranchAlternative

  datatype AdoptionRequest = AdoptionRequest(
    packet: Id, source: Id, destination: Id, selected: Option<seq<Id>>, logicalIds: Option<seq<Id>>,
    expectedRevision: Option<int>, command: Id)

  datatype NewIds = NewIds(snapshot: Id, decision: Id, commitment: Id)

  datatype IdsOrError = Ids(ids: seq<Id>) | NoIds(error: Error)

  function LogicalIdsOf(versions: map<Id, VersionRow>, selected: seq<Id>): seq<Id>
    requires forall i :: 0 <= i < |selected| ==> selected[i] in versions
  {
    seq(|selected|, i requires 0 <= i < |selected| => versions[selected[i]].logicalId)
  }

  predicate SomeVersionOf(versions: map<Id, VersionRow>, selected: seq<Id>, l: Id)
  {
    exists i :: 0 <= i < |selected| && selected[i] in versions && versions[selected[i]].logicalId == l
  }

  /** `selectedLogicalIds`. */
  function SelectedLogicalIds(versions: map<Id, VersionRow>, selected: seq<Id>, requested: Option<seq<Id>>): IdsOrError
  {
    if requested.Some? then
      var ids := Distinct(requested.value);
      if forall i :: 0 <= i < |ids| ==> SomeVersionOf(versions, selected, ids[i]) then Ids(ids) else NoIds(InvalidAdoption)
    else if forall i :: 0 <= i < |selected| ==> selected[i] in versions then Ids(Sort(Distinct(LogicalIdsOf(versions, selected))))
    else NoIds(ArtifactNotFound)
  }

  function FirstApproved(decisions: seq<Decision>, packet: Id, selected: seq<Id>): (d: Option<Decision>)
    ensures d.Some? ==> d.value in decisions && d.value.packet == packet && d.value.disposition.Approved? && SetEqual(d.value.selected, selected)
    ensures d.None? <==> forall i :: 0 <= i < |decisions| ==>
      decisions[i].packet != packet || !decisions[i].disposition.Approved? || !SetEqual(decisions[i].selected, selected)
  {
    if decisions == [] then None
    else if decisions[0].packet == packet && decisions[0].disposition.Approved? && SetEqual(decisions[0].selected, selected) then Some(decisions[0])
    else FirstApproved(decisions[1..], packet, selected)
  }

  function CommitmentOf(commitments: seq<Commitment>, packet: Id, decision: Id): (c: Option<Commitment>)
    ensures c.Some? ==> c.value in commitments && c.value.packet == packet && c.value.decision == decision
    ensures c.None? <==> forall i :: 0 <= i < |commitments| ==> commitments[i].packet != packet || commitments[i].decision != decision
  {
    if commitments == [] then None
    else if commitments[0].packet == packet && commitments[0].decision == decision then Some(commitments[0])
    else CommitmentOf(commitments[1..], packet, decision)
  }

  function ADOPTION_NOTICE(): Text { T("reviewed alternative may affect this dependent") }

  function Selection(packet: Packet, r: AdoptionRequest): seq<Id>
  {
    Distinct(if r.selected.Some? then r.selected.value else packet.candidates)
  }

  function AdoptionHash(h: Hash, r: AdoptionRequest, selected: seq<Id>): Text
  {
    h(AdoptPayload(r.packet, r.source, r.destination, selected, r.logicalIds, r.expectedRevision))
  }

  function RecordedAdoption(a: Adoption): Reply
  {
    Reply(Duplicate, a.revision, Some(a.snapshot), a.changed, a.impacted, None)
  }

  /** The ledger after the adoption itself was recorded and, unless an approved decision with
      its commitment already covers the selection, a new decision and commitment were added. */
  function Commit(ledger: Ledger, r: AdoptionRequest, packet: Packet, selected: seq<Id>, digest: Text, reply: Reply, ids: NewIds): (Option<Ledger>, Option<Id>)
    requires reply.Reply? && reply.snapshot.Some? && reply.revision >= 0
  {
    var adopted := ledger.(adoptions := ledger.adoptions[r.command :=
      Adoption(digest, r.packet, r.source, r.destination, reply.revision, reply.snapshot.value, reply.changed, reply.impacted)]);
    var approved := FirstApproved(ledger.decisions, r.packet, selected);
    var covering := if approved.Some? then CommitmentOf(ledger.commitments, r.packet, approved.value.id) else None;
    if covering.Some? then (Some(adopted), Some(covering.value.id))
    else
      var d := Decision(ids.decision, r.packet, packet.version, Approved, selected, packet.dependencies,
                        T("adoption-decision-") + r.command, r.destination, reply.revision, None, digest);
      (Approve(adopted, d, ids.commitment, EventCommand(T("adoption-") + r.command)), Some(ids.commitment))
  }

  ghost function AdoptAlternative(h: Hash, db: Db, ledger: Ledger, r: AdoptionRequest, ids: NewIds): (a: (Effect, Ledger, Reply))
    ensures AcceptedBy(a.2) || (a.0 == Nothing && a.1 == ledger)
    ensures a.0.Appends? ==> a.0.branch in db.branches
    ensures CommitmentsStay(ledger.commitments, a.1.commitments)
  {
    if !db.ready then (Nothing, ledger, Thrown(ReadOnly))
    else if r.source == r.destination then (Nothing, ledger, Thrown(InvalidAdoption))
    else if r.packet !in ledger.packets then (Nothing, ledger, Thrown(PacketNotFound))
    else
      var packet := ledger.packets[r.packet];
      var selected := Selection(packet, r);
      if packet.branch != r.source || packet.status.Archived? || packet.status.Superseded?
        || selected == [] || !AllIn(selected, packet.candidates) then
        (Nothing, ledger, if r.destination in db.branches then Replied(Rejected, db.branches[r.destination].revision, None) else Thrown(BranchNotFound))
      else if r.source !in db.branches || r.destination !in db.branches then (Nothing, ledger, Thrown(BranchNotFound))
      else Adopting(h, db, ledger, r, packet, selected, ids)
  }

  ghost function Adopting(h: Hash, db: Db, ledger: Ledger, r: AdoptionRequest, packet: Packet, selected: seq<Id>, ids: NewIds): (a: (Effect, Ledger, Reply))
    requires r.source in db.branches && r.destination in db.branches
    ensures AcceptedBy(a.2) || (a.0 == Nothing && a.1 == ledger)
    ensures a.0.Appends? ==> a.0.branch in db.branches
    ensures CommitmentsStay(ledger.commitments, a.1.commitments)
  {
    var source, destination := db.branches[r.source], db.branches[r.destination];
    var digest := AdoptionHash(h, r, selected);
    if r.command in ledger.adoptions then
      (Nothing, ledger, if ledger.adoptions[r.command].payloadHash != digest then Replied(Rejected, destination.revision, None)
                        else RecordedAdoption(ledger.adoptions[r.command]))
    else if r.expectedRevision.Some? && destination.revision != r.expectedRevision.value then
      (Nothing, ledger, Replied(Stale, destination.revision, None))
    else if source.revision != packet.revision then (Nothing, ledger, Replied(Stale, destination.revision, None))
    else
      var chosen := ExposedIds(db, r.source, selected, r.logicalIds);
      if chosen.NoIds? then (Nothing, ledger, Thrown(chosen.error))
      else if Command(db.history, r.command).Some? then (Nothing, ledger, Thrown(ConstraintViolated))
      else CarryAndCommit(db, ledger, r, packet, selected, chosen.ids, digest, ids)
  }

  /** The logical ids to carry, all of which the source branch maps to selected candidates. */
  function ExposedIds(db: Db, source: Id, selected: seq<Id>, requested: Option<seq<Id>>): (chosen: IdsOrError)
    requires source in db.branches
    ensures chosen.Ids? ==> forall l :: l in chosen.ids ==> l in ReferencesOf(db.references, db.branches[source].current)
  {
    var sourceMap := ReferencesOf(db.references, db.branches[source].current);
    var chosen := SelectedLogicalIds(db.versions, selected, requested);
    if chosen.NoIds? then chosen
    else if forall i :: 0 <= i < |chosen.ids| ==> chosen.ids[i] in sourceMap && sourceMap[chosen.ids[i]] in selected then chosen
    else NoIds(InvalidAdoption)
  }

  ghost function CarryAndCommit(db: Db, ledger: Ledger, r: AdoptionRequest, packet: Packet, selected: seq<Id>, logicalIds: seq<Id>, digest: Text, ids: NewIds): (a: (Effect, Ledger, Reply))
    requires r.source in db.branches && r.destination in db.branches
    requires forall l :: l in logicalIds ==> l in ReferencesOf(db.references, db.branches[r.source].current)
    ensures AcceptedBy(a.2) || (a.0 == Nothing && a.1 == ledger && a.2.Thrown?)
    ensures a.0.Appends? ==> a.0.branch in db.branches
    ensures CommitmentsStay(ledger.commitments, a.1.commitments)
  {
    var (effect, reply) := Carry(db, r.source, r.destination, logicalIds, r.command, AlternativeAdopted, AdoptionImpact, ADOPTION_NOTICE(), digest, ids.snapshot);
    if reply.Thrown? then (Nothing, ledger, reply)
    else
      var (committed, commitment) := Commit(ledger, r, packet, selected, digest, reply, ids);
      if committed.None? then (Nothing, ledger, Thrown(ConstraintViolated))
      else (effect, committed.value, reply.(commitment := commitment))
  }
}
