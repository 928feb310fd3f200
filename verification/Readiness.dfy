/** Readiness of an approved commitment under the current project state. */
module Readiness {
  import opened Texts
  import opened Graph
  import opened Tables
  import opened Branches
  import opened Invariants
  import opened LedgerInvariants
  import opened Decisions
  import opened Store

  datatype Content = Available | Missing | Corrupt | NoContent

  datatype Verdict = Permitted | NeedsReview(reason: Text) | Denied(reason: Text)

  /** What the assessment reads outside the tables: the content inspection of each version,
      the policy's refusal of these versions if any, and the external authorization. */
  datatype Surroundings = Surroundings(content: Id -> Content, policyRefusal: Option<Text>, authorization: Verdict)

  datatype ReadinessRequest = ReadinessRequest(
    commitment: Option<Id>, packet: Option<Id>, branch: Option<Id>, destination: Option<Text>, purpose: Option<Text>,
    namesActivity: bool, command: Option<Id>)

  datatype Cause =
    | BranchMoved
    | CandidateUnavailable(version: Id)
    | CandidateNotCurrent(version: Id)
    | ContentIs(version: Id, content: Content)
    | ImpactRecorded(dependent: Id)
    | PolicyContextIncomplete
    | PolicyDenied(reason: Text)
    | AuthorizationDenied(reason: Text)
    | PacketIs(status: PacketStatus)

  datatype ReadinessStatus = Ready | ReadyAfterReview | NotReady

  datatype Assessment = Assessment(commitment: Id, packet: Id, branch: Id, status: ReadinessStatus, causes: seq<Cause>, affected: set<Id>)

  datatype Outcome = Assessed(assessment: Assessment, stored: bool) | Failed(error: Error)

  /** The texts whose presence in a cause makes it blocking. */
  predicate MentionsBlocking(t: Text)
  {
    || Includes(t, T("content is unavailable")) || Includes(t, T("content is missing")) || Includes(t, T("content is corrupt"))
    || Includes(t, T("policy context incomplete")) || Includes(t, T("policy denied")) || Includes(t, T("packet is"))
  }

  predicate Blocking(c: Cause)
  {
    match c
    case ContentIs(_, _) => true
    case PolicyContextIncomplete => true
    case PolicyDenied(_) => true
    case PacketIs(_) => true
    case AuthorizationDenied(reason) => MentionsBlocking(reason)
    case _ => false
  }

  function ActiveCommitment(commitments: seq<Commitment>, packet: Id): (c: Option<Commitment>)
    ensures c.Some? ==> c.value in commitments
  {
    if commitments == [] then None
    else if commitments[0].packet == packet && commitments[0].status.Active? then Some(commitments[0])
    else ActiveCommitment(commitments[1..], packet)
  }

  function CommitmentById(commitments: seq<Commitment>, id: Id): (c: Option<Commitment>)
    ensures c.Some? ==> c.value in commitments && c.value.id == id
  {
    if commitments == [] then None
    else if commitments[0].id == id then Some(commitments[0])
    else CommitmentById(commitments[1..], id)
  }

  /** The commitment a request is about. */
  function Requested(ledger: Ledger, r: ReadinessRequest): (c: Option<Commitment>)
    ensures c.Some? ==> c.value in ledger.commitments
  {
    var named := if r.commitment.Some? then CommitmentById(ledger.commitments, r.commitment.value) else None;
    if named.None? && r.packet.Some? then ActiveCommitment(ledger.commitments, r.packet.value) else named
  }

  predicate IsCurrent(db: Db, current: map<Id, Id>, v: Id)
  {
    v in db.versions && Lookup(current, db.versions[v].logicalId) == Some(v)
  }

  function CandidateCauses(db: Db, current: map<Id, Id>, selected: seq<Id>): (causes: seq<Cause>)
    ensures causes == [] <==> forall i :: 0 <= i < |selected| ==> IsCurrent(db, current, selected[i])
  {
    if selected == [] then [] else
    var v := selected[|selected| - 1];
    var init := selected[..|selected| - 1];
    assert selected == init + [v];
    var earlier := CandidateCauses(db, current, init);
    if v !in db.versions then earlier + [CandidateUnavailable(v)]
    else if Lookup(current, db.versions[v].logicalId) != Some(v) then earlier + [CandidateNotCurrent(v)]
    else earlier
  }

  function ContentOf(db: Db, s: Surroundings, v: Id): Content
  {
    if v in db.versions then s.content(v) else NoContent
  }

  function ContentCauses(db: Db, s: Surroundings, versions: seq<Id>): (causes: seq<Cause>)
    ensures causes == [] <==> forall i :: 0 <= i < |versions| ==> ContentOf(db, s, versions[i]).Available?
  {
    if versions == [] then [] else
    var v := versions[|versions| - 1];
    var init := versions[..|versions| - 1];
    assert versions == init + [v];
    var earlier := ContentCauses(db, s, init);
    if ContentOf(db, s, v).Available? then earlier else earlier + [ContentIs(v, ContentOf(db, s, v))]
  }

  /** The versions of the commitment some impact recorded on its branch names as dependents. */
  function ImpactedVersions(db: Db, branch: Id, versions: seq<Id>): set<Id>
  {
    set k | k in db.impacts && k.branch == branch && k.dependent in versions :: k.dependent
  }

  /** The rows of `impact_records` about them. */
  function ImpactKeysOf(db: Db, branch: Id, versions: seq<Id>): set<ImpactKey>
  {
    set k | k in db.impacts && k.branch == branch && k.dependent in versions
  }

  function PolicyCauses(r: ReadinessRequest, s: Surroundings): seq<Cause>
  {
    if r.destination.None? && r.purpose.None? then []
    else if r.destination.None? || r.purpose.None? then [PolicyContextIncomplete]
    else if s.policyRefusal.Some? then [PolicyDenied(s.policyRefusal.value)]
    else []
  }

  function AuthorizationCauses(r: ReadinessRequest, s: Surroundings): seq<Cause>
  {
    if !r.namesActivity || s.authorization.Permitted? then [] else [AuthorizationDenied(s.authorization.reason)]
  }

  function PacketCauses(status: PacketStatus): seq<Cause>
  {
    if status.Archived? || status.Superseded? then [PacketIs(status)] else []
  }

  function StatusFor(causes: seq<Cause>, authorizationBlocked: bool): ReadinessStatus
  {
    if authorizationBlocked || exists i :: 0 <= i < |causes| && Blocking(causes[i]) then NotReady
    else if causes != [] then ReadyAfterReview
    else Ready
  }

  function AllVersions(c: Commitment): seq<Id>
  {
    Distinct(c.selected + c.dependencies)
  }

  /** The map holds `v` under the logical id. */
  ghost predicate HeldBy(current: map<Id, Id>, logicalId: Id, v: Id)
  {
    logicalId in current && current[logicalId] == v
  }

  /** Everything a commitment needs to be ready. */
  ghost predicate MeetsAll(db: Db, packets: map<Id, Packet>, c: Commitment, r: ReadinessRequest, s: Surroundings)
    requires c.branch in db.branches && c.packet in packets
  {
    var branch := db.branches[c.branch];
    && branch.revision == c.revision
    && (forall v :: v in c.selected ==> v in db.versions && HeldBy(ReferencesOf(db.references, branch.current), db.versions[v].logicalId, v))
    && (forall v :: v in c.selected || v in c.dependencies ==> v in db.versions && s.content(v).Available?)
    && (forall k :: k in db.impacts && k.branch == c.branch ==> k.dependent !in c.selected && k.dependent !in c.dependencies)
    && (r.destination.Some? <==> r.purpose.Some?)
    && (r.destination.Some? ==> s.policyRefusal.None?)
    && (r.namesActivity ==> s.authorization.Permitted?)
    && !packets[c.packet].status.Archived? && !packets[c.packet].status.Superseded?
  }

  /** The readiness rows, by command id; a row once written is what its command answers. */
  class Assessments {
    var rows: map<Id, Assessment>

    constructor ()
      ensures rows == map[]
    {
      rows := map[];
    }
  }

  function MovedCauses(db: Db, c: Commitment): seq<Cause>
    requires c.branch in db.branches
  {
    if db.branches[c.branch].revision != c.revision then [BranchMoved] else []
  }

  /** `impactCauses` are the causes the impact rows give, in whatever order they are read. */
  ghost predicate ListsImpacts(impactCauses: seq<Cause>, db: Db, c: Commitment)
  {
    && (forall i :: 0 <= i < |impactCauses| ==> impactCauses[i].ImpactRecorded?)
    && (forall v :: ImpactRecorded(v) in impactCauses <==> v in ImpactedVersions(db, c.branch, AllVersions(c)))
  }

  /** The versions an assessment points at. */
  function AffectedVersions(db: Db, c: Commitment, r: ReadinessRequest, s: Surroundings): set<Id>
    requires c.branch in db.branches
  {
    var all := AllVersions(c);
    var keys := ImpactKeysOf(db, c.branch, all);
    (set v | v in c.selected && !IsCurrent(db, ReferencesOf(db.references, db.branches[c.branch].current), v))
      + (set v | v in all && !ContentOf(db, s, v).Available?)
      + (set k | k in keys :: k.dependent) + (set k | k in keys :: db.impacts[k].source)
      + (if PolicyCauses(r, s) + AuthorizationCauses(r, s) == [] then {} else set v | v in all)
  }

  ghost predicate Assesses(a: Assessment, db: Db, packets: map<Id, Packet>, c: Commitment, r: ReadinessRequest, s: Surroundings, impactCauses: seq<Cause>)
    requires c.branch in db.branches && c.packet in packets
  {
    && ListsImpacts(impactCauses, db, c)
    && a.commitment == c.id && a.packet == c.packet && a.branch == c.branch
    && a.causes == MovedCauses(db, c) + CandidateCauses(db, ReferencesOf(db.references, db.branches[c.branch].current), c.selected)
         + ContentCauses(db, s, AllVersions(c)) + impactCauses + PolicyCauses(r, s) + AuthorizationCauses(r, s) + PacketCauses(packets[c.packet].status)
    && a.status == StatusFor(a.causes, r.namesActivity && s.authorization.Denied?)
    && a.affected == AffectedVersions(db, c, r, s)
  }

  /** A fresh assessment is ready exactly when the branch is still at the commitment's revision,
      its map holds every selected version, all content is available, no recorded impact
      touches the versions, and neither policy, authorization nor the packet stand against it. */
  lemma ReadyExactly(a: Assessment, db: Db, packets: map<Id, Packet>, c: Commitment, r: ReadinessRequest, s: Surroundings, impactCauses: seq<Cause>)
    requires c.branch in db.branches && c.packet in packets && Assesses(a, db, packets, c, r, s, impactCauses)
    ensures a.status.Ready? <==> MeetsAll(db, packets, c, r, s)
  {
    NoCauseMeans(db, c, s);
    ImpactFree(impactCauses, db, c);
    assert a.status.Ready? <==> a.causes == [];
  }

  /** The reason contains one of the phrases the code looks for among the causes. */
  ghost predicate SoundsBlocking(reason: Text)
  {
    exists phrase :: phrase in {T("content is unavailable"), T("content is missing"), T("content is corrupt"), T("policy context incomplete"),
      T("policy denied"), T("packet is")} && Includes(reason, phrase)
  }

  /** What blocks a commitment: content that cannot be used, a policy or packet that stands against
      it, an authorization that is denied, or one whose refusal speaks of any of these. */
  ghost predicate Blocked(db: Db, packets: map<Id, Packet>, c: Commitment, r: ReadinessRequest, s: Surroundings)
    requires c.packet in packets
  {
    || (exists v :: (v in c.selected || v in c.dependencies) && !(v in db.versions && s.content(v).Available?))
    || (r.destination.Some? != r.purpose.Some?)
    || (r.destination.Some? && r.purpose.Some? && s.policyRefusal.Some?)
    || (r.namesActivity && (s.authorization.Denied? || (!s.authorization.Permitted? && SoundsBlocking(s.authorization.reason))))
    || packets[c.packet].status == Archived || packets[c.packet].status == Superseded
  }

  lemma ContentBlocks(db: Db, s: Surroundings, versions: seq<Id>)
    ensures SomeBlocks(ContentCauses(db, s, versions)) <==> exists v :: v in versions && !ContentOf(db, s, v).Available?
  {
    var causes := ContentCauses(db, s, versions);
    AllContentBlocks(db, s, versions);
    hide ContentCauses, ContentOf;
    if causes == [] {
      forall v | v in versions ensures ContentOf(db, s, v).Available? {
        var i :| 0 <= i < |versions| && versions[i] == v;
      }
    } else {
      assert causes[0].ContentIs? && Blocking(causes[0]);
      var i :| 0 <= i < |versions| && !ContentOf(db, s, versions[i]).Available?;
      assert versions[i] in versions && !ContentOf(db, s, versions[i]).Available?;
    }
  }

  lemma {:induction false} AllContentBlocks(db: Db, s: Surroundings, versions: seq<Id>)
    ensures forall i :: 0 <= i < |ContentCauses(db, s, versions)| ==> ContentCauses(db, s, versions)[i].ContentIs?
  {
    if versions != [] {
      AllContentBlocks(db, s, versions[..|versions| - 1]);
    }
  }

  lemma {:induction false} CandidatesDoNotBlock(db: Db, current: map<Id, Id>, selected: seq<Id>)
    ensures forall i :: 0 <= i < |CandidateCauses(db, current, selected)| ==> !Blocking(CandidateCauses(db, current, selected)[i])
  {
    if selected != [] {
      CandidatesDoNotBlock(db, current, selected[..|selected| - 1]);
    }
  }

  ghost predicate SomeBlocks(causes: seq<Cause>)
  {
    exists i :: 0 <= i < |causes| && Blocking(causes[i])
  }

  lemma BlocksInSum(a: seq<Cause>, b: seq<Cause>)
    ensures SomeBlocks(a + b) <==> SomeBlocks(a) || SomeBlocks(b)
  {
    if SomeBlocks(a) {
      var i :| 0 <= i < |a| && Blocking(a[i]);
      assert (a + b)[i] == a[i];
    }
    if SomeBlocks(b) {
      var i :| 0 <= i < |b| && Blocking(b[i]);
      assert (a + b)[|a| + i] == b[i];
    }
  }

  /** A fresh assessment is blocked exactly when something blocks the commitment; and it asks for
      review exactly when nothing does and it is not ready. */
  lemma BlockedExactly(a: Assessment, db: Db, packets: map<Id, Packet>, c: Commitment, r: ReadinessRequest, s: Surroundings, impactCauses: seq<Cause>)
    requires c.branch in db.branches && c.packet in packets && Assesses(a, db, packets, c, r, s, impactCauses)
    ensures a.status.NotReady? <==> Blocked(db, packets, c, r, s)
    ensures a.status.ReadyAfterReview? <==> !Blocked(db, packets, c, r, s) && !MeetsAll(db, packets, c, r, s)
  {
    ReadyExactly(a, db, packets, c, r, s, impactCauses);
    CausesBlock(a, db, packets, c, r, s, impactCauses);
    hide MeetsAll, Blocked;
  }

  lemma CausesBlock(a: Assessment, db: Db, packets: map<Id, Packet>, c: Commitment, r: ReadinessRequest, s: Surroundings, impactCauses: seq<Cause>)
    requires c.branch in db.branches && c.packet in packets && Assesses(a, db, packets, c, r, s, impactCauses)
    ensures SomeBlocks(a.causes) || (r.namesActivity && s.authorization.Denied?) <==> Blocked(db, packets, c, r, s)
  {
    var moved, candidates, content := MovedCauses(db, c), CandidateCauses(db, ReferencesOf(db.references, db.branches[c.branch].current), c.selected),
      ContentCauses(db, s, AllVersions(c));
    var policy, authorization, packet := PolicyCauses(r, s), AuthorizationCauses(r, s), PacketCauses(packets[c.packet].status);
    CandidatesDoNotBlock(db, ReferencesOf(db.references, db.branches[c.branch].current), c.selected);
    ContentBlocks(db, s, AllVersions(c));
    DistinctKeepsElements(c.selected + c.dependencies);
    BlocksInSum(moved, candidates);
    BlocksInSum(moved + candidates, content);
    BlocksInSum(moved + candidates + content, impactCauses);
    BlocksInSum(moved + candidates + content + impactCauses, policy);
    BlocksInSum(moved + candidates + content + impactCauses + policy, authorization);
    BlocksInSum(moved + candidates + content + impactCauses + policy + authorization, packet);
    ShortCausesBlock(db, packets, c, r, s);
    assert forall v :: v in AllVersions(c) <==> v in c.selected || v in c.dependencies;
    assert !SomeBlocks(impactCauses) && !SomeBlocks(candidates);
    assert SomeBlocks(content) <==> exists v :: v in AllVersions(c) && !ContentOf(db, s, v).Available?;
    assert SomeBlocks(a.causes) <==> SomeBlocks(content) || SomeBlocks(policy) || SomeBlocks(authorization) || SomeBlocks(packet);
    hide CandidateCauses, ContentCauses, AllVersions, MentionsBlocking, SomeBlocks, Assesses;
  }

  lemma SoundsLikeMentions(reason: Text)
    ensures MentionsBlocking(reason) <==> SoundsBlocking(reason)
  {
    hide Includes, T;
  }

  lemma ShortCausesBlock(db: Db, packets: map<Id, Packet>, c: Commitment, r: ReadinessRequest, s: Surroundings)
    requires c.branch in db.branches && c.packet in packets
    ensures !SomeBlocks(MovedCauses(db, c))
    ensures SomeBlocks(PolicyCauses(r, s)) <==> r.destination.Some? != r.purpose.Some? || (r.destination.Some? && r.purpose.Some? && s.policyRefusal.Some?)
    ensures SomeBlocks(AuthorizationCauses(r, s)) <==> r.namesActivity && !s.authorization.Permitted? && SoundsBlocking(s.authorization.reason)
    ensures SomeBlocks(PacketCauses(packets[c.packet].status)) <==> packets[c.packet].status == Archived || packets[c.packet].status == Superseded
  {
    if !s.authorization.Permitted? { SoundsLikeMentions(s.authorization.reason); }
    hide MentionsBlocking, SoundsBlocking;
    var p, a, k := PolicyCauses(r, s), AuthorizationCauses(r, s), PacketCauses(packets[c.packet].status);
    assert p != [] ==> Blocking(p[0]);
    assert a != [] ==> (Blocking(a[0]) <==> MentionsBlocking(s.authorization.reason));
    assert k != [] ==> Blocking(k[0]);
  }

  lemma NoCauseMeans(db: Db, c: Commitment, s: Surroundings)
    requires c.branch in db.branches
    ensures var current := ReferencesOf(db.references, db.branches[c.branch].current);
      CandidateCauses(db, current, c.selected) == [] <==> forall v :: v in c.selected ==> IsCurrent(db, current, v)
    ensures ContentCauses(db, s, AllVersions(c)) == [] <==>
      forall v :: v in c.selected || v in c.dependencies ==> v in db.versions && s.content(v).Available?
  {
    DistinctKeepsElements(c.selected + c.dependencies);
    assert forall v :: v in AllVersions(c) <==> v in c.selected || v in c.dependencies;
    assert ContentCauses(db, s, AllVersions(c)) == [] <==> forall v :: v in AllVersions(c) ==> ContentOf(db, s, v).Available?;
  }

  lemma ImpactFree(impactCauses: seq<Cause>, db: Db, c: Commitment)
    requires ListsImpacts(impactCauses, db, c)
    ensures impactCauses == [] <==>
      forall k :: k in db.impacts && k.branch == c.branch ==> k.dependent !in c.selected && k.dependent !in c.dependencies
  {
    DistinctKeepsElements(c.selected + c.dependencies);
    var impacted := ImpactedVersions(db, c.branch, AllVersions(c));
    if impactCauses != [] {
      assert impactCauses[0] == ImpactRecorded(impactCauses[0].dependent) && impactCauses[0].dependent in impacted;
    }
    forall k | k in db.impacts && k.branch == c.branch && (k.dependent in c.selected || k.dependent in c.dependencies) ensures impactCauses != [] {
      assert k.dependent in impacted;
      assert ImpactRecorded(k.dependent) in impactCauses;
    }
  }

  // ------------------------------------------------------- commitments over runs

  lemma PlanKeepsCommitments(h: Hash, s: State, c: Store.Command)
    ensures CommitmentsStay(s.ledger.commitments, Plan(h, s, c).1.commitments)
  {
    hide RecordOwnerDecision, SetPacketStatus, BranchPlan, AdoptAlternative, CommitmentsStay;
    match c
    case Decide(r, d, m) => DecideKeepsCommitments(h, s, r, d, m);
    case SetStatus(r) => StatusKeepsCommitments(h, s, r);
    case _ => OtherKeepsCommitments(h, s, c);
  }

  lemma DecideKeepsCommitments(h: Hash, s: State, r: DecisionRequest, d: Id, m: Id)
    ensures CommitmentsStay(s.ledger.commitments, RecordOwnerDecision(h, s.db, s.ledger, r, d, m).0.commitments)
  {
    hide Distinct, SetEqual, AllIn, DecisionTaken, CommitmentTaken, EventCommand, DecisionByCommand;
  }

  lemma StatusKeepsCommitments(h: Hash, s: State, r: LifecycleRequest)
    ensures CommitmentsStay(s.ledger.commitments, SetPacketStatus(h, s.db, s.ledger, r).0.commitments)
  {
    hide EventCommand, LastDecision;
  }

  lemma OtherKeepsCommitments(h: Hash, s: State, c: Store.Command)
    requires !c.Decide? && !c.SetStatus?
    ensures CommitmentsStay(s.ledger.commitments, Plan(h, s, c).1.commitments)
  {
    hide BranchPlan, AdoptAlternative, Distinct, IsBlank, SiblingExists, CandidateIds, T;
  }

  lemma {:induction false} RunKeepsCommitments(h: Hash, s: State, cs: seq<Store.Command>)
    requires Sound(s)
    ensures CommitmentsStay(s.ledger.commitments, Run(h, s, cs).ledger.commitments)
    decreases |cs|
  {
    if cs != [] {
      PlanKeepsCommitments(h, s, cs[0]);
      RunKeepsCommitments(h, After(h, s, cs[0]), cs[1..]);
    }
  }

  lemma SameCommitment(commitments: seq<Commitment>, later: seq<Commitment>, c: Commitment, d: Commitment)
    requires CommitmentsStay(commitments, later) && CommitmentKeysUnique(later)
    requires c in commitments && d in later && d.id == c.id
    ensures SameButStatus(c, d)
  {
    var i :| 0 <= i < |commitments| && commitments[i] == c;
    var j :| 0 <= j < |later| && later[j] == d;
    assert SameButStatus(commitments[i], later[i]);
    assert later[i].id == later[j].id;
  }

  /** Once a commitment's branch has moved past its revision, no fresh assessment of that
      commitment, after any run, is ready. */
  lemma NeverReadyAgain(h: Hash, s: State, cs: seq<Store.Command>, c: Commitment, d: Commitment, a: Assessment, r: ReadinessRequest, around: Surroundings, impactCauses: seq<Cause>)
    requires Sound(s) && c in s.ledger.commitments && c.branch in s.db.branches && s.db.branches[c.branch].revision > c.revision
    requires d in Run(h, s, cs).ledger.commitments && d.id == c.id
    requires d.branch in Run(h, s, cs).db.branches && d.packet in Run(h, s, cs).ledger.packets
    requires Assesses(a, Run(h, s, cs).db, Run(h, s, cs).ledger.packets, d, r, around, impactCauses)
    ensures !a.status.Ready?
  {
    hide Run, SnapshotsRooted, SnapshotsOwned, OnePerRevision, BranchesAnchored, ReferencesTyped, CommandsUnique, AllWitnessed, AllChained, GraphKept;
    var later := Run(h, s, cs);
    RunKeepsCommitments(h, s, cs);
    SameCommitment(s.ledger.commitments, later.ledger.commitments, c, d);
    assert BranchMoved in MovedCauses(later.db, d);
    assert a.causes[0] == BranchMoved;
  }

  // ------------------------------------------------------------------ assessReadiness

  lemma CandidatesOneMore(db: Db, current: map<Id, Id>, selected: seq<Id>, i: nat)
    requires i < |selected|
    ensures CandidateCauses(db, current, selected[..i + 1]) == CandidateCauses(db, current, selected[..i])
      + (if selected[i] !in db.versions then [CandidateUnavailable(selected[i])]
         else if Lookup(current, db.versions[selected[i]].logicalId) != Some(selected[i]) then [CandidateNotCurrent(selected[i])] else [])
  {
    assert selected[..i + 1][..i] == selected[..i];
  }

  method CheckCandidates(db: Db, current: map<Id, Id>, selected: seq<Id>) returns (causes: seq<Cause>, affected: set<Id>)
    ensures causes == CandidateCauses(db, current, selected)
    ensures affected == set v | v in selected && !IsCurrent(db, current, v)
  {
    assert CandidateCauses(db, current, selected[..0]) == [];
    hide CandidateCauses;
    causes, affected := [], {};
    for i := 0 to |selected|
      invariant causes == CandidateCauses(db, current, selected[..i])
      invariant affected == set v | v in selected[..i] && !IsCurrent(db, current, v)
    {
      var v := selected[i];
      assert selected[..i + 1] == selected[..i] + [v];
      CandidatesOneMore(db, current, selected, i);
      if v !in db.versions {
        causes, affected := causes + [CandidateUnavailable(v)], affected + {v};
      } else if Lookup(current, db.versions[v].logicalId) != Some(v) {
        causes, affected := causes + [CandidateNotCurrent(v)], affected + {v};
      }
    }
    assert selected[..|selected|] == selected;
  }

  method CheckContent(db: Db, s: Surroundings, versions: seq<Id>) returns (causes: seq<Cause>, affected: set<Id>)
    ensures causes == ContentCauses(db, s, versions)
    ensures affected == set v | v in versions && !ContentOf(db, s, v).Available?
  {
    causes, affected := [], {};
    for i := 0 to |versions|
      invariant causes == ContentCauses(db, s, versions[..i])
      invariant affected == set v | v in versions[..i] && !ContentOf(db, s, v).Available?
    {
      var v := versions[i];
      assert versions[..i + 1] == versions[..i] + [v];
      assert versions[..i + 1][..i] == versions[..i];
      if !ContentOf(db, s, v).Available? {
        causes, affected := causes + [ContentIs(v, ContentOf(db, s, v))], affected + {v};
      }
    }
    assert versions[..|versions|] == versions;
  }

  method CheckImpacts(db: Db, c: Commitment) returns (causes: seq<Cause>, affected: set<Id>)
    ensures ListsImpacts(causes, db, c)
    ensures var keys := ImpactKeysOf(db, c.branch, AllVersions(c));
      affected == (set k | k in keys :: k.dependent) + (set k | k in keys :: db.impacts[k].source)
  {
    causes, affected := [], {};
    var keys := ImpactKeysOf(db, c.branch, AllVersions(c));
    var rest := keys;
    while rest != {}
      invariant rest <= keys
      invariant forall i :: 0 <= i < |causes| ==> causes[i].ImpactRecorded?
      invariant forall v :: ImpactRecorded(v) in causes <==> v in set k | k in keys - rest :: k.dependent
      invariant affected == (set k | k in keys - rest :: k.dependent) + (set k | k in keys - rest :: db.impacts[k].source)
      decreases rest
    {
      var k :| k in rest;
      assert keys - (rest - {k}) == (keys - rest) + {k};
      causes, affected, rest := causes + [ImpactRecorded(k.dependent)], affected + {k.dependent, db.impacts[k].source}, rest - {k};
    }
    assert keys - rest == keys;
    assert (set k | k in keys :: k.dependent) == ImpactedVersions(db, c.branch, AllVersions(c));
  }

  /** The commitment a request is about: the one it names, if there is one, and otherwise the first
      active one on the packet it names. */
  lemma {:induction false} RequestedExactly(ledger: Ledger, r: ReadinessRequest, j: nat)
    requires CommitmentKeysUnique(ledger.commitments) && j < |ledger.commitments|
    ensures r.commitment == Some(ledger.commitments[j].id) ==> Requested(ledger, r) == Some(ledger.commitments[j])
    ensures (forall i :: 0 <= i < |ledger.commitments| ==> Some(ledger.commitments[i].id) != r.commitment) && IsFirstActive(ledger.commitments, r.packet, j) ==>
      Requested(ledger, r) == Some(ledger.commitments[j])
    ensures Requested(ledger, r) == Some(ledger.commitments[j]) ==>
      r.commitment == Some(ledger.commitments[j].id) || IsFirstActive(ledger.commitments, r.packet, j)
  {
    if r.commitment.Some? {
      ByIdExactly(ledger.commitments, r.commitment.value);
    }
    if r.packet.Some? {
      FirstActiveExactly(ledger.commitments, r.packet.value, j);
      if Requested(ledger, r) == Some(ledger.commitments[j]) {
        SameRow(ledger.commitments, j);
      }
    }
  }

  ghost predicate IsFirstActive(commitments: seq<Commitment>, packet: Option<Id>, j: nat)
    requires j < |commitments|
  {
    && packet == Some(commitments[j].packet) && commitments[j].status == Active
    && forall i :: 0 <= i < j ==> !(packet == Some(commitments[i].packet) && commitments[i].status == Active)
  }

  lemma SameRow(commitments: seq<Commitment>, j: nat)
    requires CommitmentKeysUnique(commitments) && j < |commitments|
    ensures forall i :: 0 <= i < |commitments| && commitments[i] == commitments[j] ==> i == j
  {
  }

  lemma {:induction false} ByIdExactly(commitments: seq<Commitment>, id: Id)
    requires CommitmentKeysUnique(commitments)
    ensures forall j :: 0 <= j < |commitments| && commitments[j].id == id ==> CommitmentById(commitments, id) == Some(commitments[j])
    ensures CommitmentById(commitments, id).None? <==> forall j :: 0 <= j < |commitments| ==> commitments[j].id != id
  {
    if commitments != [] {
      assert CommitmentKeysUnique(commitments[1..]);
      ByIdExactly(commitments[1..], id);
      forall j | 0 <= j < |commitments| && commitments[j].id == id ensures CommitmentById(commitments, id) == Some(commitments[j]) {
        if j > 0 {
          assert commitments[1..][j - 1] == commitments[j];
        }
      }
      assert forall j :: 0 < j < |commitments| ==> commitments[j] == commitments[1..][j - 1];
    }
  }

  lemma {:induction false} FirstActiveExactly(commitments: seq<Commitment>, packet: Id, j: nat)
    requires j < |commitments|
    ensures IsFirstActive(commitments, Some(packet), j) ==> ActiveCommitment(commitments, packet) == Some(commitments[j])
    ensures ActiveCommitment(commitments, packet) == Some(commitments[j]) ==>
      exists i :: 0 <= i < |commitments| && IsFirstActive(commitments, Some(packet), i) && commitments[i] == commitments[j]
  {
    if IsFirstActive(commitments, Some(packet), j) {
      FirstActiveFound(commitments, packet, j);
    }
    if ActiveCommitment(commitments, packet).Some? {
      var i := FirstActiveAt(commitments, packet);
    }
  }

  lemma {:induction false} FirstActiveFound(commitments: seq<Commitment>, packet: Id, j: nat)
    requires j < |commitments| && IsFirstActive(commitments, Some(packet), j)
    ensures ActiveCommitment(commitments, packet) == Some(commitments[j])
  {
    if j > 0 {
      assert forall i :: 0 <= i < j - 1 ==> commitments[1..][i] == commitments[i + 1];
      FirstActiveFound(commitments[1..], packet, j - 1);
    }
  }

  lemma {:induction false} FirstActiveAt(commitments: seq<Commitment>, packet: Id) returns (i: nat)
    requires ActiveCommitment(commitments, packet).Some?
    ensures i < |commitments| && IsFirstActive(commitments, Some(packet), i) && ActiveCommitment(commitments, packet) == Some(commitments[i])
  {
    if commitments[0].packet == packet && commitments[0].status.Active? {
      i := 0;
    } else {
      var k := FirstActiveAt(commitments[1..], packet);
      i := k + 1;
      assert commitments[i] == commitments[1..][k];
      forall j | 0 <= j < i ensures !(Some(packet) == Some(commitments[j].packet) && commitments[j].status == Active) {
        assert j > 0 ==> commitments[j] == commitments[1..][j - 1];
      }
    }
  }

  /** When each cause stands in an assessment. */
  ghost predicate Stands(db: Db, packets: map<Id, Packet>, c: Commitment, r: ReadinessRequest, s: Surroundings, cause: Cause)
    requires c.branch in db.branches && c.packet in packets
  {
    var branch := db.branches[c.branch];
    match cause
    case BranchMoved => branch.revision != c.revision
    case CandidateUnavailable(v) => v in c.selected && v !in db.versions
    case CandidateNotCurrent(v) =>
      v in c.selected && v in db.versions && !HeldBy(ReferencesOf(db.references, branch.current), db.versions[v].logicalId, v)
    case ContentIs(v, content) =>
      (v in c.selected || v in c.dependencies) && content != Available && content == if v in db.versions then s.content(v) else NoContent
    case ImpactRecorded(v) => (v in c.selected || v in c.dependencies) && exists k :: k in db.impacts && k.branch == c.branch && k.dependent == v
    case PolicyContextIncomplete => r.destination.Some? != r.purpose.Some?
    case PolicyDenied(reason) => r.destination.Some? && r.purpose.Some? && s.policyRefusal == Some(reason)
    case AuthorizationDenied(reason) => r.namesActivity && !s.authorization.Permitted? && s.authorization.reason == reason
    case PacketIs(status) => packets[c.packet].status == status && (status == Archived || status == Superseded)
  }

  lemma {:induction false} CandidateCausesExactly(db: Db, current: map<Id, Id>, selected: seq<Id>, cause: Cause)
    ensures cause in CandidateCauses(db, current, selected) <==>
      || (cause.CandidateUnavailable? && cause.version in selected && cause.version !in db.versions)
      || (cause.CandidateNotCurrent? && cause.version in selected && cause.version in db.versions
          && !HeldBy(current, db.versions[cause.version].logicalId, cause.version))
  {
    if selected != [] {
      var init := selected[..|selected| - 1];
      assert selected == init + [selected[|selected| - 1]];
      CandidateCausesExactly(db, current, init, cause);
    }
  }

  lemma {:induction false} ContentCausesExactly(db: Db, s: Surroundings, versions: seq<Id>, cause: Cause)
    ensures cause in ContentCauses(db, s, versions) <==>
      cause.ContentIs? && cause.version in versions && cause.content != Available && cause.content == ContentOf(db, s, cause.version)
  {
    if versions != [] {
      var init := versions[..|versions| - 1];
      assert versions == init + [versions[|versions| - 1]];
      ContentCausesExactly(db, s, init, cause);
    }
  }

  lemma ShortCausesExactly(db: Db, packets: map<Id, Packet>, c: Commitment, r: ReadinessRequest, s: Surroundings, cause: Cause)
    requires c.branch in db.branches && c.packet in packets
    ensures (cause in MovedCauses(db, c) <==> cause == BranchMoved && Stands(db, packets, c, r, s, cause))
    ensures (cause in PolicyCauses(r, s) <==> (cause.PolicyContextIncomplete? || cause.PolicyDenied?) && Stands(db, packets, c, r, s, cause))
    ensures (cause in AuthorizationCauses(r, s) <==> cause.AuthorizationDenied? && Stands(db, packets, c, r, s, cause))
    ensures (cause in PacketCauses(packets[c.packet].status) <==> cause.PacketIs? && Stands(db, packets, c, r, s, cause))
  {
    hide ReferencesOf, HeldBy;
  }

  lemma LongCausesExactly(db: Db, packets: map<Id, Packet>, c: Commitment, r: ReadinessRequest, s: Surroundings, cause: Cause)
    requires c.branch in db.branches && c.packet in packets
    ensures (cause in CandidateCauses(db, ReferencesOf(db.references, db.branches[c.branch].current), c.selected) <==>
      ((cause.CandidateUnavailable? || cause.CandidateNotCurrent?) && Stands(db, packets, c, r, s, cause)))
    ensures (cause in ContentCauses(db, s, AllVersions(c)) <==> cause.ContentIs? && Stands(db, packets, c, r, s, cause))
  {
    CandidateCausesExactly(db, ReferencesOf(db.references, db.branches[c.branch].current), c.selected, cause);
    ContentCausesExactly(db, s, AllVersions(c), cause);
    InAllVersions(c);
    hide CandidateCauses, ContentCauses, AllVersions, HeldBy, ReferencesOf;
  }

  lemma InAllVersions(c: Commitment)
    ensures forall v :: v in AllVersions(c) <==> v in c.selected || v in c.dependencies
  {
    DistinctKeepsElements(c.selected + c.dependencies);
  }

  /** A cause is listed exactly when it stands. */
  lemma CausesExactly(a: Assessment, db: Db, packets: map<Id, Packet>, c: Commitment, r: ReadinessRequest, s: Surroundings, impactCauses: seq<Cause>, cause: Cause)
    requires c.branch in db.branches && c.packet in packets && Assesses(a, db, packets, c, r, s, impactCauses)
    ensures cause in a.causes <==> Stands(db, packets, c, r, s, cause)
  {
    hide MovedCauses, CandidateCauses, ContentCauses, PolicyCauses, AuthorizationCauses, PacketCauses, AllVersions, ListsImpacts, HeldBy,
      ReferencesOf, StatusFor, AffectedVersions;
    ShortCausesExactly(db, packets, c, r, s, cause);
    LongCausesExactly(db, packets, c, r, s, cause);
    InAllVersions(c);
    ImpactCausesExactly(impactCauses, db, c, cause);
  }

  /** The versions an assessment points at: candidates that are not current, versions without
      content, both ends of each impact, and all of them when policy or authorization refuses. */
  lemma AffectedExactly(a: Assessment, db: Db, packets: map<Id, Packet>, c: Commitment, r: ReadinessRequest, s: Surroundings, impactCauses: seq<Cause>, v: Id)
    requires c.branch in db.branches && c.packet in packets && Assesses(a, db, packets, c, r, s, impactCauses)
    ensures v in a.affected <==>
      || (v in c.selected && !(v in db.versions && HeldBy(ReferencesOf(db.references, db.branches[c.branch].current), db.versions[v].logicalId, v)))
      || ((v in c.selected || v in c.dependencies) && !(v in db.versions && s.content(v).Available?))
      || (exists k :: k in db.impacts && k.branch == c.branch && (k.dependent in c.selected || k.dependent in c.dependencies)
            && (v == k.dependent || v == db.impacts[k].source))
      || ((v in c.selected || v in c.dependencies)
            && (r.destination.Some? != r.purpose.Some? || (r.destination.Some? && s.policyRefusal.Some?)
                || (r.namesActivity && !s.authorization.Permitted?)))
  {
    InAllVersions(c);
    hide ReferencesOf, ListsImpacts, StatusFor, MovedCauses, CandidateCauses, ContentCauses, PacketCauses, AllVersions;
  }

  lemma ImpactCausesExactly(impactCauses: seq<Cause>, db: Db, c: Commitment, cause: Cause)
    requires ListsImpacts(impactCauses, db, c)
    ensures cause in impactCauses <==>
      cause.ImpactRecorded? && cause.dependent in AllVersions(c) && exists k :: k in db.impacts && k.branch == c.branch && k.dependent == cause.dependent
  {
    hide AllVersions;
    if cause in impactCauses {
      var i :| 0 <= i < |impactCauses| && impactCauses[i] == cause;
      assert cause == ImpactRecorded(cause.dependent);
    }
  }

  /** What `assessReadiness` throws before it looks at anything else. */
  function Refusal(db: Db, ledger: Ledger, r: ReadinessRequest): Option<Error>
  {
    if !db.ready then Some(ReadOnly)
    else
      var commitment := Requested(ledger, r);
      if commitment.None? then Some(InvalidArgument)
      else if commitment.value.packet !in ledger.packets then Some(PacketNotFound)
      else if r.branch.Some? && r.branch.value != commitment.value.branch then Some(InvalidArgument)
      else if commitment.value.branch !in db.branches then Some(BranchNotFound)
      else None
  }

  /** A request is assessed if and only if the store is ready and it leads to a commitment of a
      known packet on an existing branch, the one it names if it names one. */
  lemma AnsweredExactly(db: Db, ledger: Ledger, r: ReadinessRequest)
    ensures Refusal(db, ledger, r).None? <==>
      && db.ready && Requested(ledger, r).Some?
      && var c := Requested(ledger, r).value;
      && c.packet in ledger.packets && c.branch in db.branches && r.branch in {None, Some(c.branch)}
  {
    hide Requested;
  }

  /** The command id under which an assessment is stored. */
  function CommandFor(r: ReadinessRequest, newId: Id): Id
  {
    if r.command.Some? then r.command.value else T("readiness-") + newId
  }

  /** `assessReadiness`. A command id seen before answers with its stored row. */
  method AssessReadiness(handle: Handle, rows: Assessments, r: ReadinessRequest, s: Surroundings, newId: Id) returns (outcome: Outcome)
    modifies rows
    ensures Refusal(handle.db, handle.ledger, r) == if outcome.Failed? then Some(outcome.error) else None
    ensures outcome.Failed? ==> rows.rows == old(rows.rows)
    ensures outcome.Assessed? ==> (outcome.stored <==> CommandFor(r, newId) in old(rows.rows))
    ensures outcome.Assessed? ==> CommandFor(r, newId) in rows.rows && outcome.assessment == rows.rows[CommandFor(r, newId)]
    ensures outcome.Assessed? ==>
      rows.rows == if outcome.stored then old(rows.rows) else old(rows.rows)[CommandFor(r, newId) := outcome.assessment]
    ensures outcome.Assessed? && !outcome.stored ==>
      && Requested(handle.ledger, r).Some?
      && var c := Requested(handle.ledger, r).value;
      && c.branch in handle.db.branches && c.packet in handle.ledger.packets
      && exists impactCauses :: Assesses(outcome.assessment, handle.db, handle.ledger.packets, c, r, s, impactCauses)
  {
    var db, ledger := handle.db, handle.ledger;
    if !db.ready { return Failed(ReadOnly); }
    var commitment := Requested(ledger, r);
    if commitment.None? { return Failed(InvalidArgument); }
    var c := commitment.value;
    if c.packet !in ledger.packets { return Failed(PacketNotFound); }
    if r.branch.Some? && r.branch.value != c.branch { return Failed(InvalidArgument); }
    if c.branch !in db.branches { return Failed(BranchNotFound); }
    var all := AllVersions(c);
    var causes1, affected1 := CheckCandidates(db, ReferencesOf(db.references, db.branches[c.branch].current), c.selected);
    var causes2, affected2 := CheckContent(db, s, all);
    var causes3, affected3 := CheckImpacts(db, c);
    var policy, authorization := PolicyCauses(r, s), AuthorizationCauses(r, s);
    var causes := MovedCauses(db, c) + causes1 + causes2 + causes3 + policy + authorization + PacketCauses(ledger.packets[c.packet].status);
    var affected := affected1 + affected2 + affected3 + (if policy + authorization == [] then {} else set v | v in all);
    var status := StatusFor(causes, r.namesActivity && s.authorization.Denied?);
    var assessment := Assessment(c.id, c.packet, c.branch, status, causes, affected);
    var command := CommandFor(r, newId);
    if command in rows.rows { return Assessed(rows.rows[command], true); }
    rows.rows := rows.rows[command := assessment];
    assert Assesses(assessment, db, ledger.packets, c, r, s, causes3);
    return Assessed(assessment, false);
  }
}
