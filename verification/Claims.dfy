/** Cached claim support: the four operations that write claims, the recomputation they cache,
    and why the cache is right in every reachable state. */
module Claims {
  import opened Texts
  import opened Graph
  import opened Tables
  import opened Branches
  import opened Invariants
  import Store

  datatype Support =
    | Unverified | IdentityResolved | FieldsMissing | AccessLimited | SubstantivelySupported | NotSupported | Contested | NeedsReassessment

  datatype Role = Supporting | Challenging
  datatype LinkStatus = LinkUnverified | LinkAccessLimited | LinkSubstantive | LinkUnsupported
  datatype Identity = Resolved | Missing
  datatype CitationAccess = FullTextAccess | LimitedAccess | UnavailableAccess
  datatype CitationSupport = CitationUnverified | CitationSubstantive | CitationUnsupported

  datatype ClaimFields = ClaimFields(statement: Text, scope: Text, origin: Text, qualification: Text)

  datatype Claim = Claim(fields: ClaimFields, command: Id, support: Support)
  datatype Link = Link(claim: Id, item: Id, role: Role, status: LinkStatus, qualification: Text, command: Id)

  datatype Verification = Verification(
    claim: Id, source: Id, identity: Identity, access: CitationAccess, support: CitationSupport,
    bibliography: Text, limitations: seq<Text>, command: Id)

  datatype Reassessment = Reassessment(claim: Id, source: Id, command: Id, previous: Support)

  /** `claimCommands` is the unique index of the claims on their command. */
  datatype ClaimTables = ClaimTables(
    claims: map<Id, Claim>, claimCommands: map<Id, Id>, links: seq<Link>, verifications: seq<Verification>, reassessments: seq<Reassessment>)

  // ------------------------------------------------------------------ the recomputation

  datatype LinkQuery = OfRole(role: Role) | SupportingWith(status: LinkStatus) | WithStatus(status: LinkStatus)

  predicate LinkMatches(l: Link, claim: Id, q: LinkQuery)
  {
    l.claim == claim && match q
      case OfRole(role) => l.role == role
      case SupportingWith(status) => l.role == Supporting && l.status == status
      case WithStatus(status) => l.status == status
  }

  datatype VerificationQuery = AnyAtAll | WithSupport(support: CitationSupport) | NotFullText | WithIdentity(identity: Identity)

  predicate VerificationMatches(v: Verification, claim: Id, q: VerificationQuery)
  {
    v.claim == claim && match q
      case AnyAtAll => true
      case WithSupport(support) => v.support == support
      case NotFullText => v.access != FullTextAccess
      case WithIdentity(identity) => v.identity == identity
  }

  predicate AnyLink(links: seq<Link>, claim: Id, q: LinkQuery)
  {
    exists i :: 0 <= i < |links| && LinkMatches(links[i], claim, q)
  }

  predicate AnyVerification(verifications: seq<Verification>, claim: Id, q: VerificationQuery)
  {
    exists i :: 0 <= i < |verifications| && VerificationMatches(verifications[i], claim, q)
  }

  predicate Reassessed(reassessments: seq<Reassessment>, claim: Id)
  {
    exists i :: 0 <= i < |reassessments| && reassessments[i].claim == claim
  }

  /** The facts about a claim's rows that decide its support. */
  datatype Facts = Facts(
    supporting: bool, challenging: bool, substantive: bool, limited: bool, unsupported: bool,
    missing: bool, resolved: bool, verified: bool, reassessed: bool)

  function FactsOf(links: seq<Link>, verifications: seq<Verification>, reassessments: seq<Reassessment>, claim: Id): Facts
  {
    Facts(
      AnyLink(links, claim, OfRole(Supporting)),
      AnyLink(links, claim, OfRole(Challenging)),
      AnyLink(links, claim, SupportingWith(LinkSubstantive)) || AnyVerification(verifications, claim, WithSupport(CitationSubstantive)),
      AnyLink(links, claim, SupportingWith(LinkAccessLimited)) || AnyVerification(verifications, claim, NotFullText),
      AnyVerification(verifications, claim, WithSupport(CitationUnsupported)) || AnyLink(links, claim, WithStatus(LinkUnsupported)),
      AnyVerification(verifications, claim, WithIdentity(Missing)),
      AnyVerification(verifications, claim, WithIdentity(Resolved)),
      AnyVerification(verifications, claim, AnyAtAll),
      Reassessed(reassessments, claim))
  }

  function Judge(f: Facts): Support
  {
    if f.reassessed then NeedsReassessment
    else if !f.supporting && !f.challenging && !f.verified then Unverified
    else if f.supporting && f.challenging then Contested
    else if f.substantive then SubstantivelySupported
    else if f.unsupported then NotSupported
    else if f.limited then AccessLimited
    else if f.missing then FieldsMissing
    else if f.resolved then IdentityResolved
    else Unverified
  }

  function Recomputed(t: ClaimTables, claim: Id): Support
  {
    Judge(FactsOf(t.links, t.verifications, t.reassessments, claim))
  }

  /** `updateClaimSupport` */
  function Refreshed(t: ClaimTables, claim: Id): ClaimTables
    requires claim in t.claims
  {
    t.(claims := t.claims[claim := t.claims[claim].(support := Recomputed(t, claim))])
  }

  // ------------------------------------------------------------------ the operations

  datatype EvidenceItem = EvidenceItem(source: Id, hasExcerpt: bool)
  datatype Source = Source(fullText: bool, complete: bool, contentAvailable: bool, identified: bool, bibliography: Text)

  /** What the evidence and source stores hold at the time of a call. */
  datatype Evidence = Evidence(items: map<Id, EvidenceItem>, sources: map<Id, Source>)

  datatype ClaimPayload =
    | RecordPayload(id: Id, fields: ClaimFields)
    | LinkPayload(claim: Id, item: Id, role: Role, qualification: Text)
    | CitationPayload(verification: Verification)

  type Digest = ClaimPayload -> Text

  datatype ClaimError =
    | ClaimsReadOnly | InvalidClaim | InvalidCommand | ClaimConflict | ClaimExists | ClaimNotFound | InvalidRole
    | EvidenceNotFound | SourceNotFound | LinkConflict | LinkExists | CitationConflict | InvalidSourceNotice | CorrectionFailed(error: Error)

  datatype ClaimReply =
    | ClaimRecorded(id: Id)
    | LinkRecorded(link: Link)
    | VerificationRecorded(verification: Verification)
    | NoticeApplied(rows: seq<Reassessment>)
    | NoticeDuplicate(earlier: set<Reassessment>)
    | ProjectDone
    | Interrupted
    | ClaimThrown(error: ClaimError)

  datatype RecordRequest = RecordRequest(id: Option<Id>, fields: ClaimFields, command: Id)

  function OrNew(id: Option<Id>, other: Id): Id
  {
    if id.Some? then id.value else other
  }

  /** `recordClaim` */
  function RecordClaim(t: ClaimTables, ready: bool, digest: Digest, r: RecordRequest, newId: Id): (a: (ClaimTables, ClaimReply))
    ensures a.0.reassessments == t.reassessments && a.0.links == t.links && a.0.verifications == t.verifications
    ensures t.claims.Keys <= a.0.claims.Keys
  {
    if !ready then (t, ClaimThrown(ClaimsReadOnly))
    else if IsBlank(r.fields.statement) then (t, ClaimThrown(InvalidClaim))
    else if r.command == [] then (t, ClaimThrown(InvalidCommand))
    else if r.command in t.claimCommands && t.claimCommands[r.command] in t.claims then
      var recorded := t.claimCommands[r.command];
      if digest(RecordPayload(OrNew(r.id, recorded), r.fields)) != digest(RecordPayload(recorded, t.claims[recorded].fields)) then (t, ClaimThrown(ClaimConflict))
      else (t, ClaimRecorded(recorded))
    else
      var id := OrNew(r.id, newId);
      if id in t.claims then (t, ClaimThrown(ClaimExists))
      else (t.(claims := t.claims[id := Claim(r.fields, r.command, Unverified)], claimCommands := t.claimCommands[r.command := id]), ClaimRecorded(id))
  }

  datatype LinkRequest = LinkRequest(claim: Id, item: Id, role: Option<Role>, qualification: Text, command: Id)

  function LinkBy(links: seq<Link>, command: Id): (link: Option<Link>)
    ensures link.Some? ==> link.value in links && link.value.command == command
    ensures link.None? ==> forall i :: 0 <= i < |links| ==> links[i].command != command
  {
    if links == [] then None else if links[0].command == command then Some(links[0]) else LinkBy(links[1..], command)
  }

  function VerificationBy(verifications: seq<Verification>, command: Id): (v: Option<Verification>)
    ensures v.Some? ==> v.value in verifications && v.value.command == command
    ensures v.None? ==> forall i :: 0 <= i < |verifications| ==> verifications[i].command != command
  {
    if verifications == [] then None
    else if verifications[0].command == command then Some(verifications[0])
    else VerificationBy(verifications[1..], command)
  }

  predicate LinkTaken(links: seq<Link>, claim: Id, item: Id, role: Role)
  {
    exists l :: l in links && l.claim == claim && l.item == item && l.role == role
  }

  /** `linkStatus` */
  function StatusOfLink(item: EvidenceItem, source: Source): LinkStatus
  {
    if !source.fullText || !source.complete then LinkAccessLimited else if !item.hasExcerpt then LinkUnverified else LinkSubstantive
  }

  function InsertLink(t: ClaimTables, link: Link): ClaimTables
  {
    t.(links := t.links + [link])
  }

  /** `linkClaimEvidence`. The insert and the update of the support are two statements: `cut` when
      the process ends between them. */
  function LinkEvidence(t: ClaimTables, ready: bool, digest: Digest, e: Evidence, r: LinkRequest, cut: bool): (a: (ClaimTables, ClaimReply))
    ensures a.0.reassessments == t.reassessments && a.0.verifications == t.verifications && t.links <= a.0.links
    ensures t.claims.Keys <= a.0.claims.Keys && (a.1.Interrupted? ==> cut)
  {
    if !ready then (t, ClaimThrown(ClaimsReadOnly))
    else if r.role.None? then (t, ClaimThrown(InvalidRole))
    else if r.claim !in t.claims then (t, ClaimThrown(ClaimNotFound))
    else if r.item !in e.items then (t, ClaimThrown(EvidenceNotFound))
    else if LinkBy(t.links, r.command).Some? then
      var recorded := LinkBy(t.links, r.command).value;
      if digest(LinkPayload(r.claim, r.item, r.role.value, r.qualification)) != digest(LinkPayload(recorded.claim, recorded.item, recorded.role, recorded.qualification))
      then (t, ClaimThrown(LinkConflict)) else (t, LinkRecorded(recorded))
    else if e.items[r.item].source !in e.sources then (t, ClaimThrown(SourceNotFound))
    else if LinkTaken(t.links, r.claim, r.item, r.role.value) then (t, ClaimThrown(LinkExists))
    else
      var item := e.items[r.item];
      var link := Link(r.claim, r.item, r.role.value, StatusOfLink(item, e.sources[item.source]), r.qualification, r.command);
      if cut then (InsertLink(t, link), Interrupted) else (Refreshed(InsertLink(t, link), r.claim), LinkRecorded(link))
  }

  datatype CitationRequest = CitationRequest(claim: Id, source: Id, abstractSupported: Option<bool>, limitations: seq<Text>, command: Id)

  /** A supporting link of the claim to an item of the source is substantively supported. */
  predicate SupportedFrom(links: seq<Link>, items: map<Id, EvidenceItem>, claim: Id, source: Id)
  {
    exists i :: 0 <= i < |links| && SupportsFrom(links[i], items, claim, source)
  }

  predicate SupportsFrom(l: Link, items: map<Id, EvidenceItem>, claim: Id, source: Id)
  {
    l.claim == claim && l.role == Supporting && l.item in items && items[l.item].source == source && l.status == LinkSubstantive
  }

  function CitationOf(t: ClaimTables, e: Evidence, r: CitationRequest): Verification
    requires r.source in e.sources
  {
    var source := e.sources[r.source];
    var identity := if source.identified then Resolved else Missing;
    var access := if !source.contentAvailable then UnavailableAccess else if !source.fullText || !source.complete then LimitedAccess else FullTextAccess;
    var support :=
      if r.abstractSupported == Some(false) then CitationUnsupported
      else if SupportedFrom(t.links, e.items, r.claim, r.source) && access.FullTextAccess? && identity.Resolved? then CitationSubstantive
      else if !access.FullTextAccess? then (if r.abstractSupported == Some(true) then CitationUnverified else CitationUnsupported)
      else CitationUnverified;
    var limitations := r.limitations
      + (if access.FullTextAccess? then [] else [T("full-text-unavailable")])
      + (if identity.Missing? then [T("bibliographic-fields-missing")] else []);
    Verification(r.claim, r.source, identity, access, support, source.bibliography, Distinct(limitations), r.command)
  }

  function InsertVerification(t: ClaimTables, v: Verification): ClaimTables
  {
    t.(verifications := t.verifications + [v])
  }

  /** `verifyCitation`, with the same gap between its insert and the update of the support. */
  function VerifyCitation(t: ClaimTables, ready: bool, digest: Digest, e: Evidence, r: CitationRequest, cut: bool): (a: (ClaimTables, ClaimReply))
    ensures a.0.reassessments == t.reassessments && a.0.links == t.links && t.verifications <= a.0.verifications
    ensures t.claims.Keys <= a.0.claims.Keys && (a.1.Interrupted? ==> cut)
  {
    if !ready then (t, ClaimThrown(ClaimsReadOnly))
    else if r.claim !in t.claims then (t, ClaimThrown(ClaimNotFound))
    else if r.source !in e.sources then (t, ClaimThrown(SourceNotFound))
    else
      var v := CitationOf(t, e, r);
      if VerificationBy(t.verifications, r.command).Some? then
        var recorded := VerificationBy(t.verifications, r.command).value;
        if digest(CitationPayload(v)) != digest(CitationPayload(recorded)) then (t, ClaimThrown(CitationConflict)) else (t, VerificationRecorded(recorded))
      else if cut then (InsertVerification(t, v), Interrupted)
      else (Refreshed(InsertVerification(t, v), r.claim), VerificationRecorded(v))
  }

  datatype NoticeRequest = NoticeRequest(source: Id, kind: Option<Text>, notice: Text, command: Id)

  /** `linkedClaims`: the claims with a link to an item of the source. */
  ghost function LinkedClaims(t: ClaimTables, items: map<Id, EvidenceItem>, source: Id): set<Id>
  {
    set c | c in t.claims && LinkedTo(t.links, items, c, source)
  }

  predicate LinkedTo(links: seq<Link>, items: map<Id, EvidenceItem>, claim: Id, source: Id)
  {
    exists l :: l in links && l.claim == claim && l.item in items && items[l.item].source == source
  }

  function ReassessmentOf(t: ClaimTables, claim: Id, r: NoticeRequest): Reassessment
    requires claim in t.claims
  {
    Reassessment(claim, r.source, r.command, t.claims[claim].support)
  }

  /** `insertReassessment` */
  function Reassess(t: ClaimTables, row: Reassessment): ClaimTables
    requires row.claim in t.claims
  {
    t.(reassessments := t.reassessments + [row], claims := t.claims[row.claim := t.claims[row.claim].(support := NeedsReassessment)])
  }

  /** The loop over the linked claims, with the rows as they were selected before it. */
  function ReassessAll(t: ClaimTables, r: NoticeRequest, claims: seq<Id>): (later: ClaimTables)
    requires forall c :: c in claims ==> c in t.claims
    ensures later.claims.Keys == t.claims.Keys
  {
    if claims == [] then t else
    var last := claims[|claims| - 1];
    assert forall c :: c in claims[..|claims| - 1] ==> c in claims;
    Reassess(ReassessAll(t, r, claims[..|claims| - 1]), ReassessmentOf(t, last, r))
  }

  function RowsFor(t: ClaimTables, r: NoticeRequest, claims: seq<Id>): (rows: seq<Reassessment>)
    requires forall c :: c in claims ==> c in t.claims
    ensures |rows| == |claims| && forall i :: 0 <= i < |claims| ==> rows[i] == ReassessmentOf(t, claims[i], r)
  {
    seq(|claims|, i requires 0 <= i < |claims| => ReassessmentOf(t, claims[i], r))
  }

  function RowsBy(reassessments: seq<Reassessment>, command: Id): set<Reassessment>
  {
    set row | row in reassessments && row.command == command
  }

  datatype World = World(project: Store.State, tables: ClaimTables)

  function CorrectionFor(r: NoticeRequest): CorrectionRequest
  {
    CorrectionRequest(r.source, (if r.kind.Some? then r.kind.value else T("correction")) + T(": ") + r.notice, r.command)
  }

  /** `applySourceNotice`: the transaction of the correction first, then that of the
      reassessments; `cut` when the process ends between the two. */
  ghost function ApplyNotice(h: Hash, w: World, e: Evidence, r: NoticeRequest, cut: bool): (a: (World, ClaimReply))
    requires Store.Sound(w.project)
    ensures a.0.project == w.project || a.0.project == Store.After(h, w.project, Store.Correct(CorrectionFor(r)))
  {
    var db := w.project.db;
    if !db.ready then (w, ClaimThrown(ClaimsReadOnly))
    else if IsBlank(r.notice) then (w, ClaimThrown(InvalidSourceNotice))
    else if r.source !in e.sources then (w, ClaimThrown(SourceNotFound))
    else
      var reply := RecordCorrection(h, db, CorrectionFor(r)).1;
      var corrected := w.(project := Store.After(h, w.project, Store.Correct(CorrectionFor(r))));
      if reply.Thrown? then (w, ClaimThrown(CorrectionFailed(reply.error)))
      else if cut then (corrected, Interrupted)
      else if Tables.Command(db.history, r.command).Some? || RowsBy(w.tables.reassessments, r.command) != {} then
        (corrected, NoticeDuplicate(RowsBy(w.tables.reassessments, r.command)))
      else
        var claims := Listing(LinkedClaims(w.tables, e.items, r.source));
        (corrected.(tables := ReassessAll(w.tables, r, claims)), NoticeApplied(RowsFor(w.tables, r, claims)))
  }

  // ------------------------------------------------------------------ runs

  /** The claim operations, each completed or cut, and any command of the project in between. */
  datatype ClaimCommand =
    | Record(record: RecordRequest, newId: Id)
    | LinkItem(evidence: Evidence, link: LinkRequest, cut: bool)
    | Verify(evidence: Evidence, citation: CitationRequest, cut: bool)
    | Notice(evidence: Evidence, notice: NoticeRequest, cut: bool)
    | Project(command: Store.Command)

  ghost function ClaimStep(h: Hash, digest: Digest, w: World, c: ClaimCommand): (a: (World, ClaimReply))
    requires Store.Sound(w.project)
    ensures Store.Sound(a.0.project) && Grows(w.project.db, a.0.project.db)
  {
    var t, ready := w.tables, w.project.db.ready;
    match c
    case Record(r, newId) => (w.(tables := RecordClaim(t, ready, digest, r, newId).0), RecordClaim(t, ready, digest, r, newId).1)
    case LinkItem(e, r, cut) => (w.(tables := LinkEvidence(t, ready, digest, e, r, cut).0), LinkEvidence(t, ready, digest, e, r, cut).1)
    case Verify(e, r, cut) => (w.(tables := VerifyCitation(t, ready, digest, e, r, cut).0), VerifyCitation(t, ready, digest, e, r, cut).1)
    case Notice(e, r, cut) => ApplyNotice(h, w, e, r, cut)
    case Project(command) => (w.(project := Store.After(h, w.project, command)), ProjectDone)
  }

  ghost function ClaimRun(h: Hash, digest: Digest, w: World, cs: seq<ClaimCommand>): (later: World)
    requires Store.Sound(w.project)
    ensures Store.Sound(later.project) && Grows(w.project.db, later.project.db)
  {
    if cs == [] then w else
    var earlier := ClaimRun(h, digest, w, cs[..|cs| - 1]);
    var later := ClaimStep(h, digest, earlier, cs[|cs| - 1]).0;
    GrowsTransitive(w.project.db, earlier.project.db, later.project.db);
    later
  }

  ghost function FirstWorld(first: Id): (w: World)
    ensures Store.Sound(w.project)
  {
    Store.InitialSound(first);
    World(Store.Initial(first), ClaimTables(map[], map[], [], [], []))
  }

  // ------------------------------------------------------------------ rows and queries

  lemma AnyLinkAppend(links: seq<Link>, l: Link, claim: Id, q: LinkQuery)
    ensures AnyLink(links + [l], claim, q) <==> AnyLink(links, claim, q) || LinkMatches(l, claim, q)
  {
    assert (links + [l])[|links|] == l;
    if AnyLink(links, claim, q) {
      var i :| 0 <= i < |links| && LinkMatches(links[i], claim, q);
      assert (links + [l])[i] == links[i];
    }
  }

  lemma AnyVerificationAppend(verifications: seq<Verification>, v: Verification, claim: Id, q: VerificationQuery)
    ensures AnyVerification(verifications + [v], claim, q) <==> AnyVerification(verifications, claim, q) || VerificationMatches(v, claim, q)
  {
    assert (verifications + [v])[|verifications|] == v;
    if AnyVerification(verifications, claim, q) {
      var i :| 0 <= i < |verifications| && VerificationMatches(verifications[i], claim, q);
      assert (verifications + [v])[i] == verifications[i];
    }
  }

  lemma ReassessedAppend(rows: seq<Reassessment>, row: Reassessment, claim: Id)
    ensures Reassessed(rows + [row], claim) <==> Reassessed(rows, claim) || row.claim == claim
  {
    assert (rows + [row])[|rows|] == row;
    if Reassessed(rows, claim) {
      var i :| 0 <= i < |rows| && rows[i].claim == claim;
      assert (rows + [row])[i] == rows[i];
    }
  }

  /** The loop only adds its rows and marks their claims. */
  lemma {:induction false} ReassessAllWrites(t: ClaimTables, r: NoticeRequest, claims: seq<Id>)
    requires forall c :: c in claims ==> c in t.claims
    ensures var later := ReassessAll(t, r, claims);
      && later == t.(claims := later.claims, reassessments := t.reassessments + RowsFor(t, r, claims))
      && (forall c :: c in t.claims ==> later.claims[c] == if c in claims then t.claims[c].(support := NeedsReassessment) else t.claims[c])
  {
    if claims != [] {
      var init, last := claims[..|claims| - 1], claims[|claims| - 1];
      assert claims == init + [last];
      ReassessAllWrites(t, r, init);
      assert RowsFor(t, r, claims) == RowsFor(t, r, init) + [ReassessmentOf(t, last, r)];
    }
  }

  /** The recomputation looks at which rows there are, not at their order. */
  lemma OrderDoesNotMatter(t: ClaimTables, u: ClaimTables, claim: Id)
    requires multiset(t.links) == multiset(u.links) && multiset(t.verifications) == multiset(u.verifications)
    requires multiset(t.reassessments) == multiset(u.reassessments)
    ensures Recomputed(t, claim) == Recomputed(u, claim)
  {
    forall q ensures AnyLink(t.links, claim, q) == AnyLink(u.links, claim, q) {
      SameLinks(t.links, u.links, claim, q);
      SameLinks(u.links, t.links, claim, q);
    }
    forall q ensures AnyVerification(t.verifications, claim, q) == AnyVerification(u.verifications, claim, q) {
      SameVerifications(t.verifications, u.verifications, claim, q);
      SameVerifications(u.verifications, t.verifications, claim, q);
    }
    SameReassessments(t.reassessments, u.reassessments, claim);
    SameReassessments(u.reassessments, t.reassessments, claim);
  }

  lemma SameLinks(s: seq<Link>, u: seq<Link>, claim: Id, q: LinkQuery)
    requires multiset(s) == multiset(u)
    ensures AnyLink(s, claim, q) ==> AnyLink(u, claim, q)
  {
    if AnyLink(s, claim, q) {
      var i :| 0 <= i < |s| && LinkMatches(s[i], claim, q);
      assert s[i] in multiset(u);
      var j :| 0 <= j < |u| && u[j] == s[i];
    }
  }

  lemma SameVerifications(s: seq<Verification>, u: seq<Verification>, claim: Id, q: VerificationQuery)
    requires multiset(s) == multiset(u)
    ensures AnyVerification(s, claim, q) ==> AnyVerification(u, claim, q)
  {
    if AnyVerification(s, claim, q) {
      var i :| 0 <= i < |s| && VerificationMatches(s[i], claim, q);
      assert s[i] in multiset(u);
      var j :| 0 <= j < |u| && u[j] == s[i];
    }
  }

  lemma SameReassessments(s: seq<Reassessment>, u: seq<Reassessment>, claim: Id)
    requires multiset(s) == multiset(u)
    ensures Reassessed(s, claim) ==> Reassessed(u, claim)
  {
    if Reassessed(s, claim) {
      var i :| 0 <= i < |s| && s[i].claim == claim;
      assert s[i] in multiset(u);
      var j :| 0 <= j < |u| && u[j] == s[i];
    }
  }
}
