/** The claim operations as they run: rows inserted in place, the support of the claim written
    after each, and the reassessment loop. */
module ClaimStore {
  import opened Texts
  import opened Graph
  import opened Tables
  import opened Branches
  import opened Claims
  import BranchStore
  import Store

  class ClaimBook {
    var tables: ClaimTables
    const digest: Digest

    constructor (digest: Digest)
      ensures tables == ClaimTables(map[], map[], [], [], []) && this.digest == digest
    {
      this.tables := ClaimTables(map[], map[], [], [], []);
      this.digest := digest;
    }

    /** `links.some(...)` over the rows of one claim. */
    method SomeLink(claim: Id, q: LinkQuery) returns (found: bool)
      ensures found <==> AnyLink(tables.links, claim, q)
    {
      for i := 0 to |tables.links|
        invariant !AnyLink(tables.links[..i], claim, q)
      {
        assert tables.links[..i + 1] == tables.links[..i] + [tables.links[i]];
        AnyLinkAppend(tables.links[..i], tables.links[i], claim, q);
        if LinkMatches(tables.links[i], claim, q) { return true; }
      }
      assert tables.links[..|tables.links|] == tables.links;
      found := false;
    }

    /** `verifications.some(...)` over the rows of one claim. */
    method SomeVerification(claim: Id, q: VerificationQuery) returns (found: bool)
      ensures found <==> AnyVerification(tables.verifications, claim, q)
    {
      for i := 0 to |tables.verifications|
        invariant !AnyVerification(tables.verifications[..i], claim, q)
      {
        assert tables.verifications[..i + 1] == tables.verifications[..i] + [tables.verifications[i]];
        AnyVerificationAppend(tables.verifications[..i], tables.verifications[i], claim, q);
        if VerificationMatches(tables.verifications[i], claim, q) { return true; }
      }
      assert tables.verifications[..|tables.verifications|] == tables.verifications;
      found := false;
    }

    /** The assignments of `updateClaimSupport`, each overwriting the one before. */
    method ComputeSupport(claim: Id) returns (support: Support)
      ensures support == Recomputed(tables, claim)
    {
      hide AnyLink, AnyVerification, Reassessed, LinkMatches, VerificationMatches;
      var hasSupport := SomeLink(claim, OfRole(Supporting));
      var hasChallenge := SomeLink(claim, OfRole(Challenging));
      var substantive := SomeLink(claim, SupportingWith(LinkSubstantive));
      var cited := SomeVerification(claim, WithSupport(CitationSubstantive));
      var limited := SomeLink(claim, SupportingWith(LinkAccessLimited));
      var notFullText := SomeVerification(claim, NotFullText);
      var unsupported := SomeVerification(claim, WithSupport(CitationUnsupported));
      var unsupportedLink := SomeLink(claim, WithStatus(LinkUnsupported));
      var missing := SomeVerification(claim, WithIdentity(Missing));
      var resolved := SomeVerification(claim, WithIdentity(Resolved));
      var verified := SomeVerification(claim, AnyAtAll);
      support := Unverified;
      if substantive || cited { support := SubstantivelySupported; }
      else if unsupported || unsupportedLink { support := NotSupported; }
      else if limited || notFullText { support := AccessLimited; }
      else if missing { support := FieldsMissing; }
      else if resolved { support := IdentityResolved; }
      if hasSupport && hasChallenge { support := Contested; }
      if !hasSupport && !hasChallenge && !verified { support := Unverified; }
      if Reassessed(tables.reassessments, claim) { support := NeedsReassessment; }
    }

    /** `updateClaimSupport` */
    method UpdateClaimSupport(claim: Id)
      requires claim in tables.claims
      modifies this
      ensures tables == Refreshed(old(tables), claim)
    {
      var support := ComputeSupport(claim);
      tables := tables.(claims := tables.claims[claim := tables.claims[claim].(support := support)]);
    }

    /** `recordClaim` */
    method RecordClaim(ready: bool, r: RecordRequest, newId: Id) returns (reply: ClaimReply)
      modifies this
      ensures (tables, reply) == Claims.RecordClaim(old(tables), ready, digest, r, newId)
    {
      if !ready { return ClaimThrown(ClaimsReadOnly); }
      if IsBlank(r.fields.statement) { return ClaimThrown(InvalidClaim); }
      if r.command == [] { return ClaimThrown(InvalidCommand); }
      if r.command in tables.claimCommands && tables.claimCommands[r.command] in tables.claims {
        var recorded := tables.claimCommands[r.command];
        var requested := digest(RecordPayload(OrNew(r.id, recorded), r.fields));
        if requested != digest(RecordPayload(recorded, tables.claims[recorded].fields)) { return ClaimThrown(ClaimConflict); }
        return ClaimRecorded(recorded);
      }
      var id := OrNew(r.id, newId);
      if id in tables.claims { return ClaimThrown(ClaimExists); }
      tables := tables.(claims := tables.claims[id := Claim(r.fields, r.command, Unverified)],
                        claimCommands := tables.claimCommands[r.command := id]);
      reply := ClaimRecorded(id);
    }

    /** `linkClaimEvidence`, cut between its two statements or not */
    method LinkClaimEvidence(ready: bool, e: Evidence, r: LinkRequest, cut: bool) returns (reply: ClaimReply)
      modifies this
      ensures (tables, reply) == LinkEvidence(old(tables), ready, digest, e, r, cut)
    {
      if !ready { return ClaimThrown(ClaimsReadOnly); }
      if r.role.None? { return ClaimThrown(InvalidRole); }
      if r.claim !in tables.claims { return ClaimThrown(ClaimNotFound); }
      if r.item !in e.items { return ClaimThrown(EvidenceNotFound); }
      var existing := LinkBy(tables.links, r.command);
      if existing.Some? {
        var l := existing.value;
        var requested := digest(LinkPayload(r.claim, r.item, r.role.value, r.qualification));
        if requested != digest(LinkPayload(l.claim, l.item, l.role, l.qualification)) { return ClaimThrown(LinkConflict); }
        return LinkRecorded(l);
      }
      var item := e.items[r.item];
      if item.source !in e.sources { return ClaimThrown(SourceNotFound); }
      if LinkTaken(tables.links, r.claim, r.item, r.role.value) { return ClaimThrown(LinkExists); }
      var link := Link(r.claim, r.item, r.role.value, StatusOfLink(item, e.sources[item.source]), r.qualification, r.command);
      tables := tables.(links := tables.links + [link]);
      if cut { return Interrupted; }
      UpdateClaimSupport(r.claim);
      reply := LinkRecorded(link);
    }

    /** `verifyCitation`, cut between its two statements or not */
    method VerifyCitation(ready: bool, e: Evidence, r: CitationRequest, cut: bool) returns (reply: ClaimReply)
      modifies this
      ensures (tables, reply) == Claims.VerifyCitation(old(tables), ready, digest, e, r, cut)
    {
      hide CitationOf;
      if !ready { return ClaimThrown(ClaimsReadOnly); }
      if r.claim !in tables.claims { return ClaimThrown(ClaimNotFound); }
      if r.source !in e.sources { return ClaimThrown(SourceNotFound); }
      var v := CitationOf(tables, e, r);
      CitationIsFor(tables, e, r);
      var existing := VerificationBy(tables.verifications, r.command);
      if existing.Some? {
        if digest(CitationPayload(v)) != digest(CitationPayload(existing.value)) { return ClaimThrown(CitationConflict); }
        return VerificationRecorded(existing.value);
      }
      tables := tables.(verifications := tables.verifications + [v]);
      if cut { return Interrupted; }
      UpdateClaimSupport(r.claim);
      reply := VerificationRecorded(v);
    }

    /** `insertReassessment`, with the claim row as it was selected. */
    method InsertReassessment(row: Reassessment)
      requires row.claim in tables.claims
      modifies this
      ensures tables == Reassess(old(tables), row)
    {
      tables := tables.(reassessments := tables.reassessments + [row]);
      tables := tables.(claims := tables.claims[row.claim := tables.claims[row.claim].(support := NeedsReassessment)]);
    }

    /** The transaction of `applySourceNotice`. */
    method ReassessClaims(r: NoticeRequest, claims: seq<Id>) returns (rows: seq<Reassessment>)
      requires forall c :: c in claims ==> c in tables.claims
      modifies this
      ensures tables == ReassessAll(old(tables), r, claims) && rows == RowsFor(old(tables), r, claims)
    {
      ghost var before := tables;
      var selected := tables.claims;
      rows := [];
      for i := 0 to |claims|
        invariant forall c :: c in claims[..i] ==> c in before.claims
        invariant tables == ReassessAll(before, r, claims[..i]) && rows == RowsFor(before, r, claims[..i])
      {
        assert claims[..i + 1][..i] == claims[..i] && claims[i] in claims;
        assert claims[..i + 1] == claims[..i] + [claims[i]];
        var row := Reassessment(claims[i], r.source, r.command, selected[claims[i]].support);
        InsertReassessment(row);
        rows := rows + [row];
        assert RowsFor(before, r, claims[..i + 1]) == RowsFor(before, r, claims[..i]) + [row];
      }
      assert claims[..|claims|] == claims;
    }

    /** `applySourceNotice`, cut between its two transactions or not */
    method ApplySourceNotice(handle: Handle, e: Evidence, r: NoticeRequest, cut: bool) returns (reply: ClaimReply)
      requires Store.Sound(Store.State(handle.db, handle.ledger))
      modifies this, handle`db
      ensures (World(Store.State(handle.db, handle.ledger), tables), reply)
        == ApplyNotice(handle.hash, old(World(Store.State(handle.db, handle.ledger), tables)), e, r, cut)
    {
      hide Store.Sound, RecordCorrection, ReassessAll, RowsFor;
      if !handle.db.ready { return ClaimThrown(ClaimsReadOnly); }
      if IsBlank(r.notice) { return ClaimThrown(InvalidSourceNotice); }
      if r.source !in e.sources { return ClaimThrown(SourceNotFound); }
      var existing := Tables.Command(handle.db.history, r.command);
      ThrownWritesNothing(handle.hash, handle.db, CorrectionFor(r));
      var corrected := BranchStore.RecordSharedSourceCorrection(handle, CorrectionFor(r));
      if corrected.Thrown? { return ClaimThrown(CorrectionFailed(corrected.error)); }
      if cut { return Interrupted; }
      var prior := RowsBy(tables.reassessments, r.command);
      if existing.Some? || prior != {} { return NoticeDuplicate(prior); }
      var linked := SortedKeys(set c | c in tables.claims && LinkedTo(tables.links, e.items, c, r.source));
      var rows := ReassessClaims(r, linked);
      reply := NoticeApplied(rows);
    }
  }

  lemma CitationIsFor(t: ClaimTables, e: Evidence, r: CitationRequest)
    requires r.source in e.sources
    ensures CitationOf(t, e, r).claim == r.claim
  {
  }

  lemma ThrownWritesNothing(h: Hash, db: Db, r: CorrectionRequest)
    ensures RecordCorrection(h, db, r).1.Thrown? ==> Apply(db, RecordCorrection(h, db, r).0) == db
  {
  }
}
