/** What the support of a claim means in terms of its rows, and when rows are inserted. */
module ClaimOutcomes {
  import opened Texts
  import opened Graph
  import opened Tables
  import opened Branches
  import opened Invariants
  import opened Claims
  import opened ClaimGuarantees
  import BranchOutcomes
  import Store

  // ------------------------------------------------------------------ support

  ghost predicate HasLink(t: ClaimTables, claim: Id, role: Role)
  {
    exists l :: l in t.links && l.claim == claim && l.role == role
  }

  ghost predicate HasVerification(t: ClaimTables, claim: Id)
  {
    exists v :: v in t.verifications && v.claim == claim
  }

  ghost predicate IsReassessed(t: ClaimTables, claim: Id)
  {
    exists r :: r in t.reassessments && r.claim == claim
  }

  /** Some supporting link or verification supports the claim in substance. */
  ghost predicate Substantiated(t: ClaimTables, claim: Id)
  {
    || (exists l :: l in t.links && l.claim == claim && l.role == Supporting && l.status == LinkSubstantive)
    || (exists v :: v in t.verifications && v.claim == claim && v.support == CitationSubstantive)
  }

  /** Some link or verification was found not to support it. */
  ghost predicate Unsupported(t: ClaimTables, claim: Id)
  {
    || (exists l :: l in t.links && l.claim == claim && l.status == LinkUnsupported)
    || (exists v :: v in t.verifications && v.claim == claim && v.support == CitationUnsupported)
  }

  /** Access to the full text was limited for some supporting link or some verification. */
  ghost predicate AccessWasLimited(t: ClaimTables, claim: Id)
  {
    || (exists l :: l in t.links && l.claim == claim && l.role == Supporting && l.status == LinkAccessLimited)
    || (exists v :: v in t.verifications && v.claim == claim && (v.access == LimitedAccess || v.access == UnavailableAccess))
  }

  ghost predicate Identified(t: ClaimTables, claim: Id, identity: Identity)
  {
    exists v :: v in t.verifications && v.claim == claim && v.identity == identity
  }

  /** Both kinds of link, and no reassessment. */
  ghost predicate IsContested(t: ClaimTables, claim: Id)
  {
    !IsReassessed(t, claim) && HasLink(t, claim, Supporting) && HasLink(t, claim, Challenging)
  }

  /** Nothing takes precedence over what links and verifications say in substance. */
  ghost predicate Undisputed(t: ClaimTables, claim: Id)
  {
    !IsReassessed(t, claim) && !IsContested(t, claim)
  }

  /** When a claim has each support, over its rows. */
  ghost predicate Supports(t: ClaimTables, claim: Id, support: Support)
  {
    match support
    case NeedsReassessment => IsReassessed(t, claim)
    case Contested => IsContested(t, claim)
    case SubstantivelySupported => Undisputed(t, claim) && Substantiated(t, claim)
    case NotSupported => Undisputed(t, claim) && !Substantiated(t, claim) && Unsupported(t, claim)
    case AccessLimited =>
      Undisputed(t, claim) && !Substantiated(t, claim) && !Unsupported(t, claim) && AccessWasLimited(t, claim)
    case FieldsMissing => OnlyVerified(t, claim) && Identified(t, claim, Missing)
    case IdentityResolved => OnlyVerified(t, claim) && !Identified(t, claim, Missing) && Identified(t, claim, Resolved)
    case Unverified => OnlyVerified(t, claim) && !Identified(t, claim, Missing) && !Identified(t, claim, Resolved)
  }

  /** Some row of the claim is there to be counted. */
  ghost predicate Counts(t: ClaimTables, claim: Id)
  {
    HasLink(t, claim, Supporting) || HasLink(t, claim, Challenging) || HasVerification(t, claim)
  }

  /** Neither substance, nor its lack, nor access says anything: only identity is left. */
  ghost predicate OnlyVerified(t: ClaimTables, claim: Id)
  {
    Undisputed(t, claim) && !Substantiated(t, claim) && !Unsupported(t, claim) && !AccessWasLimited(t, claim)
  }

  lemma LinkFound(t: ClaimTables, claim: Id, q: LinkQuery)
    ensures AnyLink(t.links, claim, q) <==> exists l :: l in t.links && LinkMatches(l, claim, q)
  {
    if AnyLink(t.links, claim, q) {
      var i :| 0 <= i < |t.links| && LinkMatches(t.links[i], claim, q);
      assert t.links[i] in t.links;
    }
  }

  lemma VerificationFound(t: ClaimTables, claim: Id, q: VerificationQuery)
    ensures AnyVerification(t.verifications, claim, q) <==> exists v :: v in t.verifications && VerificationMatches(v, claim, q)
  {
    if AnyVerification(t.verifications, claim, q) {
      var i :| 0 <= i < |t.verifications| && VerificationMatches(t.verifications[i], claim, q);
      assert t.verifications[i] in t.verifications;
    }
  }

  lemma ReassessmentFound(t: ClaimTables, claim: Id)
    ensures Reassessed(t.reassessments, claim) <==> IsReassessed(t, claim)
  {
    if Reassessed(t.reassessments, claim) {
      var i :| 0 <= i < |t.reassessments| && t.reassessments[i].claim == claim;
      assert t.reassessments[i] in t.reassessments;
    }
  }

  lemma LinkFactsAre(t: ClaimTables, claim: Id)
    ensures var f := FactsOf(t.links, t.verifications, t.reassessments, claim);
      && f.supporting == HasLink(t, claim, Supporting) && f.challenging == HasLink(t, claim, Challenging) && f.verified == HasVerification(t, claim)
      && f.missing == Identified(t, claim, Missing) && f.resolved == Identified(t, claim, Resolved) && f.reassessed == IsReassessed(t, claim)
  {
    LinkFound(t, claim, OfRole(Supporting));
    LinkFound(t, claim, OfRole(Challenging));
    VerificationFound(t, claim, AnyAtAll);
    VerificationFound(t, claim, WithIdentity(Missing));
    VerificationFound(t, claim, WithIdentity(Resolved));
    ReassessmentFound(t, claim);
    hide AnyLink, AnyVerification, Reassessed;
  }

  lemma SubstanceFactsAre(t: ClaimTables, claim: Id)
    ensures var f := FactsOf(t.links, t.verifications, t.reassessments, claim);
      f.substantive == Substantiated(t, claim) && f.unsupported == Unsupported(t, claim) && f.limited == AccessWasLimited(t, claim)
  {
    LinkFound(t, claim, SupportingWith(LinkSubstantive));
    LinkFound(t, claim, WithStatus(LinkUnsupported));
    LinkFound(t, claim, SupportingWith(LinkAccessLimited));
    VerificationFound(t, claim, WithSupport(CitationSubstantive));
    VerificationFound(t, claim, WithSupport(CitationUnsupported));
    VerificationFound(t, claim, NotFullText);
    hide AnyLink, AnyVerification;
  }

  lemma NothingCounts(t: ClaimTables, claim: Id)
    requires !Counts(t, claim)
    ensures !Substantiated(t, claim) && !Unsupported(t, claim) && !AccessWasLimited(t, claim)
    ensures !Identified(t, claim, Missing) && !Identified(t, claim, Resolved)
  {
    forall l | l in t.links ensures l.claim != claim {
      assert l.role == Supporting || l.role == Challenging;
    }
  }

  /** The recomputed support, one condition for each value, over the rows themselves. */
  lemma SupportMeans(t: ClaimTables, claim: Id, support: Support)
    ensures Recomputed(t, claim) == support <==> Supports(t, claim, support)
  {
    LinkFactsAre(t, claim);
    SubstanceFactsAre(t, claim);
    if !Counts(t, claim) {
      NothingCounts(t, claim);
    }
    hide FactsOf, HasLink, HasVerification, IsReassessed, Substantiated, Unsupported, AccessWasLimited, Identified;
  }

  /** In every state of a run without cuts the stored support is the one the rows call for. */
  lemma StoredSupportMeans(h: Hash, digest: Digest, first: Id, cs: seq<ClaimCommand>, claim: Id, support: Support)
    requires forall i :: 0 <= i < |cs| ==> (cs[i].LinkItem? || cs[i].Verify? ==> !cs[i].cut)
    requires claim in ClaimRun(h, digest, FirstWorld(first), cs).tables.claims
    ensures var t := ClaimRun(h, digest, FirstWorld(first), cs).tables;
      t.claims[claim].support == support <==> Supports(t, claim, support)
  {
    hide ClaimRun, Supports;
    UncutIsCurrent(h, digest, first, cs);
    var t := ClaimRun(h, digest, FirstWorld(first), cs).tables;
    assert Current(t, claim);
    SupportMeans(t, claim, support);
  }

  // ------------------------------------------------------------------ claims, links and verifications

  /** A claim is recorded anew if and only if the store is ready, it states something under a command
      that is unused, and its id is free; it starts unverified. */
  lemma RecordedExactly(t: ClaimTables, ready: bool, digest: Digest, r: RecordRequest, newId: Id)
    requires RowsOwned(t)
    ensures var (later, reply) := RecordClaim(t, ready, digest, r, newId);
      var id := if r.id.Some? then r.id.value else newId;
      && (later != t <==> ready && !IsBlank(r.fields.statement) && r.command != [] && r.command !in t.claimCommands && id !in t.claims)
      && (later != t ==> reply == ClaimRecorded(id) && later.claims == t.claims[id := Claim(r.fields, r.command, Unverified)] && later.claimCommands == t.claimCommands[r.command := id])
      && later == t.(claims := later.claims, claimCommands := later.claimCommands)
  {
    hide IsBlank;
    var id := if r.id.Some? then r.id.value else newId;
    assert id !in t.claims ==> t.claims[id := Claim(r.fields, r.command, Unverified)] != t.claims by {
      assert id in t.claims[id := Claim(r.fields, r.command, Unverified)];
    }
  }

  /** What the source of an item lets its link claim. */
  ghost predicate LinkFits(link: Link, e: Evidence, r: LinkRequest)
    requires r.item in e.items && e.items[r.item].source in e.sources
  {
    var source := e.sources[e.items[r.item].source];
    && link.claim == r.claim && link.item == r.item && r.role == Some(link.role) && link.qualification == r.qualification && link.command == r.command
    && (link.status == LinkAccessLimited <==> !(source.fullText && source.complete))
    && (link.status == LinkSubstantive <==> source.fullText && source.complete && e.items[r.item].hasExcerpt)
    && link.status != LinkUnsupported
  }

  /** A link is inserted if and only if the store is ready, role, claim, item and source are known,
      the command is unused, and the claim has no link to the item in that role. */
  lemma LinkedExactly(t: ClaimTables, ready: bool, digest: Digest, e: Evidence, r: LinkRequest, cut: bool)
    ensures var later := LinkEvidence(t, ready, digest, e, r, cut).0;
      && (later != t <==>
            && ready && r.role.Some? && r.claim in t.claims && r.item in e.items && e.items[r.item].source in e.sources
            && (forall l :: l in t.links ==> l.command != r.command)
            && (forall l :: l in t.links ==> !(l.claim == r.claim && l.item == r.item && Some(l.role) == r.role)))
      && (later != t ==> |later.links| == |t.links| + 1 && later.links[..|t.links|] == t.links && LinkFits(later.links[|t.links|], e, r))
      && (later != t && cut ==> later.claims == t.claims)
      && later == t.(claims := later.claims, links := later.links)
  {
    hide Recomputed;
    LinkCommandFree(t.links, r.command);
    if LinkEvidence(t, ready, digest, e, r, cut).0 != t {
      assert LinkEvidence(t, ready, digest, e, r, cut).0.links[..|t.links|] == t.links;
    }
  }

  lemma LinkCommandFree(links: seq<Link>, command: Id)
    ensures LinkBy(links, command).None? <==> forall l :: l in links ==> l.command != command
  {
    if LinkBy(links, command).None? {
      forall l | l in links ensures l.command != command {
        var i :| 0 <= i < |links| && links[i] == l;
      }
    }
  }

  lemma VerificationCommandFree(verifications: seq<Verification>, command: Id)
    ensures VerificationBy(verifications, command).None? <==> forall v :: v in verifications ==> v.command != command
  {
    if VerificationBy(verifications, command).None? {
      forall v | v in verifications ensures v.command != command {
        var i :| 0 <= i < |verifications| && verifications[i] == v;
      }
    }
  }

  /** A verification is inserted if and only if the store is ready, claim and source are known and
      the command is unused. */
  lemma VerifiedExactly(t: ClaimTables, ready: bool, digest: Digest, e: Evidence, r: CitationRequest, cut: bool)
    ensures var later := VerifyCitation(t, ready, digest, e, r, cut).0;
      && (later != t <==> ready && r.claim in t.claims && r.source in e.sources && forall v :: v in t.verifications ==> v.command != r.command)
      && (later != t ==> later.verifications == t.verifications + [CitationOf(t, e, r)])
      && (later != t && cut ==> later.claims == t.claims)
      && later == t.(claims := later.claims, verifications := later.verifications)
  {
    hide Recomputed, CitationOf;
    VerificationCommandFree(t.verifications, r.command);
    if VerifyCitation(t, ready, digest, e, r, cut).0 != t {
      assert |VerifyCitation(t, ready, digest, e, r, cut).0.verifications| == |t.verifications| + 1;
    }
  }

  /** Some substantive supporting link of the claim is to an item of the source. */
  ghost predicate LinkedInSubstance(t: ClaimTables, e: Evidence, claim: Id, source: Id)
  {
    exists l :: l in t.links && l.claim == claim && l.role == Supporting && l.status == LinkSubstantive && l.item in e.items && e.items[l.item].source == source
  }

  /** What a verification says: its identity and access are the source's; it is substantive only of
      an identified full text the claim is linked to in substance and whose abstract does not speak
      against it; and without the full text it is unsupported unless the abstract supports it. */
  lemma CitationMeans(t: ClaimTables, e: Evidence, r: CitationRequest)
    requires r.source in e.sources
    ensures var v, source := CitationOf(t, e, r), e.sources[r.source];
      var full := source.contentAvailable && source.fullText && source.complete;
      && v.claim == r.claim && v.source == r.source && v.command == r.command && v.bibliography == source.bibliography
      && (v.identity == Resolved <==> source.identified)
      && (v.access == UnavailableAccess <==> !source.contentAvailable) && (v.access == FullTextAccess <==> full)
      && (v.support == CitationSubstantive <==>
            full && source.identified && r.abstractSupported != Some(false) && LinkedInSubstance(t, e, r.claim, r.source))
      && (v.support == CitationUnsupported <==> r.abstractSupported == Some(false) || (!full && r.abstractSupported != Some(true)))
      && NoDuplicates(v.limitations)
      && (forall x :: x in v.limitations <==>
            x in r.limitations || (!full && x == T("full-text-unavailable")) || (!source.identified && x == T("bibliographic-fields-missing")))
  {
    hide T;
    var source := e.sources[r.source];
    var full := source.contentAvailable && source.fullText && source.complete;
    DistinctKeepsElements(r.limitations + (if full then [] else [T("full-text-unavailable")])
      + (if source.identified then [] else [T("bibliographic-fields-missing")]));
    SupportedFromMeans(t, e, r.claim, r.source);
    hide SupportedFrom, LinkedInSubstance, Distinct;
  }

  lemma SupportedFromMeans(t: ClaimTables, e: Evidence, claim: Id, source: Id)
    ensures SupportedFrom(t.links, e.items, claim, source) <==> LinkedInSubstance(t, e, claim, source)
  {
    if SupportedFrom(t.links, e.items, claim, source) {
      var i :| 0 <= i < |t.links| && SupportsFrom(t.links[i], e.items, claim, source);
      assert t.links[i] in t.links;
    }
    if LinkedInSubstance(t, e, claim, source) {
      var l :| l in t.links && l.claim == claim && l.role == Supporting && l.status == LinkSubstantive && l.item in e.items && e.items[l.item].source == source;
      var i :| 0 <= i < |t.links| && t.links[i] == l;
      assert SupportsFrom(t.links[i], e.items, claim, source);
    }
  }

  /** A used command answers with the row recorded under it if the two payloads have one hash, and
      with a conflict if not; it writes nothing either way. */
  lemma ReplayedExactly(t: ClaimTables, digest: Digest, e: Evidence, record: RecordRequest, newId: Id, link: LinkRequest, citation: CitationRequest, cut: bool)
    ensures record.command != [] && !IsBlank(record.fields.statement) && record.command in t.claimCommands && t.claimCommands[record.command] in t.claims ==>
      var id := t.claimCommands[record.command];
      var same := digest(RecordPayload(if record.id.Some? then record.id.value else id, record.fields)) == digest(RecordPayload(id, t.claims[id].fields));
      RecordClaim(t, true, digest, record, newId) == (t, if same then ClaimRecorded(id) else ClaimThrown(ClaimConflict))
    ensures link.role.Some? && link.claim in t.claims && link.item in e.items && LinkBy(t.links, link.command).Some? ==>
      var l := LinkBy(t.links, link.command).value;
      var same := digest(LinkPayload(link.claim, link.item, link.role.value, link.qualification)) == digest(LinkPayload(l.claim, l.item, l.role, l.qualification));
      LinkEvidence(t, true, digest, e, link, cut) == (t, if same then LinkRecorded(l) else ClaimThrown(LinkConflict))
    ensures citation.claim in t.claims && citation.source in e.sources && VerificationBy(t.verifications, citation.command).Some? ==>
      var v := VerificationBy(t.verifications, citation.command).value;
      var same := digest(CitationPayload(CitationOf(t, e, citation))) == digest(CitationPayload(v));
      VerifyCitation(t, true, digest, e, citation, cut) == (t, if same then VerificationRecorded(v) else ClaimThrown(CitationConflict))
  {
    hide Recomputed, CitationOf, IsBlank;
  }

  /** A notice is applied if and only if the store is ready, it says something, its source is known
      and registered, its command is in no history entry, and it is not cut. */
  lemma NoticeAppliedExactly(h: Hash, w: World, e: Evidence, r: NoticeRequest, cut: bool)
    requires Store.Sound(w.project) && ReassessmentsLogged(w.project.db.history, w.tables)
    ensures ApplyNotice(h, w, e, r, cut).1.NoticeApplied? <==>
      && w.project.db.ready && !IsBlank(r.notice) && r.source in e.sources && r.source in w.project.db.versions
      && BranchOutcomes.Unused(w.project.db.history, r.command) && !cut
    ensures ApplyNotice(h, w, e, r, cut).1.NoticeApplied? ==>
      var notice := (if r.kind.Some? then r.kind.value else T("correction")) + T(": ") + r.notice;
      ApplyNotice(h, w, e, r, cut).0.project == Store.After(h, w.project, Store.Correct(CorrectionRequest(r.source, notice, r.command)))
  {
    hide Store.Sound, Store.After, CorrectionImpacts, ReassessAll, LinkedTo, Grows;
    BranchOutcomes.UnusedIsNone(w.project.db.history, r.command);
    if !IsBlank(r.notice) {
      PrefixedNotBlank(r);
    }
  }

  lemma PrefixedNotBlank(r: NoticeRequest)
    requires !IsBlank(r.notice)
    ensures !IsBlank(CorrectionFor(r).notice)
  {
    var i :| 0 <= i < |r.notice| && !IsSpace(r.notice[i]);
    var whole := CorrectionFor(r).notice;
    assert whole[|whole| - |r.notice| + i] == r.notice[i];
  }
}
