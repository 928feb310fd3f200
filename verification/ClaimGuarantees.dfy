/** What the stored support of a claim is worth in every reachable state, calls cut between their
    statements included, and what becomes of source notices. */
module ClaimGuarantees {
  import opened Texts
  import opened Graph
  import opened Tables
  import opened Branches
  import opened Invariants
  import opened Claims
  import Store
  import Guarantees

  /** How many link and verification rows there were when the support was last written. */
  datatype Seen = Seen(links: nat, verifications: nat)

  /** A run, with what each claim's support was last computed from, and the claims with an insert
      cut off from its update that no later write of the support made up for. */
  datatype Trace = Trace(world: World, seen: map<Id, Seen>, pending: set<Id>)

  /** The claims whose support a step writes. */
  ghost function Writes(h: Hash, digest: Digest, w: World, c: ClaimCommand): set<Id>
    requires Store.Sound(w.project)
  {
    var (later, reply) := ClaimStep(h, digest, w, c);
    match c
    case Record(_, _) => later.tables.claims.Keys - w.tables.claims.Keys
    case LinkItem(_, r, _) => if later.tables.links != w.tables.links && !reply.Interrupted? then {r.claim} else {}
    case Verify(_, r, _) => if later.tables.verifications != w.tables.verifications && !reply.Interrupted? then {r.claim} else {}
    case Notice(e, r, _) => if reply.NoticeApplied? then LinkedClaims(w.tables, e.items, r.source) else {}
    case Project(_) => {}
  }

  /** The claims whose insert a step leaves without its update. */
  ghost function Cuts(h: Hash, digest: Digest, w: World, c: ClaimCommand): set<Id>
    requires Store.Sound(w.project)
  {
    var reply := ClaimStep(h, digest, w, c).1;
    match c
    case LinkItem(_, r, _) => if reply.Interrupted? then {r.claim} else {}
    case Verify(_, r, _) => if reply.Interrupted? then {r.claim} else {}
    case _ => {}
  }

  ghost function SeenNow(t: ClaimTables, claims: set<Id>): map<Id, Seen>
  {
    map c | c in claims :: Seen(|t.links|, |t.verifications|)
  }

  ghost function TraceStep(h: Hash, digest: Digest, trace: Trace, c: ClaimCommand): Trace
    requires Store.Sound(trace.world.project)
  {
    var later := ClaimStep(h, digest, trace.world, c).0;
    var written := Writes(h, digest, trace.world, c);
    Trace(later, trace.seen + SeenNow(later.tables, written), trace.pending - written + Cuts(h, digest, trace.world, c))
  }

  ghost function TraceOf(h: Hash, digest: Digest, first: Id, cs: seq<ClaimCommand>): (trace: Trace)
    ensures trace.world == ClaimRun(h, digest, FirstWorld(first), cs)
    ensures Store.Sound(trace.world.project)
  {
    if cs == [] then Trace(FirstWorld(first), map[], {})
    else TraceStep(h, digest, TraceOf(h, digest, first, cs[..|cs| - 1]), cs[|cs| - 1])
  }

  // ------------------------------------------------------------------ the invariant

  /** Every row belongs to a claim. */
  ghost predicate RowsOwned(t: ClaimTables)
  {
    && (forall l :: l in t.links ==> l.claim in t.claims)
    && (forall v :: v in t.verifications ==> v.claim in t.claims)
    && (forall r :: r in t.reassessments ==> r.claim in t.claims)
    && (forall k :: k in t.claimCommands ==> t.claimCommands[k] in t.claims)
  }

  /** Reassessments are only ever written under a command the history knows. */
  ghost predicate ReassessmentsLogged(history: seq<HistoryRow>, t: ClaimTables)
  {
    forall r :: r in t.reassessments ==> Tables.Command(history, r.command).Some?
  }

  /** The rows of a claim up to those last seen. */
  ghost function SeenPart(t: ClaimTables, seen: Seen): ClaimTables
    requires seen.links <= |t.links| && seen.verifications <= |t.verifications|
  {
    t.(links := t.links[..seen.links], verifications := t.verifications[..seen.verifications])
  }

  ghost predicate HasUnseen(t: ClaimTables, seen: Seen, claim: Id)
  {
    || (exists i :: seen.links <= i < |t.links| && t.links[i].claim == claim)
    || (exists i :: seen.verifications <= i < |t.verifications| && t.verifications[i].claim == claim)
  }

  /** The stored support is what the rows seen call for, and rows not seen are pending ones. */
  ghost predicate Tracked(t: ClaimTables, seen: map<Id, Seen>, pending: set<Id>, claim: Id)
  {
    && claim in t.claims && claim in seen
    && seen[claim].links <= |t.links| && seen[claim].verifications <= |t.verifications|
    && t.claims[claim].support == Recomputed(SeenPart(t, seen[claim]), claim)
    && (claim in pending <==> HasUnseen(t, seen[claim], claim))
  }

  ghost predicate AllTracked(t: ClaimTables, seen: map<Id, Seen>, pending: set<Id>)
  {
    forall c {:trigger Tracked(t, seen, pending, c)} :: c in t.claims ==> Tracked(t, seen, pending, c)
  }

  ghost predicate TraceKept(trace: Trace)
  {
    && AllTracked(trace.world.tables, trace.seen, trace.pending) && trace.pending <= trace.world.tables.claims.Keys
    && RowsOwned(trace.world.tables)
    && ReassessmentsLogged(trace.world.project.db.history, trace.world.tables)
  }

  // ------------------------------------------------------------------ each write keeps it

  /** A new row of one claim changes nothing for another. */
  lemma OthersTracked(t: ClaimTables, later: ClaimTables, seen: map<Id, Seen>, laterSeen: map<Id, Seen>, pending: set<Id>, laterPending: set<Id>, claim: Id, c: Id)
    requires Tracked(t, seen, pending, c) && c != claim && c in laterSeen && laterSeen[c] == seen[c]
    requires c in laterPending <==> c in pending
    requires c in later.claims && later.claims[c] == t.claims[c] && later.reassessments == t.reassessments
    requires t.links <= later.links && t.verifications <= later.verifications
    requires forall i :: |t.links| <= i < |later.links| ==> later.links[i].claim == claim
    requires forall i :: |t.verifications| <= i < |later.verifications| ==> later.verifications[i].claim == claim
    ensures Tracked(later, laterSeen, laterPending, c)
  {
    hide Recomputed;
    var s := seen[c];
    assert later.links[..s.links] == t.links[..s.links] && later.verifications[..s.verifications] == t.verifications[..s.verifications];
    SameFacts(SeenPart(t, s), SeenPart(later, s), c);
  }

  lemma SameFacts(t: ClaimTables, u: ClaimTables, claim: Id)
    requires t.links == u.links && t.verifications == u.verifications && t.reassessments == u.reassessments
    ensures Recomputed(t, claim) == Recomputed(u, claim)
  {
  }

  /** A claim whose support was written from all rows has nothing unseen. */
  lemma WrittenTracked(t: ClaimTables, seen: map<Id, Seen>, pending: set<Id>, claim: Id)
    requires claim in t.claims && claim in seen && seen[claim] == Seen(|t.links|, |t.verifications|) && claim !in pending
    requires t.claims[claim].support == Recomputed(t, claim)
    ensures Tracked(t, seen, pending, claim)
  {
    hide Recomputed;
    assert t.links[..|t.links|] == t.links && t.verifications[..|t.verifications|] == t.verifications;
    SameFacts(t, SeenPart(t, seen[claim]), claim);
  }

  lemma InsertedLinkTracked(t: ClaimTables, seen: map<Id, Seen>, pending: set<Id>, l: Link)
    requires AllTracked(t, seen, pending) && l.claim in t.claims
    ensures AllTracked(InsertLink(t, l), seen, pending + {l.claim})
  {
    hide Recomputed;
    var later := InsertLink(t, l);
    forall c | c in later.claims ensures Tracked(later, seen, pending + {l.claim}, c) {
      assert Tracked(t, seen, pending, c);
      if c != l.claim {
        OthersTracked(t, later, seen, seen, pending, pending + {l.claim}, l.claim, c);
      } else {
        assert later.links[..seen[c].links] == t.links[..seen[c].links];
        SameFacts(SeenPart(t, seen[c]), SeenPart(later, seen[c]), c);
        assert later.links[|t.links|] == l;
      }
    }
  }

  lemma InsertedVerificationTracked(t: ClaimTables, seen: map<Id, Seen>, pending: set<Id>, v: Verification)
    requires AllTracked(t, seen, pending) && v.claim in t.claims
    ensures AllTracked(InsertVerification(t, v), seen, pending + {v.claim})
  {
    hide Recomputed;
    var later := InsertVerification(t, v);
    forall c | c in later.claims ensures Tracked(later, seen, pending + {v.claim}, c) {
      assert Tracked(t, seen, pending, c);
      if c != v.claim {
        OthersTracked(t, later, seen, seen, pending, pending + {v.claim}, v.claim, c);
      } else {
        assert later.verifications[..seen[c].verifications] == t.verifications[..seen[c].verifications];
        SameFacts(SeenPart(t, seen[c]), SeenPart(later, seen[c]), c);
        assert later.verifications[|t.verifications|] == v;
      }
    }
  }

  lemma RefreshedTracked(t: ClaimTables, seen: map<Id, Seen>, pending: set<Id>, claim: Id)
    requires claim in t.claims && AllTracked(t, seen, pending)
    ensures AllTracked(Refreshed(t, claim), seen + SeenNow(t, {claim}), pending - {claim})
  {
    hide Recomputed;
    var later, laterSeen := Refreshed(t, claim), seen + SeenNow(t, {claim});
    forall c | c in later.claims ensures Tracked(later, laterSeen, pending - {claim}, c) {
      assert Tracked(t, seen, pending, c);
      if c == claim {
        SameFacts(t, later, c);
        WrittenTracked(later, laterSeen, pending - {claim}, c);
      } else {
        OthersTracked(t, later, seen, laterSeen, pending, pending - {claim}, claim, c);
      }
    }
  }

  lemma {:induction false} OtherReassessments(rows: seq<Reassessment>, more: seq<Reassessment>, claim: Id)
    requires forall row :: row in more ==> row.claim != claim
    ensures Reassessed(rows + more, claim) <==> Reassessed(rows, claim)
  {
    if more == [] {
      assert rows + more == rows;
    } else {
      var init, last := more[..|more| - 1], more[|more| - 1];
      assert more == init + [last];
      OtherReassessments(rows, init, claim);
      ReassessedAppend(rows + init, last, claim);
      assert rows + more == (rows + init) + [last];
    }
  }

  lemma SomeReassessment(rows: seq<Reassessment>, row: Reassessment)
    requires row in rows
    ensures Reassessed(rows, row.claim)
  {
    var i :| 0 <= i < |rows| && rows[i] == row;
  }

  lemma ReassessedClaimTracked(t: ClaimTables, later: ClaimTables, seen: map<Id, Seen>, pending: set<Id>, claim: Id)
    requires claim in later.claims && later.claims[claim].support == NeedsReassessment && Reassessed(later.reassessments, claim)
    requires claim in seen && seen[claim] == Seen(|later.links|, |later.verifications|) && claim !in pending
    ensures Tracked(later, seen, pending, claim)
  {
    WrittenTracked(later, seen, pending, claim);
  }

  lemma UnreassessedTracked(t: ClaimTables, later: ClaimTables, seen: map<Id, Seen>, laterSeen: map<Id, Seen>, pending: set<Id>, laterPending: set<Id>, c: Id)
    requires Tracked(t, seen, pending, c) && c in laterSeen && laterSeen[c] == seen[c] && (c in laterPending <==> c in pending)
    requires c in later.claims && later.claims[c] == t.claims[c] && later.links == t.links && later.verifications == t.verifications
    requires Reassessed(later.reassessments, c) <==> Reassessed(t.reassessments, c)
    ensures Tracked(later, laterSeen, laterPending, c)
  {
  }

  lemma NoticeTracked(t: ClaimTables, seen: map<Id, Seen>, pending: set<Id>, r: NoticeRequest, claims: seq<Id>)
    requires AllTracked(t, seen, pending) && forall c :: c in claims ==> c in t.claims
    ensures AllTracked(ReassessAll(t, r, claims), seen + SeenNow(t, Elements(claims)), pending - Elements(claims))
  {
    hide Recomputed, ReassessAll;
    ReassessAllWrites(t, r, claims);
    var later, laterSeen := ReassessAll(t, r, claims), seen + SeenNow(t, Elements(claims));
    forall c | c in later.claims ensures Tracked(later, laterSeen, pending - Elements(claims), c) {
      assert Tracked(t, seen, pending, c);
      if c in claims {
        var i :| 0 <= i < |claims| && claims[i] == c;
        assert RowsFor(t, r, claims)[i] in later.reassessments;
        SomeReassessment(later.reassessments, RowsFor(t, r, claims)[i]);
        ReassessedClaimTracked(t, later, laterSeen, pending - Elements(claims), c);
      } else {
        OtherReassessments(t.reassessments, RowsFor(t, r, claims), c);
        UnreassessedTracked(t, later, seen, laterSeen, pending, pending - Elements(claims), c);
      }
    }
  }

  lemma NoRowsUnverified(t: ClaimTables, claim: Id)
    requires RowsOwned(t) && claim !in t.claims
    ensures Recomputed(t, claim) == Unverified
  {
  }

  /** A claim without rows has the support it is recorded with. */
  lemma RecordTracked(t: ClaimTables, seen: map<Id, Seen>, pending: set<Id>, ready: bool, digest: Digest, r: RecordRequest, newId: Id)
    requires AllTracked(t, seen, pending) && RowsOwned(t) && pending <= t.claims.Keys
    ensures var later := RecordClaim(t, ready, digest, r, newId).0;
      AllTracked(later, seen + SeenNow(later, later.claims.Keys - t.claims.Keys), pending - (later.claims.Keys - t.claims.Keys))
  {
    hide Recomputed;
    var later := RecordClaim(t, ready, digest, r, newId).0;
    var added := later.claims.Keys - t.claims.Keys;
    var laterSeen := seen + SeenNow(later, added);
    forall c | c in later.claims ensures Tracked(later, laterSeen, pending - added, c) {
      if c in t.claims {
        assert Tracked(t, seen, pending, c);
        UnreassessedTracked(t, later, seen, laterSeen, pending, pending - added, c);
      } else {
        NoRowsUnverified(t, c);
        SameFacts(t, later, c);
        WrittenTracked(later, laterSeen, pending - added, c);
      }
    }
  }

  lemma LogGrows(history: seq<HistoryRow>, later: seq<HistoryRow>, t: ClaimTables)
    requires ReassessmentsLogged(history, t) && history <= later
    ensures ReassessmentsLogged(later, t)
  {
    forall r | r in t.reassessments ensures Tables.Command(later, r.command).Some? {
      LoggedLater(history, later, r.command);
    }
  }

  /** A correction that does not throw leaves its command in the history. */
  lemma CorrectionLogged(h: Hash, s: Store.State, r: CorrectionRequest)
    requires Store.Sound(s) && !RecordCorrection(h, s.db, r).1.Thrown?
    ensures Tables.Command(Store.After(h, s, Store.Correct(r)).db.history, r.command).Some?
  {
    hide Store.Sound, Grows, CorrectionImpacts;
    if Tables.Command(s.db.history, r.command).None? {
      var history := Apply(s.db, RecordCorrection(h, s.db, r).0).history;
      assert history[|s.db.history|].command == r.command;
    }
  }

  lemma LinkStepKeeps(h: Hash, digest: Digest, trace: Trace, c: ClaimCommand)
    requires Store.Sound(trace.world.project) && TraceKept(trace) && c.LinkItem?
    ensures TraceKept(TraceStep(h, digest, trace, c))
  {
    hide Store.Sound, Store.After, Store.Step, ApplyNotice, Grows, Recomputed, AllTracked, ReassessmentsLogged, LinkTaken, StatusOfLink, RowsOwned;
    var t := trace.world.tables;
    var (later, reply) := LinkEvidence(t, trace.world.project.db.ready, digest, c.evidence, c.link, c.cut);
    if later == t {
      QuietStepKeeps(h, digest, trace, c);
    } else {
      var l := later.links[|t.links|];
      var inserted := InsertLink(t, l);
      InsertedLinkTracked(t, trace.seen, trace.pending, l);
      RefreshedTracked(inserted, trace.seen, trace.pending + {l.claim}, l.claim);
      RowsStayOwned(t, inserted, later);
      SameReassessmentRows(trace.world.project.db.history, t, later);
      InsertStepKeeps(h, digest, trace, c, inserted, l.claim, c.cut);
    }
  }

  lemma RowsStayOwned(t: ClaimTables, inserted: ClaimTables, later: ClaimTables)
    requires RowsOwned(t) && inserted.claims == t.claims && inserted.claimCommands == t.claimCommands && inserted.reassessments == t.reassessments
    requires forall l :: l in inserted.links && l !in t.links ==> l.claim in t.claims
    requires forall v :: v in inserted.verifications && v !in t.verifications ==> v.claim in t.claims
    requires later.claims.Keys == t.claims.Keys && later == inserted.(claims := later.claims)
    ensures RowsOwned(later)
  {
  }

  /** A step that inserts a row of one claim, and writes its support unless it is cut. */
  lemma InsertStepKeeps(h: Hash, digest: Digest, trace: Trace, c: ClaimCommand, inserted: ClaimTables, claim: Id, cut: bool)
    requires Store.Sound(trace.world.project) && TraceKept(trace) && claim in inserted.claims
    requires AllTracked(inserted, trace.seen, trace.pending + {claim})
    requires AllTracked(Refreshed(inserted, claim), trace.seen + SeenNow(inserted, {claim}), trace.pending + {claim} - {claim})
    requires var later := ClaimStep(h, digest, trace.world, c).0;
      && later.project == trace.world.project && RowsOwned(later.tables) && trace.world.tables.claims.Keys == later.tables.claims.Keys
      && ReassessmentsLogged(later.project.db.history, later.tables)
      && later.tables == if cut then inserted else Refreshed(inserted, claim)
    requires Writes(h, digest, trace.world, c) == (if cut then {} else {claim}) && Cuts(h, digest, trace.world, c) == (if cut then {claim} else {})
    ensures TraceKept(TraceStep(h, digest, trace, c))
  {
    hide Store.Sound, Writes, Cuts, ClaimStep, AllTracked, ReassessmentsLogged, RowsOwned, Recomputed;
    var later := ClaimStep(h, digest, trace.world, c).0;
    if cut {
      NothingSeen(later.tables, trace.seen);
      assert trace.pending - {} + {claim} == trace.pending + {claim};
    } else {
      SeenSame(inserted, later.tables, {claim});
      assert trace.pending - {claim} + {} == trace.pending + {claim} - {claim};
    }
  }

  lemma CitationIsFor(t: ClaimTables, e: Evidence, r: CitationRequest)
    ensures r.source in e.sources ==> CitationOf(t, e, r).claim == r.claim
  {
  }

  lemma VerifyStepKeeps(h: Hash, digest: Digest, trace: Trace, c: ClaimCommand)
    requires Store.Sound(trace.world.project) && TraceKept(trace) && c.Verify?
    ensures TraceKept(TraceStep(h, digest, trace, c))
  {
    hide Store.Sound, Store.After, Store.Step, ApplyNotice, Grows, Recomputed, AllTracked, ReassessmentsLogged, CitationOf, RowsOwned;
    CitationIsFor(trace.world.tables, c.evidence, c.citation);
    var t := trace.world.tables;
    var (later, reply) := VerifyCitation(t, trace.world.project.db.ready, digest, c.evidence, c.citation, c.cut);
    if later == t {
      QuietStepKeeps(h, digest, trace, c);
    } else {
      var v := later.verifications[|t.verifications|];
      var inserted := InsertVerification(t, v);
      InsertedVerificationTracked(t, trace.seen, trace.pending, v);
      RefreshedTracked(inserted, trace.seen, trace.pending + {v.claim}, v.claim);
      RowsStayOwned(t, inserted, later);
      SameReassessmentRows(trace.world.project.db.history, t, later);
      InsertStepKeeps(h, digest, trace, c, inserted, v.claim, c.cut);
    }
  }

  /** A step that writes no support and leaves none to write. */
  lemma QuietStepKeeps(h: Hash, digest: Digest, trace: Trace, c: ClaimCommand)
    requires Store.Sound(trace.world.project) && TraceKept(trace)
    requires ClaimStep(h, digest, trace.world, c).0.tables == trace.world.tables
    requires Writes(h, digest, trace.world, c) == {} && Cuts(h, digest, trace.world, c) == {}
    ensures TraceKept(TraceStep(h, digest, trace, c))
  {
    hide Store.Sound, Writes, Cuts, ClaimStep, AllTracked, ReassessmentsLogged, RowsOwned;
    NothingSeen(trace.world.tables, trace.seen);
    assert trace.pending - {} + {} == trace.pending;
    LogGrows(trace.world.project.db.history, TraceStep(h, digest, trace, c).world.project.db.history, trace.world.tables);
  }

  lemma NothingSeen(t: ClaimTables, seen: map<Id, Seen>)
    ensures seen + SeenNow(t, {}) == seen
  {
  }

  lemma SeenSame(t: ClaimTables, u: ClaimTables, claims: set<Id>)
    requires |t.links| == |u.links| && |t.verifications| == |u.verifications|
    ensures SeenNow(t, claims) == SeenNow(u, claims)
  {
  }

  lemma SameReassessmentRows(history: seq<HistoryRow>, t: ClaimTables, later: ClaimTables)
    requires ReassessmentsLogged(history, t) && later.reassessments == t.reassessments
    ensures ReassessmentsLogged(history, later)
  {
  }

  lemma RecordStepKeeps(h: Hash, digest: Digest, trace: Trace, c: ClaimCommand)
    requires Store.Sound(trace.world.project) && TraceKept(trace) && c.Record?
    ensures TraceKept(TraceStep(h, digest, trace, c))
  {
    hide Store.Sound, Store.After, Recomputed, AllTracked, ReassessmentsLogged, ApplyNotice, Grows, LinkEvidence, VerifyCitation;
    var t, ready := trace.world.tables, trace.world.project.db.ready;
    RecordTracked(t, trace.seen, trace.pending, ready, digest, c.record, c.newId);
    var written := Writes(h, digest, trace.world, c);
    assert trace.pending - written + {} == trace.pending - written;
    SameReassessmentRows(trace.world.project.db.history, t, RecordClaim(t, ready, digest, c.record, c.newId).0);
  }

  /** The claim has a link to some item of the source. */
  ghost predicate CitesSource(t: ClaimTables, items: map<Id, EvidenceItem>, source: Id, claim: Id)
  {
    claim in t.claims && exists l :: l in t.links && l.claim == claim && l.item in items && items[l.item].source == source
  }

  /** The rows a notice writes, before it is sent through. */
  lemma LinkedRows(t: ClaimTables, items: map<Id, EvidenceItem>, r: NoticeRequest)
    ensures var rows := RowsFor(t, r, Listing(LinkedClaims(t, items, r.source)));
      && (forall c :: CitesSource(t, items, r.source, c) <==> exists row :: row in rows && row.claim == c)
      && (forall row :: row in rows ==> row.claim in t.claims && row.command == r.command && row.previous == t.claims[row.claim].support)
      && (forall i, j :: 0 <= i < j < |rows| ==> rows[i].claim != rows[j].claim)
  {
    hide Recomputed, LinkedTo;
    var linked := LinkedClaims(t, items, r.source);
    var claims := Listing(linked);
    var rows := RowsFor(t, r, claims);
    forall c ensures CitesSource(t, items, r.source, c) <==> exists row :: row in rows && row.claim == c {
      LinkedIsCiting(t, items, r.source, c);
      if c in linked {
        var i :| 0 <= i < |claims| && claims[i] == c;
        assert rows[i] in rows && rows[i].claim == c;
      }
    }
  }

  lemma LinkedIsCiting(t: ClaimTables, items: map<Id, EvidenceItem>, source: Id, claim: Id)
    ensures claim in LinkedClaims(t, items, source) <==> CitesSource(t, items, source, claim)
  {
  }

  /** A completed notice reassesses exactly the claims linked to its source, each once and with the
      support it had, and a command in the history already, or one cut short, reassesses nothing. */
  lemma NoticeExact(h: Hash, w: World, e: Evidence, r: NoticeRequest, cut: bool)
    requires Store.Sound(w.project)
    ensures var (later, reply) := ApplyNotice(h, w, e, r, cut);
      if reply.NoticeApplied? then
        && Tables.Command(w.project.db.history, r.command).None? && !cut
        && later.tables.reassessments == w.tables.reassessments + reply.rows
        && (forall c :: CitesSource(w.tables, e.items, r.source, c) <==> exists row :: row in reply.rows && row.claim == c)
        && (forall row :: row in reply.rows ==> row.claim in w.tables.claims && row.command == r.command && row.previous == w.tables.claims[row.claim].support)
        && (forall i, j :: 0 <= i < j < |reply.rows| ==> reply.rows[i].claim != reply.rows[j].claim)
      else later.tables == w.tables
  {
    hide Store.Sound, Store.After, RecordCorrection, Recomputed, LinkedTo, ReassessAll, CitesSource;
    if ApplyNotice(h, w, e, r, cut).1.NoticeApplied? {
      ReassessAllWrites(w.tables, r, Listing(LinkedClaims(w.tables, e.items, r.source)));
      LinkedRows(w.tables, e.items, r);
    }
  }

  lemma NoticeStepKeeps(h: Hash, digest: Digest, trace: Trace, c: ClaimCommand)
    requires Store.Sound(trace.world.project) && TraceKept(trace) && c.Notice?
    ensures TraceKept(TraceStep(h, digest, trace, c))
  {
    hide Store.Sound, AllTracked, ApplyNotice, LinkedTo;
    NoticeExact(h, trace.world, c.evidence, c.notice, c.cut);
    if ApplyNotice(h, trace.world, c.evidence, c.notice, c.cut).1.NoticeApplied? {
      AppliedStepKeeps(h, digest, trace, c);
    } else {
      QuietStepKeeps(h, digest, trace, c);
    }
  }

  lemma AppliedWrites(h: Hash, w: World, e: Evidence, r: NoticeRequest, cut: bool)
    requires Store.Sound(w.project) && ApplyNotice(h, w, e, r, cut).1.NoticeApplied?
    ensures ApplyNotice(h, w, e, r, cut).0.tables == ReassessAll(w.tables, r, Listing(LinkedClaims(w.tables, e.items, r.source)))
    ensures Tables.Command(ApplyNotice(h, w, e, r, cut).0.project.db.history, r.command).Some?
  {
    hide Store.Sound, Store.After, RecordCorrection, ReassessAll, LinkedTo, RowsBy;
    CorrectionLogged(h, w.project, CorrectionFor(r));
  }

  lemma AppliedStepIs(h: Hash, digest: Digest, w: World, c: ClaimCommand)
    requires Store.Sound(w.project) && c.Notice? && ApplyNotice(h, w, c.evidence, c.notice, c.cut).1.NoticeApplied?
    ensures ClaimStep(h, digest, w, c).0 == ApplyNotice(h, w, c.evidence, c.notice, c.cut).0
    ensures Writes(h, digest, w, c) == Elements(Listing(LinkedClaims(w.tables, c.evidence.items, c.notice.source)))
    ensures Cuts(h, digest, w, c) == {}
  {
    hide Store.Sound, Store.After, ApplyNotice, RecordClaim, LinkEvidence, VerifyCitation, LinkedTo, Grows;
  }

  lemma AppliedStepKeeps(h: Hash, digest: Digest, trace: Trace, c: ClaimCommand)
    requires Store.Sound(trace.world.project) && TraceKept(trace) && c.Notice?
    requires ApplyNotice(h, trace.world, c.evidence, c.notice, c.cut).1.NoticeApplied?
    ensures TraceKept(TraceStep(h, digest, trace, c))
  {
    hide Store.Sound, Grows, AllTracked, ApplyNotice, LinkedTo, ReassessAll, ReassessmentsLogged, RowsOwned, ClaimStep, Writes, Cuts;
    AppliedStepIs(h, digest, trace.world, c);
    var w, e, r := trace.world, c.evidence, c.notice;
    var claims := Listing(LinkedClaims(w.tables, e.items, r.source));
    AppliedWrites(h, w, e, r, c.cut);
    NoticeTracked(w.tables, trace.seen, trace.pending, r, claims);
    NoticeKeepsRows(w.tables, r, claims);
    LogGrows(w.project.db.history, ClaimStep(h, digest, w, c).0.project.db.history, w.tables);
    ReassessedLogged(ClaimStep(h, digest, w, c).0.project.db.history, w.tables, ReassessAll(w.tables, r, claims), RowsFor(w.tables, r, claims), r.command);
    WrittenStepKeeps(h, digest, trace, c, Elements(claims));
  }

  lemma NoticeKeepsRows(t: ClaimTables, r: NoticeRequest, claims: seq<Id>)
    requires RowsOwned(t) && forall c :: c in claims ==> c in t.claims
    ensures var later := ReassessAll(t, r, claims);
      && RowsOwned(later) && later.reassessments == t.reassessments + RowsFor(t, r, claims)
      && |later.links| == |t.links| && |later.verifications| == |t.verifications|
  {
    hide ReassessAll;
    ReassessAllWrites(t, r, claims);
  }

  /** A step that writes the support of some claims and inserts no link or verification. */
  lemma WrittenStepKeeps(h: Hash, digest: Digest, trace: Trace, c: ClaimCommand, written: set<Id>)
    requires Store.Sound(trace.world.project) && TraceKept(trace)
    requires Writes(h, digest, trace.world, c) == written && Cuts(h, digest, trace.world, c) == {}
    requires var t, later := trace.world.tables, ClaimStep(h, digest, trace.world, c).0;
      && AllTracked(later.tables, trace.seen + SeenNow(t, written), trace.pending - written)
      && |later.tables.links| == |t.links| && |later.tables.verifications| == |t.verifications|
      && later.tables.claims.Keys == t.claims.Keys && RowsOwned(later.tables)
      && ReassessmentsLogged(later.project.db.history, later.tables)
    ensures TraceKept(TraceStep(h, digest, trace, c))
  {
    hide Store.Sound, Writes, Cuts, ClaimStep, AllTracked, ReassessmentsLogged, RowsOwned;
    SeenSame(trace.world.tables, ClaimStep(h, digest, trace.world, c).0.tables, written);
    assert trace.pending - written + {} == trace.pending - written;
  }

  lemma ReassessedLogged(later: seq<HistoryRow>, t: ClaimTables, u: ClaimTables, rows: seq<Reassessment>, command: Id)
    requires ReassessmentsLogged(later, t) && Tables.Command(later, command).Some?
    requires u.reassessments == t.reassessments + rows && forall row :: row in rows ==> row.command == command
    ensures ReassessmentsLogged(later, u)
  {
  }

  lemma TraceStepKeeps(h: Hash, digest: Digest, trace: Trace, c: ClaimCommand)
    requires Store.Sound(trace.world.project) && TraceKept(trace)
    ensures TraceKept(TraceStep(h, digest, trace, c))
  {
    match c
    case Record(_, _) => RecordStepKeeps(h, digest, trace, c);
    case LinkItem(_, _, _) => LinkStepKeeps(h, digest, trace, c);
    case Verify(_, _, _) => VerifyStepKeeps(h, digest, trace, c);
    case Notice(_, _, _) => NoticeStepKeeps(h, digest, trace, c);
    case Project(_) => ProjectStepKeeps(h, digest, trace, c);
  }

  lemma ProjectStepKeeps(h: Hash, digest: Digest, trace: Trace, c: ClaimCommand)
    requires Store.Sound(trace.world.project) && TraceKept(trace) && c.Project?
    ensures TraceKept(TraceStep(h, digest, trace, c))
  {
    hide Store.Sound, Store.After, TraceKept, TraceStep;
    QuietStepKeeps(h, digest, trace, c);
  }

  lemma {:induction false} TraceIsKept(h: Hash, digest: Digest, first: Id, cs: seq<ClaimCommand>)
    ensures TraceKept(TraceOf(h, digest, first, cs))
  {
    hide Store.Sound, TraceStep, ClaimRun;
    if cs != [] {
      TraceIsKept(h, digest, first, cs[..|cs| - 1]);
      TraceStepKeeps(h, digest, TraceOf(h, digest, first, cs[..|cs| - 1]), cs[|cs| - 1]);
    }
  }

  // ------------------------------------------------------------------ the stored support

  ghost predicate Current(t: ClaimTables, claim: Id)
  {
    claim in t.claims && t.claims[claim].support == Recomputed(t, claim)
  }

  /** In every reachable state the stored support of a claim is the recomputation from the rows
      there were when it was last written. It is current unless some insert for the claim was cut
      off from its update and nothing wrote the support since; and then it is current exactly
      when the rows of those inserts make no difference. */
  lemma SupportExactly(h: Hash, digest: Digest, first: Id, cs: seq<ClaimCommand>, claim: Id)
    requires claim in ClaimRun(h, digest, FirstWorld(first), cs).tables.claims
    ensures var trace := TraceOf(h, digest, first, cs);
      var t := trace.world.tables;
      && Tracked(t, trace.seen, trace.pending, claim)
      && (claim !in trace.pending ==> Current(t, claim))
      && (Current(t, claim) <==> Recomputed(t, claim) == Recomputed(SeenPart(t, trace.seen[claim]), claim))
      && (claim in trace.pending <==> HasUnseen(t, trace.seen[claim], claim))
  {
    hide Recomputed, TraceOf, ClaimRun;
    TraceIsKept(h, digest, first, cs);
    var trace := TraceOf(h, digest, first, cs);
    assert Tracked(trace.world.tables, trace.seen, trace.pending, claim);
    if claim !in trace.pending {
      SeenIsAll(trace.world.tables, trace.seen[claim], claim);
    }
  }

  lemma {:induction false} SeenLinksSuffice(links: seq<Link>, n: nat, claim: Id, q: LinkQuery)
    requires n <= |links| && forall i :: n <= i < |links| ==> links[i].claim != claim
    ensures AnyLink(links[..n], claim, q) <==> AnyLink(links, claim, q)
  {
    if AnyLink(links, claim, q) {
      var i :| 0 <= i < |links| && LinkMatches(links[i], claim, q);
      assert i < n && links[..n][i] == links[i];
    }
    if AnyLink(links[..n], claim, q) {
      var i :| 0 <= i < n && LinkMatches(links[..n][i], claim, q);
      assert LinkMatches(links[i], claim, q);
    }
  }

  lemma {:induction false} SeenVerificationsSuffice(verifications: seq<Verification>, n: nat, claim: Id, q: VerificationQuery)
    requires n <= |verifications| && forall i :: n <= i < |verifications| ==> verifications[i].claim != claim
    ensures AnyVerification(verifications[..n], claim, q) <==> AnyVerification(verifications, claim, q)
  {
    if AnyVerification(verifications, claim, q) {
      var i :| 0 <= i < |verifications| && VerificationMatches(verifications[i], claim, q);
      assert i < n && verifications[..n][i] == verifications[i];
    }
    if AnyVerification(verifications[..n], claim, q) {
      var i :| 0 <= i < n && VerificationMatches(verifications[..n][i], claim, q);
      assert VerificationMatches(verifications[i], claim, q);
    }
  }

  lemma SeenIsAll(t: ClaimTables, seen: Seen, claim: Id)
    requires seen.links <= |t.links| && seen.verifications <= |t.verifications| && !HasUnseen(t, seen, claim)
    ensures Recomputed(SeenPart(t, seen), claim) == Recomputed(t, claim)
  {
    forall q ensures AnyLink(t.links[..seen.links], claim, q) <==> AnyLink(t.links, claim, q) {
      SeenLinksSuffice(t.links, seen.links, claim, q);
    }
    forall q ensures AnyVerification(t.verifications[..seen.verifications], claim, q) <==> AnyVerification(t.verifications, claim, q) {
      SeenVerificationsSuffice(t.verifications, seen.verifications, claim, q);
    }
    hide AnyLink, AnyVerification;
  }

  /** Runs without a cut have no pending claim, so there every stored support is current. */
  lemma {:induction false} UncutIsCurrent(h: Hash, digest: Digest, first: Id, cs: seq<ClaimCommand>)
    requires forall i :: 0 <= i < |cs| ==> (cs[i].LinkItem? || cs[i].Verify? ==> !cs[i].cut)
    ensures TraceOf(h, digest, first, cs).pending == {}
    ensures forall c :: c in ClaimRun(h, digest, FirstWorld(first), cs).tables.claims ==> Current(ClaimRun(h, digest, FirstWorld(first), cs).tables, c)
  {
    hide Store.Sound, Recomputed, ClaimRun;
    if cs != [] {
      var init := cs[..|cs| - 1];
      assert forall i :: 0 <= i < |init| ==> init[i] == cs[i];
      UncutIsCurrent(h, digest, first, init);
      UncutLeavesNone(h, digest, TraceOf(h, digest, first, init).world, cs[|cs| - 1]);
    }
    forall c | c in ClaimRun(h, digest, FirstWorld(first), cs).tables.claims
      ensures Current(ClaimRun(h, digest, FirstWorld(first), cs).tables, c)
    {
      SupportExactly(h, digest, first, cs, c);
    }
  }

  lemma UncutLeavesNone(h: Hash, digest: Digest, w: World, c: ClaimCommand)
    requires Store.Sound(w.project) && (c.LinkItem? || c.Verify? ==> !c.cut)
    ensures Cuts(h, digest, w, c) == {}
  {
    hide Store.Sound, Store.After, ApplyNotice, LinkEvidence, VerifyCitation, RecordClaim, Grows;
  }

  // ------------------------------------------------------------------ what a cut leaves

  lemma StepGrowsRows(h: Hash, digest: Digest, w: World, c: ClaimCommand)
    requires Store.Sound(w.project)
    ensures var later := ClaimStep(h, digest, w, c).0.tables;
      && w.tables.links <= later.links && w.tables.verifications <= later.verifications
      && w.tables.reassessments <= later.reassessments && w.tables.claims.Keys <= later.claims.Keys
  {
    hide Store.Sound, Store.After, ApplyNotice, LinkEvidence, VerifyCitation, RecordClaim, Grows;
    if c.Notice? {
      NoticeGrows(h, w, c.evidence, c.notice, c.cut);
    }
  }

  lemma NoticeGrows(h: Hash, w: World, e: Evidence, r: NoticeRequest, cut: bool)
    requires Store.Sound(w.project)
    ensures var later := ApplyNotice(h, w, e, r, cut).0.tables;
      && later.links == w.tables.links && later.verifications == w.tables.verifications
      && w.tables.reassessments <= later.reassessments && w.tables.claims.Keys == later.claims.Keys
  {
    hide Store.Sound, ApplyNotice, LinkedTo, ReassessAll;
    NoticeExact(h, w, e, r, cut);
    if ApplyNotice(h, w, e, r, cut).1.NoticeApplied? {
      AppliedWrites(h, w, e, r, cut);
      ReassessAllWrites(w.tables, r, Listing(LinkedClaims(w.tables, e.items, r.source)));
    }
  }

  lemma {:induction false} RunGrowsRows(h: Hash, digest: Digest, w: World, cs: seq<ClaimCommand>)
    requires Store.Sound(w.project)
    ensures var later := ClaimRun(h, digest, w, cs).tables;
      && w.tables.links <= later.links && w.tables.verifications <= later.verifications
      && w.tables.reassessments <= later.reassessments && w.tables.claims.Keys <= later.claims.Keys
  {
    hide Store.Sound, ClaimStep;
    if cs != [] {
      RunGrowsRows(h, digest, w, cs[..|cs| - 1]);
      StepGrowsRows(h, digest, ClaimRun(h, digest, w, cs[..|cs| - 1]), cs[|cs| - 1]);
    }
  }

  lemma LinkByStays(links: seq<Link>, later: seq<Link>, command: Id)
    requires links <= later && LinkBy(links, command).Some?
    ensures LinkBy(later, command).Some?
  {
    var l := LinkBy(links, command).value;
    var i :| 0 <= i < |links| && links[i] == l;
    assert later[i] == l;
  }

  lemma VerificationByStays(verifications: seq<Verification>, later: seq<Verification>, command: Id)
    requires verifications <= later && VerificationBy(verifications, command).Some?
    ensures VerificationBy(later, command).Some?
  {
    var v := VerificationBy(verifications, command).value;
    var i :| 0 <= i < |verifications| && verifications[i] == v;
    assert later[i] == v;
  }

  /** A link or verification that was inserted, cut or not, is never inserted again under its
      command, and sending the command again writes no support: it repairs nothing. */
  lemma ReplayRepairsNothing(h: Hash, digest: Digest, w: World, c: ClaimCommand, cs: seq<ClaimCommand>, again: ClaimCommand)
    requires Store.Sound(w.project) && (c.LinkItem? || c.Verify?) && ClaimStep(h, digest, w, c).0.tables != w.tables
    requires if c.LinkItem? then again.LinkItem? && again.link.command == c.link.command
             else again.Verify? && again.citation.command == c.citation.command
    ensures var later := ClaimRun(h, digest, ClaimStep(h, digest, w, c).0, cs);
      ClaimStep(h, digest, later, again).0.tables == later.tables
  {
    hide Store.Sound, Store.After, ClaimRun, Recomputed, CitationOf, StatusOfLink, Refreshed, ApplyNotice, RecordClaim, Grows;
    var after := ClaimStep(h, digest, w, c).0;
    var later := ClaimRun(h, digest, after, cs);
    InsertedIsFound(h, digest, w, c);
    RunGrowsRows(h, digest, after, cs);
    if c.LinkItem? {
      LinkByStays(after.tables.links, later.tables.links, c.link.command);
    } else {
      VerificationByStays(after.tables.verifications, later.tables.verifications, c.citation.command);
    }
  }

  lemma InsertedIsFound(h: Hash, digest: Digest, w: World, c: ClaimCommand)
    requires Store.Sound(w.project) && (c.LinkItem? || c.Verify?) && ClaimStep(h, digest, w, c).0.tables != w.tables
    ensures var after := ClaimStep(h, digest, w, c).0.tables;
      if c.LinkItem? then LinkBy(after.links, c.link.command).Some? else VerificationBy(after.verifications, c.citation.command).Some?
  {
    hide Store.Sound, Store.After, Recomputed, StatusOfLink, SupportedFrom;
    var t, after := w.tables, ClaimStep(h, digest, w, c).0.tables;
    if c.LinkItem? {
      assert after.links[|t.links|].command == c.link.command;
    } else {
      assert after.verifications[|t.verifications|].command == c.citation.command;
    }
  }

  lemma NewLinkCommand(links: seq<Link>, command: Id)
    requires forall l :: l in links ==> l.command != command
    ensures LinkBy(links, command).None?
  {
  }

  /** The input that shows it: the first supporting link of a claim, to a complete full text with
      an excerpt, cut after its insert. The claim stays recorded as unverified though its rows
      call for substantive support. */
  lemma CutLinkIsStale(digest: Digest, t: ClaimTables, e: Evidence, r: LinkRequest)
    requires r.claim in t.claims && t.claims[r.claim].support == Unverified && RowsOwned(t)
    requires forall l :: l in t.links ==> l.claim != r.claim && l.command != r.command
    requires forall v :: v in t.verifications ==> v.claim != r.claim
    requires forall row :: row in t.reassessments ==> row.claim != r.claim
    requires r.role == Some(Supporting) && r.item in e.items && e.items[r.item].hasExcerpt && e.items[r.item].source in e.sources
    requires e.sources[e.items[r.item].source].fullText && e.sources[e.items[r.item].source].complete
    ensures var (later, reply) := LinkEvidence(t, true, digest, e, r, true);
      && reply.Interrupted? && later.claims == t.claims
      && Recomputed(later, r.claim) == SubstantivelySupported && !Current(later, r.claim)
  {
    NewLinkCommand(t.links, r.command);
    var later := LinkEvidence(t, true, digest, e, r, true).0;
    var l := later.links[|t.links|];
    assert later.links == t.links + [l];
    AnyLinkAppend(t.links, l, r.claim, OfRole(Supporting));
    AnyLinkAppend(t.links, l, r.claim, OfRole(Challenging));
    AnyLinkAppend(t.links, l, r.claim, SupportingWith(LinkSubstantive));
  }

  /** It is reached in two steps from a new project: record the claim, then that link. */
  lemma StaleIsReachable(h: Hash, digest: Digest, first: Id, fields: ClaimFields, e: Evidence, item: Id)
    requires !IsBlank(fields.statement)
    requires item in e.items && e.items[item].hasExcerpt && e.items[item].source in e.sources
    requires e.sources[e.items[item].source].fullText && e.sources[e.items[item].source].complete
    ensures var record := Record(RecordRequest(Some(T("k")), fields, T("c")), T("n"));
      var link := LinkItem(e, LinkRequest(T("k"), item, Some(Supporting), [], T("d")), true);
      var t := ClaimRun(h, digest, FirstWorld(first), [record, link]).tables;
      T("k") in t.claims && t.claims[T("k")].support == Unverified && Recomputed(t, T("k")) == SubstantivelySupported
  {
    hide Store.Sound, Grows, Recomputed, LinkEvidence;
    var record := Record(RecordRequest(Some(T("k")), fields, T("c")), T("n"));
    var link := LinkItem(e, LinkRequest(T("k"), item, Some(Supporting), [], T("d")), true);
    var w := FirstWorld(first);
    TwoSteps(h, digest, w, record, link);
    var t := ClaimStep(h, digest, w, record).0.tables;
    CutLinkIsStale(digest, t, e, link.link);
  }

  lemma TwoSteps(h: Hash, digest: Digest, w: World, a: ClaimCommand, b: ClaimCommand)
    requires Store.Sound(w.project)
    ensures ClaimRun(h, digest, w, [a, b]) == ClaimStep(h, digest, ClaimStep(h, digest, w, a).0, b).0
  {
    hide Store.Sound, ClaimStep;
    assert [a, b][..1] == [a] && [a][..0] == [];
    assert ClaimRun(h, digest, w, [a]) == ClaimStep(h, digest, w, a).0;
  }

  // ------------------------------------------------------------------ reassessments

  /** After its first reassessment a claim needs reassessment in every later state. */
  lemma ReassessmentIsForever(h: Hash, digest: Digest, first: Id, cs: seq<ClaimCommand>, more: seq<ClaimCommand>, claim: Id)
    requires Reassessed(ClaimRun(h, digest, FirstWorld(first), cs).tables.reassessments, claim)
    ensures claim in ClaimRun(h, digest, FirstWorld(first), cs + more).tables.claims
    ensures ClaimRun(h, digest, FirstWorld(first), cs + more).tables.claims[claim].support == NeedsReassessment
  {
    hide Store.Sound, ClaimStep, TraceOf, ClaimRun;
    RunSplits(h, digest, FirstWorld(first), cs, more);
    var earlier, later := ClaimRun(h, digest, FirstWorld(first), cs).tables, ClaimRun(h, digest, FirstWorld(first), cs + more).tables;
    RunGrowsRows(h, digest, ClaimRun(h, digest, FirstWorld(first), cs), more);
    TraceIsKept(h, digest, first, cs + more);
    var i :| 0 <= i < |earlier.reassessments| && earlier.reassessments[i].claim == claim;
    assert later.reassessments[i] == earlier.reassessments[i];
    assert later.reassessments[i] in later.reassessments;
    var trace := TraceOf(h, digest, first, cs + more);
    assert Tracked(later, trace.seen, trace.pending, claim);
    ReassessedJudgement(SeenPart(later, trace.seen[claim]), claim);
  }

  lemma ReassessedJudgement(t: ClaimTables, claim: Id)
    requires Reassessed(t.reassessments, claim)
    ensures Recomputed(t, claim) == NeedsReassessment
  {
  }

  lemma {:induction false} RunSplits(h: Hash, digest: Digest, w: World, cs: seq<ClaimCommand>, more: seq<ClaimCommand>)
    requires Store.Sound(w.project)
    ensures ClaimRun(h, digest, w, cs + more) == ClaimRun(h, digest, ClaimRun(h, digest, w, cs), more)
  {
    hide Store.Sound, ClaimStep;
    if more == [] {
      assert cs + more == cs;
    } else {
      RunSplits(h, digest, w, cs, more[..|more| - 1]);
      assert (cs + more)[..|cs + more| - 1] == cs + more[..|more| - 1];
    }
  }

  lemma OtherRowsIgnored(rows: seq<Reassessment>, more: seq<Reassessment>, command: Id)
    requires forall row :: row in more ==> row.command != command
    ensures RowsBy(rows + more, command) == RowsBy(rows, command)
  {
  }

  lemma NoticeKeepsRowsBy(h: Hash, w: World, e: Evidence, r: NoticeRequest, cut: bool, command: Id)
    requires Store.Sound(w.project) && Tables.Command(w.project.db.history, command).Some?
    ensures RowsBy(ApplyNotice(h, w, e, r, cut).0.tables.reassessments, command) == RowsBy(w.tables.reassessments, command)
  {
    hide ApplyNotice, Store.Sound, RowsBy, LinkedTo;
    NoticeExact(h, w, e, r, cut);
    if ApplyNotice(h, w, e, r, cut).1.NoticeApplied? {
      OtherRowsIgnored(w.tables.reassessments, ApplyNotice(h, w, e, r, cut).1.rows, command);
    }
  }

  lemma StepKeepsRowsBy(h: Hash, digest: Digest, w: World, c: ClaimCommand, command: Id)
    requires Store.Sound(w.project) && Tables.Command(w.project.db.history, command).Some?
    ensures RowsBy(ClaimStep(h, digest, w, c).0.tables.reassessments, command) == RowsBy(w.tables.reassessments, command)
  {
    hide Store.Sound, Store.After, ApplyNotice, LinkEvidence, VerifyCitation, RecordClaim, Grows, RowsBy;
    if c.Notice? {
      NoticeKeepsRowsBy(h, w, c.evidence, c.notice, c.cut, command);
    }
  }

  lemma {:induction false} RunKeepsRowsBy(h: Hash, digest: Digest, w: World, cs: seq<ClaimCommand>, command: Id)
    requires Store.Sound(w.project) && Tables.Command(w.project.db.history, command).Some?
    ensures RowsBy(ClaimRun(h, digest, w, cs).tables.reassessments, command) == RowsBy(w.tables.reassessments, command)
    ensures Tables.Command(ClaimRun(h, digest, w, cs).project.db.history, command).Some?
  {
    hide Store.Sound, ClaimStep;
    LoggedLater(w.project.db.history, ClaimRun(h, digest, w, cs).project.db.history, command);
    if cs != [] {
      RunKeepsRowsBy(h, digest, w, cs[..|cs| - 1], command);
      StepKeepsRowsBy(h, digest, ClaimRun(h, digest, w, cs[..|cs| - 1]), cs[|cs| - 1], command);
    }
  }

  lemma AppliedIsNew(h: Hash, w: World, e: Evidence, r: NoticeRequest, cut: bool)
    requires Store.Sound(w.project) && ApplyNotice(h, w, e, r, cut).1.NoticeApplied?
    ensures RowsBy(w.tables.reassessments, r.command) == {}
  {
    hide Store.Sound, Store.After, RecordCorrection, ReassessAll, LinkedTo, RowsBy, RowsFor;
  }

  lemma RowsByOf(rows: seq<Reassessment>, more: seq<Reassessment>, command: Id)
    requires RowsBy(rows, command) == {} && forall row :: row in more ==> row.command == command
    ensures RowsBy(rows + more, command) == (set row | row in more)
  {
    assert forall row :: row in rows && row.command == command ==> row in RowsBy(rows, command);
  }

  lemma AppliedRowsBy(h: Hash, w: World, e: Evidence, r: NoticeRequest)
    requires Store.Sound(w.project) && ApplyNotice(h, w, e, r, false).1.NoticeApplied?
    ensures var (later, reply) := ApplyNotice(h, w, e, r, false);
      RowsBy(later.tables.reassessments, r.command) == (set row | row in reply.rows)
  {
    hide Store.Sound, ApplyNotice, RowsBy, LinkedTo;
    NoticeExact(h, w, e, r, false);
    AppliedIsNew(h, w, e, r, false);
    RowsByOf(w.tables.reassessments, ApplyNotice(h, w, e, r, false).1.rows, r.command);
  }

  /** The correction of a notice that got through once is accepted again exactly while its source
      is registered. */
  lemma NoticeReplayed(h: Hash, w: World, f: Evidence, r: NoticeRequest, before: Store.State)
    requires Store.Sound(w.project) && Store.Sound(before) && Tables.Command(before.db.history, r.command).None?
    requires !RecordCorrection(h, before.db, CorrectionFor(r)).1.Thrown? && !IsBlank(r.notice)
    requires Grows(Store.After(h, before, Store.Correct(CorrectionFor(r))).db, w.project.db)
    ensures var (later, reply) := ApplyNotice(h, w, f, r, false);
      && later.tables == w.tables
      && (reply == NoticeDuplicate(RowsBy(w.tables.reassessments, r.command)) <==> r.source in f.sources && r.source in w.project.db.versions)
      && (reply.NoticeDuplicate? || reply.ClaimThrown?)
  {
    hide Store.Sound, CorrectionImpacts, RowsBy, ReassessAll, Grows;
    var e := RecordCorrection(h, before.db, CorrectionFor(r)).0;
    CorrectionRemembered(h, before, w.project.db, CorrectionFor(r));
  }

  lemma CorrectionRemembered(h: Hash, before: Store.State, later: Db, r: CorrectionRequest)
    requires Store.Sound(before) && Tables.Command(before.db.history, r.command).None? && !RecordCorrection(h, before.db, r).1.Thrown?
    requires Grows(Store.After(h, before, Store.Correct(r)).db, later)
    ensures later.ready && Tables.Command(later.history, r.command).Some?
    ensures Tables.Command(later.history, r.command).value.payloadHash == h(CorrectionPayload(r.version, r.notice)) && !IsBlank(r.notice)
  {
    hide CorrectionImpacts, Store.Sound;
    var e := RecordCorrection(h, before.db, r).0;
    Guarantees.Remembered(before.db, e, later);
  }

  /** A completed notice, sent again under its command after any run, writes nothing, and answers
      with the rows the first one wrote if and only if its source is still known. */
  lemma NoticeOnce(h: Hash, digest: Digest, w: World, e: Evidence, r: NoticeRequest, cs: seq<ClaimCommand>, f: Evidence)
    requires Store.Sound(w.project) && ApplyNotice(h, w, e, r, false).1.NoticeApplied?
    ensures var (applied, reply) := ApplyNotice(h, w, e, r, false);
      var later := ClaimRun(h, digest, applied, cs);
      var known := r.source in f.sources && r.source in later.project.db.versions;
      && ApplyNotice(h, later, f, r, false).0.tables == later.tables
      && (ApplyNotice(h, later, f, r, false).1 == NoticeDuplicate(set row | row in reply.rows) <==> known)
  {
    hide Store.Sound, ClaimRun, RowsBy, Grows, CorrectionImpacts, ReassessAll, Store.After;
    var applied := ApplyNotice(h, w, e, r, false).0;
    CorrectionLogged(h, w.project, CorrectionFor(r));
    AppliedRowsBy(h, w, e, r);
    RunKeepsRowsBy(h, digest, applied, cs, r.command);
    NoticeReplayed(h, ClaimRun(h, digest, applied, cs), f, r, w.project);
  }

  /** A notice cut after its correction is lost: in every later state no claim was reassessed under
      its command, and sent again it writes nothing and answers, while its source is known, that
      it was applied before, with no rows. */
  lemma CutNoticeIsLost(h: Hash, digest: Digest, w: World, e: Evidence, r: NoticeRequest, cs: seq<ClaimCommand>, f: Evidence)
    requires Store.Sound(w.project) && ReassessmentsLogged(w.project.db.history, w.tables)
    requires Tables.Command(w.project.db.history, r.command).None? && ApplyNotice(h, w, e, r, true).1.Interrupted?
    ensures var later := ClaimRun(h, digest, ApplyNotice(h, w, e, r, true).0, cs);
      && RowsBy(later.tables.reassessments, r.command) == {}
      && ApplyNotice(h, later, f, r, false).0.tables == later.tables
      && (ApplyNotice(h, later, f, r, false).1 == NoticeDuplicate({}) <==> r.source in f.sources && r.source in later.project.db.versions)
  {
    hide Store.Sound, ClaimRun, Grows, CorrectionImpacts, ReassessAll, Store.After;
    var cut := ApplyNotice(h, w, e, r, true).0;
    CorrectionLogged(h, w.project, CorrectionFor(r));
    assert RowsBy(w.tables.reassessments, r.command) == {};
    RunKeepsRowsBy(h, digest, cut, cs, r.command);
    NoticeReplayed(h, ClaimRun(h, digest, cut, cs), f, r, w.project);
  }
}
