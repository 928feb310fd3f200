/** What promotion of everything achieves, and how packets, decisions and commitments correspond. */
module DecisionGuarantees {
  import opened Texts
  import opened Graph
  import opened Tables
  import opened Branches
  import opened Decisions
  import opened Adoptions
  import opened Invariants
  import opened LedgerInvariants
  import opened Store
  import opened Refinement

  // ------------------------------------------------------------ promotion of everything

  lemma HeadsOf(db: Db, b: Id)
    requires Kept(db) && b in db.branches
    ensures NoneEmpty(Abstract(db)) && Head(Abstract(db), b) == ReferencesOf(db.references, db.branches[b].current)
  {
    AbstractNoneEmpty(db);
    LineOfBranch(db, b);
  }

  lemma CarriedHeads(lines: Lines, from: Id, to: Id, ids: set<Id>)
    requires NoneEmpty(lines) && from in lines && to in lines && from != to
    ensures var later := CarryLines(lines, from, to, ids);
      && from in later && later[from] != [] && Head(later, from) == Head(lines, from)
      && to in later && later[to] != [] && Head(later, to) == Override(Head(lines, from), Head(lines, to), ids)
  {
  }

  /** After an accepted promotion of all logical ids the source is unchanged, and the
      destination has every version the source has. */
  lemma AllPromoted(h: Hash, db: Db, r: PromotionRequest, newId: Id)
    requires Kept(db) && r.logicalIds.None? && AcceptedBy(PromoteBranch(h, db, r, newId).1)
    ensures Allowed(db, PromoteBranch(h, db, r, newId).0)
    ensures Settled(Apply(db, PromoteBranch(h, db, r, newId).0), r.source, r.destination)
    ensures r.source in db.branches && r.source != r.destination && db.ready
    ensures var later := Apply(db, PromoteBranch(h, db, r, newId).0);
      && Kept(later) && later.ready
      && Current(later, r.source) == Current(db, r.source)
  {
    var e := PromoteBranch(h, db, r, newId).0;
    PromoteAccepted(h, db, r, newId);
    EffectKeeps(db, e);
    PromotedIdsElements(db, r);
    EverythingSettles(db, Apply(db, e), r.source, r.destination);
  }

  ghost function Current(db: Db, b: Id): Refs
    requires b in db.branches
  {
    ReferencesOf(db.references, db.branches[b].current)
  }

  /** The destination has every version the source has. */
  ghost predicate Settled(db: Db, source: Id, destination: Id)
  {
    && source in db.branches && destination in db.branches
    && forall l :: l in Current(db, source) ==> l in Current(db, destination) && Current(db, destination)[l] == Current(db, source)[l]
  }

  lemma EverythingSettles(db: Db, later: Db, from: Id, to: Id)
    requires Kept(db) && Kept(later) && from in db.branches && to in db.branches && from != to && NoneEmpty(Abstract(db))
    requires Abstract(later) == CarryLines(Abstract(db), from, to, Head(Abstract(db), from).Keys)
    ensures Settled(later, from, to) && Current(later, from) == Current(db, from)
  {
    CarriedHeads(Abstract(db), from, to, Head(Abstract(db), from).Keys);
    assert from in Abstract(later) && to in Abstract(later);
    HeadsOf(db, from);
    HeadsOf(later, from);
    HeadsOf(later, to);
  }

  /** Hence every remaining difference has a null source version. */
  lemma OnlyMissingRemain(h: Hash, db: Db, r: PromotionRequest, newId: Id, l: Id)
    requires Kept(db) && r.logicalIds.None? && AcceptedBy(PromoteBranch(h, db, r, newId).1)
    ensures Allowed(db, PromoteBranch(h, db, r, newId).0)
    ensures var later := Apply(db, PromoteBranch(h, db, r, newId).0);
      && r.source in later.branches && r.destination in later.branches
      && (Lookup(Current(later, r.source), l) != Lookup(Current(later, r.destination), l) ==> Lookup(Current(later, r.source), l).None?)
  {
    AllPromoted(h, db, r, newId);
  }

  /** Promoting everything again under a new command is accepted and changes no revision and
      no reference: it only writes its history entry. */
  lemma PromotionSettles(h: Hash, db: Db, r: PromotionRequest, newId: Id, again: PromotionRequest, newId': Id)
    requires Kept(db) && r.logicalIds.None? && AcceptedBy(PromoteBranch(h, db, r, newId).1)
    requires Allowed(db, PromoteBranch(h, db, r, newId).0)
    requires var later := Apply(db, PromoteBranch(h, db, r, newId).0);
      && r.destination in later.branches && Tables.Command(later.history, again.command).None?
      && again == PromotionRequest(r.source, r.destination, later.branches[r.destination].revision, None, again.command)
    ensures var later := Apply(db, PromoteBranch(h, db, r, newId).0);
      var (effect, reply) := PromoteBranch(h, later, again, newId');
      && effect.Logs? && reply == Replied(Accepted, later.branches[r.destination].revision, Some(later.branches[r.destination].current))
  {
    AllPromoted(h, db, r, newId);
    var later := Apply(db, PromoteBranch(h, db, r, newId).0);
    NothingToPromote(h, later, again, newId');
  }

  lemma NothingToPromote(h: Hash, db: Db, r: PromotionRequest, newId: Id)
    requires db.ready && r.source != r.destination && r.source in db.branches && r.destination in db.branches
    requires r.expected == db.branches[r.destination].revision && r.logicalIds.None? && Tables.Command(db.history, r.command).None?
    requires Settled(db, r.source, r.destination)
    ensures var (effect, reply) := PromoteBranch(h, db, r, newId);
      && effect.Logs? && reply == Replied(Accepted, db.branches[r.destination].revision, Some(db.branches[r.destination].current))
  {
    SettledDiffersNowhere(Current(db, r.source), Current(db, r.destination), PromotedIds(db, r));
  }

  lemma SettledDiffersNowhere(source: Refs, destination: Refs, ids: seq<Id>)
    requires forall l :: l in source ==> l in destination && destination[l] == source[l]
    requires forall l :: l in ids ==> l in source
    ensures Differing(source, destination, ids) == []
  {
    assert Override(source, destination, Elements(ids)) == destination;
    NothingDiffers(source, destination, ids);
  }

  // ------------------------------------------------------------ packet lines

  /** The first packet of a packet's line; walking parents always reaches it. */
  ghost function FirstOf(packets: map<Id, Packet>, p: Id): (first: Id)
    requires LinesNumbered(packets) && p in packets
    ensures first in packets && packets[first].parent.None? && packets[first].version == 1
    decreases packets[p].version
  {
    if packets[p].parent.None? then p else FirstOf(packets, packets[p].parent.value)
  }

  /** Two packets of one line and one version are the same packet: lines do not branch. */
  lemma {:induction false} LinesDoNotBranch(packets: map<Id, Packet>, p: Id, q: Id)
    requires LinesNumbered(packets) && OneChildEach(packets) && p in packets && q in packets
    requires FirstOf(packets, p) == FirstOf(packets, q) && packets[p].version == packets[q].version
    ensures p == q
    decreases packets[p].version
  {
    if packets[p].version > 1 {
      LinesDoNotBranch(packets, packets[p].parent.value, packets[q].parent.value);
    }
  }

  // ------------------------------------------------------------ decisions and commitments

  ghost predicate OnlyCommitment(commitments: seq<Commitment>, d: Decision, j: nat)
  {
    && j < |commitments| && Pairs(d, commitments[j])
    && forall k :: 0 <= k < |commitments| && commitments[k].decision == d.id ==> k == j
  }

  ghost predicate OnlyDecision(decisions: seq<Decision>, c: Commitment, i: nat)
  {
    && i < |decisions| && Pairs(decisions[i], c)
    && forall k :: 0 <= k < |decisions| && decisions[k].commitment == Some(c.id) ==> k == i
  }

  lemma DecisionOfCommitment(ledger: Ledger, j: nat) returns (i: nat)
    requires LedgerKept(ledger) && j < |ledger.commitments|
    ensures OnlyDecision(ledger.decisions, ledger.commitments[j], i)
  {
    var c := ledger.commitments[j];
    assert HasDecision(ledger.decisions, c);
    i :| 0 <= i < |ledger.decisions| && Pairs(ledger.decisions[i], c);
    forall k | 0 <= k < |ledger.decisions| && ledger.decisions[k].commitment == Some(c.id) ensures k == i {
      assert Exact(ledger.packets, ledger.decisions[k]);
      assert HasCommitment(ledger.commitments, ledger.decisions[k]);
      var m :| 0 <= m < |ledger.commitments| && Pairs(ledger.decisions[k], ledger.commitments[m]);
    }
  }

  lemma CommitmentOfDecision(ledger: Ledger, i: nat) returns (j: nat)
    requires LedgerKept(ledger) && i < |ledger.decisions| && ledger.decisions[i].disposition.Approved?
    ensures OnlyCommitment(ledger.commitments, ledger.decisions[i], j)
  {
    assert HasCommitment(ledger.commitments, ledger.decisions[i]);
    j :| 0 <= j < |ledger.commitments| && Pairs(ledger.decisions[i], ledger.commitments[j]);
  }

  ghost predicate HasOnlyCommitment(commitments: seq<Commitment>, d: Decision)
  {
    exists j: nat :: OnlyCommitment(commitments, d, j)
  }

  ghost predicate HasOnlyDecision(decisions: seq<Decision>, c: Commitment)
  {
    exists i: nat :: OnlyDecision(decisions, c, i)
  }

  /** In every reachable state approved decisions and commitments correspond one to one, each
      pair agreeing on packet, branch, revision and selection, and every commitment selects a
      non-empty set of its packet's candidates. */
  lemma DecisionsCorrespond(h: Hash, first: Id, cs: seq<Store.Command>)
    ensures var ledger := Reached(h, first, cs).ledger;
      && (forall i :: 0 <= i < |ledger.decisions| ==>
            (ledger.decisions[i].disposition.Approved? <==> HasOnlyCommitment(ledger.commitments, ledger.decisions[i])))
      && (forall j :: 0 <= j < |ledger.commitments| ==>
            HasOnlyDecision(ledger.decisions, ledger.commitments[j]) && Selects(ledger.packets, ledger.commitments[j]))
  {
    var ledger := Reached(h, first, cs).ledger;
    forall i | 0 <= i < |ledger.decisions|
      ensures ledger.decisions[i].disposition.Approved? <==> HasOnlyCommitment(ledger.commitments, ledger.decisions[i])
    {
      if ledger.decisions[i].disposition.Approved? {
        var j := CommitmentOfDecision(ledger, i);
      }
    }
    forall j | 0 <= j < |ledger.commitments|
      ensures HasOnlyDecision(ledger.decisions, ledger.commitments[j]) && Selects(ledger.packets, ledger.commitments[j])
    {
      var i := DecisionOfCommitment(ledger, j);
      assert Exact(ledger.packets, ledger.decisions[i]);
    }
  }

  ghost predicate Selects(packets: map<Id, Packet>, c: Commitment)
  {
    && c.packet in packets && c.selected != [] && NoDuplicates(c.selected) && Elements(c.selected) <= Elements(packets[c.packet].candidates)
  }

  // ------------------------------------------------------------ setEqual and adoption

  /** On duplicate-free lists `setEqual` decides set equality. */
  lemma SetEqualDecides(left: seq<Id>, right: seq<Id>)
    requires NoDuplicates(left) && NoDuplicates(right)
    ensures SetEqual(left, right) <==> Elements(left) == Elements(right)
  {
    NoDuplicatesCount(left);
    NoDuplicatesCount(right);
    if SetEqual(left, right) {
      assert Elements(left) <= Elements(right);
      SubsetOfSameSize(Elements(left), Elements(right));
    }
    if Elements(left) == Elements(right) {
      forall i | 0 <= i < |left| ensures left[i] in right {
        assert left[i] in Elements(left);
      }
    }
  }

  lemma SubsetOfSameSize(a: set<Id>, b: set<Id>)
    requires a <= b && |a| == |b|
    ensures a == b
  {
    if a != b {
      var x :| x in b && x !in a;
      assert a <= b - {x};
      SmallerSubset(a, b - {x});
    }
  }

  lemma {:induction false} SmallerSubset(a: set<Id>, b: set<Id>)
    requires a <= b
    ensures |a| <= |b|
    decreases |a|
  {
    if a != {} {
      var x :| x in a;
      SmallerSubset(a - {x}, b - {x});
    }
  }

  /** With duplicates it can be fooled. */
  lemma SetEqualFooled(a: Id, b: Id)
    requires a != b
    ensures SetEqual([a, a], [a, b]) && Elements([a, a]) != Elements([a, b])
  {
    assert [a, b][1] == b;
    assert b in Elements([a, b]) && b !in Elements([a, a]);
  }

  ghost predicate Covers(d: Decision, packet: Id, selected: seq<Id>)
  {
    d.packet == packet && d.disposition.Approved? && Elements(d.selected) == Elements(selected)
  }

  ghost predicate Covered(decisions: seq<Decision>, packet: Id, selected: seq<Id>)
  {
    exists i :: 0 <= i < |decisions| && Covers(decisions[i], packet, selected)
  }

  lemma CoveredByFirst(ledger: Ledger, packet: Id, selected: seq<Id>)
    requires LedgerKept(ledger) && NoDuplicates(selected)
    ensures FirstApproved(ledger.decisions, packet, selected).Some? <==> Covered(ledger.decisions, packet, selected)
  {
    forall i | 0 <= i < |ledger.decisions| ensures SetEqual(ledger.decisions[i].selected, selected) <==> Elements(ledger.decisions[i].selected) == Elements(selected) {
      assert Exact(ledger.packets, ledger.decisions[i]);
      SetEqualDecides(ledger.decisions[i].selected, selected);
    }
    if FirstApproved(ledger.decisions, packet, selected).Some? {
      var i :| 0 <= i < |ledger.decisions| && ledger.decisions[i] == FirstApproved(ledger.decisions, packet, selected).value;
      assert Covers(ledger.decisions[i], packet, selected);
    }
  }

  lemma ApprovedHasCommitment(ledger: Ledger, d: Decision)
    requires LedgerKept(ledger) && d in ledger.decisions && d.disposition.Approved?
    ensures CommitmentOf(ledger.commitments, d.packet, d.id).Some?
    ensures d.commitment == Some(CommitmentOf(ledger.commitments, d.packet, d.id).value.id)
  {
    var i :| 0 <= i < |ledger.decisions| && ledger.decisions[i] == d;
    var j := CommitmentOfDecision(ledger, i);
    var c := CommitmentOf(ledger.commitments, d.packet, d.id);
    if c.Some? {
      var k :| 0 <= k < |ledger.commitments| && ledger.commitments[k] == c.value;
    }
  }

  /** The decisions and commitments stay as they were and the answer is a commitment there was. */
  ghost predicate Reuses(ledger: Ledger, later: Ledger, packet: Id, selected: seq<Id>, commitment: Option<Id>)
  {
    && later.decisions == ledger.decisions && later.commitments == ledger.commitments
    && exists i :: 0 <= i < |ledger.decisions| && Covers(ledger.decisions[i], packet, selected) && ledger.decisions[i].commitment == commitment
  }

  /** One decision and its commitment are added, and the answer is that commitment. */
  ghost predicate CommitsAnew(ledger: Ledger, later: Ledger, packet: Id, selected: seq<Id>, destination: Id, revision: int, commitment: Option<Id>)
  {
    && |later.decisions| == |ledger.decisions| + 1 && later.decisions[..|ledger.decisions|] == ledger.decisions
    && |later.commitments| == |ledger.commitments| + 1 && later.commitments[..|ledger.commitments|] == ledger.commitments
    && Covers(later.decisions[|ledger.decisions|], packet, selected)
    && Pairs(later.decisions[|ledger.decisions|], later.commitments[|ledger.commitments|])
    && later.commitments[|ledger.commitments|].branch == destination && later.commitments[|ledger.commitments|].revision == revision
    && commitment == Some(later.commitments[|ledger.commitments|].id)
  }

  lemma CommitReusesOrAdds(ledger: Ledger, r: AdoptionRequest, packet: Packet, selected: seq<Id>, digest: Text, reply: Reply, ids: NewIds)
    requires LedgerKept(ledger) && NoDuplicates(selected)
    requires reply.Reply? && reply.snapshot.Some? && reply.revision >= 0
    requires Commit(ledger, r, packet, selected, digest, reply, ids).0.Some?
    ensures var (result, commitment) := Commit(ledger, r, packet, selected, digest, reply, ids);
      if Covered(ledger.decisions, r.packet, selected) then Reuses(ledger, result.value, r.packet, selected, commitment)
      else CommitsAnew(ledger, result.value, r.packet, selected, r.destination, reply.revision, commitment)
  {
    CoveredByFirst(ledger, r.packet, selected);
    var approved := FirstApproved(ledger.decisions, r.packet, selected);
    if approved.Some? {
      ApprovedHasCommitment(ledger, approved.value);
      var i :| 0 <= i < |ledger.decisions| && ledger.decisions[i] == approved.value;
      assert Exact(ledger.packets, ledger.decisions[i]);
      SetEqualDecides(approved.value.selected, selected);
      assert Covers(ledger.decisions[i], r.packet, selected);
    }
  }

  /** An accepted adoption adds a decision and a commitment exactly when no approved decision on
      its packet selects the same set; otherwise it answers with the commitment that exists. */
  lemma AdoptionCommitsOnce(h: Hash, s: State, r: AdoptionRequest, ids: NewIds)
    requires Sound(s) && AcceptedBy(Plan(h, s, Adopt(r, ids)).2)
    ensures r.packet in s.ledger.packets
    ensures var (_, later, reply) := Plan(h, s, Adopt(r, ids));
      var selected := Chosen(s.ledger.packets[r.packet], r);
      if Covered(s.ledger.decisions, r.packet, selected) then Reuses(s.ledger, later, r.packet, selected, reply.commitment)
      else CommitsAnew(s.ledger, later, r.packet, selected, r.destination, reply.revision, reply.commitment)
  {
    AdoptedOnce(h, s.db, s.ledger, r, ids);
    SelectionIsChosen(s.ledger.packets[r.packet], r);
  }

  lemma AdoptedOnce(h: Hash, db: Db, ledger: Ledger, r: AdoptionRequest, ids: NewIds)
    requires LedgerKept(ledger) && AcceptedBy(AdoptAlternative(h, db, ledger, r, ids).2)
    ensures r.packet in ledger.packets
    ensures var (_, later, reply) := AdoptAlternative(h, db, ledger, r, ids);
      var selected := Selection(ledger.packets[r.packet], r);
      if Covered(ledger.decisions, r.packet, selected) then Reuses(ledger, later, r.packet, selected, reply.commitment)
      else CommitsAnew(ledger, later, r.packet, selected, r.destination, reply.revision, reply.commitment)
  {
    hide LedgerKept, CarryAndCommit, ExposedIds, Selection, ReferencesOf, Covered, Reuses, CommitsAnew;
    var packet := ledger.packets[r.packet];
    var selected := Selection(packet, r);
    SelectionIsChosen(packet, r);
    CarriedCommits(db, ledger, r, packet, selected, ExposedIds(db, r.source, selected, r.logicalIds).ids, AdoptionHash(h, r, selected), ids);
  }

  lemma CarriedCommits(db: Db, ledger: Ledger, r: AdoptionRequest, packet: Packet, selected: seq<Id>, logicalIds: seq<Id>, digest: Text, ids: NewIds)
    requires LedgerKept(ledger) && NoDuplicates(selected) && r.source in db.branches && r.destination in db.branches
    requires forall l :: l in logicalIds ==> l in ReferencesOf(db.references, db.branches[r.source].current)
    requires AcceptedBy(CarryAndCommit(db, ledger, r, packet, selected, logicalIds, digest, ids).2)
    ensures var (_, later, reply) := CarryAndCommit(db, ledger, r, packet, selected, logicalIds, digest, ids);
      if Covered(ledger.decisions, r.packet, selected) then Reuses(ledger, later, r.packet, selected, reply.commitment)
      else CommitsAnew(ledger, later, r.packet, selected, r.destination, reply.revision, reply.commitment)
  {
    hide LedgerKept, Carry, Commit, ReferencesOf, Covered, Reuses, CommitsAnew;
    var reply := Carry(db, r.source, r.destination, logicalIds, r.command, AlternativeAdopted, AdoptionImpact, ADOPTION_NOTICE(), digest, ids.snapshot).1;
    CommitReusesOrAdds(ledger, r, packet, selected, digest, reply, ids);
  }
}
