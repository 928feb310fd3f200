/** When each branch command is accepted, and what the others answer: exact conditions on the
    tables a caller can look at before the call. */
module BranchOutcomes {
  import opened Texts
  import opened Graph
  import opened Tables
  import opened Branches
  import opened Registration
  import opened Invariants

  /** No entry of the history carries the command. */
  ghost predicate Unused(history: seq<HistoryRow>, command: Id)
  {
    forall i :: 0 <= i < |history| ==> history[i].command != command
  }

  lemma UnusedIsNone(history: seq<HistoryRow>, command: Id)
    ensures Unused(history, command) <==> Command(history, command).None?
  {
  }

  lemma EntryFound(history: seq<HistoryRow>, row: HistoryRow)
    requires CommandsUnique(history) && row in history
    ensures Command(history, row.command) == Some(row)
  {
    var i :| 0 <= i < |history| && history[i] == row;
    var found := Command(history, row.command).value;
    var j :| 0 <= j < |history| && history[j] == found;
    assert !Repeats(history, i, j) && !Repeats(history, j, i);
  }

  ghost function HeadOf(db: Db, b: Id): map<Id, Id>
    requires b in db.branches
  {
    ReferencesOf(db.references, db.branches[b].current)
  }

  /** The entry of a command on branch `b`, from its head to `snapshot`. */
  ghost predicate Entered(row: HistoryRow, b: Id, command: Id, operation: Operation, expected: int, resulting: int, source: Id, snapshot: Id, digest: Text)
  {
    && row.branch == Some(b) && row.command == command && row.operation == operation && row.expected == expected
    && row.resulting == resulting && row.source == Some(source) && row.destination == Some(snapshot) && row.payloadHash == digest
  }

  // ------------------------------------------------------------------ updates

  ghost predicate RegisteredUnder(db: Db, version: Id, logicalId: Id)
  {
    version in db.versions && db.versions[version].logicalId == logicalId
  }

  /** Everything but the revision and the snapshot id is in order. */
  ghost predicate UpdateInOrder(db: Db, r: UpdateRequest)
  {
    db.ready && r.expected >= 0 && RegisteredUnder(db, r.version, r.logicalId) && Unused(db.history, r.command) && r.branch in db.branches
  }

  ghost function UpdateDigest(h: Hash, r: UpdateRequest): Text
  {
    h(UpdatePayload(r.branch, r.logicalId, r.version, r.expected))
  }

  /** An update is accepted if and only if it is in order, sees the current revision and its
      snapshot id is free; then it moves the branch to the next revision. */
  lemma UpdateAcceptedExactly(h: Hash, db: Db, r: UpdateRequest, newId: Id)
    ensures var (e, reply) := UpdateBranchReference(h, db, r, newId);
      && (AcceptedBy(reply) <==> UpdateInOrder(db, r) && db.branches[r.branch].revision == r.expected && newId !in db.snapshots)
      && (AcceptedBy(reply) ==>
            && reply == Replied(Accepted, r.expected + 1, Some(newId))
            && e.Appends? && e.branch == r.branch && e.snapshot == newId && e.changed == [Reference(r.logicalId, r.version)] && e.impacts == db.impacts
            && Entered(e.row, r.branch, r.command, ReferenceUpdated, r.expected, r.expected + 1, db.branches[r.branch].current, newId, UpdateDigest(h, r)))
      && (!AcceptedBy(reply) ==> e == Nothing)
  {
    UnusedIsNone(db.history, r.command);
  }

  /** The other answers: stale exactly when only the revision differs, blocked exactly on a store
      that is not ready, rejected for a version of another logical object. */
  lemma UpdateRefusedExactly(h: Hash, db: Db, r: UpdateRequest, newId: Id)
    ensures var reply := UpdateBranchReference(h, db, r, newId).1;
      && (reply.Reply? && reply.status.Stale? <==> UpdateInOrder(db, r) && db.branches[r.branch].revision != r.expected)
      && (reply.Reply? && reply.status.Stale? ==> reply == Replied(Stale, db.branches[r.branch].revision, Some(db.branches[r.branch].current)))
      && (reply.Reply? && reply.status.Blocked? <==> r.expected >= 0 && !db.ready)
      && (db.ready && r.expected >= 0 && r.version in db.versions && !RegisteredUnder(db, r.version, r.logicalId) ==> reply == Replied(Rejected, r.expected, None))
      && (reply.Thrown? <==>
            || r.expected < 0
            || (db.ready && r.version !in db.versions)
            || (db.ready && RegisteredUnder(db, r.version, r.logicalId) && Unused(db.history, r.command) && r.branch !in db.branches)
            || (UpdateInOrder(db, r) && db.branches[r.branch].revision == r.expected && newId in db.snapshots))
  {
    UnusedIsNone(db.history, r.command);
  }

  /** An update under a used command answers with the entry recorded there: as a duplicate when
      the payload hashes agree, else as rejected. */
  lemma UpdateReplayedExactly(h: Hash, db: Db, r: UpdateRequest, newId: Id, row: HistoryRow)
    requires CommandsUnique(db.history) && row in db.history && row.command == r.command
    requires db.ready && r.expected >= 0 && RegisteredUnder(db, r.version, r.logicalId)
    ensures UpdateBranchReference(h, db, r, newId).1
      == Replied(if row.payloadHash == UpdateDigest(h, r) then Duplicate else Rejected, row.resulting, row.destination)
  {
    EntryFound(db.history, row);
  }

  // ------------------------------------------------------------------ promotions

  /** The logical ids a promotion is about. */
  ghost function Asked(db: Db, r: PromotionRequest): set<Id>
    requires r.source in db.branches
  {
    if r.logicalIds.Some? then Elements(r.logicalIds.value) else HeadOf(db, r.source).Keys
  }

  ghost predicate PromotionInOrder(db: Db, r: PromotionRequest)
  {
    && r.source != r.destination && r.expected >= 0 && db.ready && Unused(db.history, r.command)
    && r.source in db.branches && r.destination in db.branches
  }

  /** The two heads agree on all of `ids`. */
  ghost predicate AgreeOn(source: map<Id, Id>, destination: map<Id, Id>, ids: set<Id>)
  {
    forall l :: l in ids && l in source ==> l in destination && destination[l] == source[l]
  }

  /** The payload hash of a promotion: the ids asked for count as a set. */
  ghost function PromotionDigest(h: Hash, r: PromotionRequest): Text
  {
    h(PromotePayload(r.source, r.destination, r.expected,
      if r.logicalIds.Some? then Some(Listing(Elements(r.logicalIds.value))) else None))
  }

  lemma PromotionDigestIs(h: Hash, r: PromotionRequest)
    ensures PromotionHash(h, r) == PromotionDigest(h, r)
  {
    if r.logicalIds.Some? {
      var ids := r.logicalIds.value;
      DistinctKeepsElements(ids);
      SortSorts(Distinct(ids));
      NoDuplicatesPermuted(Distinct(ids), Sort(Distinct(ids)));
      assert Elements(Distinct(ids)) == Elements(ids);
      ListingUnique(Sort(Distinct(ids)));
    }
  }

  lemma {:induction false} DifferingNone(source: map<Id, Id>, destination: map<Id, Id>, ids: seq<Id>)
    requires forall l :: l in ids ==> l in source
    ensures Differing(source, destination, ids) == [] <==> AgreeOn(source, destination, Elements(ids))
  {
    if ids != [] {
      var init, last := ids[..|ids| - 1], ids[|ids| - 1];
      assert ids == init + [last];
      DifferingNone(source, destination, init);
      assert Elements(ids) == Elements(init) + {last};
    }
  }

  lemma AskedIsPromoted(db: Db, r: PromotionRequest)
    requires r.source in db.branches
    ensures Elements(PromotedIds(db, r)) == Asked(db, r)
  {
    if r.logicalIds.Some? {
      var ids := r.logicalIds.value;
      DistinctKeepsElements(ids);
      SortSorts(Distinct(ids));
      NoDuplicatesPermuted(Distinct(ids), Sort(Distinct(ids)));
      assert Elements(Distinct(ids)) == Elements(ids);
    }
  }

  /** A promotion is accepted if and only if it is in order, sees the destination's revision, asks
      only for what the source has, and either changes nothing or has a free snapshot id. It moves
      the destination to the next revision exactly when it changes something. */
  lemma PromotionAcceptedExactly(h: Hash, db: Db, r: PromotionRequest, newId: Id)
    ensures var (e, reply) := PromoteBranch(h, db, r, newId);
      && (AcceptedBy(reply) <==>
            && PromotionInOrder(db, r) && db.branches[r.destination].revision == r.expected
            && Asked(db, r) <= HeadOf(db, r.source).Keys
            && (AgreeOn(HeadOf(db, r.source), HeadOf(db, r.destination), Asked(db, r)) || newId !in db.snapshots))
      && (AcceptedBy(reply) ==>
            var agree := AgreeOn(HeadOf(db, r.source), HeadOf(db, r.destination), Asked(db, r));
            && reply.revision == (if agree then r.expected else r.expected + 1)
            && reply.snapshot == Some(if agree then db.branches[r.destination].current else newId)
            && (if agree then e.Logs? else e.Appends? && e.branch == r.destination && e.snapshot == newId)
            && Entered(e.row, r.destination, r.command, BranchPromoted, r.expected, reply.revision, db.branches[r.source].current, reply.snapshot.value, PromotionDigest(h, r)))
      && (!AcceptedBy(reply) ==> e == Nothing)
  {
    hide ReferencesOf, Differing, ChangeImpacts, Impacted, PromotedIds, Overrides, AgreeOn;
    UnusedIsNone(db.history, r.command);
    PromotionDigestIs(h, r);
    hide PromotionDigest, PromotionHash;
    if PromotionInOrder(db, r) {
      AskedIsPromoted(db, r);
      var ids, source := PromotedIds(db, r), HeadOf(db, r.source);
      assert forall l :: l in ids <==> l in Elements(ids);
      if forall l :: l in ids ==> l in source {
        DifferingNone(source, HeadOf(db, r.destination), ids);
      }
    }
  }

  /** The other answers of a promotion. */
  lemma PromotionRefusedExactly(h: Hash, db: Db, r: PromotionRequest, newId: Id)
    ensures var reply := PromoteBranch(h, db, r, newId).1;
      && (reply.Reply? && reply.status.Stale? <==> PromotionInOrder(db, r) && db.branches[r.destination].revision != r.expected)
      && (reply.Reply? && reply.status.Stale? ==> reply == Replied(Stale, db.branches[r.destination].revision, None))
      && (reply.Reply? && reply.status.Blocked? <==> r.source != r.destination && r.expected >= 0 && !db.ready)
      && (reply == Thrown(PromotionInvalid) <==>
            PromotionInOrder(db, r) && db.branches[r.destination].revision == r.expected && !(Asked(db, r) <= HeadOf(db, r.source).Keys))
  {
    hide ReferencesOf, Differing, ChangeImpacts, Impacted, PromotedIds, Overrides;
    UnusedIsNone(db.history, r.command);
    if PromotionInOrder(db, r) {
      AskedIsPromoted(db, r);
      assert forall l :: l in PromotedIds(db, r) <==> l in Elements(PromotedIds(db, r));
    }
  }

  lemma PromotionReplayedExactly(h: Hash, db: Db, r: PromotionRequest, newId: Id, row: HistoryRow)
    requires CommandsUnique(db.history) && row in db.history && row.command == r.command
    requires r.source != r.destination && r.expected >= 0 && db.ready
    ensures PromoteBranch(h, db, r, newId).1
      == Replied(if row.payloadHash == PromotionDigest(h, r) then Duplicate else Rejected, row.resulting, row.destination)
  {
    PromotionDigestIs(h, r);
    EntryFound(db.history, row);
  }

  // ------------------------------------------------------------------ forks, corrections, discards

  /** A fork succeeds if and only if the store is ready, the parent exists, and the branch id, its
      name and the snapshot id are free and no entry has its command. */
  lemma ForkAcceptedExactly(h: Hash, db: Db, branch: Id, name: Id, parent: Id, newId: Id)
    ensures var (e, reply) := CreateBranch(h, db, branch, name, parent, newId);
      && (AcceptedBy(reply) <==>
            && db.ready && parent in db.branches && branch !in db.branches && newId !in db.snapshots
            && (forall b :: b in db.branches ==> db.branches[b].name != name)
            && Unused(db.history, T("branch-create-") + branch))
      && (AcceptedBy(reply) ==>
            && reply == Replied(Accepted, 0, Some(newId))
            && e.Forks? && e.branch == branch && e.name == name && e.parentSnapshot == db.branches[parent].current && e.snapshot == newId
            && Entered(e.row, branch, T("branch-create-") + branch, BranchCreated, 0, 0, db.branches[parent].current, newId, h(CreatePayload(branch, name, parent))))
      && (!AcceptedBy(reply) ==> e == Nothing && reply == Thrown(if !db.ready then ReadOnly else if parent !in db.branches then BranchNotFound else ConstraintViolated))
  {
    hide T;
    UnusedIsNone(db.history, CreateCommand(branch));
  }

  /** A correction answers with rows if and only if the store is ready, the notice says something,
      the version is registered, and its command is unused or was used for the same correction. */
  lemma CorrectionAcceptedExactly(h: Hash, db: Db, r: CorrectionRequest)
    requires CommandsUnique(db.history)
    ensures var (e, reply) := RecordCorrection(h, db, r);
      && (reply.Impacts? <==>
            && db.ready && !IsBlank(r.notice) && r.version in db.versions
            && forall row :: row in db.history && row.command == r.command ==> row.payloadHash == h(CorrectionPayload(r.version, r.notice)))
      && (e.Corrects? <==> reply.Impacts? && Unused(db.history, r.command))
      && (e.Corrects? ==> e.row == HistoryRow(None, r.command, SourceCorrected, 0, 0, None, None, h(CorrectionPayload(r.version, r.notice))))
      && (!e.Corrects? ==> e == Nothing)
  {
    hide CorrectionImpacts, IsBlank;
    UnusedIsNone(db.history, r.command);
    if !Unused(db.history, r.command) {
      var i :| 0 <= i < |db.history| && db.history[i].command == r.command;
      EntryFound(db.history, db.history[i]);
      forall row | row in db.history && row.command == r.command ensures Command(db.history, r.command) == Some(row) {
        EntryFound(db.history, row);
      }
    } else {
      forall row | row in db.history ensures row.command != r.command {
        var i :| 0 <= i < |db.history| && db.history[i] == row;
      }
    }
  }

  /** A version is dropped if and only if the store is ready, it is registered, no dependency
      touches it and no reference, impact row or other table holds it. */
  lemma DiscardedExactly(db: Db, id: Id, heldElsewhere: bool)
    ensures var (e, reply) := DiscardRow(db, id, heldElsewhere);
      && (e == DropsVersion(id) <==>
            && db.ready && id in db.versions && !heldElsewhere
            && (forall d :: d in db.dependencies ==> d.artifact != id && d.dependency != id)
            && (forall k :: k in db.references ==> db.references[k] != id)
            && (forall k :: k in db.impacts ==> k.dependent != id && db.impacts[k].source != id))
      && (e != DropsVersion(id) ==> e == Nothing)
      && (reply.Done? <==> e == DropsVersion(id) || (db.ready && id !in db.versions))
  {
    if TouchedByDependency(db.dependencies, id) {
      var i :| 0 <= i < |db.dependencies| && (db.dependencies[i].artifact == id || db.dependencies[i].dependency == id);
      assert db.dependencies[i] in db.dependencies;
    }
  }
}
