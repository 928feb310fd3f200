/** What every transaction keeps, proved once per effect. */
module Invariants {
  import opened Texts
  import opened Graph
  import opened Tables
  import opened Branches

  type Snapshots = map<Id, SnapshotRow>

  /** `s` is the snapshot of `branch` at revision `n`, and its parents are the snapshots of
      that branch at n-1, ..., 0, the last of which hangs from `fork`. */
  ghost predicate Anchored(snapshots: Snapshots, branch: Id, s: Id, n: nat, fork: Option<Id>)
    decreases n
  {
    && s in snapshots && snapshots[s].branch == branch && snapshots[s].revision == n
    && if n == 0 then snapshots[s].parent == fork
       else snapshots[s].parent.Some? && Anchored(snapshots, branch, snapshots[s].parent.value, n - 1, fork)
  }

  /** Walking parents from `s` ends at a snapshot without a parent after `n` steps. */
  ghost predicate RootedIn(snapshots: Snapshots, s: Id, n: nat)
    decreases n
  {
    && s in snapshots
    && if n == 0 then snapshots[s].parent.None?
       else snapshots[s].parent.Some? && RootedIn(snapshots, snapshots[s].parent.value, n - 1)
  }

  ghost predicate Rooted(snapshots: Snapshots, s: Id)
  {
    exists n: nat :: RootedIn(snapshots, s, n)
  }

  ghost predicate HeadAnchored(branches: map<Id, BranchRow>, snapshots: Snapshots, b: Id)
    requires b in branches
  {
    && Anchored(snapshots, b, branches[b].current, branches[b].revision, branches[b].parentSnapshot)
    && (branches[b].parentSnapshot.Some? ==> branches[b].parentSnapshot.value in snapshots)
  }

  ghost predicate BranchesAnchored(branches: map<Id, BranchRow>, snapshots: Snapshots)
  {
    forall b {:trigger HeadAnchored(branches, snapshots, b)} :: b in branches ==> HeadAnchored(branches, snapshots, b)
  }

  ghost predicate Owned(branches: map<Id, BranchRow>, snapshots: Snapshots, s: Id)
    requires s in snapshots
  {
    snapshots[s].branch in branches && snapshots[s].revision <= branches[snapshots[s].branch].revision
  }

  ghost predicate SnapshotsOwned(branches: map<Id, BranchRow>, snapshots: Snapshots)
  {
    forall s {:trigger Owned(branches, snapshots, s)} :: s in snapshots ==> Owned(branches, snapshots, s)
  }

  /** Two snapshots of one branch at one revision. */
  ghost predicate Clash(snapshots: Snapshots, s: Id, t: Id)
  {
    && s in snapshots && t in snapshots && s != t
    && snapshots[s].branch == snapshots[t].branch && snapshots[s].revision == snapshots[t].revision
  }

  ghost predicate OnePerRevision(snapshots: Snapshots)
  {
    forall s, t {:trigger Clash(snapshots, s, t)} :: !Clash(snapshots, s, t)
  }

  ghost predicate SnapshotsRooted(snapshots: Snapshots)
  {
    forall s {:trigger Rooted(snapshots, s)} :: s in snapshots ==> Rooted(snapshots, s)
  }

  ghost predicate Typed(snapshots: Snapshots, references: map<(Id, Id), Id>, versions: map<Id, VersionRow>, k: (Id, Id))
    requires k in references
  {
    k.0 in snapshots && references[k] in versions && versions[references[k]].logicalId == k.1
  }

  /** Every reference belongs to a snapshot and maps a logical id to a version registered under it. */
  ghost predicate ReferencesTyped(snapshots: Snapshots, references: map<(Id, Id), Id>, versions: map<Id, VersionRow>)
  {
    forall k {:trigger Typed(snapshots, references, versions, k)} :: k in references ==> Typed(snapshots, references, versions, k)
  }

  ghost predicate Repeats(history: seq<HistoryRow>, i: int, j: int)
  {
    0 <= i < j < |history| && history[i].command == history[j].command
  }

  ghost predicate CommandsUnique(history: seq<HistoryRow>)
  {
    forall i, j {:trigger Repeats(history, i, j)} :: !Repeats(history, i, j)
  }

  /** The entries of `branch` chain: the first expects revision 0, each later one expects the
      revision the one before it resulted in, and the last results in `n`. */
  ghost predicate Chained(history: seq<HistoryRow>, branch: Id, n: nat)
  {
    if history == [] then n == 0 else
    var last := history[|history| - 1];
    if last.branch == Some(branch) then last.resulting == n && Chained(history[..|history| - 1], branch, last.expected)
    else Chained(history[..|history| - 1], branch, n)
  }

  /** An entry of a branch names the snapshot of the revision it resulted in. */
  ghost predicate Witnessed(branches: map<Id, BranchRow>, snapshots: Snapshots, row: HistoryRow)
  {
    row.branch.Some? ==>
      && row.branch.value in branches
      && row.destination.Some? && row.destination.value in snapshots
      && snapshots[row.destination.value].branch == row.branch.value
      && snapshots[row.destination.value].revision == row.resulting
  }

  ghost predicate AllWitnessed(branches: map<Id, BranchRow>, snapshots: Snapshots, history: seq<HistoryRow>)
  {
    forall i {:trigger Witnessed(branches, snapshots, history[i])} :: 0 <= i < |history| ==> Witnessed(branches, snapshots, history[i])
  }

  ghost predicate AllChained(branches: map<Id, BranchRow>, history: seq<HistoryRow>)
  {
    forall b {:trigger Chained(history, b, branches[b].revision)} :: b in branches ==> Chained(history, b, branches[b].revision)
  }

  ghost predicate GraphKept(dependencies: seq<DependencyRow>, versions: map<Id, VersionRow>)
  {
    Acyclic(dependencies) && ClosedOver(dependencies, versions.Keys) && [] !in versions
  }

  ghost predicate LoggedKey(history: seq<HistoryRow>, k: ImpactKey)
  {
    Command(history, k.command).Some?
  }

  /** Impact is only ever recorded under a command the history knows. */
  ghost predicate ImpactsLogged(impacts: map<ImpactKey, ImpactRow>, history: seq<HistoryRow>)
  {
    forall k {:trigger LoggedKey(history, k)} :: k in impacts ==> LoggedKey(history, k)
  }

  ghost predicate Kept(db: Db)
  {
    && BranchesAnchored(db.branches, db.snapshots)
    && SnapshotsOwned(db.branches, db.snapshots)
    && OnePerRevision(db.snapshots)
    && SnapshotsRooted(db.snapshots)
    && ReferencesTyped(db.snapshots, db.references, db.versions)
    && CommandsUnique(db.history)
    && AllWitnessed(db.branches, db.snapshots, db.history)
    && AllChained(db.branches, db.history)
    && GraphKept(db.dependencies, db.versions)
    && ImpactsLogged(db.impacts, db.history)
  }

  // -------------------------------------------------------------- growth

  /** Earlier impact rows stay, and a command once in the history gains none. */
  ghost predicate ImpactsGrow(history: seq<HistoryRow>, impacts: map<ImpactKey, ImpactRow>, later: map<ImpactKey, ImpactRow>)
  {
    && (forall k :: k in impacts ==> k in later && later[k] == impacts[k])
    && (forall k {:trigger LoggedKey(history, k)} :: k in later && LoggedKey(history, k) ==> k in impacts)
  }

  /** Earlier impact rows stay, and new ones are under `command`. */
  ghost predicate AddsImpactsUnder(command: Id, impacts: map<ImpactKey, ImpactRow>, later: map<ImpactKey, ImpactRow>)
  {
    && (forall k :: k in impacts ==> k in later && later[k] == impacts[k])
    && (forall k :: k in later ==> k in impacts || k.command == command)
  }

  ghost predicate SnapshotsGrow(snapshots: Snapshots, later: Snapshots)
  {
    forall s :: s in snapshots ==> s in later && later[s] == snapshots[s]
  }

  ghost predicate ReferencesGrow(snapshots: Snapshots, references: map<(Id, Id), Id>, later: map<(Id, Id), Id>)
  {
    && (forall k :: k in references ==> k in later && later[k] == references[k])
    && (forall k :: k in later && k.0 in snapshots ==> k in references)
  }

  ghost predicate BranchesAdvance(branches: map<Id, BranchRow>, later: map<Id, BranchRow>)
  {
    forall b :: b in branches ==>
      b in later && branches[b].revision <= later[b].revision && later[b].parentSnapshot == branches[b].parentSnapshot
  }

  ghost predicate ReferencedHeld(references: map<(Id, Id), Id>, versions: map<Id, VersionRow>, later: map<Id, VersionRow>)
  {
    forall k :: k in references && references[k] in versions ==>
      references[k] in later && later[references[k]] == versions[references[k]]
  }

  /** Snapshots and their references are immutable: later states only add to them. */
  ghost predicate Grows(db: Db, later: Db)
  {
    && SnapshotsGrow(db.snapshots, later.snapshots)
    && ReferencesGrow(db.snapshots, db.references, later.references)
    && BranchesAdvance(db.branches, later.branches)
    && ReferencedHeld(db.references, db.versions, later.versions)
    && db.history <= later.history
    && ImpactsGrow(db.history, db.impacts, later.impacts)
    && later.ready == db.ready
  }

  lemma LoggedLater(history: seq<HistoryRow>, later: seq<HistoryRow>, command: Id)
    requires history <= later && Command(history, command).Some?
    ensures Command(later, command).Some?
  {
    var row := Command(history, command).value;
    var i :| 0 <= i < |history| && history[i] == row;
    assert later[i] == history[i];
  }

  lemma ImpactsGrowTransitive(a: seq<HistoryRow>, b: seq<HistoryRow>, x: map<ImpactKey, ImpactRow>, y: map<ImpactKey, ImpactRow>, z: map<ImpactKey, ImpactRow>)
    requires a <= b && ImpactsGrow(a, x, y) && ImpactsGrow(b, y, z)
    ensures ImpactsGrow(a, x, z)
  {
    forall k | k in z && LoggedKey(a, k) ensures k in x {
      LoggedLater(a, b, k.command);
      assert LoggedKey(b, k);
    }
  }

  lemma ImpactsUnderLogged(history: seq<HistoryRow>, row: HistoryRow, impacts: map<ImpactKey, ImpactRow>, later: map<ImpactKey, ImpactRow>)
    requires ImpactsLogged(impacts, history) && Command(history, row.command).None? && AddsImpactsUnder(row.command, impacts, later)
    ensures ImpactsLogged(later, history + [row]) && ImpactsGrow(history, impacts, later)
  {
    forall k | k in later ensures LoggedKey(history + [row], k) {
      if k in impacts {
        assert LoggedKey(history, k);
        LoggedLater(history, history + [row], k.command);
      } else {
        assert (history + [row])[|history|].command == k.command;
      }
    }
  }

  lemma GrowsTransitive(a: Db, b: Db, c: Db)
    requires Grows(a, b) && Grows(b, c)
    ensures Grows(a, c)
  {
    assert ReferencesGrow(a.snapshots, a.references, c.references);
    assert ReferencedHeld(a.references, a.versions, c.versions);
    ImpactsGrowTransitive(a.history, b.history, a.impacts, b.impacts, c.impacts);
  }

  lemma ReferencesStable(snapshots: Snapshots, references: map<(Id, Id), Id>, later: map<(Id, Id), Id>, s: Id)
    requires ReferencesGrow(snapshots, references, later) && s in snapshots
    ensures ReferencesOf(later, s) == ReferencesOf(references, s)
  {
    ReferencesOfKeys(references, s);
    ReferencesOfKeys(later, s);
    var old_map, new_map := ReferencesOf(references, s), ReferencesOf(later, s);
    forall l ensures l in old_map <==> l in new_map {
      assert l in new_map <==> (s, l) in later;
      assert l in old_map <==> (s, l) in references;
    }
  }

  lemma {:induction false} AnchoredStable(a: Snapshots, b: Snapshots, branch: Id, s: Id, n: nat, fork: Option<Id>)
    requires Anchored(a, branch, s, n, fork)
    requires forall t :: t in a ==> t in b && b[t] == a[t]
    ensures Anchored(b, branch, s, n, fork)
    decreases n
  {
    if n > 0 {
      AnchoredStable(a, b, branch, a[s].parent.value, n - 1, fork);
    }
  }

  lemma {:induction false} RootedStable(a: Snapshots, b: Snapshots, s: Id, n: nat)
    requires RootedIn(a, s, n)
    requires forall t :: t in a ==> t in b && b[t] == a[t]
    ensures RootedIn(b, s, n)
    decreases n
  {
    if n > 0 {
      RootedStable(a, b, a[s].parent.value, n - 1);
    }
  }

  lemma CommandsUniqueAppend(history: seq<HistoryRow>, row: HistoryRow)
    requires CommandsUnique(history) && Command(history, row.command).None?
    ensures CommandsUnique(history + [row])
  {
    forall i, j ensures !Repeats(history + [row], i, j) {
      assert !Repeats(history, i, j);
    }
  }

  lemma ChainedAppend(history: seq<HistoryRow>, row: HistoryRow, branch: Id, n: nat)
    requires if row.branch == Some(branch) then row.resulting == n && Chained(history, branch, row.expected) else Chained(history, branch, n)
    ensures Chained(history + [row], branch, n)
  {
    assert (history + [row])[..|history|] == history;
  }

  lemma {:induction false} ChainedAbsent(history: seq<HistoryRow>, branch: Id)
    requires forall i :: 0 <= i < |history| ==> history[i].branch != Some(branch)
    ensures Chained(history, branch, 0)
  {
    if history != [] {
      ChainedAbsent(history[..|history| - 1], branch);
    }
  }

  // ---------------------------------------------- what each effect may assume

  /** The facts the deciding code has established when it writes. */
  ghost predicate Allowed(db: Db, e: Effect)
  {
    match e
    case Nothing => true
    case Logs(row) =>
      && Command(db.history, row.command).None?
      && row.branch.Some? && row.branch.value in db.branches
      && row.expected == row.resulting == db.branches[row.branch.value].revision
      && row.destination == Some(db.branches[row.branch.value].current)
    case Forks(b, name, parent, s, row) =>
      && Command(db.history, row.command).None?
      && b !in db.branches && s !in db.snapshots && parent in db.snapshots
      && row.branch == Some(b) && row.expected == row.resulting == 0 && row.destination == Some(s)
    case Appends(b, s, changed, impacts, row) =>
      && Command(db.history, row.command).None?
      && b in db.branches && s !in db.snapshots
      && (forall i :: 0 <= i < |changed| ==>
            changed[i].version in db.versions && db.versions[changed[i].version].logicalId == changed[i].logicalId)
      && row.branch == Some(b) && row.expected == db.branches[b].revision && row.resulting == row.expected + 1
      && row.destination == Some(s)
      && AddsImpactsUnder(row.command, db.impacts, impacts)
    case Corrects(impacts, row) =>
      Command(db.history, row.command).None? && row.branch.None? && AddsImpactsUnder(row.command, db.impacts, impacts)
    case AddsVersion(id, v, deps) =>
      && id !in db.versions && id != []
      && (forall i :: 0 <= i < |deps| ==> deps[i].artifact == id && deps[i].dependency in db.versions)
    case DropsVersion(id) =>
      && (forall i :: 0 <= i < |db.dependencies| ==> db.dependencies[i].artifact != id && db.dependencies[i].dependency != id)
      && (forall k :: k in db.references ==> db.references[k] != id)
  }

  lemma {:induction false} OverridesTyped(changed: seq<Reference>, l: Id)
    requires l in Overrides(changed)
    ensures exists i :: 0 <= i < |changed| && changed[i] == Reference(l, Overrides(changed)[l])
  {
    var last := changed[|changed| - 1];
    if last.logicalId != l {
      OverridesTyped(changed[..|changed| - 1], l);
      var i :| 0 <= i < |changed| - 1 && changed[..|changed| - 1][i] == Reference(l, Overrides(changed)[l]);
      assert changed[i] == Reference(l, Overrides(changed)[l]);
    }
  }

  lemma RowsOfKeys(s: Id, m: map<Id, Id>)
    ensures forall k :: k in RowsOf(s, m) <==> k.0 == s && k.1 in m
    ensures forall k :: k in RowsOf(s, m) ==> RowsOf(s, m)[k] == m[k.1]
  {
  }

  lemma ReferencesOfKeys(references: map<(Id, Id), Id>, s: Id)
    ensures forall l :: l in ReferencesOf(references, s) <==> (s, l) in references
    ensures forall l :: l in ReferencesOf(references, s) ==> ReferencesOf(references, s)[l] == references[(s, l)]
  {
  }

  /** A snapshot's rows, once written, read back as the map they were made from. */
  lemma RowsReadBack(references: map<(Id, Id), Id>, s: Id, m: map<Id, Id>)
    requires forall k :: k in references ==> k.0 != s
    ensures ReferencesOf(references + RowsOf(s, m), s) == m
  {
    RowsOfKeys(s, m);
    ReferencesOfKeys(references + RowsOf(s, m), s);
    forall l ensures l in ReferencesOf(references + RowsOf(s, m), s) <==> l in m {
      assert (s, l) in references + RowsOf(s, m) <==> (s, l) in RowsOf(s, m);
    }
  }

  /** `later` has one more snapshot `s`, holding `m`, which is the new head of branch `b`. */
  ghost predicate AddsSnapshot(db: Db, later: Db, b: Id, s: Id, m: map<Id, Id>)
  {
    && s !in db.snapshots && b in later.branches && later.branches[b].current == s
    && later.branches == db.branches[b := later.branches[b]]
    && s in later.snapshots && later.snapshots == db.snapshots[s := later.snapshots[s]]
    && later.snapshots[s].branch == b && later.snapshots[s].revision == later.branches[b].revision
    && later.references == db.references + RowsOf(s, m)
    && (b in db.branches ==>
      && later.branches[b].revision == db.branches[b].revision + 1
      && later.branches[b].parentSnapshot == db.branches[b].parentSnapshot
      && later.snapshots[s].parent == Some(db.branches[b].current))
    && (b !in db.branches ==>
      && later.branches[b].revision == 0
      && later.snapshots[s].parent == later.branches[b].parentSnapshot
      && later.snapshots[s].parent.Some? && later.snapshots[s].parent.value in db.snapshots)
  }

  /** Writing the rows of a new snapshot alters no other one. */
  lemma NewRowsGrow(snapshots: Snapshots, references: map<(Id, Id), Id>, s: Id, m: map<Id, Id>)
    requires s !in snapshots && forall k :: k in references ==> k.0 in snapshots
    ensures ReferencesGrow(snapshots, references, references + RowsOf(s, m))
    ensures ReferencesOf(references + RowsOf(s, m), s) == m
  {
    RowsOfKeys(s, m);
    RowsReadBack(references, s, m);
  }

  lemma ReferencesOwned(snapshots: Snapshots, references: map<(Id, Id), Id>, versions: map<Id, VersionRow>)
    requires ReferencesTyped(snapshots, references, versions)
    ensures forall k :: k in references ==> k.0 in snapshots
  {
    forall k | k in references ensures k.0 in snapshots {
      assert Typed(snapshots, references, versions, k);
    }
  }

  lemma AddsSnapshotGrows(db: Db, later: Db, b: Id, s: Id, m: map<Id, Id>)
    requires ReferencesTyped(db.snapshots, db.references, db.versions) && AddsSnapshot(db, later, b, s, m)
    ensures SnapshotsGrow(db.snapshots, later.snapshots)
    ensures ReferencesGrow(db.snapshots, db.references, later.references)
    ensures BranchesAdvance(db.branches, later.branches)
    ensures ReferencesOf(later.references, s) == m
  {
    ReferencesOwned(db.snapshots, db.references, db.versions);
    NewRowsGrow(db.snapshots, db.references, s, m);
  }

  lemma AddsSnapshotAnchored(db: Db, later: Db, b: Id, s: Id, m: map<Id, Id>)
    requires BranchesAnchored(db.branches, db.snapshots) && AddsSnapshot(db, later, b, s, m)
    ensures BranchesAnchored(later.branches, later.snapshots)
  {
    forall c | c in later.branches ensures HeadAnchored(later.branches, later.snapshots, c) {
      if c in db.branches {
        assert HeadAnchored(db.branches, db.snapshots, c);
        AnchoredStable(db.snapshots, later.snapshots, c, db.branches[c].current, db.branches[c].revision, db.branches[c].parentSnapshot);
      }
    }
  }

  lemma AddsSnapshotOwned(db: Db, later: Db, b: Id, s: Id, m: map<Id, Id>)
    requires SnapshotsOwned(db.branches, db.snapshots) && OnePerRevision(db.snapshots) && AddsSnapshot(db, later, b, s, m)
    ensures SnapshotsOwned(later.branches, later.snapshots) && OnePerRevision(later.snapshots)
  {
    forall t | t in later.snapshots ensures Owned(later.branches, later.snapshots, t) {
      assert t != s ==> Owned(db.branches, db.snapshots, t);
    }
    forall t, u ensures !Clash(later.snapshots, t, u) {
      assert !Clash(db.snapshots, t, u);
      assert t in db.snapshots ==> Owned(db.branches, db.snapshots, t);
      assert u in db.snapshots ==> Owned(db.branches, db.snapshots, u);
    }
  }

  lemma AddsSnapshotRooted(db: Db, later: Db, b: Id, s: Id, m: map<Id, Id>)
    requires BranchesAnchored(db.branches, db.snapshots) && SnapshotsRooted(db.snapshots) && AddsSnapshot(db, later, b, s, m)
    ensures SnapshotsRooted(later.snapshots)
  {
    forall t | t in db.snapshots ensures Rooted(later.snapshots, t) {
      assert Rooted(db.snapshots, t);
      var n: nat :| RootedIn(db.snapshots, t, n);
      RootedStable(db.snapshots, later.snapshots, t, n);
    }
    assert b in db.branches ==> HeadAnchored(db.branches, db.snapshots, b);
    var parent := later.snapshots[s].parent.value;
    assert parent in db.snapshots && Rooted(later.snapshots, parent);
    var n: nat :| RootedIn(later.snapshots, parent, n);
    assert RootedIn(later.snapshots, s, n + 1);
  }

  lemma AddsSnapshotTyped(db: Db, later: Db, b: Id, s: Id, m: map<Id, Id>)
    requires ReferencesTyped(db.snapshots, db.references, db.versions) && AddsSnapshot(db, later, b, s, m)
    requires forall l :: l in m ==> m[l] in db.versions && db.versions[m[l]].logicalId == l
    ensures ReferencesTyped(later.snapshots, later.references, db.versions)
  {
    RowsOfKeys(s, m);
    forall k | k in later.references ensures Typed(later.snapshots, later.references, db.versions, k) {
      if k !in RowsOf(s, m) {
        assert Typed(db.snapshots, db.references, db.versions, k);
      }
    }
  }

  lemma AddsSnapshotWitnessed(db: Db, later: Db, b: Id, s: Id, m: map<Id, Id>, row: HistoryRow)
    requires AllWitnessed(db.branches, db.snapshots, db.history) && AddsSnapshot(db, later, b, s, m)
    requires row.branch == Some(b) && row.destination == Some(s) && row.resulting == later.branches[b].revision
    ensures AllWitnessed(later.branches, later.snapshots, db.history + [row])
  {
    forall i | 0 <= i < |db.history| ensures Witnessed(later.branches, later.snapshots, db.history[i]) {
      assert Witnessed(db.branches, db.snapshots, db.history[i]);
    }
  }

  lemma AddsSnapshotChained(db: Db, later: Db, b: Id, s: Id, m: map<Id, Id>, row: HistoryRow)
    requires AllWitnessed(db.branches, db.snapshots, db.history) && AllChained(db.branches, db.history)
    requires AddsSnapshot(db, later, b, s, m)
    requires row.branch == Some(b) && row.resulting == later.branches[b].revision
    requires row.expected == if b in db.branches then db.branches[b].revision else 0
    ensures AllChained(later.branches, db.history + [row])
  {
    forall c | c in later.branches ensures Chained(db.history + [row], c, later.branches[c].revision) {
      if c !in db.branches {
        forall i | 0 <= i < |db.history| ensures db.history[i].branch != Some(c) {
          assert Witnessed(db.branches, db.snapshots, db.history[i]);
        }
        ChainedAbsent(db.history, c);
      }
      ChainedAppend(db.history, row, c, later.branches[c].revision);
    }
  }

  lemma AddsSnapshotKeeps(db: Db, later: Db, b: Id, s: Id, m: map<Id, Id>, row: HistoryRow)
    requires Kept(db) && AddsSnapshot(db, later, b, s, m) && later.history == db.history + [row]
    requires later.versions == db.versions && later.ready == db.ready && later.dependencies == db.dependencies
    requires Command(db.history, row.command).None? && row.branch == Some(b) && row.destination == Some(s)
    requires AddsImpactsUnder(row.command, db.impacts, later.impacts)
    requires row.resulting == later.branches[b].revision
    requires row.expected == if b in db.branches then db.branches[b].revision else 0
    requires forall l :: l in m ==> m[l] in db.versions && db.versions[m[l]].logicalId == l
    ensures Kept(later) && Grows(db, later)
    ensures ReferencesOf(later.references, s) == m
  {
    AddsSnapshotGrows(db, later, b, s, m);
    AddsSnapshotAnchored(db, later, b, s, m);
    AddsSnapshotOwned(db, later, b, s, m);
    AddsSnapshotRooted(db, later, b, s, m);
    AddsSnapshotTyped(db, later, b, s, m);
    AddsSnapshotWitnessed(db, later, b, s, m, row);
    AddsSnapshotChained(db, later, b, s, m, row);
    CommandsUniqueAppend(db.history, row);
    ImpactsUnderLogged(db.history, row, db.impacts, later.impacts);
  }

  lemma MapTyped(db: Db, s: Id)
    requires ReferencesTyped(db.snapshots, db.references, db.versions)
    ensures var m := ReferencesOf(db.references, s);
      forall l :: l in m ==> m[l] in db.versions && db.versions[m[l]].logicalId == l
  {
    ReferencesOfKeys(db.references, s);
    var m := ReferencesOf(db.references, s);
    forall l | l in m ensures m[l] in db.versions && db.versions[m[l]].logicalId == l {
      assert Typed(db.snapshots, db.references, db.versions, (s, l));
    }
  }

  lemma AppendsKeeps(db: Db, e: Effect)
    requires Kept(db) && Allowed(db, e) && e.Appends?
    ensures Kept(Apply(db, e)) && Grows(db, Apply(db, e))
    ensures ReferencesOf(Apply(db, e).references, e.snapshot)
      == ReferencesOf(db.references, db.branches[e.branch].current) + Overrides(e.changed)
  {
    var m := ReferencesOf(db.references, db.branches[e.branch].current);
    MapTyped(db, db.branches[e.branch].current);
    forall l | l in Overrides(e.changed)
      ensures Overrides(e.changed)[l] in db.versions && db.versions[Overrides(e.changed)[l]].logicalId == l
    {
      OverridesTyped(e.changed, l);
    }
    AddsSnapshotKeeps(db, Apply(db, e), e.branch, e.snapshot, m + Overrides(e.changed), e.row);
  }

  lemma ForksKeeps(db: Db, e: Effect)
    requires Kept(db) && Allowed(db, e) && e.Forks?
    ensures Kept(Apply(db, e)) && Grows(db, Apply(db, e))
    ensures ReferencesOf(Apply(db, e).references, e.snapshot) == ReferencesOf(db.references, e.parentSnapshot)
  {
    MapTyped(db, e.parentSnapshot);
    AddsSnapshotKeeps(db, Apply(db, e), e.branch, e.snapshot, ReferencesOf(db.references, e.parentSnapshot), e.row);
  }

  lemma LogsWitnessed(db: Db, row: HistoryRow)
    requires BranchesAnchored(db.branches, db.snapshots) && AllWitnessed(db.branches, db.snapshots, db.history)
    requires row.branch.Some? ==>
      && row.branch.value in db.branches && row.resulting == db.branches[row.branch.value].revision
      && row.destination == Some(db.branches[row.branch.value].current)
    ensures AllWitnessed(db.branches, db.snapshots, db.history + [row])
  {
    if row.branch.Some? {
      assert HeadAnchored(db.branches, db.snapshots, row.branch.value);
    }
  }

  lemma LogsChained(db: Db, row: HistoryRow)
    requires AllChained(db.branches, db.history)
    requires row.branch.Some? ==>
      && row.branch.value in db.branches && row.resulting == row.expected == db.branches[row.branch.value].revision
    ensures AllChained(db.branches, db.history + [row])
  {
    forall b | b in db.branches ensures Chained(db.history + [row], b, db.branches[b].revision) {
      ChainedAppend(db.history, row, b, db.branches[b].revision);
    }
  }

  lemma LogsKeeps(db: Db, e: Effect)
    requires Kept(db) && Allowed(db, e) && (e.Logs? || e.Corrects?)
    ensures Kept(Apply(db, e)) && Grows(db, Apply(db, e))
  {
    LogsWitnessed(db, e.row);
    LogsChained(db, e.row);
    CommandsUniqueAppend(db.history, e.row);
    ImpactsUnderLogged(db.history, e.row, db.impacts, Apply(db, e).impacts);
  }

  lemma AddsVersionKeeps(db: Db, e: Effect)
    requires Kept(db) && Allowed(db, e) && e.AddsVersion?
    ensures Kept(Apply(db, e)) && Grows(db, Apply(db, e))
  {
    var later := Apply(db, e);
    NewVersionKeepsAcyclic(db.dependencies, e.dependencies, db.versions.Keys, e.id);
    assert later.versions.Keys == db.versions.Keys + {e.id};
    forall k | k in db.references ensures Typed(db.snapshots, db.references, later.versions, k) {
      assert Typed(db.snapshots, db.references, db.versions, k);
    }
    assert ReferencedHeld(db.references, db.versions, later.versions);
  }

  lemma DropsVersionKeeps(db: Db, e: Effect)
    requires Kept(db) && Allowed(db, e) && e.DropsVersion?
    ensures Kept(Apply(db, e)) && Grows(db, Apply(db, e))
  {
    var later := Apply(db, e);
    forall k | k in db.references ensures Typed(db.snapshots, db.references, later.versions, k) {
      assert Typed(db.snapshots, db.references, db.versions, k);
    }
    assert ReferencedHeld(db.references, db.versions, later.versions);
    assert ClosedOver(later.dependencies, later.versions.Keys);
  }

  /** Every allowed effect keeps every invariant and alters nothing already recorded. */
  lemma EffectKeeps(db: Db, e: Effect)
    requires Kept(db) && Allowed(db, e)
    ensures Kept(Apply(db, e)) && Grows(db, Apply(db, e))
  {
    match e
    case Nothing =>
    case Appends(_, _, _, _, _) => AppendsKeeps(db, e);
    case Forks(_, _, _, _, _) => ForksKeeps(db, e);
    case Logs(_) => LogsKeeps(db, e);
    case Corrects(_, _) => LogsKeeps(db, e);
    case AddsVersion(_, _, _) => AddsVersionKeeps(db, e);
    case DropsVersion(_) => DropsVersionKeeps(db, e);
  }
}
