/** Artifact registration, discard and the recovery sweep as the store runs them: staged file
    operations with a cleanup on exceptions, and rows written inside one transaction. */
module ArtifactStore {
  import opened Texts
  import opened Graph
  import opened Tables
  import opened Branches
  import opened Registration
  import opened Artifacts

  class Disk {
    var files: Files

    constructor (files: Files)
      ensures this.files == files
    {
      this.files := files;
    }
  }

  /** The row and its dependency rows, undone together when a statement throws. */
  method InsertArtifact(handle: Handle, id: Id, v: VersionRow, inputs: seq<DependencyInput>) returns (reply: Reply)
    modifies handle`db
    ensures handle.db == Apply(old(handle.db), RegisterRow(old(handle.db), id, v, inputs).0)
    ensures reply == RegisterRow(old(handle.db), id, v, inputs).1
  {
    if !handle.db.ready { return Thrown(ReadOnly); }
    if id == [] { return Thrown(InvalidIdentifier); }
    if id in handle.db.versions || LabelTaken(handle.db.versions, v) { return Thrown(ConstraintViolated); }
    var before := handle.db;
    handle.db := handle.db.(versions := handle.db.versions[id := v]);
    var error := InsertDependencies(handle, id, v, inputs, before);
    if error.Some? {
      handle.db := before;
      return Thrown(error.value);
    }
    reply := Done;
  }

  /** A dependency row already in the table with this artifact is one inserted by this loop. */
  method InsertDependencies(handle: Handle, id: Id, v: VersionRow, inputs: seq<DependencyInput>, ghost before: Db) returns (error: Option<Error>)
    requires id !in before.versions && handle.db == before.(versions := before.versions[id := v])
    modifies handle`db
    ensures var rows := DependencyRows(before.versions, id, inputs);
      if rows.BadRows? then error == Some(rows.error)
      else error == None && handle.db == before.(versions := before.versions[id := v], dependencies := before.dependencies + rows.rows)
  {
    hide IsBlank, RelationOf;
    var inserted: seq<DependencyRow> := [];
    for i := 0 to |inputs|
      invariant DependencyRows(before.versions, id, inputs[..i]) == Rows(inserted)
      invariant handle.db == before.(versions := before.versions[id := v], dependencies := before.dependencies + inserted)
    {
      FailureIsFinal(before.versions, id, inputs, i + 1);
      assert inputs[..i + 1][..i] == inputs[..i];
      var d := inputs[i];
      if d.version == id || IsBlank(RelationOf(d)) { return Some(InvalidDependency); }
      if d.version !in handle.db.versions { return Some(DependencyNotFound); }
      var row := DependencyRow(id, d.version, RelationOf(d));
      if row in inserted { return Some(ConstraintViolated); }
      handle.db := handle.db.(dependencies := handle.db.dependencies + [row]);
      inserted := inserted + [row];
    }
    assert inputs[..|inputs|] == inputs;
    error := None;
  }

  /** The first throwing round decides. */
  lemma {:induction false} FailureIsFinal(versions: map<Id, VersionRow>, id: Id, inputs: seq<DependencyInput>, n: nat)
    requires n <= |inputs|
    ensures DependencyRows(versions, id, inputs[..n]).BadRows? ==> DependencyRows(versions, id, inputs) == DependencyRows(versions, id, inputs[..n])
    decreases |inputs|
  {
    if n < |inputs| {
      var init := inputs[..|inputs| - 1];
      assert init[..n] == inputs[..n];
      FailureIsFinal(versions, id, init, n);
    } else {
      assert inputs[..n] == inputs;
    }
  }

  /** The write of the temporary file, the hard link and the removal of the temporary file.
      `finalized` tells whether the link was made when an exception or a crash gets in. */
  method StageFile(disk: Disk, temporary: Text, final: Text, content: Bytes, fault: Fault) returns (progress: Progress, finalized: bool)
    modifies disk
    ensures Staged(disk.files, finalized, progress) == Staging(old(disk.files), temporary, final, content, fault)
  {
    progress, finalized := Proceed, false;
    if Hits(fault, BeforeWrite) { return Stopped(fault), false; }
    if temporary in disk.files { return Failed(ConstraintViolated), false; }
    if !fault.NoFault? && fault.stage.WritingTorn? {
      disk.files := disk.files[temporary := fault.stage.written];
      return Stopped(fault), false;
    }
    disk.files := disk.files[temporary := content];
    if Hits(fault, Written) { return Stopped(fault), false; }
    if final in disk.files && final != temporary { return Failed(ConstraintViolated), false; }
    disk.files := disk.files[final := content];
    finalized := true;
    if Hits(fault, Linked) { return Stopped(fault), true; }
    disk.files := disk.files - {temporary};
  }

  /** `registerArtifactVersion`. */
  method RegisterArtifactVersion(handle: Handle, disk: Disk, sha: Digest, root: Text, input: ArtifactInput, writeId: Id, fault: Fault, cleanup: Cleanup)
    returns (outcome: Outcome)
    modifies handle`db, disk
    ensures Attempt(handle.db, disk.files, outcome) == Attempted(old(handle.db), old(disk.files), sha, root, input, writeId, fault, cleanup)
  {
    hide RegisterRow, Staging, TemporaryPath, FullPath, RelativePath, Acceptable;
    if !handle.db.ready { return Raised(ReadOnly); }
    if [] in {input.id, input.logicalId, input.versionLabel} { return Raised(InvalidIdentifier); }
    if !Acceptable(sha, input) { return Raised(InvalidArgument); }
    var final := FullPath(root, RelativePath(sha, input));
    var temporary := TemporaryPath(final, writeId);
    var progress, finalized, committed := Proceed, false, false;
    if input.content.Some? {
      progress, finalized := StageFile(disk, temporary, final, input.content.value, fault);
    }
    if progress.Proceed? && !fault.NoFault? && !Hits(fault, Committed) {
      progress := Stopped(fault);
    }
    if progress.Proceed? {
      var reply := InsertArtifact(handle, input.id, RowFor(sha, input), input.dependencies);
      if reply.Thrown? {
        progress := Failed(reply.error);
      } else {
        committed := true;
        if Hits(fault, Committed) { progress := Stopped(fault); }
      }
    }
    if progress.Failed? && !committed {
      if cleanup == CutShort(false) { return Crashed; }
      disk.files := disk.files - {temporary};
      if cleanup == CutShort(true) { return Crashed; }
      if finalized { disk.files := disk.files - {final}; }
    }
    outcome := match progress case Proceed => Registered case Halted => Crashed case Failed(error) => Raised(error);
  }

  /** `discardArtifactVersion`. */
  method DiscardArtifactVersion(handle: Handle, disk: Disk, root: Text, id: Id, heldElsewhere: bool, crashed: bool) returns (outcome: Outcome)
    modifies handle`db, disk
    ensures Attempt(handle.db, disk.files, outcome) == Discarded(old(handle.db), old(disk.files), root, id, heldElsewhere, crashed)
  {
    if !handle.db.ready { return Raised(ReadOnly); }
    if id !in handle.db.versions { return if crashed then Crashed else Registered; }
    var path := handle.db.versions[id].storagePath;
    if TouchedByDependency(handle.db.dependencies, id) { return Raised(InvalidTransition); }
    if HeldByForeignKey(handle.db, id) || heldElsewhere { return Raised(ConstraintViolated); }
    handle.db := handle.db.(versions := handle.db.versions - {id});
    if crashed { return Crashed; }
    if path.Some? { disk.files := disk.files - {FullPath(root, path.value)}; }
    outcome := Registered;
  }

  /** `listTemporaryArtifactFiles`. */
  method ListTemporaryFiles(disk: Disk) returns (temporary: seq<Text>)
    ensures temporary == Listing(set p | p in disk.files && TempShaped(p))
  {
    temporary := SortedKeys(set p | p in disk.files && TempShaped(p));
  }

  /** The removal of temporary files in `recoverProject`, which does nothing on a store that is
      not writable and ready. The process may end after `limit` removals. */
  method Sweep(handle: Handle, disk: Disk, limit: nat) returns (removed: seq<Text>)
    modifies disk
    ensures disk.files == if handle.db.ready then PartlySwept(old(disk.files), Elements(removed)) else old(disk.files)
    ensures handle.db.ready ==> Elements(removed) == old(disk.files).Keys - disk.files.Keys
    ensures handle.db.ready && |removed| < limit ==> disk.files == Swept(old(disk.files))
    ensures !handle.db.ready ==> removed == []
  {
    removed := [];
    if !handle.db.ready { return; }
    ghost var before := disk.files;
    var temporary := ListTemporaryFiles(disk);
    for i := 0 to |temporary|
      invariant i <= limit && removed == temporary[..i]
      invariant disk.files == before - Elements(removed)
      invariant forall p :: p in removed ==> p in before && TempShaped(p)
    {
      assert temporary[i] in temporary;
      if i == limit {
        SweptRemoved(before, removed);
        return;
      }
      disk.files := disk.files - {temporary[i]};
      removed := removed + [temporary[i]];
      assert Elements(removed) == Elements(temporary[..i]) + {temporary[i]};
    }
    assert temporary[..|temporary|] == temporary;
    SweptRemoved(before, removed);
  }

  lemma SweptRemoved(files: Files, removed: seq<Text>)
    requires forall p :: p in removed ==> p in files && TempShaped(p)
    ensures files - Elements(removed) == PartlySwept(files, Elements(removed))
    ensures Elements(removed) == files.Keys - (files - Elements(removed)).Keys
    ensures (forall p :: p in files && TempShaped(p) ==> p in removed) ==> files - Elements(removed) == Swept(files)
  {
  }
}
