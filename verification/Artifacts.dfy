/** Artifact files and their rows: the staged write of a registration, its cleanup, discard,
    and the recovery sweep, interrupted at any step. */
module Artifacts {
  import opened Texts
  import opened Graph
  import opened Tables
  import opened Branches
  import opened Registration

  type Byte = b: int | 0 <= b < 256
  type Bytes = seq<Byte>
  type Files = map<Text, Bytes>
  type Digest = Bytes -> Text

  predicate EndsWith(t: Text, part: Text)
  {
    |part| <= |t| && t[|t| - |part|..] == part
  }

  /** The paths `listTemporaryArtifactFiles` takes for leftovers. */
  predicate TempShaped(path: Text)
  {
    EndsWith(path, T(".tmp")) || Includes(path, T(".tmp-")) || EndsWith(path, T(".incomplete"))
  }

  function FullPath(root: Text, relative: Text): Text
  {
    root + T("/") + relative
  }

  function TemporaryPath(final: Text, writeId: Id): Text
  {
    final + T(".tmp-") + writeId
  }

  datatype ArtifactInput = ArtifactInput(
    id: Id, logicalId: Id, versionLabel: Id, access: Access, unavailable: bool, content: Option<Bytes>, expectedHash: Option<Text>,
    relativePath: Option<Text>, dependencies: seq<DependencyInput>)

  /** How far a registration gets before a crash or an injected exception. */
  datatype Stage = BeforeWrite | WritingTorn(written: Bytes) | Written | Linked | Unlinked | Committed

  datatype Fault = NoFault | Crash(stage: Stage) | Raise(stage: Stage)

  datatype Outcome = Registered | Raised(error: Error) | Crashed

  datatype Attempt = Attempt(db: Db, files: Files, outcome: Outcome)

  function IsUnavailable(input: ArtifactInput): bool
  {
    input.unavailable || input.access.Unavailable?
  }

  predicate Acceptable(sha: Digest, input: ArtifactInput)
  {
    && (IsUnavailable(input) <==> input.content.None?)
    && (input.content.Some? && input.expectedHash.Some? ==> input.expectedHash.value == sha(input.content.value))
  }

  function HashOf(sha: Digest, input: ArtifactInput): Option<Text>
  {
    if input.content.Some? then Some(sha(input.content.value)) else input.expectedHash
  }

  function RelativePath(sha: Digest, input: ArtifactInput): Text
  {
    if input.relativePath.Some? then input.relativePath.value
    else if HashOf(sha, input).None? then input.id + T(".unavailable")
    else (if |HashOf(sha, input).value| < 2 then HashOf(sha, input).value else HashOf(sha, input).value[..2]) + T("/") + input.id + T(".artifact")
  }

  function RowFor(sha: Digest, input: ArtifactInput): VersionRow
  {
    VersionRow(input.logicalId, input.versionLabel, HashOf(sha, input),
      if input.content.Some? then Some(RelativePath(sha, input)) else None,
      if input.content.Some? then Some(|input.content.value|) else None, input.access)
  }

  /** The database transaction, and whether it committed. */
  function CommitRow(db: Db, sha: Digest, input: ArtifactInput): (Db, Option<Error>)
  {
    var (effect, reply) := RegisterRow(db, input.id, RowFor(sha, input), input.dependencies);
    (Apply(db, effect), if reply.Thrown? then Some(reply.error) else None)
  }

  /** Whether the `catch` block gets to its end, or the process ends in it before the final file is
      removed. */
  datatype Cleanup = Whole | CutShort(temporaryRemoved: bool)

  /** What the `catch` block removes. */
  function Cleaned(files: Files, temporary: Text, final: Text, finalized: bool): Files
  {
    if finalized then files - {temporary, final} else files - {temporary}
  }

  /** An exception before the commit, and its `catch` block. */
  function CleanedUp(db: Db, files: Files, temporary: Text, final: Text, finalized: bool, error: Error, cleanup: Cleanup): Attempt
  {
    if cleanup.Whole? then Attempt(db, Cleaned(files, temporary, final, finalized), Raised(error))
    else Attempt(db, if cleanup.temporaryRemoved then files - {temporary} else files, Crashed)
  }

  /** Whether the flow goes on, an exception is on its way, or the process is gone. */
  datatype Progress = Proceed | Failed(error: Error) | Halted

  datatype Staged = Staged(files: Files, finalized: bool, progress: Progress)

  predicate Hits(fault: Fault, stage: Stage)
  {
    !fault.NoFault? && fault.stage == stage
  }

  function Stopped(fault: Fault): Progress
  {
    if fault.Crash? then Halted else Failed(ConstraintViolated)
  }

  /** The staged write: temporary file, hard link, removal of the temporary file. */
  function Staging(files: Files, temporary: Text, final: Text, content: Bytes, fault: Fault): Staged
  {
    if Hits(fault, BeforeWrite) then Staged(files, false, Stopped(fault))
    else if temporary in files then Staged(files, false, Failed(ConstraintViolated))
    else if !fault.NoFault? && fault.stage.WritingTorn? then Staged(files[temporary := fault.stage.written], false, Stopped(fault))
    else if Hits(fault, Written) then Staged(files[temporary := content], false, Stopped(fault))
    else if final in files then Staged(files[temporary := content], false, Failed(ConstraintViolated))
    else if Hits(fault, Linked) then Staged(files[temporary := content][final := content], true, Stopped(fault))
    else Staged(files[temporary := content][final := content] - {temporary}, true, Proceed)
  }

  /** The whole registration as one function of where it is interrupted. */
  function Attempted(db: Db, files: Files, sha: Digest, root: Text, input: ArtifactInput, writeId: Id, fault: Fault, cleanup: Cleanup): Attempt
  {
    var final := FullPath(root, RelativePath(sha, input));
    var temporary := TemporaryPath(final, writeId);
    if !db.ready then Attempt(db, files, Raised(ReadOnly))
    else if [] in {input.id, input.logicalId, input.versionLabel} then Attempt(db, files, Raised(InvalidIdentifier))
    else if !Acceptable(sha, input) then Attempt(db, files, Raised(InvalidArgument))
    else Finishing(db, MaybeStaged(files, temporary, final, input.content, fault), sha, input, temporary, final, fault, cleanup)
  }

  function MaybeStaged(files: Files, temporary: Text, final: Text, content: Option<Bytes>, fault: Fault): Staged
  {
    if content.None? then Staged(files, false, Proceed) else Staging(files, temporary, final, content.value, fault)
  }

  /** From the finalized file on: the transaction, what follows it, and the `catch` block. */
  function Finishing(db: Db, staged: Staged, sha: Digest, input: ArtifactInput, temporary: Text, final: Text, fault: Fault, cleanup: Cleanup): Attempt
  {
    var late := Hits(fault, Committed);
    var progress := if staged.progress.Proceed? && !fault.NoFault? && !late then Stopped(fault) else staged.progress;
    if progress.Halted? then Attempt(db, staged.files, Crashed)
    else if progress.Failed? then CleanedUp(db, staged.files, temporary, final, staged.finalized, progress.error, cleanup)
    else
      var (later, error) := CommitRow(db, sha, input);
      if error.Some? then CleanedUp(db, staged.files, temporary, final, staged.finalized, error.value, cleanup)
      else Attempt(later, staged.files, if !late then Registered else if fault.Crash? then Crashed else Raised(ConstraintViolated))
  }

  /** `recoverProject`'s sweep of temporary files. */
  function Swept(files: Files): Files
  {
    map p | p in files && !TempShaped(p) :: files[p]
  }

  /** The same sweep when the process ends after some of the removals. */
  function PartlySwept(files: Files, removed: set<Text>): Files
  {
    map p | p in files && !(TempShaped(p) && p in removed) :: files[p]
  }

  /** `discardArtifactVersion`: the row first, then its file; a crash can fall between. */
  function Discarded(db: Db, files: Files, root: Text, id: Id, heldElsewhere: bool, crashed: bool): Attempt
  {
    var (effect, reply) := DiscardRow(db, id, heldElsewhere);
    if reply.Thrown? then Attempt(db, files, Raised(reply.error))
    else if effect.Nothing? || crashed then Attempt(Apply(db, effect), files, if crashed then Crashed else Registered)
    else Attempt(Apply(db, effect), WithoutFile(files, root, db.versions[id].storagePath), Registered)
  }

  function WithoutFile(files: Files, root: Text, path: Option<Text>): Files
  {
    if path.Some? then files - {FullPath(root, path.value)} else files
  }

  // ------------------------------------------------------------------ the safety condition

  datatype ContentStatus = ContentAvailable | ContentMissing | ContentCorrupt | ContentUnavailable

  /** The content status `inspectArtifactVersion` reports. */
  function Inspect(v: VersionRow, files: Files, sha: Digest, root: Text): ContentStatus
  {
    if v.access.Unavailable? || v.storagePath.None? || v.contentHash.None? then ContentUnavailable
    else if FullPath(root, v.storagePath.value) !in files then ContentMissing
    else
      var bytes := files[FullPath(root, v.storagePath.value)];
      if sha(bytes) != v.contentHash.value || (v.byteLength.Some? && |bytes| != v.byteLength.value) then ContentCorrupt
      else ContentAvailable
  }

  /** A committed row with a storage path has its file, with the recorded hash and length. */
  ghost predicate Backed(v: VersionRow, files: Files, sha: Digest, root: Text)
  {
    v.storagePath.Some? ==>
      var path := FullPath(root, v.storagePath.value);
      && path in files && !TempShaped(path)
      && v.contentHash == Some(sha(files[path])) && v.byteLength == Some(|files[path]|)
  }

  ghost predicate SameFile(v: VersionRow, w: VersionRow)
  {
    v.storagePath.Some? && v.storagePath == w.storagePath
  }

  ghost predicate Safe(db: Db, files: Files, sha: Digest, root: Text)
  {
    && (forall id {:trigger Backed(db.versions[id], files, sha, root)} :: id in db.versions ==> Backed(db.versions[id], files, sha, root))
    && (forall id, other {:trigger SameFile(db.versions[id], db.versions[other])} ::
          id in db.versions && other in db.versions && id != other ==> !SameFile(db.versions[id], db.versions[other]))
  }

  /** Rows that stay keep their files' bytes. */
  ghost predicate BytesKept(db: Db, files: Files, later: Db, laterFiles: Files, root: Text)
  {
    forall id :: id in db.versions && id in later.versions ==>
      && later.versions[id] == db.versions[id]
      && (db.versions[id].storagePath.Some? ==> SameBytes(files, laterFiles, FullPath(root, db.versions[id].storagePath.value)))
  }

  ghost predicate SameBytes(files: Files, later: Files, path: Text)
  {
    path in files ==> path in later && later[path] == files[path]
  }

  lemma TemporaryIsTempShaped(final: Text, writeId: Id)
    ensures TempShaped(TemporaryPath(final, writeId))
  {
    IncludesSuffix(final, T(".tmp-"), writeId);
  }

  lemma FullPathInjective(root: Text, a: Text, b: Text)
    requires FullPath(root, a) == FullPath(root, b)
    ensures a == b
  {
    var n := |root + T("/")|;
    assert a == FullPath(root, a)[n..] && b == FullPath(root, b)[n..];
  }

  // ------------------------------------------------------------------ steps keep it

  /** Files may change freely as long as no committed row's file does. */
  lemma SafeUnder(db: Db, files: Files, laterFiles: Files, sha: Digest, root: Text)
    requires Safe(db, files, sha, root)
    requires forall p :: p in files && !TempShaped(p) ==> p in laterFiles && laterFiles[p] == files[p]
    ensures Safe(db, laterFiles, sha, root) && BytesKept(db, files, db, laterFiles, root)
  {
    forall id | id in db.versions
      ensures Backed(db.versions[id], laterFiles, sha, root)
      ensures db.versions[id].storagePath.Some? ==> SameBytes(files, laterFiles, FullPath(root, db.versions[id].storagePath.value))
    {
      assert Backed(db.versions[id], files, sha, root);
    }
  }

  /** A new row may point at a file no committed row had. */
  lemma SafeWithRow(db: Db, files: Files, sha: Digest, root: Text, id: Id, v: VersionRow, later: Db, before: Files)
    requires Safe(db, files, sha, root) && id !in db.versions && Backed(v, files, sha, root)
    requires later.versions == db.versions[id := v]
    requires Safe(db, before, sha, root) && (v.storagePath.Some? ==> FullPath(root, v.storagePath.value) !in before)
    ensures Safe(later, files, sha, root)
  {
    forall other | other in later.versions ensures Backed(later.versions[other], files, sha, root) {
      assert other != id ==> Backed(db.versions[other], files, sha, root);
    }
    forall other | other in db.versions ensures !SameFile(v, db.versions[other]) && !SameFile(db.versions[other], v) {
      assert Backed(db.versions[other], before, sha, root);
    }
    forall a, b | a in later.versions && b in later.versions && a != b ensures !SameFile(later.versions[a], later.versions[b]) {
      assert a in db.versions && b in db.versions ==> !SameFile(db.versions[a], db.versions[b]);
    }
  }

  lemma CommitSafe(db: Db, files: Files, sha: Digest, root: Text, input: ArtifactInput, before: Files)
    requires Safe(db, files, sha, root) && Safe(db, before, sha, root) && Acceptable(sha, input)
    requires var path := FullPath(root, RelativePath(sha, input));
      input.content.Some? ==> path in files && files[path] == input.content.value && path !in before && !TempShaped(path)
    ensures var (later, error) := CommitRow(db, sha, input);
      && Safe(later, files, sha, root)
      && (forall id :: id in db.versions ==> id in later.versions && later.versions[id] == db.versions[id])
  {
    var (later, error) := CommitRow(db, sha, input);
    if error.None? {
      SafeWithRow(db, files, sha, root, input.id, RowFor(sha, input), later, before);
    }
  }

  lemma BytesKeptWider(db: Db, files: Files, laterFiles: Files, later: Db, root: Text)
    requires BytesKept(db, files, db, laterFiles, root)
    requires forall id :: id in db.versions ==> id in later.versions && later.versions[id] == db.versions[id]
    ensures BytesKept(db, files, later, laterFiles, root)
  {
  }

  lemma FinishingSafe(db: Db, staged: Staged, before: Files, sha: Digest, root: Text, input: ArtifactInput, temporary: Text, fault: Fault, cleanup: Cleanup)
    requires Safe(db, before, sha, root) && Acceptable(sha, input)
    requires TempShaped(temporary) && !TempShaped(FullPath(root, RelativePath(sha, input)))
    requires forall p :: p in before && !TempShaped(p) ==> p in staged.files && staged.files[p] == before[p]
    requires staged.progress.Proceed? ==> (staged.finalized <==> input.content.Some?)
    requires var path := FullPath(root, RelativePath(sha, input));
      staged.finalized ==> input.content.Some? && path in staged.files && staged.files[path] == input.content.value && path !in before
    ensures var a := Finishing(db, staged, sha, input, temporary, FullPath(root, RelativePath(sha, input)), fault, cleanup);
      Safe(a.db, a.files, sha, root) && BytesKept(db, before, a.db, a.files, root)
  {
    hide Safe, BytesKept, TempShaped, RegisterRow, FullPath, RelativePath;
    var final := FullPath(root, RelativePath(sha, input));
    SafeUnder(db, before, staged.files, sha, root);
    SafeUnder(db, before, Cleaned(staged.files, temporary, final, staged.finalized), sha, root);
    SafeUnder(db, before, staged.files - {temporary}, sha, root);
    if staged.progress.Proceed? {
      CommitSafe(db, staged.files, sha, root, input, before);
      BytesKeptWider(db, before, staged.files, CommitRow(db, sha, input).0, root);
    }
  }

  /** A registration interrupted anywhere keeps every committed file, provided the path it
      writes to does not itself look like a temporary one. */
  lemma AttemptSafe(db: Db, files: Files, sha: Digest, root: Text, input: ArtifactInput, writeId: Id, fault: Fault, cleanup: Cleanup)
    requires Safe(db, files, sha, root) && !TempShaped(FullPath(root, RelativePath(sha, input)))
    ensures var a := Attempted(db, files, sha, root, input, writeId, fault, cleanup);
      Safe(a.db, a.files, sha, root) && BytesKept(db, files, a.db, a.files, root)
  {
    hide Finishing, Safe, BytesKept, RegisterRow;
    var final := FullPath(root, RelativePath(sha, input));
    var temporary := TemporaryPath(final, writeId);
    TemporaryIsTempShaped(final, writeId);
    if Acceptable(sha, input) {
      FinishingSafe(db, MaybeStaged(files, temporary, final, input.content, fault), files, sha, root, input, temporary, fault, cleanup);
    }
    SafeUnder(db, files, files, sha, root);
  }

  lemma CleanedStaging(files: Files, temporary: Text, final: Text, content: Bytes, fault: Fault)
    requires temporary != final
    ensures var staged := Staging(files, temporary, final, content, fault);
      Cleaned(staged.files, temporary, final, staged.finalized) == files - {temporary}
  {
  }

  /** An exception before the commit leaves no trace: no row, and no file but what was there. */
  lemma RaisedLeavesNoTrace(db: Db, files: Files, sha: Digest, root: Text, input: ArtifactInput, writeId: Id, fault: Fault, cleanup: Cleanup)
    requires !Hits(fault, Committed)
    ensures var a := Attempted(db, files, sha, root, input, writeId, fault, cleanup);
      a.outcome.Raised? ==>
        a.db == db && (a.files == files || a.files == files - {TemporaryPath(FullPath(root, RelativePath(sha, input)), writeId)})
  {
    hide RegisterRow;
    var final := FullPath(root, RelativePath(sha, input));
    var temporary := TemporaryPath(final, writeId);
    assert |temporary| > |final|;
    hide TemporaryPath, FullPath, RelativePath;
    if input.content.Some? {
      CleanedStaging(files, temporary, final, input.content.value, fault);
    }
    hide Staging;
  }

  lemma DiscardSafe(db: Db, files: Files, sha: Digest, root: Text, id: Id, heldElsewhere: bool, crashed: bool)
    requires Safe(db, files, sha, root)
    ensures var a := Discarded(db, files, root, id, heldElsewhere, crashed);
      Safe(a.db, a.files, sha, root) && BytesKept(db, files, a.db, a.files, root)
  {
    var a := Discarded(db, files, root, id, heldElsewhere, crashed);
    forall other | other in a.db.versions
      ensures Backed(a.db.versions[other], a.files, sha, root)
      ensures a.db.versions[other].storagePath.Some? ==> SameBytes(files, a.files, FullPath(root, a.db.versions[other].storagePath.value))
    {
      assert Backed(db.versions[other], files, sha, root);
      if a.db.versions != db.versions && db.versions[other].storagePath.Some? && db.versions[id].storagePath.Some? {
        assert !SameFile(db.versions[other], db.versions[id]);
        if FullPath(root, db.versions[other].storagePath.value) == FullPath(root, db.versions[id].storagePath.value) {
          FullPathInjective(root, db.versions[other].storagePath.value, db.versions[id].storagePath.value);
        }
      }
    }
    forall x, y | x in a.db.versions && y in a.db.versions && x != y ensures !SameFile(a.db.versions[x], a.db.versions[y]) {
      assert !SameFile(db.versions[x], db.versions[y]);
    }
  }

  // ------------------------------------------------------------------ runs

  datatype DiskCommand =
    | RegisterArtifact(input: ArtifactInput, writeId: Id, fault: Fault, cleanup: Cleanup)
    | DiscardArtifact(id: Id, heldElsewhere: bool, crashed: bool)
    | Recover
    | RecoverPartly(removed: set<Text>)

  datatype World = World(db: Db, files: Files)

  function DiskStep(w: World, sha: Digest, root: Text, c: DiskCommand): World
  {
    match c
    case RegisterArtifact(input, writeId, fault, cleanup) =>
      var a := Attempted(w.db, w.files, sha, root, input, writeId, fault, cleanup);
      World(a.db, a.files)
    case DiscardArtifact(id, held, crashed) =>
      var a := Discarded(w.db, w.files, root, id, held, crashed);
      World(a.db, a.files)
    case Recover => if w.db.ready then World(w.db, Swept(w.files)) else w
    case RecoverPartly(removed) => if w.db.ready then World(w.db, PartlySwept(w.files, removed)) else w
  }

  function DiskRun(w: World, sha: Digest, root: Text, cs: seq<DiskCommand>): World
  {
    if cs == [] then w else DiskStep(DiskRun(w, sha, root, cs[..|cs| - 1]), sha, root, cs[|cs| - 1])
  }

  /** Artifact paths keep clear of the shapes of temporary files. */
  ghost predicate ClearPath(sha: Digest, root: Text, c: DiskCommand)
  {
    c.RegisterArtifact? ==> !TempShaped(FullPath(root, RelativePath(sha, c.input)))
  }

  lemma DiskStepSafe(w: World, sha: Digest, root: Text, c: DiskCommand)
    requires Safe(w.db, w.files, sha, root) && ClearPath(sha, root, c)
    ensures var later := DiskStep(w, sha, root, c);
      Safe(later.db, later.files, sha, root) && BytesKept(w.db, w.files, later.db, later.files, root)
  {
    hide Attempted, Discarded, Safe, BytesKept;
    match c
    case RegisterArtifact(input, writeId, fault, cleanup) => AttemptSafe(w.db, w.files, sha, root, input, writeId, fault, cleanup);
    case DiscardArtifact(id, held, crashed) => DiscardSafe(w.db, w.files, sha, root, id, held, crashed);
    case Recover =>
      SafeUnder(w.db, w.files, Swept(w.files), sha, root);
      SafeUnder(w.db, w.files, w.files, sha, root);
    case RecoverPartly(removed) =>
      SafeUnder(w.db, w.files, PartlySwept(w.files, removed), sha, root);
      SafeUnder(w.db, w.files, w.files, sha, root);
  }

  /** After any run of registrations and discards, each crashed or failed anywhere, and of
      recoveries, completed or not: every committed row with a storage path has its file with the
      recorded bytes, so its inspection is not missing and not corrupt; and a recovery of a store
      that is ready leaves the rows and no temporary file. */
  lemma {:induction false} CrashSafe(w: World, sha: Digest, root: Text, cs: seq<DiskCommand>)
    requires Safe(w.db, w.files, sha, root) && forall i :: 0 <= i < |cs| ==> ClearPath(sha, root, cs[i])
    ensures var later := DiskRun(w, sha, root, cs);
      && Safe(later.db, later.files, sha, root)
      && (forall id :: id in later.db.versions ==>
            !Inspect(later.db.versions[id], later.files, sha, root).ContentMissing? && !Inspect(later.db.versions[id], later.files, sha, root).ContentCorrupt?)
      && DiskStep(later, sha, root, Recover).db == later.db
      && (later.db.ready ==> forall p :: p in DiskStep(later, sha, root, Recover).files ==> !TempShaped(p))
  {
    if cs != [] {
      var earlier := cs[..|cs| - 1];
      assert forall i :: 0 <= i < |earlier| ==> earlier[i] == cs[i];
      CrashSafe(w, sha, root, earlier);
      DiskStepSafe(DiskRun(w, sha, root, earlier), sha, root, cs[|cs| - 1]);
    }
    var later := DiskRun(w, sha, root, cs);
    forall id | id in later.db.versions
      ensures !Inspect(later.db.versions[id], later.files, sha, root).ContentMissing? && !Inspect(later.db.versions[id], later.files, sha, root).ContentCorrupt?
    {
      assert Backed(later.db.versions[id], later.files, sha, root);
    }
  }

  /** A row is registered in every state of a run from the `i`th to the `j`th. */
  ghost predicate Stays(w: World, sha: Digest, root: Text, cs: seq<DiskCommand>, id: Id, i: nat, j: nat)
  {
    i <= j <= |cs| && forall k {:trigger cs[..k]} :: i <= k <= j ==> id in DiskRun(w, sha, root, cs[..k]).db.versions
  }

  /** Between any two states of a run in which, and between which, a version is registered, its row
      and the bytes of its file are the same: nothing overwrites or removes a committed file. */
  lemma {:induction false} BytesNeverChange(w: World, sha: Digest, root: Text, cs: seq<DiskCommand>, id: Id, i: nat, j: nat)
    requires Safe(w.db, w.files, sha, root) && forall k :: 0 <= k < |cs| ==> ClearPath(sha, root, cs[k])
    requires Stays(w, sha, root, cs, id, i, j)
    ensures var a, b := DiskRun(w, sha, root, cs[..i]), DiskRun(w, sha, root, cs[..j]);
      && id in a.db.versions && id in b.db.versions && b.db.versions[id] == a.db.versions[id]
      && (a.db.versions[id].storagePath.Some? ==>
            var path := FullPath(root, a.db.versions[id].storagePath.value);
            path in a.files && path in b.files && b.files[path] == a.files[path])
    decreases j
  {
    hide DiskStep;
    var a := DiskRun(w, sha, root, cs[..i]);
    assert id in a.db.versions;
    assert forall k :: 0 <= k < |cs[..i]| ==> cs[..i][k] == cs[k];
    CrashSafe(w, sha, root, cs[..i]);
    assert Backed(a.db.versions[id], a.files, sha, root);
    if i < j {
      BytesNeverChange(w, sha, root, cs, id, i, j - 1);
      assert forall k :: 0 <= k < |cs[..j - 1]| ==> cs[..j - 1][k] == cs[k];
      CrashSafe(w, sha, root, cs[..j - 1]);
      assert cs[..j][..j - 1] == cs[..j - 1];
      DiskStepSafe(DiskRun(w, sha, root, cs[..j - 1]), sha, root, cs[j - 1]);
      assert id in DiskRun(w, sha, root, cs[..j]).db.versions;
    }
  }

  /** The assumption on paths is exact: a registered file survives the sweep if and only if its
      path does not have the shape of a temporary one. */
  lemma SurvivesExactly(db: Db, files: Files, sha: Digest, root: Text, input: ArtifactInput, writeId: Id)
    requires input.content.Some? && !input.access.Unavailable? && Attempted(db, files, sha, root, input, writeId, NoFault, Whole).outcome.Registered?
    ensures var a := Attempted(db, files, sha, root, input, writeId, NoFault, Whole);
      input.id in a.db.versions
      && (Inspect(a.db.versions[input.id], Swept(a.files), sha, root).ContentAvailable? <==> !TempShaped(FullPath(root, RelativePath(sha, input))))
  {
    var final := FullPath(root, RelativePath(sha, input));
    assert |TemporaryPath(final, writeId)| > |final|;
  }

  /** Such a registration is accepted: content given the path `a.tmp` on an empty store is
      committed, and its row points at nothing after the next recovery. */
  lemma TemporaryPathIsLost(sha: Digest, root: Text, content: Bytes)
    ensures var input := ArtifactInput(T("v"), T("l"), T("1"), FullText, false, Some(content), None, Some(T("a.tmp")), []);
      var db := Db(true, map[], [], map[], map[], map[], [], map[]);
      var a := Attempted(db, map[], sha, root, input, T("w"), NoFault, Whole);
      && a.outcome.Registered? && T("v") in a.db.versions
      && Inspect(a.db.versions[T("v")], a.files, sha, root).ContentAvailable?
      && Inspect(a.db.versions[T("v")], Swept(a.files), sha, root).ContentMissing?
  {
    var input := ArtifactInput(T("v"), T("l"), T("1"), FullText, false, Some(content), None, Some(T("a.tmp")), []);
    var final := FullPath(root, T("a.tmp"));
    assert final[|final| - 4..] == T(".tmp");
    assert |TemporaryPath(final, T("w"))| > |final|;
  }

  // ------------------------------------------------------------------ without faults

  /** The file a registration with content writes is not there yet, nor its temporary one. */
  ghost predicate PathsFree(files: Files, sha: Digest, root: Text, input: ArtifactInput, writeId: Id)
  {
    input.content.Some? ==>
      FullPath(root, RelativePath(sha, input)) !in files && TemporaryPath(FullPath(root, RelativePath(sha, input)), writeId) !in files
  }

  /** No other version of the logical object carries the label. */
  ghost predicate LabelFree(versions: map<Id, VersionRow>, input: ArtifactInput)
  {
    forall w :: w in versions ==> versions[w].logicalId != input.logicalId || versions[w].versionLabel != input.versionLabel
  }

  /** Content and availability agree, and the content has the hash that was expected of it. */
  ghost predicate ContentInOrder(sha: Digest, input: ArtifactInput)
  {
    && (input.content.None? <==> input.unavailable || input.access == Unavailable)
    && (input.content.Some? && input.expectedHash.Some? ==> sha(input.content.value) == input.expectedHash.value)
  }

  /** What the row of a registration says of its content. */
  ghost predicate RowDescribes(v: VersionRow, sha: Digest, input: ArtifactInput)
  {
    && v.logicalId == input.logicalId && v.versionLabel == input.versionLabel && v.access == input.access
    && (input.content.Some? ==>
          v.contentHash == Some(sha(input.content.value)) && v.byteLength == Some(|input.content.value|) && v.storagePath == Some(RelativePath(sha, input)))
    && (input.content.None? ==> v.contentHash == input.expectedHash && v.byteLength == None && v.storagePath == None)
  }

  /** A registration without faults is registered if and only if its identifiers name something,
      its content is in order, its paths are free, and its row can be committed; then its row
      describes its content, its file holds it, and nothing else changes on disk. */
  lemma FaultlessExactly(db: Db, files: Files, sha: Digest, root: Text, input: ArtifactInput, writeId: Id, cleanup: Cleanup)
    ensures var a := Attempted(db, files, sha, root, input, writeId, NoFault, cleanup);
      && (a.outcome.Registered? <==>
            && db.ready && input.id != [] && input.logicalId != [] && input.versionLabel != []
            && ContentInOrder(sha, input) && PathsFree(files, sha, root, input, writeId)
            && input.id !in db.versions && LabelFree(db.versions, input) && InputsAccepted(db.versions, input.id, input.dependencies))
      && (a.outcome.Registered? ==> input.id in a.db.versions && RowDescribes(a.db.versions[input.id], sha, input))
      && (a.outcome.Registered? ==>
            a.files == if input.content.Some? then files[FullPath(root, RelativePath(sha, input)) := input.content.value] else files)
      && (!a.outcome.Registered? ==> a.db == db)
  {
    hide RegisterRow, FullPath, TemporaryPath, RelativePath, InputsAccepted, Staging, RowFor;
    var final := FullPath(root, RelativePath(sha, input));
    var temporary := TemporaryPath(final, writeId);
    TemporaryDiffers(final, writeId);
    RegisteredExactly(db, input.id, RowFor(sha, input), input.dependencies);
    RowForDescribes(sha, input);
    if input.content.Some? {
      FaultlessStaging(files, temporary, final, input.content.value);
    }
  }

  lemma TemporaryDiffers(final: Text, writeId: Id)
    ensures TemporaryPath(final, writeId) != final
  {
    assert |TemporaryPath(final, writeId)| > |final|;
  }

  lemma RowForDescribes(sha: Digest, input: ArtifactInput)
    ensures RowDescribes(RowFor(sha, input), sha, input)
  {
  }

  lemma FaultlessStaging(files: Files, temporary: Text, final: Text, content: Bytes)
    requires temporary != final
    ensures var staged := Staging(files, temporary, final, content, NoFault);
      if temporary !in files && final !in files then staged == Staged(files[final := content], true, Proceed) else staged.progress.Failed?
  {
    if temporary !in files && final !in files {
      assert files[temporary := content][final := content] - {temporary} == files[final := content];
    }
  }

  /** Content whose hash is not the expected one is never registered, whatever faults. */
  lemma MismatchRefused(db: Db, files: Files, sha: Digest, root: Text, input: ArtifactInput, writeId: Id, fault: Fault, cleanup: Cleanup)
    requires input.content.Some? && input.expectedHash.Some? && sha(input.content.value) != input.expectedHash.value
    ensures var a := Attempted(db, files, sha, root, input, writeId, fault, cleanup);
      a.outcome.Raised? && a.db == db && a.files == files
  {
  }

  /** Where a registration puts its content: where it is told, else by hash and id. */
  lemma PathsExactly(sha: Digest, input: ArtifactInput)
    ensures input.relativePath.Some? ==> RelativePath(sha, input) == input.relativePath.value
    ensures input.relativePath.None? && input.content.Some? && |sha(input.content.value)| >= 2 ==>
      RelativePath(sha, input) == sha(input.content.value)[..2] + T("/") + input.id + T(".artifact")
  {
    hide T;
  }

  /** The content status of a row, in terms of its file. */
  lemma InspectedExactly(v: VersionRow, files: Files, sha: Digest, root: Text)
    ensures var local := v.access != Unavailable && v.storagePath.Some? && v.contentHash.Some?;
      var path := FullPath(root, if v.storagePath.Some? then v.storagePath.value else []);
      && (Inspect(v, files, sha, root) == ContentUnavailable <==> !local)
      && (Inspect(v, files, sha, root) == ContentMissing <==> local && path !in files)
      && (Inspect(v, files, sha, root) == ContentAvailable <==>
            local && path in files && v.contentHash == Some(sha(files[path])) && (v.byteLength == None || v.byteLength == Some(|files[path]|)))
  {
    hide FullPath;
  }

  /** The temporary shapes, spelled out. */
  lemma TempShapedExactly(path: Text)
    ensures TempShaped(path) <==>
      || (exists a: Text {:trigger a + T(".tmp")} :: path == a + T(".tmp"))
      || (exists a: Text, b: Text {:trigger a + T(".tmp-") + b} :: path == a + T(".tmp-") + b)
      || (exists a: Text {:trigger a + T(".incomplete")} :: path == a + T(".incomplete"))
  {
    hide T;
    EndsExactly(path, T(".tmp"));
    EndsExactly(path, T(".incomplete"));
    IncludesExactly(path, T(".tmp-"));
    hide EndsWith, Includes;
  }

  lemma EndsExactly(t: Text, part: Text)
    ensures EndsWith(t, part) <==> exists a: Text {:trigger a + part} :: t == a + part
  {
    if EndsWith(t, part) {
      assert t == t[..|t| - |part|] + part;
    }
  }

  /** A discard that drops a row and runs to its end removes its file, and no other. */
  lemma DiscardRemovesFile(db: Db, files: Files, root: Text, id: Id, heldElsewhere: bool, crashed: bool)
    ensures var a := Discarded(db, files, root, id, heldElsewhere, crashed);
      if id in db.versions && id !in a.db.versions && !crashed && db.versions[id].storagePath.Some?
      then a.files == files - {FullPath(root, db.versions[id].storagePath.value)}
      else a.files == files
  {
    hide FullPath;
  }
}
