/** The database side of artifact registration and discard. */
module Registration {
  import opened Texts
  import opened Graph
  import opened Tables
  import opened Branches

  datatype DependencyInput = DependencyInput(version: Id, relation: Option<Text>)

  datatype RowsOrError = Rows(rows: seq<DependencyRow>) | BadRows(error: Error)

  function RelationOf(d: DependencyInput): Text
  {
    if d.relation.Some? then d.relation.value else T("derived-from")
  }

  /** One round of the dependency loop: the row it inserts, or the error it throws. */
  function CheckDependency(versions: map<Id, VersionRow>, id: Id, earlier: seq<DependencyRow>, d: DependencyInput): RowsOrError
  {
    if d.version == id then BadRows(InvalidDependency)
    else if IsBlank(RelationOf(d)) then BadRows(InvalidDependency)
    else if d.version !in versions then BadRows(DependencyNotFound)
    else
      var row := DependencyRow(id, d.version, RelationOf(d));
      if row in earlier then BadRows(ConstraintViolated) else Rows(earlier + [row])
  }

  function DependencyRows(versions: map<Id, VersionRow>, id: Id, inputs: seq<DependencyInput>): (r: RowsOrError)
    ensures r.Rows? ==> forall i :: 0 <= i < |r.rows| ==> r.rows[i].artifact == id && r.rows[i].dependency in versions
    ensures r.Rows? ==> forall i :: 0 <= i < |r.rows| ==> r.rows[i].dependency != id
  {
    if inputs == [] then Rows([]) else
    var earlier := DependencyRows(versions, id, inputs[..|inputs| - 1]);
    if earlier.BadRows? then earlier
    else CheckDependency(versions, id, earlier.rows, inputs[|inputs| - 1])
  }

  predicate LabelTaken(versions: map<Id, VersionRow>, v: VersionRow)
  {
    exists w :: w in versions && versions[w].logicalId == v.logicalId && versions[w].versionLabel == v.versionLabel
  }

  /** The transaction of `registerArtifactVersion`. */
  function RegisterRow(db: Db, id: Id, v: VersionRow, inputs: seq<DependencyInput>): (a: (Effect, Reply))
    ensures a.1.Thrown? <==> a.0.Nothing?
    ensures a.1.Thrown? || a.1.Done?
    ensures a.0.Nothing? || a.0.AddsVersion?
  {
    if !db.ready then (Nothing, Thrown(ReadOnly))
    else if id == [] then (Nothing, Thrown(InvalidIdentifier))
    else if id in db.versions || LabelTaken(db.versions, v) then (Nothing, Thrown(ConstraintViolated))
    else
      var rows := DependencyRows(db.versions, id, inputs);
      if rows.BadRows? then (Nothing, Thrown(rows.error))
      else (AddsVersion(id, v, rows.rows), Done)
  }

  /** The row a dependency input stands for. */
  function RowOf(id: Id, d: DependencyInput): DependencyRow
  {
    DependencyRow(id, d.version, if d.relation.Some? then d.relation.value else T("derived-from"))
  }

  predicate InputAccepted(versions: map<Id, VersionRow>, id: Id, d: DependencyInput)
  {
    d.version != id && d.version in versions && (d.relation.Some? ==> !IsBlank(d.relation.value))
  }

  /** Every input is acceptable and no two ask for the same row. */
  ghost predicate InputsAccepted(versions: map<Id, VersionRow>, id: Id, inputs: seq<DependencyInput>)
  {
    && (forall i :: 0 <= i < |inputs| ==> InputAccepted(versions, id, inputs[i]))
    && (forall i, j :: 0 <= i < j < |inputs| ==> RowOf(id, inputs[i]) != RowOf(id, inputs[j]))
  }

  ghost predicate RowsFor(id: Id, inputs: seq<DependencyInput>, rows: seq<DependencyRow>)
  {
    |rows| == |inputs| && forall i :: 0 <= i < |inputs| ==> rows[i] == RowOf(id, inputs[i])
  }

  lemma OneMoreAccepted(versions: map<Id, VersionRow>, id: Id, init: seq<DependencyInput>, last: DependencyInput, rows: seq<DependencyRow>)
    requires RowsFor(id, init, rows)
    ensures InputsAccepted(versions, id, init + [last]) <==>
      InputsAccepted(versions, id, init) && InputAccepted(versions, id, last) && RowOf(id, last) !in rows
  {
    hide InputAccepted, RowOf;
    var inputs := init + [last];
    assert forall i :: 0 <= i < |init| ==> init[i] == inputs[i];
    if InputsAccepted(versions, id, inputs) {
      assert inputs[|init|] == last;
      forall i | 0 <= i < |rows| ensures rows[i] != RowOf(id, last) {
        assert RowOf(id, inputs[i]) != RowOf(id, inputs[|init|]);
      }
    }
    if InputsAccepted(versions, id, init) && InputAccepted(versions, id, last) && RowOf(id, last) !in rows {
      forall i, j | 0 <= i < j < |inputs| ensures RowOf(id, inputs[i]) != RowOf(id, inputs[j]) {
        if j == |init| {
          assert rows[i] in rows;
        }
      }
    }
  }

  /** The loop over the dependencies succeeds exactly on acceptable inputs, with one row for each,
      in their order. */
  lemma {:induction false} DependencyRowsExactly(versions: map<Id, VersionRow>, id: Id, inputs: seq<DependencyInput>)
    ensures DependencyRows(versions, id, inputs).Rows? <==> InputsAccepted(versions, id, inputs)
    ensures DependencyRows(versions, id, inputs).Rows? ==> RowsFor(id, inputs, DependencyRows(versions, id, inputs).rows)
  {
    DefaultNotBlank();
    hide IsBlank, T;
    if inputs != [] {
      var init, last := inputs[..|inputs| - 1], inputs[|inputs| - 1];
      assert inputs == init + [last];
      DependencyRowsExactly(versions, id, init);
      var earlier := DependencyRows(versions, id, init);
      if earlier.Rows? {
        OneMoreAccepted(versions, id, init, last, earlier.rows);
      } else if InputsAccepted(versions, id, inputs) {
        FewerAccepted(versions, id, init, last);
      }
      hide InputsAccepted;
    }
  }

  lemma DefaultNotBlank()
    ensures !IsBlank(T("derived-from"))
  {
    assert T("derived-from")[0] == 'd' as int;
  }

  lemma FewerAccepted(versions: map<Id, VersionRow>, id: Id, init: seq<DependencyInput>, last: DependencyInput)
    requires InputsAccepted(versions, id, init + [last])
    ensures InputsAccepted(versions, id, init)
  {
    hide InputAccepted, RowOf;
    assert forall i :: 0 <= i < |init| ==> init[i] == (init + [last])[i];
  }

  /** A registration commits if and only if the store is ready, the id and the label are free and
      the dependencies are acceptable; then it adds the version and exactly their rows. */
  lemma RegisteredExactly(db: Db, id: Id, v: VersionRow, inputs: seq<DependencyInput>)
    ensures RegisterRow(db, id, v, inputs).1.Done? <==>
      && db.ready && id != [] && id !in db.versions && InputsAccepted(db.versions, id, inputs)
      && forall w :: w in db.versions ==> db.versions[w].logicalId != v.logicalId || db.versions[w].versionLabel != v.versionLabel
    ensures RegisterRow(db, id, v, inputs).1.Done? ==>
      RegisterRow(db, id, v, inputs).0 == AddsVersion(id, v, seq(|inputs|, i requires 0 <= i < |inputs| => RowOf(id, inputs[i])))
  {
    DependencyRowsExactly(db.versions, id, inputs);
    if RegisterRow(db, id, v, inputs).1.Done? {
      assert DependencyRows(db.versions, id, inputs).rows == seq(|inputs|, i requires 0 <= i < |inputs| => RowOf(id, inputs[i]));
    }
  }

  predicate TouchedByDependency(rows: seq<DependencyRow>, id: Id)
  {
    exists i :: 0 <= i < |rows| && (rows[i].artifact == id || rows[i].dependency == id)
  }

  /** A foreign key of `branch_references` or `impact_records` holds the version. */
  predicate HeldByForeignKey(db: Db, id: Id)
  {
    || id in db.references.Values
    || exists k :: k in db.impacts && (k.dependent == id || db.impacts[k].source == id)
  }

  /** The transaction of `discardArtifactVersion`. `heldElsewhere` stands for the foreign keys
      of tables outside this model. */
  function DiscardRow(db: Db, id: Id, heldElsewhere: bool): (Effect, Reply)
  {
    if !db.ready then (Nothing, Thrown(ReadOnly))
    else if id !in db.versions then (Nothing, Done)
    else if TouchedByDependency(db.dependencies, id) then (Nothing, Thrown(InvalidTransition))
    else if HeldByForeignKey(db, id) || heldElsewhere then (Nothing, Thrown(ConstraintViolated))
    else (DropsVersion(id), Done)
  }
}
