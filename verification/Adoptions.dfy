/** What an adoption carries: the logical ids and versions, in terms of the request, the packet
    and the source's head. */
module Adoptions {
  import opened Texts
  import opened Graph
  import opened Tables
  import opened Branches
  import opened Decisions

  /** The versions the owner adopts: those named, or all candidates. */
  function Chosen(packet: Packet, r: AdoptionRequest): seq<Id>
  {
    if r.selected.Some? then r.selected.value else packet.candidates
  }

  lemma SelectionIsChosen(packet: Packet, r: AdoptionRequest)
    ensures NoDuplicates(Selection(packet, r)) && Elements(Selection(packet, r)) == Elements(Chosen(packet, r))
    ensures forall v :: v in Selection(packet, r) <==> v in Chosen(packet, r)
  {
    DistinctKeepsElements(Chosen(packet, r));
  }

  /** The logical ids to carry: those requested, or those of the versions chosen. */
  ghost function AdoptedIds(versions: map<Id, VersionRow>, packet: Packet, r: AdoptionRequest): set<Id>
  {
    if r.logicalIds.Some? then Elements(r.logicalIds.value)
    else set v | v in Chosen(packet, r) && v in versions :: versions[v].logicalId
  }

  /** Some chosen version is registered under `l`. */
  ghost predicate ChosenUnder(versions: map<Id, VersionRow>, packet: Packet, r: AdoptionRequest, l: Id)
  {
    exists v :: v in Chosen(packet, r) && v in versions && versions[v].logicalId == l
  }

  /** The request names logical ids of chosen versions, or none and all chosen versions are known;
      and the source's head maps every id to carry to a chosen version. */
  ghost predicate Exposes(versions: map<Id, VersionRow>, head: map<Id, Id>, packet: Packet, r: AdoptionRequest)
  {
    && (if r.logicalIds.Some? then forall l :: l in r.logicalIds.value ==> ChosenUnder(versions, packet, r, l)
        else forall v :: v in Chosen(packet, r) ==> v in versions)
    && forall l :: l in AdoptedIds(versions, packet, r) ==> l in head && head[l] in Chosen(packet, r)
  }

  lemma SomeVersionIsChosen(versions: map<Id, VersionRow>, packet: Packet, r: AdoptionRequest, l: Id)
    ensures SomeVersionOf(versions, Selection(packet, r), l) <==> ChosenUnder(versions, packet, r, l)
  {
    hide Selection;
    SelectionIsChosen(packet, r);
    var selected := Selection(packet, r);
    if SomeVersionOf(versions, selected, l) {
      var i :| 0 <= i < |selected| && selected[i] in versions && versions[selected[i]].logicalId == l;
      assert selected[i] in selected;
    }
    if ChosenUnder(versions, packet, r, l) {
      var v :| v in Chosen(packet, r) && v in versions && versions[v].logicalId == l;
      var i :| 0 <= i < |selected| && selected[i] == v;
    }
  }

  lemma LogicalIdsAre(versions: map<Id, VersionRow>, selected: seq<Id>)
    requires forall v :: v in selected ==> v in versions
    ensures Elements(Sort(Distinct(LogicalIdsOf(versions, selected)))) == set v | v in selected :: versions[v].logicalId
  {
    var ids := LogicalIdsOf(versions, selected);
    DistinctKeepsElements(ids);
    SortSorts(Distinct(ids));
    NoDuplicatesPermuted(Distinct(ids), Sort(Distinct(ids)));
    assert Elements(Distinct(ids)) == Elements(ids);
    forall v | v in selected ensures versions[v].logicalId in ids {
      var i :| 0 <= i < |selected| && selected[i] == v;
      assert ids[i] == versions[v].logicalId;
    }
    forall l | l in ids ensures exists v :: v in selected && versions[v].logicalId == l {
      var i :| 0 <= i < |ids| && ids[i] == l;
      assert selected[i] in selected;
    }
  }

  lemma SelectedAreAdopted(versions: map<Id, VersionRow>, packet: Packet, r: AdoptionRequest)
    ensures var chosen := SelectedLogicalIds(versions, Selection(packet, r), r.logicalIds);
      && (chosen.Ids? <==> if r.logicalIds.Some? then forall l :: l in r.logicalIds.value ==> ChosenUnder(versions, packet, r, l)
                           else forall v :: v in Chosen(packet, r) ==> v in versions)
      && (chosen.Ids? ==> Elements(chosen.ids) == AdoptedIds(versions, packet, r))
  {
    hide Selection, SomeVersionOf, ChosenUnder;
    SelectionIsChosen(packet, r);
    var selected := Selection(packet, r);
    if r.logicalIds.Some? {
      var ids := Distinct(r.logicalIds.value);
      DistinctKeepsElements(r.logicalIds.value);
      assert Elements(ids) == Elements(r.logicalIds.value);
      forall l ensures SomeVersionOf(versions, selected, l) <==> ChosenUnder(versions, packet, r, l) {
        SomeVersionIsChosen(versions, packet, r, l);
      }
      assert (forall i :: 0 <= i < |ids| ==> SomeVersionOf(versions, selected, ids[i])) <==> forall l :: l in ids ==> SomeVersionOf(versions, selected, l);
    } else {
      assert (forall i :: 0 <= i < |selected| ==> selected[i] in versions) <==> forall v :: v in selected ==> v in versions;
      if forall v :: v in selected ==> v in versions {
        LogicalIdsAre(versions, selected);
      }
    }
  }

  /** `adoptBranchAlternative` finds the ids to carry exactly when the source exposes the choice,
      and then they are the adopted ids. */
  lemma ExposedExactly(db: Db, packet: Packet, r: AdoptionRequest)
    requires r.source in db.branches
    ensures var exposed := ExposedIds(db, r.source, Selection(packet, r), r.logicalIds);
      && (exposed.Ids? <==> Exposes(db.versions, ReferencesOf(db.references, db.branches[r.source].current), packet, r))
      && (exposed.Ids? ==> Elements(exposed.ids) == AdoptedIds(db.versions, packet, r))
  {
    hide Selection, ReferencesOf, SelectedLogicalIds, ChosenUnder;
    SelectionIsChosen(packet, r);
    SelectedAreAdopted(db.versions, packet, r);
    var chosen := SelectedLogicalIds(db.versions, Selection(packet, r), r.logicalIds);
    var head := ReferencesOf(db.references, db.branches[r.source].current);
    if chosen.Ids? {
      EveryIdExposed(head, Selection(packet, r), Chosen(packet, r), chosen.ids);
    }
  }

  lemma EveryIdExposed(head: map<Id, Id>, selected: seq<Id>, chosen: seq<Id>, ids: seq<Id>)
    requires forall v :: v in selected <==> v in chosen
    ensures (forall i :: 0 <= i < |ids| ==> ids[i] in head && head[ids[i]] in selected) <==> forall l :: l in Elements(ids) ==> l in head && head[l] in chosen
  {
    if forall l :: l in Elements(ids) ==> l in head && head[l] in chosen {
      forall i | 0 <= i < |ids| ensures ids[i] in head && head[ids[i]] in selected {
        assert ids[i] in Elements(ids);
      }
    }
  }
}
