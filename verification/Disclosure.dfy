/** The disclosure gateway: restrictions inherited along the dependency graph, and the decision
    on a disclosure request. Classifications and permissions are whatever the policy store
    answers at the time of the call. */
module Disclosure {
  import opened Texts
  import opened Graph
  import opened Tables
  import opened Branches
  import opened Registration

  datatype PermissionStatus = ActivePermission | Withdrawn | Expired

  datatype Permission = Permission(id: Id, destination: Text, purpose: Text, transformations: seq<Text>, status: PermissionStatus)

  datatype Policy = Policy(classification: Id -> Option<Text>, permissions: Id -> seq<Permission>)

  datatype Note =
    | Unclassified(version: Id)
    | Sensitivity(level: Text, version: Id)
    | NoPermission(version: Id)
    | WithdrawnPermission(permission: Id, version: Id)
    | ExpiredPermission(permission: Id, version: Id)

  datatype Effective = Effective(
    resolved: seq<Id>, highest: Text, localOnly: bool, withdrawn: bool, expired: bool,
    destinations: seq<Text>, purposes: seq<Text>, transformations: seq<Text>, notes: seq<Note>)

  /** The rank of a sensitivity label; a label the table does not know counts as confidential. */
  function Rank(level: Text): int
  {
    if level == T("public") then 0
    else if level == T("confidential") then 1
    else if level == T("participant-identifiable") then 2
    else if level == T("restricted") then 3
    else 1
  }

  /** The rank the comparison gives the highest label so far: an unknown one counts as public. */
  function CurrentRank(level: Text): int
  {
    if level in {T("public"), T("confidential"), T("participant-identifiable"), T("restricted")} then Rank(level) else 0
  }

  predicate Uncovered(policy: Policy, v: Id)
  {
    policy.classification(v).None? || policy.permissions(v) == []
  }

  predicate Marked(policy: Policy, v: Id, status: PermissionStatus)
  {
    exists p :: p in policy.permissions(v) && p.status == status
  }

  // ------------------------------------------------------------------ what a version contributes

  datatype Field = ByDestination | ByPurpose

  function Get(p: Permission, field: Field): Text
  {
    if field.ByDestination? then p.destination else p.purpose
  }

  function Add(s: seq<Text>, x: Text): seq<Text>
  {
    if x in s then s else s + [x]
  }

  /** The destinations, or purposes, of the active permissions, in order of first mention. */
  function ActiveSet(permissions: seq<Permission>, field: Field): (s: seq<Text>)
    ensures forall x :: x in s <==> exists p :: p in permissions && p.status.ActivePermission? && Get(p, field) == x
  {
    if permissions == [] then [] else
    var init, last := permissions[..|permissions| - 1], permissions[|permissions| - 1];
    assert permissions == init + [last];
    if last.status.ActivePermission? then Add(ActiveSet(init, field), Get(last, field)) else ActiveSet(init, field)
  }

  function AddAll(s: seq<Text>, more: seq<Text>): (r: seq<Text>)
    ensures forall x :: x in r <==> x in s || x in more
  {
    if more == [] then s else
    assert more == more[..|more| - 1] + [more[|more| - 1]];
    Add(AddAll(s, more[..|more| - 1]), more[|more| - 1])
  }

  function ActiveTransformations(permissions: seq<Permission>): (s: seq<Text>)
    ensures forall x :: x in s <==> exists p :: p in permissions && p.status.ActivePermission? && x in p.transformations
  {
    if permissions == [] then [] else
    var init, last := permissions[..|permissions| - 1], permissions[|permissions| - 1];
    assert permissions == init + [last];
    if last.status.ActivePermission? then AddAll(ActiveTransformations(init), last.transformations) else ActiveTransformations(init)
  }

  function StatusNotes(permissions: seq<Permission>, v: Id): seq<Note>
  {
    if permissions == [] then [] else
    var last := permissions[|permissions| - 1];
    StatusNotes(permissions[..|permissions| - 1], v)
      + (if last.status.Withdrawn? then [WithdrawnPermission(last.id, v)] else if last.status.Expired? then [ExpiredPermission(last.id, v)] else [])
  }

  function NotesOf(policy: Policy, v: Id): seq<Note>
  {
    (if policy.classification(v).None? then [Unclassified(v)] else [Sensitivity(policy.classification(v).value, v)])
      + (if policy.permissions(v) == [] then [NoPermission(v)] else StatusNotes(policy.permissions(v), v))
  }

  function NotesOfAll(policy: Policy, versions: seq<Id>): (notes: seq<Note>)
    ensures forall v, n :: v in versions && n in NotesOf(policy, v) ==> n in notes
    ensures forall n :: n in notes ==> exists v :: v in versions && n in NotesOf(policy, v)
  {
    if versions == [] then [] else
    assert versions == versions[..|versions| - 1] + [versions[|versions| - 1]];
    NotesOfAll(policy, versions[..|versions| - 1]) + NotesOf(policy, versions[|versions| - 1])
  }

  /** The non-empty sets, one for each version that has an active permission. */
  function SetsOf(policy: Policy, versions: seq<Id>, field: Field): seq<seq<Text>>
  {
    if versions == [] then [] else
    var s := ActiveSet(policy.permissions(versions[|versions| - 1]), field);
    SetsOf(policy, versions[..|versions| - 1], field) + (if s != [] then [s] else [])
  }

  ghost predicate Grants(policy: Policy, v: Id, field: Field, x: Text)
  {
    exists p :: p in policy.permissions(v) && p.status.ActivePermission? && Get(p, field) == x
  }

  ghost predicate HasActive(policy: Policy, v: Id)
  {
    exists p :: p in policy.permissions(v) && p.status.ActivePermission?
  }

  /** Every version with an active permission grants `x`, itself or by the wildcard. */
  ghost predicate AllGrant(policy: Policy, versions: seq<Id>, field: Field, x: Text)
  {
    forall v :: v in versions && HasActive(policy, v) ==> Grants(policy, v, field, x) || Grants(policy, v, field, T("*"))
  }

  /** The first version with an active permission names `x` itself. */
  ghost predicate FirstNames(policy: Policy, versions: seq<Id>, field: Field, x: Text)
  {
    exists k :: 0 <= k < |versions| && Grants(policy, versions[k], field, x) && forall j :: 0 <= j < k ==> !HasActive(policy, versions[j])
  }

  predicate Admits(s: seq<Text>, x: Text)
  {
    x in s || T("*") in s
  }

  ghost predicate InAllSets(sets: seq<seq<Text>>, x: Text)
  {
    sets != [] && x in sets[0] && forall s :: s in sets ==> Admits(s, x)
  }

  lemma ActiveSetEmpty(policy: Policy, v: Id, field: Field)
    ensures ActiveSet(policy.permissions(v), field) == [] <==> !HasActive(policy, v)
  {
    var s := ActiveSet(policy.permissions(v), field);
    if s != [] {
      assert s[0] in s;
    }
    if HasActive(policy, v) {
      var p :| p in policy.permissions(v) && p.status.ActivePermission?;
      assert Get(p, field) in s;
    }
  }

  lemma {:induction false} SetsExact(policy: Policy, versions: seq<Id>, field: Field)
    ensures SetsOf(policy, versions, field) == [] <==> forall v :: v in versions ==> !HasActive(policy, v)
    ensures forall x :: (forall s :: s in SetsOf(policy, versions, field) ==> Admits(s, x)) <==> AllGrant(policy, versions, field, x)
    ensures forall x :: SetsOf(policy, versions, field) != [] ==>
      (x in SetsOf(policy, versions, field)[0] <==> FirstNames(policy, versions, field, x))
  {
    if versions != [] {
      var init, v := versions[..|versions| - 1], versions[|versions| - 1];
      assert versions == init + [v];
      SetsExact(policy, init, field);
      ActiveSetEmpty(policy, v, field);
      SetsGrant(policy, init, v, field);
      SetsFirst(policy, init, v, field);
    }
  }

  lemma SetsGrant(policy: Policy, init: seq<Id>, v: Id, field: Field)
    requires forall x :: (forall s :: s in SetsOf(policy, init, field) ==> Admits(s, x)) <==> AllGrant(policy, init, field, x)
    ensures forall x :: (forall s :: s in SetsOf(policy, init + [v], field) ==> Admits(s, x)) <==> AllGrant(policy, init + [v], field, x)
  {
    ActiveSetEmpty(policy, v, field);
    var sets, all := SetsOf(policy, init, field), SetsOf(policy, init + [v], field);
    var own := ActiveSet(policy.permissions(v), field);
    assert (init + [v])[..|init|] == init;
    forall x ensures (forall s :: s in all ==> Admits(s, x)) <==> AllGrant(policy, init + [v], field, x) {
      assert (forall s :: s in all ==> Admits(s, x)) <==> (forall s :: s in sets ==> Admits(s, x)) && (own != [] ==> Admits(own, x));
      var granted := HasActive(policy, v) ==> Grants(policy, v, field, x) || Grants(policy, v, field, T("*"));
      assert AllGrant(policy, init + [v], field, x) <==> AllGrant(policy, init, field, x) && granted;
    }
  }

  lemma SetsFirst(policy: Policy, init: seq<Id>, v: Id, field: Field)
    requires SetsOf(policy, init, field) == [] <==> forall w :: w in init ==> !HasActive(policy, w)
    requires forall x :: SetsOf(policy, init, field) != [] ==> (x in SetsOf(policy, init, field)[0] <==> FirstNames(policy, init, field, x))
    ensures forall x :: SetsOf(policy, init + [v], field) != [] ==>
      (x in SetsOf(policy, init + [v], field)[0] <==> FirstNames(policy, init + [v], field, x))
  {
    var sets, all, versions := SetsOf(policy, init, field), SetsOf(policy, init + [v], field), init + [v];
    assert versions[..|init|] == init;
    ActiveSetEmpty(policy, v, field);
    forall x | all != [] ensures x in all[0] <==> FirstNames(policy, versions, field, x) {
      if sets == [] {
        assert forall j :: 0 <= j < |init| ==> !HasActive(policy, init[j]) && !Grants(policy, init[j], field, x) by {
          forall j | 0 <= j < |init| ensures !HasActive(policy, init[j]) && !Grants(policy, init[j], field, x) {
            assert init[j] in init;
          }
        }
        assert versions[|init|] == v;
        assert FirstNames(policy, versions, field, x) <==> Grants(policy, v, field, x);
      } else {
        FirstNamesStable(policy, init, v, field, x);
      }
    }
  }

  lemma FirstNamesStable(policy: Policy, init: seq<Id>, v: Id, field: Field, x: Text)
    requires exists w :: w in init && HasActive(policy, w)
    ensures FirstNames(policy, init + [v], field, x) <==> FirstNames(policy, init, field, x)
  {
    var versions := init + [v];
    assert forall j :: 0 <= j < |init| ==> versions[j] == init[j];
    var w :| w in init && HasActive(policy, w);
    var m :| 0 <= m < |init| && init[m] == w;
    if FirstNames(policy, versions, field, x) {
      var k :| 0 <= k < |versions| && Grants(policy, versions[k], field, x) && forall j :: 0 <= j < k ==> !HasActive(policy, versions[j]);
      assert HasActive(policy, versions[m]);
      assert k <= m;
    }
  }

  /** `intersectSets`: the items of the first set that every set admits. */
  method IntersectSets(sets: seq<seq<Text>>) returns (result: seq<Text>)
    ensures forall x :: x in result <==> InAllSets(sets, x)
  {
    result := [];
    if sets == [] { return; }
    var first := sets[0];
    for i := 0 to |first|
      invariant forall x :: x in result <==> x in first[..i] && forall s :: s in sets ==> Admits(s, x)
    {
      assert first[..i + 1] == first[..i] + [first[i]];
      var every := true;
      for j := 0 to |sets|
        invariant every <==> forall s :: s in sets[..j] ==> Admits(s, first[i])
      {
        assert sets[..j + 1] == sets[..j] + [sets[j]];
        every := every && Admits(sets[j], first[i]);
      }
      assert sets[..|sets|] == sets;
      if every {
        result := result + [first[i]];
      }
    }
    assert first[..|first|] == first;
  }

  datatype Permitted = Permitted(
    withdrawn: bool, expired: bool, destinations: seq<Text>, purposes: seq<Text>, transformations: seq<Text>, notes: seq<Note>)

  /** The loop over one version's permissions. */
  method ReadPermissions(permissions: seq<Permission>, v: Id) returns (r: Permitted)
    ensures r.withdrawn <==> exists p :: p in permissions && p.status.Withdrawn?
    ensures r.expired <==> exists p :: p in permissions && p.status.Expired?
    ensures r.destinations == ActiveSet(permissions, ByDestination) && r.purposes == ActiveSet(permissions, ByPurpose)
    ensures r.transformations == ActiveTransformations(permissions)
    ensures r.notes == StatusNotes(permissions, v)
  {
    r := Permitted(false, false, [], [], [], []);
    for i := 0 to |permissions|
      invariant r.withdrawn <==> exists p :: p in permissions[..i] && p.status.Withdrawn?
      invariant r.expired <==> exists p :: p in permissions[..i] && p.status.Expired?
      invariant r.destinations == ActiveSet(permissions[..i], ByDestination) && r.purposes == ActiveSet(permissions[..i], ByPurpose)
      invariant r.transformations == ActiveTransformations(permissions[..i])
      invariant r.notes == StatusNotes(permissions[..i], v)
    {
      var p := permissions[i];
      assert permissions[..i + 1] == permissions[..i] + [p];
      assert permissions[..i + 1][..i] == permissions[..i];
      if p.status.Withdrawn? {
        r := r.(withdrawn := true, notes := r.notes + [WithdrawnPermission(p.id, v)]);
      }
      if p.status.Expired? {
        r := r.(expired := true, notes := r.notes + [ExpiredPermission(p.id, v)]);
      }
      if p.status.ActivePermission? {
        r := r.(destinations := Add(r.destinations, p.destination), purposes := Add(r.purposes, p.purpose),
                transformations := AddAll(r.transformations, p.transformations));
      }
    }
    assert permissions[..|permissions|] == permissions;
  }

  // ------------------------------------------------------------------ the fold

  /** What the accumulators say of the versions seen so far. */
  ghost predicate Folded(policy: Policy, versions: seq<Id>, e: Effective)
  {
    && (e.localOnly <==> exists v :: v in versions && Uncovered(policy, v))
    && (e.withdrawn <==> exists v :: v in versions && Marked(policy, v, Withdrawn))
    && (e.expired <==> exists v :: v in versions && Marked(policy, v, Expired))
    && HighestOf(policy, versions, e.highest)
    && e.notes == NotesOfAll(policy, versions)
    && (forall t :: t in e.transformations <==> exists v :: v in versions && t in ActiveTransformations(policy.permissions(v)))
  }

  ghost predicate Labelled(policy: Policy, v: Id, level: Text)
  {
    policy.classification(v) == Some(level)
  }

  /** A label that is none of the four the ranks know. */
  predicate Unranked(policy: Policy, v: Id)
  {
    policy.classification(v).Some?
      && policy.classification(v).value !in {T("public"), T("confidential"), T("participant-identifiable"), T("restricted")}
  }

  ghost predicate SomeLabelled(policy: Policy, versions: seq<Id>, level: Text)
  {
    exists v :: v in versions && Labelled(policy, v, level)
  }

  ghost predicate LastUnranked(policy: Policy, versions: seq<Id>, k: nat)
  {
    k < |versions| && Unranked(policy, versions[k]) && forall j :: k < j < |versions| ==> !Unranked(policy, versions[j])
  }

  /** The strictest label met; one the ranks do not know comes before public only, and the last
      such label stands for all of them. */
  ghost predicate HighestOf(policy: Policy, versions: seq<Id>, highest: Text)
  {
    if SomeLabelled(policy, versions, T("restricted")) then highest == T("restricted")
    else if SomeLabelled(policy, versions, T("participant-identifiable")) then highest == T("participant-identifiable")
    else if SomeLabelled(policy, versions, T("confidential")) then highest == T("confidential")
    else if exists v :: v in versions && Unranked(policy, v) then
      exists k: nat :: LastUnranked(policy, versions, k) && Labelled(policy, versions[k], highest)
    else highest == T("public")
  }

  lemma SomeLabelledNext(policy: Policy, versions: seq<Id>, v: Id, level: Text)
    ensures SomeLabelled(policy, versions + [v], level) <==> SomeLabelled(policy, versions, level) || policy.classification(v) == Some(level)
  {
    if SomeLabelled(policy, versions, level) {
      var w :| w in versions && Labelled(policy, w, level);
      assert w in versions + [v];
    }
    assert v in versions + [v];
    assert policy.classification(v) == Some(level) ==> Labelled(policy, v, level);
  }

  lemma UnrankedNext(policy: Policy, versions: seq<Id>, v: Id)
    ensures forall k :: LastUnranked(policy, versions + [v], k) <==>
      (if Unranked(policy, v) then k == |versions| else LastUnranked(policy, versions, k))
    ensures (exists w :: w in versions + [v] && Unranked(policy, w)) <==> Unranked(policy, v) || exists w :: w in versions && Unranked(policy, w)
  {
    var longer := versions + [v];
    assert longer[|versions|] == v && longer[..|versions|] == versions;
    assert forall w :: w in longer <==> w in versions || w == v;
    assert forall j :: 0 <= j < |versions| ==> longer[j] == versions[j];
    forall k ensures LastUnranked(policy, longer, k) <==> (if Unranked(policy, v) then k == |versions| else LastUnranked(policy, versions, k)) {
    }
  }

  lemma HighestNext(policy: Policy, versions: seq<Id>, v: Id, highest: Text)
    requires HighestOf(policy, versions, highest)
    ensures HighestOf(policy, versions + [v], Raised(highest, policy.classification(v)))
  {
    SomeLabelledNext(policy, versions, v, T("restricted"));
    SomeLabelledNext(policy, versions, v, T("participant-identifiable"));
    SomeLabelledNext(policy, versions, v, T("confidential"));
    UnrankedNext(policy, versions, v);
    RanksInOrder(highest);
    if policy.classification(v).Some? { RanksInOrder(policy.classification(v).value); }
    assert forall j :: 0 <= j < |versions| ==> (versions + [v])[j] == versions[j];
    hide T, SomeLabelled;
  }

  /** No label met outranks it, and it is one of them unless it is public. */
  lemma HighestOutranks(policy: Policy, versions: seq<Id>, highest: Text)
    requires HighestOf(policy, versions, highest)
    ensures forall v, level :: v in versions && Labelled(policy, v, level) ==> Rank(level) <= Rank(highest)
    ensures highest == T("public") || SomeLabelled(policy, versions, highest)
  {
    RanksInOrder(highest);
    hide T;
    forall v, level | v in versions && Labelled(policy, v, level) ensures Rank(level) <= Rank(highest) {
      RanksInOrder(level);
    }
  }

  lemma FoldedNext(policy: Policy, versions: seq<Id>, v: Id, before: Effective, after: Effective)
    requires Folded(policy, versions, before)
    requires after.localOnly == (before.localOnly || Uncovered(policy, v))
    requires after.withdrawn == (before.withdrawn || Marked(policy, v, Withdrawn))
    requires after.expired == (before.expired || Marked(policy, v, Expired))
    requires after.notes == before.notes + NotesOf(policy, v)
    requires after.transformations == AddAll(before.transformations, ActiveTransformations(policy.permissions(v)))
    requires after.highest == Raised(before.highest, policy.classification(v))
    ensures Folded(policy, versions + [v], after)
  {
    var longer := versions + [v];
    assert longer[..|versions|] == versions;
    assert forall w :: w in longer <==> w in versions || w == v;
    HighestNext(policy, versions, v, before.highest);
    hide HighestOf, Raised;
  }

  lemma FoldedStart(policy: Policy, e: Effective)
    requires e.highest == T("public") && !e.localOnly && !e.withdrawn && !e.expired && e.transformations == [] && e.notes == []
    ensures Folded(policy, [], e)
  {
  }

  lemma FoldedIgnores(policy: Policy, versions: seq<Id>, e: Effective, destinations: seq<Text>, purposes: seq<Text>)
    requires Folded(policy, versions, e)
    ensures Folded(policy, versions, e.(destinations := destinations, purposes := purposes))
  {
  }

  /** One round of the comparison of labels. */
  function Raised(highest: Text, level: Option<Text>): Text
  {
    if level.Some? && Rank(level.value) > CurrentRank(highest) then level.value else highest
  }

  /** The lists offered to a combination: exactly what the first version with an active
      permission names and every such version grants. */
  ghost predicate Combined(policy: Policy, versions: seq<Id>, field: Field, permitted: seq<Text>)
  {
    forall x :: x in permitted <==> FirstNames(policy, versions, field, x) && AllGrant(policy, versions, field, x)
  }

  ghost predicate ListsClosure(rows: seq<DependencyRow>, roots: seq<Id>, versions: seq<Id>)
  {
    NoDuplicates(versions) && forall v :: v in versions <==> Resolves(rows, roots, v)
  }

  /** `effectiveRestriction`: the fold over the closure of the source versions. */
  method EffectiveRestriction(rows: seq<DependencyRow>, policy: Policy, sources: seq<Id>) returns (e: Effective)
    ensures ListsClosure(rows, sources, e.resolved)
    ensures e.resolved == Discovered(rows, [], sources)
    ensures Folded(policy, e.resolved, e)
    ensures Combined(policy, e.resolved, ByDestination, e.destinations)
    ensures Combined(policy, e.resolved, ByPurpose, e.purposes)
  {
    hide Folded, ActiveSet, Combined, InAllSets, AddAll, NotesOf, Raised;
    var all := ResolveTransitiveVersions(rows, sources);
    e := Effective(all, T("public"), false, false, false, [], [], [], []);
    FoldedStart(policy, e);
    var destinationSets, purposeSets: seq<seq<Text>> := [], [];
    for i := 0 to |all|
      invariant Folded(policy, all[..i], e) && e.resolved == all
      invariant destinationSets == SetsOf(policy, all[..i], ByDestination) && purposeSets == SetsOf(policy, all[..i], ByPurpose)
    {
      ghost var before := e;
      var v := all[i];
      assert all[..i + 1] == all[..i] + [v] && all[..i + 1][..i] == all[..i];
      e := ReadVersion(policy, v, e);
      FoldedNext(policy, all[..i], v, before, e);
      var destinations, purposes := ActiveSet(policy.permissions(v), ByDestination), ActiveSet(policy.permissions(v), ByPurpose);
      if destinations != [] { destinationSets := destinationSets + [destinations]; }
      if purposes != [] { purposeSets := purposeSets + [purposes]; }
    }
    assert all[..|all|] == all;
    SetsExact(policy, all, ByDestination);
    SetsExact(policy, all, ByPurpose);
    var destinations := IntersectSets(destinationSets);
    var purposes := IntersectSets(purposeSets);
    FoldedIgnores(policy, all, e, destinations, purposes);
    e := e.(destinations := destinations, purposes := purposes);
    IntersectionCombines(policy, all, ByDestination, destinations);
    IntersectionCombines(policy, all, ByPurpose, purposes);
  }

  lemma IntersectionCombines(policy: Policy, versions: seq<Id>, field: Field, permitted: seq<Text>)
    requires forall x :: x in permitted <==> InAllSets(SetsOf(policy, versions, field), x)
    ensures Combined(policy, versions, field, permitted)
  {
    SetsExact(policy, versions, field);
    var sets := SetsOf(policy, versions, field);
    forall x ensures x in permitted <==> FirstNames(policy, versions, field, x) && AllGrant(policy, versions, field, x) {
      if FirstNames(policy, versions, field, x) {
        var k :| 0 <= k < |versions| && Grants(policy, versions[k], field, x);
        assert versions[k] in versions && HasActive(policy, versions[k]);
        assert sets != [];
      }
    }
  }

  lemma NoTransformations(s: seq<Text>)
    ensures AddAll(s, ActiveTransformations([])) == s
  {
  }

  /** One round of the loop over the resolved versions. */
  method ReadVersion(policy: Policy, v: Id, e: Effective) returns (r: Effective)
    ensures r == e.(
      localOnly := e.localOnly || Uncovered(policy, v),
      withdrawn := e.withdrawn || Marked(policy, v, Withdrawn),
      expired := e.expired || Marked(policy, v, Expired),
      notes := e.notes + NotesOf(policy, v),
      transformations := AddAll(e.transformations, ActiveTransformations(policy.permissions(v))),
      highest := Raised(e.highest, policy.classification(v)))
  {
    hide AddAll, ActiveSet, ActiveTransformations, StatusNotes;
    r := e;
    var classification := policy.classification(v);
    if classification.None? {
      r := r.(localOnly := true, notes := r.notes + [Unclassified(v)]);
    } else {
      if Rank(classification.value) > CurrentRank(r.highest) {
        r := r.(highest := classification.value);
      }
      r := r.(notes := r.notes + [Sensitivity(classification.value, v)]);
    }
    var permissions := policy.permissions(v);
    ghost var own := if classification.None? then [Unclassified(v)] else [Sensitivity(classification.value, v)];
    assert e.notes + NotesOf(policy, v) == e.notes + own + (if permissions == [] then [NoPermission(v)] else StatusNotes(permissions, v));
    if permissions == [] {
      NoTransformations(e.transformations);
      r := r.(localOnly := true, notes := r.notes + [NoPermission(v)]);
    } else {
      var read := ReadPermissions(permissions, v);
      r := r.(withdrawn := r.withdrawn || read.withdrawn, expired := r.expired || read.expired,
              transformations := AddAll(r.transformations, read.transformations), notes := r.notes + read.notes);
    }
  }

  // ------------------------------------------------------------------ the decision

  datatype Request = Request(
    operation: Text, sources: seq<Id>, destination: Text, purpose: Text, operationsOnly: bool, optIn: bool)

  datatype Verdict = Allow | Deny

  datatype Reason =
    | UnsupportedOperation | OperationsOnlyLocal | NeedsDestination | NeedsOptIn | OperationsOnlyRemote | CarriesContent
    | NoSources | LocalOnlySource | WithdrawnSource | ExpiredSource | ByPolicy(reason: Text) | LocalApproved

  datatype Disclosure = Disclosure(id: Id, request: Request, verdict: Verdict, reason: Reason)

  datatype PolicyDecision = PolicyDecision(verdict: Verdict, reason: Text)

  /** `evaluatePolicy` on all resolved versions. */
  type Evaluate = (seq<Id>, Request) -> PolicyDecision

  function Operations(): set<Text>
  {
    {T("prompt"), T("attachment"), T("summary"), T("compaction"), T("snippet"), T("embedding"), T("telemetry"),
     T("export"), T("diagnostic"), T("analysis"), T("inspection"), T("retrieval")}
  }

  /** A request without sources passes only as an operations-only diagnostic or telemetry. */
  function WithoutSources(r: Request): (a: (Verdict, Reason))
    ensures !OnFlags(a.1)
  {
    if r.operation !in {T("diagnostic"), T("telemetry")} then (Deny, NoSources)
    else if !r.operationsOnly then (Deny, CarriesContent)
    else if r.destination == T("local") then (Allow, OperationsOnlyLocal)
    else if r.destination in {[], T("*")} || r.purpose in {[], T("*")} then (Deny, NeedsDestination)
    else if !r.optIn then (Deny, NeedsOptIn)
    else (Allow, OperationsOnlyRemote)
  }

  /** Some version the sources resolve to makes the material local-only. */
  ghost predicate LocalOnly(rows: seq<DependencyRow>, policy: Policy, roots: seq<Id>)
  {
    exists v :: Resolves(rows, roots, v) && Uncovered(policy, v)
  }

  ghost predicate HasMark(rows: seq<DependencyRow>, policy: Policy, roots: seq<Id>, status: PermissionStatus)
  {
    exists v :: Resolves(rows, roots, v) && Marked(policy, v, status)
  }

  ghost predicate PolicyDecides(rows: seq<DependencyRow>, evaluate: Evaluate, r: Request, verdict: Verdict, reason: Reason)
  {
    exists all :: ListsClosure(rows, r.sources, all) && evaluate(all, r).verdict == verdict && ByPolicy(evaluate(all, r).reason) == reason
  }

  /** The decision, stated over the closure of the sources rather than over the fold. */
  ghost predicate Decides(rows: seq<DependencyRow>, policy: Policy, evaluate: Evaluate, r: Request, verdict: Verdict, reason: Reason)
  {
    if r.operation !in Operations() then verdict == Deny && reason == UnsupportedOperation
    else if r.sources == [] then (verdict, reason) == WithoutSources(r)
    else if r.destination == T("local") then verdict == Allow && reason == LocalApproved
    else if LocalOnly(rows, policy, r.sources) then verdict == Deny && reason == LocalOnlySource
    else if HasMark(rows, policy, r.sources, Withdrawn) then verdict == Deny && reason == WithdrawnSource
    else if HasMark(rows, policy, r.sources, Expired) then verdict == Deny && reason == ExpiredSource
    else PolicyDecides(rows, evaluate, r, verdict, reason)
  }

  class Gateway {
    var dependencies: seq<DependencyRow>
    var policy: Policy
    var writable: bool
    var decisions: seq<Disclosure>

    constructor (dependencies: seq<DependencyRow>, policy: Policy, writable: bool)
      ensures this.dependencies == dependencies && this.policy == policy && this.writable == writable && decisions == []
    {
      this.dependencies, this.policy, this.writable, this.decisions := dependencies, policy, writable, [];
    }

    /** `recordDisclosureDecision`. */
    method RecordDecision(d: Disclosure)
      modifies this`decisions
      ensures decisions == if writable then old(decisions) + [d] else old(decisions)
    {
      if writable {
        decisions := decisions + [d];
      }
    }

    /** `requestDisclosure`: decides, and logs whatever was decided. */
    method RequestDisclosure(r: Request, id: Id, evaluate: Evaluate) returns (d: Disclosure)
      modifies this`decisions
      ensures d.id == id && d.request == r && Decides(dependencies, policy, evaluate, r, d.verdict, d.reason)
      ensures decisions == if writable then old(decisions) + [d] else old(decisions)
    {
      var verdict, reason := Decide(r, evaluate);
      d := Disclosure(id, r, verdict, reason);
      RecordDecision(d);
    }

    method Decide(r: Request, evaluate: Evaluate) returns (verdict: Verdict, reason: Reason)
      ensures Decides(dependencies, policy, evaluate, r, verdict, reason)
    {
      if r.operation !in Operations() { return Deny, UnsupportedOperation; }
      if r.sources == [] {
        var answer := WithoutSources(r);
        return answer.0, answer.1;
      }
      var e := EffectiveRestriction(dependencies, policy, r.sources);
      FlagsOverClosure(dependencies, policy, r.sources, e);
      if r.destination == T("local") { return Allow, LocalApproved; }
      if e.localOnly { return Deny, LocalOnlySource; }
      if e.withdrawn { return Deny, WithdrawnSource; }
      if e.expired { return Deny, ExpiredSource; }
      var decision := evaluate(e.resolved, r);
      return decision.verdict, ByPolicy(decision.reason);
    }
  }

  lemma FlagsOverClosure(rows: seq<DependencyRow>, policy: Policy, roots: seq<Id>, e: Effective)
    requires ListsClosure(rows, roots, e.resolved) && Folded(policy, e.resolved, e)
    ensures e.localOnly <==> LocalOnly(rows, policy, roots)
    ensures e.withdrawn <==> HasMark(rows, policy, roots, Withdrawn)
    ensures e.expired <==> HasMark(rows, policy, roots, Expired)
  {
  }

  // ------------------------------------------------------------------ inheritance

  ghost predicate Wider(rows: seq<DependencyRow>, s: seq<Id>, laterRows: seq<DependencyRow>, t: seq<Id>)
  {
    forall v :: Resolves(rows, s, v) ==> Resolves(laterRows, t, v)
  }

  /** Whatever restricts `s` restricts everything whose closure contains that of `s`: the flags,
      the rank of the highest label, and every note. */
  lemma RestrictionsInherited(
    rows: seq<DependencyRow>, s: seq<Id>, laterRows: seq<DependencyRow>, t: seq<Id>, policy: Policy, es: Effective, et: Effective)
    requires Wider(rows, s, laterRows, t)
    requires ListsClosure(rows, s, es.resolved) && Folded(policy, es.resolved, es)
    requires ListsClosure(laterRows, t, et.resolved) && Folded(policy, et.resolved, et)
    ensures es.localOnly ==> et.localOnly
    ensures es.withdrawn ==> et.withdrawn
    ensures es.expired ==> et.expired
    ensures Rank(es.highest) <= Rank(et.highest)
    ensures forall n :: n in es.notes ==> n in et.notes
    ensures forall x :: x in es.transformations ==> x in et.transformations
  {
    assert forall v :: v in es.resolved ==> v in et.resolved;
    HighestInherited(policy, es.resolved, et.resolved, es.highest, et.highest);
    hide HighestOf, Rank, T;
    forall n | n in es.notes ensures n in et.notes {
      var v :| v in es.resolved && n in NotesOf(policy, v);
      assert v in et.resolved;
    }
  }

  lemma HighestInherited(policy: Policy, versions: seq<Id>, others: seq<Id>, highest: Text, higher: Text)
    requires (forall v :: v in versions ==> v in others) && HighestOf(policy, versions, highest) && HighestOf(policy, others, higher)
    ensures Rank(highest) <= Rank(higher)
  {
    HighestOutranks(policy, versions, highest);
    HighestOutranks(policy, others, higher);
    RanksInOrder(higher);
    hide T, HighestOf, Rank;
    if highest != T("public") {
      var v :| v in versions && Labelled(policy, v, highest);
      assert v in others;
    }
  }

  /** Material reaching every one of `s` resolves to all that `s` resolves to. */
  lemma DerivedIsWider(rows: seq<DependencyRow>, s: seq<Id>, t: seq<Id>)
    requires Identified(rows) && [] !in s && [] !in t
    requires forall v :: v in s ==> exists w :: w in t && Reaches(rows, w, v)
    ensures Wider(rows, s, rows, t)
  {
    forall v | Resolves(rows, s, v) ensures Resolves(rows, t, v) {
      ResolvesIsReaches(rows, s, v);
      var r :| r in s && Reaches(rows, r, v);
      var w :| w in t && Reaches(rows, w, r);
      ReachesTransitive(rows, w, r, v);
      ResolvesIsReaches(rows, t, v);
    }
  }

  ghost predicate Restricted(rows: seq<DependencyRow>, policy: Policy, roots: seq<Id>)
  {
    LocalOnly(rows, policy, roots) || HasMark(rows, policy, roots, Withdrawn) || HasMark(rows, policy, roots, Expired)
  }

  predicate OnFlags(reason: Reason)
  {
    reason in {LocalOnlySource, WithdrawnSource, ExpiredSource}
  }

  /** A request with sources for a place other than local is denied on the flags exactly when
      the closure of its sources is restricted. */
  lemma DeniedOnFlagsExactly(rows: seq<DependencyRow>, policy: Policy, evaluate: Evaluate, r: Request, verdict: Verdict, reason: Reason)
    requires r.operation in Operations() && r.sources != [] && r.destination != T("local")
    requires Decides(rows, policy, evaluate, r, verdict, reason)
    ensures Restricted(rows, policy, r.sources) <==> OnFlags(reason)
    ensures OnFlags(reason) ==> verdict == Deny
  {
  }

  /** A denial on the flags is inherited by every request over derived material, whatever the
      policy evaluation would have said, for any operation and any place but local. */
  lemma DenialInherited(
    rows: seq<DependencyRow>, laterRows: seq<DependencyRow>, policy: Policy, evaluate: Evaluate, evaluateLater: Evaluate,
    r: Request, verdict: Verdict, reason: Reason, later: Request, laterVerdict: Verdict, laterReason: Reason)
    requires Wider(rows, r.sources, laterRows, later.sources)
    requires Decides(rows, policy, evaluate, r, verdict, reason) && OnFlags(reason)
    requires Decides(laterRows, policy, evaluateLater, later, laterVerdict, laterReason)
    requires later.sources != [] && later.destination != T("local")
    ensures laterVerdict == Deny
    ensures later.operation in Operations() ==> OnFlags(laterReason)
  {
    assert Restricted(rows, policy, r.sources);
    assert Restricted(laterRows, policy, later.sources);
  }

  /** What goes out clears every version behind it. */
  lemma AllowedIsClear(rows: seq<DependencyRow>, policy: Policy, evaluate: Evaluate, r: Request, reason: Reason, v: Id)
    requires Decides(rows, policy, evaluate, r, Allow, reason)
    requires r.sources != [] && r.destination != T("local") && Resolves(rows, r.sources, v)
    ensures policy.classification(v).Some? && policy.permissions(v) != []
    ensures forall p :: p in policy.permissions(v) ==> p.status.ActivePermission?
  {
    forall p | p in policy.permissions(v) ensures p.status.ActivePermission? {
      assert p.status.Withdrawn? ==> Marked(policy, v, Withdrawn);
      assert p.status.Expired? ==> Marked(policy, v, Expired);
    }
  }

  lemma EdgeOfEither(rows: seq<DependencyRow>, added: seq<DependencyRow>, a: Id, b: Id)
    requires Edge(rows, a, b) || Edge(added, a, b)
    ensures Edge(rows + added, a, b)
  {
    if Edge(rows, a, b) {
      var i :| 0 <= i < |rows| && rows[i].artifact == a && rows[i].dependency == b;
      assert (rows + added)[i] == rows[i];
    } else {
      var i :| 0 <= i < |added| && added[i].artifact == a && added[i].dependency == b;
      assert (rows + added)[|rows| + i] == added[i];
    }
  }

  lemma DerivedResolves(rows: seq<DependencyRow>, added: seq<DependencyRow>, id: Id, d: Id, p: seq<Id>, w: Id)
    requires Edge(added, id, d) && id != [] && NamedWalk(rows, [d], p, w)
    ensures NamedWalk(rows + added, [id], [id] + p, w)
  {
    hide Edge;
    var q := [id] + p;
    forall i | 0 <= i < |q| - 1 ensures Edge(rows + added, q[i], q[i + 1]) {
      if i > 0 {
        assert q[i] == p[i - 1] && q[i + 1] == p[i - 1 + 1];
      }
      EdgeOfEither(rows, added, q[i], q[i + 1]);
    }
  }

  /** Registering a version over `dependency` makes it resolve to all that `dependency` resolves to. */
  lemma RegistrationInherits(db: Db, id: Id, v: VersionRow, inputs: seq<DependencyInput>, d: DependencyInput)
    requires RegisterRow(db, id, v, inputs).1.Done? && d in inputs
    ensures Wider(db.dependencies, [d.version], Apply(db, RegisterRow(db, id, v, inputs).0).dependencies, [id])
  {
    hide NamedWalk;
    var added := DependencyRows(db.versions, id, inputs).rows;
    EveryInputAdded(db.versions, id, inputs, d);
    forall w | Resolves(db.dependencies, [d.version], w) ensures Resolves(db.dependencies + added, [id], w) {
      var p :| NamedWalk(db.dependencies, [d.version], p, w);
      DerivedResolves(db.dependencies, added, id, d.version, p, w);
    }
  }

  lemma {:induction false} EveryInputAdded(versions: map<Id, VersionRow>, id: Id, inputs: seq<DependencyInput>, d: DependencyInput)
    requires DependencyRows(versions, id, inputs).Rows? && d in inputs
    ensures Edge(DependencyRows(versions, id, inputs).rows, id, d.version)
  {
    var init, last := inputs[..|inputs| - 1], inputs[|inputs| - 1];
    assert inputs == init + [last];
    var rows, earlier := DependencyRows(versions, id, inputs).rows, DependencyRows(versions, id, init).rows;
    if d == last {
      assert rows[|rows| - 1].dependency == d.version;
    } else {
      EveryInputAdded(versions, id, init, d);
      var k :| 0 <= k < |earlier| && earlier[k].artifact == id && earlier[k].dependency == d.version;
      assert rows[k] == earlier[k];
    }
  }

  // ------------------------------------------------------------------ the order of the closure

  /** Two listings offer the same combination. */
  ghost predicate SameCombination(policy: Policy, versions: seq<Id>, others: seq<Id>, field: Field)
  {
    forall x :: FirstNames(policy, versions, field, x) && AllGrant(policy, versions, field, x)
      <==> FirstNames(policy, others, field, x) && AllGrant(policy, others, field, x)
  }

  /** What every version admits and some version names is named by every version that has an
      active permission: no wildcard stands in for a name. */
  ghost predicate NamedThroughout(policy: Policy, versions: seq<Id>, field: Field)
  {
    forall x, v, w :: AllGrant(policy, versions, field, x) && v in versions && Grants(policy, v, field, x) && w in versions && HasActive(policy, w)
      ==> Grants(policy, w, field, x)
  }

  ghost predicate OrderIrrelevant(policy: Policy, versions: seq<Id>, field: Field)
  {
    forall others {:trigger SameCombination(policy, versions, others, field)} ::
      multiset(others) == multiset(versions) ==> SameCombination(policy, versions, others, field)
  }

  lemma SameMembers(versions: seq<Id>, others: seq<Id>)
    requires multiset(others) == multiset(versions)
    ensures forall v :: v in others <==> v in versions
  {
    forall v ensures v in others <==> v in versions {
      assert v in others <==> v in multiset(others);
      assert v in versions <==> v in multiset(versions);
    }
  }

  /** The first version with an active permission. */
  lemma FirstActive(policy: Policy, versions: seq<Id>) returns (k: nat)
    requires exists v :: v in versions && HasActive(policy, v)
    ensures k < |versions| && HasActive(policy, versions[k]) && forall j :: 0 <= j < k ==> !HasActive(policy, versions[j])
  {
    k := 0;
    while !HasActive(policy, versions[k])
      invariant k < |versions| && forall j :: 0 <= j < k ==> !HasActive(policy, versions[j])
      invariant exists v :: v in versions && HasActive(policy, v)
      decreases |versions| - k
    {
      var v :| v in versions && HasActive(policy, v);
      var m :| 0 <= m < |versions| && versions[m] == v;
      assert k < m;
      k := k + 1;
    }
  }

  lemma NamedByFirst(policy: Policy, versions: seq<Id>, field: Field, x: Text, k: nat)
    requires k < |versions| && HasActive(policy, versions[k]) && forall j :: 0 <= j < k ==> !HasActive(policy, versions[j])
    ensures FirstNames(policy, versions, field, x) <==> Grants(policy, versions[k], field, x)
  {
    if FirstNames(policy, versions, field, x) {
      var i :| 0 <= i < |versions| && Grants(policy, versions[i], field, x) && forall j :: 0 <= j < i ==> !HasActive(policy, versions[j]);
      assert HasActive(policy, versions[i]);
      assert i == k;
    }
  }

  lemma FirstNamesIsNamed(policy: Policy, versions: seq<Id>, others: seq<Id>, field: Field, x: Text)
    requires NamedThroughout(policy, versions, field) && multiset(others) == multiset(versions)
    requires FirstNames(policy, versions, field, x) && AllGrant(policy, versions, field, x)
    ensures FirstNames(policy, others, field, x) && AllGrant(policy, others, field, x)
  {
    hide Grants;
    SameMembers(versions, others);
    var i :| 0 <= i < |versions| && Grants(policy, versions[i], field, x);
    GrantsIsActive(policy, versions[i], field, x);
    assert versions[i] in versions && versions[i] in others;
    var k := FirstActive(policy, others);
    assert others[k] in others && others[k] in versions;
    NamedByFirst(policy, others, field, x, k);
  }

  lemma GrantsIsActive(policy: Policy, v: Id, field: Field, x: Text)
    requires Grants(policy, v, field, x)
    ensures HasActive(policy, v)
  {
  }

  lemma Reordered(policy: Policy, versions: seq<Id>, others: seq<Id>, field: Field)
    requires NamedThroughout(policy, versions, field) && multiset(others) == multiset(versions)
    ensures NamedThroughout(policy, others, field)
  {
    hide Grants, HasActive;
    SameMembers(versions, others);
    forall x ensures AllGrant(policy, others, field, x) <==> AllGrant(policy, versions, field, x) {
    }
  }

  /** The same versions with the one at `k` moved to the front. */
  function Fronted(versions: seq<Id>, k: nat): (others: seq<Id>)
    requires k < |versions|
    ensures multiset(others) == multiset(versions) && others != [] && others[0] == versions[k]
  {
    assert versions == versions[..k] + ([versions[k]] + versions[k + 1..]);
    [versions[k]] + versions[..k] + versions[k + 1..]
  }

  /** The combination is the same for every order of the listing if and only if no wildcard stands
      in for a name that every version admits. */
  lemma OrderIrrelevantExactly(policy: Policy, versions: seq<Id>, field: Field)
    ensures OrderIrrelevant(policy, versions, field) <==> NamedThroughout(policy, versions, field)
  {
    hide Grants, FirstNames;
    if NamedThroughout(policy, versions, field) {
      forall others | multiset(others) == multiset(versions) ensures SameCombination(policy, versions, others, field) {
        Reordered(policy, versions, others, field);
        forall x ensures FirstNames(policy, versions, field, x) && AllGrant(policy, versions, field, x)
          <==> FirstNames(policy, others, field, x) && AllGrant(policy, others, field, x)
        {
          if FirstNames(policy, versions, field, x) && AllGrant(policy, versions, field, x) {
            FirstNamesIsNamed(policy, versions, others, field, x);
          }
          if FirstNames(policy, others, field, x) && AllGrant(policy, others, field, x) {
            FirstNamesIsNamed(policy, others, versions, field, x);
          }
        }
      }
    }
    if OrderIrrelevant(policy, versions, field) {
      forall x, v, w | AllGrant(policy, versions, field, x) && v in versions && Grants(policy, v, field, x) && w in versions && HasActive(policy, w)
        ensures Grants(policy, w, field, x)
      {
        EitherFirst(policy, versions, field, x, v, w);
      }
    }
  }

  lemma EitherFirst(policy: Policy, versions: seq<Id>, field: Field, x: Text, v: Id, w: Id)
    requires OrderIrrelevant(policy, versions, field) && AllGrant(policy, versions, field, x)
    requires v in versions && Grants(policy, v, field, x) && w in versions && HasActive(policy, w)
    ensures Grants(policy, w, field, x)
  {
    hide Grants, FirstNames, HasActive;
    var i :| 0 <= i < |versions| && versions[i] == v;
    var j :| 0 <= j < |versions| && versions[j] == w;
    var vFirst, wFirst := Fronted(versions, i), Fronted(versions, j);
    GrantsIsActive(policy, v, field, x);
    NamedByFirst(policy, vFirst, field, x, 0);
    NamedByFirst(policy, wFirst, field, x, 0);
    SameMembers(versions, vFirst);
    SameMembers(versions, wFirst);
    assert SameCombination(policy, versions, vFirst, field) && SameCombination(policy, versions, wFirst, field);
    assert AllGrant(policy, vFirst, field, x);
  }

  /** And the order is the caller's: any order of versions that need nothing else is the listing
      of the request that names its sources in that order. */
  lemma EveryOrderIsAListing(rows: seq<DependencyRow>, sources: seq<Id>, e: Effective)
    requires NoDuplicates(sources) && [] !in sources && forall a, b :: Edge(rows, a, b) && a in sources ==> b in sources
    requires e.resolved == Discovered(rows, [], sources) && ListsClosure(rows, sources, e.resolved)
    ensures e.resolved == sources
  {
    ClosedRootsAsGiven(rows, sources, e.resolved);
  }

  /** So on a store without dependencies the sources [a, b] and [b, a] are offered different
      destinations when `a` grants the wildcard and `b` one place: none, and that place. */
  lemma CombinationDependsOnOrder(policy: Policy, a: Id, b: Id, first: Effective, second: Effective)
    requires a != b && a != [] && b != []
    requires policy.permissions(a) == [Permission(a, T("*"), T("p"), [], ActivePermission)]
    requires policy.permissions(b) == [Permission(b, T("lab"), T("p"), [], ActivePermission)]
    requires first.resolved == Discovered([], [], [a, b]) && ListsClosure([], [a, b], first.resolved)
    requires second.resolved == Discovered([], [], [b, a]) && ListsClosure([], [b, a], second.resolved)
    requires Combined(policy, first.resolved, ByDestination, first.destinations)
    requires Combined(policy, second.resolved, ByDestination, second.destinations)
    ensures (forall x :: x !in first.destinations) && T("lab") in second.destinations
  {
    EveryOrderIsAListing([], [a, b], first);
    EveryOrderIsAListing([], [b, a], second);
    WildcardFirst(policy, a, b, first.destinations, second.destinations);
  }

  lemma WildcardFirst(policy: Policy, a: Id, b: Id, first: seq<Text>, second: seq<Text>)
    requires a != b
    requires policy.permissions(a) == [Permission(a, T("*"), T("p"), [], ActivePermission)]
    requires policy.permissions(b) == [Permission(b, T("lab"), T("p"), [], ActivePermission)]
    requires Combined(policy, [a, b], ByDestination, first) && Combined(policy, [b, a], ByDestination, second)
    ensures (forall x :: x !in first) && T("lab") in second
  {
    var wildcard := Permission(a, T("*"), T("p"), [], ActivePermission);
    var named := Permission(b, T("lab"), T("p"), [], ActivePermission);
    assert wildcard in policy.permissions(a) && named in policy.permissions(b);
    assert T("lab")[0] == 'l' as int && T("*")[0] == '*' as int;
    assert HasActive(policy, a) && HasActive(policy, b);
    forall x ensures x !in first {
      if FirstNames(policy, [a, b], ByDestination, x) {
        assert [a, b][0] == a;
        assert x == T("*");
        assert !Grants(policy, b, ByDestination, x);
        assert b in [a, b];
      }
    }
    assert Grants(policy, [b, a][0], ByDestination, T("lab")) && Grants(policy, a, ByDestination, T("*"));
  }

  // ------------------------------------------------------------------ labels and source-less requests

  /** The order of the labels, and the place of unknown ones: with confidential. */
  lemma RanksInOrder(level: Text)
    ensures 0 == Rank(T("public")) < Rank(T("confidential")) < Rank(T("participant-identifiable")) < Rank(T("restricted"))
    ensures level !in {T("public"), T("confidential"), T("participant-identifiable"), T("restricted")} ==> Rank(level) == Rank(T("confidential"))
    ensures CurrentRank(level) <= Rank(level)
  {
    assert T("public")[0] == 'p' as int && T("public")[1] == 'u' as int;
    assert T("confidential")[0] == 'c' as int;
    assert T("participant-identifiable")[0] == 'p' as int && T("participant-identifiable")[1] == 'a' as int;
    assert T("restricted")[0] == 'r' as int;
  }

  /** A place or purpose named in full. */
  ghost predicate Explicit(t: Text)
  {
    t != [] && t != T("*")
  }

  /** A request without sources is allowed if and only if it is a diagnostic or telemetry of
      operations only, and stays local or goes to an explicit place for an explicit purpose with
      the owner's opt-in. */
  lemma SourcelessExactly(rows: seq<DependencyRow>, policy: Policy, evaluate: Evaluate, r: Request, verdict: Verdict, reason: Reason)
    requires r.sources == [] && Decides(rows, policy, evaluate, r, verdict, reason)
    ensures verdict == Allow <==>
      && (r.operation == T("diagnostic") || r.operation == T("telemetry")) && r.operationsOnly
      && (r.destination == T("local") || (Explicit(r.destination) && Explicit(r.purpose) && r.optIn))
  {
    assert T("diagnostic") in Operations() && T("telemetry") in Operations();
    hide T, Operations;
  }

  /** A request with sources: denied for an unknown operation and for restricted sources going
      out; allowed for any other that stays local; and left to policy in the remaining case. */
  lemma SourcedExactly(rows: seq<DependencyRow>, policy: Policy, evaluate: Evaluate, r: Request, verdict: Verdict, reason: Reason)
    requires r.sources != [] && Decides(rows, policy, evaluate, r, verdict, reason)
    ensures r.operation !in Operations() ==> verdict == Deny
    ensures r.operation in Operations() && r.destination == T("local") ==> verdict == Allow
    ensures r.operation in Operations() && r.destination != T("local") && Restricted(rows, policy, r.sources) ==> verdict == Deny
    ensures r.operation in Operations() && r.destination != T("local") && !Restricted(rows, policy, r.sources) ==>
      exists all :: ListsClosure(rows, r.sources, all) && evaluate(all, r).verdict == verdict && ByPolicy(evaluate(all, r).reason) == reason
  {
    hide T, Operations;
  }

  /** The version lacks a classification or any permission. */
  ghost predicate Lacking(policy: Policy, v: Id)
  {
    policy.classification(v) == None || policy.permissions(v) == []
  }

  ghost predicate Carries(policy: Policy, v: Id, status: PermissionStatus)
  {
    exists p :: p in policy.permissions(v) && p.status == status
  }

  /** The flag a request with sources is denied on, in terms of the versions behind it: local-only
      when some version is lacking, else withdrawn when some permission was, else expired. */
  lemma FlagsExactly(rows: seq<DependencyRow>, policy: Policy, evaluate: Evaluate, r: Request, verdict: Verdict, reason: Reason)
    requires r.operation in Operations() && r.sources != [] && r.destination != T("local")
    requires Decides(rows, policy, evaluate, r, verdict, reason)
    ensures var lacking := exists v :: Resolves(rows, r.sources, v) && Lacking(policy, v);
      var withdrawn := exists v :: Resolves(rows, r.sources, v) && Carries(policy, v, Withdrawn);
      var expired := exists v :: Resolves(rows, r.sources, v) && Carries(policy, v, Expired);
      && (reason == LocalOnlySource <==> lacking)
      && (reason == WithdrawnSource <==> !lacking && withdrawn)
      && (reason == ExpiredSource <==> !lacking && !withdrawn && expired)
      && (OnFlags(reason) ==> verdict == Deny)
  {
    hide T, Operations, Resolves;
    forall v ensures Lacking(policy, v) <==> Uncovered(policy, v) {
    }
    forall v, status ensures Carries(policy, v, status) <==> Marked(policy, v, status) {
    }
    hide Lacking, Carries, Uncovered, Marked;
  }

  /** What each note says of a version. */
  lemma NotesExactly(policy: Policy, v: Id, n: Note)
    ensures n in NotesOf(policy, v) <==>
      match n
      case Unclassified(w) => w == v && policy.classification(v) == None
      case Sensitivity(level, w) => w == v && policy.classification(v) == Some(level)
      case NoPermission(w) => w == v && policy.permissions(v) == []
      case WithdrawnPermission(id, w) => w == v && exists p :: p in policy.permissions(v) && p.id == id && p.status == Withdrawn
      case ExpiredPermission(id, w) => w == v && exists p :: p in policy.permissions(v) && p.id == id && p.status == Expired
  {
    StatusNotesExactly(policy.permissions(v), v, n);
    hide StatusNotes;
  }

  lemma {:induction false} StatusNotesExactly(permissions: seq<Permission>, v: Id, n: Note)
    ensures n in StatusNotes(permissions, v) <==>
      || (n.WithdrawnPermission? && n.version == v && exists p :: p in permissions && p.id == n.permission && p.status == Withdrawn)
      || (n.ExpiredPermission? && n.version == v && exists p :: p in permissions && p.id == n.permission && p.status == Expired)
  {
    if permissions != [] {
      var init, last := permissions[..|permissions| - 1], permissions[|permissions| - 1];
      assert permissions == init + [last];
      StatusNotesExactly(init, v, n);
    }
  }
}
