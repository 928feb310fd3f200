/** Matching an activity's context against the scope of a recorded external authorization.
    `norm` stands for trimming, lower-casing and the folding of white space. */
module Authorization {
  import opened Texts
  import opened Json
  import opened CanonicalForm

  type Norm = Text -> Text

  datatype Context = Context(
    population: Option<Text>, dataUse: Option<Text>, dataClasses: Option<seq<Text>>,
    destination: Option<Text>, purpose: Option<Text>, conditions: Option<Json>)

  datatype Dimension = Population | DataUse | DataClasses | Destination | Purpose | Conditions

  datatype Mismatch =
    | ContextRequired | LabelForBoth | LabelOutside(d: Dimension) | LabelDocumentsLess | NotAScope | NothingDocumented
    | Malformed(d: Dimension) | Outside(d: Dimension) | Required(d: Dimension) | Undocumented(d: Dimension)

  function TextsOf(items: seq<Json>): (r: Option<seq<Text>>)
    ensures r.Some? <==> forall i :: 0 <= i < |items| ==> items[i].Str? && !IsBlank(items[i].t)
    ensures r.Some? ==> |r.value| == |items| && forall i :: 0 <= i < |items| ==> r.value[i] == items[i].t
  {
    if items == [] then Some([])
    else
      var rest := TextsOf(items[1..]);
      if rest.None? || !items[0].Str? || IsBlank(items[0].t) then None else Some([items[0].t] + rest.value)
  }

  /** `stringArray`: a non-empty array of non-blank strings. */
  function StringArray(value: Json): Option<seq<Text>>
  {
    if value.Arr? && value.items != [] then TextsOf(value.items) else None
  }

  /** `scopeValue`: the value under the first of the two spellings that is present. */
  function ScopeValue(scope: seq<Field>, key: Text, other: Text): Option<Json>
  {
    if ValueAt(scope, key).Some? then ValueAt(scope, key) else ValueAt(scope, other)
  }

  predicate Alike(norm: Norm, a: Text, b: Text)
  {
    norm(a) == norm(b)
  }

  /** `matchesStringScope` */
  predicate MatchesStringScope(norm: Norm, authorized: Json, requested: Text)
  {
    if authorized.Str? then Alike(norm, authorized.t, requested)
    else StringArray(authorized).Some? && exists s :: s in StringArray(authorized).value && Alike(norm, s, requested)
  }

  /** `conditionsCovered` */
  predicate ConditionsCovered(norm: Norm, authorized: Json, requested: Json)
  {
    if authorized.Arr? then
      if requested.Arr? then Canonical(authorized) == Canonical(requested)
      else |authorized.items| == 1 && Canonical(authorized.items[0]) == Canonical(requested)
    else if requested.Arr? && authorized.Str? then
      |requested.items| == 1 && requested.items[0].Str? && Alike(norm, requested.items[0].t, authorized.t)
    else Canonical(authorized) == Canonical(requested)
  }

  // ------------------------------------------------------------------ scopeMismatch

  function LabelMismatch(norm: Norm, scopeLabel: Text, r: Context): Option<Mismatch>
  {
    if r.population.None? && r.dataUse.None? then Some(ContextRequired)
    else if r.population.Some? && r.dataUse.Some? then Some(LabelForBoth)
    else if r.population.Some? && !Alike(norm, scopeLabel, r.population.value) then Some(LabelOutside(Population))
    else if r.dataUse.Some? && !MatchesStringScope(norm, Str(scopeLabel), r.dataUse.value) then Some(LabelOutside(DataUse))
    else if r.dataClasses.Some? || r.destination.Some? || r.purpose.Some? || r.conditions.Some? then Some(LabelDocumentsLess)
    else None
  }

  /** The checks on the population, and the same ones on the data use. */
  function TextMismatch(norm: Norm, authorized: Option<Json>, requested: Option<Text>, d: Dimension): Option<Mismatch>
  {
    if authorized.None? then None
    else if !authorized.value.Str? && StringArray(authorized.value).None? then Some(Malformed(d))
    else if requested.Some? && !MatchesStringScope(norm, authorized.value, requested.value) then Some(Outside(d))
    else if requested.None? then Some(Required(d))
    else None
  }

  function ClassesMismatch(norm: Norm, authorized: Option<Json>, requested: Option<seq<Text>>): Option<Mismatch>
  {
    if authorized.None? then None
    else if StringArray(authorized.value).None? then Some(Malformed(DataClasses))
    else if requested.Some? && !ClassesCovered(norm, StringArray(authorized.value).value, requested.value) then Some(Outside(DataClasses))
    else if requested.None? then Some(Required(DataClasses))
    else None
  }

  predicate ClassesCovered(norm: Norm, authorized: seq<Text>, requested: seq<Text>)
  {
    forall c :: c in requested ==> exists a :: a in authorized && Alike(norm, a, c)
  }

  function PlaceMismatch(norm: Norm, authorized: Option<Json>, requested: Option<Text>, d: Dimension): Option<Mismatch>
  {
    if authorized.None? then None
    else if requested.None? then Some(Required(d))
    else if !MatchesStringScope(norm, authorized.value, requested.value) then Some(Outside(d))
    else None
  }

  function ConditionsMismatch(norm: Norm, authorized: Option<Json>, requested: Option<Json>): Option<Mismatch>
  {
    if authorized.None? then None
    else if authorized.value.Null? then Some(Malformed(Conditions))
    else if requested.None? then Some(Required(Conditions))
    else if !ConditionsCovered(norm, authorized.value, requested.value) then Some(Outside(Conditions))
    else None
  }

  function UndocumentedMismatch(scope: seq<Field>, r: Context): Option<Mismatch>
  {
    if PopulationIn(scope).None? && r.population.Some? then Some(Undocumented(Population))
    else if ClassesIn(scope).None? && r.dataClasses.Some? then Some(Undocumented(DataClasses))
    else if DataUseIn(scope).None? && r.dataUse.Some? then Some(Undocumented(DataUse))
    else if DestinationIn(scope).None? && r.destination.Some? then Some(Undocumented(Destination))
    else if PurposeIn(scope).None? && r.purpose.Some? then Some(Undocumented(Purpose))
    else if ConditionsIn(scope).None? && r.conditions.Some? then Some(Undocumented(Conditions))
    else None
  }

  function PopulationIn(scope: seq<Field>): Option<Json> { ScopeValue(scope, T("population"), T("populations")) }

  function DataUseIn(scope: seq<Field>): Option<Json> { ScopeValue(scope, T("dataUse"), T("data-use")) }

  function ClassesIn(scope: seq<Field>): Option<Json> { ValueAt(scope, T("dataClasses")) }

  function DestinationIn(scope: seq<Field>): Option<Json> { ScopeValue(scope, T("destination"), T("destinations")) }

  function PurposeIn(scope: seq<Field>): Option<Json> { ScopeValue(scope, T("purpose"), T("purposes")) }

  function ConditionsIn(scope: seq<Field>): Option<Json> { ValueAt(scope, T("conditions")) }

  function OrElse(first: Option<Mismatch>, second: Option<Mismatch>): Option<Mismatch>
  {
    if first.Some? then first else second
  }

  function ObjectMismatch(norm: Norm, scope: seq<Field>, r: Context): Option<Mismatch>
  {
    if PopulationIn(scope).None? && DataUseIn(scope).None? then Some(NothingDocumented)
    else
      OrElse(TextMismatch(norm, PopulationIn(scope), r.population, Population),
      OrElse(ClassesMismatch(norm, ClassesIn(scope), r.dataClasses),
      OrElse(TextMismatch(norm, DataUseIn(scope), r.dataUse, DataUse),
      OrElse(PlaceMismatch(norm, DestinationIn(scope), r.destination, Destination),
      OrElse(PlaceMismatch(norm, PurposeIn(scope), r.purpose, Purpose),
      OrElse(ConditionsMismatch(norm, ConditionsIn(scope), r.conditions),
             UndocumentedMismatch(scope, r)))))))
  }

  /** `scopeMismatch`: the first thing wrong, in the order the checks are made. */
  function ScopeMismatch(norm: Norm, scope: Json, r: Context): Option<Mismatch>
  {
    match scope
    case Str(scopeLabel) => LabelMismatch(norm, scopeLabel, r)
    case Obj(fields) => ObjectMismatch(norm, fields, r)
    case _ => Some(NotAScope)
  }

  // ------------------------------------------------------------------ what a scope permits

  /** The labels a scope entry lists: a string lists itself, a proper array its elements. */
  function Listed(authorized: Json): seq<Text>
  {
    if authorized.Str? then [authorized.t] else if StringArray(authorized).Some? then StringArray(authorized).value else []
  }

  predicate Lists(norm: Norm, authorized: Json, requested: Text)
  {
    exists s :: s in Listed(authorized) && Alike(norm, s, requested)
  }

  /** A dimension agrees: the scope documents it exactly if the request supplies it, and what
      is supplied is among what is documented. */
  predicate TextAgrees(norm: Norm, authorized: Option<Json>, requested: Option<Text>)
  {
    && (authorized.Some? <==> requested.Some?)
    && (requested.Some? ==> Lists(norm, authorized.value, requested.value))
  }

  predicate ClassesAgree(norm: Norm, authorized: Option<Json>, requested: Option<seq<Text>>)
  {
    && (authorized.Some? <==> requested.Some?)
    && (requested.Some? ==> authorized.value.Arr? && Listed(authorized.value) != [])
    && (requested.Some? ==> forall c :: c in requested.value ==> Lists(norm, authorized.value, c))
  }

  /** Conditions are met as bags: two arrays by the same conditions in any order, an array of
      one by that one, a label by an array of one label like it. */
  ghost predicate ConditionsMet(norm: Norm, authorized: Json, requested: Json)
  {
    if authorized.Arr? && !requested.Arr? then
      |authorized.items| == 1 && BagOf(Settle(authorized.items[0])) == BagOf(Settle(requested))
    else if authorized.Str? && requested.Arr? then
      exists t :: requested.items == [Str(t)] && Alike(norm, t, authorized.t)
    else BagOf(Settle(authorized)) == BagOf(Settle(requested))
  }

  ghost predicate ConditionsAgree(norm: Norm, authorized: Option<Json>, requested: Option<Json>)
  {
    && (authorized.Some? <==> requested.Some?)
    && (requested.Some? ==> !authorized.value.Null? && ConditionsMet(norm, authorized.value, requested.value))
  }

  ghost predicate ObjectPermits(norm: Norm, scope: seq<Field>, r: Context)
  {
    && (PopulationIn(scope).Some? || DataUseIn(scope).Some?)
    && TextAgrees(norm, PopulationIn(scope), r.population)
    && TextAgrees(norm, DataUseIn(scope), r.dataUse)
    && ClassesAgree(norm, ClassesIn(scope), r.dataClasses)
    && TextAgrees(norm, DestinationIn(scope), r.destination)
    && TextAgrees(norm, PurposeIn(scope), r.purpose)
    && ConditionsAgree(norm, ConditionsIn(scope), r.conditions)
  }

  ghost predicate LabelPermits(norm: Norm, scopeLabel: Text, r: Context)
  {
    && r in {Context(r.population, None, None, None, None, None), Context(None, r.dataUse, None, None, None, None)}
    && (r.population.Some? ==> Alike(norm, scopeLabel, r.population.value))
    && (r.dataUse.Some? ==> Alike(norm, scopeLabel, r.dataUse.value))
    && (r.population.Some? || r.dataUse.Some?)
  }

  ghost predicate Permits(norm: Norm, scope: Json, r: Context)
  {
    match scope
    case Str(scopeLabel) => LabelPermits(norm, scopeLabel, r)
    case Obj(fields) => ObjectPermits(norm, fields, r)
    case _ => false
  }

  lemma ListsIsMatch(norm: Norm, authorized: Json, requested: Text)
    ensures MatchesStringScope(norm, authorized, requested) <==> Lists(norm, authorized, requested)
    ensures Lists(norm, authorized, requested) ==> authorized.Str? || StringArray(authorized).Some?
  {
    if authorized.Str? {
      assert authorized.t in Listed(authorized);
    }
  }

  lemma TextDecided(norm: Norm, authorized: Option<Json>, requested: Option<Text>, d: Dimension)
    ensures TextMismatch(norm, authorized, requested, d) == None && (authorized.None? ==> requested.None?) <==> TextAgrees(norm, authorized, requested)
    ensures PlaceMismatch(norm, authorized, requested, d) == None && (authorized.None? ==> requested.None?) <==> TextAgrees(norm, authorized, requested)
  {
    if authorized.Some? && requested.Some? {
      ListsIsMatch(norm, authorized.value, requested.value);
    }
  }

  lemma ClassesDecided(norm: Norm, authorized: Option<Json>, requested: Option<seq<Text>>)
    ensures ClassesMismatch(norm, authorized, requested) == None && (authorized.None? ==> requested.None?) <==> ClassesAgree(norm, authorized, requested)
  {
    if authorized.Some? && requested.Some? && StringArray(authorized.value).Some? {
      assert Listed(authorized.value) == StringArray(authorized.value).value;
      forall c | c in requested.value
        ensures Lists(norm, authorized.value, c) <==> exists a :: a in StringArray(authorized.value).value && Alike(norm, a, c)
      {
      }
    }
  }

  /** `conditionsCovered` decides whether the conditions are met as bags. */
  lemma ConditionsDecided(norm: Norm, authorized: Json, requested: Json)
    requires WellFormed(authorized) && WellFormed(requested)
    ensures ConditionsCovered(norm, authorized, requested) <==> ConditionsMet(norm, authorized, requested)
  {
    CanonicalDecidesSettled(authorized, requested);
    if authorized.Arr? && |authorized.items| == 1 {
      CanonicalDecidesSettled(authorized.items[0], requested);
    }
    if authorized.Str? && requested.Arr? {
      if ConditionsCovered(norm, authorized, requested) {
        assert requested.items == [Str(requested.items[0].t)];
      }
    }
  }

  ghost predicate ContextWellFormed(r: Context)
  {
    r.conditions.Some? ==> WellFormed(r.conditions.value)
  }

  lemma {:induction false} ValueWellFormed(fields: seq<Field>, key: Text)
    requires forall i :: 0 <= i < |fields| ==> WellFormed(fields[i].value)
    ensures ValueAt(fields, key).Some? ==> WellFormed(ValueAt(fields, key).value)
  {
    if fields != [] {
      ValueWellFormed(fields[1..], key);
    }
  }

  /** `scopeMismatch` finds nothing exactly when the scope permits the context. */
  lemma ScopeDecides(norm: Norm, scope: Json, r: Context)
    requires WellFormed(scope) && ContextWellFormed(r)
    ensures ScopeMismatch(norm, scope, r) == None <==> Permits(norm, scope, r)
  {
    hide ScopeValue, ValueAt, TextMismatch, PlaceMismatch, ClassesMismatch, TextAgrees, ClassesAgree, ConditionsCovered, ConditionsMet;
    match scope
    case Str(scopeLabel) =>
    case Obj(fields) =>
      TextDecided(norm, PopulationIn(fields), r.population, Population);
      TextDecided(norm, DataUseIn(fields), r.dataUse, DataUse);
      TextDecided(norm, DestinationIn(fields), r.destination, Destination);
      TextDecided(norm, PurposeIn(fields), r.purpose, Purpose);
      ClassesDecided(norm, ClassesIn(fields), r.dataClasses);
      ConditionsEntryDecided(norm, fields, r);
      AgreementIsPresence(norm, fields, r);
    case _ =>
  }

  lemma ConditionsEntryDecided(norm: Norm, fields: seq<Field>, r: Context)
    requires WellFormed(Obj(fields)) && ContextWellFormed(r)
    ensures ConditionsMismatch(norm, ConditionsIn(fields), r.conditions) == None && (ConditionsIn(fields).None? ==> r.conditions.None?)
      <==> ConditionsAgree(norm, ConditionsIn(fields), r.conditions)
  {
    ValueWellFormed(fields, T("conditions"));
    if ConditionsIn(fields).Some? && r.conditions.Some? {
      ConditionsDecided(norm, ConditionsIn(fields).value, r.conditions.value);
    }
  }

  lemma AgreementIsPresence(norm: Norm, scope: seq<Field>, r: Context)
    ensures UndocumentedMismatch(scope, r) == None <==>
      && (PopulationIn(scope).None? ==> r.population.None?)
      && (DataUseIn(scope).None? ==> r.dataUse.None?)
      && (ClassesIn(scope).None? ==> r.dataClasses.None?)
      && (DestinationIn(scope).None? ==> r.destination.None?)
      && (PurposeIn(scope).None? ==> r.purpose.None?)
      && (ConditionsIn(scope).None? ==> r.conditions.None?)
  {
  }

  // ------------------------------------------------------------------ the assessment

  datatype AuthorizationStatus =
    | DocumentedApproved | NotRequired | AuthorizationWithdrawn | AuthorizationExpired | Pending | Unknown | Unauthorized | NeedsReview

  datatype Expiry = Never | Unparsable | At(time: int)

  /** A row of `external_authorizations`; `readable` when its columns decode. */
  datatype AuthorizationRow = AuthorizationRow(
    readable: bool, id: Id, activities: set<Text>, status: AuthorizationStatus, basis: Text, expires: Expiry, scope: Json)

  type Id = Text

  /** The request as it arrives, its context not yet checked. */
  datatype RawContext = RawContext(
    population: Option<Json>, dataUse: Option<Json>, dataClasses: Option<Json>,
    destination: Option<Json>, purpose: Option<Json>, conditions: Option<Json>)

  datatype Verdict = Verdict(status: AuthorizationStatus, authorization: Option<Id>, permitted: bool, mismatch: Option<Mismatch>)

  function Activities(): set<Text>
  {
    {T("literature-only"), T("pilot"), T("participant-recruitment"), T("participant-contact"), T("data-collection"),
     T("identifiable-analysis"), T("disclosure")}
  }

  predicate ProperText(value: Option<Json>)
  {
    value.Some? ==> value.value.Str? && !IsBlank(value.value.t)
  }

  predicate Proper(c: RawContext)
  {
    && ProperText(c.population) && ProperText(c.dataUse) && ProperText(c.destination) && ProperText(c.purpose)
    && (c.dataClasses.Some? ==> StringArray(c.dataClasses.value).Some?)
    && c.conditions != Some(Null)
  }

  function TextIn(value: Option<Json>): Option<Text>
  {
    if value.Some? && value.value.Str? then Some(value.value.t) else None
  }

  function Checked(c: RawContext): Context
  {
    Context(TextIn(c.population), TextIn(c.dataUse), if c.dataClasses.Some? then StringArray(c.dataClasses.value) else None,
            TextIn(c.destination), TextIn(c.purpose), c.conditions)
  }

  /** The rows that name the activity, newest first as they are read. */
  function Matching(rows: seq<AuthorizationRow>, activity: Text): (matching: seq<AuthorizationRow>)
    ensures forall r :: r in matching ==> r in rows && activity in r.activities
    ensures matching == [] <==> forall r :: r in rows ==> activity !in r.activities
  {
    if rows == [] then []
    else if activity in rows[0].activities then [rows[0]] + Matching(rows[1..], activity)
    else Matching(rows[1..], activity)
  }

  function Refused(status: AuthorizationStatus, id: Option<Id>, mismatch: Option<Mismatch>): Verdict
  {
    Verdict(status, id, false, mismatch)
  }

  /** The decision on the newest matching row. */
  function AssessRow(norm: Norm, row: AuthorizationRow, c: Context, now: int): Verdict
  {
    if row.status in {DocumentedApproved, NotRequired} && IsBlank(row.basis) then Refused(Unauthorized, Some(row.id), None)
    else if row.status == AuthorizationWithdrawn then Refused(AuthorizationWithdrawn, Some(row.id), None)
    else if row.expires.Unparsable? then Refused(Unauthorized, Some(row.id), None)
    else if row.status == AuthorizationExpired || (row.expires.At? && row.expires.time <= now) then Refused(AuthorizationExpired, Some(row.id), None)
    else if row.status in {Pending, Unknown} then Refused(row.status, Some(row.id), None)
    else if row.status !in {DocumentedApproved, NotRequired} then Refused(Unauthorized, Some(row.id), None)
    else
      var mismatch := ScopeMismatch(norm, row.scope, c);
      if mismatch.Some? then Refused(NeedsReview, Some(row.id), mismatch)
      else Verdict(row.status, Some(row.id), true, None)
  }

  /** `assessActivityAuthorization` on the rows as they are read, newest first. */
  function Assess(norm: Norm, rows: seq<AuthorizationRow>, activity: Text, c: RawContext, now: int): Verdict
  {
    if activity !in Activities() then Refused(Unauthorized, None, None)
    else if !Proper(c) then Refused(NeedsReview, None, None)
    else if exists r :: r in rows && !r.readable then Refused(Unauthorized, None, None)
    else if Matching(rows, activity) == [] then Refused(Unauthorized, None, None)
    else AssessRow(norm, Matching(rows, activity)[0], Checked(c), now)
  }

  ghost predicate Newest(rows: seq<AuthorizationRow>, activity: Text, row: AuthorizationRow)
  {
    exists k :: 0 <= k < |rows| && rows[k] == row && activity in row.activities
      && forall j :: 0 <= j < k ==> activity !in rows[j].activities
  }

  ghost predicate InForce(row: AuthorizationRow, now: int)
  {
    && row.status in {DocumentedApproved, NotRequired} && !IsBlank(row.basis)
    && (row.expires.Never? || (row.expires.At? && now < row.expires.time))
  }

  lemma {:induction false} NewestIsFirst(rows: seq<AuthorizationRow>, activity: Text, row: AuthorizationRow)
    ensures Newest(rows, activity, row) <==> Matching(rows, activity) != [] && Matching(rows, activity)[0] == row
  {
    if rows != [] {
      NewestIsFirst(rows[1..], activity, row);
      if activity in rows[0].activities {
        if Newest(rows, activity, row) {
          var k :| 0 <= k < |rows| && rows[k] == row && forall j :: 0 <= j < k ==> activity !in rows[j].activities;
          assert k == 0;
        }
      } else {
        NewestShifts(rows, activity, row);
      }
    }
  }

  lemma NewestShifts(rows: seq<AuthorizationRow>, activity: Text, row: AuthorizationRow)
    requires rows != [] && activity !in rows[0].activities
    ensures Newest(rows, activity, row) <==> Newest(rows[1..], activity, row)
  {
    var rest := rows[1..];
    assert forall j :: 0 <= j < |rest| ==> rest[j] == rows[j + 1];
    if Newest(rest, activity, row) {
      var k :| 0 <= k < |rest| && rest[k] == row && activity in row.activities && forall j :: 0 <= j < k ==> activity !in rest[j].activities;
      assert rows[k + 1] == row && forall j :: 0 <= j < k + 1 ==> activity !in rows[j].activities by {
        forall j | 0 <= j < k + 1 ensures activity !in rows[j].activities {
          assert j > 0 ==> rows[j] == rest[j - 1];
        }
      }
    }
    if Newest(rows, activity, row) {
      var k :| 0 <= k < |rows| && rows[k] == row && activity in row.activities && forall j :: 0 <= j < k ==> activity !in rows[j].activities;
      assert k > 0 && rest[k - 1] == row;
    }
  }

  /** An activity is permitted exactly when the newest authorization that names it is in force
      and its scope permits the context; no older one is ever consulted. */
  lemma PermittedExactly(norm: Norm, rows: seq<AuthorizationRow>, activity: Text, c: RawContext, now: int)
    requires forall r :: r in rows ==> WellFormed(r.scope)
    requires c.conditions.Some? ==> WellFormed(c.conditions.value)
    ensures Assess(norm, rows, activity, c, now).permitted <==>
      && activity in Activities() && Proper(c) && (forall r :: r in rows ==> r.readable)
      && exists row :: Newest(rows, activity, row) && InForce(row, now) && Permits(norm, row.scope, Checked(c))
  {
    hide ScopeMismatch, Permits, Proper, Checked, Newest, Activities;
    var matching := Matching(rows, activity);
    if matching != [] {
      var row := matching[0];
      NewestIsFirst(rows, activity, row);
      CheckedWellFormed(c);
      ScopeDecides(norm, row.scope, Checked(c));
    }
    forall other | Newest(rows, activity, other) ensures matching != [] && other == matching[0] {
      NewestIsFirst(rows, activity, other);
    }
  }

  lemma CheckedWellFormed(c: RawContext)
    requires c.conditions.Some? ==> WellFormed(c.conditions.value)
    ensures ContextWellFormed(Checked(c))
  {
  }

  // ------------------------------------------------------------------ the status of an assessment

  /** The request is one the registry can be asked about, and `row` is what it has to say. */
  ghost predicate Considered(rows: seq<AuthorizationRow>, activity: Text, c: RawContext, row: AuthorizationRow)
  {
    activity in Activities() && Proper(c) && (forall r :: r in rows ==> r.readable) && Newest(rows, activity, row)
  }

  /** An approval without a basis, which counts for nothing. */
  ghost predicate Baseless(row: AuthorizationRow)
  {
    (row.status == DocumentedApproved || row.status == NotRequired) && IsBlank(row.basis)
  }

  /** Recorded as expired, or past its time, with an expiry that can be read. */
  ghost predicate Lapsed(row: AuthorizationRow, now: int)
  {
    && row.status != AuthorizationWithdrawn && !Baseless(row) && row.expires != Unparsable
    && (row.status == AuthorizationExpired || (row.expires.At? && row.expires.time <= now))
  }

  /** Not withdrawn, not lapsed, and readable: the record speaks for itself. */
  ghost predicate Standing(row: AuthorizationRow, now: int)
  {
    row.expires.Never? || (row.expires.At? && now < row.expires.time)
  }

  /** The status the newest record calls for. */
  ghost predicate CallsFor(norm: Norm, row: AuthorizationRow, c: Context, now: int, status: AuthorizationStatus)
  {
    match status
    case AuthorizationWithdrawn => row.status == AuthorizationWithdrawn
    case AuthorizationExpired => Lapsed(row, now)
    case Pending => row.status == Pending && Standing(row, now)
    case Unknown => row.status == Unknown && Standing(row, now)
    case DocumentedApproved => row.status == DocumentedApproved && InForce(row, now) && Permits(norm, row.scope, c)
    case NotRequired => row.status == NotRequired && InForce(row, now) && Permits(norm, row.scope, c)
    case NeedsReview => InForce(row, now) && !Permits(norm, row.scope, c)
    case Unauthorized =>
      || Baseless(row)
      || (row.status != AuthorizationWithdrawn && row.expires == Unparsable)
      || ((row.status == Unauthorized || row.status == NeedsReview) && Standing(row, now))
  }

  lemma RowStatusExactly(norm: Norm, row: AuthorizationRow, c: Context, now: int, status: AuthorizationStatus)
    requires WellFormed(row.scope) && ContextWellFormed(c)
    ensures AssessRow(norm, row, c, now).status == status <==> CallsFor(norm, row, c, now, status)
    ensures AssessRow(norm, row, c, now).authorization == Some(row.id)
  {
    hide ScopeMismatch, Permits, IsBlank;
    ScopeDecides(norm, row.scope, c);
  }

  /** The status of an assessment, in terms of the rows: what the newest record of the activity
      calls for, with that record named; needs-review for a context that is not proper; and
      unauthorized when there is no activity, no readable registry or no record. */
  lemma StatusExactly(norm: Norm, rows: seq<AuthorizationRow>, activity: Text, c: RawContext, now: int)
    requires forall r :: r in rows ==> WellFormed(r.scope)
    requires c.conditions.Some? ==> WellFormed(c.conditions.value)
    ensures var verdict := Assess(norm, rows, activity, c, now);
      && (forall row :: Considered(rows, activity, c, row) ==>
            verdict.authorization == Some(row.id) && CallsFor(norm, row, Checked(c), now, verdict.status))
      && (forall row, status :: Considered(rows, activity, c, row) && CallsFor(norm, row, Checked(c), now, status) ==> verdict.status == status)
      && ((forall row :: !Considered(rows, activity, c, row)) ==>
            verdict == Verdict(if activity in Activities() && !Proper(c) then NeedsReview else Unauthorized, None, false, None))
  {
    hide ScopeMismatch, Permits, Proper, Checked, Newest, Activities, AssessRow, CallsFor;
    CheckedWellFormed(c);
    var matching := Matching(rows, activity);
    forall row | Newest(rows, activity, row) ensures matching != [] && row == matching[0] {
      NewestIsFirst(rows, activity, row);
    }
    if matching != [] {
      NewestIsFirst(rows, activity, matching[0]);
      forall status ensures AssessRow(norm, matching[0], Checked(c), now).status == status <==> CallsFor(norm, matching[0], Checked(c), now, status) {
        RowStatusExactly(norm, matching[0], Checked(c), now, status);
      }
      RowStatusExactly(norm, matching[0], Checked(c), now, Unauthorized);
      var verdict := Assess(norm, rows, activity, c, now);
      if activity in Activities() && Proper(c) && forall r :: r in rows ==> r.readable {
        assert Considered(rows, activity, c, matching[0]);
        assert verdict == AssessRow(norm, matching[0], Checked(c), now);
        assert CallsFor(norm, matching[0], Checked(c), now, verdict.status);
      }
    }
  }

  /** A text that says something. */
  ghost predicate Says(value: Json)
  {
    value.Str? && exists i :: 0 <= i < |value.t| && !IsSpace(value.t[i])
  }

  ghost predicate AllSay(items: seq<Json>)
  {
    forall i :: 0 <= i < |items| ==> Says(items[i])
  }

  /** A context is proper exactly when every text it gives says something, its classes are a list
      of such texts that is not empty, and its conditions are not null. */
  lemma ProperExactly(c: RawContext)
    ensures Proper(c) <==>
      && (c.population.Some? ==> Says(c.population.value)) && (c.dataUse.Some? ==> Says(c.dataUse.value))
      && (c.destination.Some? ==> Says(c.destination.value)) && (c.purpose.Some? ==> Says(c.purpose.value))
      && (c.dataClasses.Some? ==> c.dataClasses.value.Arr? && c.dataClasses.value.items != [] && AllSay(c.dataClasses.value.items))
      && c.conditions != Some(Null)
  {
  }

  /** What a checked context holds of a proper one. */
  lemma CheckedExactly(c: RawContext, t: Text)
    requires Proper(c)
    ensures Checked(c).population == Some(t) <==> c.population == Some(Str(t))
    ensures Checked(c).dataUse == Some(t) <==> c.dataUse == Some(Str(t))
    ensures Checked(c).destination == Some(t) <==> c.destination == Some(Str(t))
    ensures Checked(c).purpose == Some(t) <==> c.purpose == Some(Str(t))
    ensures Checked(c).conditions == c.conditions
    ensures Checked(c).dataClasses.Some? <==> c.dataClasses.Some?
    ensures c.dataClasses.Some? ==> c.dataClasses.value.Arr? && |Checked(c).dataClasses.value| == |c.dataClasses.value.items|
    ensures c.dataClasses.Some? ==>
      forall i :: 0 <= i < |c.dataClasses.value.items| ==> c.dataClasses.value.items[i] == Str(Checked(c).dataClasses.value[i])
  {
  }

  /** Where a scope documents each dimension: under the first of its two spellings, if any. */
  lemma ScopeReads(scope: seq<Field>, value: Json)
    ensures PopulationIn(scope) == Some(value) <==> FirstUnder(scope, T("population"), T("populations"), value)
    ensures DataUseIn(scope) == Some(value) <==> FirstUnder(scope, T("dataUse"), T("data-use"), value)
    ensures DestinationIn(scope) == Some(value) <==> FirstUnder(scope, T("destination"), T("destinations"), value)
    ensures PurposeIn(scope) == Some(value) <==> FirstUnder(scope, T("purpose"), T("purposes"), value)
    ensures ClassesIn(scope) == Some(value) <==> Under(scope, T("dataClasses"), value)
    ensures ConditionsIn(scope) == Some(value) <==> Under(scope, T("conditions"), value)
  {
    hide T, Under;
    ValueAtExactly(scope, T("dataClasses"), value);
    ValueAtExactly(scope, T("conditions"), value);
    FirstUnderExactly(scope, T("population"), T("populations"), value);
    FirstUnderExactly(scope, T("dataUse"), T("data-use"), value);
    FirstUnderExactly(scope, T("destination"), T("destinations"), value);
    FirstUnderExactly(scope, T("purpose"), T("purposes"), value);
    hide FirstUnder, ScopeValue, ValueAt;
  }

  ghost predicate FirstUnder(scope: seq<Field>, key: Text, other: Text, value: Json)
  {
    Under(scope, key, value) || ((forall i :: 0 <= i < |scope| ==> scope[i].key != key) && Under(scope, other, value))
  }

  lemma FirstUnderExactly(scope: seq<Field>, key: Text, other: Text, value: Json)
    ensures ScopeValue(scope, key, other) == Some(value) <==> FirstUnder(scope, key, other, value)
  {
    hide Under, ValueAt;
    ValueAtExactly(scope, key, value);
    ValueAtExactly(scope, other, value);
  }

  // ------------------------------------------------------------------ what permission does not depend on

  /** Every class of the second context is like one of the first, and it names some. */
  ghost predicate Narrows(norm: Norm, first: Option<seq<Text>>, second: Option<seq<Text>>)
  {
    && (first.Some? <==> second.Some?)
    && (first.Some? ==> forall c :: c in second.value ==> exists b :: b in first.value && Alike(norm, b, c))
  }

  ghost predicate TextsAlike(norm: Norm, first: Option<Text>, second: Option<Text>)
  {
    && (first.Some? <==> second.Some?)
    && (first.Some? ==> Alike(norm, first.value, second.value))
  }

  ghost predicate SameBags(first: Option<Json>, second: Option<Json>)
  {
    && (first.Some? <==> second.Some?)
    && (first.Some? ==> BagOf(Settle(first.value)) == BagOf(Settle(second.value)) && (first.value.Null? <==> second.value.Null?))
  }

  /** The second context asks for no more than the first: the same labels up to case and white
      space, some of the data classes, the same conditions in any order. */
  ghost predicate AsksNoMore(norm: Norm, first: Context, second: Context)
  {
    && TextsAlike(norm, first.population, second.population) && TextsAlike(norm, first.dataUse, second.dataUse)
    && TextsAlike(norm, first.destination, second.destination) && TextsAlike(norm, first.purpose, second.purpose)
    && Narrows(norm, first.dataClasses, second.dataClasses) && SameBags(first.conditions, second.conditions)
  }

  lemma TextNarrowed(norm: Norm, authorized: Option<Json>, first: Option<Text>, second: Option<Text>)
    requires TextAgrees(norm, authorized, first) && TextsAlike(norm, first, second)
    ensures TextAgrees(norm, authorized, second)
  {
    if first.Some? {
      var s :| s in Listed(authorized.value) && Alike(norm, s, first.value);
      assert Alike(norm, s, second.value);
    }
  }

  lemma ClassesNarrowed(norm: Norm, authorized: Option<Json>, first: Option<seq<Text>>, second: Option<seq<Text>>)
    requires ClassesAgree(norm, authorized, first) && Narrows(norm, first, second)
    ensures ClassesAgree(norm, authorized, second)
  {
    if first.Some? {
      forall c | c in second.value ensures Lists(norm, authorized.value, c) {
        var b :| b in first.value && Alike(norm, b, c);
        assert Lists(norm, authorized.value, b);
        var s :| s in Listed(authorized.value) && Alike(norm, s, b);
        assert Alike(norm, s, c);
      }
    }
  }

  lemma ConditionsReordered(norm: Norm, authorized: Json, first: Json, second: Json)
    requires ConditionsMet(norm, authorized, first) && BagOf(Settle(first)) == BagOf(Settle(second))
    ensures ConditionsMet(norm, authorized, second)
  {
    BagTellsKind(first);
    BagTellsKind(second);
    if authorized.Str? && first.Arr? {
      var t :| first.items == [Str(t)] && Alike(norm, t, authorized.t);
      var settled := Settle(second).items;
      assert Settle(first).items == [Str(t)];
      BagOfArr(Settle(first).items);
      BagOfArr(settled);
      assert Bags(Settle(first).items) == [Atom(Str(t))];
      SingleBag(settled, Atom(Str(t)));
      assert Settle(second.items[0]) == settled[0];
      assert second.items == [Str(t)];
    }
  }

  lemma BagTellsKind(x: Json)
    ensures BagOf(Settle(x)).Items? <==> x.Arr?
  {
    hide BagFields;
    match x
    case Arr(items) =>
      assert Settle(x).Arr?;
      BagOfArr(Settle(x).items);
    case Obj(fields) =>
      assert Settle(x).Obj?;
    case _ =>
  }

  lemma SingleBag(items: seq<Json>, b: Bag)
    requires multiset(Bags(items)) == multiset([b])
    ensures |items| == 1 && BagOf(items[0]) == b
  {
    assert |multiset(Bags(items))| == |items| && |multiset([b])| == 1;
    assert Bags(items)[0] in multiset([b]);
  }

  /** Permission survives asking for no more, in particular for a part of the data classes. */
  lemma PermissionNarrows(norm: Norm, scope: Json, first: Context, second: Context)
    requires Permits(norm, scope, first) && AsksNoMore(norm, first, second)
    ensures Permits(norm, scope, second)
  {
    hide TextAgrees, ClassesAgree, ConditionsMet, ScopeValue, ValueAt, Narrows;
    match scope
    case Obj(fields) =>
      TextNarrowed(norm, PopulationIn(fields), first.population, second.population);
      TextNarrowed(norm, DataUseIn(fields), first.dataUse, second.dataUse);
      TextNarrowed(norm, DestinationIn(fields), first.destination, second.destination);
      TextNarrowed(norm, PurposeIn(fields), first.purpose, second.purpose);
      ClassesNarrowed(norm, ClassesIn(fields), first.dataClasses, second.dataClasses);
      if first.conditions.Some? {
        ConditionsReordered(norm, ConditionsIn(fields).value, first.conditions.value, second.conditions.value);
      }
    case Str(scopeLabel) => LabelNarrowed(norm, scopeLabel, first, second);
  }

  lemma LabelNarrowed(norm: Norm, scopeLabel: Text, first: Context, second: Context)
    requires LabelPermits(norm, scopeLabel, first) && AsksNoMore(norm, first, second)
    ensures LabelPermits(norm, scopeLabel, second)
  {
  }

  /** A permitted activity keeps its verdict when its context asks for no more. */
  lemma PermittedStays(norm: Norm, rows: seq<AuthorizationRow>, activity: Text, c: RawContext, d: RawContext, now: int)
    requires forall r :: r in rows ==> WellFormed(r.scope)
    requires ContextWellFormed(Checked(c)) && ContextWellFormed(Checked(d))
    requires Proper(d) && AsksNoMore(norm, Checked(c), Checked(d)) && Assess(norm, rows, activity, c, now).permitted
    ensures Assess(norm, rows, activity, d, now) == Assess(norm, rows, activity, c, now)
  {
    hide ScopeMismatch, Permits, AsksNoMore, Activities, Proper, ContextWellFormed, Checked;
    var row := Matching(rows, activity)[0];
    ScopeDecides(norm, row.scope, Checked(c));
    PermissionNarrows(norm, row.scope, Checked(c), Checked(d));
    ScopeDecides(norm, row.scope, Checked(d));
  }

  /** A permitted activity stays permitted, under the same record, when its data classes are
      narrowed to some of them. */
  lemma NarrowerClassesPermitted(norm: Norm, rows: seq<AuthorizationRow>, activity: Text, c: RawContext, narrower: seq<Json>, now: int)
    requires forall r :: r in rows ==> WellFormed(r.scope)
    requires c.conditions.Some? ==> WellFormed(c.conditions.value)
    requires Assess(norm, rows, activity, c, now).permitted
    requires c.dataClasses.Some? && c.dataClasses.value.Arr? && narrower != [] && forall x :: x in narrower ==> x in c.dataClasses.value.items
    ensures Assess(norm, rows, activity, c.(dataClasses := Some(Arr(narrower))), now) == Assess(norm, rows, activity, c, now)
  {
    hide Activities;
    NarrowedIsProper(norm, c, narrower);
    hide AsksNoMore, Proper;
    PermittedStays(norm, rows, activity, c, c.(dataClasses := Some(Arr(narrower))), now);
  }

  lemma NarrowedIsProper(norm: Norm, c: RawContext, narrower: seq<Json>)
    requires Proper(c) && c.dataClasses.Some? && c.dataClasses.value.Arr?
    requires narrower != [] && forall x :: x in narrower ==> x in c.dataClasses.value.items
    ensures Proper(c.(dataClasses := Some(Arr(narrower))))
    ensures AsksNoMore(norm, Checked(c), Checked(c.(dataClasses := Some(Arr(narrower)))))
  {
    var items := c.dataClasses.value.items;
    var first := StringArray(Arr(items)).value;
    forall i | 0 <= i < |narrower| ensures narrower[i].Str? && !IsBlank(narrower[i].t) && narrower[i].t in first {
      assert narrower[i] in items;
      var k :| 0 <= k < |items| && items[k] == narrower[i];
      assert first[k] == items[k].t;
    }
    var second := StringArray(Arr(narrower));
    assert second.Some?;
    forall t | t in second.value ensures exists b :: b in first && Alike(norm, b, t) {
      var i :| 0 <= i < |narrower| && second.value[i] == t;
      assert narrower[i].t in first && Alike(norm, t, t);
    }
  }
}
