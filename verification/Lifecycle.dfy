/** The lifecycle gate: policy checkpoints, revocation fences and quarantine. What the gate asks
    of other stores comes in as an environment, which may differ from call to call. */
module Lifecycle {
  import opened Texts
  import opened Graph
  import opened Json
  import opened CanonicalForm
  import Authorization
  import Disclosure

  datatype OperationStatus =
    | Queued | Running | BlockedOperation | Cancelled | FencedOperation | QuarantinedOperation | AcceptedOperation | RejectedOperation | Completed

  datatype Phase = Dispatch | External | Resume | Acceptance

  /** The `input_snapshot` column: JSON, or a text that does not parse. */
  datatype Snapshot = ParsedSnapshot(value: Json) | RawSnapshot(text: Text)

  datatype Operation = Operation(snapshot: Snapshot, status: OperationStatus)

  type Dimension = Authorization.Dimension
  type RawContext = Authorization.RawContext

  datatype Reason =
    | Given(text: Text) | FencedFor(reason: Reason) | CancelledBefore
    | MalformedField(d: Dimension) | InvalidActivity | ActivityNotBound | ActivityDiffers(requested: Text) | FieldDiffers(d: Dimension)
    | ProtocolMalformed | ProtocolNotFound | ProtocolOutdated(text: Text)
    | NotAuthorized(verdict: Authorization.Verdict, cannotRecall: bool) | FieldNotRecorded(d: Dimension)
    | NoInputs | InputMissing(v: Id) | InputUnclassified(v: Id) | PolicyDenied(text: Text)
    | PermissionWithdrawn(v: Id) | PermissionExpired(v: Id) | LocalOnlyInput(v: Id)
    | NoSubmission | NoCapabilityGiven | ForeignOwner | ForeignWorker | WorkerLacksWrite | ForgedCapability | CommandDenied
    | PassedAll

  datatype CheckStatus = Passed | BlockedCheck | DeniedCheck

  datatype Checkpoint = Checkpoint(operation: Id, phase: Phase, status: CheckStatus, reason: Reason)
  datatype Fence = Fence(operation: Id, reason: Reason)
  datatype Quarantine = Quarantine(operation: Id, candidate: Id, reason: Reason)

  datatype GateState = GateState(
    writable: bool, operations: map<Id, Operation>, fences: seq<Fence>, checkpoints: seq<Checkpoint>, quarantined: seq<Quarantine>)

  datatype Capability = NoCapability | Owner(ofProject: bool) | Worker(ofProject: bool, submits: bool, writes: bool) | Forged

  /** The options of a check. `command` tells whether a command comes with it and is denied. */
  datatype Options = Options(
    activity: Option<Text>, context: RawContext, capability: Capability, requireCanonicalWrite: bool,
    allowCandidateSubmission: bool, commandDenied: Option<bool>)

  datatype Currency = CurrencyNotFound | Currency(superseded: bool, materialChange: bool, contextMatches: bool, reason: Text)

  /** The answers of the other stores at the time of a call. */
  datatype Environment = Environment(
    norm: Authorization.Norm, authorizations: seq<Authorization.AuthorizationRow>, now: int,
    versions: set<Id>, dependencies: seq<DependencyRow>, policy: Disclosure.Policy,
    evaluate: Id -> Disclosure.PolicyDecision, currency: Text -> Currency, textOf: Json -> Text)

  // ------------------------------------------------------------------ reading the snapshot

  /** `snapshotObject`: the fields of the snapshot, none when it is not an object. */
  function FieldsOf(snapshot: Snapshot): seq<Field>
  {
    if snapshot.ParsedSnapshot? && snapshot.value.Obj? then snapshot.value.fields else []
  }

  datatype RecordedActivity = NoActivity | BadActivity | Named(activity: Text)

  /** `snapshotActivity` */
  function ActivityOf(snapshot: Snapshot): RecordedActivity
  {
    var value := ValueAt(FieldsOf(snapshot), T("activity"));
    if value.None? then NoActivity
    else if value.value.Str? && value.value.t in Authorization.Activities() then Named(value.value.t)
    else BadActivity
  }

  /** The context fields as the snapshot holds them. */
  function Recorded(snapshot: Snapshot): RawContext
  {
    var fields := FieldsOf(snapshot);
    Authorization.RawContext(
      ValueAt(fields, T("population")), ValueAt(fields, T("dataUse")), ValueAt(fields, T("dataClasses")),
      ValueAt(fields, T("destination")), ValueAt(fields, T("purpose")), ValueAt(fields, T("conditions")))
  }

  /** The first malformed field, in the order `snapshotAuthorizationContext` reads them. */
  function MalformedIn(c: RawContext): Option<Dimension>
  {
    if !Authorization.ProperText(c.population) then Some(Authorization.Population)
    else if !Authorization.ProperText(c.dataUse) then Some(Authorization.DataUse)
    else if !Authorization.ProperText(c.destination) then Some(Authorization.Destination)
    else if !Authorization.ProperText(c.purpose) then Some(Authorization.Purpose)
    else if c.dataClasses.Some? && Authorization.StringArray(c.dataClasses.value).None? then Some(Authorization.DataClasses)
    else if c.conditions == Some(Null) then Some(Authorization.Conditions)
    else None
  }

  /** `snapshotAuthorizationContext`: nothing at all when a field is malformed. */
  function ContextOf(snapshot: Snapshot): RawContext
  {
    if MalformedIn(Recorded(snapshot)).Some? then Authorization.RawContext(None, None, None, None, None, None) else Recorded(snapshot)
  }

  function Trim(t: Text): Text
  {
    if t == [] then []
    else if IsSpace(t[0]) then Trim(t[1..])
    else if IsSpace(t[|t| - 1]) then Trim(t[..|t| - 1])
    else t
  }

  function TextsFrom(textOf: Json -> Text, items: seq<Json>): seq<Id>
  {
    seq(|items|, i requires 0 <= i < |items| => if items[i].Str? then items[i].t else textOf(items[i]))
  }

  /** `parseInputVersions` */
  function InputVersions(textOf: Json -> Text, snapshot: Snapshot): seq<Id>
  {
    match snapshot
    case RawSnapshot(text) => if Trim(text) != [] then [Trim(text)] else []
    case ParsedSnapshot(Arr(items)) => TextsFrom(textOf, items)
    case ParsedSnapshot(Obj(fields)) => NamedInputs(textOf, fields)
    case _ => []
  }

  function NamedInputs(textOf: Json -> Text, fields: seq<Field>): seq<Id>
  {
    var ids, input, version := ValueAt(fields, T("versionIds")), ValueAt(fields, T("inputVersionId")), ValueAt(fields, T("inputVersion"));
    if ids.Some? && ids.value.Arr? then TextsFrom(textOf, ids.value.items)
    else if input.Some? && input.value.Str? then [input.value.t]
    else if version.Some? && version.value.Str? then [version.value.t]
    else []
  }

  // ------------------------------------------------------------------ what is read

  /** The snapshot is an object that holds `value` under `key`. */
  ghost predicate Holds(snapshot: Snapshot, key: Text, value: Json)
  {
    snapshot.ParsedSnapshot? && snapshot.value.Obj? && Under(snapshot.value.fields, key, value)
  }

  lemma HoldsExactly(snapshot: Snapshot, key: Text, value: Json)
    ensures ValueAt(FieldsOf(snapshot), key) == Some(value) <==> Holds(snapshot, key, value)
  {
    ValueAtExactly(FieldsOf(snapshot), key, value);
  }

  lemma HoldsNone(snapshot: Snapshot, key: Text)
    ensures ValueAt(FieldsOf(snapshot), key).None? <==> forall value :: !Holds(snapshot, key, value)
  {
    hide ValueAt, Under;
    forall value ensures ValueAt(FieldsOf(snapshot), key) == Some(value) <==> Holds(snapshot, key, value) {
      HoldsExactly(snapshot, key, value);
    }
    if ValueAt(FieldsOf(snapshot), key).Some? {
      assert Holds(snapshot, key, ValueAt(FieldsOf(snapshot), key).value);
    }
  }

  /** The activity read is the known one the snapshot holds; anything else held there is bad. */
  lemma ActivityReads(snapshot: Snapshot, activity: Text)
    ensures ActivityOf(snapshot) == Named(activity) <==> Holds(snapshot, T("activity"), Str(activity)) && activity in Authorization.Activities()
    ensures ActivityOf(snapshot) == NoActivity <==> forall value :: !Holds(snapshot, T("activity"), value)
  {
    hide ValueAt, FieldsOf, Under, Authorization.Activities, T;
    HoldsExactly(snapshot, T("activity"), Str(activity));
    HoldsNone(snapshot, T("activity"));
    hide Holds;
  }

  /** The key of each context field. */
  function KeyOf(d: Dimension): Text
  {
    match d
    case Population => T("population")
    case DataUse => T("dataUse")
    case DataClasses => T("dataClasses")
    case Destination => T("destination")
    case Purpose => T("purpose")
    case Conditions => T("conditions")
  }

  /** Each context field is read from the snapshot under its own key. */
  lemma RecordedReads(snapshot: Snapshot, d: Dimension, value: Json)
    ensures ValueOf(Recorded(snapshot), d) == Some(value) <==> Holds(snapshot, KeyOf(d), value)
  {
    hide ValueAt, FieldsOf, T;
    HoldsExactly(snapshot, KeyOf(d), value);
    hide Holds;
  }

  /** `t` is the text without the blanks around it. */
  ghost predicate TrimmedFrom(text: Text, t: Text)
  {
    t != [] && !IsSpace(t[0]) && !IsSpace(t[|t| - 1]) && exists a, b {:trigger a + t + b} :: text == a + t + b && IsBlank(a) && IsBlank(b)
  }

  lemma TrimmedWider(a: Text, text: Text, b: Text, t: Text)
    requires TrimmedFrom(text, t) && IsBlank(a) && IsBlank(b)
    ensures TrimmedFrom(a + text + b, t)
  {
    var c, d :| text == c + t + d && IsBlank(c) && IsBlank(d);
    assert a + text + b == (a + c) + t + (d + b);
  }

  lemma {:induction false} TrimIs(text: Text)
    ensures if IsBlank(text) then Trim(text) == [] else TrimmedFrom(text, Trim(text))
  {
    hide TrimmedFrom, IsSpace;
    if text == [] {
    } else if IsSpace(text[0]) {
      TrimIs(text[1..]);
      assert text == [text[0]] + text[1..] + [];
      if !IsBlank(text[1..]) {
        TrimmedWider([text[0]], text[1..], [], Trim(text[1..]));
      }
    } else if IsSpace(text[|text| - 1]) {
      var init := text[..|text| - 1];
      TrimIs(init);
      assert text == [] + init + [text[|text| - 1]];
      assert init[0] == text[0];
      TrimmedWider([], init, [text[|text| - 1]], Trim(init));
    } else {
      TrimmedItself(text);
    }
  }

  lemma TrimmedItself(text: Text)
    requires text != [] && !IsSpace(text[0]) && !IsSpace(text[|text| - 1])
    ensures TrimmedFrom(text, text)
  {
    assert text == [] + text + [];
  }

  lemma TrimmedOnce(text: Text, t: Text, u: Text)
    requires TrimmedFrom(text, t) && TrimmedFrom(text, u)
    ensures t == u
  {
    hide IsSpace, IsBlank;
    var a, b :| text == a + t + b && IsBlank(a) && IsBlank(b);
    var c, d :| text == c + u + d && IsBlank(c) && IsBlank(d);
    TrimmedAt(a, t, b, text);
    TrimmedAt(c, u, d, text);
    SameBounds(text, |a|, |a| + |t|, |c|, |c| + |u|);
  }

  /** The bounds of what is left when blanks are taken off both ends. */
  ghost predicate Bounds(text: Text, i: nat, j: nat)
  {
    && i < j <= |text| && !IsSpace(text[i]) && !IsSpace(text[j - 1])
    && (forall k :: 0 <= k < i ==> IsSpace(text[k])) && (forall k :: j <= k < |text| ==> IsSpace(text[k]))
  }

  lemma SameBounds(text: Text, i: nat, j: nat, k: nat, l: nat)
    requires Bounds(text, i, j) && Bounds(text, k, l)
    ensures i == k && j == l
  {
    hide IsSpace;
  }

  lemma TrimmedAt(a: Text, t: Text, b: Text, text: Text)
    requires text == a + t + b && IsBlank(a) && IsBlank(b) && t != [] && !IsSpace(t[0]) && !IsSpace(t[|t| - 1])
    ensures Bounds(text, |a|, |a| + |t|) && t == text[|a|..|a| + |t|]
  {
    hide IsSpace;
    assert text == a + (t + b);
    BlankStart(a, t + b, text);
    BlankEnd(a + t, b, text);
  }

  lemma BlankStart(a: Text, t: Text, text: Text)
    requires text == a + t && IsBlank(a) && t != [] && !IsSpace(t[0])
    ensures |a| < |text| && !IsSpace(text[|a|]) && forall i :: 0 <= i < |a| ==> IsSpace(text[i])
  {
  }

  lemma BlankEnd(t: Text, b: Text, text: Text)
    requires text == t + b && IsBlank(b) && t != [] && !IsSpace(t[|t| - 1])
    ensures 0 < |t| <= |text| && !IsSpace(text[|t| - 1]) && forall i :: |t| <= i < |text| ==> IsSpace(text[i])
  {
  }

  /** Every element is read, in order: a string as itself, anything else as its text. */
  ghost predicate ReadsAll(textOf: Json -> Text, items: seq<Json>, inputs: seq<Id>)
  {
    |inputs| == |items| && forall i :: 0 <= i < |items| ==> inputs[i] == if items[i].Str? then items[i].t else textOf(items[i])
  }

  ghost predicate HoldsList(snapshot: Snapshot)
  {
    exists items :: Holds(snapshot, T("versionIds"), Arr(items))
  }

  ghost predicate HoldsText(snapshot: Snapshot, key: Text)
  {
    exists t :: Holds(snapshot, key, Str(t))
  }

  /** The inputs a snapshot names: all elements of an array; of an object, all elements of the array
      under versionIds, or else the text under inputVersionId, or else that under inputVersion; and
      a text that does not parse is itself an input, without the blanks around it. */
  ghost predicate InputsAre(textOf: Json -> Text, snapshot: Snapshot, inputs: seq<Id>)
  {
    if snapshot.RawSnapshot? then
      if IsBlank(snapshot.text) then inputs == [] else |inputs| == 1 && TrimmedFrom(snapshot.text, inputs[0])
    else if snapshot.value.Arr? then ReadsAll(textOf, snapshot.value.items, inputs)
    else if HoldsList(snapshot) then exists items :: Holds(snapshot, T("versionIds"), Arr(items)) && ReadsAll(textOf, items, inputs)
    else if HoldsText(snapshot, T("inputVersionId")) then exists t :: Holds(snapshot, T("inputVersionId"), Str(t)) && inputs == [t]
    else if HoldsText(snapshot, T("inputVersion")) then exists t :: Holds(snapshot, T("inputVersion"), Str(t)) && inputs == [t]
    else inputs == []
  }

  lemma ReadsAllOnce(textOf: Json -> Text, items: seq<Json>, inputs: seq<Id>)
    ensures ReadsAll(textOf, items, inputs) <==> inputs == TextsFrom(textOf, items)
  {
  }

  lemma NamedInputsExactly(textOf: Json -> Text, snapshot: Snapshot, inputs: seq<Id>)
    requires snapshot.ParsedSnapshot? && !snapshot.value.Arr?
    ensures InputsAre(textOf, snapshot, inputs) <==> inputs == NamedInputs(textOf, FieldsOf(snapshot))
  {
    hide ValueAt, FieldsOf, T, Holds, ReadsAll, TextsFrom;
    forall key, value ensures ValueAt(FieldsOf(snapshot), key) == Some(value) <==> Holds(snapshot, key, value) {
      HoldsExactly(snapshot, key, value);
    }
    forall items ensures ReadsAll(textOf, items, inputs) <==> inputs == TextsFrom(textOf, items) {
      ReadsAllOnce(textOf, items, inputs);
    }
  }

  /** `parseInputVersions` reads exactly those. */
  lemma InputsExactly(textOf: Json -> Text, snapshot: Snapshot, inputs: seq<Id>)
    ensures InputsAre(textOf, snapshot, inputs) <==> inputs == InputVersions(textOf, snapshot)
  {
    hide Trim, TrimmedFrom, NamedInputs, ReadsAll, TextsFrom, T;
    match snapshot
    case RawSnapshot(text) =>
      TrimIs(text);
      if !IsBlank(text) {
        if |inputs| == 1 && TrimmedFrom(text, inputs[0]) {
          TrimmedOnce(text, inputs[0], Trim(text));
        }
        TrimmedIsSome(text);
      }
    case ParsedSnapshot(value) =>
      if value.Arr? {
        ReadsAllOnce(textOf, value.items, inputs);
      } else {
        NamedInputsExactly(textOf, snapshot, inputs);
        NoFieldsNoInputs(textOf, snapshot);
      }
  }

  lemma TrimmedIsSome(text: Text)
    ensures TrimmedFrom(text, Trim(text)) ==> Trim(text) != []
  {
  }

  lemma NoFieldsNoInputs(textOf: Json -> Text, snapshot: Snapshot)
    requires snapshot.ParsedSnapshot? && !snapshot.value.Arr?
    ensures InputVersions(textOf, snapshot) == NamedInputs(textOf, FieldsOf(snapshot))
  {
  }

  // ------------------------------------------------------------------ what a check finds

  /** The outcome of a check and what it does to the operation besides. */
  datatype Finding = Finding(status: CheckStatus, reason: Reason, blocks: bool, fence: Option<Reason>)

  predicate Stops(f: Option<Finding>)
  {
    f.Some? ==> !f.value.status.Passed?
  }

  function Blocks(reason: Reason): Finding { Finding(BlockedCheck, reason, true, None) }

  function Denies(reason: Reason): Finding { Finding(DeniedCheck, reason, true, None) }

  /** The activity the check is for must be the one the snapshot names. */
  function ActivityFinding(snapshot: Snapshot, o: Options): (f: Option<Finding>)
    ensures Stops(f)
  {
    var recorded, malformed := ActivityOf(snapshot), MalformedIn(Recorded(snapshot));
    if !recorded.NoActivity? && malformed.Some? then Some(Blocks(MalformedField(malformed.value)))
    else if recorded.BadActivity? then Some(Blocks(InvalidActivity))
    else if o.activity.Some? && recorded.NoActivity? then Some(Blocks(ActivityNotBound))
    else if recorded.Named? && o.activity.Some? && recorded.activity != o.activity.value then Some(Blocks(ActivityDiffers(o.activity.value)))
    else None
  }

  function ContextKeys(): seq<Dimension>
  {
    [Authorization.Population, Authorization.DataClasses, Authorization.DataUse, Authorization.Destination,
     Authorization.Purpose, Authorization.Conditions]
  }

  function ValueOf(c: RawContext, d: Dimension): Option<Json>
  {
    match d
    case Population => c.population
    case DataUse => c.dataUse
    case DataClasses => c.dataClasses
    case Destination => c.destination
    case Purpose => c.purpose
    case Conditions => c.conditions
  }

  predicate Differs(recorded: RawContext, requested: RawContext, d: Dimension)
  {
    var r, q := ValueOf(recorded, d), ValueOf(requested, d);
    r.Some? && q.Some? && !Same(r.value, q.value)
  }

  predicate Unrecorded(recorded: RawContext, requested: RawContext, d: Dimension)
  {
    ValueOf(requested, d).Some? && ValueOf(recorded, d).None?
  }

  function FirstDiffering(recorded: RawContext, requested: RawContext, keys: seq<Dimension>): (r: Option<Dimension>)
    ensures r.None? <==> forall d :: d in keys ==> !Differs(recorded, requested, d)
  {
    if keys == [] then None
    else if Differs(recorded, requested, keys[0]) then Some(keys[0])
    else FirstDiffering(recorded, requested, keys[1..])
  }

  function FirstUnrecorded(recorded: RawContext, requested: RawContext, keys: seq<Dimension>): (r: Option<Dimension>)
    ensures r.None? <==> forall d :: d in keys ==> !Unrecorded(recorded, requested, d)
  {
    if keys == [] then None
    else if Unrecorded(recorded, requested, keys[0]) then Some(keys[0])
    else FirstUnrecorded(recorded, requested, keys[1..])
  }

  function DifferenceFinding(snapshot: Snapshot, o: Options): (f: Option<Finding>)
    ensures Stops(f)
  {
    var differing := FirstDiffering(ContextOf(snapshot), o.context, ContextKeys());
    if ActivityOf(snapshot).Named? && differing.Some? then Some(Blocks(FieldDiffers(differing.value))) else None
  }

  function ProtocolFinding(env: Environment, snapshot: Snapshot): (f: Option<Finding>)
    ensures Stops(f)
  {
    var value := ValueAt(FieldsOf(snapshot), T("protocolVersionId"));
    if value.None? then None
    else if !value.value.Str? || IsBlank(value.value.t) then Some(Blocks(ProtocolMalformed))
    else
      var currency := env.currency(value.value.t);
      if currency.CurrencyNotFound? then Some(Blocks(ProtocolNotFound))
      else if currency.superseded || (currency.materialChange && !currency.contextMatches) then Some(Blocks(ProtocolOutdated(currency.reason)))
      else None
  }

  function AssessSnapshot(env: Environment, snapshot: Snapshot, activity: Text): Authorization.Verdict
  {
    Authorization.Assess(env.norm, env.authorizations, activity, ContextOf(snapshot), env.now)
  }

  function AuthorizationFinding(env: Environment, snapshot: Snapshot, phase: Phase, o: Options): (f: Option<Finding>)
    ensures Stops(f)
  {
    var recorded := ActivityOf(snapshot);
    if !recorded.Named? then None
    else
      var verdict := AssessSnapshot(env, snapshot, recorded.activity);
      var reason := NotAuthorized(verdict, phase.External?);
      var unrecorded := FirstUnrecorded(ContextOf(snapshot), o.context, ContextKeys());
      if !verdict.permitted then
        Some(Finding(BlockedCheck, reason, true, if verdict.status.AuthorizationWithdrawn? || verdict.status.AuthorizationExpired? then Some(reason) else None))
      else if unrecorded.Some? then Some(Blocks(FieldNotRecorded(unrecorded.value)))
      else None
  }

  /** JavaScript's truth of an option that may be absent. */
  predicate Truthy(value: Option<Json>)
  {
    value.Some? && match value.value {
      case Null => false
      case Boolean(b) => b
      case Number(n) => n != [0x30]
      case Extreme(e) => !e.NotANumber?
      case Str(t) => t != []
      case _ => true
    }
  }

  predicate HasActivePermission(policy: Disclosure.Policy, v: Id)
  {
    exists p :: p in policy.permissions(v) && p.status.ActivePermission?
  }

  ghost function PermissionFinding(env: Environment, phase: Phase, v: Id): (f: Option<Finding>)
    ensures Stops(f)
  {
    var active := HasActivePermission(env.policy, v);
    if Disclosure.HasMark(env.dependencies, env.policy, [v], Disclosure.Withdrawn) && !active then
      Some(Finding(BlockedCheck, PermissionWithdrawn(v), false, Some(PermissionWithdrawn(v))))
    else if Disclosure.HasMark(env.dependencies, env.policy, [v], Disclosure.Expired) && !active then Some(Blocks(PermissionExpired(v)))
    else if phase.External? && Disclosure.LocalOnly(env.dependencies, env.policy, [v]) then Some(Denies(LocalOnlyInput(v)))
    else None
  }

  function PolicyFinding(decision: Disclosure.PolicyDecision): (f: Option<Finding>)
    ensures Stops(f)
  {
    var withdrawn := Includes(decision.reason, T("withdrawn"));
    var reason := PolicyDenied(decision.reason);
    if decision.verdict.Allow? then None
    else if withdrawn then Some(Finding(BlockedCheck, reason, true, Some(reason)))
    else Some(Denies(reason))
  }

  ghost function InputFinding(env: Environment, phase: Phase, o: Options, v: Id): (f: Option<Finding>)
    ensures Stops(f)
  {
    if v !in env.versions then Some(Denies(InputMissing(v)))
    else if env.policy.classification(v).None? then Some(Blocks(InputUnclassified(v)))
    else if Truthy(o.context.destination) && Truthy(o.context.purpose) then PolicyFinding(env.evaluate(v))
    else PermissionFinding(env, phase, v)
  }

  ghost function InputsFinding(env: Environment, phase: Phase, o: Options, inputs: seq<Id>): (f: Option<Finding>)
    ensures Stops(f)
    ensures f.None? <==> forall v :: v in inputs ==> InputFinding(env, phase, o, v).None?
    ensures f.Some? ==> exists v :: v in inputs && InputFinding(env, phase, o, v) == f
  {
    if inputs == [] then None
    else
      assert inputs[0] in inputs;
      var first := InputFinding(env, phase, o, inputs[0]);
      if first.Some? then first else InputsFinding(env, phase, o, inputs[1..])
  }

  ghost function CurrencyFinding(env: Environment, snapshot: Snapshot, phase: Phase, o: Options): (f: Option<Finding>)
    ensures Stops(f)
  {
    var inputs := InputVersions(env.textOf, snapshot);
    if inputs == [] && phase.Dispatch? then Some(Blocks(NoInputs)) else InputsFinding(env, phase, o, inputs)
  }

  function SubmissionFinding(o: Options): (f: Option<Finding>)
    ensures Stops(f)
  {
    if o.allowCandidateSubmission
      && !(o.capability == Owner(true) || (o.capability.Worker? && o.capability.ofProject && o.capability.submits))
    then Some(Denies(NoSubmission)) else None
  }

  function CapabilityFinding(phase: Phase, o: Options): (f: Option<Finding>)
    ensures Stops(f)
  {
    if !((phase.Acceptance? && !o.allowCandidateSubmission) || o.requireCanonicalWrite) then None
    else match o.capability
      case NoCapability => Some(Denies(NoCapabilityGiven))
      case Owner(ofProject) => if ofProject then None else Some(Denies(ForeignOwner))
      case Worker(ofProject, _, writes) =>
        if !ofProject then Some(Denies(ForeignWorker)) else if !writes then Some(Denies(WorkerLacksWrite)) else None
      case Forged => Some(Denies(ForgedCapability))
  }

  function CommandFinding(o: Options): (f: Option<Finding>)
    ensures Stops(f)
  {
    if o.commandDenied == Some(true) then Some(Denies(CommandDenied)) else None
  }

  function Otherwise(first: Option<Finding>, second: Option<Finding>): Option<Finding>
  {
    if first.Some? then first else second
  }

  /** Everything that can stop an operation that is neither fenced nor cancelled. */
  ghost function Finds(env: Environment, snapshot: Snapshot, phase: Phase, o: Options): (f: Option<Finding>)
    ensures Stops(f)
  {
    Otherwise(ActivityFinding(snapshot, o),
    Otherwise(DifferenceFinding(snapshot, o),
    Otherwise(ProtocolFinding(env, snapshot),
    Otherwise(AuthorizationFinding(env, snapshot, phase, o),
    Otherwise(CurrencyFinding(env, snapshot, phase, o),
    Otherwise(SubmissionFinding(o),
    Otherwise(CapabilityFinding(phase, o),
              CommandFinding(o))))))))
  }

  // ------------------------------------------------------------------ the tables

  predicate Fenced(fences: seq<Fence>, id: Id)
  {
    exists i :: 0 <= i < |fences| && fences[i].operation == id
  }

  function LatestFence(fences: seq<Fence>, id: Id): Reason
    requires Fenced(fences, id)
  {
    if fences[|fences| - 1].operation == id then fences[|fences| - 1].reason else LatestFence(fences[..|fences| - 1], id)
  }

  function SetStatus(s: GateState, id: Id, status: OperationStatus): GateState
    requires id in s.operations
  {
    s.(operations := s.operations[id := s.operations[id].(status := status)])
  }

  function AddFence(s: GateState, id: Id, reason: Reason): GateState
    requires id in s.operations
  {
    SetStatus(s, id, FencedOperation).(fences := s.fences + [Fence(id, reason)])
  }

  ghost function FindsNow(env: Environment, s: GateState, id: Id, phase: Phase, o: Options): (f: Finding)
    requires id in s.operations
    ensures Fenced(s.fences, id) ==> !f.status.Passed?
  {
    var op := s.operations[id];
    if Fenced(s.fences, id) then Finding(BlockedCheck, FencedFor(LatestFence(s.fences, id)), false, None)
    else if op.status == Cancelled then Finding(BlockedCheck, CancelledBefore, false, None)
    else
      var finding := Finds(env, op.snapshot, phase, o);
      if finding.Some? then finding.value else Finding(Passed, PassedAll, false, None)
  }

  function CheckpointOf(id: Id, phase: Phase, f: Finding): Checkpoint
  {
    Checkpoint(id, phase, f.status, f.reason)
  }

  /** What a finding does to the tables. */
  function Recording(s: GateState, id: Id, phase: Phase, f: Finding): GateState
    requires id in s.operations
  {
    var blocked := if f.blocks then SetStatus(s, id, BlockedOperation) else s;
    var fenced := if f.fence.Some? then AddFence(blocked, id, f.fence.value) else blocked;
    fenced.(checkpoints := s.checkpoints + [CheckpointOf(id, phase, f)])
  }

  datatype GateError = GateReadOnly | OperationNotFound | OperationExists | OperationTypeMissing

  datatype GateReply =
    | Checked(checkpoint: Checkpoint)
    | AcceptedCandidate(checkpoint: Checkpoint)
    | QuarantinedCandidate(row: Quarantine, checkpoint: Checkpoint)
    | AlreadySettled(status: OperationStatus)
    | Resumed(checkpoint: Checkpoint)
    | NotResumed(checkpoint: Checkpoint)
    | GateDone
    | GateThrown(error: GateError)

  /** `checkLifecyclePolicy` */
  ghost function Check(env: Environment, s: GateState, id: Id, phase: Phase, o: Options): (GateState, GateReply)
  {
    if id !in s.operations then (s, GateThrown(OperationNotFound))
    else if !s.writable then (s, GateThrown(GateReadOnly))
    else
      var f := FindsNow(env, s, id, phase, o);
      (Recording(s, id, phase, f), Checked(CheckpointOf(id, phase, f)))
  }

  predicate Settled(status: OperationStatus)
  {
    status.AcceptedOperation? || status.Completed? || status.RejectedOperation?
  }

  /** `acceptCandidate` */
  ghost function Accept(env: Environment, s: GateState, id: Id, candidate: Id, o: Options): (GateState, GateReply)
  {
    if !s.writable then (s, GateThrown(GateReadOnly))
    else if id !in s.operations then (s, GateThrown(OperationNotFound))
    else if Settled(s.operations[id].status) then (s, AlreadySettled(s.operations[id].status))
    else
      var f := FindsNow(env, s, id, Acceptance, o);
      Settling(Recording(s, id, Acceptance, f), id, candidate, CheckpointOf(id, Acceptance, f))
  }

  function Settling(s: GateState, id: Id, candidate: Id, checkpoint: Checkpoint): (GateState, GateReply)
    requires id in s.operations
  {
    var status := s.operations[id].status;
    if !checkpoint.status.Passed? then
      var row := Quarantine(id, candidate, checkpoint.reason);
      var kept := if status.FencedOperation? || status.Cancelled? then s else SetStatus(s, id, QuarantinedOperation);
      (kept.(quarantined := s.quarantined + [row]), QuarantinedCandidate(row, checkpoint))
    else if Settled(status) || status.FencedOperation? || status.Cancelled? then (s, AlreadySettled(status))
    else (SetStatus(s, id, AcceptedOperation), AcceptedCandidate(checkpoint))
  }

  /** `resumeOperation` */
  ghost function ResumeIt(env: Environment, s: GateState, id: Id, o: Options): (GateState, GateReply)
  {
    if !s.writable then (s, GateThrown(GateReadOnly))
    else if id !in s.operations then (s, GateThrown(OperationNotFound))
    else
      var f := FindsNow(env, s, id, Resume, o);
      var later, checkpoint := Recording(s, id, Resume, f), CheckpointOf(id, Resume, f);
      if f.status.Passed? then (SetStatus(later, id, Running), Resumed(checkpoint))
      else (SetStatus(later, id, BlockedOperation), NotResumed(checkpoint))
  }
}
