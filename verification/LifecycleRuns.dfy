/** The lifecycle gate over whole runs: fences are permanent, every refused candidate is
    quarantined once, and a passed check rests on the persisted snapshot. */
module LifecycleRuns {
  import opened Texts
  import opened Graph
  import opened Json
  import opened CanonicalForm
  import opened Lifecycle
  import Authorization
  import Disclosure

  datatype GateCommand =
    | CreateOperation(id: Id, operationType: Text, snapshot: Snapshot, status: OperationStatus)
    | SetOperationStatus(id: Id, status: OperationStatus)
    | FenceOperation(id: Id, reason: Text)
    | CheckOperation(id: Id, phase: Phase, o: Options)
    | AcceptOperation(id: Id, candidate: Id, o: Options)
    | ResumeOperation(id: Id, o: Options)

  /** A command with the answers the other stores give when it runs. */
  datatype Call = Call(env: Environment, command: GateCommand)

  function Create(s: GateState, id: Id, operationType: Text, snapshot: Snapshot, status: OperationStatus): (GateState, GateReply)
  {
    if !s.writable then (s, GateThrown(GateReadOnly))
    else if operationType == [] then (s, GateThrown(OperationTypeMissing))
    else if id in s.operations then (s, GateThrown(OperationExists))
    else (s.(operations := s.operations[id := Operation(snapshot, status)]), GateDone)
  }

  function Update(s: GateState, id: Id, status: OperationStatus): (GateState, GateReply)
  {
    if !s.writable then (s, GateThrown(GateReadOnly))
    else if id !in s.operations then (s, GateThrown(OperationNotFound))
    else (SetStatus(s, id, status), GateDone)
  }

  function FenceIt(s: GateState, id: Id, reason: Reason): (GateState, GateReply)
  {
    if !s.writable then (s, GateThrown(GateReadOnly))
    else if id !in s.operations then (s, GateThrown(OperationNotFound))
    else (AddFence(s, id, reason), GateDone)
  }

  ghost function GateStep(s: GateState, call: Call): (GateState, GateReply)
  {
    match call.command
    case CreateOperation(id, operationType, snapshot, status) => Create(s, id, operationType, snapshot, status)
    case SetOperationStatus(id, status) => Update(s, id, status)
    case FenceOperation(id, reason) => FenceIt(s, id, Given(reason))
    case CheckOperation(id, phase, o) => Check(call.env, s, id, phase, o)
    case AcceptOperation(id, candidate, o) => Accept(call.env, s, id, candidate, o)
    case ResumeOperation(id, o) => ResumeIt(call.env, s, id, o)
  }

  ghost function GateRun(s: GateState, calls: seq<Call>): GateState
  {
    if calls == [] then s else GateStep(GateRun(s, calls[..|calls| - 1]), calls[|calls| - 1]).0
  }

  ghost function Replies(s: GateState, calls: seq<Call>): seq<GateReply>
  {
    if calls == [] then [] else
      Replies(s, calls[..|calls| - 1]) + [GateStep(GateRun(s, calls[..|calls| - 1]), calls[|calls| - 1]).1]
  }

  // ------------------------------------------------------------------ the plain calls

  /** An operation is created if and only if the gate is writable, it has a type and its id is free;
      it holds the snapshot and status given. */
  lemma CreatedExactly(s: GateState, id: Id, operationType: Text, snapshot: Snapshot, status: OperationStatus)
    ensures var (later, reply) := Create(s, id, operationType, snapshot, status);
      && (reply == GateDone <==> s.writable && operationType != [] && id !in s.operations)
      && later == if reply == GateDone then s.(operations := s.operations[id := Operation(snapshot, status)]) else s
  {
  }

  /** A fence takes hold if and only if the gate is writable and the operation exists, and so does a
      new status; a fence is there afterwards, with its reason, and the status says so. */
  lemma FencedExactly(s: GateState, id: Id, reason: Reason, status: OperationStatus)
    ensures var (later, reply) := FenceIt(s, id, reason);
      && (reply == GateDone <==> s.writable && id in s.operations)
      && (reply == GateDone ==> Fenced(later.fences, id) && later.fences == s.fences + [Fence(id, reason)] && later.operations[id].status == FencedOperation)
      && (reply != GateDone ==> later == s)
    ensures var (later, reply) := Update(s, id, status);
      && (reply == GateDone <==> s.writable && id in s.operations)
      && later == if reply == GateDone then s.(operations := s.operations[id := Operation(s.operations[id].snapshot, status)]) else s
  {
    assert (s.fences + [Fence(id, reason)])[|s.fences|].operation == id;
  }

  // ------------------------------------------------------------------ fences

  /** The reply lets the operation go on. */
  predicate LetsOn(reply: GateReply, id: Id)
  {
    match reply
    case Checked(checkpoint) => checkpoint.operation == id && checkpoint.status.Passed?
    case AcceptedCandidate(checkpoint) => checkpoint.operation == id
    case Resumed(checkpoint) => checkpoint.operation == id
    case _ => false
  }

  lemma FencedMore(fences: seq<Fence>, more: seq<Fence>, id: Id)
    requires Fenced(fences, id)
    ensures Fenced(fences + more, id)
  {
    var i :| 0 <= i < |fences| && fences[i].operation == id;
    assert (fences + more)[i].operation == id;
  }

  lemma RecordingKeepsFences(s: GateState, id: Id, phase: Phase, f: Finding, other: Id)
    requires id in s.operations
    ensures Fenced(s.fences, other) ==> Fenced(Recording(s, id, phase, f).fences, other)
    ensures f.fence.Some? ==> Fenced(Recording(s, id, phase, f).fences, id)
  {
    if f.fence.Some? {
      var added := [Fence(id, f.fence.value)];
      assert (s.fences + added)[|s.fences|].operation == id;
      if Fenced(s.fences, other) {
        FencedMore(s.fences, added, other);
      }
    }
  }

  lemma StepKeepsFences(s: GateState, call: Call, id: Id)
    requires Fenced(s.fences, id)
    ensures Fenced(GateStep(s, call).0.fences, id)
    ensures !LetsOn(GateStep(s, call).1, id)
  {
    hide FindsNow;
    var on := call.command.id;
    if s.writable && on in s.operations {
      match call.command
      case FenceOperation(_, reason) => FencedMore(s.fences, [Fence(on, Given(reason))], id);
      case CheckOperation(_, phase, o) => RecordingKeepsFences(s, on, phase, FindsNow(call.env, s, on, phase, o), id);
      case AcceptOperation(_, _, o) => RecordingKeepsFences(s, on, Acceptance, FindsNow(call.env, s, on, Acceptance, o), id);
      case ResumeOperation(_, o) => RecordingKeepsFences(s, on, Resume, FindsNow(call.env, s, on, Resume, o), id);
      case _ =>
    }
  }

  /** Once an operation is fenced, no call in any run passes a check, accepts a candidate or
      resumes it, whatever its status is set to and whatever the other stores answer. */
  lemma {:induction false} FencesArePermanent(s: GateState, calls: seq<Call>, id: Id)
    requires Fenced(s.fences, id)
    ensures Fenced(GateRun(s, calls).fences, id)
    ensures forall r :: r in Replies(s, calls) ==> !LetsOn(r, id)
  {
    if calls != [] {
      var init, last := calls[..|calls| - 1], calls[|calls| - 1];
      FencesArePermanent(s, init, id);
      StepKeepsFences(GateRun(s, init), last, id);
    }
  }

  predicate Revokes(reason: Reason)
  {
    || reason.PermissionWithdrawn?
    || (reason.PolicyDenied? && Includes(reason.text, T("withdrawn")))
    || (reason.NotAuthorized? && (reason.verdict.status.AuthorizationWithdrawn? || reason.verdict.status.AuthorizationExpired?))
  }

  predicate Revoking(f: Option<Finding>)
  {
    f.Some? && Revokes(f.value.reason)
  }

  lemma OnlyTwoRevoke(env: Environment, snapshot: Snapshot, phase: Phase, o: Options)
    ensures !Revoking(ActivityFinding(snapshot, o)) && !Revoking(DifferenceFinding(snapshot, o)) && !Revoking(ProtocolFinding(env, snapshot))
    ensures !Revoking(SubmissionFinding(o)) && !Revoking(CapabilityFinding(phase, o)) && !Revoking(CommandFinding(o))
  {
    hide ActivityOf, ContextOf, FirstDiffering, ValueAt;
  }

  lemma RevokedInputFences(env: Environment, snapshot: Snapshot, phase: Phase, o: Options)
    ensures Revoking(CurrencyFinding(env, snapshot, phase, o)) ==> CurrencyFinding(env, snapshot, phase, o).value.fence.Some?
  {
    hide InputVersions, Includes;
  }

  lemma RevokedActivityFences(env: Environment, snapshot: Snapshot, phase: Phase, o: Options)
    ensures Revoking(AuthorizationFinding(env, snapshot, phase, o)) ==> AuthorizationFinding(env, snapshot, phase, o).value.fence.Some?
  {
    hide AssessSnapshot, ActivityOf, ContextOf, FirstUnrecorded;
  }

  lemma RevocationFences(env: Environment, s: GateState, id: Id, phase: Phase, o: Options)
    requires id in s.operations && !Fenced(s.fences, id) && Revokes(FindsNow(env, s, id, phase, o).reason)
    ensures FindsNow(env, s, id, phase, o).fence.Some?
  {
    var snapshot := s.operations[id].snapshot;
    OnlyTwoRevoke(env, snapshot, phase, o);
    RevokedInputFences(env, snapshot, phase, o);
    RevokedActivityFences(env, snapshot, phase, o);
    hide ActivityFinding, DifferenceFinding, ProtocolFinding, AuthorizationFinding, CurrencyFinding, SubmissionFinding, CapabilityFinding, CommandFinding,
      Revokes, LatestFence, Fenced;
  }

  /** A check that finds the authorization withdrawn or expired, a permission withdrawn, or policy
      denying for a withdrawal, ends the operation for good: renewing any of them changes nothing. */
  lemma RevocationIsFinal(s: GateState, env: Environment, id: Id, phase: Phase, o: Options, calls: seq<Call>)
    requires Check(env, s, id, phase, o).1.Checked? && !Fenced(s.fences, id)
    requires Revokes(Check(env, s, id, phase, o).1.checkpoint.reason)
    ensures forall r :: r in Replies(Check(env, s, id, phase, o).0, calls) ==> !LetsOn(r, id)
  {
    hide FindsNow;
    RevocationFences(env, s, id, phase, o);
    RecordingKeepsFences(s, id, phase, FindsNow(env, s, id, phase, o), id);
    FencesArePermanent(Check(env, s, id, phase, o).0, calls, id);
  }

  // ------------------------------------------------------------------ quarantine

  function RowsIn(reply: GateReply): seq<Quarantine>
  {
    if reply.QuarantinedCandidate? then [reply.row] else []
  }

  function RowsOfReplies(replies: seq<GateReply>): seq<Quarantine>
  {
    if replies == [] then [] else RowsOfReplies(replies[..|replies| - 1]) + RowsIn(replies[|replies| - 1])
  }

  lemma StepQuarantines(s: GateState, call: Call)
    ensures GateStep(s, call).0.quarantined == s.quarantined + RowsIn(GateStep(s, call).1)
    ensures Explained(GateStep(s, call).1)
    ensures GateStep(s, call).1.QuarantinedCandidate? ==>
      var reply := GateStep(s, call).1;
      && !reply.checkpoint.status.Passed? && reply.row.operation == reply.checkpoint.operation && reply.row.reason == reply.checkpoint.reason
      && GateStep(s, call).0.checkpoints == s.checkpoints + [reply.checkpoint]
  {
    hide FindsNow, LatestFence, Fenced;
  }

  /** The row of a refused candidate names the checkpoint's operation and reason. */
  predicate Explained(r: GateReply)
  {
    r.QuarantinedCandidate? ==>
      r.row.operation == r.checkpoint.operation && r.row.reason == r.checkpoint.reason && !r.checkpoint.status.Passed?
  }

  /** The quarantine table is the log of the refused candidates: over any run it grows by exactly
      one row for each, in order, with the reason of the checkpoint that refused it. */
  lemma {:induction false} QuarantineIsTheLog(s: GateState, calls: seq<Call>)
    ensures GateRun(s, calls).quarantined == s.quarantined + RowsOfReplies(Replies(s, calls))
    ensures forall r :: r in Replies(s, calls) ==> Explained(r)
  {
    if calls != [] {
      var init, last := calls[..|calls| - 1], calls[|calls| - 1];
      QuarantineIsTheLog(s, init);
      StepQuarantines(GateRun(s, init), last);
      LastReply(s, calls);
      LastRows(Replies(s, init), GateStep(GateRun(s, init), last).1);
      hide GateStep, Replies, GateRun, RowsOfReplies, RowsIn, Explained;
    }
  }

  lemma LastRows(replies: seq<GateReply>, reply: GateReply)
    ensures RowsOfReplies(replies + [reply]) == RowsOfReplies(replies) + RowsIn(reply)
  {
    assert (replies + [reply])[..|replies|] == replies;
  }

  lemma LastReply(s: GateState, calls: seq<Call>)
    requires calls != []
    ensures var init, last := calls[..|calls| - 1], calls[|calls| - 1];
      && GateRun(s, calls) == GateStep(GateRun(s, init), last).0
      && Replies(s, calls) == Replies(s, init) + [GateStep(GateRun(s, init), last).1]
  {
  }

  /** A candidate whose operation is open is quarantined exactly when its check fails. */
  lemma QuarantinedExactly(s: GateState, env: Environment, id: Id, candidate: Id, o: Options)
    requires s.writable && id in s.operations && s.operations[id].status !in {AcceptedOperation, Completed, RejectedOperation}
    ensures Accept(env, s, id, candidate, o).1.QuarantinedCandidate? <==> !Check(env, s, id, Acceptance, o).1.checkpoint.status.Passed?
    ensures Accept(env, s, id, candidate, o).1.QuarantinedCandidate? ==>
      Accept(env, s, id, candidate, o).1.checkpoint == Check(env, s, id, Acceptance, o).1.checkpoint
    ensures Accept(env, s, id, candidate, o).1.QuarantinedCandidate? ==>
      Accept(env, s, id, candidate, o).1.row == Quarantine(id, candidate, Check(env, s, id, Acceptance, o).1.checkpoint.reason)
    ensures Accept(env, s, id, candidate, o).1.QuarantinedCandidate? ==>
      var checked := Check(env, s, id, Acceptance, o).0.operations[id].status;
      Accept(env, s, id, candidate, o).0.operations[id].status == if checked == FencedOperation || checked == Cancelled then checked else QuarantinedOperation
  {
    hide FindsNow;
  }

  // ------------------------------------------------------------------ the snapshot binds

  ghost predicate BoundToSnapshot(recorded: RawContext, requested: RawContext)
  {
    forall d: Dimension {:trigger ValueOf(requested, d)} :: ValueOf(requested, d).Some? ==>
      ValueOf(recorded, d).Some? && Same(ValueOf(recorded, d).value, ValueOf(requested, d).value)
  }

  lemma EveryKey(d: Dimension)
    ensures d in ContextKeys()
  {
    assert ContextKeys()[match d case Population => 0 case DataClasses => 1 case DataUse => 2 case Destination => 3 case Purpose => 4 case Conditions => 5] == d;
  }

  lemma FindsNothing(env: Environment, snapshot: Snapshot, phase: Phase, o: Options)
    requires Finds(env, snapshot, phase, o).None?
    ensures ActivityFinding(snapshot, o).None? && DifferenceFinding(snapshot, o).None? && ProtocolFinding(env, snapshot).None?
    ensures AuthorizationFinding(env, snapshot, phase, o).None? && CurrencyFinding(env, snapshot, phase, o).None?
    ensures SubmissionFinding(o).None? && CapabilityFinding(phase, o).None? && CommandFinding(o).None?
  {
    hide ActivityFinding, DifferenceFinding, ProtocolFinding, AuthorizationFinding, CurrencyFinding, SubmissionFinding, CapabilityFinding, CommandFinding;
  }

  /** With an activity recorded, a passed check means that every option supplied with it equals
      the field of the snapshot, and that the snapshot's own context is authorized. */
  lemma PassedIsBound(env: Environment, s: GateState, id: Id, phase: Phase, o: Options, activity: Text)
    requires Check(env, s, id, phase, o).1.Checked? && Check(env, s, id, phase, o).1.checkpoint.status.Passed?
    requires ActivityOf(s.operations[id].snapshot) == Named(activity)
    ensures o.activity in {None, Some(activity)}
    ensures BoundToSnapshot(ContextOf(s.operations[id].snapshot), o.context)
    ensures AssessSnapshot(env, s.operations[id].snapshot, activity).permitted
    ensures !Fenced(s.fences, id)
  {
    hide AssessSnapshot, Same, InputVersions, ValueAt, Includes, FirstDiffering, FirstUnrecorded, CurrencyFinding, ProtocolFinding, CapabilityFinding, SubmissionFinding;
    var snapshot := s.operations[id].snapshot;
    FindsNothing(env, snapshot, phase, o);
    forall d: Dimension | ValueOf(o.context, d).Some?
      ensures ValueOf(ContextOf(snapshot), d).Some? && Same(ValueOf(ContextOf(snapshot), d).value, ValueOf(o.context, d).value)
    {
      EveryKey(d);
      assert !Differs(ContextOf(snapshot), o.context, d) && !Unrecorded(ContextOf(snapshot), o.context, d);
    }
  }

  // ------------------------------------------------------------------ who may proceed

  /** The activity asked for, if any, is the one recorded, and what is recorded is in order. */
  predicate ActivityInOrder(snapshot: Snapshot, o: Options)
  {
    && (o.activity.Some? ==> ActivityOf(snapshot) == Named(o.activity.value))
    && (ActivityOf(snapshot).NoActivity? || (ActivityOf(snapshot).Named? && Authorization.Proper(Recorded(snapshot))))
  }

  ghost predicate ProtocolInOrder(env: Environment, snapshot: Snapshot)
  {
    forall id :: Holds(snapshot, T("protocolVersionId"), id) ==>
      && id.Str? && !IsBlank(id.t)
      && var currency := env.currency(id.t);
      && currency.Currency? && !currency.superseded && (currency.materialChange ==> currency.contextMatches)
  }

  /** The option is supplied, and not by a value that counts as false. */
  ghost predicate Supplied(value: Option<Json>)
  {
    value.Some? && value.value !in {Null, Boolean(false), Str([]), Number([0x30]), Extreme(NotANumber)}
  }

  ghost predicate InputInOrder(env: Environment, phase: Phase, o: Options, v: Id)
  {
    && v in env.versions && env.policy.classification(v).Some?
    && if Supplied(o.context.destination) && Supplied(o.context.purpose) then env.evaluate(v).verdict.Allow?
       else
         && ((exists p :: p in env.policy.permissions(v) && p.status == Disclosure.ActivePermission)
             || !(Disclosure.HasMark(env.dependencies, env.policy, [v], Disclosure.Withdrawn) || Disclosure.HasMark(env.dependencies, env.policy, [v], Disclosure.Expired)))
         && (phase.External? ==> !Disclosure.LocalOnly(env.dependencies, env.policy, [v]))
  }

  predicate Entitled(phase: Phase, o: Options)
  {
    && (o.allowCandidateSubmission ==> o.capability == Owner(true) || (o.capability.Worker? && o.capability.ofProject && o.capability.submits))
    && ((phase.Acceptance? && !o.allowCandidateSubmission) || o.requireCanonicalWrite ==>
          o.capability == Owner(true) || (o.capability.Worker? && o.capability.ofProject && o.capability.writes))
  }

  /** What a check stands for, all at once and without an order. */
  ghost predicate MayProceed(env: Environment, op: Operation, phase: Phase, o: Options)
  {
    && op.status != Cancelled
    && ActivityInOrder(op.snapshot, o) && ProtocolInOrder(env, op.snapshot) && Entitled(phase, o) && o.commandDenied != Some(true)
    && (ActivityOf(op.snapshot).Named? ==>
          BoundToSnapshot(ContextOf(op.snapshot), o.context) && AssessSnapshot(env, op.snapshot, ActivityOf(op.snapshot).activity).permitted)
    && (phase.Dispatch? ==> !InputsAre(env.textOf, op.snapshot, []))
    && (forall inputs, v :: InputsAre(env.textOf, op.snapshot, inputs) && v in inputs ==> InputInOrder(env, phase, o, v))
  }

  lemma ProperHasNothingMalformed(c: RawContext)
    ensures MalformedIn(c).None? <==> Authorization.Proper(c)
  {
  }

  lemma ActivityDecided(snapshot: Snapshot, o: Options)
    ensures ActivityFinding(snapshot, o).None? <==> ActivityInOrder(snapshot, o)
  {
    hide ActivityOf, MalformedIn, Recorded;
    ProperHasNothingMalformed(Recorded(snapshot));
  }

  lemma ContextDecided(env: Environment, snapshot: Snapshot, phase: Phase, o: Options)
    ensures DifferenceFinding(snapshot, o).None? && AuthorizationFinding(env, snapshot, phase, o).None? <==>
      (ActivityOf(snapshot).Named? ==>
        BoundToSnapshot(ContextOf(snapshot), o.context) && AssessSnapshot(env, snapshot, ActivityOf(snapshot).activity).permitted)
  {
    hide AssessSnapshot, ActivityOf, Same, FirstDiffering, FirstUnrecorded, ContextOf;
    forall d: Dimension ensures d in ContextKeys() { EveryKey(d); }
    BoundDecided(ContextOf(snapshot), o.context);
  }

  lemma BoundDecided(recorded: RawContext, requested: RawContext)
    ensures BoundToSnapshot(recorded, requested) <==>
      FirstDiffering(recorded, requested, ContextKeys()).None? && FirstUnrecorded(recorded, requested, ContextKeys()).None?
  {
    hide Same, FirstDiffering, FirstUnrecorded;
    var bound := FirstDiffering(recorded, requested, ContextKeys()).None? && FirstUnrecorded(recorded, requested, ContextKeys()).None?;
    forall d: Dimension | bound && ValueOf(requested, d).Some?
      ensures ValueOf(recorded, d).Some? && Same(ValueOf(recorded, d).value, ValueOf(requested, d).value)
    {
      EveryKey(d);
      assert !Differs(recorded, requested, d) && !Unrecorded(recorded, requested, d);
    }
  }

  lemma InputDecided(env: Environment, phase: Phase, o: Options, v: Id)
    ensures InputFinding(env, phase, o, v).None? <==> InputInOrder(env, phase, o, v)
  {
    hide Includes;
  }

  /** A check passes if and only if the operation is neither fenced nor cancelled, the request
      agrees with the snapshot, the snapshot's activity is authorized, its protocol is current,
      every input is in order, the caller is entitled and no command is denied. */
  lemma PassesExactly(env: Environment, s: GateState, id: Id, phase: Phase, o: Options)
    requires id in s.operations
    ensures FindsNow(env, s, id, phase, o).status.Passed? <==> !Fenced(s.fences, id) && MayProceed(env, s.operations[id], phase, o)
  {
    var snapshot := s.operations[id].snapshot;
    ActivityDecided(snapshot, o);
    ContextDecided(env, snapshot, phase, o);
    InputsDecided(env, snapshot, phase, o);
    EntitledDecided(phase, o);
    ProtocolDecided(env, snapshot);
    hide ActivityFinding, DifferenceFinding, ProtocolFinding, AuthorizationFinding, CurrencyFinding, SubmissionFinding, CapabilityFinding, CommandFinding,
      ActivityInOrder, ProtocolInOrder, Entitled, InputInOrder, BoundToSnapshot, ActivityOf, AssessSnapshot, ContextOf, InputsAre, LatestFence, Fenced;
  }

  lemma InputsDecided(env: Environment, snapshot: Snapshot, phase: Phase, o: Options)
    ensures CurrencyFinding(env, snapshot, phase, o).None? <==>
      && (phase.Dispatch? ==> !InputsAre(env.textOf, snapshot, []))
      && (forall inputs, v :: InputsAre(env.textOf, snapshot, inputs) && v in inputs ==> InputInOrder(env, phase, o, v))
  {
    hide InputVersions, InputFinding, InputInOrder, InputsAre;
    forall v ensures InputFinding(env, phase, o, v).None? <==> InputInOrder(env, phase, o, v) {
      InputDecided(env, phase, o, v);
    }
    forall inputs ensures InputsAre(env.textOf, snapshot, inputs) <==> inputs == InputVersions(env.textOf, snapshot) {
      InputsExactly(env.textOf, snapshot, inputs);
    }
    assert InputsAre(env.textOf, snapshot, InputVersions(env.textOf, snapshot));
  }

  lemma ProtocolDecided(env: Environment, snapshot: Snapshot)
    ensures ProtocolFinding(env, snapshot).None? <==> ProtocolInOrder(env, snapshot)
  {
    hide ValueAt, FieldsOf, T, IsBlank;
    HoldsNone(snapshot, T("protocolVersionId"));
    forall id ensures ValueAt(FieldsOf(snapshot), T("protocolVersionId")) == Some(id) <==> Holds(snapshot, T("protocolVersionId"), id) {
      HoldsExactly(snapshot, T("protocolVersionId"), id);
    }
    hide Holds;
  }

  lemma EntitledDecided(phase: Phase, o: Options)
    ensures SubmissionFinding(o).None? && CapabilityFinding(phase, o).None? <==> Entitled(phase, o)
    ensures CommandFinding(o).None? <==> o.commandDenied != Some(true)
  {
  }

  /** The context a check authorizes: all the snapshot records when that is proper, else nothing. */
  lemma ContextReads(snapshot: Snapshot, d: Dimension, value: Json)
    ensures ValueOf(ContextOf(snapshot), d) == Some(value) <==> Authorization.Proper(Recorded(snapshot)) && Holds(snapshot, KeyOf(d), value)
  {
    hide Recorded, Holds, KeyOf, MalformedIn, Authorization.Proper;
    ProperHasNothingMalformed(Recorded(snapshot));
    RecordedReads(snapshot, d, value);
  }

  // ------------------------------------------------------------------ what revocation leads to

  /** The newest record of the snapshot's activity is withdrawn or has lapsed. */
  ghost predicate AuthorizationGone(env: Environment, activity: Text)
  {
    && (forall r :: r in env.authorizations ==> r.readable && WellFormed(r.scope))
    && exists row :: Authorization.Newest(env.authorizations, activity, row)
         && (row.status == Authorization.AuthorizationWithdrawn || Authorization.Lapsed(row, env.now))
  }

  lemma GoneIsReported(env: Environment, snapshot: Snapshot, activity: Text)
    requires AuthorizationGone(env, activity) && activity in Authorization.Activities() && Authorization.Proper(ContextOf(snapshot))
    requires ContextOf(snapshot).conditions.Some? ==> WellFormed(ContextOf(snapshot).conditions.value)
    ensures var verdict := AssessSnapshot(env, snapshot, activity);
      !verdict.permitted && (verdict.status.AuthorizationWithdrawn? || verdict.status.AuthorizationExpired?)
  {
    hide ContextOf, Authorization.Proper, Authorization.Activities, Authorization.Newest, Authorization.Assess, Authorization.Permits, Authorization.Checked;
    Authorization.StatusExactly(env.norm, env.authorizations, activity, ContextOf(snapshot), env.now);
    Authorization.PermittedExactly(env.norm, env.authorizations, activity, ContextOf(snapshot), env.now);
    var row :| Authorization.Newest(env.authorizations, activity, row) && (row.status == Authorization.AuthorizationWithdrawn || Authorization.Lapsed(row, env.now));
    assert Authorization.Considered(env.authorizations, activity, ContextOf(snapshot), row);
    var status := if row.status == Authorization.AuthorizationWithdrawn then Authorization.AuthorizationWithdrawn else Authorization.AuthorizationExpired;
    assert Authorization.CallsFor(env.norm, row, Authorization.Checked(ContextOf(snapshot)), env.now, status);
    forall other | Authorization.Newest(env.authorizations, activity, other) ensures other == row {
      Authorization.NewestIsFirst(env.authorizations, activity, row);
      Authorization.NewestIsFirst(env.authorizations, activity, other);
    }
  }

  /** A check that gets as far as the authorization of an activity whose newest record is withdrawn
      or has lapsed fences the operation, and no later call in any run lets it on. */
  lemma GoneAuthorizationFences(s: GateState, env: Environment, id: Id, phase: Phase, o: Options, activity: Text, calls: seq<Call>)
    requires s.writable && id in s.operations && !Fenced(s.fences, id) && s.operations[id].status != Cancelled
    requires ActivityOf(s.operations[id].snapshot) == Named(activity) && ActivityInOrder(s.operations[id].snapshot, o)
    requires forall d: Dimension :: !Differs(ContextOf(s.operations[id].snapshot), o.context, d)
    requires ProtocolInOrder(env, s.operations[id].snapshot) && AuthorizationGone(env, activity)
    requires ContextOf(s.operations[id].snapshot).conditions.Some? ==> WellFormed(ContextOf(s.operations[id].snapshot).conditions.value)
    ensures var (later, reply) := Check(env, s, id, phase, o);
      && reply.Checked? && reply.checkpoint.status.BlockedCheck? && reply.checkpoint.reason.NotAuthorized?
      && Fenced(later.fences, id) && later.operations[id].status == FencedOperation
      && forall r :: r in Replies(later, calls) ==> !LetsOn(r, id)
  {
    var snapshot := s.operations[id].snapshot;
    ProperContext(snapshot, activity, o);
    GoneIsReported(env, snapshot, activity);
    GoneIsFound(env, snapshot, phase, o, activity);
    hide Finds, ContextOf, ActivityOf, ActivityInOrder, ProtocolInOrder, AuthorizationGone, AssessSnapshot, LatestFence, Differs;
    RecordingKeepsFences(s, id, phase, FindsNow(env, s, id, phase, o), id);
    hide FindsNow;
    FencesArePermanent(Check(env, s, id, phase, o).0, calls, id);
  }

  lemma ProperContext(snapshot: Snapshot, activity: Text, o: Options)
    requires ActivityOf(snapshot) == Named(activity) && ActivityInOrder(snapshot, o)
    ensures Authorization.Proper(ContextOf(snapshot)) && activity in Authorization.Activities()
  {
    hide Recorded, Authorization.Activities;
    ProperHasNothingMalformed(Recorded(snapshot));
    hide Authorization.Proper, MalformedIn;
  }

  lemma GoneIsFound(env: Environment, snapshot: Snapshot, phase: Phase, o: Options, activity: Text)
    requires ActivityOf(snapshot) == Named(activity) && ActivityInOrder(snapshot, o) && ProtocolInOrder(env, snapshot)
    requires forall d: Dimension :: !Differs(ContextOf(snapshot), o.context, d)
    requires var verdict := AssessSnapshot(env, snapshot, activity);
      !verdict.permitted && (verdict.status.AuthorizationWithdrawn? || verdict.status.AuthorizationExpired?)
    ensures var reason := NotAuthorized(AssessSnapshot(env, snapshot, activity), phase.External?);
      Finds(env, snapshot, phase, o) == Some(Finding(BlockedCheck, reason, true, Some(reason)))
  {
    ActivityDecided(snapshot, o);
    ProtocolDecided(env, snapshot);
    hide ActivityFinding, ProtocolFinding, CurrencyFinding, SubmissionFinding, CapabilityFinding, CommandFinding, ContextOf, AssessSnapshot, ActivityInOrder,
      ProtocolInOrder, FirstUnrecorded, FirstDiffering, Differs;
  }

  /** What a check does to the status: nothing when it passes or finds a fence or a cancellation;
      otherwise the operation is fenced if a fence was added, and blocked if not. */
  lemma StatusAfterCheck(env: Environment, s: GateState, id: Id, phase: Phase, o: Options)
    requires s.writable && id in s.operations
    ensures var (later, reply) := Check(env, s, id, phase, o);
      var op := s.operations[id];
      && later.checkpoints == s.checkpoints + [reply.checkpoint] && reply.checkpoint.operation == id && reply.checkpoint.phase == phase
      && later.quarantined == s.quarantined && later.operations.Keys == s.operations.Keys
      && (forall other :: other in s.operations && other != id ==> later.operations[other] == s.operations[other])
      && later.operations[id] == op.(status :=
           if reply.checkpoint.status.Passed? || Fenced(s.fences, id) || op.status == Cancelled then op.status
           else if later.fences != s.fences then FencedOperation else BlockedOperation)
      && (reply.checkpoint.status.Passed? || Fenced(s.fences, id) || op.status == Cancelled ==> later.fences == s.fences)
      && (later.fences == s.fences || later.fences == s.fences + [Fence(id, reply.checkpoint.reason)])
  {
    FindingsSettle(env, s.operations[id].snapshot, phase, o);
    hide Finds, LatestFence, Fenced;
  }

  /** Every obstacle found sets the status: it blocks the operation, or fences it for its reason. */
  predicate Settles(f: Option<Finding>)
  {
    f.Some? ==> (f.value.blocks || f.value.fence.Some?) && f.value.fence in {None, Some(f.value.reason)}
  }

  lemma FindingsSettle(env: Environment, snapshot: Snapshot, phase: Phase, o: Options)
    ensures Settles(Finds(env, snapshot, phase, o))
  {
    FoundByOne(env, snapshot, phase, o);
    EarlyFindingsSettle(env, snapshot, phase, o);
    InputsSettle(env, snapshot, phase, o);
    hide Settles, Finds, ActivityFinding, DifferenceFinding, ProtocolFinding, AuthorizationFinding, CurrencyFinding, SubmissionFinding, CapabilityFinding, CommandFinding;
  }

  lemma EarlyFindingsSettle(env: Environment, snapshot: Snapshot, phase: Phase, o: Options)
    ensures Settles(ActivityFinding(snapshot, o)) && Settles(DifferenceFinding(snapshot, o)) && Settles(ProtocolFinding(env, snapshot))
    ensures Settles(AuthorizationFinding(env, snapshot, phase, o))
    ensures Settles(SubmissionFinding(o)) && Settles(CapabilityFinding(phase, o)) && Settles(CommandFinding(o))
  {
    hide ActivityOf, ContextOf, FirstDiffering, FirstUnrecorded, ValueAt, AssessSnapshot, MalformedIn, Recorded;
  }

  lemma InputSettles(env: Environment, phase: Phase, o: Options, v: Id)
    ensures Settles(InputFinding(env, phase, o, v))
  {
    hide Includes, Truthy, T;
  }

  lemma InputsSettle(env: Environment, snapshot: Snapshot, phase: Phase, o: Options)
    ensures Settles(CurrencyFinding(env, snapshot, phase, o))
  {
    hide InputVersions, InputFinding, InputsFinding;
    forall v ensures Settles(InputFinding(env, phase, o, v)) {
      InputSettles(env, phase, o, v);
    }
  }

  /** The reasons that make a failed check a denial rather than a block. */
  predicate Denial(reason: Reason)
  {
    || reason.InputMissing? || reason.LocalOnlyInput? || (reason.PolicyDenied? && !Includes(reason.text, T("withdrawn")))
    || reason.NoSubmission? || reason.NoCapabilityGiven? || reason.ForeignOwner? || reason.ForeignWorker?
    || reason.WorkerLacksWrite? || reason.ForgedCapability? || reason.CommandDenied?
  }

  predicate Tells(f: Option<Finding>)
  {
    f.Some? ==> !f.value.reason.PassedAll? && f.value.status == if Denial(f.value.reason) then DeniedCheck else BlockedCheck
  }

  lemma EarlyFindingsTell(env: Environment, snapshot: Snapshot, phase: Phase, o: Options)
    ensures Tells(ActivityFinding(snapshot, o)) && Tells(DifferenceFinding(snapshot, o)) && Tells(ProtocolFinding(env, snapshot))
    ensures Tells(AuthorizationFinding(env, snapshot, phase, o))
    ensures Tells(SubmissionFinding(o)) && Tells(CapabilityFinding(phase, o)) && Tells(CommandFinding(o))
  {
    hide ActivityOf, ContextOf, FirstDiffering, FirstUnrecorded, ValueAt, AssessSnapshot, MalformedIn, Recorded;
  }

  lemma InputTells(env: Environment, phase: Phase, o: Options, v: Id)
    ensures Tells(InputFinding(env, phase, o, v))
  {
    hide Includes, Truthy, T;
  }

  lemma InputsTell(env: Environment, snapshot: Snapshot, phase: Phase, o: Options)
    ensures Tells(CurrencyFinding(env, snapshot, phase, o))
  {
    hide InputVersions, InputFinding, InputsFinding, Includes;
    forall v ensures Tells(InputFinding(env, phase, o, v)) {
      InputTells(env, phase, o, v);
    }
  }

  /** What stops an operation is found by one of the checks. */
  lemma FoundByOne(env: Environment, snapshot: Snapshot, phase: Phase, o: Options)
    ensures var f := Finds(env, snapshot, phase, o);
      || f == ActivityFinding(snapshot, o) || f == DifferenceFinding(snapshot, o) || f == ProtocolFinding(env, snapshot)
      || f == AuthorizationFinding(env, snapshot, phase, o) || f == CurrencyFinding(env, snapshot, phase, o)
      || f == SubmissionFinding(o) || f == CapabilityFinding(phase, o) || f == CommandFinding(o)
  {
    hide ActivityFinding, DifferenceFinding, ProtocolFinding, AuthorizationFinding, CurrencyFinding, SubmissionFinding, CapabilityFinding, CommandFinding;
  }

  lemma FindsTells(env: Environment, snapshot: Snapshot, phase: Phase, o: Options)
    ensures Tells(Finds(env, snapshot, phase, o))
  {
    FoundByOne(env, snapshot, phase, o);
    EarlyFindingsTell(env, snapshot, phase, o);
    InputsTell(env, snapshot, phase, o);
    hide Tells, Finds, ActivityFinding, DifferenceFinding, ProtocolFinding, AuthorizationFinding, CurrencyFinding, SubmissionFinding, CapabilityFinding, CommandFinding;
  }

  /** The reason of a check tells its status. */
  lemma ReasonTellsStatus(env: Environment, s: GateState, id: Id, phase: Phase, o: Options)
    requires id in s.operations
    ensures var f := FindsNow(env, s, id, phase, o);
      f.status == if f.reason.PassedAll? then Passed else if Denial(f.reason) then DeniedCheck else BlockedCheck
  {
    FindsTells(env, s.operations[id].snapshot, phase, o);
    hide Finds, Fenced, LatestFence, Includes;
  }

  // ------------------------------------------------------------------ acceptance and resumption

  /** A candidate is accepted if and only if its operation is open, not fenced by row or by
      status, and may proceed to acceptance. */
  lemma AcceptedExactly(env: Environment, s: GateState, id: Id, candidate: Id, o: Options)
    requires s.writable && id in s.operations
    ensures Accept(env, s, id, candidate, o).1.AcceptedCandidate? <==>
      && s.operations[id].status !in {AcceptedOperation, Completed, RejectedOperation, FencedOperation}
      && !Fenced(s.fences, id) && MayProceed(env, s.operations[id], Acceptance, o)
    ensures Accept(env, s, id, candidate, o).1.AcceptedCandidate? ==>
      Accept(env, s, id, candidate, o).0.operations[id].status == AcceptedOperation && Accept(env, s, id, candidate, o).0.quarantined == s.quarantined
  {
    PassesExactly(env, s, id, Acceptance, o);
    PassedWritesNoStatus(env, s, id, Acceptance, o);
    hide FindsNow, Fenced;
    assert s.operations[id].status.Cancelled? ==> !MayProceed(env, s.operations[id], Acceptance, o);
    hide MayProceed;
  }

  lemma PassedWritesNoStatus(env: Environment, s: GateState, id: Id, phase: Phase, o: Options)
    requires id in s.operations
    ensures var f := FindsNow(env, s, id, phase, o); f.status.Passed? ==> !f.blocks && f.fence.None?
  {
    hide Finds, LatestFence, Fenced;
  }

  /** The same for a resumption, which asks no more of the status than that it is not cancelled. */
  lemma ResumedExactly(env: Environment, s: GateState, id: Id, o: Options)
    requires s.writable && id in s.operations
    ensures ResumeIt(env, s, id, o).1.Resumed? <==> !Fenced(s.fences, id) && MayProceed(env, s.operations[id], Resume, o)
    ensures ResumeIt(env, s, id, o).0.operations[id].status == if ResumeIt(env, s, id, o).1.Resumed? then Running else BlockedOperation
  {
    PassesExactly(env, s, id, Resume, o);
    hide FindsNow, Fenced, MayProceed;
  }

  /** The options laid over the snapshot's context. */
  function Merged(recorded: RawContext, requested: RawContext): RawContext
  {
    Authorization.RawContext(
      Over(recorded.population, requested.population), Over(recorded.dataUse, requested.dataUse),
      Over(recorded.dataClasses, requested.dataClasses), Over(recorded.destination, requested.destination),
      Over(recorded.purpose, requested.purpose), Over(recorded.conditions, requested.conditions))
  }

  function Over(recorded: Option<Json>, requested: Option<Json>): Option<Json>
  {
    if requested.Some? then requested else recorded
  }

  lemma SameText(x: Json, y: Json)
    requires Same(x, y) && x.Str?
    ensures y == x
  {
  }

  lemma SameTexts(x: Json, y: Json)
    requires Same(x, y) && Authorization.StringArray(x).Some?
    ensures y == x
  {
    forall i | 0 <= i < |x.items| ensures y.items[i] == x.items[i] {
      assert Same(x.items[i], y.items[i]);
      SameText(x.items[i], y.items[i]);
    }
    assert x.items == y.items;
  }

  lemma SameConditions(x: Json, y: Json)
    requires WellFormed(x) && WellFormed(y) && Same(x, y)
    ensures BagOf(Settle(x)) == BagOf(Settle(y)) && (x.Null? <==> y.Null?)
  {
    SameImpliesCanonical(x, y);
    CanonicalDecidesSettled(x, y);
  }

  lemma MergedAsksNoMore(norm: Authorization.Norm, recorded: RawContext, requested: RawContext)
    requires Authorization.Proper(recorded) && BoundToSnapshot(recorded, requested)
    requires recorded.conditions.Some? ==> WellFormed(recorded.conditions.value)
    requires requested.conditions.Some? ==> WellFormed(requested.conditions.value)
    ensures Authorization.Proper(Merged(recorded, requested))
    ensures Authorization.AsksNoMore(norm, Authorization.Checked(recorded), Authorization.Checked(Merged(recorded, requested)))
  {
    hide Same;
    TextKept(recorded, requested, Authorization.Population);
    TextKept(recorded, requested, Authorization.DataUse);
    TextKept(recorded, requested, Authorization.Destination);
    TextKept(recorded, requested, Authorization.Purpose);
    var d := ValueOf(requested, Authorization.DataClasses);
    if d.Some? {
      SameTexts(recorded.dataClasses.value, requested.dataClasses.value);
    }
    var c := ValueOf(requested, Authorization.Conditions);
    if c.Some? {
      SameConditions(recorded.conditions.value, requested.conditions.value);
    }
    SameClassesNarrow(norm, Authorization.Checked(recorded).dataClasses);
  }

  lemma SameClassesNarrow(norm: Authorization.Norm, classes: Option<seq<Text>>)
    ensures Authorization.Narrows(norm, classes, classes)
  {
    if classes.Some? {
      forall c | c in classes.value ensures exists b :: b in classes.value && Authorization.Alike(norm, b, c) {
        assert Authorization.Alike(norm, c, c);
      }
    }
  }

  lemma TextKept(recorded: RawContext, requested: RawContext, d: Dimension)
    requires d !in {Authorization.DataClasses, Authorization.Conditions}
    requires Authorization.ProperText(ValueOf(recorded, d)) && BoundToSnapshot(recorded, requested)
    ensures ValueOf(Merged(recorded, requested), d) == ValueOf(recorded, d)
  {
    if ValueOf(requested, d).Some? {
      SameText(ValueOf(recorded, d).value, ValueOf(requested, d).value);
    }
  }

  /** So the options cannot move the authorization: with them laid over the snapshot's context
      the verdict is the one of the snapshot alone. */
  lemma OptionsMoveNoVerdict(env: Environment, s: GateState, id: Id, phase: Phase, o: Options, activity: Text)
    requires Check(env, s, id, phase, o).1.Checked? && Check(env, s, id, phase, o).1.checkpoint.status.Passed?
    requires ActivityOf(s.operations[id].snapshot) == Named(activity)
    requires forall r :: r in env.authorizations ==> WellFormed(r.scope)
    requires ContextOf(s.operations[id].snapshot).conditions.Some? ==> WellFormed(ContextOf(s.operations[id].snapshot).conditions.value)
    requires o.context.conditions.Some? ==> WellFormed(o.context.conditions.value)
    ensures Authorization.Assess(env.norm, env.authorizations, activity, Merged(ContextOf(s.operations[id].snapshot), o.context), env.now)
      == AssessSnapshot(env, s.operations[id].snapshot, activity)
  {
    var recorded := ContextOf(s.operations[id].snapshot);
    PassedIsBound(env, s, id, phase, o, activity);
    hide Check, BoundToSnapshot, ContextOf, ActivityOf;
    assert Authorization.Assess(env.norm, env.authorizations, activity, recorded, env.now).permitted;
    assert Authorization.Proper(recorded);
    MergedAsksNoMore(env.norm, recorded, o.context);
    hide Authorization.AsksNoMore, Authorization.Proper;
    Authorization.CheckedWellFormed(recorded);
    Authorization.CheckedWellFormed(Merged(recorded, o.context));
    Authorization.PermittedStays(env.norm, env.authorizations, activity, recorded, Merged(recorded, o.context), env.now);
  }
}
