/** The lifecycle gate as it runs: the checks one after the other, each recording what it finds
    in the operation, fence, checkpoint and quarantine tables. */
module LifecycleStore {
  import opened Texts
  import opened Graph
  import opened Json
  import opened CanonicalForm
  import opened Lifecycle
  import opened LifecycleRuns
  import Authorization
  import Disclosure

  class Gate {
    var writable: bool
    var operations: map<Id, Operation>
    var fences: seq<Fence>
    var checkpoints: seq<Checkpoint>
    var quarantined: seq<Quarantine>

    constructor (writable: bool)
      ensures State() == GateState(writable, map[], [], [], [])
    {
      this.writable, operations, fences, checkpoints, quarantined := writable, map[], [], [], [];
    }

    ghost function State(): GateState
      reads this
    {
      GateState(writable, operations, fences, checkpoints, quarantined)
    }

    /** `createLifecycleOperation` */
    method CreateLifecycleOperation(id: Id, operationType: Text, snapshot: Snapshot, status: OperationStatus) returns (reply: GateReply)
      modifies this
      ensures (State(), reply) == Create(old(State()), id, operationType, snapshot, status)
    {
      if !writable { return GateThrown(GateReadOnly); }
      if operationType == [] { return GateThrown(OperationTypeMissing); }
      if id in operations { return GateThrown(OperationExists); }
      operations := operations[id := Operation(snapshot, status)];
      reply := GateDone;
    }

    /** `updateLifecycleOperationStatus` */
    method UpdateStatus(id: Id, status: OperationStatus) returns (reply: GateReply)
      modifies this
      ensures (State(), reply) == Update(old(State()), id, status)
    {
      if !writable { return GateThrown(GateReadOnly); }
      if id !in operations { return GateThrown(OperationNotFound); }
      operations := operations[id := operations[id].(status := status)];
      reply := GateDone;
    }

    /** `fenceRevokedOperation` */
    method FenceRevokedOperation(id: Id, reason: Reason) returns (reply: GateReply)
      modifies this
      ensures (State(), reply) == FenceIt(old(State()), id, reason)
    {
      if !writable { return GateThrown(GateReadOnly); }
      if id !in operations { return GateThrown(OperationNotFound); }
      fences := fences + [Fence(id, reason)];
      operations := operations[id := operations[id].(status := FencedOperation)];
      reply := GateDone;
    }

    /** The newest fence of the operation, if it has one. */
    method FindFence(id: Id) returns (reason: Option<Reason>)
      ensures reason.Some? <==> Fenced(fences, id)
      ensures reason.Some? ==> reason.value == LatestFence(fences, id)
    {
      reason := None;
      for i := 0 to |fences|
        invariant reason.Some? <==> Fenced(fences[..i], id)
        invariant reason.Some? ==> reason.value == LatestFence(fences[..i], id)
      {
        assert fences[..i + 1][..i] == fences[..i];
        assert fences[..i + 1][i] == fences[i];
        if Fenced(fences[..i], id) {
          FencedMore(fences[..i], [fences[i]], id);
          assert fences[..i] + [fences[i]] == fences[..i + 1];
        }
        if fences[i].operation == id {
          reason := Some(fences[i].reason);
        }
      }
      assert fences[..|fences|] == fences;
    }

    /** The status update, the fence and the checkpoint a finding calls for. */
    method RecordFinding(id: Id, phase: Phase, f: Finding) returns (checkpoint: Checkpoint)
      requires id in operations && writable
      modifies this
      ensures State() == Recording(old(State()), id, phase, f) && checkpoint == CheckpointOf(id, phase, f)
    {
      if f.blocks {
        var _ := UpdateStatus(id, BlockedOperation);
      }
      if f.fence.Some? {
        var _ := FenceRevokedOperation(id, f.fence.value);
      }
      checkpoint := Checkpoint(id, phase, f.status, f.reason);
      checkpoints := checkpoints + [checkpoint];
    }

    /** `checkLifecyclePolicy` */
    method CheckLifecyclePolicy(env: Environment, id: Id, phase: Phase, o: Options) returns (reply: GateReply)
      modifies this
      ensures (State(), reply) == Check(env, old(State()), id, phase, o)
      ensures writable == old(writable) && operations.Keys == old(operations.Keys)
    {
      hide Finds, LatestFence;
      if id !in operations { return GateThrown(OperationNotFound); }
      if !writable { return GateThrown(GateReadOnly); }
      var op := operations[id];
      var finding := Finding(Passed, PassedAll, false, None);
      var fence := FindFence(id);
      if fence.Some? {
        finding := Finding(BlockedCheck, FencedFor(fence.value), false, None);
      } else if op.status == Cancelled {
        finding := Finding(BlockedCheck, CancelledBefore, false, None);
      } else {
        var found := FindObstacle(env, op.snapshot, phase, o);
        if found.Some? { finding := found.value; }
      }
      var checkpoint := RecordFinding(id, phase, finding);
      reply := Checked(checkpoint);
    }

    /** `acceptCandidate` */
    method AcceptCandidate(env: Environment, id: Id, candidate: Id, o: Options) returns (reply: GateReply)
      modifies this
      ensures (State(), reply) == Accept(env, old(State()), id, candidate, o)
    {
      hide FindsNow, Fenced;
      if !writable { return GateThrown(GateReadOnly); }
      if id !in operations { return GateThrown(OperationNotFound); }
      if Settled(operations[id].status) { return AlreadySettled(operations[id].status); }
      var checked := CheckLifecyclePolicy(env, id, Acceptance, o);
      var checkpoint := checked.checkpoint;
      var status := operations[id].status;
      if !checkpoint.status.Passed? {
        var row := Quarantine(id, candidate, checkpoint.reason);
        quarantined := quarantined + [row];
        if !status.FencedOperation? && !status.Cancelled? {
          operations := operations[id := operations[id].(status := QuarantinedOperation)];
        }
        return QuarantinedCandidate(row, checkpoint);
      }
      if Settled(status) || status.FencedOperation? || status.Cancelled? { return AlreadySettled(status); }
      operations := operations[id := operations[id].(status := AcceptedOperation)];
      reply := AcceptedCandidate(checkpoint);
    }

    /** `resumeOperation` */
    method ResumeOperation(env: Environment, id: Id, o: Options) returns (reply: GateReply)
      modifies this
      ensures (State(), reply) == ResumeIt(env, old(State()), id, o)
    {
      hide FindsNow, Fenced;
      if !writable { return GateThrown(GateReadOnly); }
      if id !in operations { return GateThrown(OperationNotFound); }
      var checked := CheckLifecyclePolicy(env, id, Resume, o);
      if !checked.checkpoint.status.Passed? {
        var _ := UpdateStatus(id, BlockedOperation);
        return NotResumed(checked.checkpoint);
      }
      var _ := UpdateStatus(id, Running);
      reply := Resumed(checked.checkpoint);
    }
  }

  /** The loop over the context fields that compares what is supplied with what is recorded. */
  method FindDifference(recorded: RawContext, requested: RawContext) returns (d: Option<Dimension>)
    ensures d == FirstDiffering(recorded, requested, ContextKeys())
  {
    var keys := ContextKeys();
    for i := 0 to |keys|
      invariant FirstDiffering(recorded, requested, keys) == FirstDiffering(recorded, requested, keys[i..])
    {
      assert keys[i..][0] == keys[i] && keys[i..][1..] == keys[i + 1..];
      if Differs(recorded, requested, keys[i]) { return Some(keys[i]); }
    }
    d := None;
  }

  /** The loop that refuses what the snapshot does not record. */
  method FindUnrecorded(recorded: RawContext, requested: RawContext) returns (d: Option<Dimension>)
    ensures d == FirstUnrecorded(recorded, requested, ContextKeys())
  {
    var keys := ContextKeys();
    for i := 0 to |keys|
      invariant FirstUnrecorded(recorded, requested, keys) == FirstUnrecorded(recorded, requested, keys[i..])
    {
      assert keys[i..][0] == keys[i] && keys[i..][1..] == keys[i + 1..];
      if Unrecorded(recorded, requested, keys[i]) { return Some(keys[i]); }
    }
    d := None;
  }

  /** One input version: known, classified, and not stopped by policy or permissions. */
  method FindInInput(env: Environment, phase: Phase, o: Options, v: Id) returns (f: Option<Finding>)
    ensures f == InputFinding(env, phase, o, v)
  {
    if v !in env.versions { return Some(Denies(InputMissing(v))); }
    if env.policy.classification(v).None? { return Some(Blocks(InputUnclassified(v))); }
    if Truthy(o.context.destination) && Truthy(o.context.purpose) { return PolicyFinding(env.evaluate(v)); }
    var e := Disclosure.EffectiveRestriction(env.dependencies, env.policy, [v]);
    Disclosure.FlagsOverClosure(env.dependencies, env.policy, [v], e);
    var active := HasActivePermission(env.policy, v);
    if e.withdrawn && !active { return Some(Finding(BlockedCheck, PermissionWithdrawn(v), false, Some(PermissionWithdrawn(v)))); }
    if e.expired && !active { return Some(Blocks(PermissionExpired(v))); }
    if phase.External? && e.localOnly { return Some(Denies(LocalOnlyInput(v))); }
    f := None;
  }

  /** The loop over the input versions. */
  method FindInInputs(env: Environment, snapshot: Snapshot, phase: Phase, o: Options) returns (f: Option<Finding>)
    ensures f == CurrencyFinding(env, snapshot, phase, o)
  {
    hide InputFinding, InputVersions;
    var inputs := InputVersions(env.textOf, snapshot);
    if inputs == [] && phase.Dispatch? { return Some(Blocks(NoInputs)); }
    for i := 0 to |inputs|
      invariant InputsFinding(env, phase, o, inputs) == InputsFinding(env, phase, o, inputs[i..])
    {
      assert inputs[i..][0] == inputs[i] && inputs[i..][1..] == inputs[i + 1..];
      var found := FindInInput(env, phase, o, inputs[i]);
      if found.Some? { return found; }
    }
    f := None;
  }

  method FindInAuthorization(env: Environment, snapshot: Snapshot, phase: Phase, o: Options) returns (f: Option<Finding>)
    ensures f == AuthorizationFinding(env, snapshot, phase, o)
  {
    var recorded := ActivityOf(snapshot);
    if !recorded.Named? { return None; }
    var verdict := AssessSnapshot(env, snapshot, recorded.activity);
    if !verdict.permitted {
      var reason := NotAuthorized(verdict, phase.External?);
      var revoked := verdict.status.AuthorizationWithdrawn? || verdict.status.AuthorizationExpired?;
      return Some(Finding(BlockedCheck, reason, true, if revoked then Some(reason) else None));
    }
    var unrecorded := FindUnrecorded(ContextOf(snapshot), o.context);
    f := if unrecorded.Some? then Some(Blocks(FieldNotRecorded(unrecorded.value))) else None;
  }

  /** The checks of an operation that is neither fenced nor cancelled, up to the first that fails. */
  method FindObstacle(env: Environment, snapshot: Snapshot, phase: Phase, o: Options) returns (f: Option<Finding>)
    ensures f == Finds(env, snapshot, phase, o)
  {
    hide ActivityFinding, ProtocolFinding, AuthorizationFinding, CurrencyFinding, SubmissionFinding, CapabilityFinding, CommandFinding,
      FirstDiffering, ContextOf, ActivityOf;
    f := ActivityFinding(snapshot, o);
    if f.Some? { return; }
    if ActivityOf(snapshot).Named? {
      var differing := FindDifference(ContextOf(snapshot), o.context);
      if differing.Some? { return Some(Blocks(FieldDiffers(differing.value))); }
    }
    f := ProtocolFinding(env, snapshot);
    if f.Some? { return; }
    f := FindInAuthorization(env, snapshot, phase, o);
    if f.Some? { return; }
    f := FindInInputs(env, snapshot, phase, o);
    if f.Some? { return; }
    f := SubmissionFinding(o);
    if f.Some? { return; }
    f := CapabilityFinding(phase, o);
    if f.Some? { return; }
    f := CommandFinding(o);
  }
}
