/**
 The approval gate of the Tool Runtime (crates/tool-runtime/src/execution.rs and
 registry.rs): one lookup and classification yields a plan that owns the exact call,
 and only that plan, with a matching authorization, reaches a handler.
 */
module ToolGate {
  import opened Prelude
  import opened Events
  import ApprovalReason

  datatype ToolApprovalPolicy =
    | AlwaysAllow
    | RequiresApproval(reason: string)
    | CallDependent
    | AlwaysReject(reason: string)

  datatype ToolCallPolicy = Allow | AskFirst(reason: string) | Reject(reason: string)

  datatype Authorization = NotRequired | ApprovalGranted(callId: ToolCallId)

  datatype Disposition = Ready | NeedsApproval(reason: string) | Rejected(error: ToolError)

  datatype PreparedToolCall = PreparedToolCall(dispatcher: nat, call: ToolCall, disposition: Disposition)
  {
    function ApprovalReason(): Option<string> {
      if disposition.NeedsApproval? then Some(disposition.reason) else None
    }
  }

  function Fail(code: string, message: string): ToolOutput {
    ToolFailure(ToolError(code, message, false), map[])
  }

  /** The plan for a call whose handler classified it. */
  function Classified(dispatcher: nat, call: ToolCall, policy: ToolCallPolicy): PreparedToolCall {
    match policy
    case Allow => PreparedToolCall(dispatcher, call, Ready)
    case AskFirst(reason) =>
      var bounded := ApprovalReason.Bound(reason);
      if ApprovalReason.Blank(bounded) then InvalidPolicy(dispatcher, call)
      else PreparedToolCall(dispatcher, call, NeedsApproval(ApprovalReason.Bound(bounded)))
    case Reject(reason) =>
      var bounded := ApprovalReason.Bound(reason);
      if ApprovalReason.Blank(bounded) then InvalidPolicy(dispatcher, call)
      else PreparedToolCall(dispatcher, call, Rejected(ToolError("tool_rejected", bounded, false)))
  }

  function InvalidPolicy(dispatcher: nat, call: ToolCall): PreparedToolCall {
    PreparedToolCall(dispatcher, call,
      Rejected(ToolError("invalid_tool_policy", "call-dependent policy reason must not be empty", false)))
  }

  /** Consumes a plan and checks the Agent Runtime's decision. */
  function IntoAuthorizedCall(plan: PreparedToolCall, dispatcher: nat, authorization: Authorization): Result<ToolCall, ToolOutput> {
    if plan.dispatcher != dispatcher then
      Failure(Fail("invalid_prepared_tool_call", "prepared tool call belongs to a different dispatcher"))
    else
      match plan.disposition
      case Ready => Success(plan.call)
      case NeedsApproval(reason) =>
        if authorization == ApprovalGranted(plan.call.id) then Success(plan.call)
        else Failure(Fail("approval_required", reason))
      case Rejected(error) => Failure(ToolFailure(error, map[]))
  }

  function NormalizeDispatcherOutput(output: ToolOutput): ToolOutput {
    if output.ToolFailure? && output.error.code == APPROVAL_DENIED then
      Fail("reserved_tool_error_code", "tool dispatcher returned reserved error code 'approval_denied'")
    else output
  }

  /** A plan this module makes: rejections never borrow the reserved denial code. */
  ghost predicate Honest(plan: PreparedToolCall) {
    plan.disposition.Rejected? ==> plan.disposition.error.code != APPROVAL_DENIED
  }

  /** No handler output and no gate refusal can pass for a denial by the user. */
  lemma GateNeverClaimsDenial(plan: PreparedToolCall, dispatcher: nat, authorization: Authorization, output: ToolOutput)
    requires Honest(plan)
    ensures !ClaimsDenial(NormalizeDispatcherOutput(output))
    ensures IntoAuthorizedCall(plan, dispatcher, authorization).Failure? ==>
              !ClaimsDenial(IntoAuthorizedCall(plan, dispatcher, authorization).error)
  {
    hide ApprovalReason.Bound;
    OtherCodes();
    if plan.dispatcher == dispatcher && plan.disposition.NeedsApproval? {
      var refusal := Fail("approval_required", plan.disposition.reason);
      assert !ClaimsDenial(refusal);
    }
  }

  /** The codes of the gate's own refusals are not the reserved one. */
  lemma OtherCodes()
    ensures "reserved_tool_error_code" != APPROVAL_DENIED && "invalid_prepared_tool_call" != APPROVAL_DENIED
    ensures "approval_required" != APPROVAL_DENIED
  {
    assert |"reserved_tool_error_code"| != |APPROVAL_DENIED|;
    assert |"invalid_prepared_tool_call"| != |APPROVAL_DENIED|;
    assert |"approval_required"| != |APPROVAL_DENIED|;
  }

  /** The handler entry that running a plan amounts to. */
  function ExecutionOf(plan: PreparedToolCall): Execution {
    Execution(plan.call, plan.disposition.NeedsApproval?)
  }

  /** A handler that was entered gave the output; otherwise the gate did, and refused. */
  ghost predicate Passed(output: ToolOutput, raw: Option<ToolOutput>, plan: PreparedToolCall, before: seq<Execution>, after: seq<Execution>) {
    match raw
    case Some(handled) => after == before + [ExecutionOf(plan)] && output == NormalizeDispatcherOutput(handled)
    case None => after == before && output.ToolFailure?
  }

  /** What the registered policy of a tool makes of a call. */
  ghost predicate FollowsPolicy(policies: map<string, ToolApprovalPolicy>, plan: PreparedToolCall) {
    if plan.call.toolName !in policies then plan.disposition.Rejected? && plan.disposition.error.code == "unknown_tool"
    else
      match policies[plan.call.toolName]
      case AlwaysAllow => plan.disposition == Ready
      case RequiresApproval(reason) => plan.disposition == NeedsApproval(ApprovalReason.Bound(reason))
      case AlwaysReject(reason) => plan.disposition == Rejected(ToolError("tool_rejected", ApprovalReason.Bound(reason), false))
      case CallDependent => exists policy :: plan == Classified(plan.dispatcher, plan.call, policy)
  }

  /** A handler entry that the policies admit: of a registered tool, never one always rejected, and asked about where they say so. */
  predicate Admissible(policies: map<string, ToolApprovalPolicy>, x: Execution) {
    && x.call.toolName in policies && !policies[x.call.toolName].AlwaysReject?
    && (policies[x.call.toolName].RequiresApproval? ==> x.needsApproval)
    && (policies[x.call.toolName].AlwaysAllow? ==> !x.needsApproval)
  }

  class ToolRuntime {
    const identity: nat
    var policies: map<string, ToolApprovalPolicy>
    /** Plans this dispatcher made, and handlers it entered, in order. Nobody else can make its plans. */
    ghost var plans: seq<PreparedToolCall>
    ghost var executed: seq<Execution>

    ghost predicate Valid()
      reads this
    {
      && (forall p :: p in plans ==> p.dispatcher == identity && Honest(p) && FollowsPolicy(policies, p))
      && (forall x :: x in executed ==> Admissible(policies, x))
    }

    constructor (identity: nat, policies: map<string, ToolApprovalPolicy>)
      ensures Valid() && plans == [] && executed == []
    {
      this.identity, this.policies, this.plans, this.executed := identity, policies, [], [];
    }

    /** A handler's own policy decision: anything at all. */
    method Classify(call: ToolCall) returns (policy: ToolCallPolicy) {
      policy := *;
    }

    /** A handler's run: it may return anything, or never be seen to return by a crashed process. */
    method RunHandler(plan: PreparedToolCall) returns (output: ToolOutput)
      modifies `executed
      ensures executed == old(executed) + [ExecutionOf(plan)]
    {
      executed := executed + [ExecutionOf(plan)];
      output := *;
    }

    /** One lookup and at most one classification make the plan of a call. */
    method Prepare(call: ToolCall) returns (plan: PreparedToolCall)
      requires Valid()
      modifies `plans
      ensures Valid() && plans == old(plans) + [plan]
      ensures plan.call == call && plan.dispatcher == identity && Honest(plan) && FollowsPolicy(policies, plan)
      ensures plan.ApprovalReason().Some? ==>
                |ApprovalReason.JsonString(plan.ApprovalReason().value)| <= ApprovalReason.MAX_APPROVAL_REASON_SERIALIZED_BYTES
    {
      plan := MakePlan(call);
      plans := plans + [plan];
    }

    method MakePlan(call: ToolCall) returns (plan: PreparedToolCall)
      ensures plan.call == call && plan.dispatcher == identity && Honest(plan) && FollowsPolicy(policies, plan)
      ensures plan.ApprovalReason().Some? ==>
                |ApprovalReason.JsonString(plan.ApprovalReason().value)| <= ApprovalReason.MAX_APPROVAL_REASON_SERIALIZED_BYTES
    {
      assert |"unknown_tool"| != |APPROVAL_DENIED|;
      assert |"tool_rejected"| != |APPROVAL_DENIED|;
      assert |"invalid_tool_policy"| != |APPROVAL_DENIED|;
      if call.toolName !in policies {
        return PreparedToolCall(identity, call,
          Rejected(ToolError("unknown_tool", "tool '" + call.toolName + "' is not registered", false)));
      }
      match policies[call.toolName] {
        case AlwaysAllow => plan := PreparedToolCall(identity, call, Ready);
        case RequiresApproval(reason) =>
          ApprovalReason.BoundCorrect(reason);
          plan := PreparedToolCall(identity, call, NeedsApproval(ApprovalReason.Bound(reason)));
        case CallDependent =>
          var policy := Classify(call);
          if policy.AskFirst? { ApprovalReason.BoundCorrect(policy.reason); }
          plan := Classified(identity, call, policy);
        case AlwaysReject(reason) =>
          plan := PreparedToolCall(identity, call,
            Rejected(ToolError("tool_rejected", ApprovalReason.Bound(reason), false)));
      }
    }

    /** The handler runs exactly when a plan of this dispatcher is ready, or needs approval and was granted it. */
    method ExecutePrepared(plan: PreparedToolCall, authorization: Authorization) returns (output: ToolOutput, ghost raw: Option<ToolOutput>)
      requires Valid() && Honest(plan) && (plan.dispatcher == identity ==> plan in plans)
      modifies `executed
      ensures Valid() && !ClaimsDenial(output)
      ensures Passed(output, raw, plan, old(executed), executed)
      ensures raw.Some? <==>
                && plan.dispatcher == identity
                && (plan.disposition.Ready?
                    || (plan.disposition.NeedsApproval? && authorization == ApprovalGranted(plan.call.id)))
      ensures plan.dispatcher == identity && plan.disposition.Rejected? ==> output == ToolFailure(plan.disposition.error, map[])
    {
      raw := None;
      GateNeverClaimsDenial(plan, identity, authorization, Fail("", ""));
      match IntoAuthorizedCall(plan, identity, authorization) {
        case Failure(refusal) => return refusal, None;
        case Success(call) =>
          if call.toolName !in policies {
            return Fail("unknown_tool", "tool '" + call.toolName + "' is not registered"), None;
          }
          PlanAdmissible(policies, plan);
          var handled := RunHandler(plan);
          GateNeverClaimsDenial(plan, identity, authorization, handled);
          return NormalizeDispatcherOutput(handled), Some(handled);
      }
    }
  }

  /** Only plans that the policy admits get as far as a handler. */
  lemma PlanAdmissible(policies: map<string, ToolApprovalPolicy>, plan: PreparedToolCall)
    requires FollowsPolicy(policies, plan) && !plan.disposition.Rejected?
    ensures Admissible(policies, ExecutionOf(plan))
  {
  }
}
