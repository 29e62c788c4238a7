/** One MCP tool invocation, from lookup to stored result. */
module Invocations {
  import opened Types
  import opened Approvals
  import opened ApprovalServices
  import Mcp = McpPolicies
  import Pointers = JsonPointers

  type McpError = Mcp.McpError

  datatype ToolResult = ToolResult(content: Json, isError: bool, securityWarning: bool)

  datatype Invocation = Invocation(
    requestId: Uuid,
    tenantId: string,
    principalId: string,
    server: Uuid,
    tool: string,
    approvalId: Option<Uuid>,
    idempotencyKey: Option<string>)

  /** What an inspection decided; a rewritten result is present unless the content is of another kind. */
  datatype Inspection = Inspection(action: SecurityAction, rewritten: Option<Json>)

  /** Everything the collaborators answer during one invocation. `tools` maps the server's tools to their risk;
      `requestHash` is the hash of the inspected invocation. */
  datatype Surroundings = Surroundings(
    server: Result<(), McpError>,
    tools: Result<map<string, Mcp.ToolRiskLevel>, McpError>,
    policy: Result<Mcp.McpPolicy, McpError>,
    arguments: Json,
    requestBytes: nat,
    argumentInspection: Option<SecurityAction>,
    requestHash: string,
    newApprovalId: Uuid,
    now: int,
    later: int,
    reserved: Result<(), McpError>,
    released: Result<(), McpError>,
    reply: Result<ToolResult, McpError>,
    responseBytes: nat,
    resultInspection: Option<Inspection>,
    usageStored: Result<(), McpError>)

  datatype McpUsageStatus = PolicyDenied | CallFailed | ResultBlocked | Invoked(isError: bool)

  datatype UsageRecord = UsageRecord(requestId: Uuid, invocations: nat, status: McpUsageStatus)

  /** A call of a tool and the approval it needed, if it needed one. */
  datatype Call = Call(requestId: Uuid, requestHash: string, onApproval: Option<Uuid>)

  /** What is fixed when the service starts: whether approvals are enabled, how long one lasts, and how a result is
      written as JSON and read back. */
  datatype Setup = Setup(
    approvalEnabled: bool,
    expirationSeconds: nat,
    encode: ToolResult -> Json,
    decode: Json -> Option<ToolResult>)

  predicate Exceeds(limit: Option<nat>, bytes: nat) {
    limit.Some? && bytes > limit.value
  }

  function Risk(policy: Mcp.McpPolicy, tool: string, classified: Mcp.ToolRiskLevel): Mcp.ToolRiskLevel {
    if tool in policy.riskOverrides then policy.riskOverrides[tool] else classified
  }

  function MapApproval(error: ApprovalError, id: Uuid): McpError {
    match error
    case HasExpired => Mcp.ApprovalExpired
    case WasRejected => Mcp.ApprovalRejected
    case Forbidden => Mcp.ToolNotAllowed
    case Replay => Mcp.ToolNotAllowed
    case StillPending => Mcp.ApprovalRequired(id)
    case _ => Mcp.Unavailable
  }

  // ---------------------------------------------------------------- what an invocation may do

  /** Nothing that is checked before approvals turns the invocation away. */
  predicate Admissible(i: Invocation, e: Surroundings) {
    && e.server.Ok? && e.tools.Ok? && i.tool in e.tools.value && e.policy.Ok?
    && e.policy.value.Authorize(i.server, i.tool, e.arguments).Ok?
    && !Exceeds(e.policy.value.maximum.requestBytes, e.requestBytes)
    && e.argumentInspection.Some? && e.argumentInspection.value != Block
  }

  /** The policy speaks against it. */
  predicate DeniedByPolicy(i: Invocation, e: Surroundings) {
    && e.server.Ok? && e.tools.Ok? && i.tool in e.tools.value && e.policy.Ok?
    && e.policy.value.Authorize(i.server, i.tool, e.arguments).Err?
  }

  /** What an invocation that is not admissible is answered: the first check it fails decides. */
  function Refusal(i: Invocation, e: Surroundings): McpError
    requires !Admissible(i, e)
  {
    if e.server.Err? then e.server.error
    else if e.tools.Err? then e.tools.error
    else if i.tool !in e.tools.value then Mcp.ToolUnavailable
    else if e.policy.Err? then e.policy.error
    else if DeniedByPolicy(i, e) then e.policy.value.Authorize(i.server, i.tool, e.arguments).error
    else if Exceeds(e.policy.value.maximum.requestBytes, e.requestBytes) then Mcp.TooLarge
    else if e.argumentInspection.None? then Mcp.Unavailable
    else Mcp.ToolNotAllowed
  }

  predicate NeedsApproval(i: Invocation, e: Surroundings)
    requires Admissible(i, e)
  {
    var policy := e.policy.value;
    || policy.Action(i.tool, Risk(policy, i.tool, e.tools.value[i.tool])) == RequireApproval
    || e.argumentInspection.value == RequireApproval
  }

  predicate Refers(i: Invocation) {
    i.approvalId.Some? && i.idempotencyKey.Some?
  }

  /** The approval step taken before the tool is called. */
  function StepBefore(i: Invocation, e: Surroundings, setup: Setup): Option<Step> {
    if !Admissible(i, e) || !NeedsApproval(i, e) || !setup.approvalEnabled then None
    else if Refers(i) then Some(RetryOf(i, e))
    else if !HasExpiry(e.now, setup.expirationSeconds) then None
    else
      Some(Request(ApprovalRequest(e.newApprovalId, i.tenantId, i.principalId, e.requestHash, Pending,
                                   e.now + setup.expirationSeconds)))
  }

  function RetryOf(i: Invocation, e: Surroundings): Step
    requires Refers(i)
  {
    Retry(i.tenantId, i.principalId, i.approvalId.value, i.idempotencyKey.value, e.requestHash, e.now, e.later)
  }

  function MaybeAct(w: Workflow, step: Option<Step>): Workflow {
    match step
    case Some(s) => Act(w, s)
    case None => w
  }

  /** What the claim of an invocation that refers to an approval is answered. */
  function ClaimOf(w: Workflow, i: Invocation, e: Surroundings): Result<ExecutionClaim, ApprovalError>
    requires Refers(i)
  {
    AuthorizeRetry(w, i.tenantId, i.principalId, i.approvalId.value, i.idempotencyKey.value, e.requestHash, e.now,
                   e.later).1
  }

  /** The invocation needs no approval or is the one retry that claims it. */
  predicate Cleared(w: Workflow, i: Invocation, e: Surroundings, setup: Setup) {
    && Admissible(i, e)
    && (NeedsApproval(i, e) ==> setup.approvalEnabled && Refers(i) && ClaimOf(w, i, e) == Ok(Claimed))
  }

  /** The invocation is a replay of one that was completed, with result `value`. */
  predicate Replays(w: Workflow, i: Invocation, e: Surroundings, setup: Setup, value: Json) {
    && Admissible(i, e) && NeedsApproval(i, e) && setup.approvalEnabled && Refers(i)
    && ClaimOf(w, i, e) == Ok(Completed(value))
  }

  function CallOf(i: Invocation, e: Surroundings): Call
    requires Admissible(i, e)
  {
    Call(i.requestId, e.requestHash, if NeedsApproval(i, e) then i.approvalId else None)
  }

  /** What the caller would be handed: the tool's result after the response checks. */
  function Delivered(e: Surroundings, setup: Setup): Result<ToolResult, McpError>
    requires e.policy.Ok?
  {
    if e.reply.Err? then e.reply
    else if Exceeds(e.policy.value.maximum.responseBytes, e.responseBytes) then Err(Mcp.TooLarge)
    else if e.resultInspection.None? then Err(Mcp.Unavailable)
    else
      var inspection := e.resultInspection.value;
      match inspection.action
      case Block => Err(Mcp.ToolNotAllowed)
      case RequireApproval => Err(Mcp.ToolNotAllowed)
      case Warn => Ok(e.reply.value.(securityWarning := true))
      case Allow => e.reply
      case Redact =>
        if inspection.rewritten.None? then e.reply
        else
          match setup.decode(inspection.rewritten.value)
          case Some(value) => Ok(value)
          case None => Err(Mcp.Invalid)
  }

  /** The approval step taken once the tool was called. */
  function StepAfter(i: Invocation, e: Surroundings, setup: Setup): Option<Step>
    requires e.policy.Ok?
  {
    if !Refers(i) then None
    else if e.reply.Err? then Some(Fail(i.approvalId.value, i.idempotencyKey.value))
    else if Delivered(e, setup).Err? || e.usageStored.Err? then None
    else Some(Report(i.approvalId.value, i.idempotencyKey.value, setup.encode(Delivered(e, setup).value)))
  }

  /** The response failed inspection. */
  predicate ResultIsBlocked(e: Surroundings)
    requires e.policy.Ok? && e.reply.Ok?
  {
    && !Exceeds(e.policy.value.maximum.responseBytes, e.responseBytes)
    && e.resultInspection.Some? && e.resultInspection.value.action.Priority() >= 3
  }

  /** What is recorded of an invocation: one that was handed out counts, the others do not. */
  function Recorded(i: Invocation, e: Surroundings, called: bool, setup: Setup): seq<UsageRecord>
    requires called ==> e.policy.Ok?
  {
    if e.usageStored.Err? then []
    else if DeniedByPolicy(i, e) then [UsageRecord(i.requestId, 0, PolicyDenied)]
    else if !called then []
    else if e.reply.Err? then [UsageRecord(i.requestId, 0, CallFailed)]
    else if Delivered(e, setup).Ok? then [UsageRecord(i.requestId, 1, Invoked(Delivered(e, setup).value.isError))]
    else if ResultIsBlocked(e) then [UsageRecord(i.requestId, 0, ResultBlocked)]
    else []
  }

  /** What an invocation that needs approval and is not cleared is answered. */
  function ApprovalAnswer(w: Workflow, i: Invocation, e: Surroundings, setup: Setup): Result<ToolResult, McpError> {
    if !setup.approvalEnabled then Err(Mcp.ToolNotAllowed)
    else if !Refers(i) then
      Err(if setup.expirationSeconds > MAX_DURATION_SECONDS then Mcp.Unavailable
          else if !HasExpiry(e.now, setup.expirationSeconds) then Mcp.Panicked
          else Mcp.ApprovalRequired(e.newApprovalId))
    else
      match ClaimOf(w, i, e)
      case Ok(Completed(value)) =>
        (match setup.decode(value) case Some(stored) => Ok(stored) case None => Err(Mcp.Unavailable))
      case Ok(_) => Err(Mcp.Transport)
      case Err(error) => Err(MapApproval(error, i.approvalId.value))
  }

  /** What a cleared invocation is answered, `w` being the workflow after its claim: a result is handed out only if it
      was delivered, metered and, for an invocation that refers to an approval, stored. */
  function CallAnswer(w: Workflow, i: Invocation, e: Surroundings, setup: Setup): Result<ToolResult, McpError>
    requires e.policy.Ok?
  {
    if e.reserved.Err? then Err(e.reserved.error)
    else if Delivered(e, setup).Err? then Delivered(e, setup)
    else if e.usageStored.Err? then Err(e.usageStored.error)
    else if Refers(i) then
      match Complete(w, i.approvalId.value, i.idempotencyKey.value, setup.encode(Delivered(e, setup).value)).1
      case Ok(_) => Delivered(e, setup)
      case Err(error) => Err(MapApproval(error, i.approvalId.value))
    else Delivered(e, setup)
  }

  function Answer(w: Workflow, i: Invocation, e: Surroundings, setup: Setup): Result<ToolResult, McpError> {
    if !Admissible(i, e) then Err(Refusal(i, e))
    else if !Cleared(w, i, e, setup) then ApprovalAnswer(w, i, e, setup)
    else CallAnswer(MaybeAct(w, StepBefore(i, e, setup)), i, e, setup)
  }

  /** Under an approval, a caller is handed a result exactly in two cases: a fresh one, by the retry that claimed, once
      it was delivered, metered and stored; or the stored one, by a replay. */
  lemma HandedOutIff(w: Workflow, i: Invocation, e: Surroundings, setup: Setup, result: ToolResult)
    requires Admissible(i, e) && NeedsApproval(i, e)
    ensures Answer(w, i, e, setup) == Ok(result) <==>
            || (Cleared(w, i, e, setup) && e.reserved.Ok? && Delivered(e, setup) == Ok(result) && e.usageStored.Ok?)
            || (exists value :: Replays(w, i, e, setup, value) && setup.decode(value) == Some(result))
  {
    if setup.approvalEnabled && Refers(i) {
      ClaimedIff(w, i.tenantId, i.principalId, i.approvalId.value, i.idempotencyKey.value, e.requestHash, e.now,
                 e.later);
      match ClaimOf(w, i, e) {
        case Ok(Completed(value)) => assert Replays(w, i, e, setup, value);
        case Ok(Claimed) =>
          RetryEffect(w, i.tenantId, i.principalId, i.approvalId.value, i.idempotencyKey.value, e.requestHash, e.now,
                      e.later);
        case _ =>
      }
    }
  }

  // ---------------------------------------------------------------- an invocation written out

  /** The server and the tool are admitted, and each restricted pointer leads nowhere or to a listed value. */
  ghost predicate PolicyAdmits(p: Mcp.McpPolicy, i: Invocation, arguments: Json) {
    && i.server !in p.deniedServers && (p.allowedServers == {} || i.server in p.allowedServers)
    && i.tool !in p.deniedTools && (p.allowedTools == {} || i.tool in p.allowedTools)
    && (i.tool in p.argumentRestrictions ==>
          forall pointer :: pointer in p.argumentRestrictions[i.tool] && Pointers.Lookup(arguments, pointer).Some? ==>
            Pointers.Lookup(arguments, pointer).value in p.argumentRestrictions[i.tool][pointer])
  }

  /** The inspection or the policy asks for an approval; without a setting of its own, a tool needs one unless it only
      reads, or changes things and the policy's default for that is another. */
  predicate AsksApproval(p: Mcp.McpPolicy, tool: string, classified: Mcp.ToolRiskLevel, inspected: SecurityAction) {
    || inspected == RequireApproval
    || (tool in p.toolActions && p.toolActions[tool] == RequireApproval)
    || (tool !in p.toolActions &&
        var risk := if tool in p.riskOverrides then p.riskOverrides[tool] else classified;
        && risk != Mcp.ReadOnly
        && (risk == Mcp.Mutating ==> p.defaultMutatingAction in {None, Some(RequireApproval)}))
  }

  /** The approval referred to was granted to this principal for this very invocation, and nobody has claimed it. */
  ghost predicate IsGranted(w: Workflow, i: Invocation, e: Surroundings) {
    && i.approvalId.Some? && i.idempotencyKey.Some?
    && var id, key := i.approvalId.value, i.idempotencyKey.value;
    && (exists k :: 0 <= k < |key| && !IsWhitespace(key[k])) && Utf8Length(key) <= 255
    && id in w.requests && id !in w.executions
    && var r := w.requests[id];
    && r.status == Approved && r.tenantId == i.tenantId && r.principalId == i.principalId
    && r.requestHash == e.requestHash
  }

  /** When the tool is called. */
  ghost predicate MayCall(w: Workflow, i: Invocation, e: Surroundings, setup: Setup) {
    && e.server.Ok? && e.tools.Ok? && i.tool in e.tools.value && e.policy.Ok?
    && var p := e.policy.value;
    && PolicyAdmits(p, i, e.arguments)
    && (p.maximum.requestBytes.Some? ==> e.requestBytes <= p.maximum.requestBytes.value)
    && e.argumentInspection.Some? && e.argumentInspection.value != Block
    && (AsksApproval(p, i.tool, e.tools.value[i.tool], e.argumentInspection.value) ==>
          setup.approvalEnabled && IsGranted(w, i, e))
    && e.reserved.Ok?
  }

  lemma AuthorizedIff(p: Mcp.McpPolicy, i: Invocation, arguments: Json)
    ensures p.Authorize(i.server, i.tool, arguments).Ok? <==> PolicyAdmits(p, i, arguments)
  {
    assert p.AdmitsServer(i.server) <==>
           i.server !in p.deniedServers && (p.allowedServers == {} || i.server in p.allowedServers);
    assert p.AdmitsTool(i.tool) <==> i.tool !in p.deniedTools && (p.allowedTools == {} || i.tool in p.allowedTools);
    if p.AdmitsArguments(i.tool, arguments) && i.tool in p.argumentRestrictions {
      forall pointer | pointer in p.argumentRestrictions[i.tool]
        ensures Pointers.FitsAt(p.argumentRestrictions[i.tool], pointer, arguments)
      {}
    }
  }

  lemma MayCallIff(w: Workflow, i: Invocation, e: Surroundings, setup: Setup)
    ensures MayCall(w, i, e, setup) <==> Cleared(w, i, e, setup) && e.reserved.Ok?
  {
    hide Pointers.Lookup, AuthorizeRetry, Mcp.McpPolicy.Authorize, PolicyAdmits;
    if e.policy.Ok? {
      AuthorizedIff(e.policy.value, i, e.arguments);
    }
    if Refers(i) {
      ClaimedIff(w, i.tenantId, i.principalId, i.approvalId.value, i.idempotencyKey.value, e.requestHash, e.now,
                 e.later);
    }
  }

  /** No claim is given up and none gets a result. */
  ghost predicate KeepsResults(w: Workflow, w': Workflow) {
    && (forall id :: id in w.executions ==> id in w'.executions && w'.executions[id] == w.executions[id])
    && (forall id :: id in w'.executions && id !in w.executions ==> w'.executions[id].result == None)
  }

  predicate TooLong(e: Surroundings)
    requires e.policy.Ok?
  {
    e.policy.value.maximum.responseBytes.Some? && e.responseBytes > e.policy.value.maximum.responseBytes.value
  }

  /** What inspection makes of a reply that it lets pass. */
  predicate IsFresh(e: Surroundings, setup: Setup, final: ToolResult)
    requires e.reply.Ok? && e.resultInspection.Some?
  {
    match e.resultInspection.value.action
    case Allow => final == e.reply.value
    case Warn =>
      final.content == e.reply.value.content && final.isError == e.reply.value.isError && final.securityWarning
    case Redact =>
      (match e.resultInspection.value.rewritten
       case None => final == e.reply.value
       case Some(value) => setup.decode(value) == Some(final))
    case _ => false
  }

  /** The result is `error`, nothing is stored, and what is recorded has the status given, if it has one. */
  ghost predicate Withheld(i: Invocation, e: Surroundings, w: Workflow, w': Workflow, more: seq<UsageRecord>,
                           result: Result<ToolResult, McpError>, error: McpError, status: Option<McpUsageStatus>)
  {
    && result == Err(error) && KeepsResults(w, w')
    && more == if status.Some? && e.usageStored.Ok? then [UsageRecord(i.requestId, 0, status.value)] else []
  }

  /** A fresh result is billed, stored under the approval referred to, if that was claimed under its key, and handed
      out; if it was not so claimed, the result is withheld. */
  ghost predicate HandedOver(i: Invocation, e: Surroundings, setup: Setup, w: Workflow, w': Workflow,
                             more: seq<UsageRecord>, result: Result<ToolResult, McpError>, final: ToolResult)
  {
    if e.usageStored.Err? then Withheld(i, e, w, w', more, result, e.usageStored.error, None)
    else
      && more == [UsageRecord(i.requestId, 1, Invoked(final.isError))]
      && if i.approvalId.None? || i.idempotencyKey.None? then result == Ok(final) && KeepsResults(w, w')
         else
           var id := i.approvalId.value;
           if id in w'.executions && w'.executions[id].key == i.idempotencyKey.value then
             && result == Ok(final) && w'.executions[id].result == Some(setup.encode(final))
             && forall other :: other != id ==>
                  (other in w'.executions <==> other in w.executions) &&
                  (other in w.executions ==> w'.executions[other] == w.executions[other])
           else result == Err(Mcp.ToolNotAllowed) && KeepsResults(w, w')
  }

  /** What a call of the tool comes to. */
  ghost predicate CalledInFull(i: Invocation, e: Surroundings, setup: Setup, w: Workflow, w': Workflow,
                               more: seq<UsageRecord>, result: Result<ToolResult, McpError>)
    requires e.policy.Ok?
  {
    if e.reply.Err? then Withheld(i, e, w, w', more, result, e.reply.error, Some(CallFailed))
    else if TooLong(e) then Withheld(i, e, w, w', more, result, Mcp.TooLarge, None)
    else if e.resultInspection.None? then Withheld(i, e, w, w', more, result, Mcp.Unavailable, None)
    else
      && (e.resultInspection.value.action in {Block, RequireApproval} ==>
            Withheld(i, e, w, w', more, result, Mcp.ToolNotAllowed, Some(ResultBlocked)))
      && ((forall final :: !IsFresh(e, setup, final)) && e.resultInspection.value.action == Redact ==>
            Withheld(i, e, w, w', more, result, Mcp.Invalid, None))
      && forall final :: IsFresh(e, setup, final) ==> HandedOver(i, e, setup, w, w', more, result, final)
  }

  /** How the errors of an approval are passed on. */
  predicate IsPassedOn(error: ApprovalError, id: Uuid, answer: McpError) {
    && (error == HasExpired ==> answer == Mcp.ApprovalExpired)
    && (error == WasRejected ==> answer == Mcp.ApprovalRejected)
    && (error == Forbidden || error == Replay ==> answer == Mcp.ToolNotAllowed)
    && (error == StillPending ==> answer == Mcp.ApprovalRequired(id))
    && (error == NotFound || error == ApprovalError.Unavailable ==> answer == Mcp.Unavailable)
  }

  /** Why an invocation that calls no tool is turned away, check by check, or which stored result it is handed. */
  ghost predicate TurnedAway(i: Invocation, e: Surroundings, setup: Setup, w: Workflow,
                             result: Result<ToolResult, McpError>)
  {
    if e.server.Err? then result == Err(e.server.error)
    else if e.tools.Err? then result == Err(e.tools.error)
    else if i.tool !in e.tools.value then result == Err(Mcp.ToolUnavailable)
    else if e.policy.Err? then result == Err(e.policy.error)
    else
      var p := e.policy.value;
      if !PolicyAdmits(p, i, e.arguments) then
        result == Err(if i.server in p.deniedServers || (p.allowedServers != {} && i.server !in p.allowedServers)
                      then Mcp.ServerNotAllowed else Mcp.ToolNotAllowed)
      else if p.maximum.requestBytes.Some? && e.requestBytes > p.maximum.requestBytes.value then
        result == Err(Mcp.TooLarge)
      else if e.argumentInspection.None? then result == Err(Mcp.Unavailable)
      else if e.argumentInspection.value == Block then result == Err(Mcp.ToolNotAllowed)
      else if !AsksApproval(p, i.tool, e.tools.value[i.tool], e.argumentInspection.value) then
        e.reserved.Err? && result == Err(e.reserved.error)
      else if !setup.approvalEnabled then result == Err(Mcp.ToolNotAllowed)
      else if i.approvalId.None? || i.idempotencyKey.None? then
        result == Err(if setup.expirationSeconds > MAX_DURATION_SECONDS then Mcp.Unavailable
                      else if e.now + setup.expirationSeconds > MAX_INSTANT then Mcp.Panicked
                      else Mcp.ApprovalRequired(e.newApprovalId))
      else
        match ClaimOf(w, i, e)
        case Ok(Claimed) => e.reserved.Err? && result == Err(e.reserved.error)
        case Ok(Indeterminate) => result == Err(Mcp.Transport)
        case Ok(Completed(value)) =>
          if setup.decode(value).Some? then result == Ok(setup.decode(value).value) else result == Err(Mcp.Unavailable)
        case Err(error) => result.Err? && IsPassedOn(error, i.approvalId.value, result.error)
  }

  /** The checks that come before approvals. */
  ghost predicate PassesChecks(i: Invocation, e: Surroundings) {
    && e.server.Ok? && e.tools.Ok? && i.tool in e.tools.value && e.policy.Ok?
    && PolicyAdmits(e.policy.value, i, e.arguments)
    && (e.policy.value.maximum.requestBytes.Some? ==> e.requestBytes <= e.policy.value.maximum.requestBytes.value)
    && e.argumentInspection.Some? && e.argumentInspection.value != Block
  }

  /** What becomes of the approvals before the tool is called: an invocation that needs one and refers to none files a
      new request, one that refers to one retries it, and any other leaves them alone. */
  ghost predicate AsksInFull(i: Invocation, e: Surroundings, setup: Setup, w: Workflow, w': Workflow) {
    if !(PassesChecks(i, e) && setup.approvalEnabled &&
         AsksApproval(e.policy.value, i.tool, e.tools.value[i.tool], e.argumentInspection.value))
    then w' == w
    else if i.approvalId.Some? && i.idempotencyKey.Some? then
      exists claim ::
        RetriedInFull(w, i.tenantId, i.principalId, i.approvalId.value, i.idempotencyKey.value, e.requestHash, e.now,
                      e.later, w', claim)
    else if setup.expirationSeconds <= MAX_DURATION_SECONDS && e.now + setup.expirationSeconds <= MAX_INSTANT then
      && w'.executions == w.executions && w'.pendingGauge == w.pendingGauge + 1
      && w'.requests == w.requests[e.newApprovalId := ApprovalRequest(e.newApprovalId, i.tenantId, i.principalId,
                                                                      e.requestHash, Pending,
                                                                      e.now + setup.expirationSeconds)]
    else w' == w
  }

  lemma StepBeforeInFull(w: Workflow, i: Invocation, e: Surroundings, setup: Setup)
    ensures AsksInFull(i, e, setup, w, MaybeAct(w, StepBefore(i, e, setup)))
  {
    hide Pointers.Lookup, AuthorizeRetry, PolicyAdmits, RetriedInFull, Mcp.McpPolicy.Authorize;
    if e.policy.Ok? {
      AuthorizedIff(e.policy.value, i, e.arguments);
    }
    if Refers(i) {
      RetryInFull(w, i.tenantId, i.principalId, i.approvalId.value, i.idempotencyKey.value, e.requestHash, e.now,
                  e.later);
    }
  }

  lemma AnsweredWithoutCall(w: Workflow, i: Invocation, e: Surroundings, setup: Setup)
    requires !(Cleared(w, i, e, setup) && e.reserved.Ok?)
    ensures TurnedAway(i, e, setup, w, Answer(w, i, e, setup))
  {
    hide Pointers.Lookup, AuthorizeRetry, PolicyAdmits;
    if e.policy.Ok? {
      AuthorizedIff(e.policy.value, i, e.arguments);
    }
  }

  lemma StepsBeforeKeep(w: Workflow, i: Invocation, e: Surroundings, setup: Setup)
    ensures var w1 := MaybeAct(w, StepBefore(i, e, setup));
            && KeepsResults(w, w1)
            && (forall id :: id in w1.executions && id !in w.executions ==>
                  Refers(i) && id == i.approvalId.value)
            && (Cleared(w, i, e, setup) && NeedsApproval(i, e) ==>
                  && Refers(i) && i.approvalId.value in w1.executions
                  && w1.executions[i.approvalId.value].key == i.idempotencyKey.value)
  {
    hide AuthorizeRetry, Admissible, NeedsApproval;
    if StepBefore(i, e, setup).Some? && Refers(i) {
      RetryEffect(w, i.tenantId, i.principalId, i.approvalId.value, i.idempotencyKey.value, e.requestHash, e.now,
                  e.later);
      ClaimedIff(w, i.tenantId, i.principalId, i.approvalId.value, i.idempotencyKey.value, e.requestHash, e.now,
                 e.later);
    }
  }

  /** A report stores a result under the claim with its key, if there is one. */
  lemma ReportInFull(w: Workflow, id: Uuid, key: string, value: Json)
    ensures var (w', reply) := Complete(w, id, key, value);
            if id in w.executions && w.executions[id].key == key then
              && reply.Ok? && w'.executions == w.executions[id := Execution(key, w.executions[id].hash, Some(value))]
            else reply == Err(Replay) && w'.executions == w.executions
  {}

  /** What a call of the tool does to the claims that `w1`, after the approval step, has. */
  lemma StepsAfterKeep(w1: Workflow, i: Invocation, e: Surroundings, setup: Setup)
    requires e.policy.Ok?
    ensures var w2 := MaybeAct(w1, StepAfter(i, e, setup));
            if Refers(i) && e.reply.Ok? && Delivered(e, setup).Ok? && e.usageStored.Ok? then
              var id, key := i.approvalId.value, i.idempotencyKey.value;
              if id in w1.executions && w1.executions[id].key == key then
                w2.executions == w1.executions[id := Execution(key, w1.executions[id].hash,
                                                               Some(setup.encode(Delivered(e, setup).value)))]
              else w2.executions == w1.executions
            else w2.executions == w1.executions
  {
    hide Delivered;
    if Refers(i) && Delivered(e, setup).Ok? {
      ReportInFull(w1, i.approvalId.value, i.idempotencyKey.value, setup.encode(Delivered(e, setup).value));
    }
  }

  /** What inspection lets pass is delivered, and nothing else. */
  lemma DeliveredInFull(e: Surroundings, setup: Setup)
    requires e.policy.Ok?
    ensures e.reply.Err? ==> Delivered(e, setup) == Err(e.reply.error)
    ensures e.reply.Ok? && TooLong(e) ==> Delivered(e, setup) == Err(Mcp.TooLarge)
    ensures e.reply.Ok? && !TooLong(e) && e.resultInspection.None? ==> Delivered(e, setup) == Err(Mcp.Unavailable)
    ensures e.reply.Ok? && !TooLong(e) && e.resultInspection.Some? ==>
              && (forall final :: IsFresh(e, setup, final) <==> Delivered(e, setup) == Ok(final))
              && (e.resultInspection.value.action in {Block, RequireApproval} ==>
                    Delivered(e, setup) == Err(Mcp.ToolNotAllowed))
              && (e.resultInspection.value.action == Redact && Delivered(e, setup).Err? ==>
                    Delivered(e, setup) == Err(Mcp.Invalid))
              && (Delivered(e, setup).Err? ==> e.resultInspection.value.action in {Block, RequireApproval, Redact})
  {}

  /** What is recorded of a call. */
  lemma RecordedInFull(i: Invocation, e: Surroundings, setup: Setup)
    requires Admissible(i, e)
    ensures Recorded(i, e, true, setup) ==
            if e.usageStored.Err? then []
            else if e.reply.Err? then [UsageRecord(i.requestId, 0, CallFailed)]
            else if Delivered(e, setup).Ok? then
              [UsageRecord(i.requestId, 1, Invoked(Delivered(e, setup).value.isError))]
            else if !TooLong(e) && e.resultInspection.Some? &&
                    e.resultInspection.value.action in {Block, RequireApproval} then
              [UsageRecord(i.requestId, 0, ResultBlocked)]
            else []
  {
    hide Delivered, Mcp.McpPolicy.Authorize;
  }

  lemma CallInFull(w: Workflow, i: Invocation, e: Surroundings, setup: Setup)
    requires Cleared(w, i, e, setup) && e.reserved.Ok?
    ensures CalledInFull(i, e, setup, w, MaybeAct(MaybeAct(w, StepBefore(i, e, setup)), StepAfter(i, e, setup)),
                         Recorded(i, e, true, setup), Answer(w, i, e, setup))
  {
    hide Delivered, Recorded, IsFresh, TooLong, StepBefore, NeedsApproval, ClaimOf, MaybeAct;
    var w1 := MaybeAct(w, StepBefore(i, e, setup));
    StepsBeforeKeep(w, i, e, setup);
    StepsAfterKeep(w1, i, e, setup);
    DeliveredInFull(e, setup);
    RecordedInFull(i, e, setup);
    if Refers(i) && Delivered(e, setup).Ok? {
      ReportInFull(w1, i.approvalId.value, i.idempotencyKey.value, setup.encode(Delivered(e, setup).value));
    }
  }

  /** The whole invocation, between the states `w` and `w'` of the approval workflow: `more` is what is recorded, and
      `called` what calls are made. */
  ghost predicate InvokedInFull(i: Invocation, e: Surroundings, setup: Setup, w: Workflow, w': Workflow,
                                called: seq<Call>, more: seq<UsageRecord>, result: Result<ToolResult, McpError>)
  {
    if MayCall(w, i, e, setup) then
      && called == [Call(i.requestId, e.requestHash,
                         if AsksApproval(e.policy.value, i.tool, e.tools.value[i.tool], e.argumentInspection.value)
                         then i.approvalId else None)]
      && CalledInFull(i, e, setup, w, w', more, result)
    else
      && called == [] && KeepsResults(w, w') && AsksInFull(i, e, setup, w, w') && TurnedAway(i, e, setup, w, result)
      && more == if e.usageStored.Ok? && e.server.Ok? && e.tools.Ok? && i.tool in e.tools.value && e.policy.Ok? &&
                    !PolicyAdmits(e.policy.value, i, e.arguments)
                 then [UsageRecord(i.requestId, 0, PolicyDenied)] else []
  }

  lemma InvocationInFull(w: Workflow, i: Invocation, e: Surroundings, setup: Setup)
    ensures var called := Cleared(w, i, e, setup) && e.reserved.Ok?;
            InvokedInFull(i, e, setup, w,
                          MaybeAct(MaybeAct(w, StepBefore(i, e, setup)),
                                   if called then StepAfter(i, e, setup) else None),
                          if called then [CallOf(i, e)] else [], Recorded(i, e, called, setup), Answer(w, i, e, setup))
  {
    hide StepBefore, StepAfter, Delivered, CalledInFull, TurnedAway, PolicyAdmits, KeepsResults, MayCall, Answer;
    hide AsksInFull;
    hide Mcp.McpPolicy.Authorize, ClaimOf;
    MayCallIff(w, i, e, setup);
    if e.policy.Ok? {
      AuthorizedIff(e.policy.value, i, e.arguments);
    }
    if Cleared(w, i, e, setup) && e.reserved.Ok? {
      CallInFull(w, i, e, setup);
    } else {
      AnsweredWithoutCall(w, i, e, setup);
      StepsBeforeKeep(w, i, e, setup);
      StepBeforeInFull(w, i, e, setup);
    }
  }

  class McpInvocationService {
    const approval: ApprovalService
    const setup: Setup
    var calls: seq<Call>
    var usage: seq<UsageRecord>
    var openReservations: int

    predicate Valid() {
      setup.expirationSeconds == approval.expirationSeconds
    }

    constructor (approval: ApprovalService, approvalEnabled: bool, encode: ToolResult -> Json,
                 decode: Json -> Option<ToolResult>)
      ensures this.approval == approval && setup == Setup(approvalEnabled, approval.expirationSeconds, encode, decode)
      ensures Valid() && calls == [] && usage == [] && openReservations == 0
    {
      this.approval, setup := approval, Setup(approvalEnabled, approval.expirationSeconds, encode, decode);
      calls, usage, openReservations := [], [], 0;
    }

    method RecordUsage(record: UsageRecord, stored: Result<(), McpError>)
      modifies this`usage
      ensures usage == old(usage) + if stored.Ok? then [record] else []
    {
      if stored.Ok? {
        usage := usage + [record];
      }
    }

    /** Everything before approvals; `None` lets the invocation go on. */
    method Admit(i: Invocation, e: Surroundings) returns (refusal: Option<McpError>)
      modifies this`usage
      ensures refusal == if Admissible(i, e) then None else Some(Refusal(i, e))
      ensures usage == old(usage) + if Admissible(i, e) then [] else Recorded(i, e, false, setup)
    {
      if e.server.Err? {
        return Some(e.server.error);
      }
      if e.tools.Err? {
        return Some(e.tools.error);
      }
      if i.tool !in e.tools.value {
        return Some(Mcp.ToolUnavailable);
      }
      if e.policy.Err? {
        return Some(e.policy.error);
      }
      var authorized := e.policy.value.Authorize(i.server, i.tool, e.arguments);
      if authorized.Err? {
        RecordUsage(UsageRecord(i.requestId, 0, PolicyDenied), e.usageStored);
        return Some(authorized.error);
      }
      if Exceeds(e.policy.value.maximum.requestBytes, e.requestBytes) {
        return Some(Mcp.TooLarge);
      }
      if e.argumentInspection.None? {
        return Some(Mcp.Unavailable);
      }
      if e.argumentInspection.value == Block {
        return Some(Mcp.ToolNotAllowed);
      }
      refusal := None;
    }

    /** The approval of an invocation that needs one; `None` lets it call the tool. */
    method AskApproval(i: Invocation, e: Surroundings) returns (answer: Option<Result<ToolResult, McpError>>)
      requires Valid() && Admissible(i, e) && NeedsApproval(i, e)
      modifies approval, approval.repository
      ensures approval.State() == MaybeAct(old(approval.State()), StepBefore(i, e, setup))
      ensures answer == if Cleared(old(approval.State()), i, e, setup) then None
                        else Some(ApprovalAnswer(old(approval.State()), i, e, setup))
    {
      hide RetriedInFull, AuthorizeRetry;
      if !setup.approvalEnabled {
        return Some(Err(Mcp.ToolNotAllowed));
      }
      if i.approvalId.None? || i.idempotencyKey.None? {
        var request := approval.CreateRequest(i.tenantId, i.principalId, e.requestHash, e.newApprovalId, e.now);
        return Some(Err(match request
                        case Ok(_) => Mcp.ApprovalRequired(e.newApprovalId)
                        case Err(Panicked) => Mcp.Panicked
                        case Err(_) => Mcp.Unavailable));
      }
      var claim := approval.RetryAuthorized(i.tenantId, i.principalId, i.approvalId.value, i.idempotencyKey.value,
                                            e.requestHash, e.now, e.later);
      match claim {
        case Err(error) => answer := Some(Err(MapApproval(error, i.approvalId.value)));
        case Ok(Completed(value)) =>
          var stored := setup.decode(value);
          answer := Some(if stored.Some? then Ok(stored.value) else Err(Mcp.Unavailable));
        case Ok(Indeterminate) => answer := Some(Err(Mcp.Transport));
        case Ok(Claimed) => answer := None;
      }
    }

    /** The checks on the tool's reply, and its metering. */
    method Deliver(i: Invocation, e: Surroundings, reply: ToolResult) returns (result: Result<ToolResult, McpError>)
      requires e.policy.Ok? && e.reply == Ok(reply)
      modifies this`usage
      ensures result == if Delivered(e, setup).Ok? && e.usageStored.Err? then Err(e.usageStored.error)
                        else Delivered(e, setup)
      ensures !DeniedByPolicy(i, e) ==> usage == old(usage) + Recorded(i, e, true, setup)
    {
      if Exceeds(e.policy.value.maximum.responseBytes, e.responseBytes) {
        return Err(Mcp.TooLarge);
      }
      if e.resultInspection.None? {
        return Err(Mcp.Unavailable);
      }
      var final := reply;
      match e.resultInspection.value.action {
        case Block =>
          RecordUsage(UsageRecord(i.requestId, 0, ResultBlocked), e.usageStored);
          return Err(Mcp.ToolNotAllowed);
        case RequireApproval =>
          RecordUsage(UsageRecord(i.requestId, 0, ResultBlocked), e.usageStored);
          return Err(Mcp.ToolNotAllowed);
        case Redact =>
          if e.resultInspection.value.rewritten.Some? {
            var value := setup.decode(e.resultInspection.value.rewritten.value);
            if value.None? {
              return Err(Mcp.Invalid);
            }
            final := value.value;
          }
        case Warn => final := final.(securityWarning := true);
        case Allow =>
      }
      RecordUsage(UsageRecord(i.requestId, 1, Invoked(final.isError)), e.usageStored);
      if e.usageStored.Err? {
        return Err(e.usageStored.error);
      }
      result := Ok(final);
    }

    /** What follows once the invocation is cleared: quota, tool, response checks, metering and stored result. */
    method CallTool(i: Invocation, e: Surroundings) returns (result: Result<ToolResult, McpError>)
      requires Admissible(i, e)
      modifies this, approval.repository
      ensures openReservations == old(openReservations) + if e.reserved.Ok? && e.released.Err? then 1 else 0
      ensures calls == old(calls) + if e.reserved.Ok? then [CallOf(i, e)] else []
      ensures usage == old(usage) + Recorded(i, e, e.reserved.Ok?, setup)
      ensures approval.State() ==
              MaybeAct(old(approval.State()), if e.reserved.Ok? then StepAfter(i, e, setup) else None)
      ensures result == CallAnswer(old(approval.State()), i, e, setup)
    {
      if e.reserved.Err? {
        return Err(e.reserved.error);
      }
      openReservations := openReservations + 1;
      calls := calls + [CallOf(i, e)];
      if e.released.Ok? {
        openReservations := openReservations - 1;
      }
      if e.reply.Err? {
        RecordUsage(UsageRecord(i.requestId, 0, CallFailed), e.usageStored);
        return Err(e.reply.error);
      }
      result := Deliver(i, e, e.reply.value);
      if result.Ok? && i.approvalId.Some? && i.idempotencyKey.Some? {
        var stored := approval.CompleteCall(i.approvalId.value, i.idempotencyKey.value, setup.encode(result.value));
        if stored.Err? {
          result := Err(MapApproval(stored.error, i.approvalId.value));
        }
      }
    }

    /** The tool is called exactly when the invocation is cleared and within the quota; a quota reservation stays open
        exactly when the tool was called and the release failed, which is ignored; and a result is stored for the next
        invocation exactly when it passed the checks and was metered. */
    method Invoke(i: Invocation, e: Surroundings) returns (result: Result<ToolResult, McpError>)
      requires Valid()
      modifies this, approval, approval.repository
      ensures var called := Cleared(old(approval.State()), i, e, setup) && e.reserved.Ok?;
              && openReservations == old(openReservations) + (if called && e.released.Err? then 1 else 0)
              && calls == old(calls) + (if called then [CallOf(i, e)] else [])
              && usage == old(usage) + Recorded(i, e, called, setup)
              && approval.State() == MaybeAct(MaybeAct(old(approval.State()), StepBefore(i, e, setup)),
                                              if called then StepAfter(i, e, setup) else None)
      ensures result == Answer(old(approval.State()), i, e, setup)
      ensures old(calls) <= calls && old(usage) <= usage
      ensures InvokedInFull(i, e, setup, old(approval.State()), approval.State(), calls[|old(calls)|..],
                            usage[|old(usage)|..], result)
    {
      hide InvokedInFull;
      InvocationInFull(approval.State(), i, e, setup);
      var refusal := Admit(i, e);
      if refusal.Some? {
        return Err(refusal.value);
      }
      if NeedsApproval(i, e) {
        var answer := AskApproval(i, e);
        if answer.Some? {
          return answer.value;
        }
      }
      result := CallTool(i, e);
    }
  }

  // ---------------------------------------------------------------- over any session

  /** Either an approval step of somebody else, or an invocation up to what is recorded of it. Its last step follows as
      a `Report` or `Fail` of its own, at any later time. */
  datatype Move = Other(step: Step) | Begin(i: Invocation, e: Surroundings)

  datatype Session = Session(g: Gate, calls: seq<Call>, usage: seq<UsageRecord>)

  const NEW_SESSION: Session := Session(START, [], [])

  predicate Allowed(s: Session, move: Move, setup: Setup) {
    match move
    case Other(step) => Enabled(s.g.w, step)
    case Begin(i, e) =>
      var step := StepBefore(i, e, setup);
      step.Some? ==> Enabled(s.g.w, step.value)
  }

  function Played(s: Session, move: Move, setup: Setup): Session {
    match move
    case Other(step) => s.(g := Next(s.g, step))
    case Begin(i, e) =>
      var step, called := StepBefore(i, e, setup), Cleared(s.g.w, i, e, setup) && e.reserved.Ok?;
      Session(
        if step.Some? then Next(s.g, step.value) else s.g,
        if called then s.calls + [CallOf(i, e)] else s.calls,
        s.usage + Recorded(i, e, called, setup))
  }

  predicate LegalSession(s: Session, moves: seq<Move>, setup: Setup)
    decreases |moves|
  {
    moves == [] ||
    (Allowed(s, moves[0], setup) && LegalSession(Played(s, moves[0], setup), moves[1..], setup))
  }

  function SessionAfter(s: Session, moves: seq<Move>, setup: Setup): Session
    decreases |moves|
  {
    if moves == [] then s else SessionAfter(Played(s, moves[0], setup), moves[1..], setup)
  }

  function CallsOn(calls: seq<Call>, id: Uuid): nat {
    if calls == [] then 0
    else CallsOn(calls[..|calls| - 1], id) + if calls[|calls| - 1].onApproval == Some(id) then 1 else 0
  }

  ghost predicate CallsAreClaimed(s: Session) {
    forall id :: CallsOn(s.calls, id) <= s.g.runs[id]
  }

  lemma BeginKeepsClaimed(s: Session, i: Invocation, e: Surroundings, setup: Setup)
    requires CallsAreClaimed(s)
    ensures CallsAreClaimed(Played(s, Begin(i, e), setup))
  {
    var s' := Played(s, Begin(i, e), setup);
    if s'.calls != s.calls {
      assert s'.calls[..|s'.calls| - 1] == s.calls;
    }
  }

  lemma MoveKeeps(s: Session, move: Move, setup: Setup)
    requires Allowed(s, move, setup)
    requires CallsAreClaimed(s) && OnceInvariant(s.g)
    ensures var s' := Played(s, move, setup); CallsAreClaimed(s') && OnceInvariant(s'.g)
  {
    match move {
      case Other(step) =>
        StepKeepsGrants(s.g, step);
        StepKeepsRunsOnce(s.g, step);
      case Begin(i, e) =>
        BeginKeepsClaimed(s, i, e, setup);
        var step := StepBefore(i, e, setup);
        if step.Some? {
          StepKeepsGrants(s.g, step.value);
          StepKeepsRunsOnce(s.g, step.value);
        }
    }
  }

  lemma {:induction false} SessionKeeps(s: Session, moves: seq<Move>, setup: Setup)
    requires LegalSession(s, moves, setup)
    requires CallsAreClaimed(s) && OnceInvariant(s.g)
    ensures var s' := SessionAfter(s, moves, setup);
            CallsAreClaimed(s') && OnceInvariant(s'.g)
    decreases |moves|
  {
    if moves != [] {
      MoveKeeps(s, moves[0], setup);
      SessionKeeps(Played(s, moves[0], setup), moves[1..], setup);
    }
  }

  /** However invocations and approval steps interleave, at most one tool call is ever made on an approval, and only
      once it was granted. */
  lemma OneCallPerApproval(moves: seq<Move>, setup: Setup, id: Uuid)
    requires LegalSession(NEW_SESSION, moves, setup)
    ensures var s := SessionAfter(NEW_SESSION, moves, setup);
            && CallsOn(s.calls, id) <= 1
            && (CallsOn(s.calls, id) == 1 ==> id in s.g.w.requests && s.g.w.requests[id].status == Approved)
  {
    assert OnceInvariant(NEW_SESSION.g) && CallsAreClaimed(NEW_SESSION);
    SessionKeeps(NEW_SESSION, moves, setup);
  }

  // ---------------------------------------------------------------- what a session is billed

  /** The move calls a tool whose result passes every check and is metered. */
  predicate Bills(s: Session, move: Move, setup: Setup) {
    && move.Begin? && Cleared(s.g.w, move.i, move.e, setup) && move.e.reserved.Ok?
    && Delivered(move.e, setup).Ok? && move.e.usageStored.Ok?
  }

  /** How many of the moves do so for the request. */
  function BilledFor(s: Session, moves: seq<Move>, setup: Setup, q: Uuid): nat
    decreases |moves|
  {
    if moves == [] then 0
    else
      (if Bills(s, moves[0], setup) && moves[0].i.requestId == q then 1 else 0) +
      BilledFor(Played(s, moves[0], setup), moves[1..], setup, q)
  }

  /** How many of them do so on the strength of the approval. */
  function BilledOn(s: Session, moves: seq<Move>, setup: Setup, id: Uuid): nat
    decreases |moves|
  {
    if moves == [] then 0
    else
      (if Bills(s, moves[0], setup) && CallOf(moves[0].i, moves[0].e).onApproval == Some(id) then 1 else 0) +
      BilledOn(Played(s, moves[0], setup), moves[1..], setup, id)
  }

  function InvokedFor(usage: seq<UsageRecord>, q: Uuid): nat {
    if usage == [] then 0
    else
      var last := usage[|usage| - 1];
      InvokedFor(usage[..|usage| - 1], q) + if last.requestId == q && last.status.Invoked? then last.invocations else 0
  }

  function CallsFor(calls: seq<Call>, q: Uuid): nat {
    if calls == [] then 0
    else CallsFor(calls[..|calls| - 1], q) + if calls[|calls| - 1].requestId == q then 1 else 0
  }

  lemma InvokedAfter(usage: seq<UsageRecord>, more: seq<UsageRecord>, q: Uuid)
    requires |more| <= 1
    ensures InvokedFor(usage + more, q) ==
            InvokedFor(usage, q) +
            if |more| == 1 && more[0].requestId == q && more[0].status.Invoked? then more[0].invocations else 0
  {
    if |more| == 1 {
      assert (usage + more)[..|usage|] == usage;
    } else {
      assert usage + more == usage;
    }
  }

  /** What is recorded bills one invocation iff a tool was called whose result passes every check and is metered. */
  lemma RecordBills(i: Invocation, e: Surroundings, called: bool, setup: Setup)
    requires called ==> Admissible(i, e)
    ensures var more := Recorded(i, e, called, setup);
            && |more| <= 1
            && (|more| == 1 && more[0].status.Invoked? <==> called && Delivered(e, setup).Ok? && e.usageStored.Ok?)
            && (|more| == 1 ==> more[0].requestId == i.requestId)
            && (|more| == 1 && more[0].status.Invoked? ==> more[0].invocations == 1)
  {}

  lemma MoveBills(s: Session, move: Move, setup: Setup, q: Uuid)
    ensures var s' := Played(s, move, setup);
            && InvokedFor(s'.usage, q) ==
               InvokedFor(s.usage, q) + (if Bills(s, move, setup) && move.i.requestId == q then 1 else 0)
            && CallsFor(s'.calls, q) >=
               CallsFor(s.calls, q) + (if Bills(s, move, setup) && move.i.requestId == q then 1 else 0)
  {
    hide Recorded, Delivered, NeedsApproval, StepBefore, InvokedFor, ClaimOf;
    if move.Begin? {
      var called := Cleared(s.g.w, move.i, move.e, setup) && move.e.reserved.Ok?;
      RecordBills(move.i, move.e, called, setup);
      InvokedAfter(s.usage, Recorded(move.i, move.e, called, setup), q);
      if called {
        assert (s.calls + [CallOf(move.i, move.e)])[..|s.calls|] == s.calls;
      }
    }
  }

  /** The invocation needs no approval but refers to one that nobody claimed under its key. */
  predicate NamesAnothers(w: Workflow, i: Invocation, e: Surroundings)
    requires Admissible(i, e)
  {
    && !NeedsApproval(i, e) && Refers(i)
    && (i.approvalId.value in w.executions ==> w.executions[i.approvalId.value].key != i.idempotencyKey.value)
  }

  /** A fresh result that is handed out has been billed, and one that is billed is handed out unless the invocation
      names an approval that is not its own; then it is withheld. */
  lemma BilledIffHandedOut(s: Session, i: Invocation, e: Surroundings, setup: Setup)
    requires Cleared(s.g.w, i, e, setup) && e.reserved.Ok?
    ensures Answer(s.g.w, i, e, setup).Ok? <==> Bills(s, Begin(i, e), setup) && !NamesAnothers(s.g.w, i, e)
    ensures Bills(s, Begin(i, e), setup) && NamesAnothers(s.g.w, i, e) ==>
              Answer(s.g.w, i, e, setup) == Err(Mcp.ToolNotAllowed)
  {
    if NeedsApproval(i, e) {
      RetryEffect(s.g.w, i.tenantId, i.principalId, i.approvalId.value, i.idempotencyKey.value, e.requestHash, e.now,
                  e.later);
    }
  }

  /** In every session a request is billed as many invocations as fresh results were handed to it and metered, and at
      most one per tool call made for it. */
  lemma {:induction false} BilledAsDelivered(s: Session, moves: seq<Move>, setup: Setup, q: Uuid)
    requires LegalSession(s, moves, setup) && InvokedFor(s.usage, q) <= CallsFor(s.calls, q)
    ensures var s' := SessionAfter(s, moves, setup);
            InvokedFor(s'.usage, q) == InvokedFor(s.usage, q) + BilledFor(s, moves, setup, q) <= CallsFor(s'.calls, q)
    decreases |moves|
  {
    if moves != [] {
      MoveBills(s, moves[0], setup, q);
      BilledAsDelivered(Played(s, moves[0], setup), moves[1..], setup, q);
    }
  }

  lemma {:induction false} BilledAreCalls(s: Session, moves: seq<Move>, setup: Setup, id: Uuid)
    requires LegalSession(s, moves, setup)
    ensures CallsOn(SessionAfter(s, moves, setup).calls, id) >= CallsOn(s.calls, id) + BilledOn(s, moves, setup, id)
    decreases |moves|
  {
    if moves != [] {
      var s' := Played(s, moves[0], setup);
      if s'.calls != s.calls {
        assert s'.calls[..|s'.calls| - 1] == s.calls;
      }
      BilledAreCalls(s', moves[1..], setup, id);
    }
  }

  /** However invocations and approval steps interleave, an approval is billed at most one invocation. */
  lemma BilledOncePerApproval(moves: seq<Move>, setup: Setup, id: Uuid)
    requires LegalSession(NEW_SESSION, moves, setup)
    ensures BilledOn(NEW_SESSION, moves, setup, id) <= 1
  {
    OneCallPerApproval(moves, setup, id);
    BilledAreCalls(NEW_SESSION, moves, setup, id);
  }

  // ---------------------------------------------------------------- stored results

  /** An invocation that was handed a fresh result under an approval is handed the same result when it is repeated
      with the same key, whatever happened in between, unless another call reported under that key. */
  lemma RepeatedInvocationGetsSameResult(g: Gate, i: Invocation, e: Surroundings, steps: seq<Step>, again: Surroundings,
                                         result: ToolResult, setup: Setup)
    requires OnceInvariant(g) && Admissible(i, e) && NeedsApproval(i, e) && Cleared(g.w, i, e, setup)
    requires Delivered(e, setup) == Ok(result) && e.usageStored.Ok?
    requires forall r: ToolResult :: setup.decode(setup.encode(r)) == Some(r)
    requires Admissible(i, again) && NeedsApproval(i, again) && again.requestHash == e.requestHash
    requires LegalRun(g, [RetryOf(i, e), StepAfter(i, e, setup).value] + steps)
    requires forall step :: step in steps && step.Report? ==>
               step.id != i.approvalId.value || step.key != i.idempotencyKey.value
    ensures var w := After(g, [RetryOf(i, e), StepAfter(i, e, setup).value] + steps).w;
            !Cleared(w, i, again, setup) && Answer(w, i, again, setup) == Ok(result)
  {
    hide LegalRun, LastReport, OnceInvariant, AuthorizeRetry, After;
    var report := StepAfter(i, e, setup).value;
    assert [RetryOf(i, e), report] + steps == [RetryOf(i, e)] + ([report] + steps);
    RetriesAfterTheFirst(g, RetryOf(i, e), [report] + steps, RetryOf(i, again));
    LastReportStands(report, steps, i.approvalId.value, i.idempotencyKey.value);
  }

  lemma LastReportStands(report: Step, steps: seq<Step>, id: Uuid, key: string)
    requires report.Report? && report.id == id && report.key == key
    requires forall step :: step in steps && step.Report? ==> step.id != id || step.key != key
    ensures LastReport([report] + steps, id, key, None) == Some(report.result)
  {
    assert ([report] + steps)[1..] == steps;
    NoOtherReport(steps, id, key, Some(report.result));
  }

  lemma {:induction false} NoOtherReport(steps: seq<Step>, id: Uuid, key: string, earlier: Option<Json>)
    requires forall step :: step in steps && step.Report? ==> step.id != id || step.key != key
    ensures LastReport(steps, id, key, earlier) == earlier
    decreases |steps|
  {
    if steps != [] {
      assert steps[0] in steps;
      NoOtherReport(steps[1..], id, key, earlier);
    }
  }

  /** An invocation that needs no approval, but refers to one, reports its result under that approval's key. */
  lemma OpenInvocationReports(i: Invocation, e: Surroundings, setup: Setup, result: ToolResult)
    requires Admissible(i, e) && !NeedsApproval(i, e) && Refers(i)
    requires e.reply.Ok? && Delivered(e, setup) == Ok(result) && e.usageStored.Ok?
    ensures StepBefore(i, e, setup) == None
    ensures StepAfter(i, e, setup) == Some(Report(i.approvalId.value, i.idempotencyKey.value, setup.encode(result)))
  {}

  /** So the result that is stored for a claim, and that the claiming invocation is given when it is repeated, may be
      another invocation's. */
  lemma StoredResultMayBeAnothers(g: Gate, i: Invocation, e: Surroundings, other: Invocation, e': Surroundings,
                                  mine: ToolResult, theirs: ToolResult, setup: Setup)
    requires OnceInvariant(g) && Admissible(i, e) && NeedsApproval(i, e) && Cleared(g.w, i, e, setup)
    requires e.reply.Ok? && Delivered(e, setup) == Ok(mine) && e.usageStored.Ok?
    requires Admissible(other, e') && !NeedsApproval(other, e') && e'.reply.Ok? && e'.usageStored.Ok?
    requires other.approvalId == i.approvalId && other.idempotencyKey == i.idempotencyKey
    requires Delivered(e', setup) == Ok(theirs) && setup.decode(setup.encode(theirs)) == Some(theirs)
    ensures Refers(i) && Refers(other)
    ensures var steps := [RetryOf(i, e), StepAfter(i, e, setup).value, StepAfter(other, e', setup).value];
            LegalRun(g, steps) && Answer(After(g, steps).w, i, e, setup) == Ok(theirs)
  {
    var retry := RetryOf(i, e);
    var mineStored, theirsStored := StepAfter(i, e, setup).value, StepAfter(other, e', setup).value;
    OpenInvocationReports(other, e', setup, theirs);
    var tail := [mineStored, theirsStored];
    assert [retry] + tail == [retry, mineStored, theirsStored];
    assert tail[1..] == [theirsStored] && [theirsStored][1..] == [];
    assert ([retry] + tail)[1..] == tail;
    assert LegalRun(Next(Next(g, retry), mineStored), [theirsStored]);
    assert LegalRun(g, [retry] + tail);
    RetriesAfterTheFirst(g, retry, tail, RetryOf(i, e));
    assert LastReport([theirsStored], i.approvalId.value, i.idempotencyKey.value, Some(mineStored.result)) ==
           Some(theirsStored.result);
  }

  // A run in which that happens: one approval is requested and granted, an invocation claims it and reports, and then
  // an invocation of a tool that only reads reports under the same key.

  function ReadBack(value: Json): Option<ToolResult> {
    Some(ToolResult(value, false, false))
  }

  function PlainSetup(): Setup {
    Setup(true, 60, (r: ToolResult) => r.content, (value: Json) => ReadBack(value))
  }

  function Calling(tool: string): Invocation {
    Invocation("q", "t", "p", "s", tool, Some("a"), Some("k"))
  }

  function Answering(tool: string, risk: Mcp.ToolRiskLevel, content: Json): Surroundings {
    Surroundings(Ok(()), Ok(map[tool := risk]), Ok(Mcp.OPEN), Null, 0, Some(Allow), "h", "n", 1, 1, Ok(()), Ok(()),
                 Ok(ToolResult(content, false, false)), 0, Some(Inspection(Allow, None)), Ok(()))
  }

  const ASKED: ApprovalRequest := ApprovalRequest("a", "t", "p", "h", Pending, 100)
  const GRANTED: Gate := Gate(Workflow(map["a" := ASKED.(status := Approved)], map[], 0), multiset{})

  lemma TwoSteps(g: Gate, a: Step, b: Step)
    requires Enabled(g.w, a) && Enabled(Next(g, a).w, b)
    ensures LegalRun(g, [a, b]) && After(g, [a, b]) == Next(Next(g, a), b)
  {
    assert [a, b][1..] == [b] && [b][1..] == [];
    assert LegalRun(Next(g, a), [b]);
    assert After(Next(g, a), [b]) == Next(Next(g, a), b);
  }

  lemma GrantedIsReached()
    ensures LegalRun(START, [Request(ASKED), Decision("t", "a", true, 0, 0)])
    ensures After(START, [Request(ASKED), Decision("t", "a", true, 0, 0)]) == GRANTED
  {
    var steps := [Request(ASKED), Decision("t", "a", true, 0, 0)];
    var g := Next(START, steps[0]);
    assert g == Gate(Workflow(map["a" := ASKED], map[], 1), multiset{});
    assert DueIds(g.w.requests, 0) == {};
    assert ExpireRequests(g.w.requests, 0) == g.w.requests;
    assert Next(g, steps[1]) == GRANTED;
    TwoSteps(START, steps[0], steps[1]);
  }

  lemma {:induction false} RunOn(g: Gate, a: seq<Step>, b: seq<Step>)
    requires LegalRun(g, a) && LegalRun(After(g, a), b)
    ensures LegalRun(g, a + b) && After(g, a + b) == After(After(g, a), b)
    decreases |a|
  {
    if a == [] {
      assert a + b == b;
    } else {
      assert (a + b)[1..] == a[1..] + b;
      RunOn(Next(g, a[0]), a[1..], b);
    }
  }

  lemma SuchARun(mine: Json, theirs: Json)
    ensures var i, e := Calling("drop"), Answering("drop", Mcp.Destructive, mine);
            var other, e' := Calling("read"), Answering("read", Mcp.ReadOnly, theirs);
            && Cleared(GRANTED.w, i, e, PlainSetup()) && Admissible(other, e') && !NeedsApproval(other, e')
            && Delivered(e, PlainSetup()) == Ok(ToolResult(mine, false, false))
            && var steps := [Request(ASKED), Decision("t", "a", true, 0, 0)] +
                            [RetryOf(i, e), StepAfter(i, e, PlainSetup()).value,
                             StepAfter(other, e', PlainSetup()).value];
            && LegalRun(START, steps)
            && Answer(After(START, steps).w, i, e, PlainSetup()) == Ok(ToolResult(theirs, false, false))
  {
    var i, e := Calling("drop"), Answering("drop", Mcp.Destructive, mine);
    var other, e' := Calling("read"), Answering("read", Mcp.ReadOnly, theirs);
    assert !IsWhitespace("k"[0]) && Utf8Length("k") == 1;
    ClaimedIff(GRANTED.w, "t", "p", "a", "k", "h", 1, 1);
    StoredResultMayBeAnothers(GRANTED, i, e, other, e', ToolResult(mine, false, false),
                              ToolResult(theirs, false, false), PlainSetup());
    GrantedIsReached();
    RunOn(START, [Request(ASKED), Decision("t", "a", true, 0, 0)],
          [RetryOf(i, e), StepAfter(i, e, PlainSetup()).value, StepAfter(other, e', PlainSetup()).value]);
  }
}
