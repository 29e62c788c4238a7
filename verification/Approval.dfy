/** The state of the approval workflow and what each service call does to it. */
module Approvals {
  import opened Types

  datatype ApprovalStatus = Pending | Approved | Rejected | Expired | Cancelled

  /** `Panicked` stands for a call that panics and answers nobody. */
  datatype ApprovalError =
    | NotFound
    | Forbidden
    | StillPending
    | WasRejected
    | HasExpired
    | Replay
    | Unavailable
    | Panicked

  datatype ApprovalRequest = ApprovalRequest(
    approvalId: Uuid,
    tenantId: string,
    principalId: string,
    requestHash: string,
    status: ApprovalStatus,
    expiresAt: int)

  datatype Execution = Execution(key: string, hash: string, result: Option<Json>)

  datatype ExecutionClaim = Claimed | Completed(value: Json) | Indeterminate

  datatype Workflow = Workflow(
    requests: map<Uuid, ApprovalRequest>,
    executions: map<Uuid, Execution>,
    pendingGauge: int)

  predicate Due(r: ApprovalRequest, now: int) {
    r.status == Pending && r.expiresAt <= now
  }

  function DueIds(requests: map<Uuid, ApprovalRequest>, now: int): set<Uuid> {
    set id | id in requests && Due(requests[id], now)
  }

  function PendingIds(requests: map<Uuid, ApprovalRequest>): set<Uuid> {
    set id | id in requests && requests[id].status == Pending
  }

  function ExpireRequests(requests: map<Uuid, ApprovalRequest>, now: int): map<Uuid, ApprovalRequest> {
    map id | id in requests ::
      if Due(requests[id], now) then requests[id].(status := Expired) else requests[id]
  }

  function Expire(w: Workflow, now: int): Workflow {
    w.(requests := ExpireRequests(w.requests, now), pendingGauge := w.pendingGauge - |DueIds(w.requests, now)|)
  }

  function Create(w: Workflow, r: ApprovalRequest): Workflow {
    w.(requests := w.requests[r.approvalId := r], pendingGauge := w.pendingGauge + 1)
  }

  /** `get` expires first and reads the clock again (`later`) before it answers. */
  function Get(w: Workflow, tenantId: string, id: Uuid, now: int, later: int)
    : (Workflow, Result<ApprovalRequest, ApprovalError>)
  {
    var w' := Expire(w, now);
    if id !in w'.requests || w'.requests[id].tenantId != tenantId then (w', Err(NotFound))
    else if Due(w'.requests[id], later) then (w', Err(HasExpired))
    else (w', Ok(w'.requests[id]))
  }

  function Decide(w: Workflow, tenantId: string, id: Uuid, approve: bool, now: int, later: int)
    : (Workflow, Result<ApprovalRequest, ApprovalError>)
  {
    var (w', current) := Get(w, tenantId, id, now, later);
    if current.Err? then (w', current)
    else
      match current.value.status
      case Pending =>
        var decided := current.value.(status := if approve then Approved else Rejected);
        (w'.(requests := w'.requests[id := decided], pendingGauge := w'.pendingGauge - 1), Ok(decided))
      case Rejected => (w', Err(WasRejected))
      case Expired => (w', Err(HasExpired))
      case _ => (w', Err(Replay))
  }

  function Stored(result: Option<Json>): ExecutionClaim {
    match result
    case Some(value) => Completed(value)
    case None => Indeterminate
  }

  function Claim(w: Workflow, id: Uuid, key: string, hash: string): (Workflow, Result<ExecutionClaim, ApprovalError>) {
    if id !in w.executions then
      (w.(executions := w.executions[id := Execution(key, hash, None)]), Ok(Claimed))
    else
      var e := w.executions[id];
      if e.key == key && e.hash == hash then
        (w, Ok(Stored(e.result)))
      else (w, Err(Replay))
  }

  /** White space as `trim` knows it. */
  predicate IsWhitespace(c: char) {
    var code := c as int;
    9 <= code <= 13 || code == 0x20 || code == 0x85 || code == 0xA0 || code == 0x1680 || 0x2000 <= code <= 0x200A ||
    code == 0x2028 || code == 0x2029 || code == 0x202F || code == 0x205F || code == 0x3000
  }

  predicate UsableKey(key: string) {
    (exists i :: 0 <= i < |key| && !IsWhitespace(key[i])) && Utf8Length(key) <= 255
  }

  function AuthorizeRetry(w: Workflow, tenantId: string, principalId: string, id: Uuid, key: string, hash: string,
                          now: int, later: int)
    : (Workflow, Result<ExecutionClaim, ApprovalError>)
  {
    if !UsableKey(key) then (w, Err(Replay))
    else
      var (w', request) := Get(w, tenantId, id, now, later);
      if request.Err? then (w', Err(request.error))
      else if request.value.principalId != principalId || request.value.requestHash != hash then (w', Err(Forbidden))
      else
        match request.value.status
        case Approved => Claim(w', id, key, hash)
        case Pending => (w', Err(StillPending))
        case Rejected => (w', Err(WasRejected))
        case Expired => (w', Err(HasExpired))
        case Cancelled => (w', Err(Replay))
  }

  function Complete(w: Workflow, id: Uuid, key: string, result: Json): (Workflow, Result<(), ApprovalError>) {
    if id in w.executions && w.executions[id].key == key then
      (w.(executions := w.executions[id := w.executions[id].(result := Some(result))]), Ok(()))
    else (w, Err(Replay))
  }

  // ---------------------------------------------------------------- what a call does, field by field

  predicate IsOverdue(r: ApprovalRequest, now: int) {
    r.status == Pending && r.expiresAt <= now
  }

  /** Every pending request whose time has come expires, and the gauge falls by their number and by `more`. All but
      the request `id` is as the sweep leaves it. */
  ghost predicate SweptInFull(w: Workflow, w': Workflow, now: int, id: Option<Uuid>, more: nat) {
    && w'.requests.Keys == w.requests.Keys
    && (forall other :: other in w.requests && Some(other) != id ==>
          w'.requests[other] == if IsOverdue(w.requests[other], now) then w.requests[other].(status := Expired)
                                else w.requests[other])
    && w'.pendingGauge == w.pendingGauge - |set other | other in w.requests && IsOverdue(w.requests[other], now)| - more
  }

  /** The sweep, and then the tenant's request as it is after that, unless it has come due meanwhile. */
  ghost predicate GotInFull(w: Workflow, tenantId: string, id: Uuid, now: int, later: int, w': Workflow,
                            reply: Result<ApprovalRequest, ApprovalError>)
  {
    && SweptInFull(w, w', now, None, 0) && w'.executions == w.executions
    && if id !in w.requests || w.requests[id].tenantId != tenantId then reply == Err(NotFound)
       else if IsOverdue(w.requests[id], now) then reply == Ok(w.requests[id].(status := Expired))
       else if IsOverdue(w.requests[id], later) then reply == Err(HasExpired)
       else reply == Ok(w.requests[id])
  }

  /** The tenant's request is decided iff it is pending and not due, and otherwise the error says why not. */
  ghost predicate DecidedInFull(w: Workflow, tenantId: string, id: Uuid, approve: bool, now: int, later: int,
                                w': Workflow, reply: Result<ApprovalRequest, ApprovalError>)
  {
    && w'.executions == w.executions
    && if id !in w.requests || w.requests[id].tenantId != tenantId then
         SweptInFull(w, w', now, None, 0) && reply == Err(NotFound)
       else if w.requests[id].status == Pending && now < w.requests[id].expiresAt &&
               later < w.requests[id].expiresAt then
         && SweptInFull(w, w', now, Some(id), 1) && reply == Ok(w'.requests[id])
         && w'.requests[id] == w.requests[id].(status := if approve then Approved else Rejected)
       else
         && SweptInFull(w, w', now, None, 0)
         && reply == match w.requests[id].status
                     case Pending => Err(HasExpired)
                     case Expired => Err(HasExpired)
                     case Rejected => Err(WasRejected)
                     case Approved => Err(Replay)
                     case Cancelled => Err(Replay)
  }

  /** Not blank, and at most 255 bytes long. */
  ghost predicate IsUsable(key: string) {
    && Utf8Length(key) < 256
    && exists i :: 0 <= i < |key| &&
         key[i] as int !in {9, 10, 11, 12, 13, 0x20, 0x85, 0xA0, 0x1680, 0x2000, 0x2001, 0x2002, 0x2003, 0x2004, 0x2005,
                            0x2006, 0x2007, 0x2008, 0x2009, 0x200A, 0x2028, 0x2029, 0x202F, 0x205F, 0x3000}
  }

  /** What a retry is told; the first on an approved request claims it, and no other changes the claims. */
  ghost predicate RetriedInFull(w: Workflow, tenantId: string, principalId: string, id: Uuid, key: string,
                                hash: string, now: int, later: int, w': Workflow,
                                reply: Result<ExecutionClaim, ApprovalError>)
  {
    if !IsUsable(key) then w' == w && reply == Err(Replay)
    else
      && SweptInFull(w, w', now, None, 0)
      && w'.executions == (if reply == Ok(Claimed) then w.executions[id := Execution(key, hash, None)]
                           else w.executions)
      && if id !in w.requests || w.requests[id].tenantId != tenantId then reply == Err(NotFound)
         else if now < w.requests[id].expiresAt && IsOverdue(w.requests[id], later) then reply == Err(HasExpired)
         else if w.requests[id].principalId != principalId || w.requests[id].requestHash != hash then
           reply == Err(Forbidden)
         else
           match w.requests[id].status
           case Pending => reply == Err(if w.requests[id].expiresAt <= now then HasExpired else StillPending)
           case Rejected => reply == Err(WasRejected)
           case Expired => reply == Err(HasExpired)
           case Cancelled => reply == Err(Replay)
           case Approved =>
             if id !in w.executions then reply == Ok(Claimed)
             else if w.executions[id].key != key || w.executions[id].hash != hash then reply == Err(Replay)
             else if w.executions[id].result.Some? then reply == Ok(Completed(w.executions[id].result.value))
             else reply == Ok(Indeterminate)
  }

  ghost predicate CompletedInFull(w: Workflow, id: Uuid, key: string, result: Json, w': Workflow,
                                  reply: Result<(), ApprovalError>)
  {
    && w'.requests == w.requests && w'.pendingGauge == w.pendingGauge
    && if id in w.executions && w.executions[id].key == key then
         reply == Ok(()) && w'.executions == w.executions[id := Execution(key, w.executions[id].hash, Some(result))]
       else reply == Err(Replay) && w'.executions == w.executions
  }

  lemma ExpireInFull(w: Workflow, now: int)
    ensures SweptInFull(w, Expire(w, now), now, None, 0) && Expire(w, now).executions == w.executions
  {
    assert DueIds(w.requests, now) == set other | other in w.requests && IsOverdue(w.requests[other], now);
  }

  lemma GetInFull(w: Workflow, tenantId: string, id: Uuid, now: int, later: int)
    ensures var (w', reply) := Get(w, tenantId, id, now, later); GotInFull(w, tenantId, id, now, later, w', reply)
  {
    ExpireInFull(w, now);
  }

  lemma DecideInFull(w: Workflow, tenantId: string, id: Uuid, approve: bool, now: int, later: int)
    ensures var (w', reply) := Decide(w, tenantId, id, approve, now, later);
            DecidedInFull(w, tenantId, id, approve, now, later, w', reply)
  {
    ExpireInFull(w, now);
  }

  lemma UsableIff(key: string)
    ensures UsableKey(key) <==> IsUsable(key)
  {
    hide Utf8Length;
    forall i | 0 <= i < |key|
      ensures IsWhitespace(key[i]) <==>
              key[i] as int in {9, 10, 11, 12, 13, 0x20, 0x85, 0xA0, 0x1680, 0x2000, 0x2001, 0x2002, 0x2003, 0x2004,
                                0x2005, 0x2006, 0x2007, 0x2008, 0x2009, 0x200A, 0x2028, 0x2029, 0x202F, 0x205F, 0x3000}
    {
      var code := key[i] as int;
      assert code < 0x2000 || 0x200A < code ||
             code in {0x2000, 0x2001, 0x2002, 0x2003, 0x2004, 0x2005, 0x2006, 0x2007, 0x2008, 0x2009, 0x200A};
    }
  }

  lemma RetryInFull(w: Workflow, tenantId: string, principalId: string, id: Uuid, key: string, hash: string, now: int,
                    later: int)
    ensures var (w', reply) := AuthorizeRetry(w, tenantId, principalId, id, key, hash, now, later);
            RetriedInFull(w, tenantId, principalId, id, key, hash, now, later, w', reply)
  {
    hide UsableKey, IsUsable;
    UsableIff(key);
    ExpireInFull(w, now);
  }

  lemma CompleteInFull(w: Workflow, id: Uuid, key: string, result: Json)
    ensures var (w', reply) := Complete(w, id, key, result); CompletedInFull(w, id, key, result, w', reply)
  {}

  // ---------------------------------------------------------------- runs

  /** The workflow, and how often a claim has let the tool run on the strength of each approval. */
  datatype Gate = Gate(w: Workflow, runs: multiset<Uuid>)

  datatype Step =
    | Request(r: ApprovalRequest)
    | Sweep(now: int)
    | Decision(tenantId: string, id: Uuid, approve: bool, now: int, later: int)
    | Retry(tenantId: string, principalId: string, id: Uuid, key: string, hash: string, now: int, later: int)
    | Report(id: Uuid, key: string, result: Json)
    | Fail(id: Uuid, key: string)

  /** New requests are pending and get a new identifier; anybody may report a result for any key. */
  predicate Enabled(w: Workflow, step: Step) {
    step.Request? ==>
      step.r.approvalId !in w.requests && step.r.approvalId !in w.executions && step.r.status == Pending
  }

  function Act(w: Workflow, step: Step): Workflow {
    match step
    case Request(r) => Create(w, r)
    case Sweep(now) => Expire(w, now)
    case Decision(tenantId, id, approve, now, later) => Decide(w, tenantId, id, approve, now, later).0
    case Retry(tenantId, principalId, id, key, hash, now, later) =>
      AuthorizeRetry(w, tenantId, principalId, id, key, hash, now, later).0
    case Report(id, key, result) => Complete(w, id, key, result).0
    case Fail(_, _) => w
  }

  /** The step is the retry that may run the tool. */
  predicate Claims(w: Workflow, step: Step) {
    step.Retry? && AuthorizeRetry(w, step.tenantId, step.principalId, step.id, step.key, step.hash, step.now,
                                  step.later).1 == Ok(Claimed)
  }

  function Next(g: Gate, step: Step): Gate {
    Gate(Act(g.w, step), if Claims(g.w, step) then g.runs + multiset{step.id} else g.runs)
  }

  predicate LegalRun(g: Gate, steps: seq<Step>)
    decreases |steps|
  {
    steps == [] || (Enabled(g.w, steps[0]) && LegalRun(Next(g, steps[0]), steps[1..]))
  }

  function After(g: Gate, steps: seq<Step>): Gate
    requires LegalRun(g, steps)
    decreases |steps|
  {
    if steps == [] then g else After(Next(g, steps[0]), steps[1..])
  }

  const START: Gate := Gate(Workflow(map[], map[], 0), multiset{})

  // ---------------------------------------------------------------- the gauge and the final states

  predicate GaugeIsExact(w: Workflow) {
    w.pendingGauge == |PendingIds(w.requests)|
  }

  predicate Final(status: ApprovalStatus) {
    status == Approved || status == Rejected || status == Expired
  }

  lemma ExpireKeepsGauge(w: Workflow, now: int)
    requires GaugeIsExact(w)
    ensures GaugeIsExact(Expire(w, now))
  {
    var due, pending := DueIds(w.requests, now), PendingIds(w.requests);
    assert due <= pending;
    assert PendingIds(Expire(w, now).requests) == pending - due;
  }

  lemma DecideKeepsGauge(w: Workflow, tenantId: string, id: Uuid, approve: bool, now: int, later: int)
    requires GaugeIsExact(w)
    ensures GaugeIsExact(Decide(w, tenantId, id, approve, now, later).0)
  {
    ExpireKeepsGauge(w, now);
    var e := Expire(w, now);
    var w' := Decide(w, tenantId, id, approve, now, later).0;
    if w' != e {
      assert PendingIds(w'.requests) == PendingIds(e.requests) - {id};
      assert id in PendingIds(e.requests);
    }
  }

  /** A decision changes one request at most, and only one that is pending when the sweep is done. */
  lemma DecideEffect(w: Workflow, tenantId: string, id: Uuid, approve: bool, now: int, later: int)
    ensures var w' := Decide(w, tenantId, id, approve, now, later).0;
            var swept := ExpireRequests(w.requests, now);
            && w'.executions == w.executions
            && (w'.requests == swept ||
                (id in swept && swept[id].status == Pending &&
                 w'.requests == swept[id := swept[id].(status := if approve then Approved else Rejected)]))
  {}

  /** A retry sweeps, and adds a claim exactly when it is the one that may run the tool. */
  lemma RetryEffect(w: Workflow, tenantId: string, principalId: string, id: Uuid, key: string, hash: string,
                    now: int, later: int)
    ensures var (w', claim) := AuthorizeRetry(w, tenantId, principalId, id, key, hash, now, later);
            && (w'.(executions := w.executions) == w || w'.(executions := w.executions) == Expire(w, now))
            && w'.executions == (if claim == Ok(Claimed) then w.executions[id := Execution(key, hash, None)]
                                 else w.executions)
  {}

  lemma RetryKeepsGauge(w: Workflow, tenantId: string, principalId: string, id: Uuid, key: string, hash: string,
                        now: int, later: int)
    requires GaugeIsExact(w)
    ensures GaugeIsExact(AuthorizeRetry(w, tenantId, principalId, id, key, hash, now, later).0)
  {
    RetryEffect(w, tenantId, principalId, id, key, hash, now, later);
    ExpireKeepsGauge(w, now);
  }

  lemma StepKeepsGauge(g: Gate, step: Step)
    requires Enabled(g.w, step) && GaugeIsExact(g.w)
    ensures GaugeIsExact(Next(g, step).w)
  {
    match step {
      case Request(r) =>
        assert PendingIds(g.w.requests[r.approvalId := r]) == PendingIds(g.w.requests) + {r.approvalId};
      case Sweep(now) => ExpireKeepsGauge(g.w, now);
      case Decision(tenantId, id, approve, now, later) => DecideKeepsGauge(g.w, tenantId, id, approve, now, later);
      case Retry(tenantId, principalId, id, key, hash, now, later) =>
        RetryKeepsGauge(g.w, tenantId, principalId, id, key, hash, now, later);
      case Report(_, _, _) =>
      case Fail(_, _) =>
    }
  }

  /** In every run, bulk expiry included, the gauge is the number of pending requests. */
  lemma {:induction false} GaugeCountsPending(g: Gate, steps: seq<Step>)
    requires LegalRun(g, steps) && GaugeIsExact(g.w)
    ensures GaugeIsExact(After(g, steps).w)
    decreases |steps|
  {
    if steps != [] {
      StepKeepsGauge(g, steps[0]);
      GaugeCountsPending(Next(g, steps[0]), steps[1..]);
    }
  }

  /** Exactly which retries run the tool: the first with a usable key, on an approved request, by its principal and
      with its hash. */
  lemma ClaimedIff(w: Workflow, tenantId: string, principalId: string, id: Uuid, key: string, hash: string,
                   now: int, later: int)
    ensures AuthorizeRetry(w, tenantId, principalId, id, key, hash, now, later).1 == Ok(Claimed) <==>
            && UsableKey(key) && id in w.requests
            && w.requests[id].tenantId == tenantId && w.requests[id].principalId == principalId
            && w.requests[id].requestHash == hash && w.requests[id].status == Approved
            && id !in w.executions
  {}

  /** What every step leaves alone: a request keeps all but its status, a final one keeps that too, and a claim keeps
      its key and hash. */
  ghost predicate Continues(before: Workflow, after: Workflow) {
    && (forall id :: id in before.requests ==> id in after.requests && Evolves(before.requests[id], after.requests[id]))
    && (forall id :: id in before.executions ==>
          id in after.executions && SameClaim(before.executions[id], after.executions[id]))
  }

  ghost predicate Evolves(before: ApprovalRequest, after: ApprovalRequest) {
    after.(status := before.status) == before && (Final(before.status) ==> after == before)
  }

  ghost predicate SameClaim(before: Execution, after: Execution) {
    before.key == after.key && before.hash == after.hash
  }

  lemma SweepContinues(w: Workflow, now: int)
    ensures Continues(w, Expire(w, now))
  {}

  lemma DecideContinues(w: Workflow, tenantId: string, id: Uuid, approve: bool, now: int, later: int)
    ensures Continues(w, Decide(w, tenantId, id, approve, now, later).0)
  {
    SweepContinues(w, now);
    DecideEffect(w, tenantId, id, approve, now, later);
  }

  lemma RetryContinues(w: Workflow, tenantId: string, principalId: string, id: Uuid, key: string, hash: string,
                       now: int, later: int)
    ensures Continues(w, AuthorizeRetry(w, tenantId, principalId, id, key, hash, now, later).0)
  {
    SweepContinues(w, now);
    RetryEffect(w, tenantId, principalId, id, key, hash, now, later);
    ClaimedIff(w, tenantId, principalId, id, key, hash, now, later);
  }

  lemma StepContinues(g: Gate, step: Step)
    requires Enabled(g.w, step)
    ensures Continues(g.w, Next(g, step).w)
  {
    match step {
      case Request(_) =>
      case Sweep(now) => SweepContinues(g.w, now);
      case Decision(tenantId, id, approve, now, later) => DecideContinues(g.w, tenantId, id, approve, now, later);
      case Retry(tenantId, principalId, id, key, hash, now, later) =>
        RetryContinues(g.w, tenantId, principalId, id, key, hash, now, later);
      case Report(_, _, _) =>
      case Fail(_, _) =>
    }
  }

  /** A request that was approved, rejected or has expired never changes again, and a claim is never given away. */
  lemma {:induction false} FinalStatesAreFinal(g: Gate, steps: seq<Step>)
    requires LegalRun(g, steps)
    ensures Continues(g.w, After(g, steps).w)
    decreases |steps|
  {
    if steps != [] {
      StepContinues(g, steps[0]);
      FinalStatesAreFinal(Next(g, steps[0]), steps[1..]);
      ContinuesFurther(g.w, Next(g, steps[0]).w, After(g, steps).w);
    }
  }

  lemma ContinuesFurther(a: Workflow, b: Workflow, c: Workflow)
    requires Continues(a, b) && Continues(b, c)
    ensures Continues(a, c)
  {}

  // ---------------------------------------------------------------- how a status comes about

  /** A decision of the request's own tenant, this way. */
  predicate Decides(step: Step, r: ApprovalRequest, approve: bool) {
    step.Decision? && step.id == r.approvalId && step.tenantId == r.tenantId && step.approve == approve
  }

  /** A step that looks at the clock after the request's time. */
  predicate IsPast(step: Step, r: ApprovalRequest) {
    match step
    case Sweep(now) => r.expiresAt <= now
    case Decision(_, _, _, now, _) => r.expiresAt <= now
    case Retry(_, _, _, _, _, now, _) => r.expiresAt <= now
    case _ => false
  }

  ghost predicate Explained(steps: seq<Step>, r: ApprovalRequest, status: ApprovalStatus) {
    || status == r.status
    || (status == Approved && exists step :: step in steps && Decides(step, r, true))
    || (status == Rejected && exists step :: step in steps && Decides(step, r, false))
    || (status == Expired && exists step :: step in steps && IsPast(step, r))
  }

  ghost predicate FiledById(requests: map<Uuid, ApprovalRequest>) {
    forall id :: id in requests ==> requests[id].approvalId == id
  }

  lemma StepExplains(g: Gate, step: Step, id: Uuid)
    requires Enabled(g.w, step) && id in g.w.requests && FiledById(g.w.requests)
    ensures FiledById(Next(g, step).w.requests) && id in Next(g, step).w.requests
    ensures Explained([step], g.w.requests[id], Next(g, step).w.requests[id].status)
    ensures Next(g, step).w.requests[id].(status := g.w.requests[id].status) == g.w.requests[id]
  {
    assert step in [step];
    match step {
      case Decision(tenantId, id', approve, now, later) =>
        DecisionExplains(g.w, tenantId, id', approve, now, later, id);
      case Retry(tenantId, principalId, id', key, hash, now, later) =>
        RetryEffect(g.w, tenantId, principalId, id', key, hash, now, later);
      case _ =>
    }
  }

  lemma DecisionExplains(w: Workflow, tenantId: string, decided: Uuid, approve: bool, now: int, later: int, id: Uuid)
    requires id in w.requests && FiledById(w.requests)
    ensures var step := Decision(tenantId, decided, approve, now, later);
            && FiledById(Act(w, step).requests) && id in Act(w, step).requests
            && Explained([step], w.requests[id], Act(w, step).requests[id].status)
            && Act(w, step).requests[id].(status := w.requests[id].status) == w.requests[id]
  {
    assert Decision(tenantId, decided, approve, now, later) in [Decision(tenantId, decided, approve, now, later)];
    DecideEffect(w, tenantId, decided, approve, now, later);
  }

  /** In every run, a request that was approved or rejected was so by a decision of its own tenant for that, and one
      that expired was looked at after its time. */
  lemma {:induction false} EveryStatusIsExplained(g: Gate, steps: seq<Step>, id: Uuid)
    requires LegalRun(g, steps) && id in g.w.requests && FiledById(g.w.requests)
    ensures id in After(g, steps).w.requests
    ensures Explained(steps, g.w.requests[id], After(g, steps).w.requests[id].status)
    decreases |steps|
  {
    if steps != [] {
      StepExplains(g, steps[0], id);
      EveryStatusIsExplained(Next(g, steps[0]), steps[1..], id);
      ExplainedFurther(steps, g.w.requests[id], Next(g, steps[0]).w.requests[id],
                       After(g, steps).w.requests[id].status);
    }
  }

  lemma ExplainedFurther(steps: seq<Step>, r: ApprovalRequest, next: ApprovalRequest, status: ApprovalStatus)
    requires steps != [] && next.(status := r.status) == r
    requires Explained([steps[0]], r, next.status) && Explained(steps[1..], next, status)
    ensures Explained(steps, r, status)
  {
    assert steps == [steps[0]] + steps[1..];
    forall step | step in steps[1..]
      ensures step in steps && Decides(step, r, true) == Decides(step, next, true)
      ensures Decides(step, r, false) == Decides(step, next, false) && IsPast(step, r) == IsPast(step, next)
    {}
  }

  // ---------------------------------------------------------------- a tool runs at most once per approval

  ghost predicate RunsOnce(runs: multiset<Uuid>, claimed: map<Uuid, Execution>) {
    && (forall id :: runs[id] <= 1)
    && (forall id :: id in runs <==> id in claimed)
  }

  ghost predicate ClaimsAreGranted(w: Workflow) {
    forall id :: id in w.executions ==> id in w.requests && Granted(w.requests[id], w.executions[id])
  }

  ghost predicate Granted(r: ApprovalRequest, e: Execution) {
    r.status == Approved && e.hash == r.requestHash && UsableKey(e.key)
  }

  ghost predicate OnceInvariant(g: Gate) {
    RunsOnce(g.runs, g.w.executions) && ClaimsAreGranted(g.w)
  }

  lemma RetryKeepsGrants(w: Workflow, tenantId: string, principalId: string, id: Uuid, key: string, hash: string,
                         now: int, later: int)
    requires ClaimsAreGranted(w)
    ensures ClaimsAreGranted(AuthorizeRetry(w, tenantId, principalId, id, key, hash, now, later).0)
  {
    RetryContinues(w, tenantId, principalId, id, key, hash, now, later);
    RetryEffect(w, tenantId, principalId, id, key, hash, now, later);
    ClaimedIff(w, tenantId, principalId, id, key, hash, now, later);
  }

  lemma StepKeepsGrants(g: Gate, step: Step)
    requires Enabled(g.w, step) && ClaimsAreGranted(g.w)
    ensures ClaimsAreGranted(Next(g, step).w)
  {
    match step {
      case Decision(tenantId, id, approve, now, later) =>
        DecideContinues(g.w, tenantId, id, approve, now, later);
        DecideEffect(g.w, tenantId, id, approve, now, later);
      case Retry(tenantId, principalId, id, key, hash, now, later) =>
        RetryKeepsGrants(g.w, tenantId, principalId, id, key, hash, now, later);
      case _ =>
    }
  }

  lemma StepKeepsRunsOnce(g: Gate, step: Step)
    requires Enabled(g.w, step) && RunsOnce(g.runs, g.w.executions)
    ensures RunsOnce(Next(g, step).runs, Next(g, step).w.executions)
  {
    match step {
      case Decision(tenantId, id, approve, now, later) => DecideEffect(g.w, tenantId, id, approve, now, later);
      case Retry(tenantId, principalId, id, key, hash, now, later) =>
        RetryEffect(g.w, tenantId, principalId, id, key, hash, now, later);
        ClaimedIff(g.w, tenantId, principalId, id, key, hash, now, later);
      case _ =>
    }
  }

  lemma {:induction false} RunsKeepOnce(g: Gate, steps: seq<Step>)
    requires LegalRun(g, steps) && OnceInvariant(g)
    ensures OnceInvariant(After(g, steps))
    decreases |steps|
  {
    if steps != [] {
      StepKeepsGrants(g, steps[0]);
      StepKeepsRunsOnce(g, steps[0]);
      RunsKeepOnce(Next(g, steps[0]), steps[1..]);
    }
  }

  /** Over any sequence of requests, decisions, sweeps, retries, reports and failures, a tool runs at most once on
      the strength of an approval, and only if the approval was granted. */
  lemma ToolRunsAtMostOnce(steps: seq<Step>, id: Uuid)
    requires LegalRun(START, steps)
    ensures var g := After(START, steps);
            g.runs[id] <= 1 && (g.runs[id] == 1 ==> id in g.w.requests && g.w.requests[id].status == Approved)
  {
    RunsKeepOnce(START, steps);
  }

  /** The result last reported under a key, if any was. */
  function LastReport(steps: seq<Step>, id: Uuid, key: string, initial: Option<Json>): Option<Json>
    decreases |steps|
  {
    if steps == [] then initial else LastReport(steps[1..], id, key, Reported(steps[0], id, key, initial))
  }

  function Reported(step: Step, id: Uuid, key: string, earlier: Option<Json>): Option<Json> {
    if step.Report? && step.id == id && step.key == key then Some(step.result) else earlier
  }

  lemma StepStoresReport(g: Gate, step: Step, id: Uuid)
    requires Enabled(g.w, step) && id in g.w.executions
    ensures var e := g.w.executions[id];
            id in Next(g, step).w.executions &&
            Next(g, step).w.executions[id] == e.(result := Reported(step, id, e.key, e.result))
  {
    match step {
      case Decision(tenantId, id, approve, now, later) => DecideEffect(g.w, tenantId, id, approve, now, later);
      case Retry(tenantId, principalId, id, key, hash, now, later) =>
        RetryEffect(g.w, tenantId, principalId, id, key, hash, now, later);
        ClaimedIff(g.w, tenantId, principalId, id, key, hash, now, later);
      case _ =>
    }
  }

  /** What is stored for a claim is the last result reported under its key, by whatever call. */
  lemma {:induction false} StoredIsLastReported(g: Gate, steps: seq<Step>, id: Uuid)
    requires LegalRun(g, steps) && id in g.w.executions
    ensures var e := g.w.executions[id];
            id in After(g, steps).w.executions &&
            After(g, steps).w.executions[id] == e.(result := LastReport(steps, id, e.key, e.result))
    decreases |steps|
  {
    if steps != [] {
      StepStoresReport(g, steps[0], id);
      StoredIsLastReported(Next(g, steps[0]), steps[1..], id);
    }
  }

  /** What a retry of an approved request that was claimed before is told. */
  lemma ReplyToApproved(w: Workflow, tenantId: string, principalId: string, id: Uuid, key: string, hash: string,
                        now: int, later: int)
    requires id in w.requests && w.requests[id].status == Approved && id in w.executions
    ensures var reply := AuthorizeRetry(w, tenantId, principalId, id, key, hash, now, later).1;
            var r, e := w.requests[id], w.executions[id];
            if UsableKey(key) && r.tenantId == tenantId && r.principalId == principalId && r.requestHash == hash &&
               e.key == key && e.hash == hash
            then reply == Ok(Stored(e.result))
            else reply.Err?
  {}

  /** Once a retry with `key` and `hash` ran the tool, in whatever way things go on, no retry runs it again: the same
      key and hash yield the result last reported, or indeterminate while there is none, and any other key or hash an
      error. */
  lemma RetriesAfterTheFirst(g: Gate, first: Step, steps: seq<Step>, again: Step)
    requires OnceInvariant(g) && first.Retry? && again.Retry? && again.id == first.id
    requires LegalRun(g, [first] + steps)
    requires AuthorizeRetry(g.w, first.tenantId, first.principalId, first.id, first.key, first.hash, first.now,
                            first.later).1 == Ok(Claimed)
    ensures var w := After(g, [first] + steps).w;
            var reply := AuthorizeRetry(w, again.tenantId, again.principalId, again.id, again.key, again.hash,
                                        again.now, again.later).1;
            && reply != Ok(Claimed)
            && (reply.Ok? ==> again.key == first.key && again.hash == first.hash)
            && (again.key == first.key && again.hash == first.hash && again.tenantId == first.tenantId &&
                again.principalId == first.principalId ==>
                  reply == Ok(Stored(LastReport(steps, first.id, first.key, None))))
  {
    var g1 := Next(g, first);
    assert ([first] + steps)[1..] == steps;
    ClaimedIff(g.w, first.tenantId, first.principalId, first.id, first.key, first.hash, first.now, first.later);
    StepContinues(g, first);
    FinalStatesAreFinal(g1, steps);
    var w := After(g1, steps).w;
    assert Evolves(g1.w.requests[first.id], w.requests[first.id]);
    StoredIsLastReported(g1, steps, first.id);
    ReplyToApproved(w, again.tenantId, again.principalId, again.id, again.key, again.hash, again.now, again.later);
  }
}
