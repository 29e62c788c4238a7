/** The approval service over its repository, call by call. */
module ApprovalServices {
  import opened Types
  import opened Approvals

  /** The repository contract, one slot per approval. */
  class Repository {
    var requests: map<Uuid, ApprovalRequest>
    var executions: map<Uuid, Execution>

    constructor ()
      ensures requests == map[] && executions == map[]
    {
      requests, executions := map[], map[];
    }

    method InsertApproval(r: ApprovalRequest)
      modifies this`requests
      ensures requests == old(requests)[r.approvalId := r]
    {
      requests := requests[r.approvalId := r];
    }

    method Approval(tenantId: string, id: Uuid) returns (found: Option<ApprovalRequest>)
      ensures found == if id in requests && requests[id].tenantId == tenantId then Some(requests[id]) else None
    {
      if id !in requests || requests[id].tenantId != tenantId {
        return None;
      }
      found := Some(requests[id]);
    }

    method DecideApproval(id: Uuid, status: ApprovalStatus) returns (reply: Result<ApprovalRequest, ApprovalError>)
      modifies this`requests
      ensures reply == if id in old(requests) then Ok(old(requests)[id].(status := status)) else Err(NotFound)
      ensures requests == if id in old(requests) then old(requests)[id := old(requests)[id].(status := status)]
                          else old(requests)
    {
      if id !in requests {
        return Err(NotFound);
      }
      var decided := requests[id].(status := status);
      requests := requests[id := decided];
      reply := Ok(decided);
    }

    /** Expires every due request and counts them. */
    method ExpireApprovals(now: int) returns (count: nat)
      modifies this`requests
      ensures requests == ExpireRequests(old(requests), now)
      ensures count == |DueIds(old(requests), now)|
    {
      var unseen := requests.Keys;
      count := 0;
      ghost var original := requests;
      ghost var expired: set<Uuid> := {};
      while unseen != {}
        invariant unseen <= original.Keys == requests.Keys
        invariant forall id :: id in unseen ==> requests[id] == original[id]
        invariant forall id :: id in original && id !in unseen ==>
                    requests[id] == ExpireRequests(original, now)[id] && (id in expired <==> Due(original[id], now))
        invariant expired <= original.Keys - unseen && count == |expired|
        decreases |unseen|
      {
        var id :| id in unseen;
        unseen := unseen - {id};
        if Due(requests[id], now) {
          requests := requests[id := requests[id].(status := Expired)];
          count := count + 1;
          expired := expired + {id};
        }
      }
      assert expired == DueIds(original, now);
    }

    method ClaimExecution(id: Uuid, key: string, hash: string) returns (reply: Result<ExecutionClaim, ApprovalError>)
      modifies this`executions
      ensures forall w: Workflow :: w.executions == old(executions) ==>
                Claim(w, id, key, hash) == (w.(executions := executions), reply)
    {
      if id !in executions {
        executions := executions[id := Execution(key, hash, None)];
        return Ok(Claimed);
      }
      var e := executions[id];
      if e.key != key || e.hash != hash {
        return Err(Replay);
      }
      reply := Ok(match e.result case Some(value) => Completed(value) case None => Indeterminate);
    }

    method CompleteExecution(id: Uuid, key: string, result: Json) returns (reply: Result<(), ApprovalError>)
      modifies this`executions
      ensures forall w: Workflow :: w.executions == old(executions) ==>
                Complete(w, id, key, result) == (w.(executions := executions), reply)
    {
      if id !in executions || executions[id].key != key {
        return Err(Replay);
      }
      executions := executions[id := executions[id].(result := Some(result))];
      reply := Ok(());
    }
  }

  class ApprovalService {
    const repository: Repository
    const expirationSeconds: nat
    var pendingGauge: int

    ghost function State(): Workflow
      reads this, repository
    {
      Workflow(repository.requests, repository.executions, pendingGauge)
    }

    constructor (repository: Repository, expirationSeconds: nat)
      ensures this.repository == repository && this.expirationSeconds == expirationSeconds && pendingGauge == 0
    {
      this.repository, this.expirationSeconds, pendingGauge := repository, expirationSeconds, 0;
    }

    /** `id` is the new random identifier. */
    method CreateRequest(tenantId: string, principalId: string, requestHash: string, id: Uuid, now: int)
      returns (reply: Result<ApprovalRequest, ApprovalError>)
      modifies this`pendingGauge, repository`requests
      ensures reply == if expirationSeconds > MAX_DURATION_SECONDS then Err(Unavailable)
                       else if !HasExpiry(now, expirationSeconds) then Err(Panicked)
                       else Ok(ApprovalRequest(id, tenantId, principalId, requestHash, Pending,
                                               now + expirationSeconds))
      ensures State() == if reply.Ok? then Create(old(State()), reply.value) else old(State())
      ensures repository.requests == if reply.Ok? then old(repository.requests)[id := reply.value]
                                     else old(repository.requests)
      ensures pendingGauge == old(pendingGauge) + if reply.Ok? then 1 else 0
    {
      if expirationSeconds > MAX_DURATION_SECONDS {
        return Err(Unavailable);
      }
      if now + expirationSeconds > MAX_INSTANT {
        return Err(Panicked);
      }
      var r := ApprovalRequest(id, tenantId, principalId, requestHash, Pending, now + expirationSeconds);
      repository.InsertApproval(r);
      pendingGauge := pendingGauge + 1;
      reply := Ok(r);
    }

    method ExpireDue(now: int)
      modifies this`pendingGauge, repository`requests
      ensures State() == Expire(old(State()), now)
      ensures SweptInFull(old(State()), State(), now, None, 0)
    {
      ExpireInFull(State(), now);
      var count := repository.ExpireApprovals(now);
      if count > 0 {
        pendingGauge := pendingGauge - count;
      }
    }

    method GetRequest(tenantId: string, id: Uuid, now: int, later: int)
      returns (reply: Result<ApprovalRequest, ApprovalError>)
      modifies this`pendingGauge, repository`requests
      ensures (State(), reply) == Get(old(State()), tenantId, id, now, later)
      ensures GotInFull(old(State()), tenantId, id, now, later, State(), reply)
    {
      hide GotInFull;
      GetInFull(State(), tenantId, id, now, later);
      ExpireDue(now);
      var found := repository.Approval(tenantId, id);
      if found.None? {
        return Err(NotFound);
      }
      if found.value.status == Pending && found.value.expiresAt <= later {
        return Err(HasExpired);
      }
      reply := Ok(found.value);
    }

    method DecideRequest(tenantId: string, id: Uuid, approve: bool, now: int, later: int)
      returns (reply: Result<ApprovalRequest, ApprovalError>)
      modifies this`pendingGauge, repository`requests
      ensures (State(), reply) == Decide(old(State()), tenantId, id, approve, now, later)
      ensures DecidedInFull(old(State()), tenantId, id, approve, now, later, State(), reply)
    {
      hide GotInFull, DecidedInFull;
      DecideInFull(State(), tenantId, id, approve, now, later);
      reply := GetRequest(tenantId, id, now, later);
      if reply.Err? {
        return;
      }
      if reply.value.status != Pending {
        return Err(match reply.value.status
                   case Rejected => WasRejected
                   case Expired => HasExpired
                   case _ => Replay);
      }
      reply := repository.DecideApproval(id, if approve then Approved else Rejected);
      if reply.Ok? {
        pendingGauge := pendingGauge - 1;
      }
    }

    method RetryAuthorized(tenantId: string, principalId: string, id: Uuid, key: string, hash: string, now: int,
                           later: int)
      returns (reply: Result<ExecutionClaim, ApprovalError>)
      modifies this`pendingGauge, repository
      ensures (State(), reply) == AuthorizeRetry(old(State()), tenantId, principalId, id, key, hash, now, later)
      ensures RetriedInFull(old(State()), tenantId, principalId, id, key, hash, now, later, State(), reply)
    {
      hide GotInFull, RetriedInFull;
      RetryInFull(State(), tenantId, principalId, id, key, hash, now, later);
      if !UsableKey(key) {
        return Err(Replay);
      }
      var found := GetRequest(tenantId, id, now, later);
      if found.Err? {
        return Err(found.error);
      }
      if found.value.principalId != principalId || found.value.requestHash != hash {
        return Err(Forbidden);
      }
      match found.value.status {
        case Approved => reply := repository.ClaimExecution(id, key, hash);
        case Pending => reply := Err(StillPending);
        case Rejected => reply := Err(WasRejected);
        case Expired => reply := Err(HasExpired);
        case Cancelled => reply := Err(Replay);
      }
    }

    method CompleteCall(id: Uuid, key: string, result: Json) returns (reply: Result<(), ApprovalError>)
      modifies repository`executions
      ensures (State(), reply) == Complete(old(State()), id, key, result)
      ensures CompletedInFull(old(State()), id, key, result, State(), reply)
    {
      CompleteInFull(State(), id, key, result);
      reply := repository.CompleteExecution(id, key, result);
    }
  }
}
