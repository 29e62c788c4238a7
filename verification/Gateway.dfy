/** The fallback loop of the gateway: reserve, call the provider, then release and go on, or meter. */
module Gateways {
  import opened Types
  import opened MapSums
  import opened Ledgers
  import opened MemoryStores
  import opened Quotas

  datatype ProviderError =
    | Unavailable
    | Unsupported
    | Timeout
    | RateLimited
    | Upstream(status: nat)
    | UpstreamRejected(status: nat, code: string)
    | Protocol
    | Transport

  predicate Retryable(error: ProviderError) {
    match error
    case Timeout => true
    case Transport => true
    case RateLimited => true
    case Upstream(status) => 500 <= status <= 599
    case UpstreamRejected(status, _) => 500 <= status <= 599
    case _ => false
  }

  /** What a provider answers: a response, which output inspection lets through or not; a stream, with the usage and
      the status with which its consumer ended; or an error. */
  datatype ProviderReply =
    | Response(usage: TokenUsage, passesInspection: bool)
    | Streamed(usage: TokenUsage, status: UsageStatus)
    | Failed(error: ProviderError)

  datatype GatewayError = Security | Quota(quota: QuotaError) | Provider(provider: ProviderError)

  /** Everything the outside world decides about one attempt. `released` is the counter's answer when the attempt gives
      its key back, which it does at most once. */
  datatype Attempt = Attempt(
    reservationId: Uuid,
    startedAt: int,
    counterAnswer: Result<string, QuotaError>,
    reply: ProviderReply,
    released: Result<(), QuotaError>,
    finishedAt: int)

  datatype Request = Request(id: Uuid, principal: Principal, promptTokens: U64, completionTokens: U64)

  /** What the service keeps account of: the ledger, and the counter keys that are held and those that were lost. */
  datatype Books = Books(ledger: Ledger, held: map<Uuid, string>, lost: multiset<string>)

  function AddUp(parts: seq<multiset<string>>): multiset<string> {
    if parts == [] then multiset{} else AddUp(parts[..|parts| - 1]) + parts[|parts| - 1]
  }

  // ---------------------------------------------------------------- what a call comes to, written out

  /** The errors after which the loop goes on to the next route. */
  predicate IsTransient(error: ProviderError) {
    || error == Timeout || error == Transport || error == RateLimited
    || ((error.Upstream? || error.UpstreamRejected?) && error.status / 100 == 5)
  }

  /** The event that a call leaves whose last provider answered, and what is returned, field by field. */
  ghost predicate Completed(l: Ledger, l': Ledger, request: Request, route: ModelRoute, attempt: Attempt,
                            result: Result<TokenUsage, GatewayError>)
  {
    && l' == l.(usage := l'.usage) && l'.usage.Keys == l.usage.Keys + {request.id}
    && (forall q :: q in l.usage ==> l'.usage[q] == l.usage[q])
    && (request.id !in l.usage ==> IsMeteredAs(l'.usage[request.id], request, route, attempt))
    && match attempt.reply
       case Response(usage, passesInspection) => result == if passesInspection then Ok(usage) else Err(Security)
       case Streamed(usage, _) => result == Ok(usage)
       case Failed(error) => result == Err(Provider(error))
  }

  predicate IsMeteredAs(e: UsageEvent, request: Request, route: ModelRoute, attempt: Attempt) {
    && e.requestId == request.id && e.tenantId == request.principal.tenantId
    && e.principalId == request.principal.principalId && e.route == route && e.occurredAt == attempt.finishedAt
    && match attempt.reply
       case Response(usage, _) => e.usage == usage && e.status == Succeeded
       case Streamed(usage, status) => e.usage == usage && e.status == status
       case Failed(_) =>
         e.usage.promptTokens == request.promptTokens && e.usage.completionTokens == 0 && e.usage.estimated &&
         e.status == ProviderFailed
  }

  /** The owner's tokens metered that day grow by those of the event, and nobody else's grow. */
  lemma CompletedIsCharged(l: Ledger, l': Ledger, request: Request, route: ModelRoute, attempt: Attempt,
                           result: Result<TokenUsage, GatewayError>, owner: QuotaOwner, tenantId: string,
                           midnight: int)
    requires Completed(l, l', request, route, attempt, result) && request.id !in l.usage
    ensures var e := l'.usage[request.id];
            SumValues(l'.usage, MeteredOn(owner, tenantId, midnight)) ==
            SumValues(l.usage, MeteredOn(owner, tenantId, midnight)) +
            if tenantId == request.principal.tenantId && NamesOwner(request.principal.principalId, owner) &&
               midnight <= attempt.finishedAt < midnight + 86_400
            then (e.usage.promptTokens + e.usage.completionTokens) % 0x1_0000_0000_0000_0000 else 0
  {
    var e := l'.usage[request.id];
    assert l'.usage == l.usage[request.id := e] && l.usage - {request.id} == l.usage;
    SumInsert(l.usage, MeteredOn(owner, tenantId, midnight), request.id, e);
  }

  class GatewayService {
    const store: MemoryStore
    const quota: QuotaService
    const providers: set<string>

    ghost predicate Valid()
      reads this, quota, store, quota.counter
    {
      quota.store == store && quota.Valid()
    }

    ghost function Kept(): Books
      reads quota, store
    {
      Books(store.Contents(), quota.counterReservations, quota.lost)
    }

    constructor (quota: QuotaService, providers: set<string>)
      requires quota.Valid()
      ensures Valid() && this.quota == quota && this.providers == providers && store == quota.store
    {
      this.store, this.quota, this.providers := quota.store, quota, providers;
    }

    function ReservationOf(request: Request, route: ModelRoute, attempt: Attempt): QuotaReservation {
      NewReservation(attempt.reservationId, request.id, request.principal, route, request.promptTokens,
                     request.completionTokens, attempt.startedAt + quota.ttlSeconds)
    }

    /** An attempt made on ledger `l` gets its reservation. */
    ghost predicate Granted(l: Ledger, request: Request, route: ModelRoute, attempt: Attempt) {
      && quota.ReachesStore(attempt.counterAnswer, attempt.startedAt)
      && Reserve(l, ReservationOf(request, route, attempt), attempt.startedAt).1 == Ok(true)
    }

    /** What an attempt asks for and when it gets it, in full: the counter gives a key, the expiry can be represented,
        and the store grants a reservation of the request's bounds to the principal's key or else its tenant. */
    lemma GrantedInFull(l: Ledger, request: Request, route: ModelRoute, attempt: Attempt, owner: QuotaOwner,
                        limit: nat, midnight: int)
      requires UniqueKeyIds(l.keys) && IsMidnightOf(midnight, attempt.startedAt)
      requires owner == match request.principal.virtualKeyId
                        case Some(id) => VirtualKey(id)
                        case None => Tenant(request.principal.tenantId)
      requires HasLimit(l, owner, limit) && limit < 0xFFFF_FFFF_FFFF_FFFF
      ensures var used := SumValues(l.usage, MeteredOn(owner, request.principal.tenantId, midnight));
              var pending := SumValues(l.reservations, HeldFor(owner));
              var asked := (request.promptTokens + request.completionTokens) % 0x1_0000_0000_0000_0000;
              used < 0x1_0000_0000_0000_0000 && pending < 0x1_0000_0000_0000_0000 ==>
                (Granted(l, request, route, attempt) <==>
                 && (quota.counter == null || attempt.counterAnswer.Ok?)
                 && HasExpiry(attempt.startedAt, quota.ttlSeconds)
                 && used + pending + asked <= limit)
    {
      hide SumValues, HasLimit, Reserve;
      var r := ReservationOf(request, route, attempt);
      ReserveGrantsAsMetered(l, r, attempt.startedAt);
      assert GrantedWithin(l, r, limit, midnight, Reserve(l, r, attempt.startedAt).1);
    }

    /** Why an attempt does not get it. */
    ghost function RefusalOf(l: Ledger, request: Request, route: ModelRoute, attempt: Attempt): QuotaError {
      quota.Refusal(attempt.counterAnswer, attempt.startedAt,
                    Reserve(l, ReservationOf(request, route, attempt), attempt.startedAt).1)
    }

    /** An attempt hands over to the next route: its provider failed with a retryable error and is not the last. */
    ghost predicate FallsThrough(l: Ledger, request: Request, route: ModelRoute, attempt: Attempt, isLast: bool) {
      && Granted(l, request, route, attempt)
      && route.provider in providers
      && attempt.reply.Failed? && Retryable(attempt.reply.error)
      && !isLast
    }

    /** The ledger after an attempt that ended the loop. */
    ghost function LedgerAfter(l: Ledger, request: Request, route: ModelRoute, attempt: Attempt): Ledger {
      if !Granted(l, request, route, attempt) then l
      else if route.provider !in providers then
        l.(reservations := l.reservations[attempt.reservationId := ReservationOf(request, route, attempt)])
      else FirstMetered(l, MeteredAs(request, route, attempt))
    }

    static ghost function FirstMetered(l: Ledger, e: UsageEvent): Ledger {
      l.(usage := if e.requestId in l.usage then l.usage else l.usage[e.requestId := e])
    }

    /** The counter keys held after an attempt that ended the loop. */
    ghost function HeldAfter(held: map<Uuid, string>, l: Ledger, request: Request, route: ModelRoute,
                             attempt: Attempt): map<Uuid, string> {
      if Granted(l, request, route, attempt) && route.provider !in providers && quota.counter != null then
        held[attempt.reservationId := attempt.counterAnswer.value]
      else held
    }

    /** Whether the attempt's counter key stays outstanding for good: its expiry could not be represented, or giving it
        back failed. A key that is still held for a provider that is not registered was not given back at all. */
    ghost predicate LosesKey(l: Ledger, request: Request, route: ModelRoute, attempt: Attempt) {
      && quota.counter != null && attempt.counterAnswer.Ok?
      && (!HasExpiry(attempt.startedAt, quota.ttlSeconds) ||
          (attempt.released.Err? && (Granted(l, request, route, attempt) ==> route.provider in providers)))
    }

    ghost function Loss(l: Ledger, request: Request, route: ModelRoute, attempt: Attempt): multiset<string> {
      One(LosesKey(l, request, route, attempt), attempt.counterAnswer)
    }

    /** What each attempt loses, all being made on ledger `l`. */
    ghost function Losses(l: Ledger, request: Request, routes: seq<ModelRoute>, attempts: seq<Attempt>)
      : (losses: seq<multiset<string>>)
      requires |routes| == |attempts|
      ensures |losses| == |routes|
    {
      seq(|routes|, i requires 0 <= i < |routes| => Loss(l, request, routes[i], attempts[i]))
    }

    /** What a call that ended the loop returns. */
    ghost predicate Returns(l: Ledger, request: Request, route: ModelRoute, attempt: Attempt,
                            result: Result<TokenUsage, GatewayError>, called: bool)
    {
      if !Granted(l, request, route, attempt) then
        result == Err(Quota(RefusalOf(l, request, route, attempt))) && !called
      else if route.provider !in providers then result == Err(Provider(ProviderError.Unavailable)) && !called
      else result == Answer(attempt.reply) && called
    }

    /** The usage event of an attempt that was not released. */
    function MeteredAs(request: Request, route: ModelRoute, attempt: Attempt): UsageEvent {
      var r := ReservationOf(request, route, attempt);
      match attempt.reply
      case Response(usage, _) => EventFor(r, usage, Succeeded, attempt.finishedAt)
      case Streamed(usage, status) => EventFor(r, usage, status, attempt.finishedAt)
      case Failed(_) => EventFor(r, TokenUsage(r.promptTokens, 0, true), ProviderFailed, attempt.finishedAt)
    }

    function Answer(reply: ProviderReply): Result<TokenUsage, GatewayError> {
      match reply
      case Response(usage, true) => Ok(usage)
      case Response(_, false) => Err(Security)
      case Streamed(usage, _) => Ok(usage)
      case Failed(error) => Err(Provider(error))
    }

    method Record(r: QuotaReservation, event: UsageEvent, released: Result<(), QuotaError>)
      requires Valid()
      modifies store`reservations, store`usage, quota`lost, quota`counterReservations, quota.counter
      ensures Valid()
      ensures store.Contents() == Finalize(old(store.Contents()), r.reservationId, event)
      ensures quota.counterReservations == old(quota.counterReservations) - {r.reservationId}
      ensures quota.lost == old(quota.lost) + Unreturned(old(quota.counterReservations), r.reservationId, released)
    {
      store.FinalizeUsage(r.reservationId, event);
      quota.ReleaseCounter(r.reservationId, released);
    }

    static ghost function Unreturned(held: map<Uuid, string>, id: Uuid, released: Result<(), QuotaError>)
      : multiset<string>
    {
      if id in held && released.Err? then multiset{held[id]} else multiset{}
    }

    method RecordOrRelease(r: QuotaReservation, event: UsageEvent, retrying: bool, released: Result<(), QuotaError>)
      requires Valid()
      modifies store`reservations, store`usage, quota`lost, quota`counterReservations, quota.counter
      ensures Valid()
      ensures store.Contents() == if retrying then Release(old(store.Contents()), r.reservationId)
                                  else Finalize(old(store.Contents()), r.reservationId, event)
      ensures quota.counterReservations == old(quota.counterReservations) - {r.reservationId}
      ensures quota.lost == old(quota.lost) + Unreturned(old(quota.counterReservations), r.reservationId, released)
    {
      if retrying {
        store.ReleaseReservation(r.reservationId);
        quota.ReleaseCounter(r.reservationId, released);
      } else {
        Record(r, event, released);
      }
    }

    method TryReserve(request: Request, route: ModelRoute, attempt: Attempt)
      returns (reply: Result<QuotaReservation, QuotaError>)
      requires Valid() && attempt.reservationId !in quota.counterReservations
      modifies store`reservations, quota`lost, quota`counterReservations, quota.counter
      ensures Valid()
      ensures var l, r := old(store.Contents()), ReservationOf(request, route, attempt);
              && reply == (if Granted(l, request, route, attempt) then Ok(r)
                           else Err(RefusalOf(l, request, route, attempt)))
              && store.Contents() == if reply.Ok? then l.(reservations := l.reservations[r.reservationId := r]) else l
      ensures quota.counterReservations ==
              if reply.Ok? && quota.counter != null then
                old(quota.counterReservations)[attempt.reservationId := attempt.counterAnswer.value]
              else old(quota.counterReservations)
      ensures quota.lost == old(quota.lost) +
                            if reply.Err? then Loss(old(store.Contents()), request, route, attempt) else multiset{}
    {
      reply := quota.Reserve(request.id, request.principal, route, request.promptTokens, request.completionTokens,
                             attempt.reservationId, attempt.startedAt, attempt.counterAnswer, attempt.released);
    }

    /** One turn of the loop; it returns `None` to go on to the next route. */
    method TryRoute(request: Request, route: ModelRoute, attempt: Attempt, isLast: bool)
      returns (outcome: Option<Result<TokenUsage, GatewayError>>, called: bool)
      requires Valid()
      requires attempt.reservationId !in store.reservations && attempt.reservationId !in quota.counterReservations
      modifies store`reservations, store`usage, quota`lost, quota`counterReservations, quota.counter
      ensures Valid()
      ensures Turned(old(Kept()), Kept(), request, route, attempt, isLast)
      ensures var l := old(store.Contents());
              if FallsThrough(l, request, route, attempt, isLast) then outcome.None? && called && !isLast
              else outcome.Some? && Returns(l, request, route, attempt, outcome.value, called)
    {
      called := false;
      var reserved := TryReserve(request, route, attempt);
      if reserved.Err? {
        return Some(Err(Quota(reserved.error))), called;
      }
      if route.provider !in providers {
        return Some(Err(Provider(ProviderError.Unavailable))), called;
      }
      called := true;
      outcome := Settle(old(store.Contents()), old(quota.counterReservations), request, route, attempt, reserved.value,
                        isLast);
    }

    /** What one turn of the loop does to the books. */
    ghost predicate Turned(b: Books, b': Books, request: Request, route: ModelRoute, attempt: Attempt, isLast: bool) {
      b' == if FallsThrough(b.ledger, request, route, attempt, isLast)
            then b.(lost := b.lost + Loss(b.ledger, request, route, attempt))
            else Books(LedgerAfter(b.ledger, request, route, attempt),
                       HeldAfter(b.held, b.ledger, request, route, attempt),
                       b.lost + Loss(b.ledger, request, route, attempt))
    }

    /** What follows the provider's reply: the reservation made on ledger `l` is metered, or released to try again. */
    method Settle(ghost l: Ledger, ghost held: map<Uuid, string>, request: Request, route: ModelRoute,
                  attempt: Attempt, r: QuotaReservation, isLast: bool)
      returns (outcome: Option<Result<TokenUsage, GatewayError>>)
      requires Valid() && r == ReservationOf(request, route, attempt)
      requires r.reservationId !in l.reservations && r.reservationId !in held
      requires store.Contents() == l.(reservations := l.reservations[r.reservationId := r])
      requires quota.counter != null ==> attempt.counterAnswer.Ok?
      requires quota.counterReservations == if quota.counter == null then held
                                            else held[r.reservationId := attempt.counterAnswer.value]
      modifies store`reservations, store`usage, quota`lost, quota`counterReservations, quota.counter
      ensures Valid() && quota.counterReservations == held
      ensures quota.lost == old(quota.lost) + One(quota.counter != null && attempt.released.Err?, attempt.counterAnswer)
      ensures var retry := attempt.reply.Failed? && Retryable(attempt.reply.error) && !isLast;
              && outcome == (if retry then None else Some(Answer(attempt.reply)))
              && store.Contents() == if retry then l else FirstMetered(l, MeteredAs(request, route, attempt))
    {
      var event := MeteredAs(request, route, attempt);
      BackToOriginal(l, r, event);
      Forgotten(held, r.reservationId, attempt.counterAnswer);
      match attempt.reply {
        case Response(usage, passesInspection) =>
          Record(r, event, attempt.released);
          outcome := Some(if passesInspection then Ok(usage) else Err(Security));
        case Streamed(usage, _) =>
          Record(r, event, attempt.released);
          outcome := Some(Ok(usage));
        case Failed(error) =>
          var canRetry := !isLast && Retryable(error);
          RecordOrRelease(r, event, canRetry, attempt.released);
          outcome := if canRetry then None else Some(Err(Provider(error)));
      }
    }

    static lemma Forgotten(held: map<Uuid, string>, id: Uuid, answer: Result<string, QuotaError>)
      requires id !in held
      ensures held - {id} == held
      ensures answer.Ok? ==> held[id := answer.value] - {id} == held
    {}

    static lemma BackToOriginal(l: Ledger, r: QuotaReservation, event: UsageEvent)
      requires r.reservationId !in l.reservations
      ensures var reserved := l.(reservations := l.reservations[r.reservationId := r]);
              && Release(reserved, r.reservationId) == l
              && Finalize(reserved, r.reservationId, event) == FirstMetered(l, event)
    {
      assert l.reservations[r.reservationId := r] - {r.reservationId} == l.reservations;
    }

    /** The first `n` attempts fell through and left nothing behind but the counter keys they lost. */
    ghost predicate FellThrough(b: Books, b': Books, request: Request, routes: seq<ModelRoute>, attempts: seq<Attempt>,
                                n: nat)
      requires n <= |routes| == |attempts|
    {
      && (forall i :: 0 <= i < n ==> FallsThrough(b.ledger, request, routes[i], attempts[i], i + 1 == |routes|))
      && b' == b.(lost := b.lost + AddUp(Losses(b.ledger, request, routes, attempts)[..n]))
    }

    /** The call ended with attempt `last`: those before it fell through, and it alone decides the ledger and the
        counter keys held. */
    ghost predicate Ended(b: Books, b': Books, request: Request, routes: seq<ModelRoute>, attempts: seq<Attempt>,
                          last: nat)
      requires last < |routes| == |attempts|
    {
      && (forall i :: 0 <= i < last ==> FallsThrough(b.ledger, request, routes[i], attempts[i], i + 1 == |routes|))
      && !FallsThrough(b.ledger, request, routes[last], attempts[last], last + 1 == |routes|)
      && b' == Books(LedgerAfter(b.ledger, request, routes[last], attempts[last]),
                     HeldAfter(b.held, b.ledger, request, routes[last], attempts[last]),
                     b.lost + AddUp(Losses(b.ledger, request, routes, attempts)[..last + 1]))
    }

    lemma NoTurn(b: Books, request: Request, routes: seq<ModelRoute>, attempts: seq<Attempt>)
      requires |routes| == |attempts|
      ensures FellThrough(b, b, request, routes, attempts, 0)
    {
      assert Losses(b.ledger, request, routes, attempts)[..0] == [];
    }

    lemma OneTurn(b: Books, b': Books, b'': Books, request: Request, routes: seq<ModelRoute>, attempts: seq<Attempt>,
                  n: nat)
      requires n < |routes| == |attempts|
      requires FellThrough(b, b', request, routes, attempts, n)
      requires Turned(b', b'', request, routes[n], attempts[n], n + 1 == |routes|)
      ensures if FallsThrough(b.ledger, request, routes[n], attempts[n], n + 1 == |routes|)
              then FellThrough(b, b'', request, routes, attempts, n + 1)
              else Ended(b, b'', request, routes, attempts, n)
    {
      hide FallsThrough, LedgerAfter, HeldAfter, Loss;
      var losses := Losses(b.ledger, request, routes, attempts);
      assert losses[..n + 1][..n] == losses[..n];
      assert b.lost + (AddUp(losses[..n]) + losses[n]) == b.lost + AddUp(losses[..n]) + losses[n];
    }

    /** Every attempt before the last failed with a transient error. The last one called its provider iff that is
        registered and the reservation was granted; it then completed the call, and was not to be retried. */
    ghost predicate EndsInFull(l: Ledger, l': Ledger, request: Request, routes: seq<ModelRoute>,
                               attempts: seq<Attempt>, last: nat, result: Result<TokenUsage, GatewayError>,
                               called: bool)
      requires last < |routes| == |attempts|
    {
      && (forall i :: 0 <= i < last ==> attempts[i].reply.Failed? && IsTransient(attempts[i].reply.error))
      && (called <==> Granted(l, request, routes[last], attempts[last]) && routes[last].provider in providers)
      && (Granted(l, request, routes[last], attempts[last]) && routes[last].provider in providers ==>
            && Completed(l, l', request, routes[last], attempts[last], result)
            && (attempts[last].reply.Failed? && last + 1 < |routes| ==> !IsTransient(attempts[last].reply.error)))
      && (Granted(l, request, routes[last], attempts[last]) && routes[last].provider !in providers ==>
            result == Err(Provider(ProviderError.Unavailable)) && l'.usage == l.usage)
      && (!Granted(l, request, routes[last], attempts[last]) ==>
            result.Err? && result.error.Quota? && l' == l)
    }

    lemma EndedInFull(b: Books, b': Books, request: Request, routes: seq<ModelRoute>, attempts: seq<Attempt>,
                      last: nat, result: Result<TokenUsage, GatewayError>, called: bool)
      requires last < |routes| == |attempts| && Ended(b, b', request, routes, attempts, last)
      requires Returns(b.ledger, request, routes[last], attempts[last], result, called)
      ensures EndsInFull(b.ledger, b'.ledger, request, routes, attempts, last, result, called)
    {
      hide Granted;
      forall i | 0 <= i < last ensures attempts[i].reply.Failed? && IsTransient(attempts[i].reply.error) {
        assert FallsThrough(b.ledger, request, routes[i], attempts[i], i + 1 == |routes|);
      }
    }

    /** `last` is the attempt the loop ended with, which decides the result; `calls` lists the providers called, in
        order. */
    method Execute(request: Request, routes: seq<ModelRoute>, attempts: seq<Attempt>)
      returns (result: Result<TokenUsage, GatewayError>, calls: seq<string>, last: nat)
      requires Valid() && |routes| == |attempts|
      requires forall i :: 0 <= i < |attempts| ==>
                 attempts[i].reservationId !in store.reservations &&
                 attempts[i].reservationId !in quota.counterReservations
      modifies store`reservations, store`usage, quota`lost, quota`counterReservations, quota.counter
      ensures Valid()
      ensures routes == [] ==>
                result == Err(Provider(ProviderError.Unavailable)) && calls == [] && Kept() == old(Kept())
      ensures routes != [] ==>
                && last < |routes|
                && Ended(old(Kept()), Kept(), request, routes, attempts, last)
                && Returns(old(Kept()).ledger, request, routes[last], attempts[last], result, |calls| == last + 1)
                && EndsInFull(old(Kept()).ledger, Kept().ledger, request, routes, attempts, last, result,
                              |calls| == last + 1)
                && last <= |calls| <= last + 1
                && forall i :: 0 <= i < |calls| ==> calls[i] == routes[i].provider
    {
      hide EndsInFull, FallsThrough, Turned, Ended, LedgerAfter, HeldAfter, Losses, AddUp, Returns;
      calls := [];
      last := 0;
      result := Err(Provider(ProviderError.Unavailable));
      if routes == [] {
        return;
      }
      ghost var b := Kept();
      NoTurn(b, request, routes, attempts);
      for i := 0 to |routes|
        invariant Valid() && FellThrough(b, Kept(), request, routes, attempts, i)
        invariant |calls| == i < |routes| && forall j :: 0 <= j < i ==> calls[j] == routes[j].provider
      {
        last := i;
        ghost var before := Kept();
        var outcome, called := TryRoute(request, routes[i], attempts[i], i + 1 == |routes|);
        OneTurn(b, before, Kept(), request, routes, attempts, i);
        if called {
          calls := calls + [routes[i].provider];
        }
        if outcome.Some? {
          result := outcome.value;
          EndedInFull(b, Kept(), request, routes, attempts, last, result, called);
          return;
        }
      }
    }
  }

  // ---------------------------------------------------------------- what a call leaves behind

  /** The counter takes the key back when asked to, and the expiry can be represented. */
  ghost predicate CounterAnswers(service: GatewayService, attempt: Attempt) {
    attempt.released.Ok? && HasExpiry(attempt.startedAt, service.quota.ttlSeconds)
  }

  /** After a call, nothing of the request is held and it is metered exactly when its last reservation was
      granted, provided the last provider is registered. */
  lemma NothingLeaksIff(service: GatewayService, l: Ledger, held: map<Uuid, string>, request: Request,
                        route: ModelRoute, attempt: Attempt)
    requires attempt.reservationId !in l.reservations
    ensures var l' := service.LedgerAfter(l, request, route, attempt);
            && (l'.reservations == l.reservations <==>
                  route.provider in service.providers || !service.Granted(l, request, route, attempt))
            && (l'.reservations == l.reservations ==>
                  service.HeldAfter(held, l, request, route, attempt) == held)
            && (route.provider in service.providers && request.id !in l.usage ==>
                  (request.id in l'.usage <==> service.Granted(l, request, route, attempt)))
            && l'.usage - {request.id} == l.usage - {request.id}
            && (request.id in l.usage ==> l'.usage == l.usage)
  {
    var l' := service.LedgerAfter(l, request, route, attempt);
    assert attempt.reservationId in l'.reservations <==> l'.reservations != l.reservations;
  }

  /** The attempt's counter key does not get lost: none was taken, it is still held for a provider that is not
      registered, or the counter answers. */
  ghost predicate KeepsKey(service: GatewayService, l: Ledger, request: Request, route: ModelRoute, attempt: Attempt) {
    || service.quota.counter == null || attempt.counterAnswer.Err? || CounterAnswers(service, attempt)
    || (service.Granted(l, request, route, attempt) && route.provider !in service.providers)
  }

  lemma KeepsKeyIff(service: GatewayService, l: Ledger, request: Request, route: ModelRoute, attempt: Attempt)
    ensures KeepsKey(service, l, request, route, attempt) <==> !service.LosesKey(l, request, route, attempt)
  {}

  /** A call loses no counter key iff none of its attempts does. */
  lemma NoKeyIsLostIff(service: GatewayService, l: Ledger, request: Request, routes: seq<ModelRoute>,
                       attempts: seq<Attempt>, n: nat)
    requires n <= |routes| == |attempts|
    ensures AddUp(service.Losses(l, request, routes, attempts)[..n]) == multiset{} <==>
            forall i :: 0 <= i < n ==> KeepsKey(service, l, request, routes[i], attempts[i])
  {
    var losses := service.Losses(l, request, routes, attempts);
    NothingAddedUp(losses[..n]);
    forall i | 0 <= i < n
      ensures losses[..n][i] == multiset{} <==> KeepsKey(service, l, request, routes[i], attempts[i])
    {
      KeepsKeyIff(service, l, request, routes[i], attempts[i]);
    }
  }

  lemma {:induction false} NothingAddedUp(parts: seq<multiset<string>>)
    ensures AddUp(parts) == multiset{} <==> forall i :: 0 <= i < |parts| ==> parts[i] == multiset{}
  {
    if parts != [] {
      var front, last := parts[..|parts| - 1], parts[|parts| - 1];
      NothingAddedUp(front);
      assert forall i :: 0 <= i < |front| ==> parts[i] == front[i];
      assert AddUp(parts) == AddUp(front) + last;
      assert |AddUp(parts)| == |AddUp(front)| + |last|;
    }
  }
}
