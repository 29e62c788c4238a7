/** A streaming call: the fallback loop opens a stream, and its consumer settles the reservation when it is done. */
module StreamCalls {
  import opened Types
  import opened Ledgers
  import opened Gateways
  import opened Streams
  import Q = Quotas

  /** What a provider makes of the request for a stream: its items up to the end, or an error. */
  datatype Opening = Opened(upstream: seq<Result<Event, ProviderError>>) | NotOpened(error: ProviderError)

  /** Everything the outside world decides about one try; see `Attempt`. */
  datatype Try = Try(
    reservationId: Uuid,
    startedAt: int,
    counterAnswer: Result<string, Q.QuotaError>,
    opening: Opening,
    released: Result<(), Q.QuotaError>,
    finishedAt: int)

  /** How the consumer of a stream ended. */
  datatype End = End(usage: TokenUsage, status: UsageStatus)

  /** For tries that have no consumer. */
  const NO_END := End(TokenUsage(0, 0, true), Succeeded)

  /** A try as an attempt, of which a consumer that ended with `end` is part. */
  function AttemptOf(t: Try, end: End): Attempt {
    var reply := match t.opening
                 case Opened(_) => Streamed(end.usage, end.status)
                 case NotOpened(error) => Failed(error);
    Attempt(t.reservationId, t.startedAt, t.counterAnswer, reply, t.released, t.finishedAt)
  }

  function AttemptsOf(tries: seq<Try>, end: End): (attempts: seq<Attempt>)
    ensures |attempts| == |tries| && forall i :: 0 <= i < |tries| ==> attempts[i] == AttemptOf(tries[i], end)
  {
    seq(|tries|, i requires 0 <= i < |tries| => AttemptOf(tries[i], end))
  }

  /** The try opens a stream: it gets its reservation, and its provider is registered and answers. */
  ghost predicate Opens(service: GatewayService, l: Ledger, request: Request, route: ModelRoute, t: Try, end: End) {
    t.opening.Opened? && route.provider in service.providers && service.Granted(l, request, route, AttemptOf(t, end))
  }

  /** What a consumer that read `consumed` sends and ends with. */
  ghost predicate Consumed(upstream: seq<Result<Event, ProviderError>>, accepts: nat, promptTokens: U64,
                           includeUsage: bool, inspect: Option<string -> Inspection>, sent: seq<Item>, end: End,
                           consumed: seq<Event>)
  {
    match inspect
    case None => PassedThrough(upstream, [], accepts, promptTokens, includeUsage, sent, end.usage, end.status, consumed)
    case Some(f) =>
      Inspected(upstream, [], accepts, promptTokens, includeUsage, f, sent, end.usage, end.status, consumed)
  }

  method Consume(upstream: seq<Result<Event, ProviderError>>, sender: Sender, promptTokens: U64, includeUsage: bool,
                 inspect: Option<string -> Inspection>)
    returns (end: End, ghost consumed: seq<Event>)
    requires sender.sent == []
    modifies sender
    ensures Consumed(upstream, sender.accepts, promptTokens, includeUsage, inspect, sender.sent, end, consumed)
  {
    var usage, status;
    if inspect.Some? {
      usage, status, consumed := ConsumeInspectedStream(upstream, sender, promptTokens, includeUsage, inspect.value);
    } else {
      usage, status, consumed := ConsumeStream(upstream, sender, promptTokens, includeUsage);
    }
    end := End(usage, status);
  }

  /** What the caller gets when the loop ends: a stream or an error. */
  ghost predicate Answers(service: GatewayService, l: Ledger, request: Request, route: ModelRoute, t: Try, end: End,
                          result: Result<(), GatewayError>)
  {
    var attempt := AttemptOf(t, end);
    result ==
    if !service.Granted(l, request, route, attempt) then Err(Quota(service.RefusalOf(l, request, route, attempt)))
    else if route.provider !in service.providers then Err(Provider(ProviderError.Unavailable))
    else
      match t.opening
      case Opened(_) => Ok(())
      case NotOpened(error) => Err(Provider(error))
  }

  /** What follows the reservation made on ledger `l`: the stream is consumed and metered, or the error is dealt
      with. */
  method Serve(service: GatewayService, ghost l: Ledger, ghost held: map<Uuid, string>, request: Request,
               route: ModelRoute, t: Try, r: QuotaReservation, isLast: bool, sender: Sender, includeUsage: bool,
               inspect: Option<string -> Inspection>)
    returns (outcome: Option<Result<(), GatewayError>>, end: End, ghost consumed: seq<Event>)
    requires service.Valid() && sender.sent == []
    requires r == service.ReservationOf(request, route, AttemptOf(t, NO_END))
    requires r.reservationId !in l.reservations && r.reservationId !in held
    requires service.store.Contents() == l.(reservations := l.reservations[r.reservationId := r])
    requires service.quota.counter != null ==> t.counterAnswer.Ok?
    requires service.quota.counterReservations == if service.quota.counter == null then held
                                                  else held[r.reservationId := t.counterAnswer.value]
    modifies service.store`reservations, service.store`usage, service.quota`lost, service.quota`counterReservations,
             service.quota.counter, sender
    ensures service.Valid() && service.quota.counterReservations == held
    ensures service.quota.lost == old(service.quota.lost) +
                                  Q.One(service.quota.counter != null && t.released.Err?, t.counterAnswer)
    ensures var retry := t.opening.NotOpened? && Retryable(t.opening.error) && !isLast;
            && outcome == (if retry then None
                           else Some(if t.opening.Opened? then Ok(()) else Err(Provider(t.opening.error))))
            && service.store.Contents() ==
               if retry then l
               else GatewayService.FirstMetered(l, service.MeteredAs(request, route, AttemptOf(t, end)))
    ensures if t.opening.Opened?
            then Consumed(t.opening.upstream, sender.accepts, request.promptTokens, includeUsage, inspect, sender.sent,
                          end, consumed)
            else sender.sent == []
  {
    hide Consumed;
    end, consumed := NO_END, [];
    if t.opening.Opened? {
      end, consumed := Consume(t.opening.upstream, sender, request.promptTokens, includeUsage, inspect);
    }
    var settled := service.Settle(l, held, request, route, AttemptOf(t, end), r, isLast);
    outcome := match settled
               case None => None
               case Some(Ok(_)) => Some(Ok(()))
               case Some(Err(error)) => Some(Err(error));
  }

  /** Whether a reservation is granted has nothing to do with what is streamed later. */
  lemma GrantedForAnyEnd(service: GatewayService, l: Ledger, request: Request, route: ModelRoute, t: Try, end: End,
                         end': End)
    ensures var a, a' := AttemptOf(t, end), AttemptOf(t, end');
            && service.ReservationOf(request, route, a) == service.ReservationOf(request, route, a')
            && (service.Granted(l, request, route, a) <==> service.Granted(l, request, route, a'))
            && service.RefusalOf(l, request, route, a) == service.RefusalOf(l, request, route, a')
            && service.Loss(l, request, route, a) == service.Loss(l, request, route, a')
  {}

  /** What a granted try loses is what giving its key back loses. */
  lemma LossOfGranted(service: GatewayService, l: Ledger, request: Request, route: ModelRoute, attempt: Attempt)
    requires service.Granted(l, request, route, attempt)
    ensures service.Loss(l, request, route, attempt) ==
            Q.One(route.provider in service.providers && service.quota.counter != null && attempt.released.Err?,
                  attempt.counterAnswer)
    ensures service.quota.counter != null ==> attempt.counterAnswer.Ok?
    ensures service.ReservationOf(request, route, attempt).reservationId == attempt.reservationId
  {}

  /** One turn of the loop; it returns `None` to go on to the next route. */
  method TryStream(service: GatewayService, request: Request, route: ModelRoute, t: Try, isLast: bool, sender: Sender,
                   includeUsage: bool, inspect: Option<string -> Inspection>)
    returns (outcome: Option<Result<(), GatewayError>>, end: End, ghost consumed: seq<Event>)
    requires service.Valid() && sender.sent == []
    requires t.reservationId !in service.store.reservations && t.reservationId !in service.quota.counterReservations
    modifies service.store`reservations, service.store`usage, service.quota`lost, service.quota`counterReservations,
             service.quota.counter, sender
    ensures service.Valid()
    ensures service.Turned(old(service.Kept()), service.Kept(), request, route, AttemptOf(t, end), isLast)
    ensures var l := old(service.Kept()).ledger;
            if service.FallsThrough(l, request, route, AttemptOf(t, end), isLast) then
              outcome.None? && !isLast && sender.sent == []
            else
              && outcome.Some? && Answers(service, l, request, route, t, end, outcome.value)
              && if Opens(service, l, request, route, t, end)
                 then Consumed(t.opening.upstream, sender.accepts, request.promptTokens, includeUsage, inspect,
                               sender.sent, end, consumed)
                 else sender.sent == []
  {
    hide Consumed, Q.Balanced, GatewayService.ReservationOf, GatewayService.Granted, GatewayService.RefusalOf;
    hide GatewayService.Loss, GatewayService.MeteredAs;
    end, consumed := NO_END, [];
    ghost var l := service.store.Contents();
    var reserved := service.TryReserve(request, route, AttemptOf(t, NO_END));
    if reserved.Err? {
      return Some(Err(Quota(reserved.error))), end, consumed;
    }
    LossOfGranted(service, l, request, route, AttemptOf(t, NO_END));
    if route.provider !in service.providers {
      return Some(Err(Provider(ProviderError.Unavailable))), end, consumed;
    }
    outcome, end, consumed := Serve(service, l, old(service.quota.counterReservations),
                                    request, route, t, reserved.value, isLast, sender, includeUsage, inspect);
    GrantedForAnyEnd(service, l, request, route, t, end, NO_END);
  }

  /** Attempts that fell through have nothing to do with the consumer. */
  lemma ForAnyEnd(service: GatewayService, b: Books, b': Books, request: Request, routes: seq<ModelRoute>,
                  tries: seq<Try>, n: nat, end: End, end': End)
    requires n <= |routes| == |tries|
    requires service.FellThrough(b, b', request, routes, AttemptsOf(tries, end), n)
    ensures service.FellThrough(b, b', request, routes, AttemptsOf(tries, end'), n)
  {
    var attempts, attempts' := AttemptsOf(tries, end), AttemptsOf(tries, end');
    forall i | 0 <= i < n ensures attempts[i] == attempts'[i] {
      assert service.FallsThrough(b.ledger, request, routes[i], attempts[i], i + 1 == |routes|);
    }
    var losses, losses' := service.Losses(b.ledger, request, routes, attempts),
                           service.Losses(b.ledger, request, routes, attempts');
    assert losses[..n] == losses'[..n];
  }

  /** How the call ends, case by case: refused, by a provider that is not registered, or by the provider's answer. The
      request is then metered with what the consumer ended with, or with the prompt's bound if no stream was opened. */
  ghost predicate StreamEndsInFull(service: GatewayService, l: Ledger, l': Ledger, request: Request,
                                   routes: seq<ModelRoute>, tries: seq<Try>, last: nat, end: End,
                                   result: Result<(), GatewayError>)
    requires last < |routes| == |tries|
  {
    var route, t := routes[last], tries[last];
    && (forall i :: 0 <= i < last ==> tries[i].opening.NotOpened? && IsTransient(tries[i].opening.error))
    && if !service.Granted(l, request, route, AttemptOf(t, end)) then
         l' == l && result.Err? && result.error.Quota?
       else if route.provider !in service.providers then
         l'.usage == l.usage && result == Err(Provider(ProviderError.Unavailable))
       else
         && l' == l.(usage := l'.usage) && l'.usage.Keys == l.usage.Keys + {request.id}
         && (forall q :: q in l.usage ==> l'.usage[q] == l.usage[q])
         && (request.id !in l.usage ==>
               var e := l'.usage[request.id];
               && e.requestId == request.id && e.tenantId == request.principal.tenantId
               && e.principalId == request.principal.principalId && e.route == route
               && e.occurredAt == t.finishedAt
               && if t.opening.Opened? then e.usage == end.usage && e.status == end.status
                  else e.usage == TokenUsage(request.promptTokens, 0, true) && e.status == ProviderFailed)
         && match t.opening
            case Opened(_) => result == Ok(())
            case NotOpened(error) =>
              result == Err(Provider(error)) && (last + 1 < |routes| ==> !IsTransient(error))
  }

  lemma StreamEndedInFull(service: GatewayService, b: Books, b': Books, request: Request, routes: seq<ModelRoute>,
                          tries: seq<Try>, last: nat, end: End, result: Result<(), GatewayError>)
    requires last < |routes| == |tries|
    requires service.Ended(b, b', request, routes, AttemptsOf(tries, end), last)
    requires Answers(service, b.ledger, request, routes[last], tries[last], end, result)
    ensures StreamEndsInFull(service, b.ledger, b'.ledger, request, routes, tries, last, end, result)
  {
    hide GatewayService.Granted, GatewayService.Ended, GatewayService.RefusalOf;
    var attempts := AttemptsOf(tries, end);
    var granted := service.Granted(b.ledger, request, routes[last], attempts[last]);
    var called := granted && routes[last].provider in service.providers;
    var returned := if !called || result.Err? then Err(result.error) else Ok(end.usage);
    service.EndedInFull(b, b', request, routes, attempts, last, returned, called);
    forall i | 0 <= i < last ensures tries[i].opening.NotOpened? && IsTransient(tries[i].opening.error) {
      assert attempts[i] == AttemptOf(tries[i], end) && attempts[i].reply.Failed?;
    }
  }

  /** The whole call, up to the end of the stream's consumer. `last` is the try it ended with. Whatever upstream, client
      and inspection do, the books end as those of the fallback loop do with the consumer's usage and status as the
      provider's reply. */
  method Stream(service: GatewayService, request: Request, routes: seq<ModelRoute>, tries: seq<Try>, sender: Sender,
                includeUsage: bool, inspect: Option<string -> Inspection>)
    returns (result: Result<(), GatewayError>, last: nat, end: End, ghost consumed: seq<Event>)
    requires service.Valid() && |routes| == |tries| && sender.sent == []
    requires forall i :: 0 <= i < |tries| ==>
               tries[i].reservationId !in service.store.reservations &&
               tries[i].reservationId !in service.quota.counterReservations
    modifies service.store`reservations, service.store`usage, service.quota`lost, service.quota`counterReservations,
             service.quota.counter, sender
    ensures service.Valid()
    ensures routes == [] ==>
              result == Err(Provider(ProviderError.Unavailable)) && sender.sent == [] &&
              service.Kept() == old(service.Kept())
    ensures routes != [] ==>
              && last < |routes|
              && service.Ended(old(service.Kept()), service.Kept(), request, routes, AttemptsOf(tries, end), last)
              && Answers(service, old(service.Kept()).ledger, request, routes[last], tries[last], end, result)
              && StreamEndsInFull(service, old(service.Kept()).ledger, service.Kept().ledger, request, routes, tries,
                                  last, end, result)
              && if Opens(service, old(service.Kept()).ledger, request, routes[last], tries[last], end)
                 then Consumed(tries[last].opening.upstream, sender.accepts, request.promptTokens, includeUsage,
                               inspect, sender.sent, end, consumed)
                 else sender.sent == []
  {
    hide GatewayService.FallsThrough, GatewayService.Turned, GatewayService.Ended, AddUp, Answers, Consumed, Opens;
    hide StreamEndsInFull;
    last, end, consumed := 0, NO_END, [];
    result := Err(Provider(ProviderError.Unavailable));
    if routes == [] {
      return;
    }
    ghost var b := service.Kept();
    service.NoTurn(b, request, routes, AttemptsOf(tries, end));
    for i := 0 to |routes|
      invariant service.Valid() && i < |routes| && sender.sent == []
      invariant service.FellThrough(b, service.Kept(), request, routes, AttemptsOf(tries, end), i)
    {
      last := i;
      ghost var before, end' := service.Kept(), end;
      var outcome;
      outcome, end, consumed := TryStream(service, request, routes[i], tries[i], i + 1 == |routes|, sender,
                                          includeUsage, inspect);
      ForAnyEnd(service, b, before, request, routes, tries, i, end', end);
      service.OneTurn(b, before, service.Kept(), request, routes, AttemptsOf(tries, end), i);
      if outcome.Some? {
        StreamEndedInFull(service, b, service.Kept(), request, routes, tries, last, end, outcome.value);
        return outcome.value, last, end, consumed;
      }
    }
  }
}

/** A streaming call is a run of the metering protocol that ends in one metering step with its consumer's usage. */
module StreamRuns {
  import opened Types
  import opened Ledgers
  import opened Reconciliation
  import opened FallbackRuns
  import opened StreamCalls
  import G = Gateways
  import S = Streams

  /** What a call leaves in the books once its stream has been consumed. */
  lemma StreamLeavesNothing(service: G.GatewayService, b: G.Books, b': G.Books, request: G.Request,
                            routes: seq<ModelRoute>, tries: seq<Try>, end: End, last: nat)
    requires last < |routes| == |tries| && routes[last].provider in service.providers
    requires tries[last].reservationId !in b.ledger.reservations
    requires service.Ended(b, b', request, routes, AttemptsOf(tries, end), last)
    ensures b'.held == b.held && b'.ledger.reservations == b.ledger.reservations
    ensures request.id in b.ledger.usage ==> b'.ledger.usage == b.ledger.usage
    ensures request.id !in b.ledger.usage && Opens(service, b.ledger, request, routes[last], tries[last], end) ==>
              && request.id in b'.ledger.usage
              && b'.ledger.usage[request.id].usage == end.usage && b'.ledger.usage[request.id].status == end.status
  {
    G.NothingLeaksIff(service, b.ledger, b.held, request, routes[last], AttemptOf(tries[last], end));
  }

  /** Whatever upstream and client do, and whatever other requests, the reconciler and the clock do in between, a
      streaming call of registered providers leaves no reservation behind and takes one metering step, with the
      consumer's usage and status if the last try opened a stream; it takes none if it was refused a reservation. */
  lemma StreamAmongOthers(s: System, service: G.GatewayService, request: G.Request, routes: seq<ModelRoute>,
                          tries: seq<Try>, end: End, gaps: seq<Gap>)
    requires 0 < |routes| == |tries| == |gaps|
    requires forall route :: route in routes ==> route.provider in service.providers
    requires CallMayRun(s, service, request, routes, AttemptsOf(tries, end), gaps, 0)
    ensures var attempts := AttemptsOf(tries, end);
            var steps := CallAmong(s, service, request, routes, attempts, gaps, 0);
            var last := LastAttempt(s, service, request, routes, attempts, gaps, 0);
            && LegalRun(s, steps) && NothingHeld(After(s, steps), request.id)
            && (CallHonest(s, service, request, routes, attempts, gaps, 0) ==> HonestRun(s, steps))
            && MetersOf(steps, request.id) ==
               if LastCourse(s, service, request, routes, attempts, gaps, 0).Refused? then []
               else if tries[last].opening.Opened? then [Meter(request.id, end.usage, end.status)]
               else [Meter(request.id, TokenUsage(request.promptTokens, 0, true), ProviderFailed)]
  {
    hide CallMayRun, CallAmong, CallHonest, LastAttempt, LastCourse, LegalRun, HonestRun, MetersOf, NothingHeld;
    var attempts := AttemptsOf(tries, end);
    CallAmongOthers(s, service, request, routes, attempts, gaps, 0);
    CallMetersOnce(s, service, request, routes, attempts, gaps, 0);
    LastIsRegistered(s, service, request, routes, attempts, gaps, 0);
    var last := LastAttempt(s, service, request, routes, attempts, gaps, 0);
    assert attempts[last] == AttemptOf(tries[last], end);
  }

  lemma {:induction false} LastIsRegistered(s: System, service: G.GatewayService, request: G.Request,
                                            routes: seq<ModelRoute>, attempts: seq<G.Attempt>, gaps: seq<Gap>, i: nat)
    requires i < |routes| == |attempts| == |gaps| && CallMayRun(s, service, request, routes, attempts, gaps, i)
    requires forall route :: route in routes ==> route.provider in service.providers
    ensures var course := LastCourse(s, service, request, routes, attempts, gaps, i);
            course.Refused? || course.Settled?
    decreases |routes| - i
  {
    var isLast := i + 1 == |routes|;
    assert routes[i] in routes;
    if CourseOf(After(s, gaps[i].before), service, request, routes[i], attempts[i], isLast).GoesOn? {
      LastIsRegistered(After(s, AttemptAmong(s, service, request, routes[i], attempts[i], gaps[i], isLast)), service,
                       request, routes, attempts, gaps, i + 1);
    }
  }

  /** A stream whose provider reports no usage is metered by its length, which stays within the reservation iff the text
      that was read is no longer, in bytes, than the tokens reserved for it. */
  lemma StreamIsModestIff(service: G.GatewayService, request: G.Request, route: ModelRoute, t: Try, end: End,
                          consumed: seq<S.Event>)
    requires t.opening.Opened? && end.usage == S.Metered(consumed, request.promptTokens)
    requires S.LastUsage(consumed).None?
    requires request.promptTokens + request.completionTokens < U64_MODULUS
    requires request.promptTokens + |S.Text(consumed)| < U64_MODULUS
    ensures Modest(service, request, route, AttemptOf(t, end)) <==> |S.Text(consumed)| <= request.completionTokens
  {}
}
