/** A call of the fallback loop is a run of the metering protocol, so that what holds in every run holds for it. */
module FallbackRuns {
  import opened Types
  import opened Ledgers
  import opened Reconciliation
  import G = Gateways

  /** The steps one attempt takes. A call that ends with its reservation still held is like a crash. */
  ghost function AttemptSteps(service: G.GatewayService, l: Ledger, request: G.Request, route: ModelRoute,
                              attempt: G.Attempt, isLast: bool): seq<Step>
  {
    var start := [Tick(attempt.startedAt)];
    var reserve := [StartAttempt(request.id, service.ReservationOf(request, route, attempt))];
    var event := service.MeteredAs(request, route, attempt);
    if !service.quota.ReachesStore(attempt.counterAnswer, attempt.startedAt) then start
    else if !service.Granted(l, request, route, attempt) then start + reserve
    else if route.provider !in service.providers then start + reserve + [Crash(request.id)]
    else
      start + reserve + [Tick(attempt.finishedAt)] +
      if service.FallsThrough(l, request, route, attempt, isLast) then [ReleaseForRetry(request.id)]
      else [Meter(request.id, event.usage, event.status)]
  }

  /** The attempt may be made in this state: its time has come and its identifier is new. */
  ghost predicate Ready(s: System, service: G.GatewayService, request: G.Request, route: ModelRoute,
                        attempt: G.Attempt)
  {
    && s.now <= attempt.startedAt <= attempt.finishedAt
    && FreshId(s, attempt.reservationId)
    && Attributed(s.ledger, service.ReservationOf(request, route, attempt))
    && (request.id in s.tasks ==> s.tasks[request.id].Retrying?)
  }

  lemma {:induction false} RunsCompose(s: System, a: seq<Step>, b: seq<Step>)
    requires LegalRun(s, a) && LegalRun(After(s, a), b)
    ensures LegalRun(s, a + b) && After(s, a + b) == After(After(s, a), b)
    ensures HonestRun(s, a) && HonestRun(After(s, a), b) ==> HonestRun(s, a + b)
    decreases |a|
  {
    if a == [] {
      assert a + b == b;
    } else {
      assert (a + b)[1..] == a[1..] + b;
      RunsCompose(Next(s, a[0]), a[1..], b);
    }
  }

  lemma OneStep(s: System, step: Step)
    requires Enabled(s, step)
    ensures LegalRun(s, [step]) && After(s, [step]) == Next(s, step)
    ensures Honest(s, step) ==> HonestRun(s, [step])
  {
    assert LegalRun(Next(s, step), []);
  }

  /** Another step at the end of a run. */
  lemma AndThen(s: System, a: seq<Step>, step: Step)
    requires LegalRun(s, a) && Enabled(After(s, a), step)
    ensures LegalRun(s, a + [step]) && After(s, a + [step]) == Next(After(s, a), step)
    ensures HonestRun(s, a) && Honest(After(s, a), step) ==> HonestRun(s, a + [step])
  {
    OneStep(After(s, a), step);
    RunsCompose(s, a, [step]);
  }

  /** What is metered is at most what was reserved. */
  ghost predicate Modest(service: G.GatewayService, request: G.Request, route: ModelRoute, attempt: G.Attempt) {
    service.MeteredAs(request, route, attempt).usage.TotalTokens() <=
    service.ReservationOf(request, route, attempt).ReservedTokens()
  }

  /** Only usage that a provider reports can exceed what was reserved. */
  lemma FailuresAreModest(service: G.GatewayService, request: G.Request, route: ModelRoute, attempt: G.Attempt)
    requires attempt.reply.Failed? && request.promptTokens + request.completionTokens < U64_MODULUS
    ensures Modest(service, request, route, attempt)
  {}

  /** The reservation of an attempt that got one, in the system. */
  ghost function Reserved(s: System, service: G.GatewayService, request: G.Request, route: ModelRoute,
                          attempt: G.Attempt, now: int): System
  {
    var r := service.ReservationOf(request, route, attempt);
    s.(now := now, ledger := s.ledger.(reservations := s.ledger.reservations[r.reservationId := r]),
       tasks := s.tasks[request.id := Holding(r)])
  }

  lemma Reserving(s: System, service: G.GatewayService, request: G.Request, route: ModelRoute, attempt: G.Attempt)
    requires Ready(s, service, request, route, attempt)
    ensures var r := service.ReservationOf(request, route, attempt);
            var steps := [Tick(attempt.startedAt)] + [StartAttempt(request.id, r)];
            && LegalRun(s, steps) && HonestRun(s, steps)
            && (service.Granted(s.ledger, request, route, attempt) ==>
                  After(s, steps) == Reserved(s, service, request, route, attempt, attempt.startedAt))
            && (service.quota.ReachesStore(attempt.counterAnswer, attempt.startedAt) ==>
                  service.Granted(s.ledger, request, route, attempt) || After(s, steps).ledger == s.ledger)
  {
    OneStep(s, Tick(attempt.startedAt));
    AndThen(s, [Tick(attempt.startedAt)], StartAttempt(request.id, service.ReservationOf(request, route, attempt)));
  }

  /** An attempt is a run to the ledger that the loop leaves; one that falls through only moves the clock. */
  lemma AttemptIsARun(s: System, service: G.GatewayService, request: G.Request, route: ModelRoute,
                      attempt: G.Attempt, isLast: bool)
    requires Ready(s, service, request, route, attempt)
    ensures var steps := AttemptSteps(service, s.ledger, request, route, attempt, isLast);
            && LegalRun(s, steps)
            && (service.FallsThrough(s.ledger, request, route, attempt, isLast) ==>
                  After(s, steps) == s.(now := attempt.finishedAt, tasks := s.tasks[request.id := Retrying]))
            && (!service.FallsThrough(s.ledger, request, route, attempt, isLast) ==>
                  After(s, steps).ledger == service.LedgerAfter(s.ledger, request, route, attempt))
            && (Modest(service, request, route, attempt) ==> HonestRun(s, steps))
            && (service.FallsThrough(s.ledger, request, route, attempt, isLast) ==> HonestRun(s, steps))
  {
    var l := s.ledger;
    var r := service.ReservationOf(request, route, attempt);
    var start := [Tick(attempt.startedAt)] + [StartAttempt(request.id, r)];
    OneStep(s, Tick(attempt.startedAt));
    if service.quota.ReachesStore(attempt.counterAnswer, attempt.startedAt) {
      Reserving(s, service, request, route, attempt);
      if service.Granted(l, request, route, attempt) {
        if route.provider !in service.providers {
          AndThen(s, start, Crash(request.id));
        } else {
          AndThen(s, start, Tick(attempt.finishedAt));
          Settling(s, service, request, route, attempt, isLast);
          var event := service.MeteredAs(request, route, attempt);
          AndThen(s, start + [Tick(attempt.finishedAt)],
                  if service.FallsThrough(l, request, route, attempt, isLast) then ReleaseForRetry(request.id)
                  else Meter(request.id, event.usage, event.status));
        }
      }
    }
  }

  lemma Settling(s: System, service: G.GatewayService, request: G.Request, route: ModelRoute, attempt: G.Attempt,
                 isLast: bool)
    requires Ready(s, service, request, route, attempt) && service.Granted(s.ledger, request, route, attempt)
    requires route.provider in service.providers
    ensures var held := Reserved(s, service, request, route, attempt, attempt.finishedAt);
            var event := service.MeteredAs(request, route, attempt);
            && Next(held, ReleaseForRetry(request.id)) ==
               s.(now := attempt.finishedAt, tasks := s.tasks[request.id := Retrying])
            && (!service.FallsThrough(s.ledger, request, route, attempt, isLast) ==>
                  Next(held, Meter(request.id, event.usage, event.status)).ledger ==
                  service.LedgerAfter(s.ledger, request, route, attempt))
  {
    G.GatewayService.BackToOriginal(s.ledger, service.ReservationOf(request, route, attempt),
                                    service.MeteredAs(request, route, attempt));
  }

  // ---------------------------------------------------------------- whole calls

  /** The steps of a call that ends with attempt `last`, from attempt `i` on. */
  ghost function CallSteps(service: G.GatewayService, l: Ledger, request: G.Request, routes: seq<ModelRoute>,
                           attempts: seq<G.Attempt>, last: nat, i: nat): seq<Step>
    requires i <= last < |routes| == |attempts|
    decreases last - i
  {
    AttemptSteps(service, l, request, routes[i], attempts[i], i + 1 == |routes|) +
    if i == last then [] else CallSteps(service, l, request, routes, attempts, last, i + 1)
  }

  /** Identifiers are new, times ascend, and the principal is attributed for every route. */
  ghost predicate AllReady(s: System, service: G.GatewayService, request: G.Request, routes: seq<ModelRoute>,
                           attempts: seq<G.Attempt>, i: nat)
    requires |routes| == |attempts|
  {
    && (forall k :: i <= k < |attempts| ==> Ready(s, service, request, routes[k], attempts[k]))
    && (forall j, k :: i <= j < k < |attempts| ==> attempts[j].finishedAt <= attempts[k].startedAt)
  }

  /** A call as `Execute` leaves it is a run of the protocol to the ledger it leaves, honest if what is metered at its
      end is at most what was reserved. */
  lemma {:induction false} CallIsARun(s: System, service: G.GatewayService, request: G.Request,
                                      routes: seq<ModelRoute>, attempts: seq<G.Attempt>, last: nat, i: nat)
    requires i <= last < |routes| == |attempts|
    requires forall k :: i <= k < last ==>
               service.FallsThrough(s.ledger, request, routes[k], attempts[k], k + 1 == |routes|)
    requires !service.FallsThrough(s.ledger, request, routes[last], attempts[last], last + 1 == |routes|)
    requires AllReady(s, service, request, routes, attempts, i)
    ensures var steps := CallSteps(service, s.ledger, request, routes, attempts, last, i);
            && LegalRun(s, steps)
            && After(s, steps).ledger == service.LedgerAfter(s.ledger, request, routes[last], attempts[last])
            && (Modest(service, request, routes[last], attempts[last]) ==> HonestRun(s, steps))
    decreases last - i
  {
    var first := AttemptSteps(service, s.ledger, request, routes[i], attempts[i], i + 1 == |routes|);
    AttemptIsARun(s, service, request, routes[i], attempts[i], i + 1 == |routes|);
    if i == last {
      assert first + [] == first;
    } else {
      var s' := After(s, first);
      StillReady(s, s', service, request, routes, attempts, i);
      CallIsARun(s', service, request, routes, attempts, last, i + 1);
      RunsCompose(s, first, CallSteps(service, s.ledger, request, routes, attempts, last, i + 1));
    }
  }

  lemma StillReady(s: System, s': System, service: G.GatewayService, request: G.Request, routes: seq<ModelRoute>,
                   attempts: seq<G.Attempt>, i: nat)
    requires i < |routes| == |attempts| && AllReady(s, service, request, routes, attempts, i)
    requires s' == s.(now := attempts[i].finishedAt, tasks := s.tasks[request.id := Retrying])
    ensures AllReady(s', service, request, routes, attempts, i + 1)
  {
    forall k | i < k < |attempts|
      ensures Ready(s', service, request, routes[k], attempts[k])
    {
      assert Ready(s, service, request, routes[k], attempts[k]);
      assert forall q :: Holds(s', q) ==> Holds(s, q) && s'.tasks[q] == s.tasks[q];
    }
  }

  /** So a call keeps every quota, from whatever state an honest run has reached. */
  lemma CallKeepsInvariant(s: System, service: G.GatewayService, request: G.Request, routes: seq<ModelRoute>,
                           attempts: seq<G.Attempt>, last: nat)
    requires Invariant(s) && last < |routes| == |attempts|
    requires forall k :: 0 <= k < last ==>
               service.FallsThrough(s.ledger, request, routes[k], attempts[k], k + 1 == |routes|)
    requires !service.FallsThrough(s.ledger, request, routes[last], attempts[last], last + 1 == |routes|)
    requires AllReady(s, service, request, routes, attempts, 0)
    requires Modest(service, request, routes[last], attempts[last])
    ensures var steps := CallSteps(service, s.ledger, request, routes, attempts, last, 0);
            LegalRun(s, steps) && Invariant(After(s, steps)) &&
            After(s, steps).ledger == service.LedgerAfter(s.ledger, request, routes[last], attempts[last])
  {
    CallIsARun(s, service, request, routes, attempts, last, 0);
    EveryRunKeepsInvariant(s, CallSteps(service, s.ledger, request, routes, attempts, last, 0));
  }

  // ---------------------------------------------------------------- calls among others

  /** What others do while a call is under way: before an attempt reserves, and until its outcome is recorded. */
  datatype Gap = Gap(before: seq<Step>, during: seq<Step>)

  /** The step is not one of request `q`. */
  predicate Foreign(step: Step, q: Uuid) {
    match step
    case StartAttempt(p, _) => p != q
    case ReleaseForRetry(p) => p != q
    case Meter(p, _, _) => p != q
    case Crash(p) => p != q
    case _ => true
  }

  /** Whatever of request `q` is in the ledger, its task holds. */
  ghost predicate OnlyHeld(s: System, q: Uuid) {
    forall id :: id in s.ledger.reservations && s.ledger.reservations[id].requestId == q ==>
      Holds(s, q) && s.tasks[q].r.reservationId == id
  }

  /** Others neither give request `q` a reservation nor take its task away. */
  lemma ForeignStep(s: System, step: Step, q: Uuid)
    requires Enabled(s, step) && Foreign(step, q) && OnlyHeld(s, q)
    ensures OnlyHeld(Next(s, step), q)
    ensures q in Next(s, step).tasks <==> q in s.tasks
    ensures q in s.tasks ==> Next(s, step).tasks[q] == s.tasks[q]
    ensures q in s.ledger.usage ==> q in Next(s, step).ledger.usage
  {}

  ghost predicate Undisturbed(s: System, steps: seq<Step>, q: Uuid) {
    LegalRun(s, steps) && (forall step :: step in steps ==> Foreign(step, q)) && OnlyHeld(s, q)
  }

  lemma {:induction false} ForeignRun(s: System, steps: seq<Step>, q: Uuid)
    requires Undisturbed(s, steps, q)
    ensures OnlyHeld(After(s, steps), q)
    ensures q in After(s, steps).tasks <==> q in s.tasks
    ensures q in s.tasks ==> After(s, steps).tasks[q] == s.tasks[q]
    ensures q in s.ledger.usage ==> q in After(s, steps).ledger.usage
    decreases |steps|
  {
    if steps != [] {
      ForeignStep(s, steps[0], q);
      ForeignRun(Next(s, steps[0]), steps[1..], q);
    }
  }

  /** How an attempt that starts in state `s` goes on. */
  datatype Course = Refused | Unregistered | GoesOn | Settled

  ghost function CourseOf(s: System, service: G.GatewayService, request: G.Request, route: ModelRoute,
                          attempt: G.Attempt, isLast: bool): Course
  {
    if !service.Granted(s.ledger, request, route, attempt) then Refused
    else if route.provider !in service.providers then Unregistered
    else if service.FallsThrough(s.ledger, request, route, attempt, isLast) then GoesOn
    else Settled
  }

  /** The steps of one attempt with those of the others in between. */
  ghost function AttemptAmong(s: System, service: G.GatewayService, request: G.Request, route: ModelRoute,
                              attempt: G.Attempt, gap: Gap, isLast: bool): seq<Step>
    requires LegalRun(s, gap.before)
  {
    var event := service.MeteredAs(request, route, attempt);
    var reserve := [StartAttempt(request.id, service.ReservationOf(request, route, attempt))];
    if !service.quota.ReachesStore(attempt.counterAnswer, attempt.startedAt) then gap.before
    else
      match CourseOf(After(s, gap.before), service, request, route, attempt, isLast)
      case Refused => gap.before + reserve
      case Unregistered => gap.before + reserve + [Crash(request.id)]
      case GoesOn => gap.before + reserve + gap.during + [ReleaseForRetry(request.id)]
      case Settled => gap.before + reserve + gap.during + [Meter(request.id, event.usage, event.status)]
  }

  ghost predicate NothingHeld(s: System, q: Uuid) {
    forall id :: id in s.ledger.reservations ==> s.ledger.reservations[id].requestId != q
  }

  /** The state in which an attempt has just been granted its reservation. */
  ghost function Granted(s: System, service: G.GatewayService, request: G.Request, route: ModelRoute,
                         attempt: G.Attempt): System
  {
    Reserved(s, service, request, route, attempt, attempt.startedAt)
  }

  /** The others take legal steps of their own, nothing of the request is held, and the attempt's times and identifier
      are as `Ready` has them. */
  ghost predicate MayRun(s: System, service: G.GatewayService, request: G.Request, route: ModelRoute,
                         attempt: G.Attempt, gap: Gap)
  {
    && NothingHeld(s, request.id) && (request.id in s.tasks ==> s.tasks[request.id].Retrying?)
    && Undisturbed(s, gap.before, request.id)
    && var s1 := After(s, gap.before);
    && s1.now == attempt.startedAt && Ready(s1, service, request, route, attempt)
    && (service.Granted(s1.ledger, request, route, attempt) && route.provider in service.providers ==>
          && Undisturbed(Granted(s1, service, request, route, attempt), gap.during, request.id)
          && After(Granted(s1, service, request, route, attempt), gap.during).now == attempt.finishedAt)
  }

  ghost predicate OthersHonest(s: System, service: G.GatewayService, request: G.Request, route: ModelRoute,
                               attempt: G.Attempt, gap: Gap)
    requires MayRun(s, service, request, route, attempt, gap)
  {
    var s1 := After(s, gap.before);
    && HonestRun(s, gap.before)
    && (service.Granted(s1.ledger, request, route, attempt) && route.provider in service.providers ==>
          HonestRun(Granted(s1, service, request, route, attempt), gap.during))
  }

  lemma StartsAmong(s: System, service: G.GatewayService, request: G.Request, route: ModelRoute, attempt: G.Attempt,
                    gap: Gap)
    requires MayRun(s, service, request, route, attempt, gap)
    ensures var s1 := After(s, gap.before);
            var start := StartAttempt(request.id, service.ReservationOf(request, route, attempt));
            && NothingHeld(s1, request.id) && (request.id in s1.tasks ==> s1.tasks[request.id].Retrying?)
            && Enabled(s1, start)
            && (service.Granted(s1.ledger, request, route, attempt) ==>
                  Next(s1, start) == Granted(s1, service, request, route, attempt))
            && (!service.Granted(s1.ledger, request, route, attempt) &&
                service.quota.ReachesStore(attempt.counterAnswer, attempt.startedAt) ==>
                  Next(s1, start).ledger == s1.ledger)
  {
    ForeignRun(s, gap.before, request.id);
  }

  lemma StartedAmong(s: System, service: G.GatewayService, request: G.Request, route: ModelRoute, attempt: G.Attempt,
                     gap: Gap)
    requires MayRun(s, service, request, route, attempt, gap)
    ensures var s1 := After(s, gap.before);
            var steps := gap.before + [StartAttempt(request.id, service.ReservationOf(request, route, attempt))];
            && LegalRun(s, steps) && (OthersHonest(s, service, request, route, attempt, gap) ==> HonestRun(s, steps))
            && (service.Granted(s1.ledger, request, route, attempt) ==>
                  After(s, steps) == Granted(s1, service, request, route, attempt))
            && (!service.Granted(s1.ledger, request, route, attempt) &&
                service.quota.ReachesStore(attempt.counterAnswer, attempt.startedAt) ==>
                  After(s, steps).ledger == s1.ledger)
  {
    StartsAmong(s, service, request, route, attempt, gap);
    AndThen(s, gap.before, StartAttempt(request.id, service.ReservationOf(request, route, attempt)));
  }

  /** Whatever the others do in the meantime, the reservation is still the task's to release or to meter. */
  lemma HeldAmong(s1: System, service: G.GatewayService, request: G.Request, route: ModelRoute, attempt: G.Attempt,
                  during: seq<Step>)
    requires NothingHeld(s1, request.id)
    requires Undisturbed(Granted(s1, service, request, route, attempt), during, request.id)
    ensures var s3 := After(Granted(s1, service, request, route, attempt), during);
            && OnlyHeld(s3, request.id) && Holds(s3, request.id)
            && s3.tasks[request.id].r == service.ReservationOf(request, route, attempt)
  {
    ForeignRun(Granted(s1, service, request, route, attempt), during, request.id);
  }

  /** The end of an attempt leaves nothing of its request in the ledger. */
  lemma EndsEmpty(s: System, q: Uuid, step: Step)
    requires OnlyHeld(s, q) && Holds(s, q)
    requires step == ReleaseForRetry(q) || (step.Meter? && step.requestId == q && s.tasks[q].r.requestId == q)
    ensures NothingHeld(Next(s, step), q)
    ensures step.Meter? ==> q in Next(s, step).ledger.usage
    ensures Next(s, step).tasks[q] == if step.Meter? then Done else Retrying
  {}

  /** How an attempt among others ends. */
  ghost predicate EndsWell(s: System, s': System, service: G.GatewayService, request: G.Request, route: ModelRoute,
                           attempt: G.Attempt, gap: Gap, isLast: bool)
    requires LegalRun(s, gap.before)
  {
    var course := CourseOf(After(s, gap.before), service, request, route, attempt, isLast);
    && (NothingHeld(s', request.id) <==> !course.Unregistered?)
    && (course.Settled? ==> request.id in s'.ledger.usage)
    && (course.GoesOn? ==> request.id in s'.tasks && s'.tasks[request.id].Retrying?)
  }

  lemma AttemptAmongOthers(s: System, service: G.GatewayService, request: G.Request, route: ModelRoute,
                           attempt: G.Attempt, gap: Gap, isLast: bool)
    requires MayRun(s, service, request, route, attempt, gap)
    ensures var steps := AttemptAmong(s, service, request, route, attempt, gap, isLast);
            && LegalRun(s, steps)
            && EndsWell(s, After(s, steps), service, request, route, attempt, gap, isLast)
            && (OthersHonest(s, service, request, route, attempt, gap) &&
                (Modest(service, request, route, attempt) ||
                 CourseOf(After(s, gap.before), service, request, route, attempt, isLast).GoesOn?) ==>
                  HonestRun(s, steps))
  {
    var s1 := After(s, gap.before);
    StartsAmong(s, service, request, route, attempt, gap);
    StartedAmong(s, service, request, route, attempt, gap);
    if service.Granted(s1.ledger, request, route, attempt) {
      var r := service.ReservationOf(request, route, attempt);
      var start := gap.before + [StartAttempt(request.id, r)];
      if route.provider !in service.providers {
        AndThen(s, start, Crash(request.id));
        assert attempt.reservationId in Granted(s1, service, request, route, attempt).ledger.reservations;
      } else {
        var event := service.MeteredAs(request, route, attempt);
        var end := if service.FallsThrough(s1.ledger, request, route, attempt, isLast) then ReleaseForRetry(request.id)
                   else Meter(request.id, event.usage, event.status);
        HeldAmong(s1, service, request, route, attempt, gap.during);
        RunsCompose(s, start, gap.during);
        AndThen(s, start + gap.during, end);
        EndsEmpty(After(s, start + gap.during), request.id, end);
      }
    }
  }

  // ---------------------------------------------------------------- whole calls among others

  ghost predicate CallMayRun(s: System, service: G.GatewayService, request: G.Request, routes: seq<ModelRoute>,
                             attempts: seq<G.Attempt>, gaps: seq<Gap>, i: nat)
    requires i < |routes| == |attempts| == |gaps|
    decreases |routes| - i
  {
    && MayRun(s, service, request, routes[i], attempts[i], gaps[i])
    && var isLast := i + 1 == |routes|;
    && (CourseOf(After(s, gaps[i].before), service, request, routes[i], attempts[i], isLast).GoesOn? ==>
          && LegalRun(s, AttemptAmong(s, service, request, routes[i], attempts[i], gaps[i], isLast))
          && CallMayRun(After(s, AttemptAmong(s, service, request, routes[i], attempts[i], gaps[i], isLast)), service,
                        request, routes, attempts, gaps, i + 1))
  }

  /** The steps of a call from attempt `i` on, with those of the others in between. */
  ghost function CallAmong(s: System, service: G.GatewayService, request: G.Request, routes: seq<ModelRoute>,
                           attempts: seq<G.Attempt>, gaps: seq<Gap>, i: nat): seq<Step>
    requires i < |routes| == |attempts| == |gaps| && CallMayRun(s, service, request, routes, attempts, gaps, i)
    decreases |routes| - i
  {
    var isLast := i + 1 == |routes|;
    var steps := AttemptAmong(s, service, request, routes[i], attempts[i], gaps[i], isLast);
    if CourseOf(After(s, gaps[i].before), service, request, routes[i], attempts[i], isLast).GoesOn? then
      steps + CallAmong(After(s, steps), service, request, routes, attempts, gaps, i + 1)
    else steps
  }

  /** All that others do is honest, and all that the call meters is at most what it reserved. */
  ghost predicate CallHonest(s: System, service: G.GatewayService, request: G.Request, routes: seq<ModelRoute>,
                             attempts: seq<G.Attempt>, gaps: seq<Gap>, i: nat)
    requires i < |routes| == |attempts| == |gaps| && CallMayRun(s, service, request, routes, attempts, gaps, i)
    decreases |routes| - i
  {
    var isLast := i + 1 == |routes|;
    && OthersHonest(s, service, request, routes[i], attempts[i], gaps[i])
    && if !CourseOf(After(s, gaps[i].before), service, request, routes[i], attempts[i], isLast).GoesOn? then
         Modest(service, request, routes[i], attempts[i])
       else
         CallHonest(After(s, AttemptAmong(s, service, request, routes[i], attempts[i], gaps[i], isLast)), service,
                    request, routes, attempts, gaps, i + 1)
  }

  /** How the attempt with which the call ends goes. */
  ghost function LastCourse(s: System, service: G.GatewayService, request: G.Request, routes: seq<ModelRoute>,
                            attempts: seq<G.Attempt>, gaps: seq<Gap>, i: nat): Course
    requires i < |routes| == |attempts| == |gaps| && CallMayRun(s, service, request, routes, attempts, gaps, i)
    decreases |routes| - i
  {
    var isLast := i + 1 == |routes|;
    var course := CourseOf(After(s, gaps[i].before), service, request, routes[i], attempts[i], isLast);
    if course.GoesOn? then
      LastCourse(After(s, AttemptAmong(s, service, request, routes[i], attempts[i], gaps[i], isLast)), service, request,
                 routes, attempts, gaps, i + 1)
    else course
  }

  /** Whatever other requests, the reconciler and the clock do in between, a call is a legal run. It leaves no
      reservation of its request behind iff it did not end with a provider that is not registered, its request is
      metered if its last reservation was granted and answered for, and it is honest if the others are and nothing is
      metered above its reservation. */
  lemma {:induction false} CallAmongOthers(s: System, service: G.GatewayService, request: G.Request,
                                           routes: seq<ModelRoute>, attempts: seq<G.Attempt>, gaps: seq<Gap>, i: nat)
    requires i < |routes| == |attempts| == |gaps| && CallMayRun(s, service, request, routes, attempts, gaps, i)
    ensures var steps := CallAmong(s, service, request, routes, attempts, gaps, i);
            && LegalRun(s, steps)
            && (NothingHeld(After(s, steps), request.id) <==>
                  !LastCourse(s, service, request, routes, attempts, gaps, i).Unregistered?)
            && (LastCourse(s, service, request, routes, attempts, gaps, i).Settled? ==>
                  request.id in After(s, steps).ledger.usage)
            && (CallHonest(s, service, request, routes, attempts, gaps, i) ==> HonestRun(s, steps))
    decreases |routes| - i
  {
    var isLast := i + 1 == |routes|;
    var steps := AttemptAmong(s, service, request, routes[i], attempts[i], gaps[i], isLast);
    AttemptAmongOthers(s, service, request, routes[i], attempts[i], gaps[i], isLast);
    if CourseOf(After(s, gaps[i].before), service, request, routes[i], attempts[i], isLast).GoesOn? {
      var s' := After(s, steps);
      CallAmongOthers(s', service, request, routes, attempts, gaps, i + 1);
      RunsCompose(s, steps, CallAmong(s', service, request, routes, attempts, gaps, i + 1));
    }
  }

  // ---------------------------------------------------------------- a call meters once

  /** The metering steps of request `q`. */
  function MetersOf(steps: seq<Step>, q: Uuid): seq<Step> {
    if steps == [] then []
    else (if steps[0].Meter? && steps[0].requestId == q then [steps[0]] else []) + MetersOf(steps[1..], q)
  }

  lemma {:induction false} MetersAppend(a: seq<Step>, b: seq<Step>, q: Uuid)
    ensures MetersOf(a + b, q) == MetersOf(a, q) + MetersOf(b, q)
  {
    if a == [] {
      assert a + b == b;
    } else {
      assert (a + b)[1..] == a[1..] + b;
      MetersAppend(a[1..], b, q);
      var first := if a[0].Meter? && a[0].requestId == q then [a[0]] else [];
      assert first + (MetersOf(a[1..], q) + MetersOf(b, q)) == (first + MetersOf(a[1..], q)) + MetersOf(b, q);
    }
  }

  lemma {:induction false} ForeignMeters(steps: seq<Step>, q: Uuid)
    requires forall step :: step in steps ==> Foreign(step, q)
    ensures MetersOf(steps, q) == []
  {
    if steps != [] {
      assert steps[0] in steps;
      ForeignMeters(steps[1..], q);
    }
  }

  lemma MetersOfOne(step: Step, q: Uuid)
    ensures MetersOf([step], q) == if step.Meter? && step.requestId == q then [step] else []
  {
    assert [step][1..] == [];
  }

  /** The step with which an attempt is metered. */
  function MeterOf(service: G.GatewayService, request: G.Request, route: ModelRoute, attempt: G.Attempt): Step {
    var event := service.MeteredAs(request, route, attempt);
    Meter(request.id, event.usage, event.status)
  }

  lemma AttemptMeters(s: System, service: G.GatewayService, request: G.Request, route: ModelRoute,
                      attempt: G.Attempt, gap: Gap, isLast: bool)
    requires MayRun(s, service, request, route, attempt, gap)
    ensures MetersOf(AttemptAmong(s, service, request, route, attempt, gap, isLast), request.id) ==
            if CourseOf(After(s, gap.before), service, request, route, attempt, isLast).Settled?
            then [MeterOf(service, request, route, attempt)] else []
  {
    var q, s1 := request.id, After(s, gap.before);
    var reserve := StartAttempt(q, service.ReservationOf(request, route, attempt));
    ForeignMeters(gap.before, q);
    MetersOfOne(reserve, q);
    MetersAppend(gap.before, [reserve], q);
    match CourseOf(s1, service, request, route, attempt, isLast) {
      case Refused =>
      case Unregistered =>
        MetersOfOne(Crash(q), q);
        MetersAppend(gap.before + [reserve], [Crash(q)], q);
      case _ =>
        var end := if service.FallsThrough(s1.ledger, request, route, attempt, isLast) then ReleaseForRetry(q)
                   else MeterOf(service, request, route, attempt);
        ForeignMeters(gap.during, q);
        MetersOfOne(end, q);
        MetersAppend(gap.before + [reserve], gap.during, q);
        MetersAppend(gap.before + [reserve] + gap.during, [end], q);
    }
  }

  /** The attempt with which the call ends. */
  ghost function LastAttempt(s: System, service: G.GatewayService, request: G.Request, routes: seq<ModelRoute>,
                             attempts: seq<G.Attempt>, gaps: seq<Gap>, i: nat): (last: nat)
    requires i < |routes| == |attempts| == |gaps| && CallMayRun(s, service, request, routes, attempts, gaps, i)
    ensures i <= last < |routes|
    decreases |routes| - i
  {
    var isLast := i + 1 == |routes|;
    if CourseOf(After(s, gaps[i].before), service, request, routes[i], attempts[i], isLast).GoesOn? then
      LastAttempt(After(s, AttemptAmong(s, service, request, routes[i], attempts[i], gaps[i], isLast)), service,
                  request, routes, attempts, gaps, i + 1)
    else i
  }

  /** A call among others meters its request once, with the outcome of its last attempt, if that was granted by a
      registered provider, and never otherwise. */
  lemma {:induction false} CallMetersOnce(s: System, service: G.GatewayService, request: G.Request,
                                          routes: seq<ModelRoute>, attempts: seq<G.Attempt>, gaps: seq<Gap>, i: nat)
    requires i < |routes| == |attempts| == |gaps| && CallMayRun(s, service, request, routes, attempts, gaps, i)
    ensures var last := LastAttempt(s, service, request, routes, attempts, gaps, i);
            MetersOf(CallAmong(s, service, request, routes, attempts, gaps, i), request.id) ==
            if LastCourse(s, service, request, routes, attempts, gaps, i).Settled?
            then [MeterOf(service, request, routes[last], attempts[last])] else []
    decreases |routes| - i
  {
    var isLast := i + 1 == |routes|;
    var steps := AttemptAmong(s, service, request, routes[i], attempts[i], gaps[i], isLast);
    AttemptMeters(s, service, request, routes[i], attempts[i], gaps[i], isLast);
    if CourseOf(After(s, gaps[i].before), service, request, routes[i], attempts[i], isLast).GoesOn? {
      var s' := After(s, steps);
      CallMetersOnce(s', service, request, routes, attempts, gaps, i + 1);
      MetersAppend(steps, CallAmong(s', service, request, routes, attempts, gaps, i + 1), request.id);
    }
  }
}
