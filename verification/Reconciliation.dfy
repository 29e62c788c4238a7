/** Runs of the metering protocol: any number of request tasks and the background reconciler, interleaved. */
module Reconciliation {
  import opened Types
  import opened MapSums
  import opened Ledgers
  import opened MemoryStores

  /** A request between attempts, holding a reservation, or done (answered, or lost in a crash). */
  datatype Task = Retrying | Holding(r: QuotaReservation) | Done

  /** `snapshot` is what the reconciler read and has not worked off. */
  datatype System = System(
    ledger: Ledger,
    now: int,
    tasks: map<Uuid, Task>,
    snapshot: set<QuotaReservation>)

  datatype Step =
    | Tick(later: int)
    | StartAttempt(requestId: Uuid, r: QuotaReservation)
    | ReleaseForRetry(requestId: Uuid)
    | Meter(requestId: Uuid, usage: TokenUsage, status: UsageStatus)
    | Crash(requestId: Uuid)
    | TakeSnapshot
    | Reconcile(r: QuotaReservation)

  predicate Holds(s: System, q: Uuid) {
    q in s.tasks && s.tasks[q].Holding?
  }

  ghost predicate FreshId(s: System, id: Uuid) {
    && id !in s.ledger.reservations
    && (forall r :: r in s.snapshot ==> r.reservationId != id)
    && (forall q :: Holds(s, q) ==> s.tasks[q].r.reservationId != id)
  }

  ghost predicate Enabled(s: System, step: Step) {
    match step
    case Tick(later) => s.now <= later
    case StartAttempt(q, r) =>
      (q in s.tasks ==> s.tasks[q].Retrying?) && r.requestId == q && Attributed(s.ledger, r) &&
      FreshId(s, r.reservationId)
    case ReleaseForRetry(q) => Holds(s, q)
    case Meter(q, _, _) => Holds(s, q)
    case Crash(q) => q in s.tasks
    case TakeSnapshot => true
    case Reconcile(r) => r in s.snapshot
  }

  /** The conservative charge of `reconcile_expired`. */
  function FullCharge(r: QuotaReservation): TokenUsage {
    TokenUsage(r.promptTokens, r.completionTokens, true)
  }

  ghost function Next(s: System, step: Step): System
    requires Enabled(s, step)
  {
    match step
    case Tick(later) => s.(now := later)
    case StartAttempt(q, r) =>
      var (l, granted) := Reserve(s.ledger, r, s.now);
      s.(ledger := l, tasks := s.tasks[q := if granted == Ok(true) then Holding(r) else Done])
    case ReleaseForRetry(q) =>
      s.(ledger := Release(s.ledger, s.tasks[q].r.reservationId), tasks := s.tasks[q := Retrying])
    case Meter(q, usage, status) =>
      var r := s.tasks[q].r;
      s.(ledger := Finalize(s.ledger, r.reservationId, EventFor(r, usage, status, s.now)),
         tasks := s.tasks[q := Done])
    case Crash(q) => s.(tasks := s.tasks[q := Done])
    case TakeSnapshot => s.(snapshot := Expired(s.ledger, s.now).Values)
    case Reconcile(r) =>
      s.(ledger := Finalize(s.ledger, r.reservationId, EventFor(r, FullCharge(r), Interrupted, s.now)),
         snapshot := s.snapshot - {r})
  }

  ghost predicate LegalRun(s: System, steps: seq<Step>)
    decreases |steps|
  {
    steps == [] || (Enabled(s, steps[0]) && LegalRun(Next(s, steps[0]), steps[1..]))
  }

  ghost function After(s: System, steps: seq<Step>): System
    requires LegalRun(s, steps)
    decreases |steps|
  {
    if steps == [] then s else After(Next(s, steps[0]), steps[1..])
  }

  ghost predicate Initial(s: System) {
    s.ledger.reservations == map[] && s.ledger.usage == map[] && s.tasks == map[] && s.snapshot == {}
  }

  // ---------------------------------------------------------------- quotas hold in every run

  /** What quota safety asks of a step: a request is not metered above its reservation, and the reconciler acts
      on a reservation that is still pending or whose request is already metered. */
  predicate Honest(s: System, step: Step) {
    match step
    case Meter(q, usage, _) => Holds(s, q) ==> usage.TotalTokens() <= s.tasks[q].r.ReservedTokens()
    case Reconcile(r) => r.reservationId in s.ledger.reservations || r.requestId in s.ledger.usage
    case _ => true
  }

  ghost predicate HonestRun(s: System, steps: seq<Step>)
    requires LegalRun(s, steps)
    decreases |steps|
  {
    steps == [] || (Honest(s, steps[0]) && HonestRun(Next(s, steps[0]), steps[1..]))
  }

  /** A reservation the store knows by its identifier is this one. */
  predicate Known(s: System, r: QuotaReservation) {
    r.reservationId in s.ledger.reservations ==> s.ledger.reservations[r.reservationId] == r
  }

  ghost predicate LedgerInvariant(s: System) {
    && WithinLimits(s.ledger, s.now)
    && (forall q :: q in s.ledger.usage ==> s.ledger.usage[q].occurredAt <= s.now)
    && (forall id :: id in s.ledger.reservations ==>
          s.ledger.reservations[id].reservationId == id && Attributed(s.ledger, s.ledger.reservations[id]))
  }

  /** What the tasks and the reconciler hold fits the ledger: a reservation in somebody's hands is pending, or its
      request has been metered. */
  ghost predicate HoldersInvariant(s: System) {
    && (forall r :: r in s.snapshot ==> Attributed(s.ledger, r) && Known(s, r))
    && (forall q :: Holds(s, q) ==>
          && s.tasks[q].r.requestId == q && Attributed(s.ledger, s.tasks[q].r) && Known(s, s.tasks[q].r)
          && (s.tasks[q].r.reservationId in s.ledger.reservations || q in s.ledger.usage))
    && (forall q, r :: Holds(s, q) && r in s.snapshot && r.reservationId == s.tasks[q].r.reservationId ==>
          r == s.tasks[q].r)
    && (forall q, p :: Holds(s, q) && Holds(s, p) && s.tasks[q].r.reservationId == s.tasks[p].r.reservationId ==>
          q == p)
  }

  ghost predicate Invariant(s: System) {
    LedgerInvariant(s) && HoldersInvariant(s)
  }

  lemma AttributionIsFixed(s: System, step: Step, r: QuotaReservation)
    requires Enabled(s, step)
    ensures Attributed(s.ledger, r) <==> Attributed(Next(s, step).ledger, r)
  {
    var l, l' := s.ledger, Next(s, step).ledger;
    assert l'.tenants == l.tenants && l'.keys == l.keys;
  }

  lemma StepKeepsLimits(s: System, step: Step)
    requires Invariant(s) && Enabled(s, step) && Honest(s, step)
    ensures WithinLimits(Next(s, step).ledger, Next(s, step).now)
  {
    match step {
      case Tick(later) => LaterKeepsLimits(s.ledger, s.now, later);
      case StartAttempt(q, r) => ReserveKeepsLimits(s.ledger, r, s.now);
      case ReleaseForRetry(q) => ReleaseKeepsLimits(s.ledger, s.tasks[q].r.reservationId, s.now);
      case Meter(q, usage, status) => FinalizeKeepsLimits(s.ledger, s.tasks[q].r, usage, status, s.now);
      case Crash(q) =>
      case TakeSnapshot =>
      case Reconcile(r) => FinalizeKeepsLimits(s.ledger, r, FullCharge(r), Interrupted, s.now);
    }
  }

  lemma StepKeepsLedger(s: System, step: Step)
    requires Invariant(s) && Enabled(s, step) && Honest(s, step)
    ensures LedgerInvariant(Next(s, step))
  {
    StepKeepsLimits(s, step);
    var s' := Next(s, step);
    forall r ensures Attributed(s.ledger, r) <==> Attributed(s'.ledger, r) {
      AttributionIsFixed(s, step, r);
    }
  }

  lemma StartKeepsHolders(s: System, step: Step)
    requires Invariant(s) && Enabled(s, step) && step.StartAttempt?
    ensures HoldersInvariant(Next(s, step))
  {
    hide Attributed, WithinLimits;
    forall r ensures Attributed(s.ledger, r) <==> Attributed(Next(s, step).ledger, r) {
      AttributionIsFixed(s, step, r);
    }
  }

  lemma TaskStepKeepsHolders(s: System, step: Step)
    requires Invariant(s) && Enabled(s, step) && (step.ReleaseForRetry? || step.Meter? || step.Crash?)
    ensures HoldersInvariant(Next(s, step))
  {
    hide Attributed, WithinLimits;
    forall r ensures Attributed(s.ledger, r) <==> Attributed(Next(s, step).ledger, r) {
      AttributionIsFixed(s, step, r);
    }
  }

  lemma OtherStepKeepsHolders(s: System, step: Step)
    requires Invariant(s) && Enabled(s, step) && (step.Tick? || step.TakeSnapshot? || step.Reconcile?)
    ensures HoldersInvariant(Next(s, step))
  {
    forall r ensures Attributed(s.ledger, r) <==> Attributed(Next(s, step).ledger, r) {
      AttributionIsFixed(s, step, r);
    }
  }

  lemma StepKeepsInvariant(s: System, step: Step)
    requires Invariant(s) && Enabled(s, step) && Honest(s, step)
    ensures Invariant(Next(s, step))
  {
    StepKeepsLedger(s, step);
    if step.StartAttempt? {
      StartKeepsHolders(s, step);
    } else if step.ReleaseForRetry? || step.Meter? || step.Crash? {
      TaskStepKeepsHolders(s, step);
    } else {
      OtherStepKeepsHolders(s, step);
    }
  }

  lemma {:induction false} EveryRunKeepsInvariant(s: System, steps: seq<Step>)
    requires Invariant(s) && LegalRun(s, steps) && HonestRun(s, steps)
    ensures Invariant(After(s, steps))
    decreases |steps|
  {
    if steps != [] {
      StepKeepsInvariant(s, steps[0]);
      EveryRunKeepsInvariant(Next(s, steps[0]), steps[1..]);
    }
  }

  lemma {:induction false} TenantsAndKeysAreFixed(s: System, steps: seq<Step>)
    requires LegalRun(s, steps)
    ensures After(s, steps).ledger.tenants == s.ledger.tenants && After(s, steps).ledger.keys == s.ledger.keys
    decreases |steps|
  {
    if steps != [] {
      TenantsAndKeysAreFixed(Next(s, steps[0]), steps[1..]);
    }
  }

  /** In every honest run, whatever was metered since midnight plus whatever is still reserved stays within each
      limit. */
  lemma QuotaSafety(s: System, steps: seq<Step>)
    requires Initial(s) && LegalRun(s, steps) && HonestRun(s, steps)
    ensures WithinLimits(After(s, steps).ledger, After(s, steps).now)
    ensures UniqueKeyIds(s.ledger.keys) ==> DailyLimitsHold(After(s, steps).ledger, After(s, steps).now)
  {
    EveryRunKeepsInvariant(s, steps);
    TenantsAndKeysAreFixed(s, steps);
    if UniqueKeyIds(s.ledger.keys) {
      WithinLimitsInFull(After(s, steps).ledger, After(s, steps).now);
    }
  }

  // ---------------------------------------------------------------- a request is metered at most once

  /** The entry of request `q`, if it has one. */
  function UsageOf(l: Ledger, q: Uuid): Option<UsageEvent> {
    if q in l.usage then Some(l.usage[q]) else None
  }

  /** How many steps of a run change the entry of request `q`. */
  ghost function Writes(s: System, steps: seq<Step>, q: Uuid): nat
    requires LegalRun(s, steps)
    decreases |steps|
  {
    if steps == [] then 0
    else
      var s' := Next(s, steps[0]);
      (if UsageOf(s'.ledger, q) != UsageOf(s.ledger, q) then 1 else 0) + Writes(s', steps[1..], q)
  }

  /** In every run, honest or not, an entry is written once, when the request has none, and never changes. */
  lemma {:induction false} MeteredAtMostOnce(s: System, steps: seq<Step>, q: Uuid)
    requires LegalRun(s, steps)
    ensures q in s.ledger.usage ==>
              UsageOf(After(s, steps).ledger, q) == UsageOf(s.ledger, q) && Writes(s, steps, q) == 0
    ensures q !in s.ledger.usage ==>
              Writes(s, steps, q) == if q in After(s, steps).ledger.usage then 1 else 0
    decreases |steps|
  {
    if steps != [] {
      MeteredAtMostOnce(Next(s, steps[0]), steps[1..], q);
    }
  }

  /** Finalizing a request that is already metered adds no charge to anyone. */
  lemma FinalizeAgainAddsNothing(l: Ledger, reservationId: Uuid, e: UsageEvent, owner: QuotaOwner, now: int)
    requires e.requestId in l.usage
    ensures Finalize(l, reservationId, e).usage == l.usage
    ensures Charge(Finalize(l, reservationId, e), owner, now) <= Charge(l, owner, now)
  {
    SumDropKey(l.reservations, PendingWeight(owner), reservationId);
  }

  // ---------------------------------------------------------------- one tick of the reconciler

  ghost function ReconcileOne(l: Ledger, r: QuotaReservation, now: int): Ledger {
    Finalize(l, r.reservationId, EventFor(r, FullCharge(r), Interrupted, now))
  }

  ghost function ReconcileAll(l: Ledger, expired: seq<QuotaReservation>, now: int): Ledger {
    if expired == [] then l
    else ReconcileOne(ReconcileAll(l, expired[..|expired| - 1], now), expired[|expired| - 1], now)
  }

  /** Distinct reservations that are all still pending. */
  ghost predicate AllPending(l: Ledger, expired: seq<QuotaReservation>) {
    && (forall r :: r in expired ==> r.reservationId in l.reservations && l.reservations[r.reservationId] == r)
    && (forall i, j :: 0 <= i < j < |expired| ==> expired[i].reservationId != expired[j].reservationId)
  }

  ghost predicate AllAttributed(l: Ledger, expired: seq<QuotaReservation>) {
    forall r :: r in expired ==> Attributed(l, r)
  }

  function Ids(expired: seq<QuotaReservation>): set<Uuid> {
    set r | r in expired :: r.reservationId
  }

  /** Working off any reservations removes them and no others. */
  lemma {:induction false} WorkingOffRemoves(l: Ledger, expired: seq<QuotaReservation>, now: int)
    ensures var l' := ReconcileAll(l, expired, now);
            l' == l.(reservations := l.reservations - Ids(expired), usage := l'.usage)
  {
    if expired == [] {
      assert l.reservations - {} == l.reservations;
    } else {
      var front, r := expired[..|expired| - 1], expired[|expired| - 1];
      assert expired == front + [r];
      WorkingOffRemoves(l, front, now);
      assert Ids(expired) == Ids(front) + {r.reservationId};
      assert l.reservations - Ids(front) - {r.reservationId} == l.reservations - Ids(expired);
    }
  }

  /** If they are all still pending, every quota is kept. */
  lemma {:induction false} WorkingOffPending(l: Ledger, expired: seq<QuotaReservation>, now: int)
    requires WithinLimits(l, now) && AllPending(l, expired) && AllAttributed(l, expired)
    ensures WithinLimits(ReconcileAll(l, expired, now), now)
  {
    if expired != [] {
      var front, r := expired[..|expired| - 1], expired[|expired| - 1];
      assert expired == front + [r];
      assert forall x :: x in front ==> x in expired;
      WorkingOffPending(l, front, now);
      WorkingOffRemoves(l, front, now);
      StillPending(l, ReconcileAll(l, front, now), expired);
      FinalizeKeepsLimits(ReconcileAll(l, front, now), r, FullCharge(r), Interrupted, now);
    }
  }

  lemma StillPending(l: Ledger, m: Ledger, expired: seq<QuotaReservation>)
    requires AllPending(l, expired) && AllAttributed(l, expired) && expired != []
    requires m == l.(reservations := l.reservations - Ids(expired[..|expired| - 1]), usage := m.usage)
    ensures var r := expired[|expired| - 1];
            r.reservationId in m.reservations && m.reservations[r.reservationId] == r && Attributed(m, r)
  {
    var r := expired[|expired| - 1];
    assert r in expired;
    assert r.reservationId !in Ids(expired[..|expired| - 1]);
    assert HomeTenant(m, r.owner) == HomeTenant(l, r.owner);
  }

  /** It keeps what was metered and meters the other requests in full, once each. */
  lemma {:induction false} WorkingOffMeters(l: Ledger, expired: seq<QuotaReservation>, now: int, q: Uuid)
    ensures var l' := ReconcileAll(l, expired, now);
            && (q in l.usage ==> UsageOf(l', q) == UsageOf(l, q))
            && (q !in l.usage ==> (q in l'.usage <==> exists r :: r in expired && r.requestId == q))
            && (q !in l.usage && q in l'.usage ==>
                  exists r :: r in expired && r.requestId == q &&
                              l'.usage[q] == EventFor(r, FullCharge(r), Interrupted, now))
  {
    if expired != [] {
      var front, r := expired[..|expired| - 1], expired[|expired| - 1];
      assert expired == front + [r];
      assert forall x :: x in expired <==> x in front || x == r;
      WorkingOffMeters(l, front, now, q);
    }
  }

  /** The request is charged all that was reserved for it, as an estimate. */
  predicate IsChargedInFull(r: QuotaReservation, e: UsageEvent, now: int) {
    && e.requestId == r.requestId && e.tenantId == r.tenantId && e.principalId == r.principalId && e.route == r.route
    && e.usage.promptTokens == r.promptTokens && e.usage.completionTokens == r.completionTokens && e.usage.estimated
    && e.status == Interrupted && e.occurredAt == now
  }

  /** The event is that of a pending reservation that is due. */
  ghost predicate IsChargedFor(l: Ledger, id: Uuid, e: UsageEvent, now: int) {
    id in l.reservations && l.reservations[id].expiresAt <= now && IsChargedInFull(l.reservations[id], e, now)
  }

  /** Of the reservations just those remain whose time has not come; the request of each of the others is metered, and
      what is metered newly is charged in full. */
  ghost predicate ReconciledInFull(l: Ledger, l': Ledger, now: int) {
    && l'.tenants == l.tenants && l'.keys == l.keys
    && (forall id :: id in l'.reservations <==> id in l.reservations && now < l.reservations[id].expiresAt)
    && (forall id :: id in l'.reservations ==> l'.reservations[id] == l.reservations[id])
    && (forall q :: q in l.usage ==> q in l'.usage && l'.usage[q] == l.usage[q])
    && (forall id :: id in l.reservations && l.reservations[id].expiresAt <= now ==>
          l.reservations[id].requestId in l'.usage)
    && (forall q :: q in l'.usage && q !in l.usage ==>
          l'.usage[q].requestId == q && exists id :: IsChargedFor(l, id, l'.usage[q], now))
  }

  /** What is worked off was due, and all that was due is worked off. */
  lemma DueAreWorkedOff(l: Ledger, expired: seq<QuotaReservation>, now: int, id: Uuid)
    requires AllPending(l, expired) && Expired(ReconcileAll(l, expired, now), now) == map[]
    requires forall r :: r in expired ==> r.expiresAt <= now
    ensures id in Ids(expired) <==> id in l.reservations && l.reservations[id].expiresAt <= now
    ensures id in Ids(expired) ==> l.reservations[id] in expired
  {
    hide ReconcileAll;
    WorkingOffRemoves(l, expired, now);
    if id in Ids(expired) {
      var r :| r in expired && r.reservationId == id;
      assert l.reservations[r.reservationId] == r;
    } else {
      assert id !in Expired(ReconcileAll(l, expired, now), now);
    }
  }

  lemma TickInFull(l: Ledger, expired: seq<QuotaReservation>, now: int)
    requires AllPending(l, expired) && Expired(ReconcileAll(l, expired, now), now) == map[]
    requires forall r :: r in expired ==> r.expiresAt <= now
    ensures ReconciledInFull(l, ReconcileAll(l, expired, now), now)
  {
    hide ReconcileAll, Ids, Expired, IsChargedFor, AllPending;
    var l' := ReconcileAll(l, expired, now);
    WorkingOffRemoves(l, expired, now);
    forall id
      ensures id in Ids(expired) <==> id in l.reservations && l.reservations[id].expiresAt <= now
      ensures id in Ids(expired) ==> l.reservations[id] in expired && l.reservations[id].requestId in l'.usage
    {
      DueAreWorkedOff(l, expired, now, id);
      if id in Ids(expired) {
        WorkingOffMeters(l, expired, now, l.reservations[id].requestId);
      }
    }
    forall q
      ensures q in l.usage ==> q in l'.usage && l'.usage[q] == l.usage[q]
      ensures q !in l.usage && q in l'.usage ==>
                l'.usage[q].requestId == q && exists id :: IsChargedFor(l, id, l'.usage[q], now)
    {
      ChargedForOne(l, expired, now, q);
    }
  }

  lemma ChargedForOne(l: Ledger, expired: seq<QuotaReservation>, now: int, q: Uuid)
    requires AllPending(l, expired) && forall r :: r in expired ==> r.expiresAt <= now
    ensures var l' := ReconcileAll(l, expired, now);
            && (q in l.usage ==> q in l'.usage && l'.usage[q] == l.usage[q])
            && (q !in l.usage && q in l'.usage ==>
                  l'.usage[q].requestId == q && exists id :: IsChargedFor(l, id, l'.usage[q], now))
  {
    hide ReconcileAll;
    var l' := ReconcileAll(l, expired, now);
    WorkingOffMeters(l, expired, now, q);
    if q !in l.usage && q in l'.usage {
      var r :| r in expired && l'.usage[q] == EventFor(r, FullCharge(r), Interrupted, now) && r.requestId == q;
      assert IsChargedFor(l, r.reservationId, l'.usage[q], now);
    }
  }

  /** A tick that nothing interrupts finds every expired reservation, each still pending, and leaves none. */
  method ReconcileExpired(store: MemoryStore, now: int) returns (ghost expired: seq<QuotaReservation>)
    requires store.Valid()
    modifies store`reservations, store`usage
    ensures store.Valid()
    ensures AllPending(old(store.Contents()), expired)
    ensures store.Contents() == ReconcileAll(old(store.Contents()), expired, now)
    ensures Expired(store.Contents(), now) == map[]
    ensures ReconciledInFull(old(store.Contents()), store.Contents(), now)
    ensures AllAttributed(old(store.Contents()), expired) && WithinLimits(old(store.Contents()), now) ==>
              WithinLimits(store.Contents(), now)
  {
    ghost var before := store.Contents();
    var found := store.ExpiredReservations(now);
    assert AllPending(before, found);
    for i := 0 to |found|
      invariant store.Valid()
      invariant store.Contents() == ReconcileAll(before, found[..i], now)
    {
      assert found[..i + 1][..i] == found[..i];
      store.FinalizeUsage(found[i].reservationId, EventFor(found[i], FullCharge(found[i]), Interrupted, now));
    }
    assert found[..|found|] == found;
    if AllAttributed(before, found) && WithinLimits(before, now) {
      WorkingOffPending(before, found, now);
    }
    WorkingOffRemoves(before, found, now);
    forall id | id in before.reservations && before.reservations[id].expiresAt <= now
      ensures id !in store.reservations
    {
      assert before.reservations[id] in found;
    }
    assert Expired(store.Contents(), now) == map[];
    TickInFull(before, found, now);
    expired := found;
  }

  // ---------------------------------------------------------------- why the reconciler must look again

  const SMALL_TENANT: QuotaOwner := Tenant("t")
  const ROUTE: ModelRoute := ModelRoute("p", "m", "u")

  function Sixty(id: Uuid): QuotaReservation {
    QuotaReservation(id, "q", SMALL_TENANT, "t", "user:a", ROUTE, 60, 0, 10)
  }

  const EMPTY: Ledger := Ledger(map["t" := TenantRecord("t", 100)], map[], map[], map[])

  function Holding60(id: Uuid, now: int, snapshot: set<QuotaReservation>): System {
    System(EMPTY.(reservations := map[id := Sixty(id)]), now, map["q" := Holding(Sixty(id))], snapshot)
  }

  /** The first attempt's reservation expires, the reconciler reads it, the attempt is released and retried, and
      then the reconciler charges what it read. */
  function StaleStep(n: nat): Step {
    match n
    case 0 => StartAttempt("q", Sixty("1"))
    case 1 => Tick(10)
    case 2 => TakeSnapshot
    case 3 => ReleaseForRetry("q")
    case 4 => StartAttempt("q", Sixty("2"))
    case _ => Reconcile(Sixty("1"))
  }

  function StaleState(n: nat): System {
    match n
    case 0 => System(EMPTY, 0, map[], {})
    case 1 => Holding60("1", 0, {})
    case 2 => Holding60("1", 10, {})
    case 3 => Holding60("1", 10, {Sixty("1")})
    case 4 => System(EMPTY, 10, map["q" := Retrying], {Sixty("1")})
    case 5 => Holding60("2", 10, {Sixty("1")})
    case _ =>
      var e := EventFor(Sixty("1"), FullCharge(Sixty("1")), Interrupted, 10);
      Holding60("2", 10, {}).(ledger := EMPTY.(reservations := map["2" := Sixty("2")], usage := map["q" := e]))
  }

  function StaleRun(n: nat): seq<Step>
    decreases 6 - n
  {
    if n >= 6 then [] else [StaleStep(n)] + StaleRun(n + 1)
  }

  lemma SixtyIsGranted(id: Uuid, now: int)
    ensures Attributed(EMPTY, Sixty(id))
    ensures Reserve(EMPTY, Sixty(id), now) == (EMPTY.(reservations := map[id := Sixty(id)]), Ok(true))
  {}

  lemma SnapshotOfSixty()
    ensures Expired(StaleState(2).ledger, 10).Values == {Sixty("1")}
  {
    var expired := Expired(StaleState(2).ledger, 10);
    assert expired == map["1" := Sixty("1")];
    assert "1" in expired && expired["1"] == Sixty("1");
  }

  lemma StaleStepIsTaken(n: nat)
    requires n < 6
    ensures Enabled(StaleState(n), StaleStep(n)) && Next(StaleState(n), StaleStep(n)) == StaleState(n + 1)
  {
    var s, s' := StaleState(n), StaleState(n + 1);
    match n {
      case 0 => SixtyIsGranted("1", 0);
      case 1 =>
      case 2 =>
        SnapshotOfSixty();
      case 3 => assert Next(s, StaleStep(n)).ledger == EMPTY;
      case 4 => SixtyIsGranted("2", 10);
      case _ => assert Next(s, StaleStep(n)).ledger == s'.ledger;
    }
  }

  lemma {:induction false} StaleRunIsLegal(n: nat)
    requires n <= 6
    ensures LegalRun(StaleState(n), StaleRun(n)) && After(StaleState(n), StaleRun(n)) == StaleState(6)
    decreases 6 - n
  {
    if n < 6 {
      StaleStepIsTaken(n);
      StaleRunIsLegal(n + 1);
      assert StaleRun(n)[1..] == StaleRun(n + 1);
    }
  }

  /** Without the reconciler's half of honesty a run exceeds the quota: 60 tokens charged and 60 still reserved
      under a limit of 100. */
  lemma StaleReconcileExceedsQuota()
    ensures Initial(StaleState(0)) && LegalRun(StaleState(0), StaleRun(0))
    ensures var s := After(StaleState(0), StaleRun(0));
            Limit(s.ledger, SMALL_TENANT) == 100 && Charge(s.ledger, SMALL_TENANT, s.now) == 120
  {
    StaleRunIsLegal(0);
    var l := StaleState(6).ledger;
    var weight := UsageWeight(SMALL_TENANT, "t", Day(10));
    SumRemove(l.usage, weight, "q");
    SumRemove(l.reservations, PendingWeight(SMALL_TENANT), "2");
    assert l.usage - {"q"} == map[] && l.reservations - {"2"} == map[];
    NotAKeyPrincipal();
  }

  lemma NotAKeyPrincipal()
    ensures !(KEY_PREFIX <= "user:a")
  {
    assert |KEY_PREFIX| > |"user:a"|;
  }
}
