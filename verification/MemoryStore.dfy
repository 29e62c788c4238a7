/** Sums over the values of a map, as the store's iterator chains compute them. */
module MapSums {

  ghost function SumValues<K, V>(m: map<K, V>, weight: V -> nat): nat
    decreases |m|
  {
    if m == map[] then 0
    else
      var k :| k in m;
      weight(m[k]) + SumValues(m - {k}, weight)
  }

  lemma {:induction false} SumRemove<K, V>(m: map<K, V>, weight: V -> nat, k: K)
    requires k in m
    ensures SumValues(m, weight) == weight(m[k]) + SumValues(m - {k}, weight)
    decreases |m|
  {
    var j :| j in m && SumValues(m, weight) == weight(m[j]) + SumValues(m - {j}, weight);
    if j != k {
      SumRemove(m - {j}, weight, k);
      SumRemove(m - {k}, weight, j);
      assert m - {j} - {k} == m - {k} - {j};
    }
  }

  lemma SumInsert<K, V>(m: map<K, V>, weight: V -> nat, k: K, v: V)
    ensures SumValues(m[k := v], weight) == weight(v) + SumValues(m - {k}, weight)
  {
    SumRemove(m[k := v], weight, k);
    assert m[k := v] - {k} == m - {k};
  }

  lemma SumDropKey<K, V>(m: map<K, V>, weight: V -> nat, k: K)
    ensures SumValues(m, weight) == (if k in m then weight(m[k]) else 0) + SumValues(m - {k}, weight)
  {
    if k in m {
      SumRemove(m, weight, k);
    } else {
      assert m - {k} == m;
    }
  }

  lemma {:induction false} SumSame<K, V>(m: map<K, V>, weight: V -> nat, other: V -> nat)
    requires forall k :: k in m ==> weight(m[k]) == other(m[k])
    ensures SumValues(m, weight) == SumValues(m, other)
    decreases |m|
  {
    if m != map[] {
      var k :| k in m;
      SumRemove(m, weight, k);
      SumRemove(m, other, k);
      SumSame(m - {k}, weight, other);
    }
  }

  lemma {:induction false} SumZero<K, V>(m: map<K, V>, weight: V -> nat)
    requires forall k :: k in m ==> weight(m[k]) == 0
    ensures SumValues(m, weight) == 0
    decreases |m|
  {
    if m != map[] {
      var k :| k in m;
      SumRemove(m, weight, k);
      SumZero(m - {k}, weight);
    }
  }
}

/** The state of the in-memory store and what each of its operations does to that state. */
module Ledgers {
  import opened Types
  import opened MapSums

  datatype StoreError = NotFound

  datatype TenantRecord = TenantRecord(id: string, dailyTokenLimit: U64)

  datatype VirtualKeyRecord = VirtualKeyRecord(id: Uuid, tenantId: string, dailyTokenLimit: U64)

  datatype Ledger = Ledger(
    tenants: map<string, TenantRecord>,
    keys: map<string, VirtualKeyRecord>,
    reservations: map<Uuid, QuotaReservation>,
    usage: map<Uuid, UsageEvent>)

  const KEY_PREFIX: string := "virtual-key:"

  /** The filter of `reserve_quota` on metered events. */
  predicate CountsToward(e: UsageEvent, owner: QuotaOwner, tenantId: string, day: int) {
    && e.tenantId == tenantId
    && Day(e.occurredAt) == day
    && match owner
       case Tenant(_) => !(KEY_PREFIX <= e.principalId)
       case VirtualKey(id) => e.principalId == KEY_PREFIX + id
  }

  function UsageWeight(owner: QuotaOwner, tenantId: string, day: int): UsageEvent -> nat {
    (e: UsageEvent) => if CountsToward(e, owner, tenantId, day) then e.usage.TotalTokens() else 0
  }

  function PendingWeight(owner: QuotaOwner): QuotaReservation -> nat {
    (r: QuotaReservation) => if r.owner == owner then r.ReservedTokens() else 0
  }

  ghost function Used(l: Ledger, owner: QuotaOwner, tenantId: string, day: int): nat {
    SumValues(l.usage, UsageWeight(owner, tenantId, day))
  }

  ghost function Pending(l: Ledger, owner: QuotaOwner): nat {
    SumValues(l.reservations, PendingWeight(owner))
  }

  predicate IsKeyPrefix(keys: map<string, VirtualKeyRecord>, prefix: string, id: Uuid) {
    prefix in keys && keys[prefix].id == id
  }

  /** Key identifiers are unique, so looking a key up by identifier has one answer. */
  ghost predicate UniqueKeyIds(keys: map<string, VirtualKeyRecord>) {
    forall p, q :: p in keys && q in keys && keys[p].id == keys[q].id ==> p == q
  }

  ghost function FindKey(keys: map<string, VirtualKeyRecord>, id: Uuid): (r: Option<VirtualKeyRecord>)
    ensures r.Some? ==> exists p :: IsKeyPrefix(keys, p, id) && keys[p] == r.value
    ensures r.None? ==> forall p :: !IsKeyPrefix(keys, p, id)
  {
    if p :| IsKeyPrefix(keys, p, id) then Some(keys[p]) else None
  }

  ghost function LimitOf(l: Ledger, owner: QuotaOwner): Option<U64> {
    match owner
    case Tenant(id) => if id in l.tenants then Some(l.tenants[id].dailyTokenLimit) else None
    case VirtualKey(id) =>
      match FindKey(l.keys, id)
      case Some(key) => Some(key.dailyTokenLimit)
      case None => None
  }

  ghost function Reserve(l: Ledger, r: QuotaReservation, now: int): (Ledger, Result<bool, StoreError>) {
    match LimitOf(l, r.owner)
    case None => (l, Err(NotFound))
    case Some(limit) =>
      var used := LowBits(Used(l, r.owner, r.tenantId, Day(now)));
      var pending := LowBits(Pending(l, r.owner));
      if SaturatingAdd(SaturatingAdd(used, pending), r.ReservedTokens()) > limit then
        (l, Ok(false))
      else
        (l.(reservations := l.reservations[r.reservationId := r]), Ok(true))
  }

  function Finalize(l: Ledger, reservationId: Uuid, e: UsageEvent): Ledger {
    l.(reservations := l.reservations - {reservationId},
       usage := if e.requestId in l.usage then l.usage else l.usage[e.requestId := e])
  }

  function Release(l: Ledger, reservationId: Uuid): Ledger {
    l.(reservations := l.reservations - {reservationId})
  }

  function Expired(l: Ledger, now: int): map<Uuid, QuotaReservation> {
    map id | id in l.reservations && l.reservations[id].expiresAt <= now :: l.reservations[id]
  }

  // ---------------------------------------------------------------- a day's quota, written out

  predicate NamesOwner(principalId: string, owner: QuotaOwner) {
    match owner
    case Tenant(_) => !("virtual-key:" <= principalId)
    case VirtualKey(id) => principalId == "virtual-key:" + id
  }

  /** The tokens of an event metered for the owner in the 86400 seconds from `midnight` on. */
  function MeteredOn(owner: QuotaOwner, tenantId: string, midnight: int): UsageEvent -> nat {
    (e: UsageEvent) =>
      if e.tenantId == tenantId && NamesOwner(e.principalId, owner) && midnight <= e.occurredAt < midnight + 86_400 then
        (e.usage.promptTokens + e.usage.completionTokens) % 0x1_0000_0000_0000_0000
      else 0
  }

  function HeldFor(owner: QuotaOwner): QuotaReservation -> nat {
    (r: QuotaReservation) =>
      if r.owner == owner then (r.promptTokens + r.completionTokens) % 0x1_0000_0000_0000_0000 else 0
  }

  /** `midnight` is the last UTC midnight at `now`. */
  predicate IsMidnightOf(midnight: int, now: int) {
    midnight % 86_400 == 0 && midnight <= now < midnight + 86_400
  }

  predicate HasLimit(l: Ledger, owner: QuotaOwner, limit: nat) {
    match owner
    case Tenant(id) => id in l.tenants && l.tenants[id].dailyTokenLimit == limit
    case VirtualKey(id) => exists p :: p in l.keys && l.keys[p].id == id && l.keys[p].dailyTokenLimit == limit
  }

  lemma CountedSinceMidnight(e: UsageEvent, owner: QuotaOwner, tenantId: string, midnight: int, now: int)
    requires IsMidnightOf(midnight, now)
    ensures UsageWeight(owner, tenantId, Day(now))(e) == MeteredOn(owner, tenantId, midnight)(e)
  {
    assert Day(e.occurredAt) == Day(now) <==> midnight <= e.occurredAt < midnight + 86_400;
  }

  lemma UsedSinceMidnight(l: Ledger, owner: QuotaOwner, tenantId: string, midnight: int, now: int)
    requires IsMidnightOf(midnight, now)
    ensures Used(l, owner, tenantId, Day(now)) == SumValues(l.usage, MeteredOn(owner, tenantId, midnight))
  {
    forall id | id in l.usage
      ensures UsageWeight(owner, tenantId, Day(now))(l.usage[id]) == MeteredOn(owner, tenantId, midnight)(l.usage[id])
    {
      CountedSinceMidnight(l.usage[id], owner, tenantId, midnight, now);
    }
    SumSame(l.usage, UsageWeight(owner, tenantId, Day(now)), MeteredOn(owner, tenantId, midnight));
  }

  lemma PendingIsHeld(l: Ledger, owner: QuotaOwner)
    ensures Pending(l, owner) == SumValues(l.reservations, HeldFor(owner))
  {
    SumSame(l.reservations, PendingWeight(owner), HeldFor(owner));
  }

  lemma LimitIs(l: Ledger, owner: QuotaOwner, limit: nat)
    requires UniqueKeyIds(l.keys) && HasLimit(l, owner, limit)
    ensures LimitOf(l, owner) == Some(limit)
  {
    if owner.VirtualKey? {
      var p :| p in l.keys && l.keys[p].id == owner.keyId && l.keys[p].dailyTokenLimit == limit;
      assert IsKeyPrefix(l.keys, p, owner.keyId);
    }
  }

  lemma LimitIsFound(l: Ledger, owner: QuotaOwner)
    requires LimitOf(l, owner).Some?
    ensures HasLimit(l, owner, LimitOf(l, owner).value)
  {}

  /** What a reservation is answered, in full: not found without a limit; and granted iff what was metered for the owner
      since midnight, what is pending and what is asked for are together at most the limit. */
  ghost predicate GrantedAsMetered(l: Ledger, r: QuotaReservation, now: int, reply: Result<bool, StoreError>) {
    && ((forall limit: nat :: !HasLimit(l, r.owner, limit)) ==> reply == Err(NotFound))
    && forall limit: nat, midnight ::
         HasLimit(l, r.owner, limit) && IsMidnightOf(midnight, now) ==> GrantedWithin(l, r, limit, midnight, reply)
  }

  ghost predicate GrantedWithin(l: Ledger, r: QuotaReservation, limit: nat, midnight: int,
                                reply: Result<bool, StoreError>)
  {
    var used := SumValues(l.usage, MeteredOn(r.owner, r.tenantId, midnight));
    var pending := SumValues(l.reservations, HeldFor(r.owner));
    var asked := (r.promptTokens + r.completionTokens) % 0x1_0000_0000_0000_0000;
    limit < 0xFFFF_FFFF_FFFF_FFFF && used < 0x1_0000_0000_0000_0000 && pending < 0x1_0000_0000_0000_0000 ==>
      reply == Ok(used + pending + asked <= limit)
  }

  lemma ReserveGrantsAsMetered(l: Ledger, r: QuotaReservation, now: int)
    requires UniqueKeyIds(l.keys)
    ensures GrantedAsMetered(l, r, now, Reserve(l, r, now).1)
  {
    hide SumValues;
    if LimitOf(l, r.owner).Some? {
      LimitIsFound(l, r.owner);
    }
    forall limit: nat, midnight | HasLimit(l, r.owner, limit) && IsMidnightOf(midnight, now)
      ensures GrantedWithin(l, r, limit, midnight, Reserve(l, r, now).1)
    {
      LimitIs(l, r.owner, limit);
      UsedSinceMidnight(l, r.owner, r.tenantId, midnight, now);
      PendingIsHeld(l, r.owner);
    }
  }

  // ---------------------------------------------------------------- quota safety

  /** The tenant an owner's requests are metered under. */
  ghost function HomeTenant(l: Ledger, owner: QuotaOwner): string {
    match owner
    case Tenant(id) => id
    case VirtualKey(id) =>
      match FindKey(l.keys, id)
      case Some(key) => key.tenantId
      case None => ""
  }

  /** What an owner has been charged today, together with what it still holds. */
  ghost function Charge(l: Ledger, owner: QuotaOwner, now: int): nat {
    Used(l, owner, HomeTenant(l, owner), Day(now)) + Pending(l, owner)
  }

  ghost function Limit(l: Ledger, owner: QuotaOwner): U64 {
    match LimitOf(l, owner)
    case Some(limit) => limit
    case None => 0
  }

  /** The limit `u64::MAX` is no limit: the saturating sum compared with it never exceeds it. */
  ghost predicate Limited(l: Ledger, owner: QuotaOwner) {
    Limit(l, owner) < U64_MAX
  }

  ghost predicate WithinLimits(l: Ledger, now: int) {
    forall owner :: Limited(l, owner) ==> Charge(l, owner, now) <= Limit(l, owner)
  }

  /** The reservation names its owner the way `QuotaService::reserve` derives it from an authenticated principal. */
  ghost predicate Attributed(l: Ledger, r: QuotaReservation) {
    && r.tenantId == HomeTenant(l, r.owner)
    && match r.owner
       case Tenant(_) => !(KEY_PREFIX <= r.principalId)
       case VirtualKey(id) => r.principalId == KEY_PREFIX + id
  }

  lemma EventChargesItsOwnerOnly(l: Ledger, r: QuotaReservation, usage: TokenUsage, status: UsageStatus,
                                 now: int, owner: QuotaOwner)
    requires Attributed(l, r)
    ensures CountsToward(EventFor(r, usage, status, now), owner, HomeTenant(l, owner), Day(now)) <==> owner == r.owner
  {
    if r.owner.VirtualKey? && owner.VirtualKey? {
      assert (KEY_PREFIX + owner.keyId)[|KEY_PREFIX|..] == owner.keyId;
      assert (KEY_PREFIX + r.owner.keyId)[|KEY_PREFIX|..] == r.owner.keyId;
    }
  }

  /** A reservation is granted exactly when it fits in what its owner has left: no wrap-around and no saturation
      ever decides. */
  lemma GrantedIff(l: Ledger, r: QuotaReservation, now: int)
    requires WithinLimits(l, now) && Attributed(l, r)
    ensures Reserve(l, r, now).1.Err? <==> LimitOf(l, r.owner).None?
    ensures Limited(l, r.owner) && LimitOf(l, r.owner).Some? ==>
              (Reserve(l, r, now).1 == Ok(true) <==>
               Charge(l, r.owner, now) + r.ReservedTokens() <= Limit(l, r.owner))
  {
    var used, pending := Used(l, r.owner, r.tenantId, Day(now)), Pending(l, r.owner);
    if Limited(l, r.owner) {
      assert Charge(l, r.owner, now) == used + pending <= Limit(l, r.owner) < U64_MODULUS;
      assert LowBits(used) == used && LowBits(pending) == pending;
    }
  }

  lemma ReserveKeepsLimits(l: Ledger, r: QuotaReservation, now: int)
    requires WithinLimits(l, now) && Attributed(l, r)
    ensures WithinLimits(Reserve(l, r, now).0, now)
  {
    if Reserve(l, r, now).1 == Ok(true) {
      if Limited(l, r.owner) { GrantedIff(l, r, now); }
      var l' := l.(reservations := l.reservations[r.reservationId := r]);
      assert Reserve(l, r, now).0 == l';
      forall owner | Limited(l', owner) ensures Charge(l', owner, now) <= Limit(l', owner) {
        assert Limited(l, owner);
        SumDropKey(l.reservations, PendingWeight(owner), r.reservationId);
        SumInsert(l.reservations, PendingWeight(owner), r.reservationId, r);
      }
    }
  }

  lemma ReleaseKeepsLimits(l: Ledger, reservationId: Uuid, now: int)
    requires WithinLimits(l, now)
    ensures WithinLimits(Release(l, reservationId), now)
  {
    var l' := Release(l, reservationId);
    forall owner | Limited(l', owner) ensures Charge(l', owner, now) <= Limit(l', owner) {
      assert Limited(l, owner);
      SumDropKey(l.reservations, PendingWeight(owner), reservationId);
    }
  }

  /** The tokens of `r` that finalizing it gives back. */
  function Covered(l: Ledger, r: QuotaReservation): nat {
    if r.reservationId in l.reservations && l.reservations[r.reservationId] == r then r.ReservedTokens() else 0
  }

  lemma FinalizeKeepsLimits(l: Ledger, r: QuotaReservation, usage: TokenUsage, status: UsageStatus, now: int)
    requires WithinLimits(l, now) && Attributed(l, r)
    requires r.requestId in l.usage || usage.TotalTokens() <= Covered(l, r)
    ensures WithinLimits(Finalize(l, r.reservationId, EventFor(r, usage, status, now)), now)
  {
    var e := EventFor(r, usage, status, now);
    var l' := Finalize(l, r.reservationId, e);
    forall owner | Limited(l', owner) ensures Charge(l', owner, now) <= Limit(l', owner) {
      assert Limited(l, owner);
      SumDropKey(l.reservations, PendingWeight(owner), r.reservationId);
      if r.requestId !in l.usage {
        EventChargesItsOwnerOnly(l, r, usage, status, now, owner);
        var weight := UsageWeight(owner, HomeTenant(l, owner), Day(now));
        SumDropKey(l.usage, weight, r.requestId);
        SumInsert(l.usage, weight, r.requestId, e);
      }
    }
  }

  /** What the pending reservation with this identifier, if there is one, holds of the owner's tokens. */
  function Freed(l: Ledger, reservationId: Uuid, owner: QuotaOwner): nat {
    if reservationId in l.reservations && l.reservations[reservationId].owner == owner then
      l.reservations[reservationId].ReservedTokens()
    else 0
  }

  lemma PendingAfterRemoval(l: Ledger, reservationId: Uuid, owner: QuotaOwner)
    ensures SumValues(l.reservations - {reservationId}, PendingWeight(owner)) ==
            Pending(l, owner) - Freed(l, reservationId, owner)
  {
    if reservationId in l.reservations {
      SumRemove(l.reservations, PendingWeight(owner), reservationId);
    } else {
      assert l.reservations - {reservationId} == l.reservations;
    }
  }

  lemma UsedAfterEvent(l: Ledger, r: QuotaReservation, usage: TokenUsage, status: UsageStatus, now: int,
                       owner: QuotaOwner)
    requires Attributed(l, r) && r.requestId !in l.usage
    ensures var weight := UsageWeight(owner, HomeTenant(l, owner), Day(now));
            SumValues(l.usage[r.requestId := EventFor(r, usage, status, now)], weight) ==
            Used(l, owner, HomeTenant(l, owner), Day(now)) + if owner == r.owner then usage.TotalTokens() else 0
  {
    var e, weight := EventFor(r, usage, status, now), UsageWeight(owner, HomeTenant(l, owner), Day(now));
    EventChargesItsOwnerOnly(l, r, usage, status, now, owner);
    assert l.usage - {r.requestId} == l.usage;
    SumInsert(l.usage, weight, r.requestId, e);
  }

  lemma ChargeAfterFinalize(l: Ledger, r: QuotaReservation, usage: TokenUsage, status: UsageStatus, now: int,
                            owner: QuotaOwner)
    requires Attributed(l, r)
    ensures var l' := Finalize(l, r.reservationId, EventFor(r, usage, status, now));
            && Limited(l', owner) == Limited(l, owner) && Limit(l', owner) == Limit(l, owner)
            && Charge(l', owner, now) ==
               Charge(l, owner, now) - Freed(l, r.reservationId, owner) +
               if r.requestId !in l.usage && owner == r.owner then usage.TotalTokens() else 0
  {
    hide SumValues, Freed, CountsToward;
    PendingAfterRemoval(l, r.reservationId, owner);
    if r.requestId !in l.usage {
      UsedAfterEvent(l, r, usage, status, now, owner);
    }
  }

  /** In any one store within its limits, finalizing keeps it within them iff the request is metered already, the owner
      has no limit, or the charge fits once the reservation is given back. */
  lemma FinalizeKeepsLimitsIff(l: Ledger, r: QuotaReservation, usage: TokenUsage, status: UsageStatus, now: int)
    requires WithinLimits(l, now) && Attributed(l, r)
    ensures WithinLimits(Finalize(l, r.reservationId, EventFor(r, usage, status, now)), now) <==>
            || r.requestId in l.usage || !Limited(l, r.owner)
            || Charge(l, r.owner, now) - Freed(l, r.reservationId, r.owner) + usage.TotalTokens() <= Limit(l, r.owner)
  {
    var l' := Finalize(l, r.reservationId, EventFor(r, usage, status, now));
    forall owner
      ensures Limited(l', owner) == Limited(l, owner) && Limit(l', owner) == Limit(l, owner)
      ensures Charge(l', owner, now) ==
              Charge(l, owner, now) - Freed(l, r.reservationId, owner) +
              if r.requestId !in l.usage && owner == r.owner then usage.TotalTokens() else 0
    {
      ChargeAfterFinalize(l, r, usage, status, now, owner);
    }
    hide Charge, Limit, Limited;
    assert Limited(l', r.owner) == Limited(l, r.owner);
  }

  /** What an owner's charge adds up to, in full. */
  lemma ChargeSinceMidnight(l: Ledger, owner: QuotaOwner, midnight: int, now: int)
    requires IsMidnightOf(midnight, now)
    ensures Charge(l, owner, now) == SumValues(l.usage, MeteredOn(owner, HomeTenant(l, owner), midnight)) +
                                     SumValues(l.reservations, HeldFor(owner))
  {
    UsedSinceMidnight(l, owner, HomeTenant(l, owner), midnight, now);
    PendingIsHeld(l, owner);
  }

  /** A ledger within its limits, in full. */
  ghost predicate DailyLimitsHold(l: Ledger, now: int) {
    forall owner, tenantId, limit: nat, midnight ::
      HasLimit(l, owner, limit) && limit < 0xFFFF_FFFF_FFFF_FFFF && IsMidnightOf(midnight, now) &&
      BelongsTo(l, owner, tenantId) ==>
        SumValues(l.usage, MeteredOn(owner, tenantId, midnight)) + SumValues(l.reservations, HeldFor(owner)) <= limit
  }

  /** The tenant under which an owner's requests are metered. */
  predicate BelongsTo(l: Ledger, owner: QuotaOwner, tenantId: string) {
    match owner
    case Tenant(id) => tenantId == id
    case VirtualKey(id) => exists p :: p in l.keys && l.keys[p].id == id && l.keys[p].tenantId == tenantId
  }

  lemma WithinLimitsInFull(l: Ledger, now: int)
    requires WithinLimits(l, now) && UniqueKeyIds(l.keys)
    ensures DailyLimitsHold(l, now)
  {
    hide SumValues;
    forall owner, tenantId, limit: nat, midnight |
      HasLimit(l, owner, limit) && limit < 0xFFFF_FFFF_FFFF_FFFF && IsMidnightOf(midnight, now) &&
      BelongsTo(l, owner, tenantId)
      ensures SumValues(l.usage, MeteredOn(owner, tenantId, midnight)) + SumValues(l.reservations, HeldFor(owner)) <=
              limit
    {
      LimitIs(l, owner, limit);
      HomeIs(l, owner, tenantId);
      ChargeSinceMidnight(l, owner, midnight, now);
      assert Limited(l, owner);
    }
  }

  lemma HomeIs(l: Ledger, owner: QuotaOwner, tenantId: string)
    requires UniqueKeyIds(l.keys) && BelongsTo(l, owner, tenantId)
    ensures HomeTenant(l, owner) == tenantId
  {
    if owner.VirtualKey? {
      var p :| p in l.keys && l.keys[p].id == owner.keyId && l.keys[p].tenantId == tenantId;
      assert IsKeyPrefix(l.keys, p, owner.keyId);
    }
  }

  lemma LaterKeepsLimits(l: Ledger, now: int, later: int)
    requires WithinLimits(l, now) && now <= later
    requires forall id :: id in l.usage ==> l.usage[id].occurredAt <= now
    ensures WithinLimits(l, later)
    ensures UniqueKeyIds(l.keys) ==> DailyLimitsHold(l, later)
  {
    forall owner | Limited(l, owner) ensures Charge(l, owner, later) <= Limit(l, owner) {
      assert Limited(l, owner);
      if Day(later) != Day(now) {
        SumZero(l.usage, UsageWeight(owner, HomeTenant(l, owner), Day(later)));
      }
    }
    if UniqueKeyIds(l.keys) {
      WithinLimitsInFull(l, later);
    }
  }

  function WithTenant(l: Ledger, tenant: TenantRecord): Ledger {
    l.(tenants := l.tenants[tenant.id := tenant])
  }

  /** Setting a tenant up anew keeps all limits iff what the tenant was charged today and holds fits its new limit. */
  lemma NewLimitIsKeptIff(l: Ledger, tenant: TenantRecord, now: int)
    requires WithinLimits(l, now)
    ensures WithinLimits(WithTenant(l, tenant), now) <==>
            tenant.dailyTokenLimit == U64_MAX || Charge(l, Tenant(tenant.id), now) <= tenant.dailyTokenLimit
  {
    var l' := WithTenant(l, tenant);
    forall owner
      ensures Charge(l', owner, now) == Charge(l, owner, now)
      ensures Limit(l', owner) == if owner == Tenant(tenant.id) then tenant.dailyTokenLimit else Limit(l, owner)
    {}
    assert Limited(l', Tenant(tenant.id)) <==> tenant.dailyTokenLimit < U64_MAX;
    forall owner | Limited(l', owner) && owner != Tenant(tenant.id)
      ensures Charge(l', owner, now) <= Limit(l', owner)
    {
      assert Limited(l, owner);
    }
  }

  lemma UnlimitedNeverRejects(l: Ledger, r: QuotaReservation, now: int)
    requires LimitOf(l, r.owner) == Some(U64_MAX)
    ensures Reserve(l, r, now).1 == Ok(true)
  {}

  // ---------------------------------------------------------------- exactly when a finalize is safe

  /** What a task knows about the store when it finalizes: whether its reservation is still pending and
      whether its request has already been metered. */
  ghost predicate Viewed(l: Ledger, r: QuotaReservation, now: int, pending: bool, metered: bool) {
    && WithinLimits(l, now)
    && Attributed(l, r)
    && (pending <==> r.reservationId in l.reservations)
    && (pending ==> l.reservations[r.reservationId] == r)
    && (metered <==> r.requestId in l.usage)
  }

  ghost predicate AlwaysSafe(r: QuotaReservation, usage: TokenUsage, status: UsageStatus, now: int,
                             pending: bool, metered: bool) {
    forall l :: Viewed(l, r, now, pending, metered) ==>
      WithinLimits(Finalize(l, r.reservationId, EventFor(r, usage, status, now)), now)
  }

  /** A store in which nothing is left for the reservation's owner beyond what `r` itself holds. */
  function TightLedger(r: QuotaReservation, pending: bool): Ledger {
    var limit := if pending then r.ReservedTokens() else 0;
    var held := if pending then map[r.reservationId := r] else map[];
    match r.owner
    case Tenant(id) => Ledger(map[id := TenantRecord(id, limit)], map[], held, map[])
    case VirtualKey(id) => Ledger(map[], map["" := VirtualKeyRecord(id, r.tenantId, limit)], held, map[])
  }

  lemma TightLedgerLimits(r: QuotaReservation, pending: bool, owner: QuotaOwner)
    requires r.owner.Tenant? ==> r.tenantId == r.owner.id
    ensures var l := TightLedger(r, pending);
            && Limit(l, owner) == (if pending && owner == r.owner then r.ReservedTokens() else 0)
            && Pending(l, owner) == (if pending && owner == r.owner then r.ReservedTokens() else 0)
            && HomeTenant(l, r.owner) == r.tenantId
            && Used(l, owner, HomeTenant(l, owner), 0) == 0
  {
    var l := TightLedger(r, pending);
    if pending {
      SumRemove(l.reservations, PendingWeight(owner), r.reservationId);
      assert l.reservations - {r.reservationId} == map[];
    }
    if r.owner.VirtualKey? {
      assert IsKeyPrefix(l.keys, "", r.owner.keyId);
    }
  }

  /** Metering a request keeps every quota in every store it may meet iff the request is already metered or
      its charge is at most what its own still-pending reservation gives back. */
  lemma FinalizeSafeIff(r: QuotaReservation, usage: TokenUsage, status: UsageStatus, now: int,
                        pending: bool, metered: bool)
    requires match r.owner
             case Tenant(id) => r.tenantId == id && !(KEY_PREFIX <= r.principalId)
             case VirtualKey(id) => r.principalId == KEY_PREFIX + id
    ensures AlwaysSafe(r, usage, status, now, pending, metered) <==>
            metered || usage.TotalTokens() <= (if pending then r.ReservedTokens() else 0)
  {
    if metered || usage.TotalTokens() <= (if pending then r.ReservedTokens() else 0) {
      forall l | Viewed(l, r, now, pending, metered)
        ensures WithinLimits(Finalize(l, r.reservationId, EventFor(r, usage, status, now)), now)
      {
        FinalizeKeepsLimits(l, r, usage, status, now);
      }
    } else {
      TightLedgerBreaks(r, usage, status, now, pending);
    }
  }

  lemma TightLedgerBreaks(r: QuotaReservation, usage: TokenUsage, status: UsageStatus, now: int, pending: bool)
    requires match r.owner
             case Tenant(id) => r.tenantId == id && !(KEY_PREFIX <= r.principalId)
             case VirtualKey(id) => r.principalId == KEY_PREFIX + id
    requires usage.TotalTokens() > (if pending then r.ReservedTokens() else 0)
    ensures var l := TightLedger(r, pending);
            && Viewed(l, r, now, pending, false)
            && !WithinLimits(Finalize(l, r.reservationId, EventFor(r, usage, status, now)), now)
  {
    var l := TightLedger(r, pending);
    forall owner | Limited(l, owner) ensures Charge(l, owner, now) <= Limit(l, owner) {
      TightLedgerLimits(r, pending, owner);
    }
    TightLedgerLimits(r, pending, r.owner);
    var e := EventFor(r, usage, status, now);
    var l' := Finalize(l, r.reservationId, e);
    EventChargesItsOwnerOnly(l, r, usage, status, now, r.owner);
    var weight := UsageWeight(r.owner, r.tenantId, Day(now));
    SumInsert(l.usage, weight, r.requestId, e);
    assert Limited(l', r.owner);
  }
}

/** The store itself. */
module MemoryStores {
  import opened Types
  import opened MapSums
  import opened Ledgers

  lemma SumOneMore<K, V>(seen: map<K, V>, weight: V -> nat, k: K, v: V)
    requires k !in seen && weight(v) < U64_MODULUS
    ensures LowBits(SumValues(seen[k := v], weight)) == WrappingAdd(LowBits(SumValues(seen, weight)), weight(v))
  {
    assert seen - {k} == seen;
    SumInsert(seen, weight, k, v);
    WrapEarly(SumValues(seen, weight), weight(v));
  }

  /** `values().map(weight).sum()`, in the order the hash map happens to yield. */
  method SumTokens<K, V>(m: map<K, V>, weight: V -> nat) returns (total: U64)
    requires forall k :: k in m ==> weight(m[k]) < U64_MODULUS
    ensures total == LowBits(SumValues(m, weight))
  {
    total := 0;
    var rest := m;
    ghost var seen: map<K, V> := map[];
    while rest != map[]
      invariant forall k :: k in m <==> k in rest || k in seen
      invariant forall k :: k in rest ==> rest[k] == m[k] && k !in seen
      invariant forall k :: k in seen ==> seen[k] == m[k]
      invariant total == LowBits(SumValues(seen, weight))
      decreases |rest|
    {
      var k :| k in rest;
      SumOneMore(seen, weight, k, rest[k]);
      total := WrappingAdd(total, weight(rest[k]));
      seen, rest := seen[k := rest[k]], rest - {k};
    }
    assert seen == m;
  }

  class MemoryStore {
    var tenants: map<string, TenantRecord>
    var keys: map<string, VirtualKeyRecord>
    var reservations: map<Uuid, QuotaReservation>
    var usage: map<Uuid, UsageEvent>

    ghost function Contents(): Ledger
      reads this
    {
      Ledger(tenants, keys, reservations, usage)
    }

    ghost predicate Valid()
      reads this
    {
      UniqueKeyIds(keys) && forall id :: id in reservations ==> reservations[id].reservationId == id
    }

    constructor ()
      ensures Valid() && Contents() == Ledger(map[], map[], map[], map[])
    {
      tenants, keys, reservations, usage := map[], map[], map[], map[];
    }

    method InsertTenant(tenant: TenantRecord)
      requires Valid()
      modifies this`tenants
      ensures Valid() && Contents() == WithTenant(old(Contents()), tenant)
      ensures forall now :: WithinLimits(old(Contents()), now) ==>
                (WithinLimits(Contents(), now) <==>
                 tenant.dailyTokenLimit == U64_MAX ||
                 Charge(old(Contents()), Tenant(tenant.id), now) <= tenant.dailyTokenLimit)
    {
      forall now | WithinLimits(Contents(), now)
        ensures WithinLimits(WithTenant(Contents(), tenant), now) <==>
                tenant.dailyTokenLimit == U64_MAX ||
                Charge(Contents(), Tenant(tenant.id), now) <= tenant.dailyTokenLimit
      {
        NewLimitIsKeptIff(Contents(), tenant, now);
      }
      tenants := tenants[tenant.id := tenant];
    }

    /** `values().find(..)` on the virtual keys. */
    method FindKeyRecord(id: Uuid) returns (found: Option<VirtualKeyRecord>)
      requires Valid()
      ensures found == FindKey(keys, id)
    {
      found := None;
      var rest := keys;
      while rest != map[]
        invariant found.None?
        invariant forall p :: p in rest ==> p in keys && rest[p] == keys[p]
        invariant forall p :: IsKeyPrefix(keys, p, id) ==> p in rest
        decreases |rest|
      {
        var p :| p in rest;
        if rest[p].id == id {
          assert IsKeyPrefix(keys, p, id);
          return Some(rest[p]);
        }
        rest := rest - {p};
      }
    }

    method ReserveQuota(r: QuotaReservation, now: int) returns (reply: Result<bool, StoreError>)
      requires Valid()
      modifies this`reservations
      ensures Valid() && (Contents(), reply) == Reserve(old(Contents()), r, now)
      ensures GrantedAsMetered(old(Contents()), r, now, reply)
      ensures reservations == if reply == Ok(true) then old(reservations)[r.reservationId := r] else old(reservations)
    {
      ReserveGrantsAsMetered(Contents(), r, now);
      var limit: U64;
      match r.owner {
        case Tenant(id) =>
          if id !in tenants { return Err(NotFound); }
          limit := tenants[id].dailyTokenLimit;
        case VirtualKey(id) =>
          var key := FindKeyRecord(id);
          if key.None? { return Err(NotFound); }
          limit := key.value.dailyTokenLimit;
      }
      var used := SumTokens(usage, UsageWeight(r.owner, r.tenantId, Day(now)));
      var pending := SumTokens(reservations, PendingWeight(r.owner));
      if SaturatingAdd(SaturatingAdd(used, pending), r.ReservedTokens()) > limit {
        return Ok(false);
      }
      reservations := reservations[r.reservationId := r];
      return Ok(true);
    }

    method FinalizeUsage(reservationId: Uuid, event: UsageEvent)
      requires Valid()
      modifies this`reservations, this`usage
      ensures Valid() && Contents() == Finalize(old(Contents()), reservationId, event)
      ensures reservations == old(reservations) - {reservationId}
      ensures usage == if event.requestId in old(usage) then old(usage) else old(usage)[event.requestId := event]
    {
      reservations := reservations - {reservationId};
      if event.requestId !in usage {
        usage := usage[event.requestId := event];
      }
    }

    method ReleaseReservation(reservationId: Uuid)
      requires Valid()
      modifies this`reservations
      ensures Valid() && Contents() == Release(old(Contents()), reservationId)
      ensures reservations == old(reservations) - {reservationId}
    {
      reservations := reservations - {reservationId};
    }

    /** The expired reservations, each once, in no particular order. */
    method ExpiredReservations(now: int) returns (expired: seq<QuotaReservation>)
      requires Valid()
      ensures forall r :: r in expired <==>
                r.reservationId in reservations && reservations[r.reservationId] == r && r.expiresAt <= now
      ensures forall i, j :: 0 <= i < j < |expired| ==> expired[i].reservationId != expired[j].reservationId
    {
      expired := [];
      var rest := reservations;
      while rest != map[]
        invariant forall id :: id in rest ==> id in reservations && rest[id] == reservations[id]
        invariant forall r :: r in expired <==>
                    && r.reservationId in reservations && reservations[r.reservationId] == r && r.expiresAt <= now
                    && r.reservationId !in rest
        invariant forall i, j :: 0 <= i < j < |expired| ==> expired[i].reservationId != expired[j].reservationId
        decreases |rest|
      {
        var id :| id in rest;
        if rest[id].expiresAt <= now {
          expired := expired + [rest[id]];
        }
        rest := rest - {id};
      }
    }
  }
}
