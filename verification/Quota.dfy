/** The reservation service: a store reservation paired with a key of an optional request counter. */
module Quotas {
  import opened Types
  import opened MapSums
  import opened Ledgers
  import opened MemoryStores

  /** `Panicked` stands for a call that panics: it answers nobody, and nothing after it is done. */
  datatype QuotaError = Exceeded | Unavailable | Panicked

  /** The request counter. Its environment decides how it answers, and it remembers which of the keys it handed out
      have not come back. */
  class RequestCounter {
    var outstanding: multiset<string>

    constructor ()
      ensures outstanding == multiset{}
    {
      outstanding := multiset{};
    }

    method Reserve(answer: Result<string, QuotaError>) returns (key: Result<string, QuotaError>)
      modifies this
      ensures key == answer
      ensures outstanding == if answer.Ok? then old(outstanding) + multiset{answer.value} else old(outstanding)
    {
      if answer.Ok? {
        outstanding := outstanding + multiset{answer.value};
      }
      key := answer;
    }

    /** A release that fails takes nothing back. */
    method Release(key: string, answer: Result<(), QuotaError>) returns (reply: Result<(), QuotaError>)
      modifies this
      ensures reply == answer
      ensures outstanding == if answer.Ok? then old(outstanding) - multiset{key} else old(outstanding)
    {
      if answer.Ok? {
        outstanding := outstanding - multiset{key};
      }
      reply := answer;
    }
  }

  function OwnerOf(principal: Principal): QuotaOwner {
    match principal.virtualKeyId
    case Some(id) => VirtualKey(id)
    case None => Tenant(principal.tenantId)
  }

  function NewReservation(reservationId: Uuid, requestId: Uuid, principal: Principal, route: ModelRoute,
                          promptTokens: U64, completionTokens: U64, expiresAt: int): QuotaReservation {
    QuotaReservation(reservationId, requestId, OwnerOf(principal), principal.tenantId, principal.principalId,
                     route, promptTokens, completionTokens, expiresAt)
  }

  /** What the authenticators promise of a principal: a virtual key's principal is named after the key and
      carries the key's tenant, and no other principal is named like one. */
  ghost predicate Authenticated(l: Ledger, principal: Principal) {
    match principal.virtualKeyId
    case Some(id) => principal.principalId == KEY_PREFIX + id && principal.tenantId == HomeTenant(l, VirtualKey(id))
    case None => !(KEY_PREFIX <= principal.principalId)
  }

  lemma AuthenticatedIsAttributed(l: Ledger, reservationId: Uuid, requestId: Uuid, principal: Principal,
                                  route: ModelRoute, promptTokens: U64, completionTokens: U64, expiresAt: int)
    ensures Authenticated(l, principal) <==>
            Attributed(l, NewReservation(reservationId, requestId, principal, route,
                                         promptTokens, completionTokens, expiresAt))
  {}

  function KeyCount(key: string): string -> nat {
    (held: string) => if held == key then 1 else 0
  }

  /** The keys outstanding are, with multiplicity, those the reservation map holds and those that were lost. */
  ghost predicate Balanced(outstanding: multiset<string>, held: map<Uuid, string>, lost: multiset<string>) {
    forall key :: outstanding[key] == SumValues(held, KeyCount(key)) + lost[key]
  }

  /** A key in nobody's hands is counted as lost until it is kept or given back. */
  lemma BalancedInsert(outstanding: multiset<string>, held: map<Uuid, string>, lost: multiset<string>, id: Uuid,
                       key: string)
    requires Balanced(outstanding, held, lost) && id !in held && key in lost
    ensures Balanced(outstanding, held[id := key], lost - multiset{key})
  {
    assert held - {id} == held;
    forall k ensures outstanding[k] == SumValues(held[id := key], KeyCount(k)) + (lost - multiset{key})[k] {
      SumInsert(held, KeyCount(k), id, key);
    }
  }

  lemma BalancedRemove(outstanding: multiset<string>, held: map<Uuid, string>, lost: multiset<string>, id: Uuid)
    requires Balanced(outstanding, held, lost) && id in held
    ensures Balanced(outstanding, held - {id}, lost + multiset{held[id]})
  {
    forall k ensures outstanding[k] == SumValues(held - {id}, KeyCount(k)) + (lost + multiset{held[id]})[k] {
      SumRemove(held, KeyCount(k), id);
    }
  }

  lemma BalancedReturn(outstanding: multiset<string>, held: map<Uuid, string>, lost: multiset<string>, key: string)
    requires Balanced(outstanding, held, lost) && key in lost
    ensures Balanced(outstanding - multiset{key}, held, lost - multiset{key})
  {
    hide SumValues;
    forall k ensures (outstanding - multiset{key})[k] == SumValues(held, KeyCount(k)) + (lost - multiset{key})[k] {
      assert outstanding[k] == SumValues(held, KeyCount(k)) + lost[k];
    }
  }

  /** The keys outstanding are exactly those the map holds iff none was lost. */
  lemma HeldIffNoneLost(outstanding: multiset<string>, held: map<Uuid, string>, lost: multiset<string>)
    requires Balanced(outstanding, held, lost)
    ensures Balanced(outstanding, held, multiset{}) <==> lost == multiset{}
  {
    if Balanced(outstanding, held, multiset{}) {
      forall key ensures lost[key] == 0 {
        assert outstanding[key] == SumValues(held, KeyCount(key)) + lost[key];
      }
    }
  }

  function One(isOne: bool, answer: Result<string, QuotaError>): multiset<string>
    requires isOne ==> answer.Ok?
  {
    if isOne then multiset{answer.value} else multiset{}
  }

  // ---------------------------------------------------------------- runs of calls

  /** The counter keys outstanding and those kept in the map. */
  datatype Keys = Keys(outstanding: multiset<string>, held: map<Uuid, string>)

  /** A call of the service with what its counter and store answer. */
  datatype KeyCall =
    | Reserving(id: Uuid, now: int, answer: Result<string, QuotaError>, granted: bool, released: Result<(), QuotaError>)
    | Releasing(id: Uuid, released: Result<(), QuotaError>)

  function KeysAfter(k: Keys, call: KeyCall, ttlSeconds: nat): Keys {
    match call
    case Reserving(id, now, answer, granted, released) =>
      if answer.Err? then k
      else
        var taken := k.outstanding + multiset{answer.value};
        if HasExpiry(now, ttlSeconds) && granted then Keys(taken, k.held[id := answer.value])
        else if HasExpiry(now, ttlSeconds) && released.Ok? then k
        else Keys(taken, k.held)
    case Releasing(id, released) =>
      if id !in k.held then k
      else Keys(if released.Ok? then k.outstanding - multiset{k.held[id]} else k.outstanding, k.held - {id})
  }

  /** No key is taken, or its expiry can be represented and it is kept or comes back; and one that is given up comes
      back. */
  predicate KeepsKeys(k: Keys, call: KeyCall, ttlSeconds: nat) {
    match call
    case Reserving(_, now, answer, granted, released) =>
      answer.Err? || (HasExpiry(now, ttlSeconds) && (granted || released.Ok?))
    case Releasing(id, released) => id in k.held ==> released.Ok?
  }

  /** Reservations have new identifiers. */
  predicate FreshCalls(k: Keys, calls: seq<KeyCall>, ttlSeconds: nat)
    decreases |calls|
  {
    calls == [] ||
    ((calls[0].Reserving? ==> calls[0].id !in k.held) &&
     FreshCalls(KeysAfter(k, calls[0], ttlSeconds), calls[1..], ttlSeconds))
  }

  function KeysAfterAll(k: Keys, calls: seq<KeyCall>, ttlSeconds: nat): Keys
    decreases |calls|
  {
    if calls == [] then k else KeysAfterAll(KeysAfter(k, calls[0], ttlSeconds), calls[1..], ttlSeconds)
  }

  predicate AllKeepKeys(k: Keys, calls: seq<KeyCall>, ttlSeconds: nat)
    decreases |calls|
  {
    calls == [] ||
    (KeepsKeys(k, calls[0], ttlSeconds) && AllKeepKeys(KeysAfter(k, calls[0], ttlSeconds), calls[1..], ttlSeconds))
  }

  lemma BalancedTake(outstanding: multiset<string>, held: map<Uuid, string>, lost: multiset<string>, key: string)
    requires Balanced(outstanding, held, lost)
    ensures Balanced(outstanding + multiset{key}, held, lost + multiset{key})
  {
    hide SumValues;
    forall k ensures (outstanding + multiset{key})[k] == SumValues(held, KeyCount(k)) + (lost + multiset{key})[k] {
      assert outstanding[k] == SumValues(held, KeyCount(k)) + lost[k];
    }
  }

  lemma TakenAndReturned(lost: multiset<string>, key: string)
    ensures key in lost + multiset{key} && lost + multiset{key} - multiset{key} == lost
    ensures lost + multiset{} == lost
  {}

  lemma NotInMap(held: map<Uuid, string>, id: Uuid)
    requires id !in held
    ensures held - {id} == held
  {}

  /** A call loses one key or none, and none iff it meets its condition. */
  lemma OneCallKeeps(k: Keys, call: KeyCall, ttlSeconds: nat, lost: multiset<string>) returns (lost': multiset<string>)
    requires Balanced(k.outstanding, k.held, lost) && (call.Reserving? ==> call.id !in k.held)
    ensures var k' := KeysAfter(k, call, ttlSeconds); Balanced(k'.outstanding, k'.held, lost')
    ensures |lost'| == |lost| + if KeepsKeys(k, call, ttlSeconds) then 0 else 1
  {
    hide Balanced;
    match call {
      case Reserving(id, now, answer, granted, released) =>
        if answer.Err? || (HasExpiry(now, ttlSeconds) && !granted && released.Ok?) {
          lost' := lost;
        } else if HasExpiry(now, ttlSeconds) && granted {
          lost' := OneKeyKept(k, id, answer.value, lost);
        } else {
          lost' := lost + multiset{answer.value};
          BalancedTake(k.outstanding, k.held, lost, answer.value);
        }
      case Releasing(id, released) =>
        if id in k.held {
          lost' := OneKeyGivenUp(k, id, released.Ok?, lost);
        } else {
          lost' := lost;
        }
    }
  }

  lemma OneKeyKept(k: Keys, id: Uuid, key: string, lost: multiset<string>) returns (lost': multiset<string>)
    requires Balanced(k.outstanding, k.held, lost) && id !in k.held
    ensures Balanced(k.outstanding + multiset{key}, k.held[id := key], lost') && lost' == lost
  {
    hide Balanced;
    lost' := lost;
    TakenAndReturned(lost, key);
    BalancedTake(k.outstanding, k.held, lost, key);
    BalancedInsert(k.outstanding + multiset{key}, k.held, lost + multiset{key}, id, key);
  }

  lemma OneKeyGivenUp(k: Keys, id: Uuid, comesBack: bool, lost: multiset<string>) returns (lost': multiset<string>)
    requires Balanced(k.outstanding, k.held, lost) && id in k.held
    ensures Balanced(if comesBack then k.outstanding - multiset{k.held[id]} else k.outstanding, k.held - {id}, lost')
    ensures |lost'| == |lost| + if comesBack then 0 else 1
  {
    hide Balanced;
    var key := k.held[id];
    TakenAndReturned(lost, key);
    BalancedRemove(k.outstanding, k.held, lost, id);
    lost' := lost + multiset{key};
    if comesBack {
      BalancedReturn(k.outstanding, k.held - {id}, lost + multiset{key}, key);
      lost' := lost;
    }
  }

  lemma {:induction false} CallsKeep(k: Keys, calls: seq<KeyCall>, ttlSeconds: nat, lost: multiset<string>)
    returns (lost': multiset<string>)
    requires Balanced(k.outstanding, k.held, lost) && FreshCalls(k, calls, ttlSeconds)
    ensures var k' := KeysAfterAll(k, calls, ttlSeconds); Balanced(k'.outstanding, k'.held, lost')
    ensures |lost'| >= |lost| && (|lost'| == |lost| <==> AllKeepKeys(k, calls, ttlSeconds))
    decreases |calls|
  {
    hide Balanced;
    if calls == [] {
      lost' := lost;
    } else {
      var more := OneCallKeeps(k, calls[0], ttlSeconds, lost);
      lost' := CallsKeep(KeysAfter(k, calls[0], ttlSeconds), calls[1..], ttlSeconds, more);
    }
  }

  /** Over any sequence of calls, the keys outstanding are exactly those in the map iff every call met its condition. */
  lemma KeysMatchIff(calls: seq<KeyCall>, ttlSeconds: nat)
    requires FreshCalls(Keys(multiset{}, map[]), calls, ttlSeconds)
    ensures var k := KeysAfterAll(Keys(multiset{}, map[]), calls, ttlSeconds);
            Balanced(k.outstanding, k.held, multiset{}) <==> AllKeepKeys(Keys(multiset{}, map[]), calls, ttlSeconds)
  {
    var start, k := Keys(multiset{}, map[]), KeysAfterAll(Keys(multiset{}, map[]), calls, ttlSeconds);
    assert Balanced(start.outstanding, start.held, multiset{});
    var lost := CallsKeep(start, calls, ttlSeconds, multiset{});
    HeldIffNoneLost(k.outstanding, k.held, lost);
  }

  class QuotaService {
    const store: MemoryStore
    const counter: RequestCounter?
    const ttlSeconds: nat
    var counterReservations: map<Uuid, string>
    ghost var lost: multiset<string>

    ghost predicate Valid()
      reads this, store, counter
    {
      && store.Valid()
      && if counter == null then counterReservations == map[] && lost == multiset{}
         else Balanced(counter.outstanding, counterReservations, lost)
    }

    ghost function KeyState(): Keys
      requires counter != null
      reads this, counter
    {
      Keys(counter.outstanding, counterReservations)
    }

    constructor (store: MemoryStore, counter: RequestCounter?, ttlSeconds: nat)
      requires store.Valid() && (counter != null ==> counter.outstanding == multiset{})
      ensures Valid() && this.store == store && this.counter == counter && this.ttlSeconds == ttlSeconds
      ensures counterReservations == map[] && lost == multiset{}
    {
      this.store, this.counter, this.ttlSeconds := store, counter, ttlSeconds;
      counterReservations, lost := map[], multiset{};
    }

    /** The counter and the lifetime let this call reach the store. */
    predicate ReachesStore(answer: Result<string, QuotaError>, now: int) {
      (counter == null || answer.Ok?) && HasExpiry(now, ttlSeconds)
    }

    /** Why a call that did not get its reservation failed. */
    function Refusal(answer: Result<string, QuotaError>, now: int, granted: Result<bool, StoreError>): QuotaError {
      if counter != null && answer.Err? then answer.error
      else if ttlSeconds > MAX_DURATION_SECONDS then Unavailable
      else if now + ttlSeconds > MAX_INSTANT then Panicked
      else if granted == Ok(false) then Exceeded
      else Unavailable
    }

    /** Whether the key that was taken stays outstanding for good. */
    predicate LosesKey(answer: Result<string, QuotaError>, now: int, granted: bool, released: Result<(), QuotaError>)
      ensures LosesKey(answer, now, granted, released) ==> answer.Ok?
    {
      counter != null && answer.Ok? && (!HasExpiry(now, ttlSeconds) || (!granted && released.Err?))
    }

    /** No key is lost exactly when none was taken, or the expiry can be represented and the key is kept or comes
        back. */
    lemma NoKeyLostIff(answer: Result<string, QuotaError>, now: int, granted: bool, released: Result<(), QuotaError>,
                       before: multiset<string>)
      ensures before + One(LosesKey(answer, now, granted, released), answer) == before <==>
              counter == null || answer.Err? || (HasExpiry(now, ttlSeconds) && (granted || released.Ok?))
    {
      if LosesKey(answer, now, granted, released) {
        assert (before + multiset{answer.value})[answer.value] == before[answer.value] + 1;
      } else {
        assert before + multiset{} == before;
      }
    }

    method TakeKey(answer: Result<string, QuotaError>) returns (key: Result<string, QuotaError>)
      requires Valid()
      modifies this`lost, counter
      ensures Valid() && key == (if counter != null then answer else Ok(""))
      ensures lost == old(lost) + One(counter != null && answer.Ok?, answer)
      ensures counter != null ==>
                counter.outstanding == old(counter.outstanding) + One(answer.Ok?, answer)
    {
      key := Ok("");
      if counter != null {
        key := counter.Reserve(answer);
        if key.Ok? {
          lost := lost + multiset{key.value};
        }
      }
    }

    /** Errors of the counter are ignored. */
    method GiveBack(key: string, released: Result<(), QuotaError>)
      requires Valid() && counter != null && key in lost
      modifies this`lost, counter
      ensures Valid() && lost == if released.Ok? then old(lost) - multiset{key} else old(lost)
      ensures counter.outstanding ==
              if released.Ok? then old(counter.outstanding) - multiset{key} else old(counter.outstanding)
    {
      hide Balanced;
      BalancedReturn(counter.outstanding, counterReservations, lost, key);
      var reply := counter.Release(key, released);
      if reply.Ok? {
        lost := lost - multiset{key};
      }
    }

    method Keep(reservationId: Uuid, key: string)
      requires Valid() && counter != null && key in lost && reservationId !in counterReservations
      modifies this`lost, this`counterReservations
      ensures Valid() && lost == old(lost) - multiset{key}
      ensures counterReservations == old(counterReservations)[reservationId := key]
    {
      BalancedInsert(counter.outstanding, counterReservations, lost, reservationId, key);
      counterReservations := counterReservations[reservationId := key];
      lost := lost - multiset{key};
    }

    /** The key taken for a reservation is kept if that was granted, and given back otherwise. */
    method SettleKey(reservationId: Uuid, key: string, granted: bool, released: Result<(), QuotaError>,
                     ghost before: multiset<string>)
      requires Valid() && reservationId !in counterReservations
      requires if counter != null then lost == before + multiset{key} else lost == before
      modifies this`lost, this`counterReservations, counter
      ensures Valid()
      ensures lost == before + if counter != null && !granted && released.Err? then multiset{key} else multiset{}
      ensures counterReservations == if counter != null && granted then old(counterReservations)[reservationId := key]
                                     else old(counterReservations)
      ensures counter != null ==>
                counter.outstanding == if !granted && released.Ok? then old(counter.outstanding) - multiset{key}
                                       else old(counter.outstanding)
    {
      hide Balanced;
      TakenAndReturned(before, key);
      if counter != null {
        if granted {
          Keep(reservationId, key);
        } else {
          GiveBack(key, released);
        }
      }
    }

    /** What a call is answered, in full: the reservation with each of its fields, or why there is none. */
    ghost predicate AnsweredInFull(requestId: Uuid, principal: Principal, route: ModelRoute, promptTokens: U64,
                                   completionTokens: U64, reservationId: Uuid, now: int,
                                   answer: Result<string, QuotaError>, granted: Result<bool, StoreError>,
                                   reply: Result<QuotaReservation, QuotaError>)
    {
      if counter != null && answer.Err? then reply == Err(answer.error)
      else if ttlSeconds > MAX_DURATION_SECONDS then reply == Err(Unavailable)
      else if now + ttlSeconds > MAX_INSTANT then reply == Err(Panicked)
      else
        match granted
        case Err(_) => reply == Err(Unavailable)
        case Ok(false) => reply == Err(Exceeded)
        case Ok(true) =>
          && reply.Ok?
          && var r := reply.value;
          && r.reservationId == reservationId && r.requestId == requestId && r.tenantId == principal.tenantId
          && r.principalId == principal.principalId && r.route == route && r.promptTokens == promptTokens
          && r.completionTokens == completionTokens && r.expiresAt == now + ttlSeconds
          && match principal.virtualKeyId
             case Some(id) => r.owner == VirtualKey(id)
             case None => r.owner == Tenant(principal.tenantId)
    }

    /** What the service answers. */
    function Answered(requestId: Uuid, principal: Principal, route: ModelRoute, promptTokens: U64,
                      completionTokens: U64, reservationId: Uuid, now: int, answer: Result<string, QuotaError>,
                      granted: Result<bool, StoreError>)
      : (reply: Result<QuotaReservation, QuotaError>)
      ensures AnsweredInFull(requestId, principal, route, promptTokens, completionTokens, reservationId, now, answer,
                             granted, reply)
    {
      if ReachesStore(answer, now) && granted == Ok(true) then
        Ok(NewReservation(reservationId, requestId, principal, route, promptTokens, completionTokens,
                          now + ttlSeconds))
      else Err(Refusal(answer, now, granted))
    }

    /** The reservation is kept, in the store and with its counter key, iff the store grants it. A key is lost iff
        one was taken and either the expiry cannot be represented, or the reservation was not granted and giving
        the key back failed. `released` is the counter's answer to giving it back. */
    method Reserve(requestId: Uuid, principal: Principal, route: ModelRoute, promptTokens: U64, completionTokens: U64,
                   reservationId: Uuid, now: int, answer: Result<string, QuotaError>,
                   released: Result<(), QuotaError>)
      returns (reply: Result<QuotaReservation, QuotaError>)
      requires Valid() && reservationId !in counterReservations
      modifies this`lost, this`counterReservations, store`reservations, counter
      ensures Valid()
      ensures var r := NewReservation(reservationId, requestId, principal, route, promptTokens, completionTokens,
                                      now + ttlSeconds);
              var (l, granted) := Ledgers.Reserve(old(store.Contents()), r, now);
              && reply == (if ReachesStore(answer, now) && granted == Ok(true) then Ok(r)
                           else Err(Refusal(answer, now, granted)))
              && store.Contents() == (if reply.Ok? then l else old(store.Contents()))
              && lost == old(lost) + One(LosesKey(answer, now, granted == Ok(true), released), answer)
              && AnsweredInFull(requestId, principal, route, promptTokens, completionTokens, reservationId, now, answer,
                                granted, reply)
      ensures counterReservations ==
              if reply.Ok? && counter != null then old(counterReservations)[reservationId := answer.value]
              else old(counterReservations)
      ensures counter != null ==>
                var r := NewReservation(reservationId, requestId, principal, route, promptTokens, completionTokens,
                                        now + ttlSeconds);
                var granted := Ledgers.Reserve(old(store.Contents()), r, now).1 == Ok(true);
                KeyState() == KeysAfter(old(KeyState()), Reserving(reservationId, now, answer, granted, released),
                                        ttlSeconds)
    {
      hide Balanced, Ledgers.Reserve, AnsweredInFull;
      ghost var answered := Answered(requestId, principal, route, promptTokens, completionTokens, reservationId, now,
                                     answer,
                                     Ledgers.Reserve(store.Contents(),
                                                     NewReservation(reservationId, requestId, principal, route,
                                                                    promptTokens, completionTokens, now + ttlSeconds),
                                                     now).1);
      var key := TakeKey(answer);
      if key.Err? {
        return Err(key.error);
      }
      TakenAndReturned(if counter == null then multiset{} else old(counter.outstanding), key.value);
      if ttlSeconds > MAX_DURATION_SECONDS {
        return Err(Unavailable);
      }
      if now + ttlSeconds > MAX_INSTANT {
        return Err(Panicked);
      }
      var r := NewReservation(reservationId, requestId, principal, route, promptTokens, completionTokens,
                              now + ttlSeconds);
      var granted := AskStore(r, now);
      SettleKey(reservationId, key.value, granted == Ok(true), released, old(lost));
      reply := if granted == Ok(true) then Ok(r) else Err(if granted == Ok(false) then Exceeded else Unavailable);
    }

    method AskStore(r: QuotaReservation, now: int) returns (granted: Result<bool, StoreError>)
      requires Valid()
      modifies store`reservations
      ensures Valid() && granted == Ledgers.Reserve(old(store.Contents()), r, now).1
      ensures store.Contents() == if granted == Ok(true) then Ledgers.Reserve(old(store.Contents()), r, now).0
                                  else old(store.Contents())
    {
      granted := store.ReserveQuota(r, now);
    }

    /** The key kept for the reservation is given up; it is lost iff giving it back failed. */
    method ReleaseCounter(reservationId: Uuid, released: Result<(), QuotaError>)
      requires Valid()
      modifies this`lost, this`counterReservations, counter
      ensures Valid() && counterReservations == old(counterReservations) - {reservationId}
      ensures lost == old(lost) + if reservationId in old(counterReservations) && released.Err?
                                  then multiset{old(counterReservations)[reservationId]} else multiset{}
      ensures counter != null ==>
                KeyState() == KeysAfter(old(KeyState()), Releasing(reservationId, released), ttlSeconds)
    {
      hide Balanced;
      if counter != null && reservationId in counterReservations {
        GiveUp(reservationId, released);
      } else {
        TakenAndReturned(lost, "");
        NotInMap(counterReservations, reservationId);
      }
    }

    method GiveUp(reservationId: Uuid, released: Result<(), QuotaError>)
      requires Valid() && counter != null && reservationId in counterReservations
      modifies this`lost, this`counterReservations, counter
      ensures Valid() && counterReservations == old(counterReservations) - {reservationId}
      ensures lost == old(lost) + if released.Err? then multiset{old(counterReservations)[reservationId]}
                                  else multiset{}
      ensures counter.outstanding ==
              if released.Ok? then old(counter.outstanding) - multiset{old(counterReservations)[reservationId]}
              else old(counter.outstanding)
    {
      hide Balanced;
      var key := Forget(reservationId);
      TakenAndReturned(old(lost), key);
      GiveBack(key, released);
    }

    method Forget(reservationId: Uuid) returns (key: string)
      requires Valid() && counter != null && reservationId in counterReservations
      modifies this`lost, this`counterReservations
      ensures Valid() && key == old(counterReservations)[reservationId]
      ensures counterReservations == old(counterReservations) - {reservationId}
      ensures lost == old(lost) + multiset{key}
    {
      key := counterReservations[reservationId];
      BalancedRemove(counter.outstanding, counterReservations, lost, reservationId);
      counterReservations, lost := counterReservations - {reservationId}, lost + multiset{key};
    }
  }
}
