/** The outbox of authentication emails: rows, leases and backoff. */
module Outbox {
  import opened Types

  datatype EmailKind = Verification | Invitation

  type Bytes = seq<bv8>

  datatype Email = Email(
    kind: EmailKind,
    recipient: string,
    nonce: Bytes,
    ciphertext: Bytes,
    attempts: nat,
    nextAttemptAt: int,
    deliveredAt: Option<int>,
    createdAt: int)

  datatype ClaimedEmail = ClaimedEmail(eventId: Uuid, email: Email)

  const MAX_ATTEMPTS: nat := 10
  const LEASE_SECONDS: nat := 300

  predicate Claimable(email: Email, now: int) {
    email.deliveredAt.None? && email.nextAttemptAt <= now && email.attempts < MAX_ATTEMPTS
  }

  /** The order in which rows are claimed; ties are broken either way. */
  predicate NotAfter(a: Email, b: Email) {
    a.nextAttemptAt < b.nextAttemptAt || (a.nextAttemptAt == b.nextAttemptAt && a.createdAt <= b.createdAt)
  }

  /** A row that a claim may pick, when `locked` are the rows other transactions have locked. */
  ghost predicate FirstInLine(rows: map<Uuid, Email>, locked: set<Uuid>, now: int, id: Uuid) {
    && id in rows && id !in locked && Claimable(rows[id], now)
    && forall other :: other in rows && other !in locked && Claimable(rows[other], now) ==>
         NotAfter(rows[id], rows[other])
  }

  function Leased(email: Email, now: int): Email {
    email.(attempts := email.attempts + 1, nextAttemptAt := now + LEASE_SECONDS)
  }

  function Settled(email: Email, now: int): Email {
    email.(deliveredAt := Some(now), nonce := [], ciphertext := [])
  }

  function PowerOfTwo(n: nat): nat {
    if n == 0 then 1 else 2 * PowerOfTwo(n - 1)
  }

  /** How long a failed attempt is put off, in seconds. */
  function Backoff(attempt: nat): nat {
    PowerOfTwo(if attempt < 10 then attempt else 10)
  }

  function Deferred(email: Email, attempt: nat, now: int): Email {
    email.(nextAttemptAt := now + Backoff(attempt))
  }

  /** An update that finds no row changes nothing. */
  function WithRow(rows: map<Uuid, Email>, id: Uuid, update: Email -> Email): map<Uuid, Email> {
    if id in rows then rows[id := update(rows[id])] else rows
  }

  function Delivered(rows: map<Uuid, Email>, id: Uuid, now: int): map<Uuid, Email> {
    WithRow(rows, id, email => Settled(email, now))
  }

  function Failed(rows: map<Uuid, Email>, event: ClaimedEmail, now: int): map<Uuid, Email> {
    WithRow(rows, event.eventId, email => Deferred(email, event.email.attempts, now))
  }

  // ---------------------------------------------------------------- what a call does, field by field

  ghost predicate OnlyRowChanges(before: map<Uuid, Email>, after: map<Uuid, Email>, id: Uuid) {
    after.Keys == before.Keys && forall other :: other in before && other != id ==> after[other] == before[other]
  }

  /** Undelivered, due, and tried fewer than ten times. */
  predicate IsDue(email: Email, now: int) {
    email.deliveredAt == None && email.nextAttemptAt <= now && email.attempts < 10
  }

  /** One attempt more, and put off by five minutes. */
  ghost predicate ClaimedInFull(before: map<Uuid, Email>, after: map<Uuid, Email>, locked: set<Uuid>, now: int,
                                event: ClaimedEmail) {
    var id := event.eventId;
    && id in before && id !in locked && IsDue(before[id], now)
    && (forall other :: other in before && other !in locked && IsDue(before[other], now) ==>
          || before[id].nextAttemptAt < before[other].nextAttemptAt
          || (before[id].nextAttemptAt == before[other].nextAttemptAt &&
              before[id].createdAt <= before[other].createdAt))
    && OnlyRowChanges(before, after, id) && after[id] == event.email
    && event.email == Email(before[id].kind, before[id].recipient, before[id].nonce, before[id].ciphertext,
                            before[id].attempts + 1, now + 300, None, before[id].createdAt)
  }

  /** Marked delivered at this time, with the token gone. */
  ghost predicate DeliveredInFull(before: map<Uuid, Email>, after: map<Uuid, Email>, id: Uuid, now: int) {
    && OnlyRowChanges(before, after, id)
    && (id in before ==>
          after[id] == Email(before[id].kind, before[id].recipient, [], [], before[id].attempts,
                             before[id].nextAttemptAt, Some(now), before[id].createdAt))
  }

  /** Due again after 2^n seconds, where n is the number of the attempt that failed, or 10 if it is greater. */
  ghost predicate FailedInFull(before: map<Uuid, Email>, after: map<Uuid, Email>, event: ClaimedEmail, now: int) {
    var id, attempt := event.eventId, event.email.attempts;
    var delays := [1, 2, 4, 8, 16, 32, 64, 128, 256, 512, 1024];
    && OnlyRowChanges(before, after, id)
    && (id in before ==>
          after[id] == Email(before[id].kind, before[id].recipient, before[id].nonce, before[id].ciphertext,
                             before[id].attempts, now + delays[if attempt < 10 then attempt else 10],
                             before[id].deliveredAt, before[id].createdAt))
  }

  lemma DelaysAreExplicit(attempt: nat)
    ensures Backoff(attempt) == [1, 2, 4, 8, 16, 32, 64, 128, 256, 512, 1024][if attempt < 10 then attempt else 10]
  {
    assert PowerOfTwo(1) == 2 && PowerOfTwo(2) == 4 && PowerOfTwo(3) == 8 && PowerOfTwo(4) == 16;
    assert PowerOfTwo(5) == 32 && PowerOfTwo(6) == 64 && PowerOfTwo(7) == 128 && PowerOfTwo(8) == 256;
    assert PowerOfTwo(9) == 512 && PowerOfTwo(10) == 1024;
  }

  class AuthEmailQueue {
    var rows: map<Uuid, Email>

    constructor ()
      ensures rows == map[]
    {
      rows := map[];
    }

    /** Rejects an event id that is taken. */
    method Enqueue(id: Uuid, kind: EmailKind, recipient: string, nonce: Bytes, ciphertext: Bytes, now: int)
      returns (accepted: bool)
      modifies this
      ensures accepted <==> id !in old(rows)
      ensures rows == if accepted then old(rows)[id := Email(kind, recipient, nonce, ciphertext, 0, now, None, now)]
                      else old(rows)
    {
      if id in rows {
        return false;
      }
      rows := rows[id := Email(kind, recipient, nonce, ciphertext, 0, now, None, now)];
      accepted := true;
    }

    method Claim(now: int, locked: set<Uuid>) returns (claimed: Option<ClaimedEmail>)
      modifies this
      ensures claimed.None? ==>
                rows == old(rows) && forall id :: id in rows && id !in locked ==> !Claimable(rows[id], now)
      ensures claimed.Some? ==>
                var id := claimed.value.eventId;
                && FirstInLine(old(rows), locked, now, id)
                && claimed.value.email == Leased(old(rows)[id], now)
                && rows == old(rows)[id := Leased(old(rows)[id], now)]
      ensures claimed.Some? ==> ClaimedInFull(old(rows), rows, locked, now, claimed.value)
      ensures claimed.None? ==> forall id :: id in rows && id !in locked ==> !IsDue(rows[id], now)
    {
      var unseen := rows.Keys - locked;
      var first: Option<Uuid> := None;
      while unseen != {}
        invariant unseen <= rows.Keys - locked
        invariant first.Some? ==> first.value in rows && first.value !in locked && Claimable(rows[first.value], now)
        invariant forall id :: id in rows && id !in locked && id !in unseen && Claimable(rows[id], now) ==>
                    first.Some? && NotAfter(rows[first.value], rows[id])
        decreases |unseen|
      {
        var id :| id in unseen;
        unseen := unseen - {id};
        if Claimable(rows[id], now) && (first.None? || !NotAfter(rows[first.value], rows[id])) {
          first := Some(id);
        }
      }
      if first.None? {
        return None;
      }
      var leased := Leased(rows[first.value], now);
      claimed := Some(ClaimedEmail(first.value, leased));
      rows := rows[first.value := leased];
    }

    method ReportDelivered(id: Uuid, now: int)
      modifies this
      ensures rows == Delivered(old(rows), id, now)
      ensures DeliveredInFull(old(rows), rows, id, now)
    {
      if id in rows {
        rows := rows[id := rows[id].(deliveredAt := Some(now), nonce := [], ciphertext := [])];
      }
    }

    method ReportFailed(event: ClaimedEmail, now: int)
      modifies this
      ensures rows == Failed(old(rows), event, now)
      ensures FailedInFull(old(rows), rows, event, now)
    {
      var exponent := if event.email.attempts < 10 then event.email.attempts else 10;
      var delay := 1;
      for i := 0 to exponent
        invariant delay == PowerOfTwo(i)
      {
        delay := 2 * delay;
      }
      if event.eventId in rows {
        rows := rows[event.eventId := rows[event.eventId].(nextAttemptAt := now + delay)];
      }
      DelaysAreExplicit(event.email.attempts);
    }
  }

  // ---------------------------------------------------------------- runs

  /** A claimed event and when the lease on it ends. */
  datatype Hold = Hold(event: ClaimedEmail, leaseEnd: int)

  datatype World = World(rows: map<Uuid, Email>, clock: int, holds: map<string, Hold>)

  datatype Step =
    | Enqueue(id: Uuid, kind: EmailKind, recipient: string, nonce: Bytes, ciphertext: Bytes)
    | Wait(until: int)
    | Claim(worker: string, id: Uuid, locked: set<Uuid>)
    | Succeed(worker: string)
    | Fail(worker: string)
    | Crash(worker: string)

  ghost predicate Enabled(w: World, step: Step) {
    match step
    case Enqueue(id, _, _, _, _) => id !in w.rows
    case Wait(until) => until >= w.clock
    case Claim(worker, id, locked) => worker !in w.holds && FirstInLine(w.rows, locked, w.clock, id)
    case Succeed(worker) => worker in w.holds
    case Fail(worker) => worker in w.holds
    case Crash(worker) => worker in w.holds
  }

  ghost function Next(w: World, step: Step): World
    requires Enabled(w, step)
  {
    match step
    case Enqueue(id, kind, recipient, nonce, ciphertext) =>
      w.(rows := w.rows[id := Email(kind, recipient, nonce, ciphertext, 0, w.clock, None, w.clock)])
    case Wait(until) => w.(clock := until)
    case Claim(worker, id, _) =>
      var leased := Leased(w.rows[id], w.clock);
      w.(rows := w.rows[id := leased],
         holds := w.holds[worker := Hold(ClaimedEmail(id, leased), w.clock + LEASE_SECONDS)])
    case Succeed(worker) =>
      w.(rows := Delivered(w.rows, w.holds[worker].event.eventId, w.clock), holds := w.holds - {worker})
    case Fail(worker) => w.(rows := Failed(w.rows, w.holds[worker].event, w.clock), holds := w.holds - {worker})
    case Crash(worker) => w.(holds := w.holds - {worker})
  }

  ghost predicate LegalRun(w: World, steps: seq<Step>)
    decreases |steps|
  {
    steps == [] || (Enabled(w, steps[0]) && LegalRun(Next(w, steps[0]), steps[1..]))
  }

  ghost function After(w: World, steps: seq<Step>): World
    requires LegalRun(w, steps)
    decreases |steps|
  {
    if steps == [] then w else After(Next(w, steps[0]), steps[1..])
  }

  /** What each step does: the queue's three calls, and who holds what until when. */
  ghost predicate StepInFull(w: World, step: Step, after: World) {
    match step
    case Enqueue(id, kind, recipient, nonce, ciphertext) =>
      && id !in w.rows && after.clock == w.clock && after.holds == w.holds
      && after.rows == w.rows[id := Email(kind, recipient, nonce, ciphertext, 0, w.clock, None, w.clock)]
    case Wait(until) => w.clock <= until == after.clock && after.rows == w.rows && after.holds == w.holds
    case Claim(worker, id, locked) =>
      && worker !in w.holds && after.clock == w.clock && worker in after.holds
      && after.holds == w.holds[worker := after.holds[worker]]
      && after.holds[worker].event.eventId == id && after.holds[worker].leaseEnd == w.clock + 300
      && ClaimedInFull(w.rows, after.rows, locked, w.clock, after.holds[worker].event)
    case Succeed(worker) =>
      && worker in w.holds && after.clock == w.clock && after.holds == w.holds - {worker}
      && DeliveredInFull(w.rows, after.rows, w.holds[worker].event.eventId, w.clock)
    case Fail(worker) =>
      && worker in w.holds && after.clock == w.clock && after.holds == w.holds - {worker}
      && FailedInFull(w.rows, after.rows, w.holds[worker].event, w.clock)
    case Crash(worker) =>
      worker in w.holds && after.clock == w.clock && after.holds == w.holds - {worker} && after.rows == w.rows
  }

  /** A step is possible iff some world is what it leaves in full, and then that is the next one. */
  lemma StepsInFull(w: World, step: Step, after: World)
    ensures StepInFull(w, step, after) <==> Enabled(w, step) && after == Next(w, step)
  {
    match step {
      case Claim(_, _, _) => ClaimInFull(w, step, after);
      case Fail(worker) =>
        if worker in w.holds {
          DelaysAreExplicit(w.holds[worker].event.email.attempts);
          SameRows(w.rows, after.rows, Failed(w.rows, w.holds[worker].event, w.clock), w.holds[worker].event.eventId);
        }
      case Succeed(worker) =>
        if worker in w.holds {
          var id := w.holds[worker].event.eventId;
          SameRows(w.rows, after.rows, Delivered(w.rows, id, w.clock), id);
        }
      case _ =>
    }
  }

  lemma SameRows(before: map<Uuid, Email>, a: map<Uuid, Email>, b: map<Uuid, Email>, id: Uuid)
    ensures OnlyRowChanges(before, a, id) && OnlyRowChanges(before, b, id) && (id in before ==> a[id] == b[id]) ==>
              a == b
  {}

  lemma ClaimInFull(w: World, step: Step, after: World)
    requires step.Claim?
    ensures StepInFull(w, step, after) <==> Enabled(w, step) && after == Next(w, step)
  {
    forall email: Email, now ensures IsDue(email, now) <==> Claimable(email, now) {}
    hide IsDue, Claimable;
    if StepInFull(w, step, after) {
      SameRows(w.rows, after.rows, Next(w, step).rows, step.id);
      assert after.holds[step.worker] == Next(w, step).holds[step.worker];
    }
  }

  predicate ClaimsEvent(step: Step, id: Uuid) {
    step.Claim? && step.id == id
  }

  function Claims(steps: seq<Step>, id: Uuid): nat {
    if steps == [] then 0 else (if ClaimsEvent(steps[0], id) then 1 else 0) + Claims(steps[1..], id)
  }

  // ---------------------------------------------------------------- no event is sent more than ten times

  lemma StepCountsClaims(w: World, step: Step, id: Uuid)
    requires Enabled(w, step) && id in w.rows
    ensures id in Next(w, step).rows
    ensures Next(w, step).rows[id].attempts == w.rows[id].attempts + if ClaimsEvent(step, id) then 1 else 0
    ensures ClaimsEvent(step, id) ==> w.rows[id].attempts < MAX_ATTEMPTS && w.rows[id].deliveredAt.None?
    ensures w.rows[id].deliveredAt.Some? ==> Next(w, step).rows[id].deliveredAt.Some?
  {}

  /** Every claim of an event is counted, and the count never passes ten. */
  lemma {:induction false} AtMostTenAttempts(w: World, steps: seq<Step>, id: Uuid)
    requires LegalRun(w, steps) && id in w.rows && w.rows[id].attempts <= MAX_ATTEMPTS
    ensures id in After(w, steps).rows
    ensures After(w, steps).rows[id].attempts == w.rows[id].attempts + Claims(steps, id) <= MAX_ATTEMPTS
    decreases |steps|
  {
    if steps != [] {
      StepCountsClaims(w, steps[0], id);
      AtMostTenAttempts(Next(w, steps[0]), steps[1..], id);
    }
  }

  predicate Cleaned(email: Email) {
    email.deliveredAt.Some? && email.nonce == [] && email.ciphertext == []
  }

  /** Once delivered, an event is never claimed again and its ciphertext stays empty. */
  lemma {:induction false} DeliveredForGood(w: World, steps: seq<Step>, id: Uuid)
    requires LegalRun(w, steps) && id in w.rows && Cleaned(w.rows[id])
    ensures id in After(w, steps).rows && Cleaned(After(w, steps).rows[id])
    ensures Claims(steps, id) == 0
    decreases |steps|
  {
    if steps != [] {
      StepCountsClaims(w, steps[0], id);
      DeliveredForGood(Next(w, steps[0]), steps[1..], id);
    }
  }

  /** What is held is in the table. */
  ghost predicate HoldsHaveRows(w: World) {
    forall worker :: worker in w.holds ==> w.holds[worker].event.eventId in w.rows
  }

  lemma {:induction false} HoldsKeepRows(w: World, steps: seq<Step>)
    requires LegalRun(w, steps) && HoldsHaveRows(w)
    ensures HoldsHaveRows(After(w, steps))
    decreases |steps|
  {
    if steps != [] {
      HoldsKeepRows(Next(w, steps[0]), steps[1..]);
    }
  }

  lemma {:induction false} RunInTwo(w: World, a: seq<Step>, b: seq<Step>)
    requires LegalRun(w, a + b)
    ensures LegalRun(w, a) && LegalRun(After(w, a), b) && After(w, a + b) == After(After(w, a), b)
    decreases |a|
  {
    if a == [] {
      assert a + b == b;
    } else {
      assert (a + b)[1..] == a[1..] + b;
      RunInTwo(Next(w, a[0]), a[1..], b);
    }
  }

  /** From an empty table on: once a worker has reported an event delivered, whatever else happens, before it or after
      it, the event is never claimed again, and neither nonce nor ciphertext is left of it. */
  lemma ReportedIsNeverSentAgain(start: int, before: seq<Step>, worker: string, steps: seq<Step>)
    requires LegalRun(World(map[], start, map[]), before + ([Succeed(worker)] + steps))
    ensures LegalRun(World(map[], start, map[]), before)
    ensures worker in After(World(map[], start, map[]), before).holds
    ensures var id := After(World(map[], start, map[]), before).holds[worker].event.eventId;
            var rows := After(World(map[], start, map[]), before + ([Succeed(worker)] + steps)).rows;
            && Claims(steps, id) == 0
            && id in rows && rows[id].deliveredAt.Some? && rows[id].nonce == [] && rows[id].ciphertext == []
  {
    var w := World(map[], start, map[]);
    RunInTwo(w, before, [Succeed(worker)] + steps);
    HoldsKeepRows(w, before);
    var held := After(w, before);
    assert ([Succeed(worker)] + steps)[0] == Succeed(worker) && ([Succeed(worker)] + steps)[1..] == steps;
    StepsInFull(held, Succeed(worker), Next(held, Succeed(worker)));
    DeliveredForGood(Next(held, Succeed(worker)), steps, held.holds[worker].event.eventId);
  }

  ghost predicate DeliveredAreCleaned(rows: map<Uuid, Email>) {
    forall id :: id in rows && rows[id].deliveredAt.Some? ==> Cleaned(rows[id])
  }

  /** No delivered row ever keeps a token. */
  lemma {:induction false} NoTokenOutlivesDelivery(w: World, steps: seq<Step>)
    requires LegalRun(w, steps) && DeliveredAreCleaned(w.rows)
    ensures DeliveredAreCleaned(After(w, steps).rows)
    decreases |steps|
  {
    if steps != [] {
      StepKeepsCleaned(w, steps[0]);
      NoTokenOutlivesDelivery(Next(w, steps[0]), steps[1..]);
    }
  }

  lemma StepKeepsCleaned(w: World, step: Step)
    requires Enabled(w, step) && DeliveredAreCleaned(w.rows)
    ensures DeliveredAreCleaned(Next(w, step).rows)
  {}

  // ---------------------------------------------------------------- one holder at a time

  /** Every holder reports within its lease: while a hold lasts, its lease does. */
  ghost predicate Timely(w: World) {
    forall worker :: worker in w.holds ==> w.clock < w.holds[worker].leaseEnd
  }

  ghost predicate TimelyRun(w: World, steps: seq<Step>)
    requires LegalRun(w, steps)
    decreases |steps|
  {
    Timely(w) && (steps == [] || TimelyRun(Next(w, steps[0]), steps[1..]))
  }

  ghost predicate Exclusive(holds: map<string, Hold>) {
    forall a, b :: a in holds && b in holds && holds[a].event.eventId == holds[b].event.eventId ==> a == b
  }

  /** The row of a held event carries the lease of its holder. */
  predicate Backed(rows: map<Uuid, Email>, hold: Hold) {
    var id := hold.event.eventId;
    id in rows && rows[id].deliveredAt.None? && rows[id].nextAttemptAt == hold.leaseEnd &&
    rows[id].attempts == hold.event.email.attempts
  }

  ghost predicate HoldsAreBacked(w: World) {
    Exclusive(w.holds) && forall worker :: worker in w.holds ==> Backed(w.rows, w.holds[worker])
  }

  lemma StepKeepsBacked(w: World, step: Step)
    requires Enabled(w, step) && Timely(w) && HoldsAreBacked(w)
    ensures HoldsAreBacked(Next(w, step))
  {
    var w' := Next(w, step);
    forall worker | worker in w'.holds
      ensures Backed(w'.rows, w'.holds[worker])
    {
      if worker in w.holds && w'.holds[worker] == w.holds[worker] {
        assert Backed(w.rows, w.holds[worker]);
      }
    }
  }

  /** As long as each holder reports within its lease, no two workers ever hold the same event. */
  lemma {:induction false} NoTwoHolders(w: World, steps: seq<Step>)
    requires LegalRun(w, steps) && TimelyRun(w, steps) && HoldsAreBacked(w)
    ensures HoldsAreBacked(After(w, steps))
    ensures Exclusive(After(w, steps).holds)
    decreases |steps|
  {
    if steps != [] {
      StepKeepsBacked(w, steps[0]);
      NoTwoHolders(Next(w, steps[0]), steps[1..]);
    }
  }

  /** A held event can be claimed by another worker exactly when its lease has ended and it has attempts left. */
  lemma ReclaimableIff(w: World, worker: string)
    requires HoldsAreBacked(w) && worker in w.holds
    ensures var hold := w.holds[worker];
            hold.event.eventId in w.rows &&
            (Claimable(w.rows[hold.event.eventId], w.clock) <==>
               hold.leaseEnd <= w.clock && hold.event.email.attempts < MAX_ATTEMPTS)
  {
    assert Backed(w.rows, w.holds[worker]);
  }

  // ---------------------------------------------------------------- backoff

  lemma {:induction false} PowersGrow(m: nat, n: nat)
    requires m <= n
    ensures PowerOfTwo(m) <= PowerOfTwo(n)
  {
    if m < n {
      PowersGrow(m, n - 1);
    }
  }

  lemma BackoffIsBounded(attempt: nat)
    ensures 1 <= Backoff(attempt) <= 1024
    ensures attempt <= 10 ==> Backoff(attempt) == PowerOfTwo(attempt)
  {
    PowersGrow(0, if attempt < 10 then attempt else 10);
    PowersGrow(if attempt < 10 then attempt else 10, 10);
    assert PowerOfTwo(10) == 1024;
  }

  ghost predicate NobodyHolds(holds: map<string, Hold>, id: Uuid) {
    forall worker :: worker in holds ==> holds[worker].event.eventId != id
  }

  lemma StepLeavesIdle(w: World, step: Step, id: Uuid)
    requires Enabled(w, step) && id in w.rows && NobodyHolds(w.holds, id) && !ClaimsEvent(step, id)
    ensures id in Next(w, step).rows && Next(w, step).rows[id] == w.rows[id] && NobodyHolds(Next(w, step).holds, id)
    ensures Next(w, step).clock >= w.clock
  {}

  lemma {:induction false} IdleUntilClaimed(w: World, steps: seq<Step>, id: Uuid)
    requires LegalRun(w, steps) && id in w.rows && NobodyHolds(w.holds, id) && Claims(steps, id) == 0
    ensures id in After(w, steps).rows && After(w, steps).rows[id] == w.rows[id]
    decreases |steps|
  {
    if steps != [] {
      StepLeavesIdle(w, steps[0], id);
      IdleUntilClaimed(Next(w, steps[0]), steps[1..], id);
    }
  }

  /** After the failure of attempt number n, the event is not claimed again before 2^n seconds have passed. */
  lemma BackoffIsRespected(w: World, worker: string, steps: seq<Step>, claim: Step)
    requires HoldsAreBacked(w) && worker in w.holds
    requires LegalRun(w, [Fail(worker)] + steps)
    requires Claims(steps, w.holds[worker].event.eventId) == 0
    requires ClaimsEvent(claim, w.holds[worker].event.eventId) && Enabled(After(w, [Fail(worker)] + steps), claim)
    ensures var id := w.holds[worker].event.eventId;
            id in w.rows && After(w, [Fail(worker)] + steps).clock >= w.clock + Backoff(w.rows[id].attempts)
  {
    var id := w.holds[worker].event.eventId;
    assert Backed(w.rows, w.holds[worker]);
    assert ([Fail(worker)] + steps)[1..] == steps;
    IdleUntilClaimed(Next(w, Fail(worker)), steps, id);
  }

  // ---------------------------------------------------------------- what a late holder breaks

  lemma OneMore(w: World, step: Step, steps: seq<Step>)
    requires Enabled(w, step) && LegalRun(Next(w, step), steps)
    ensures LegalRun(w, [step] + steps) && After(w, [step] + steps) == After(Next(w, step), steps)
  {
    assert ([step] + steps)[1..] == steps;
  }

  lemma FourSteps(w: World, a: Step, b: Step, c: Step, d: Step)
    requires Enabled(w, a) && Enabled(Next(w, a), b) && Enabled(Next(Next(w, a), b), c)
    requires Enabled(Next(Next(Next(w, a), b), c), d)
    ensures LegalRun(w, [a, b, c, d]) && After(w, [a, b, c, d]) == Next(Next(Next(Next(w, a), b), c), d)
  {
    OneMore(Next(Next(Next(w, a), b), c), d, []);
    OneMore(Next(Next(w, a), b), c, [d]);
    assert [c] + [d] == [c, d];
    OneMore(Next(w, a), b, [c, d]);
    assert [b] + [c, d] == [b, c, d];
    OneMore(w, a, [b, c, d]);
    assert [a] + [b, c, d] == [a, b, c, d];
    assert [d] + [] == [d];
  }

  /** A second worker takes over an event whose lease has ended; then the first one reports a failure. */
  lemma TakenOver(w: World, late: string, second: string, claim: Step)
    requires HoldsAreBacked(w) && late in w.holds && second !in w.holds
    requires w.holds[late].leaseEnd <= w.clock && w.holds[late].event.email.attempts < MAX_ATTEMPTS
    requires var id := w.holds[late].event.eventId; claim == Claim(second, id, w.rows.Keys - {id})
    ensures Enabled(w, claim) && Enabled(Next(w, claim), Fail(late))
    ensures var hold, w2 := w.holds[late], Next(Next(w, claim), Fail(late));
            var id := hold.event.eventId;
            && w2.clock == w.clock && w2.rows.Keys == w.rows.Keys && id in w2.rows
            && w2.holds.Keys == w.holds.Keys + {second} - {late}
            && w2.rows[id].deliveredAt.None? && w2.rows[id].attempts == hold.event.email.attempts + 1
            && w2.rows[id].nextAttemptAt == w.clock + Backoff(hold.event.email.attempts)
            && w2.holds[second].event.eventId == id && w2.holds[second].leaseEnd == w.clock + LEASE_SECONDS
  {
    assert Backed(w.rows, w.holds[late]);
  }

  /** After a takeover and a late failure report, the event can be claimed again within the successor's lease iff the
      late attempt was one of the first eight: the ninth backs off for longer than a lease, and after it the ten
      attempts are used up. */
  lemma LateFailureBreaksExclusionIff(w: World, late: string, second: string, claim: Step)
    requires HoldsAreBacked(w) && late in w.holds && second !in w.holds
    requires w.holds[late].leaseEnd <= w.clock && w.holds[late].event.email.attempts < MAX_ATTEMPTS
    requires var id := w.holds[late].event.eventId; claim == Claim(second, id, w.rows.Keys - {id})
    ensures Enabled(w, claim) && Enabled(Next(w, claim), Fail(late))
    ensures var w2, id := Next(Next(w, claim), Fail(late)), w.holds[late].event.eventId;
            && second in w2.holds && id in w2.rows
            && ((exists t :: w2.clock <= t < w2.holds[second].leaseEnd && Claimable(w2.rows[id], t)) <==>
                  w.holds[late].event.email.attempts <= 8)
  {
    var attempts := w.holds[late].event.email.attempts;
    TakenOver(w, late, second, claim);
    var w2, id := Next(Next(w, claim), Fail(late)), w.holds[late].event.eventId;
    if attempts <= 8 {
      PowersGrow(attempts, 8);
      assert PowerOfTwo(8) == 256;
      assert Claimable(w2.rows[id], w.clock + Backoff(attempts));
    }
  }

  /** Once an event is due, any free worker may claim it. */
  lemma DueIsClaimed(w: World, id: Uuid, third: string, claim: Step)
    requires id in w.rows && Claimable(w.rows[id], w.clock) && third !in w.holds
    requires claim == Claim(third, id, w.rows.Keys - {id})
    ensures Enabled(w, claim) && Next(w, claim).clock == w.clock
    ensures third in Next(w, claim).holds && Next(w, claim).holds[third].event.eventId == id
    ensures forall worker :: worker in w.holds ==>
              worker in Next(w, claim).holds && Next(w, claim).holds[worker] == w.holds[worker]
  {}

  /** Two workers hold the event, the first of them well within its lease. */
  ghost predicate HeldTwice(w: World, a: string, b: string, id: Uuid) {
    && a != b && a in w.holds && b in w.holds && w.clock < w.holds[a].leaseEnd
    && w.holds[a].event.eventId == id == w.holds[b].event.eventId
  }

  /** Whenever a worker outlives its lease on one of the first eight attempts and then reports a failure, it cuts the
      lease of its successor short: a third worker claims the event although the second is well within its lease. */
  lemma LateFailureBreaksExclusion(w: World, late: string, second: string, third: string, steps: seq<Step>)
    requires HoldsAreBacked(w) && late in w.holds && second !in w.holds && third !in w.holds && second != third
    requires w.holds[late].leaseEnd <= w.clock && w.holds[late].event.email.attempts <= 8
    requires var id, attempts := w.holds[late].event.eventId, w.holds[late].event.email.attempts;
             var others := w.rows.Keys - {id};
             steps == [Claim(second, id, others), Fail(late), Wait(w.clock + Backoff(attempts)),
                       Claim(third, id, others)]
    ensures LegalRun(w, steps) && HeldTwice(After(w, steps), second, third, w.holds[late].event.eventId)
  {
    var id, attempts := w.holds[late].event.eventId, w.holds[late].event.email.attempts;
    PowersGrow(attempts, 8);
    assert PowerOfTwo(8) == 256;
    TakenOver(w, late, second, steps[0]);
    var w2 := Next(Next(w, steps[0]), steps[1]);
    DueIsClaimed(Next(w2, steps[2]), id, third, steps[3]);
    FourSteps(w, steps[0], steps[1], steps[2], steps[3]);
  }
}
