/** What happens when looking a request up and deciding it are two steps, with those of others in between. */
module ApprovalRaces {
  import opened Types
  import opened Approvals

  /** A worker that found the request pending is about to write its decision. */
  datatype Intent = Intent(id: Uuid, approve: bool)

  datatype Race = Race(w: Workflow, intents: map<string, Intent>)

  datatype Move =
    | Other(step: Step)
    | Look(worker: string, tenantId: string, id: Uuid, approve: bool, now: int, later: int)
    | Write(worker: string, at: int)

  function Verdict(approve: bool): ApprovalStatus {
    if approve then Approved else Rejected
  }

  /** The write takes place. A repository may be guarded, so that it writes only what is still pending and not yet
      expired, and answers with an error otherwise. */
  predicate Takes(s: Race, worker: string, at: int, guarded: bool) {
    && worker in s.intents && s.intents[worker].id in s.w.requests
    && var r := s.w.requests[s.intents[worker].id];
    (guarded ==> r.status == Pending && at < r.expiresAt)
  }

  function Moved(s: Race, move: Move, guarded: bool): Race {
    match move
    case Other(step) => s.(w := Act(s.w, step))
    case Look(worker, tenantId, id, approve, now, later) =>
      var (w, found) := Get(s.w, tenantId, id, now, later);
      Race(w, if found.Ok? && found.value.status == Pending then s.intents[worker := Intent(id, approve)]
              else s.intents - {worker})
    case Write(worker, at) =>
      if !Takes(s, worker, at, guarded) then s.(intents := s.intents - {worker})
      else
        var id := s.intents[worker].id;
        var decided := s.w.requests[id].(status := Verdict(s.intents[worker].approve));
        Race(s.w.(requests := s.w.requests[id := decided], pendingGauge := s.w.pendingGauge - 1), s.intents - {worker})
  }

  /** Decisions are taken in two steps only. */
  predicate Allowed(s: Race, move: Move) {
    move.Other? ==> !move.step.Decision? && Enabled(s.w, move.step)
  }

  predicate LegalRace(s: Race, moves: seq<Move>, guarded: bool)
    decreases |moves|
  {
    moves == [] || (Allowed(s, moves[0]) && LegalRace(Moved(s, moves[0], guarded), moves[1..], guarded))
  }

  function RaceAfter(s: Race, moves: seq<Move>, guarded: bool): Race
    decreases |moves|
  {
    if moves == [] then s else RaceAfter(Moved(s, moves[0], guarded), moves[1..], guarded)
  }

  /** A write that takes place although the request is no longer pending. */
  predicate IsStale(s: Race, move: Move, guarded: bool) {
    && move.Write? && Takes(s, move.worker, move.at, guarded)
    && s.w.requests[s.intents[move.worker].id].status != Pending
  }

  function StaleWrites(s: Race, moves: seq<Move>, guarded: bool): nat
    decreases |moves|
  {
    if moves == [] then 0
    else
      (if IsStale(s, moves[0], guarded) then 1 else 0) + StaleWrites(Moved(s, moves[0], guarded), moves[1..], guarded)
  }

  // ---------------------------------------------------------------- the gauge

  /** How far the gauge is off. */
  function Drift(w: Workflow): int {
    |PendingIds(w.requests)| - w.pendingGauge
  }

  lemma SameDrift(w: Workflow, w': Workflow)
    requires w'.requests == w.requests && w'.pendingGauge == w.pendingGauge
    ensures Drift(w') == Drift(w)
  {}

  lemma ExpireDrift(w: Workflow, now: int)
    ensures Drift(Expire(w, now)) == Drift(w)
  {
    var due, pending := DueIds(w.requests, now), PendingIds(w.requests);
    assert due <= pending;
    assert PendingIds(Expire(w, now).requests) == pending - due;
  }

  lemma RetryDrift(w: Workflow, step: Step)
    requires step.Retry?
    ensures Drift(Act(w, step)) == Drift(w)
  {
    hide Drift;
    RetryEffect(w, step.tenantId, step.principalId, step.id, step.key, step.hash, step.now, step.later);
    ExpireDrift(w, step.now);
    var w' := Act(w, step);
    SameDrift(w', w'.(executions := w.executions));
  }

  lemma StepDrift(w: Workflow, step: Step)
    requires Enabled(w, step) && !step.Decision?
    ensures Drift(Act(w, step)) == Drift(w)
  {
    match step {
      case Request(r) =>
        assert PendingIds(w.requests[r.approvalId := r]) == PendingIds(w.requests) + {r.approvalId};
      case Sweep(now) => ExpireDrift(w, now);
      case Retry(tenantId, principalId, id, key, hash, now, later) =>
        RetryDrift(w, step);
      case Report(_, _, _) =>
      case Fail(_, _) =>
    }
  }

  lemma WriteDrift(s: Race, worker: string, at: int, guarded: bool)
    ensures Drift(Moved(s, Write(worker, at), guarded).w) ==
            Drift(s.w) + if IsStale(s, Write(worker, at), guarded) then 1 else 0
  {
    if Takes(s, worker, at, guarded) {
      var id := s.intents[worker].id;
      var before, after := s.w.requests, Moved(s, Write(worker, at), guarded).w.requests;
      assert PendingIds(after) == PendingIds(before) - {id};
    }
  }

  lemma MoveDrift(s: Race, move: Move, guarded: bool)
    requires Allowed(s, move)
    ensures Drift(Moved(s, move, guarded).w) == Drift(s.w) + if IsStale(s, move, guarded) then 1 else 0
  {
    match move {
      case Other(step) => StepDrift(s.w, step);
      case Look(_, _, _, _, now, _) => ExpireDrift(s.w, now);
      case Write(worker, at) => WriteDrift(s, worker, at, guarded);
    }
  }

  /** In every interleaving the gauge falls behind by the number of stale writes. */
  lemma {:induction false} DriftIsStaleWrites(s: Race, moves: seq<Move>, guarded: bool)
    requires LegalRace(s, moves, guarded)
    ensures Drift(RaceAfter(s, moves, guarded).w) == Drift(s.w) + StaleWrites(s, moves, guarded)
    decreases |moves|
  {
    if moves != [] {
      MoveDrift(s, moves[0], guarded);
      DriftIsStaleWrites(Moved(s, moves[0], guarded), moves[1..], guarded);
    }
  }

  lemma {:induction false} GuardedIsNeverStale(s: Race, moves: seq<Move>)
    ensures StaleWrites(s, moves, true) == 0
    decreases |moves|
  {
    if moves != [] {
      GuardedIsNeverStale(Moved(s, moves[0], true), moves[1..]);
    }
  }

  /** A gauge that was exact stays exact iff no write is stale, which a guarded repository makes sure of. */
  lemma GaugeIsExactIff(s: Race, moves: seq<Move>, guarded: bool)
    requires LegalRace(s, moves, guarded) && GaugeIsExact(s.w)
    ensures GaugeIsExact(RaceAfter(s, moves, guarded).w) <==> StaleWrites(s, moves, guarded) == 0
    ensures guarded ==> GaugeIsExact(RaceAfter(s, moves, guarded).w)
  {
    DriftIsStaleWrites(s, moves, guarded);
    if guarded {
      GuardedIsNeverStale(s, moves);
    }
  }

  // ---------------------------------------------------------------- which writes are stale

  /** The clock by which a move sweeps expired requests, if it does. */
  function SweepsAt(move: Move): Option<int> {
    match move
    case Look(_, _, _, _, now, _) => Some(now)
    case Other(Sweep(now)) => Some(now)
    case Other(Retry(_, _, _, key, _, now, _)) => if UsableKey(key) then Some(now) else None
    case _ => None
  }

  /** The move settles a pending request: somebody else's write, or a sweep after its time. */
  predicate Settles(s: Race, move: Move, id: Uuid, guarded: bool) {
    id in s.w.requests &&
    if move.Write? then Takes(s, move.worker, move.at, guarded) && s.intents[move.worker].id == id
    else SweepsAt(move).Some? && s.w.requests[id].expiresAt <= SweepsAt(move).value
  }

  predicate Untouched(s: Race, moves: seq<Move>, id: Uuid, guarded: bool)
    decreases |moves|
  {
    moves == [] ||
    (!Settles(s, moves[0], id, guarded) && Untouched(Moved(s, moves[0], guarded), moves[1..], id, guarded))
  }

  predicate IsPending(w: Workflow, id: Uuid) {
    id in w.requests && w.requests[id].status == Pending
  }

  lemma MoveSettles(s: Race, move: Move, id: Uuid, guarded: bool)
    requires Allowed(s, move) && id in s.w.requests
    ensures IsPending(Moved(s, move, guarded).w, id) <==> IsPending(s.w, id) && !Settles(s, move, id, guarded)
    ensures id in Moved(s, move, guarded).w.requests
  {
    if move.Other? && move.step.Retry? {
      var step := move.step;
      RetryEffect(s.w, step.tenantId, step.principalId, step.id, step.key, step.hash, step.now, step.later);
      RetrySweeps(s.w, step);
    }
  }

  lemma RetrySweeps(w: Workflow, step: Step)
    requires step.Retry?
    ensures Act(w, step).requests == if UsableKey(step.key) then ExpireRequests(w.requests, step.now) else w.requests
  {}

  /** A pending request is still pending after a run iff no move of it settled the request. */
  lemma {:induction false} PendingIff(s: Race, moves: seq<Move>, id: Uuid, guarded: bool)
    requires LegalRace(s, moves, guarded) && id in s.w.requests
    ensures IsPending(RaceAfter(s, moves, guarded).w, id) <==> IsPending(s.w, id) && Untouched(s, moves, id, guarded)
    ensures id in RaceAfter(s, moves, guarded).w.requests
    decreases |moves|
  {
    if moves != [] {
      MoveSettles(s, moves[0], id, guarded);
      PendingIff(Moved(s, moves[0], guarded), moves[1..], id, guarded);
      if IsPending(s.w, id) && !Settles(s, moves[0], id, guarded) {
      } else {
        SettledStays(Moved(s, moves[0], guarded), moves[1..], id, guarded);
      }
    }
  }

  lemma {:induction false} SettledStays(s: Race, moves: seq<Move>, id: Uuid, guarded: bool)
    requires LegalRace(s, moves, guarded) && id in s.w.requests && !IsPending(s.w, id)
    ensures !IsPending(RaceAfter(s, moves, guarded).w, id)
    decreases |moves|
  {
    if moves != [] {
      MoveSettles(s, moves[0], id, guarded);
      SettledStays(Moved(s, moves[0], guarded), moves[1..], id, guarded);
    }
  }

  /** Without the guard, the write of a worker that found its request pending is stale iff somebody else's write, or a
      sweep after its time, came in between. */
  lemma StaleIff(s: Race, worker: string, at: int, moves: seq<Move>)
    requires LegalRace(s, moves, false) && worker in s.intents && IsPending(s.w, s.intents[worker].id)
    requires worker in RaceAfter(s, moves, false).intents
    requires RaceAfter(s, moves, false).intents[worker] == s.intents[worker]
    ensures IsStale(RaceAfter(s, moves, false), Write(worker, at), false) <==>
            !Untouched(s, moves, s.intents[worker].id, false)
  {
    PendingIff(s, moves, s.intents[worker].id, false);
  }

  /** A worker that writes at once decides as a single step does. */
  lemma AtOnceIsDecide(s: Race, worker: string, tenantId: string, id: Uuid, approve: bool, now: int, later: int,
                       at: int)
    ensures Moved(Moved(s, Look(worker, tenantId, id, approve, now, later), false), Write(worker, at), false).w ==
            Decide(s.w, tenantId, id, approve, now, later).0
  {}

  // ---------------------------------------------------------------- final states

  /** A move changes a final state iff it is a write without the guard that says otherwise. */
  lemma FinalChangesIff(s: Race, move: Move, id: Uuid, guarded: bool)
    requires Allowed(s, move) && id in s.w.requests && Final(s.w.requests[id].status)
    ensures id in Moved(s, move, guarded).w.requests
    ensures Moved(s, move, guarded).w.requests[id] != s.w.requests[id] <==>
            && !guarded && move.Write? && move.worker in s.intents && s.intents[move.worker].id == id
            && Verdict(s.intents[move.worker].approve) != s.w.requests[id].status
  {
    if move.Other? && move.step.Retry? {
      RetrySweeps(s.w, move.step);
    }
  }

  /** Two decisions on a pending request, one to approve and one to reject, of which both look before either writes. */
  function Duel(id: Uuid, tenantId: string, now: int): seq<Move> {
    [Look("a", tenantId, id, true, now, now), Look("b", tenantId, id, false, now, now), Write("a", now),
     Write("b", now)]
  }

  lemma ThenRun(s: Race, move: Move, moves: seq<Move>, guarded: bool)
    requires !move.Other? && LegalRace(Moved(s, move, guarded), moves, guarded)
    ensures LegalRace(s, [move] + moves, guarded)
    ensures RaceAfter(s, [move] + moves, guarded) == RaceAfter(Moved(s, move, guarded), moves, guarded)
  {
    assert ([move] + moves)[1..] == moves;
  }

  lemma FourMoves(s: Race, a: Move, b: Move, c: Move, d: Move, guarded: bool)
    requires !a.Other? && !b.Other? && !c.Other? && !d.Other?
    ensures var s3 := Moved(Moved(Moved(s, a, guarded), b, guarded), c, guarded);
            && LegalRace(s, [a, b, c, d], guarded)
            && RaceAfter(s, [a, b, c], guarded) == s3
            && RaceAfter(s, [a, b, c, d], guarded) == Moved(s3, d, guarded)
  {
    hide Moved;
    var s1 := Moved(s, a, guarded);
    var s2 := Moved(s1, b, guarded);
    var s3 := Moved(s2, c, guarded);
    ThenRun(s3, d, [], guarded);
    ThenRun(s2, c, [d], guarded);
    ThenRun(s1, b, [c, d], guarded);
    ThenRun(s, a, [b, c, d], guarded);
    ThenRun(s2, c, [], guarded);
    ThenRun(s1, b, [c], guarded);
    ThenRun(s, a, [b, c], guarded);
    assert [d] + [] == [d] && [c] + [d] == [c, d] && [b] + [c, d] == [b, c, d] && [a] + [b, c, d] == [a, b, c, d];
    assert [c] + [] == [c] && [b] + [c] == [b, c] && [a] + [b, c] == [a, b, c];
  }

  function StatusOf(w: Workflow, id: Uuid): Option<ApprovalStatus> {
    if id in w.requests then Some(w.requests[id].status) else None
  }

  /** After both have looked. */
  ghost predicate BothLooked(s: Race, id: Uuid, now: int) {
    && IsPending(s.w, id) && now < s.w.requests[id].expiresAt && Drift(s.w) == 0
    && "a" in s.intents && s.intents["a"] == Intent(id, true)
    && "b" in s.intents && s.intents["b"] == Intent(id, false)
  }

  lemma LookingTwice(s: Race, id: Uuid, tenantId: string, now: int, guarded: bool)
    requires IsPending(s.w, id) && s.w.requests[id].tenantId == tenantId && now < s.w.requests[id].expiresAt
    requires GaugeIsExact(s.w)
    ensures var duel := Duel(id, tenantId, now);
            BothLooked(Moved(Moved(s, duel[0], guarded), duel[1], guarded), id, now)
  {
    var duel := Duel(id, tenantId, now);
    MoveDrift(s, duel[0], guarded);
    MoveDrift(Moved(s, duel[0], guarded), duel[1], guarded);
  }

  lemma WritingTwice(s: Race, id: Uuid, now: int, guarded: bool)
    requires BothLooked(s, id, now)
    ensures var s3 := Moved(s, Write("a", now), guarded);
            var s4 := Moved(s3, Write("b", now), guarded);
            && StatusOf(s3.w, id) == Some(Approved)
            && StatusOf(s4.w, id) == Some(if guarded then Approved else Rejected)
            && Drift(s4.w) == if guarded then 0 else 1
  {
    WriteDrift(s, "a", now, guarded);
    WriteDrift(Moved(s, Write("a", now), guarded), "b", now, guarded);
  }

  /** Without the guard the request is approved and then rejected, and the gauge falls twice; with it the approval
      stands and the gauge is exact. */
  lemma DuelEnds(s: Race, id: Uuid, tenantId: string, now: int, guarded: bool)
    requires IsPending(s.w, id) && s.w.requests[id].tenantId == tenantId && now < s.w.requests[id].expiresAt
    requires GaugeIsExact(s.w)
    ensures var duel := Duel(id, tenantId, now);
            && LegalRace(s, duel, guarded)
            && StatusOf(RaceAfter(s, duel[..3], guarded).w, id) == Some(Approved)
            && StatusOf(RaceAfter(s, duel, guarded).w, id) == Some(if guarded then Approved else Rejected)
            && (GaugeIsExact(RaceAfter(s, duel, guarded).w) <==> guarded)
  {
    hide Moved, LegalRace, RaceAfter;
    var duel := Duel(id, tenantId, now);
    assert duel[..3] == [duel[0], duel[1], duel[2]];
    FourMoves(s, duel[0], duel[1], duel[2], duel[3], guarded);
    LookingTwice(s, id, tenantId, now, guarded);
    WritingTwice(Moved(Moved(s, duel[0], guarded), duel[1], guarded), id, now, guarded);
  }
}
