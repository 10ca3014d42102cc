/** The outbox, column by column: which rows a claim takes and what each call writes, stated without the functions
    that compute it. */
module OutboxFacts {
  import opened Common
  import opened Outbox
  import opened OutboxRuns

  // ---------- A claim ----------

  /** The row is of the asked type and entity, and waits for an attempt whose time has come, or was leased and the
      lease ran out with an attempt left. */
  predicate Takeable(r: Row, now: int, f: Filter) {
    && (f.entityType == None || f.entityType == Some(r.entityType))
    && (f.entityId == None || f.entityId == Some(r.entityId))
    && (((r.status == Pending || r.status == Retry) && r.nextAttemptAt <= now)
        || (r.status == InFlight && r.leaseUntil.Some? && r.leaseUntil.value <= now && r.attempts < 5))
  }

  /** The takeable rows with a smaller id. */
  function TakeableBefore(rows: seq<Row>, i: nat, now: int, f: Filter): set<nat>
    requires i <= |rows|
  {
    set j: nat | j < i && Takeable(rows[j], now, f)
  }

  predicate Taken(rows: seq<Row>, i: nat, now: int, limit: nat, f: Filter)
    requires i < |rows|
  {
    Takeable(rows[i], now, f) && |TakeableBefore(rows, i, now, f)| < limit
  }

  /** A taken row is leased and its attempt counted; a lease that ran out is released, for good after five attempts;
      every other row stays as it was. */
  predicate ClaimedAs(r: Row, after: Row, taken: bool, now: int, lease: int) {
    && after.entityType == r.entityType && after.entityId == r.entityId && after.payload == r.payload
    && after.sentAt == r.sentAt
    && if taken then
         && after.status == InFlight && after.attempts == r.attempts + 1 && after.lastAttemptAt == Some(now)
         && after.leaseUntil == Some(now + lease) && after.lastError == r.lastError
         && after.nextAttemptAt == (if r.status == InFlight then now else r.nextAttemptAt)
       else if r.status == InFlight && r.leaseUntil.Some? && r.leaseUntil.value <= now then
         && after.attempts == r.attempts && after.lastAttemptAt == r.lastAttemptAt && after.leaseUntil == None
         && (r.attempts < 5 ==> after.status == Retry && after.nextAttemptAt == now && after.lastError == r.lastError)
         && (r.attempts >= 5 ==>
               && after.status == Dead && after.nextAttemptAt == r.nextAttemptAt
               && after.lastError == Some("delivery_lease_expired_after_max_attempts"))
       else after == r
  }

  lemma TakeableIsClaimable(r: Row, now: int, f: Filter)
    ensures Claimable(Reclaimed(r, now), now, f) <==> Takeable(r, now, f)
  {
  }

  lemma OneMoreTakeable(rows: seq<Row>, i: nat, now: int, f: Filter)
    requires i < |rows|
    ensures |TakeableBefore(rows, i + 1, now, f)|
         == |TakeableBefore(rows, i, now, f)| + if Takeable(rows[i], now, f) then 1 else 0
  {
    OneMore(TakeableBefore(rows, i, now, f), TakeableBefore(rows, i + 1, now, f), i, Takeable(rows[i], now, f));
  }

  lemma {:induction false} CountsTakeable(rows: seq<Row>, i: nat, now: int, f: Filter)
    requires i <= |rows|
    ensures ClaimableBefore(rows, i, now, f) == |TakeableBefore(rows, i, now, f)|
  {
    if i == 0 {
      assert TakeableBefore(rows, 0, now, f) == {};
    } else {
      CountsTakeable(rows, i - 1, now, f);
      TakeableIsClaimable(rows[i - 1], now, f);
      OneMoreTakeable(rows, i - 1, now, f);
    }
  }

  /** A claim takes exactly the takeable rows with fewer than `limit` takeable ones of smaller id, and does to every
      row what its columns call for. */
  lemma ClaimIsExact(rows: seq<Row>, now: int, limit: nat, lease: int, f: Filter, i: nat)
    requires i < |rows|
    ensures |AfterClaim(rows, now, limit, lease, f)| == |rows|
    ensures ClaimedAs(rows[i], AfterClaim(rows, now, limit, lease, f)[i], Taken(rows, i, now, limit, f), now, lease)
    ensures i in ChosenIds(rows, |rows|, now, limit, f) <==> Taken(rows, i, now, limit, f)
  {
    TakeableIsClaimable(rows[i], now, f);
    CountsTakeable(rows, i, now, f);
  }

  /** In particular a SENT, DEAD, live-leased or not yet due row is left alone, whatever is asked for. */
  lemma NotYetDueStays(rows: seq<Row>, now: int, limit: nat, lease: int, f: Filter, i: nat)
    requires i < |rows|
    requires || rows[i].status == Sent || rows[i].status == Dead
             || (rows[i].status == InFlight && rows[i].leaseUntil.Some? && rows[i].leaseUntil.value > now)
             || ((rows[i].status == Pending || rows[i].status == Retry) && rows[i].nextAttemptAt > now)
    ensures AfterClaim(rows, now, limit, lease, f)[i] == rows[i] && i !in ChosenIds(rows, |rows|, now, limit, f)
  {
    ClaimIsExact(rows, now, limit, lease, f, i);
  }

  // ---------- Acknowledgements and saves ----------

  /** The source row that a row announces is there. */
  predicate HasSource(db: Db, r: Row) {
    (r.entityType == Signal && r.entityId < |db.signalSent|) || (r.entityType == Watch && r.entityId < |db.watchSent|)
  }

  /** An acceptance marks the row SENT and raises its one source flag, both or neither. */
  lemma MarkSentIsExact(db: Db, id: nat, now: int)
    ensures MarkSent(db, id, now).Ok? <==> id < |db.rows| && HasSource(db, db.rows[id])
    ensures MarkSent(db, id, now).Ok? ==>
              var after, r := MarkSent(db, id, now).value, db.rows[id];
              && after.rows == db.rows[id := r.(status := Sent, sentAt := Some(now), leaseUntil := None)]
              && after.signalSent
                 == (if r.entityType == Signal then db.signalSent[r.entityId := true] else db.signalSent)
              && after.watchSent == (if r.entityType == Watch then db.watchSent[r.entityId := true] else db.watchSent)
  {
  }

  /** A failure report makes the row due again at the given time, or buries it after five attempts; flags stay. */
  lemma MarkRetryIsExact(db: Db, id: nat, error: string, next: int)
    ensures MarkRetry(db, id, error, next).Ok? <==> id < |db.rows|
    ensures MarkRetry(db, id, error, next).Ok? ==>
              var after, r := MarkRetry(db, id, error, next).value, db.rows[id];
              && after.signalSent == db.signalSent && after.watchSent == db.watchSent
              && after.rows == db.rows[id := r.(status := if r.attempts < 5 then Retry else Dead, nextAttemptAt := next,
                                                leaseUntil := None,
                                                lastError := Some(if |error| <= 1000 then error else error[..1000]))]
  {
  }

  /** A saved signal or watch gets the next source id and, with a payload, one untried row that is due at once. */
  lemma SaveIsExact(db: Db, signal: bool, sent: bool, payload: Option<string>, now: int)
    ensures var after := if signal then SaveSignal(db, sent, payload, now) else SaveWatch(db, sent, payload, now);
            && after.signalSent == (if signal then db.signalSent + [sent] else db.signalSent)
            && after.watchSent == (if signal then db.watchSent else db.watchSent + [sent])
            && (payload == None ==> after.rows == db.rows)
            && (payload.Some? ==>
                  && |after.rows| == |db.rows| + 1 && after.rows[..|db.rows|] == db.rows
                  && var r := after.rows[|db.rows|];
                     && r.entityType == (if signal then Signal else Watch)
                     && r.entityId == (if signal then |db.signalSent| else |db.watchSent|)
                     && r.payload == payload.value && r.status == Pending && r.attempts == 0 && r.nextAttemptAt == now
                     && r.lastAttemptAt == None && r.leaseUntil == None && r.sentAt == None && r.lastError == None)
  {
  }

  // ---------- A failed row waits ----------

  /** No step of the run reports a failure of the row. */
  predicate NoFailureOf(steps: seq<Step>, id: nat) {
    forall k | 0 <= k < |steps| :: steps[k].AckRetry? ==> steps[k].ticket.id != id
  }

  /** Every step that counts an attempt of the row comes at `next` or later. */
  predicate TriedOnlyFrom(s: Sys, steps: seq<Step>, id: nat, next: int)
    decreases |steps|
  {
    steps != [] ==>
      var after := Apply(s, steps[0]);
      && (id < |s.db.rows| && id < |after.db.rows| && after.db.rows[id].attempts != s.db.rows[id].attempts ==>
            s.now >= next)
      && TriedOnlyFrom(after, steps[1..], id, next)
  }

  /** The time has come, or the row still waits for it or is done. */
  predicate WaitsUntil(s: Sys, id: nat, next: int) {
    id < |s.db.rows| &&
    (s.now >= next
     || s.db.rows[id].status == Sent || s.db.rows[id].status == Dead
     || (s.db.rows[id].status == Retry && s.db.rows[id].nextAttemptAt == next))
  }

  lemma StepWaits(s: Sys, step: Step, id: nat, next: int)
    requires WaitsUntil(s, id, next) && (step.AckRetry? ==> step.ticket.id != id)
    ensures WaitsUntil(Apply(s, step), id, next)
    ensures Apply(s, step).db.rows[id].attempts != s.db.rows[id].attempts ==> s.now >= next
  {
    if step.Claim? && s.now < next {
      NotYetDueStays(s.db.rows, s.now, step.limit, step.lease, step.filter, id);
    }
  }

  lemma {:induction false} WaitingRowWaits(s: Sys, steps: seq<Step>, id: nat, next: int)
    requires WaitsUntil(s, id, next) && NoFailureOf(steps, id)
    ensures TriedOnlyFrom(s, steps, id, next)
    decreases |steps|
  {
    if steps != [] {
      StepWaits(s, steps[0], id, next);
      assert NoFailureOf(steps[1..], id);
      WaitingRowWaits(Apply(s, steps[0]), steps[1..], id, next);
    }
  }

  /** After a failure report with time `next`, and until the next report of the row, no claim takes the row before
      `next`, whatever all workers do. */
  lemma NoAttemptBeforeNext(s: Sys, t: Ticket, error: string, next: int, steps: seq<Step>)
    requires t.id < |s.db.rows| && NoFailureOf(steps, t.id)
    ensures TriedOnlyFrom(Apply(s, AckRetry(t, error, next)), steps, t.id, next)
  {
    MarkRetryIsExact(s.db, t.id, error, next);
    WaitingRowWaits(Apply(s, AckRetry(t, error, next)), steps, t.id, next);
  }
}
