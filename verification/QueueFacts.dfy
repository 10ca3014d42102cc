/** The outcome queue, column by column: which rows a cycle processes and what it writes, stated without the functions
    that compute it. */
module QueueFacts {
  import opened Common
  import opened DueOrder
  import opened OutcomeQueue

  // ---------- Which rows a cycle processes ----------

  /** The row is tracked and has no outcome yet, an incomplete one whose time has come or was never set, or an unknown
      one whose time has come. */
  predicate ToTry(r: Row, now: int) {
    r.tracked &&
    (r.status == None
     || (r.status == Some(Incomplete) && (r.nextAttemptAt == None || r.nextAttemptAt.value <= now))
     || (r.status == Some(Unknown) && r.nextAttemptAt.Some? && r.nextAttemptAt.value <= now))
  }

  function PlaceOf(r: Row): int { if r.nextAttemptAt.Some? then r.nextAttemptAt.value else r.observedAt }

  /** Row `a` comes before row `b`: by next attempt or else observation time, then by observation time, then by id. */
  predicate Earlier(a: Row, x: ObservationId, b: Row, y: ObservationId) {
    PlaceOf(a) < PlaceOf(b)
    || (PlaceOf(a) == PlaceOf(b) && (a.observedAt < b.observedAt || (a.observedAt == b.observedAt && x < y)))
  }

  function TriedBefore(t: Table, now: int, id: ObservationId): set<ObservationId>
    requires id in t
  {
    set x | x in t && ToTry(t[x], now) && Earlier(t[x], x, t[id], id)
  }

  /** The row is to be tried and fewer than a hundred such rows come before it. */
  predicate Processed(t: Table, now: int, id: ObservationId) {
    id in t && ToTry(t[id], now) && |TriedBefore(t, now, id)| < 100
  }

  function SlotsOf(t: Table, ids: set<ObservationId>): set<Slot>
    requires ids <= t.Keys
  {
    set id | id in ids :: SlotOf(id, t[id])
  }

  lemma Element<T>(s: set<T>) returns (x: T)
    requires s != {}
    ensures x in s
  {
    x :| x in s;
  }

  lemma {:induction false} SlotsCount(t: Table, ids: set<ObservationId>)
    requires ids <= t.Keys
    ensures |SlotsOf(t, ids)| == |ids|
    decreases |ids|
  {
    if ids != {} {
      var id := Element(ids);
      SlotsCount(t, ids - {id});
      assert SlotsOf(t, ids) == SlotsOf(t, ids - {id}) + {SlotOf(id, t[id])};
      assert SlotOf(id, t[id]) !in SlotsOf(t, ids - {id});
    } else {
      assert SlotsOf(t, ids) == {};
    }
  }

  lemma ToTryIsDue(r: Row, now: int)
    ensures Due(r, now) <==> ToTry(r, now)
  {
  }

  lemma EarlierIsAhead(t: Table, now: int, id: ObservationId)
    requires id in t
    ensures Ahead(DueSlots(t, now, {}), SlotOf(id, t[id])) == SlotsOf(t, TriedBefore(t, now, id))
  {
    var ahead, slots := Ahead(DueSlots(t, now, {}), SlotOf(id, t[id])), SlotsOf(t, TriedBefore(t, now, id));
    forall slot | slot in ahead ensures slot in slots {
      var x :| x in t && Due(t[x], now) && x !in {} && slot == SlotOf(x, t[x]);
      assert x in TriedBefore(t, now, id);
    }
    forall slot | slot in slots ensures slot in ahead {
      var x :| x in TriedBefore(t, now, id) && slot == SlotOf(x, t[x]);
      assert Due(t[x], now) && x !in {};
    }
  }

  lemma SlotIsDue(t: Table, now: int, id: ObservationId)
    requires id in t && SlotOf(id, t[id]) in DueSlots(t, now, {})
    ensures Due(t[id], now)
  {
    var x :| x in t && Due(t[x], now) && x !in {} && SlotOf(id, t[id]) == SlotOf(x, t[x]);
    assert x == id;
  }

  lemma ProcessedExactly(t: Table, now: int, id: ObservationId)
    ensures InCycle(t, now, id) <==> Processed(t, now, id)
  {
    if id in t {
      var slots, slot := DueSlots(t, now, {}), SlotOf(id, t[id]);
      ToTryIsDue(t[id], now);
      EarlierIsAhead(t, now, id);
      SlotsCount(t, TriedBefore(t, now, id));
      if slot in SetOf(Head(slots, CYCLE_SIZE)) {
        SlotIsDue(t, now, id);
      }
      if Due(t[id], now) {
        assert slot in slots;
        RankIsPosition(slots, slot, 100);
      }
    }
  }

  // ---------- What a cycle writes ----------

  /** The minutes to wait after so many earlier attempts. */
  function Wait(attempts: nat): nat {
    if attempts == 0 then 1
    else if attempts == 1 then 2
    else if attempts == 2 then 4
    else if attempts == 3 then 8
    else if attempts == 4 then 16
    else if attempts == 5 then 32
    else 60
  }

  /** The reported status, one more attempt, and no next attempt, one in a minute, or one after the wait. */
  predicate Reported(r: Row, after: Row, o: Outcome, now: int) {
    && after.tracked == r.tracked && after.observedAt == r.observedAt
    && after.status == Some(o.status) && after.attempts == r.attempts + 1
    && after.nextAttemptAt
       == (if !o.retryable then None
           else if o.status == Incomplete then Some(now + 60)
           else Some(now + Wait(r.attempts) * 60))
  }

  lemma WaitIsDelay(attempts: nat)
    ensures DelayMinutes(attempts) == Wait(attempts)
  {
    assert Pow2(1) == 2 && Pow2(2) == 4 && Pow2(3) == 8;
    assert Pow2(4) == 16 && Pow2(5) == 32 && Pow2(6) == 64;
  }

  /** After a cycle every processed row whose write succeeds is as its report says, and every other row as it was. */
  lemma CycleIsExact(t: Table, now: int, outcomes: ObservationId -> Outcome, persists: ObservationId -> bool,
                     id: ObservationId)
    requires id in t
    ensures var after := AfterCycle(t, now, outcomes, persists);
            && after.Keys == t.Keys
            && if Processed(t, now, id) && persists(id) then Reported(t[id], after[id], outcomes(id), now)
               else after[id] == t[id]
  {
    ProcessedExactly(t, now, id);
    WaitIsDelay(t[id].attempts);
  }

  /** The count that a cycle reports is the number of processed rows whose write succeeds. */
  lemma CycleCounts(t: Table, now: int, persists: ObservationId -> bool)
    ensures |Persisting(SetOf(DueIds(t, now)[..Min(100, |DueIds(t, now)|)]), persists)|
         == |set id | id in t && Processed(t, now, id) && persists(id)|
  {
    var head, k := Head(DueSlots(t, now, {}), 100), Min(100, |DueIds(t, now)|);
    var written := set id | id in t && Processed(t, now, id) && persists(id);
    IdsOfSlice(Sorted(DueSlots(t, now, {})), 0, k);
    assert IdsOf(head) == DueIds(t, now)[..k];
    forall id ensures id in DueIds(t, now)[..k] <==> id in t && Processed(t, now, id) {
      ListedById(t, now, {}, head, id);
      ProcessedExactly(t, now, id);
    }
    assert Persisting(SetOf(DueIds(t, now)[..k]), persists) == written;
  }

  // ---------- A row rests until its next attempt ----------

  function TableAfter(t: Table, rounds: seq<Round>): Table
    decreases |rounds|
  {
    if rounds == [] then t else TableAfter(After(t, rounds[0]), rounds[1..])
  }

  /** Every round comes before the row's time and brings only other rows. */
  predicate AllBefore(rounds: seq<Round>, id: ObservationId, next: int) {
    forall k | 0 <= k < |rounds| :: rounds[k].now < next && id !in rounds[k].arrivals
  }

  /** Not to be tried before `next`; a complete row, or an unknown one without a next attempt, never. */
  predicate Resting(r: Row, next: int) {
    || r.status == Some(Complete)
    || (r.status == Some(Unknown) && r.nextAttemptAt == None)
    || (r.status.Some? && r.nextAttemptAt.Some? && next <= r.nextAttemptAt.value)
  }

  lemma RoundRests(t: Table, r: Round, id: ObservationId, next: int)
    requires id in t && Resting(t[id], next) && r.now < next && id !in r.arrivals
    ensures id in After(t, r) && After(t, r)[id] == t[id]
  {
    CycleIsExact(t, r.now, r.outcomes, r.persists, id);
  }

  /** No round before its next attempt touches a row, and none ever touches one that is complete, or unknown without a
      next attempt. */
  lemma {:induction false} RestsUntilNext(t: Table, rounds: seq<Round>, id: ObservationId, next: int)
    requires id in t && Resting(t[id], next) && AllBefore(rounds, id, next)
    ensures id in TableAfter(t, rounds) && TableAfter(t, rounds)[id] == t[id]
    decreases |rounds|
  {
    if rounds != [] {
      RoundRests(t, rounds[0], id, next);
      RestsUntilNext(After(t, rounds[0]), rounds[1..], id, next);
    }
  }
}
