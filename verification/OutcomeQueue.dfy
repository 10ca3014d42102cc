/** The strategy-observation outcome queue: the due list and update of app/storage/repository.py and the
    batched cycle and backoff of app/outcomes/tracker.py.  Observation ids are integers that compare as
    the stored ids do; times are integers, in seconds. */
module OutcomeQueue {
  import opened Common
  import opened DueOrder

  const BATCH_SIZE: nat := 25
  const MAX_BATCHES: nat := 4
  const CYCLE_SIZE: nat := 100
  const MINUTE := 60

  type ObservationId = int

  datatype Status = Complete | Incomplete | Unknown

  datatype Row = Row(tracked: bool, observedAt: int, status: Option<Status>, nextAttemptAt: Option<int>, attempts: nat)

  type Table = map<ObservationId, Row>

  datatype Outcome = Outcome(status: Status, retryable: bool)

  // ---------- The due query ----------

  predicate Due(r: Row, now: int) {
    r.tracked
    && match r.status
       case None => true
       case Some(Incomplete) => r.nextAttemptAt == None || r.nextAttemptAt.value <= now
       case Some(Unknown) => r.nextAttemptAt.Some? && r.nextAttemptAt.value <= now
       case Some(Complete) => false
  }

  function SlotOf(id: ObservationId, r: Row): Slot {
    Slot(if r.nextAttemptAt.Some? then r.nextAttemptAt.value else r.observedAt, r.observedAt, id)
  }

  /** The due rows that are not excluded, as the places they take in the query order. */
  function DueSlots(t: Table, now: int, excluded: set<ObservationId>): set<Slot> {
    set id | id in t && Due(t[id], now) && id !in excluded :: SlotOf(id, t[id])
  }

  function IdsOf(slots: seq<Slot>): (ids: seq<ObservationId>)
    ensures |ids| == |slots|
  {
    seq(|slots|, i requires 0 <= i < |slots| => slots[i].id)
  }

  function ListDue(t: Table, now: int, excluded: set<ObservationId>, limit: nat): seq<ObservationId> {
    IdsOf(Head(DueSlots(t, now, excluded), limit))
  }

  // ---------- One update ----------

  function Pow2(n: nat): nat { if n == 0 then 1 else 2 * Pow2(n - 1) }

  function DelayMinutes(attempts: nat): nat { Min(60, Pow2(Min(attempts, 6))) }

  function NextAttempt(o: Outcome, now: int, attempts: nat): Option<int> {
    if !o.retryable then None
    else if o.status == Incomplete then Some(now + MINUTE)
    else Some(now + DelayMinutes(attempts) * MINUTE)
  }

  function Updated(r: Row, o: Outcome, now: int): Row {
    r.(status := Some(o.status), nextAttemptAt := NextAttempt(o, now, r.attempts), attempts := r.attempts + 1)
  }

  /** The backoff doubles from one minute and settles at sixty. */
  lemma BackoffDoublesThenSettles(attempts: nat)
    ensures 1 <= DelayMinutes(attempts) <= 60
    ensures DelayMinutes(attempts) <= DelayMinutes(attempts + 1)
    ensures attempts < 5 ==> DelayMinutes(attempts + 1) == 2 * DelayMinutes(attempts)
    ensures attempts >= 6 ==> DelayMinutes(attempts) == 60
  {
    assert Pow2(1) == 2 && Pow2(2) == 4 && Pow2(3) == 8;
    assert Pow2(4) == 16 && Pow2(5) == 32 && Pow2(6) == 64;
  }

  // ---------- One cycle ----------

  /** The rows a cycle processes: the first hundred of the due order at its start. */
  predicate InCycle(t: Table, now: int, id: ObservationId) {
    id in t && SlotOf(id, t[id]) in Head(DueSlots(t, now, {}), CYCLE_SIZE)
  }

  function AfterCycle(t: Table, now: int, outcomes: ObservationId -> Outcome,
                      persists: ObservationId -> bool): (t': Table)
    ensures t'.Keys == t.Keys
  {
    map id | id in t :: if InCycle(t, now, id) && persists(id) then Updated(t[id], outcomes(id), now) else t[id]
  }

  lemma DueSlotsAreRows(t: Table, now: int, excluded: set<ObservationId>, slots: seq<Slot>)
    requires SetOf(slots) <= DueSlots(t, now, excluded)
    ensures forall i | 0 <= i < |slots| :: slots[i].id in t && slots[i] == SlotOf(slots[i].id, t[slots[i].id])
  {
    forall i | 0 <= i < |slots| ensures slots[i].id in t && slots[i] == SlotOf(slots[i].id, t[slots[i].id]) {
      assert slots[i] in SetOf(slots);
    }
  }

  /** A row is listed exactly when its slot is. */
  lemma ListedById(t: Table, now: int, excluded: set<ObservationId>, slots: seq<Slot>, id: ObservationId)
    requires SetOf(slots) <= DueSlots(t, now, excluded)
    ensures id in IdsOf(slots) <==> id in t && SlotOf(id, t[id]) in slots
  {
    DueSlotsAreRows(t, now, excluded, slots);
    if id in IdsOf(slots) {
      var i :| 0 <= i < |slots| && IdsOf(slots)[i] == id;
      assert slots[i] == SlotOf(id, t[id]);
    }
    if id in t && SlotOf(id, t[id]) in slots {
      var i :| 0 <= i < |slots| && slots[i] == SlotOf(id, t[id]);
      assert IdsOf(slots)[i] == id;
    }
  }

  /** The rows left after some head was attempted are due exactly as they were when the cycle began. */
  lemma DueSlotsShrink(t: Table, t': Table, now: int, done: seq<Slot>)
    requires t.Keys == t'.Keys && SetOf(done) <= DueSlots(t, now, {})
    requires forall id | id in t && id !in IdsOf(done) :: t'[id] == t[id]
    ensures DueSlots(t', now, SetOf(IdsOf(done))) == DueSlots(t, now, {}) - SetOf(done)
  {
    forall slot | slot in DueSlots(t', now, SetOf(IdsOf(done))) ensures slot in DueSlots(t, now, {}) - SetOf(done) {
      var id :| id in t' && Due(t'[id], now) && id !in SetOf(IdsOf(done)) && slot == SlotOf(id, t'[id]);
      ListedById(t, now, {}, done, id);
    }
    forall slot | slot in DueSlots(t, now, {}) - SetOf(done) ensures slot in DueSlots(t', now, SetOf(IdsOf(done))) {
      var id :| id in t && Due(t[id], now) && id !in {} && slot == SlotOf(id, t[id]);
      ListedById(t, now, {}, done, id);
      assert t'[id] == t[id];
    }
  }

  /** The ids of all due rows, in the order the query gives at the start of a cycle. */
  function DueIds(t: Table, now: int): (ids: seq<ObservationId>)
    ensures |ids| == |DueSlots(t, now, {})|
  {
    IdsOf(Sorted(DueSlots(t, now, {})))
  }

  predicate Distinct(ids: seq<ObservationId>) {
    forall i, j | 0 <= i < j < |ids| :: ids[i] != ids[j]
  }

  predicate Rows(t: Table, ids: seq<ObservationId>) {
    forall i | 0 <= i < |ids| :: ids[i] in t
  }

  predicate NoneIn(ids: seq<ObservationId>, done: seq<ObservationId>) {
    forall i | 0 <= i < |ids| :: ids[i] !in done
  }

  lemma DueIdsDistinct(t: Table, now: int)
    ensures Distinct(DueIds(t, now)) && Rows(t, DueIds(t, now))
  {
    var order := Sorted(DueSlots(t, now, {}));
    DueSlotsAreRows(t, now, {}, order);
    forall i, j | 0 <= i < j < |order| ensures order[i].id != order[j].id {
      SortedAscends(DueSlots(t, now, {}), i, j);
    }
  }

  lemma IdsOfSlice(slots: seq<Slot>, a: nat, b: nat)
    requires a <= b <= |slots|
    ensures IdsOf(slots[a..b]) == IdsOf(slots)[a..b]
  {
  }

  lemma PrefixSubset(s: seq<Slot>, k: nat)
    requires k <= |s|
    ensures SetOf(s[..k]) <= SetOf(s)
  {
    assert forall y | y in s[..k] :: y in s;
  }

  /** While a cycle runs, what is left of the due order is what was left of it at the start. */
  lemma RestOfOrder(t: Table, t': Table, now: int, order: seq<Slot>, k: nat)
    requires order == Sorted(DueSlots(t, now, {})) && k <= |order| && t.Keys == t'.Keys
    requires forall id | id in t && id !in IdsOf(order[..k]) :: t'[id] == t[id]
    ensures Sorted(DueSlots(t', now, SetOf(IdsOf(order[..k])))) == order[k..]
  {
    PrefixSubset(order, k);
    DueSlotsShrink(t, t', now, order[..k]);
    SortedDrop(DueSlots(t, now, {}), k);
  }

  /** The next batch of the query is the next slice of the due order at the start. */
  lemma NextBatch(t: Table, t': Table, now: int, order: seq<Slot>, k: nat)
    requires order == Sorted(DueSlots(t, now, {})) && k <= |order| && t.Keys == t'.Keys
    requires forall id | id in t && id !in IdsOf(order[..k]) :: t'[id] == t[id]
    ensures ListDue(t', now, SetOf(IdsOf(order[..k])), BATCH_SIZE) == IdsOf(order)[k..k + Min(BATCH_SIZE, |order| - k)]
  {
    RestOfOrder(t, t', now, order, k);
    ListOfRest(t', now, SetOf(IdsOf(order[..k])), order[k..]);
    SliceOfIds(order, k, k + Min(BATCH_SIZE, |order| - k));
  }

  lemma ListOfRest(t: Table, now: int, excluded: set<ObservationId>, rest: seq<Slot>)
    requires Sorted(DueSlots(t, now, excluded)) == rest
    ensures ListDue(t, now, excluded, BATCH_SIZE) == IdsOf(rest[..Min(BATCH_SIZE, |rest|)])
  {
  }

  lemma SliceOfIds(order: seq<Slot>, k: nat, k': nat)
    requires k <= k' <= |order|
    ensures IdsOf(order[k..][..k' - k]) == IdsOf(order)[k..k']
  {
    TakeOfDrop(order, k, k');
    IdsOfSlice(order, k, k');
  }

  /** Whatever the rows of a prefix of `ids` have become, the query goes on with the rest of `ids`. */
  ghost predicate QueriesFollow(t: Table, now: int, ids: seq<ObservationId>) {
    forall k: nat, t': Table {:trigger ListDue(t', now, SetOf(ids[..k]), BATCH_SIZE)}
      | k <= |ids| && t'.Keys == t.Keys && (forall id | id in t && id !in ids[..k] :: t'[id] == t[id]) ::
      ListDue(t', now, SetOf(ids[..k]), BATCH_SIZE) == ids[k..k + Min(BATCH_SIZE, |ids| - k)]
  }

  lemma DueIdsFollow(t: Table, now: int)
    ensures QueriesFollow(t, now, DueIds(t, now))
  {
    var order := Sorted(DueSlots(t, now, {}));
    forall k: nat, t': Table
      | k <= |order| && t'.Keys == t.Keys && (forall id | id in t && id !in IdsOf(order)[..k] :: t'[id] == t[id])
      ensures ListDue(t', now, SetOf(IdsOf(order)[..k]), BATCH_SIZE)
              == IdsOf(order)[k..k + Min(BATCH_SIZE, |order| - k)]
    {
      QueryFollows(t, t', now, order, IdsOf(order), k);
    }
  }

  lemma QueryFollows(t: Table, t': Table, now: int, order: seq<Slot>, ids: seq<ObservationId>, k: nat)
    requires order == Sorted(DueSlots(t, now, {})) && ids == IdsOf(order) && k <= |order| && t'.Keys == t.Keys
    requires forall id | id in t && id !in ids[..k] :: t'[id] == t[id]
    ensures ListDue(t', now, SetOf(ids[..k]), BATCH_SIZE) == ids[k..k + Min(BATCH_SIZE, |order| - k)]
  {
    PrefixOfIds(order, k);
    NextBatch(t, t', now, order, k);
  }

  lemma PrefixOfIds(order: seq<Slot>, k: nat)
    requires k <= |order|
    ensures IdsOf(order[..k]) == IdsOf(order)[..k]
  {
  }

  lemma TakeOfDrop(s: seq<Slot>, k: nat, k': nat)
    requires k <= k' <= |s|
    ensures s[k..][..k' - k] == s[k..k']
  {
  }

  lemma SliceFacts(t: Table, ids: seq<ObservationId>, k: nat, k': nat)
    requires k <= k' <= |ids| && Distinct(ids) && Rows(t, ids)
    ensures SetOf(ids[..k]) + SetOf(ids[k..k']) == SetOf(ids[..k']) && SetOf(ids[..k]) !! SetOf(ids[k..k'])
    ensures ids[..k] + ids[k..k'] == ids[..k']
    ensures Distinct(ids[k..k']) && Rows(t, ids[k..k']) && NoneIn(ids[k..k'], ids[..k])
  {
    assert ids[..k] + ids[k..k'] == ids[..k'];
  }

  /** The rows whose write succeeds. */
  function Persisting(ids: set<ObservationId>, persists: ObservationId -> bool): set<ObservationId> {
    set id | id in ids && persists(id)
  }

  lemma PersistingTogether(a: set<ObservationId>, b: set<ObservationId>, persists: ObservationId -> bool)
    requires a !! b
    ensures |Persisting(a + b, persists)| == |Persisting(a, persists)| + |Persisting(b, persists)|
  {
    assert Persisting(a + b, persists) == Persisting(a, persists) + Persisting(b, persists);
  }

  lemma PersistingOne(id: ObservationId, persists: ObservationId -> bool)
    ensures |Persisting({id}, persists)| == if persists(id) then 1 else 0
  {
    assert Persisting({id}, persists) == if persists(id) then {id} else {};
  }

  class OutcomeTracker {
    var table: Table

    constructor (table: Table)
      ensures this.table == table
    {
      this.table := table;
    }

    method UpdateOutcome(id: ObservationId, o: Outcome, now: int, next: Option<int>, persists: bool)
      returns (updated: bool)
      modifies this
      ensures updated <==> persists && id in old(table)
      ensures table == if updated
                       then old(table)[id := old(table)[id].(status := Some(o.status), nextAttemptAt := next,
                                                             attempts := old(table)[id].attempts + 1)]
                       else old(table)
    {
      if !persists || id !in table {
        return false;
      }
      table := table[id := table[id].(status := Some(o.status), nextAttemptAt := next,
                                      attempts := table[id].attempts + 1)];
      updated := true;
    }

    /** Evaluates and writes one listed batch. */
    method UpdateBatch(pending: seq<ObservationId>, now: int, outcomes: ObservationId -> Outcome,
                       persists: ObservationId -> bool)
      returns (updated: nat)
      requires Rows(table, pending) && Distinct(pending)
      modifies this
      ensures Progress(old(table), table, now, pending, outcomes, persists)
      ensures updated == |Persisting(SetOf(pending), persists)|
    {
      updated := 0;
      var i := 0;
      while i < |pending|
        invariant 0 <= i <= |pending| && updated == |Persisting(SetOf(pending[..i]), persists)|
        invariant Progress(old(table), table, now, pending[..i], outcomes, persists)
      {
        var id := pending[i];
        assert id !in pending[..i];
        assert pending[..i + 1] == pending[..i] + [id];
        assert SetOf(pending[..i + 1]) == SetOf(pending[..i]) + {id};
        PersistingTogether(SetOf(pending[..i]), {id}, persists);
        PersistingOne(id, persists);
        var next := NextAttempt(outcomes(id), now, table[id].attempts);
        var ok := UpdateOutcome(id, outcomes(id), now, next, persists(id));
        if ok { updated := updated + 1; }
        i := i + 1;
      }
      assert pending[..i] == pending;
    }

    /** The query inside a cycle: its next batch continues the due order the cycle began with. */
    method ListNextBatch(now: int, attempted: set<ObservationId>, ghost t: Table, ghost ids: seq<ObservationId>,
                         ghost k: nat)
      returns (pending: seq<ObservationId>)
      requires QueriesFollow(t, now, ids) && k <= |ids| && t.Keys == table.Keys && attempted == SetOf(ids[..k])
      requires forall id | id in t && id !in ids[..k] :: table[id] == t[id]
      ensures pending == ids[k..k + Min(BATCH_SIZE, |ids| - k)]
    {
      pending := ListDue(table, now, attempted, BATCH_SIZE);
    }

    /** Evaluates and writes the batch that continues `ids[..k]`. */
    method ContinueCycle(pending: seq<ObservationId>, now: int, outcomes: ObservationId -> Outcome,
                         persists: ObservationId -> bool, ghost t: Table, ghost ids: seq<ObservationId>, ghost k: nat)
      returns (updated: nat)
      requires Distinct(ids) && Rows(t, ids) && k + |pending| <= |ids| && pending == ids[k..k + |pending|]
      requires Progress(t, table, now, ids[..k], outcomes, persists)
      modifies this
      ensures SetOf(ids[..k]) + SetOf(pending) == SetOf(ids[..k + |pending|])
      ensures Progress(t, table, now, ids[..k + |pending|], outcomes, persists)
      ensures |Persisting(SetOf(ids[..k + |pending|]), persists)| == |Persisting(SetOf(ids[..k]), persists)| + updated
    {
      SliceFacts(t, ids, k, k + |pending|);
      PersistingTogether(SetOf(ids[..k]), SetOf(pending), persists);
      ghost var mid := table;
      updated := UpdateBatch(pending, now, outcomes, persists);
      ProgressBatch(t, mid, table, now, ids[..k], pending, outcomes, persists);
    }

    /** Up to four batches, never attempting a row twice. */
    method UpdateStrategyObservationOutcomes(now: int, outcomes: ObservationId -> Outcome,
                                             persists: ObservationId -> bool)
      returns (updated: nat)
      modifies this
      ensures table == AfterCycle(old(table), now, outcomes, persists)
      ensures updated == |Persisting(SetOf(DueIds(old(table), now)[..Min(CYCLE_SIZE, |DueIds(old(table), now)|)]),
                                     persists)|
    {
      ghost var t, ids := table, DueIds(table, now);
      DueIdsDistinct(t, now);
      DueIdsFollow(t, now);
      updated := RunBatches(now, outcomes, persists, t, ids);
      CycleIsHead(t, table, now, Min(CYCLE_SIZE, |ids|), outcomes, persists);
    }

    /** Lists, evaluates and writes one batch: the next ones of the due order `ids`, if any are left. */
    method RunBatch(now: int, attempted: set<ObservationId>, outcomes: ObservationId -> Outcome,
                    persists: ObservationId -> bool, ghost t: Table, ghost ids: seq<ObservationId>, ghost k: nat)
      returns (pending: seq<ObservationId>, updated: nat)
      requires QueriesFollow(t, now, ids) && Distinct(ids) && Rows(t, ids) && k <= |ids| && attempted == SetOf(ids[..k])
      requires Progress(t, table, now, ids[..k], outcomes, persists)
      modifies this
      ensures |pending| == Min(BATCH_SIZE, |ids| - k)
      ensures attempted + SetOf(pending) == SetOf(ids[..k + |pending|])
      ensures Progress(t, table, now, ids[..k + |pending|], outcomes, persists)
      ensures |Persisting(attempted + SetOf(pending), persists)| == |Persisting(attempted, persists)| + updated
    {
      pending := ListNextBatch(now, attempted, t, ids, k);
      updated := ContinueCycle(pending, now, outcomes, persists, t, ids, k);
    }

    /** The batch loop, over the due order `ids` the cycle began with. */
    method RunBatches(now: int, outcomes: ObservationId -> Outcome, persists: ObservationId -> bool,
                      ghost t: Table, ghost ids: seq<ObservationId>)
      returns (updated: nat)
      requires t == table && QueriesFollow(t, now, ids) && Distinct(ids) && Rows(t, ids)
      modifies this
      ensures Progress(t, table, now, ids[..Min(CYCLE_SIZE, |ids|)], outcomes, persists)
      ensures updated == |Persisting(SetOf(ids[..Min(CYCLE_SIZE, |ids|)]), persists)|
    {
      updated := 0;
      var attempted: set<ObservationId> := {};
      ghost var k := 0;
      var batch := 0;
      while batch < MAX_BATCHES
        invariant 0 <= batch <= MAX_BATCHES && k == Min(batch * BATCH_SIZE, |ids|)
        invariant attempted == SetOf(ids[..k]) && updated == |Persisting(attempted, persists)|
        invariant Progress(t, table, now, ids[..k], outcomes, persists)
      {
        var pending, count := RunBatch(now, attempted, outcomes, persists, t, ids, k);
        if pending == [] {
          break;
        }
        attempted := attempted + SetOf(pending);
        updated := updated + count;
        k := k + |pending|;
        batch := batch + 1;
      }
      assert k == Min(CYCLE_SIZE, |ids|);
    }
  }

  /** Exactly the rows of `done` whose write succeeds have been updated. */
  ghost predicate Progress(t: Table, t': Table, now: int, done: seq<ObservationId>,
                           outcomes: ObservationId -> Outcome, persists: ObservationId -> bool)
  {
    t'.Keys == t.Keys
    && forall id | id in t :: t'[id] == if id in done && persists(id) then Updated(t[id], outcomes(id), now) else t[id]
  }

  lemma ProgressBatch(t: Table, mid: Table, t': Table, now: int, done: seq<ObservationId>, batch: seq<ObservationId>,
                      outcomes: ObservationId -> Outcome, persists: ObservationId -> bool)
    requires Progress(t, mid, now, done, outcomes, persists) && Progress(mid, t', now, batch, outcomes, persists)
    requires NoneIn(batch, done)
    ensures Progress(t, t', now, done + batch, outcomes, persists)
  {
  }

  lemma CycleIsHead(t: Table, t': Table, now: int, k: nat, outcomes: ObservationId -> Outcome,
                    persists: ObservationId -> bool)
    requires k == Min(CYCLE_SIZE, |DueIds(t, now)|)
    requires Progress(t, t', now, DueIds(t, now)[..k], outcomes, persists)
    ensures t' == AfterCycle(t, now, outcomes, persists)
  {
    var head := Head(DueSlots(t, now, {}), CYCLE_SIZE);
    IdsOfSlice(Sorted(DueSlots(t, now, {})), 0, k);
    assert IdsOf(head) == DueIds(t, now)[..k];
    forall id | id in t ensures t'[id] == AfterCycle(t, now, outcomes, persists)[id] {
      ListedById(t, now, {}, head, id);
    }
  }

  // ---------- Bounded waiting ----------

  /** One cycle followed by the observations recorded before the next. */
  datatype Round = Round(now: int, outcomes: ObservationId -> Outcome, persists: ObservationId -> bool, arrivals: Table)

  function After(t: Table, r: Round): Table {
    AfterCycle(t, r.now, r.outcomes, r.persists) + r.arrivals
  }

  /** How many due rows come before `x`. */
  function Rank(t: Table, now: int, x: ObservationId): nat
    requires x in t
  {
    |Ahead(DueSlots(t, now, {}), SlotOf(x, t[x]))|
  }

  /** What waiting for `x` takes for granted of a round: only writes of `broken` rows may fail, an incomplete
      outcome is retryable, and arrivals are new rows that the query order places after `x`. */
  ghost predicate FairRound(t: Table, r: Round, x: ObservationId, broken: set<ObservationId>) {
    && x in t
    && (forall id | id !in broken :: r.persists(id))
    && (forall id :: r.outcomes(id).status == Incomplete ==> r.outcomes(id).retryable)
    && r.arrivals.Keys !! t.Keys
    && (forall id | id in r.arrivals :: Less(SlotOf(x, t[x]), SlotOf(id, r.arrivals[id])))
  }

  /** Every round is fair and the clock does not run backwards. */
  ghost predicate Fair(t: Table, rounds: seq<Round>, x: ObservationId, broken: set<ObservationId>)
    decreases |rounds|
  {
    rounds != [] ==>
      && FairRound(t, rounds[0], x, broken)
      && (|rounds| > 1 ==> rounds[0].now <= rounds[1].now)
      && Fair(After(t, rounds[0]), rounds[1..], x, broken)
  }

  /** The writes of the broken rows fail in the round, and in every round. */
  predicate NoneWritten(r: Round, broken: set<ObservationId>) { forall id | id in broken :: !r.persists(id) }

  predicate NeverWritten(rounds: seq<Round>, broken: set<ObservationId>) {
    forall i | 0 <= i < |rounds| :: NoneWritten(rounds[i], broken)
  }

  ghost predicate ServedWithin(t: Table, rounds: seq<Round>, x: ObservationId, k: nat)
    decreases |rounds|
  {
    rounds != []
    && (InCycle(t, rounds[0].now, x) || (k > 0 && ServedWithin(After(t, rounds[0]), rounds[1..], x, k - 1)))
  }

  /** `x` is due, and has been since before `now`. */
  predicate Waiting(t: Table, now: int, x: ObservationId) {
    x in t && Due(t[x], now) && SlotOf(x, t[x]).at <= now
  }

  /** The due rows before `x` whose writes may fail. */
  function BrokenAhead(t: Table, now: int, x: ObservationId, broken: set<ObservationId>): set<Slot>
    requires x in t
  {
    set slot | slot in Ahead(DueSlots(t, now, {}), SlotOf(x, t[x])) && slot.id in broken
  }

  /** The due rows before `x` whose writes succeed whenever they are made. */
  function SoundAhead(t: Table, now: int, x: ObservationId, broken: set<ObservationId>): set<Slot>
    requires x in t
  {
    Ahead(DueSlots(t, now, {}), SlotOf(x, t[x])) - BrokenAhead(t, now, x, broken)
  }

  lemma RankSplits(t: Table, now: int, x: ObservationId, broken: set<ObservationId>)
    requires x in t
    ensures Rank(t, now, x) == |BrokenAhead(t, now, x, broken)| + |SoundAhead(t, now, x, broken)|
  {
    var ahead := Ahead(DueSlots(t, now, {}), SlotOf(x, t[x]));
    assert ahead == BrokenAhead(t, now, x, broken) + SoundAhead(t, now, x, broken);
  }

  /** A processed row is not due again at a place ahead of anything that was due with it. */
  lemma ProcessedFallsBehind(id: ObservationId, r: Row, o: Outcome, now: int, later: int)
    requires o.status == Incomplete ==> o.retryable
    ensures Due(Updated(r, o, now), later) ==> SlotOf(id, Updated(r, o, now)).at > now
  {
    BackoffDoublesThenSettles(r.attempts);
  }

  /** After a fair round that did not reach `x`, whatever is ahead of `x` was ahead of it before, and was
      either not processed or is broken. */
  lemma NothingOvertakes(t: Table, r: Round, later: int, x: ObservationId, broken: set<ObservationId>, slot: Slot)
    requires FairRound(t, r, x, broken) && r.now <= later && Waiting(t, r.now, x)
    requires slot in Ahead(DueSlots(After(t, r), later, {}), SlotOf(x, t[x]))
    ensures slot in Ahead(DueSlots(t, r.now, {}), SlotOf(x, t[x]))
    ensures slot.id in broken || slot !in Head(DueSlots(t, r.now, {}), CYCLE_SIZE)
  {
    var t' := After(t, r);
    var y :| y in t' && Due(t'[y], later) && y !in {} && slot == SlotOf(y, t'[y]);
    assert y !in r.arrivals && y in t;
    if InCycle(t, r.now, y) && r.persists(y) {
      ProcessedFallsBehind(y, t[y], r.outcomes(y), r.now, later);
    }
    assert t'[y] == t[y];
  }

  lemma DueStaysDue(r: Row, now: int, later: int)
    requires Due(r, now) && now <= later
    ensures Due(r, later)
  {
  }

  /** A row that a round did not change keeps its place in the queue. */
  lemma UnchangedStays(t: Table, r: Round, later: int, id: ObservationId)
    requires id in t && id !in r.arrivals && Due(t[id], r.now) && r.now <= later
    requires !InCycle(t, r.now, id) || !r.persists(id)
    ensures id in After(t, r) && After(t, r)[id] == t[id] && SlotOf(id, t[id]) in DueSlots(After(t, r), later, {})
  {
    DueStaysDue(t[id], r.now, later);
    assert id !in {};
  }

  /** No further broken row gets ahead of `x`; and those ahead of it whose write fails stay where they are. */
  lemma BrokenStay(t: Table, r: Round, later: int, x: ObservationId, broken: set<ObservationId>)
    requires FairRound(t, r, x, broken) && r.now <= later && Waiting(t, r.now, x) && !InCycle(t, r.now, x)
    ensures Waiting(After(t, r), later, x) && After(t, r)[x] == t[x]
    ensures BrokenAhead(After(t, r), later, x, broken) <= BrokenAhead(t, r.now, x, broken)
    ensures forall slot | slot in BrokenAhead(t, r.now, x, broken) && !r.persists(slot.id) ::
              slot in BrokenAhead(After(t, r), later, x, broken)
  {
    UnchangedStays(t, r, later, x);
    DueStaysDue(t[x], r.now, later);
    forall slot | slot in BrokenAhead(After(t, r), later, x, broken) ensures slot in BrokenAhead(t, r.now, x, broken) {
      NothingOvertakes(t, r, later, x, broken, slot);
    }
    forall slot | slot in BrokenAhead(t, r.now, x, broken) && !r.persists(slot.id)
      ensures slot in BrokenAhead(After(t, r), later, x, broken)
    {
      var y :| y in t && Due(t[y], r.now) && y !in {} && slot == SlotOf(y, t[y]);
      UnchangedStays(t, r, later, y);
    }
  }

  /** A round that does not reach `x` takes at least a hundred rows, less the broken ones, from before it. */
  lemma CycleMovesUp(t: Table, r: Round, later: int, x: ObservationId, broken: set<ObservationId>)
    requires FairRound(t, r, x, broken) && r.now <= later && Waiting(t, r.now, x) && !InCycle(t, r.now, x)
    requires x in After(t, r) && After(t, r)[x] == t[x]
    ensures |SoundAhead(After(t, r), later, x, broken)| + CYCLE_SIZE
         <= |SoundAhead(t, r.now, x, broken)| + |BrokenAhead(t, r.now, x, broken)|
  {
    HeadStandsBefore(t, r.now, x, broken);
    var done, before := SetOf(Head(DueSlots(t, r.now, {}), CYCLE_SIZE)), SoundAhead(t, r.now, x, broken);
    var after := SoundAhead(After(t, r), later, x, broken);
    forall slot | slot in after ensures slot in before && slot !in done {
      NothingOvertakes(t, r, later, x, broken, slot);
    }
    TakenAway(before, after, done, BrokenAhead(t, r.now, x, broken));
  }

  lemma HeadStandsBefore(t: Table, now: int, x: ObservationId, broken: set<ObservationId>)
    requires Waiting(t, now, x) && !InCycle(t, now, x)
    ensures var done := SetOf(Head(DueSlots(t, now, {}), CYCLE_SIZE));
            |done| == CYCLE_SIZE && done <= SoundAhead(t, now, x, broken) + BrokenAhead(t, now, x, broken)
  {
    assert x in t && Due(t[x], now) && x !in {};
    HeadIsAhead(DueSlots(t, now, {}), CYCLE_SIZE, SlotOf(x, t[x]));
  }

  lemma TakenAway<T>(before: set<T>, after: set<T>, done: set<T>, stuck: set<T>)
    requires after <= before - done && done <= before + stuck
    ensures |after| + |done| <= |before| + |stuck|
  {
    SubsetSizes(after, before - done);
    SubsetSizes(done - before, stuck);
    assert before == (before - done) + (before * done);
    assert done == (done - before) + (before * done);
  }

  /** `stuck` broken rows and `sound` others are due before `x`. */
  predicate Stands(t: Table, now: int, x: ObservationId, broken: set<ObservationId>, stuck: nat, sound: nat) {
    x in t && stuck == |BrokenAhead(t, now, x, broken)| && sound == |SoundAhead(t, now, x, broken)|
  }

  /** `x` is among the rows of a cycle exactly when fewer than a hundred rows stand before it. */
  lemma ReachedExactly(t: Table, now: int, x: ObservationId, broken: set<ObservationId>, stuck: nat, sound: nat)
    requires Waiting(t, now, x) && Stands(t, now, x, broken, stuck, sound)
    ensures InCycle(t, now, x) <==> stuck + sound < CYCLE_SIZE
  {
    OutsideRank(t, now, x);
    RankSplits(t, now, x, broken);
  }

  lemma UnservedRound(t: Table, r: Round, later: int, x: ObservationId, broken: set<ObservationId>, stuck: nat,
                      sound: nat)
    returns (still: nat, less: nat)
    requires FairRound(t, r, x, broken) && r.now <= later && Waiting(t, r.now, x) && !InCycle(t, r.now, x)
    requires Stands(t, r.now, x, broken, stuck, sound)
    ensures Waiting(After(t, r), later, x) && Stands(After(t, r), later, x, broken, still, less)
    ensures less + CYCLE_SIZE <= sound + stuck && still <= stuck
  {
    BrokenStay(t, r, later, x, broken);
    CycleMovesUp(t, r, later, x, broken);
    less := |SoundAhead(After(t, r), later, x, broken)|;
    still := |BrokenAhead(After(t, r), later, x, broken)|;
    SubsetSizes(BrokenAhead(After(t, r), later, x, broken), BrokenAhead(t, r.now, x, broken));
  }

  /** In a round that writes none of them, as many broken rows stay ahead of `x` as there were. */
  lemma UnwrittenStay(t: Table, r: Round, later: int, x: ObservationId, broken: set<ObservationId>)
    requires FairRound(t, r, x, broken) && r.now <= later && Waiting(t, r.now, x) && !InCycle(t, r.now, x)
    requires NoneWritten(r, broken)
    ensures x in After(t, r) && |BrokenAhead(After(t, r), later, x, broken)| == |BrokenAhead(t, r.now, x, broken)|
  {
    BrokenStay(t, r, later, x, broken);
    assert BrokenAhead(After(t, r), later, x, broken) == BrokenAhead(t, r.now, x, broken);
  }

  /** How many whole times `pace` goes into `sound`. */
  function Laps(sound: nat, pace: nat): (laps: nat)
    requires pace > 0
    ensures laps <= sound
  {
    if sound < pace then 0 else 1 + Laps(sound - pace, pace)
  }

  lemma {:induction false} LapsIsFloor(sound: nat, pace: nat)
    requires pace > 0
    ensures Laps(sound, pace) * pace <= sound < Laps(sound, pace) * pace + pace
  {
    if sound >= pace {
      LapsIsFloor(sound - pace, pace);
      var laps := Laps(sound - pace, pace);
      assert (1 + laps) * pace == laps * pace + pace;
    }
  }

  lemma {:induction false} LapsGrow(less: nat, sound: nat, pace: nat)
    requires pace > 0 && less <= sound
    ensures Laps(less, pace) <= Laps(sound, pace)
  {
    if less >= pace {
      LapsGrow(less - pace, sound - pace, pace);
    }
  }

  /** A round that does not reach `x` hands it on to the next one, nearer to the head of the queue. */
  lemma NextRound(t: Table, rounds: seq<Round>, x: ObservationId, broken: set<ObservationId>, stuck: nat, sound: nat)
    returns (still: nat, less: nat)
    requires |rounds| > 1 && WaitsIn(t, rounds, x, broken, stuck, sound) && !InCycle(t, rounds[0].now, x)
    ensures WaitsIn(After(t, rounds[0]), rounds[1..], x, broken, still, less)
    ensures less + CYCLE_SIZE <= sound + stuck && still <= stuck
  {
    still, less := UnservedRound(t, rounds[0], rounds[1].now, x, broken, stuck, sound);
    assert rounds[1..][0] == rounds[1];
  }

  lemma NextUnwritten(t: Table, rounds: seq<Round>, x: ObservationId, broken: set<ObservationId>, stuck: nat,
                      sound: nat, still: nat, less: nat)
    requires |rounds| > 1 && WaitsIn(t, rounds, x, broken, stuck, sound) && !InCycle(t, rounds[0].now, x)
    requires NoneWritten(rounds[0], broken) && WaitsIn(After(t, rounds[0]), rounds[1..], x, broken, still, less)
    ensures still == stuck
  {
    UnwrittenStay(t, rounds[0], rounds[1].now, x, broken);
    assert rounds[1..][0] == rounds[1];
  }

  lemma NeverWrittenOn(rounds: seq<Round>, broken: set<ObservationId>)
    requires NeverWritten(rounds, broken) && rounds != []
    ensures NoneWritten(rounds[0], broken) && NeverWritten(rounds[1..], broken)
  {
  }

  /** Fair rounds lie before `x`, which waits behind `stuck` broken rows and `sound` others. */
  ghost predicate WaitsIn(t: Table, rounds: seq<Round>, x: ObservationId, broken: set<ObservationId>, stuck: nat,
                          sound: nat) {
    && rounds != [] && Fair(t, rounds, x, broken)
    && Waiting(t, rounds[0].now, x) && Stands(t, rounds[0].now, x, broken, stuck, sound)
  }

  /** Behind `stuck` rows whose writes may fail, ever or always, and `sound` others, `x` is reached within
      floor(sound / pace) + 1 cycles, where `pace` is what is left of a hundred. */
  lemma {:induction false} ServedByRank(t: Table, rounds: seq<Round>, x: ObservationId, broken: set<ObservationId>,
                                        stuck: nat, sound: nat, pace: nat, k: nat)
    requires |rounds| > k && WaitsIn(t, rounds, x, broken, stuck, sound)
    requires stuck + pace <= CYCLE_SIZE && pace > 0 && Laps(sound, pace) <= k
    ensures ServedWithin(t, rounds, x, k)
    decreases k
  {
    ReachedExactly(t, rounds[0].now, x, broken, stuck, sound);
    if !InCycle(t, rounds[0].now, x) {
      var still, less := NextRound(t, rounds, x, broken, stuck, sound);
      FewerLaps(less, sound, pace, k);
      ServedByRank(After(t, rounds[0]), rounds[1..], x, broken, still, less, pace, k - 1);
      ServedNext(t, rounds, x, k);
    }
  }

  lemma FewerLaps(less: nat, sound: nat, pace: nat, k: nat)
    requires pace > 0 && less + pace <= sound && Laps(sound, pace) <= k
    ensures k > 0 && Laps(less, pace) <= k - 1
  {
    LapsGrow(less, sound - pace, pace);
  }

  lemma ServedNext(t: Table, rounds: seq<Round>, x: ObservationId, k: nat)
    requires rounds != [] && k > 0 && ServedWithin(After(t, rounds[0]), rounds[1..], x, k - 1)
    ensures ServedWithin(t, rounds, x, k)
  {
  }

  /** A hundred rows ahead of `x` that are never written keep it from ever being reached. */
  lemma {:induction false} NeverServed(t: Table, rounds: seq<Round>, x: ObservationId, broken: set<ObservationId>,
                                       stuck: nat, sound: nat, k: nat)
    requires WaitsIn(t, rounds, x, broken, stuck, sound) && NeverWritten(rounds, broken) && stuck >= CYCLE_SIZE
    ensures !ServedWithin(t, rounds, x, k)
    decreases |rounds|
  {
    ReachedExactly(t, rounds[0].now, x, broken, stuck, sound);
    if |rounds| > 1 && k > 0 {
      var still, less := NextRound(t, rounds, x, broken, stuck, sound);
      NeverWrittenOn(rounds, broken);
      NextUnwritten(t, rounds, x, broken, stuck, sound, still, less);
      NeverServed(After(t, rounds[0]), rounds[1..], x, broken, stuck, less, k - 1);
    }
  }

  /** Waiting is bounded exactly when fewer than a hundred of the due rows ahead are never written.  With
      `stuck` of them and `sound` others ahead, a row is then processed within
      floor(sound / (100 - stuck)) + 1 cycles. */
  lemma ServedExactly(t: Table, rounds: seq<Round>, x: ObservationId, broken: set<ObservationId>, stuck: nat,
                      sound: nat)
    requires |rounds| > sound && WaitsIn(t, rounds, x, broken, stuck, sound) && NeverWritten(rounds, broken)
    ensures ServedWithin(t, rounds, x, |rounds| - 1) <==> stuck < CYCLE_SIZE
    ensures stuck < CYCLE_SIZE ==> ServedWithin(t, rounds, x, Laps(sound, CYCLE_SIZE - stuck))
  {
    if stuck < CYCLE_SIZE {
      ServedByRank(t, rounds, x, broken, stuck, sound, CYCLE_SIZE - stuck, Laps(sound, CYCLE_SIZE - stuck));
      ServedByRank(t, rounds, x, broken, stuck, sound, CYCLE_SIZE - stuck, |rounds| - 1);
    } else {
      NeverServed(t, rounds, x, broken, stuck, sound, |rounds| - 1);
    }
  }

  /** When every write succeeds, a due row with r due rows before it is processed within floor(r / 100) + 1
      cycles. */
  lemma BoundedWaiting(t: Table, rounds: seq<Round>, x: ObservationId)
    requires rounds != [] && Fair(t, rounds, x, {}) && Waiting(t, rounds[0].now, x)
    requires |rounds| > Rank(t, rounds[0].now, x) / CYCLE_SIZE
    ensures ServedWithin(t, rounds, x, Rank(t, rounds[0].now, x) / CYCLE_SIZE)
  {
    NoneBroken(t, rounds[0].now, x);
    ServedByLaps(t, rounds, x, Rank(t, rounds[0].now, x), Rank(t, rounds[0].now, x) / CYCLE_SIZE);
  }

  lemma ServedByLaps(t: Table, rounds: seq<Round>, x: ObservationId, rank: nat, laps: nat)
    requires |rounds| > laps == rank / CYCLE_SIZE && WaitsIn(t, rounds, x, {}, 0, rank)
    ensures ServedWithin(t, rounds, x, laps)
  {
    LapsIsFloor(rank, CYCLE_SIZE);
    ServedByRank(t, rounds, x, {}, 0, rank, CYCLE_SIZE, laps);
  }

  lemma NoneBroken(t: Table, now: int, x: ObservationId)
    requires x in t
    ensures Stands(t, now, x, {}, 0, Rank(t, now, x))
  {
    RankSplits(t, now, x, {});
    assert BrokenAhead(t, now, x, {}) == {};
  }

  lemma OutsideRank(t: Table, now: int, x: ObservationId)
    requires x in t && Due(t[x], now)
    ensures InCycle(t, now, x) <==> Rank(t, now, x) < CYCLE_SIZE
  {
    assert x !in {};
    assert SlotOf(x, t[x]) in DueSlots(t, now, {});
    RankIsPosition(DueSlots(t, now, {}), SlotOf(x, t[x]), CYCLE_SIZE);
  }

  // ---------- A table on which it starves ----------

  const ROW_101: ObservationId := 100

  /** A hundred and one fresh observations, recorded one second apart. */
  function FreshTable(): Table {
    map id | 0 <= id <= ROW_101 :: Row(true, id, None, None, 0)
  }

  function FirstHundred(): set<ObservationId> { set id | id in FreshTable() && id != ROW_101 }

  /** Cycles a minute apart that complete every row but fail to write the first hundred. */
  function FailingRounds(n: nat, now: int): (rounds: seq<Round>)
    ensures |rounds| == n
  {
    if n == 0 then []
    else [Round(now, (id: ObservationId) => Outcome(Complete, false), (id: ObservationId) => id !in FirstHundred(),
                map[])]
         + FailingRounds(n - 1, now + MINUTE)
  }

  lemma {:induction false} FailingRoundsAreFair(t: Table, n: nat, now: int)
    requires ROW_101 in t
    ensures Fair(t, FailingRounds(n, now), ROW_101, FirstHundred())
    decreases n
  {
    if n > 0 {
      var rounds := FailingRounds(n, now);
      assert rounds[1..] == FailingRounds(n - 1, now + MINUTE);
      FailingRoundsAreFair(After(t, rounds[0]), n - 1, now + MINUTE);
    }
  }

  lemma {:induction false} FailingRoundsNeverWrite(n: nat, now: int)
    ensures NeverWritten(FailingRounds(n, now), FirstHundred())
  {
    if n > 0 {
      FailingRoundsNeverWrite(n - 1, now + MINUTE);
    }
  }

  lemma {:induction false} DiagonalSize(slots: set<Slot>, n: nat)
    requires forall i: int | 0 <= i < n :: Slot(i, i, i) in slots
    ensures |slots| >= n
    decreases n
  {
    if n > 0 {
      DiagonalSize(slots - {Slot(n - 1, n - 1, n - 1)}, n - 1);
    }
  }

  /** The clock runs, nothing arrives, and row 101 could be written at once; yet no number of cycles reaches it. */
  lemma FailedWritesStarve(n: nat, k: nat)
    ensures Waiting(FreshTable(), ROW_101, ROW_101)
    ensures Fair(FreshTable(), FailingRounds(n, ROW_101), ROW_101, FirstHundred())
    ensures !ServedWithin(FreshTable(), FailingRounds(n, ROW_101), ROW_101, k)
  {
    FailingRoundsAreFair(FreshTable(), n, ROW_101);
    FailingRoundsNeverWrite(n, ROW_101);
    FirstHundredStandBefore();
    if n > 0 {
      NeverServed(FreshTable(), FailingRounds(n, ROW_101), ROW_101, FirstHundred(),
                  |BrokenAhead(FreshTable(), ROW_101, ROW_101, FirstHundred())|,
                  |SoundAhead(FreshTable(), ROW_101, ROW_101, FirstHundred())|, k);
    }
  }

  lemma FirstHundredStandBefore()
    ensures |BrokenAhead(FreshTable(), ROW_101, ROW_101, FirstHundred())| >= CYCLE_SIZE
  {
    var stuck := BrokenAhead(FreshTable(), ROW_101, ROW_101, FirstHundred());
    forall i: int | 0 <= i < ROW_101 ensures Slot(i, i, i) in stuck {
      assert i in FreshTable() && i !in {} && SlotOf(i, FreshTable()[i]) == Slot(i, i, i);
    }
    DiagonalSize(stuck, ROW_101);
  }
}
