/** Runs of the outbox: any number of workers claim, send, acknowledge late or not at all, while a
    clock advances.  A ticket is what a worker holds between a claim and its acknowledgement; a worker
    that crashes is one that never acknowledges. */
module OutboxRuns {
  import opened Common
  import opened Outbox

  datatype Ticket = Ticket(id: nat, attempt: nat, lease: int)

  datatype Sys = Sys(db: Db, now: int, tickets: set<Ticket>)

  datatype Step =
    | Tick(dt: nat)
    | Save(signal: bool, sent: bool, payload: Option<string>)
    | Claim(limit: nat, lease: int, filter: Filter)
    | AckSent(ticket: Ticket)
    | AckRetry(ticket: Ticket, error: string, next: int)
    | SetWatchFlag(watchId: nat, sent: bool)

  const EMPTY := Sys(Db([], [], []), 0, {})

  function TicketsOf(rows: seq<Row>, now: int, c: Step): set<Ticket>
    requires c.Claim?
  {
    set i: nat | i < |rows| && Chosen(rows, i, now, c.limit, c.filter) :: Ticket(i, rows[i].attempts + 1, now + c.lease)
  }

  function OrElse(db: Db, r: Result<Db, StoreError>): Db {
    match r case Ok(d) => d case Err(_) => db
  }

  function Apply(s: Sys, step: Step): Sys {
    match step
    case Tick(dt) => s.(now := s.now + dt)
    case Save(signal, sent, payload) =>
      s.(db := if signal then SaveSignal(s.db, sent, payload, s.now) else SaveWatch(s.db, sent, payload, s.now))
    case Claim(limit, lease, f) =>
      s.(db := s.db.(rows := AfterClaim(s.db.rows, s.now, limit, lease, f)),
         tickets := s.tickets + TicketsOf(s.db.rows, s.now, step))
    case AckSent(t) => s.(db := OrElse(s.db, MarkSent(s.db, t.id, s.now)), tickets := s.tickets - {t})
    case AckRetry(t, error, next) =>
      s.(db := OrElse(s.db, MarkRetry(s.db, t.id, error, next)), tickets := s.tickets - {t})
    case SetWatchFlag(w, sent) =>
      if w < |s.db.watchSent| then s.(db := s.db.(watchSent := s.db.watchSent[w := sent])) else s
  }

  function Run(s: Sys, steps: seq<Step>): Sys
    decreases |steps|
  {
    if steps == [] then s else Run(Apply(s, steps[0]), steps[1..])
  }

  // ---------- What every step keeps, however late or wrong its acknowledgements ----------

  predicate RowOk(db: Db, r: Row) {
    && r.attempts <= MAX_ATTEMPTS
    && (r.status == Pending || r.status == Retry ==> r.attempts < MAX_ATTEMPTS)
    && (r.status == InFlight <==> r.leaseUntil.Some?)
    && SourceExists(db, r)
    && (r.entityType == Signal && r.status == Sent ==> db.signalSent[r.entityId])
  }

  ghost predicate RowsOk(s: Sys) {
    forall i | 0 <= i < |s.db.rows| :: RowOk(s.db, s.db.rows[i])
  }

  /** No ticket is newer than its row. */
  ghost predicate TicketsOk(s: Sys) {
    forall t | t in s.tickets :: t.id < |s.db.rows| && t.attempt <= s.db.rows[t.id].attempts
  }

  /** Every leased row is leased to a ticket. */
  ghost predicate LeasesBacked(s: Sys) {
    forall i | 0 <= i < |s.db.rows| :: s.db.rows[i].status == InFlight ==>
      s.db.rows[i].leaseUntil.Some? && Ticket(i, s.db.rows[i].attempts, s.db.rows[i].leaseUntil.value) in s.tickets
  }

  /** No two outbox rows announce the same source row. */
  ghost predicate SourcesDistinct(rows: seq<Row>) {
    forall i, j | 0 <= i < j < |rows| :: rows[i].entityType == rows[j].entityType
        ==> rows[i].entityId != rows[j].entityId
  }

  ghost predicate Good(s: Sys) {
    RowsOk(s) && TicketsOk(s) && LeasesBacked(s) && SourcesDistinct(s.db.rows)
  }

  lemma SameSourcesDistinct(rows: seq<Row>, rows': seq<Row>)
    requires |rows| == |rows'| && SourcesDistinct(rows)
    requires forall i | 0 <= i < |rows| ::
               rows'[i].entityType == rows[i].entityType && rows'[i].entityId == rows[i].entityId
    ensures SourcesDistinct(rows')
  {
    forall i, j | 0 <= i < j < |rows'| && rows'[i].entityType == rows'[j].entityType
      ensures rows'[i].entityId != rows'[j].entityId
    {
      assert rows[i].entityType == rows[j].entityType;
    }
  }

  lemma ClaimKeepsLeasesBacked(s: Sys, step: Step)
    requires LeasesBacked(s) && step.Claim?
    ensures LeasesBacked(Apply(s, step))
  {
    var rows, s' := s.db.rows, Apply(s, step);
    forall i: nat | i < |rows| && s'.db.rows[i].status == InFlight
      ensures s'.db.rows[i].leaseUntil.Some?
      ensures Ticket(i, s'.db.rows[i].attempts, s'.db.rows[i].leaseUntil.value) in s'.tickets
    {
      if Chosen(rows, i, s.now, step.limit, step.filter) {
        assert Ticket(i, rows[i].attempts + 1, s.now + step.lease) in TicketsOf(rows, s.now, step);
      } else {
        assert s'.db.rows[i] == rows[i];
      }
    }
  }

  lemma ClaimKeepsRowOk(s: Sys, step: Step, i: nat)
    requires step.Claim? && i < |s.db.rows| && RowOk(s.db, s.db.rows[i])
    ensures RowOk(Apply(s, step).db, Apply(s, step).db.rows[i])
    ensures Apply(s, step).db.rows[i].attempts >= s.db.rows[i].attempts
    ensures Chosen(s.db.rows, i, s.now, step.limit, step.filter)
            ==> Apply(s, step).db.rows[i].attempts == s.db.rows[i].attempts + 1
  {
  }

  lemma ClaimKeepsTicketsOk(s: Sys, step: Step)
    requires TicketsOk(s) && RowsOk(s) && step.Claim?
    ensures TicketsOk(Apply(s, step))
  {
    var s' := Apply(s, step);
    forall t | t in s'.tickets ensures t.id < |s'.db.rows| && t.attempt <= s'.db.rows[t.id].attempts {
      if t in s.tickets {
        ClaimKeepsRowOk(s, step, t.id);
      } else {
        assert t in TicketsOf(s.db.rows, s.now, step);
        ClaimKeepsRowOk(s, step, t.id);
      }
    }
  }

  lemma ClaimKeepsGood(s: Sys, step: Step)
    requires Good(s) && step.Claim?
    ensures Good(Apply(s, step))
  {
    var s' := Apply(s, step);
    SameSourcesDistinct(s.db.rows, s'.db.rows);
    ClaimKeepsLeasesBacked(s, step);
    ClaimKeepsTicketsOk(s, step);
    assert RowsOk(s') by {
      forall i: nat | i < |s'.db.rows| ensures RowOk(s'.db, s'.db.rows[i]) {
        ClaimKeepsRowOk(s, step, i);
      }
    }
  }

  lemma AckKeepsGood(s: Sys, step: Step)
    requires Good(s) && (step.AckSent? || step.AckRetry?)
    ensures Good(Apply(s, step))
  {
    var s' := Apply(s, step);
    SameSourcesDistinct(s.db.rows, s'.db.rows);
    forall i: nat | i < |s'.db.rows| ensures RowOk(s'.db, s'.db.rows[i]) {
      AckKeepsRowOk(s, step, i);
    }
  }

  lemma AckKeepsRowOk(s: Sys, step: Step, i: nat)
    requires (step.AckSent? || step.AckRetry?) && i < |s.db.rows| && RowOk(s.db, s.db.rows[i])
    ensures |Apply(s, step).db.rows| == |s.db.rows|
    ensures RowOk(Apply(s, step).db, Apply(s, step).db.rows[i])
  {
  }

  lemma SaveKeepsGood(s: Sys, step: Step)
    requires Good(s) && step.Save?
    ensures Good(Apply(s, step))
  {
    var s' := Apply(s, step);
    forall i: nat | i < |s'.db.rows| ensures RowOk(s'.db, s'.db.rows[i]) {
      if i < |s.db.rows| {
        assert RowOk(s.db, s.db.rows[i]);
      }
    }
    assert SourcesDistinct(s'.db.rows) by {
      assert forall i | 0 <= i < |s.db.rows| :: SourceExists(s.db, s.db.rows[i]);
    }
  }

  lemma StepKeepsGood(s: Sys, step: Step)
    requires Good(s)
    ensures Good(Apply(s, step))
  {
    match step
    case Claim(_, _, _) => ClaimKeepsGood(s, step);
    case AckSent(_) => AckKeepsGood(s, step);
    case AckRetry(_, _, _) => AckKeepsGood(s, step);
    case Save(_, _, _) => SaveKeepsGood(s, step);
    case _ =>
  }

  lemma {:induction false} RunKeepsGood(s: Sys, steps: seq<Step>)
    requires Good(s)
    ensures Good(Run(s, steps))
    decreases |steps|
  {
    if steps != [] {
      StepKeepsGood(s, steps[0]);
      RunKeepsGood(Apply(s, steps[0]), steps[1..]);
    }
  }

  // ---------- The attempt cap ----------

  predicate ClaimsRow(s: Sys, step: Step, id: nat) {
    step.Claim? && id < |s.db.rows| && Chosen(s.db.rows, id, s.now, step.limit, step.filter)
  }

  /** How many claims of a run take row `id`. */
  function ClaimsOf(s: Sys, steps: seq<Step>, id: nat): nat
    decreases |steps|
  {
    if steps == [] then 0
    else (if ClaimsRow(s, steps[0], id) then 1 else 0) + ClaimsOf(Apply(s, steps[0]), steps[1..], id)
  }

  function AttemptsOf(s: Sys, id: nat): nat {
    if id < |s.db.rows| then s.db.rows[id].attempts else 0
  }

  lemma StepCountsClaim(s: Sys, step: Step, id: nat)
    ensures AttemptsOf(Apply(s, step), id) == AttemptsOf(s, id) + if ClaimsRow(s, step, id) then 1 else 0
  {
  }

  /** The attempt column counts the claims, nothing else moves it, and it stops at five: no crash,
      lost lease or stray acknowledgement buys a row a sixth send. */
  lemma {:induction false} AttemptsCountClaims(s: Sys, steps: seq<Step>, id: nat)
    requires Good(s)
    ensures AttemptsOf(Run(s, steps), id) == AttemptsOf(s, id) + ClaimsOf(s, steps, id)
    ensures AttemptsOf(s, id) + ClaimsOf(s, steps, id) <= MAX_ATTEMPTS
    decreases |steps|
  {
    if steps != [] {
      StepCountsClaim(s, steps[0], id);
      StepKeepsGood(s, steps[0]);
      AttemptsCountClaims(Apply(s, steps[0]), steps[1..], id);
    }
  }

  lemma NeverClaimedMoreThanFiveTimes(steps: seq<Step>, id: nat)
    ensures ClaimsOf(EMPTY, steps, id) <= 5
  {
    AttemptsCountClaims(EMPTY, steps, id);
  }

  // ---------- Bounded overtaking ----------

  predicate Drains(step: Step, kind: EntityType) {
    step.Claim? && step.filter == Filter(Some(kind), None)
  }

  /** A drain that leaves row `i` unclaimed although it is due. */
  predicate PassesOver(s: Sys, step: Step, kind: EntityType, i: nat)
    requires i < |s.db.rows|
  {
    && Drains(step, kind)
    && Claimable(Reclaimed(s.db.rows[i], s.now), s.now, step.filter)
    && !Chosen(s.db.rows, i, s.now, step.limit, step.filter)
  }

  function Passes(s: Sys, steps: seq<Step>, kind: EntityType, i: nat): nat
    requires i < |s.db.rows|
    decreases |steps|
  {
    if steps == [] then 0
    else (if PassesOver(s, steps[0], kind, i) then 1 else 0) + Passes(Apply(s, steps[0]), steps[1..], kind, i)
  }

  function RowsBelow(rows: seq<Row>, i: nat, kind: EntityType): nat
    requires i <= |rows|
  {
    if i == 0 then 0 else RowsBelow(rows, i - 1, kind) + if rows[i - 1].entityType == kind then 1 else 0
  }

  function AttemptsBelow(rows: seq<Row>, i: nat, kind: EntityType): nat
    requires i <= |rows|
  {
    if i == 0 then 0
    else AttemptsBelow(rows, i - 1, kind) + if rows[i - 1].entityType == kind then rows[i - 1].attempts else 0
  }

  lemma {:induction false} AttemptsBelowCapped(s: Sys, i: nat, kind: EntityType)
    requires Good(s) && i <= |s.db.rows|
    ensures AttemptsBelow(s.db.rows, i, kind) <= 5 * RowsBelow(s.db.rows, i, kind)
    decreases i
  {
    if i > 0 {
      AttemptsBelowCapped(s, i - 1, kind);
      assert RowOk(s.db, s.db.rows[i - 1]);
    }
  }

  /** A drain hands out as many attempts below row `i` as its limit allows. */
  lemma {:induction false} DrainSpendsBelow(s: Sys, step: Step, kind: EntityType, i: nat)
    requires i <= |s.db.rows| && Drains(step, kind)
    ensures AttemptsBelow(Apply(s, step).db.rows, i, kind)
         == AttemptsBelow(s.db.rows, i, kind)
            + Min(ClaimableBefore(s.db.rows, i, s.now, step.filter), step.limit)
    decreases i
  {
    if i > 0 {
      DrainSpendsBelow(s, step, kind, i - 1);
    }
  }

  lemma RowNeverRefunds(s: Sys, step: Step, i: nat)
    requires i < |s.db.rows|
    ensures i < |Apply(s, step).db.rows|
    ensures s.db.rows[i].attempts <= Apply(s, step).db.rows[i].attempts
    ensures s.db.rows[i].entityType == Apply(s, step).db.rows[i].entityType
  {
  }

  lemma {:induction false} NeverRefundsBelow(rows: seq<Row>, after: seq<Row>, kind: EntityType, i: nat)
    requires i <= |rows| && i <= |after|
    requires forall j | 0 <= j < i :: rows[j].attempts <= after[j].attempts && rows[j].entityType == after[j].entityType
    ensures AttemptsBelow(rows, i, kind) <= AttemptsBelow(after, i, kind)
    ensures RowsBelow(rows, i, kind) == RowsBelow(after, i, kind)
  {
    if i > 0 {
      NeverRefundsBelow(rows, after, kind, i - 1);
    }
  }

  lemma StepNeverRefundsBelow(s: Sys, step: Step, kind: EntityType, i: nat)
    requires i <= |s.db.rows|
    ensures i <= |Apply(s, step).db.rows|
    ensures AttemptsBelow(s.db.rows, i, kind) <= AttemptsBelow(Apply(s, step).db.rows, i, kind)
    ensures RowsBelow(s.db.rows, i, kind) == RowsBelow(Apply(s, step).db.rows, i, kind)
  {
    var after := Apply(s, step).db.rows;
    forall j: nat | j < i
      ensures j < |after| && s.db.rows[j].attempts <= after[j].attempts
              && s.db.rows[j].entityType == after[j].entityType
    {
      RowNeverRefunds(s, step, j);
    }
    if i > 0 {
      RowNeverRefunds(s, step, i - 1);
    }
    NeverRefundsBelow(s.db.rows, after, kind, i);
  }

  lemma PassSpends(s: Sys, step: Step, kind: EntityType, i: nat, limit: nat)
    requires i < |s.db.rows| && PassesOver(s, step, kind, i) && step.limit >= limit
    ensures AttemptsBelow(Apply(s, step).db.rows, i, kind) >= AttemptsBelow(s.db.rows, i, kind) + limit
  {
    DrainSpendsBelow(s, step, kind, i);
  }

  lemma {:induction false} PassesAreSpent(s: Sys, steps: seq<Step>, kind: EntityType, i: nat, limit: nat)
    requires Good(s) && i < |s.db.rows|
    requires forall k | 0 <= k < |steps| :: Drains(steps[k], kind) ==> steps[k].limit >= limit
    ensures Spent(Passes(s, steps, kind, i), limit, AttemptsBelow(s.db.rows, i, kind), RowsBelow(s.db.rows, i, kind))
    decreases |steps|
  {
    if steps == [] {
      AttemptsBelowCapped(s, i, kind);
    } else {
      StepKeepsGood(s, steps[0]);
      RowNeverRefunds(s, steps[0], i);
      PassesAreSpent(Apply(s, steps[0]), steps[1..], kind, i, limit);
      OneStepSpends(s, steps[0], kind, i, limit, Passes(Apply(s, steps[0]), steps[1..], kind, i));
    }
  }

  lemma OneStepSpends(s: Sys, step: Step, kind: EntityType, i: nat, limit: nat, later: nat)
    requires i < |s.db.rows| && i < |Apply(s, step).db.rows| && (Drains(step, kind) ==> step.limit >= limit)
    requires Spent(later, limit, AttemptsBelow(Apply(s, step).db.rows, i, kind),
                   RowsBelow(Apply(s, step).db.rows, i, kind))
    ensures Spent((if PassesOver(s, step, kind, i) then 1 else 0) + later, limit, AttemptsBelow(s.db.rows, i, kind),
                  RowsBelow(s.db.rows, i, kind))
  {
    StepNeverRefundsBelow(s, step, kind, i);
    var passes := PassesOver(s, step, kind, i);
    if passes {
      PassSpends(s, step, kind, i, limit);
    }
    SpentAtMost(passes, later, limit, AttemptsBelow(s.db.rows, i, kind), AttemptsBelow(Apply(s, step).db.rows, i, kind),
                RowsBelow(s.db.rows, i, kind));
  }

  /** What `passes` passes cost at `limit` attempts each. */
  function Cost(passes: nat, limit: nat): nat { if passes == 0 then 0 else Cost(passes - 1, limit) + limit }

  lemma {:induction false} CostIsProduct(passes: nat, limit: nat)
    ensures Cost(passes, limit) == passes * limit
  {
    if passes > 0 {
      CostIsProduct(passes - 1, limit);
      assert passes * limit == (passes - 1) * limit + limit;
    }
  }

  /** The passes and the attempts already spent fit five attempts a row. */
  predicate Spent(passes: nat, limit: nat, spent: nat, rows: nat) { Cost(passes, limit) + spent <= 5 * rows }

  lemma SpentAtMost(passes: bool, later: nat, limit: nat, spent: nat, spentAfter: nat, rows: nat)
    requires Spent(later, limit, spentAfter, rows)
    requires spentAfter >= spent + if passes then limit else 0
    ensures Spent((if passes then 1 else 0) + later, limit, spent, rows)
  {
  }

  /** A due row with k rows of its kind before it is passed over by at most floor(5k / limit) drains of
      its kind, in every run. */
  lemma BoundedOvertaking(s: Sys, steps: seq<Step>, kind: EntityType, i: nat, limit: nat)
    requires Good(s) && i < |s.db.rows| && limit > 0
    requires forall k | 0 <= k < |steps| :: Drains(steps[k], kind) ==> steps[k].limit >= limit
    ensures Passes(s, steps, kind, i) <= 5 * RowsBelow(s.db.rows, i, kind) / limit
  {
    PassesAreSpent(s, steps, kind, i, limit);
    CostIsProduct(Passes(s, steps, kind, i), limit);
    DivisionBound(Passes(s, steps, kind, i), limit, 5 * RowsBelow(s.db.rows, i, kind));
  }

  lemma DivisionBound(p: nat, d: nat, n: nat)
    requires d > 0 && p * d <= n
    ensures p <= n / d
  {
    assert n < (n / d + 1) * d;
    assert p * d < (n / d + 1) * d;
  }

  // ---------- Leases: what holds when acknowledgements come in time ----------

  /** Every unexpired ticket is the one its row is leased to. */
  ghost predicate LeasesHold(s: Sys) {
    forall t | t in s.tickets && t.lease > s.now ::
      && t.id < |s.db.rows|
      && var r := s.db.rows[t.id]; r.status == InFlight && r.leaseUntil == Some(t.lease) && r.attempts == t.attempt
  }

  /** No row is held by two workers at once. */
  ghost predicate Exclusive(s: Sys) {
    forall t, u | t in s.tickets && u in s.tickets && t.id == u.id && t.lease > s.now && u.lease > s.now :: t == u
  }

  /** A worker acknowledges only a ticket it holds, before the lease on it runs out. */
  predicate Timely(s: Sys, step: Step) {
    (step.AckSent? || step.AckRetry?) ==> step.ticket in s.tickets && s.now < step.ticket.lease
  }

  predicate TimelyRun(s: Sys, steps: seq<Step>)
    decreases |steps|
  {
    steps != [] ==> Timely(s, steps[0]) && TimelyRun(Apply(s, steps[0]), steps[1..])
  }

  /** Some other worker holds an unexpired lease on the row that `t` claims to acknowledge. */
  predicate LeasedToAnother(s: Sys, t: Ticket) {
    && t.id < |s.db.rows|
    && var r := s.db.rows[t.id];
       r.status == InFlight && r.leaseUntil.Some? && r.leaseUntil.value > s.now
       && Ticket(t.id, r.attempts, r.leaseUntil.value) != t
  }

  /** The exact price of an unfenced acknowledgement: it breaks the leases when, and only when, the row
      is leased to somebody else at that moment. */
  lemma AckKeepsLeasesExactly(s: Sys, step: Step)
    requires Good(s) && LeasesHold(s) && (step.AckSent? || step.AckRetry?) && step.ticket in s.tickets
    ensures LeasesHold(Apply(s, step)) <==> !LeasedToAnother(s, step.ticket)
  {
    var t, s' := step.ticket, Apply(s, step);
    assert t.id < |s.db.rows| && RowOk(s.db, s.db.rows[t.id]);
    if LeasedToAnother(s, t) {
      var r := s.db.rows[t.id];
      assert Ticket(t.id, r.attempts, r.leaseUntil.value) in s'.tickets;
    }
  }

  lemma ClaimKeepsLeases(s: Sys, step: Step)
    requires Good(s) && LeasesHold(s) && step.Claim?
    ensures LeasesHold(Apply(s, step))
    ensures s.tickets !! TicketsOf(s.db.rows, s.now, step)
  {
    var rows, s' := s.db.rows, Apply(s, step);
    forall t | t in s'.tickets && t.lease > s.now
      ensures t.id < |rows|
      ensures s'.db.rows[t.id].status == InFlight && s'.db.rows[t.id].leaseUntil == Some(t.lease)
      ensures s'.db.rows[t.id].attempts == t.attempt
    {
      if t in s.tickets {
        assert Reclaimed(rows[t.id], s.now) == rows[t.id];
        assert s'.db.rows[t.id] == rows[t.id];
      } else {
        assert Chosen(rows, t.id, s.now, step.limit, step.filter);
      }
    }
  }

  lemma StepKeepsLeases(s: Sys, step: Step)
    requires Good(s) && LeasesHold(s) && Timely(s, step)
    ensures LeasesHold(Apply(s, step))
  {
    if step.Claim? {
      ClaimKeepsLeases(s, step);
    } else if step.AckSent? || step.AckRetry? {
      AckKeepsLeasesExactly(s, step);
    }
  }

  lemma {:induction false} TimelyRunKeepsLeases(s: Sys, steps: seq<Step>)
    requires Good(s) && LeasesHold(s) && TimelyRun(s, steps)
    ensures Good(Run(s, steps)) && LeasesHold(Run(s, steps))
    decreases |steps|
  {
    if steps != [] {
      StepKeepsGood(s, steps[0]);
      StepKeepsLeases(s, steps[0]);
      TimelyRunKeepsLeases(Apply(s, steps[0]), steps[1..]);
    }
  }

  lemma TimelyRunsAreExclusive(steps: seq<Step>)
    requires TimelyRun(EMPTY, steps)
    ensures Exclusive(Run(EMPTY, steps))
  {
    TimelyRunKeepsLeases(EMPTY, steps);
  }

  // ---------- Which late acknowledgement lets two workers hold a row ----------

  /** Some other ticket for the row that `t` names has not run out. */
  predicate HeldByAnother(s: Sys, t: Ticket) {
    exists u | u in s.tickets :: u.id == t.id && u != t && u.lease > s.now
  }

  /** No unexpired ticket shares its row, and its row cannot be claimed: it is leased to the ticket, or terminal. */
  ghost predicate HoldersSafe(s: Sys) {
    && Exclusive(s)
    && forall t | t in s.tickets && t.lease > s.now ::
         && t.id < |s.db.rows|
         && var r := s.db.rows[t.id];
            r.status == Sent || r.status == Dead || (r.status == InFlight && r.leaseUntil == Some(t.lease))
  }

  lemma ClaimKeepsHolders(s: Sys, step: Step)
    requires HoldersSafe(s) && step.Claim?
    ensures HoldersSafe(Apply(s, step))
  {
    var rows, s' := s.db.rows, Apply(s, step);
    forall t | t in s'.tickets && t.lease > s.now
      ensures t.id < |rows| && (t in s.tickets <==> !Chosen(rows, t.id, s.now, step.limit, step.filter))
      ensures t !in s.tickets ==> t.lease == s.now + step.lease && t.attempt == rows[t.id].attempts + 1
    {
      if t in s.tickets {
        assert Reclaimed(rows[t.id], s.now) == rows[t.id];
      } else {
        assert Chosen(rows, t.id, s.now, step.limit, step.filter);
      }
    }
  }

  /** An acceptance report never endangers a holder, however late it comes and whoever makes it.  A failure
      report does exactly when another ticket for its row is unexpired and the row has attempts left. */
  lemma AckKeepsHoldersExactly(s: Sys, step: Step)
    requires HoldersSafe(s) && (step.AckSent? || step.AckRetry?)
    ensures HoldersSafe(Apply(s, step))
       <==> !(step.AckRetry? && HeldByAnother(s, step.ticket) && s.db.rows[step.ticket.id].attempts < MAX_ATTEMPTS)
  {
    var t, s' := step.ticket, Apply(s, step);
    if step.AckRetry? && HeldByAnother(s, t) {
      var u :| u in s.tickets && u.id == t.id && u != t && u.lease > s.now;
      assert u in s'.tickets && u.id < |s.db.rows|;
    }
  }

  /** No failure report is made on a row that another ticket still holds. */
  predicate RetriesRespect(s: Sys, step: Step) {
    step.AckRetry? ==> !HeldByAnother(s, step.ticket)
  }

  predicate RespectfulRun(s: Sys, steps: seq<Step>)
    decreases |steps|
  {
    steps != [] ==> RetriesRespect(s, steps[0]) && RespectfulRun(Apply(s, steps[0]), steps[1..])
  }

  lemma StepKeepsHolders(s: Sys, step: Step)
    requires HoldersSafe(s) && RetriesRespect(s, step)
    ensures HoldersSafe(Apply(s, step))
  {
    if step.Claim? {
      ClaimKeepsHolders(s, step);
    } else if step.AckSent? || step.AckRetry? {
      AckKeepsHoldersExactly(s, step);
    }
  }

  lemma {:induction false} RespectfulRunKeepsHolders(s: Sys, steps: seq<Step>)
    requires HoldersSafe(s) && RespectfulRun(s, steps)
    ensures HoldersSafe(Run(s, steps))
    decreases |steps|
  {
    if steps != [] {
      StepKeepsHolders(s, steps[0]);
      RespectfulRunKeepsHolders(Apply(s, steps[0]), steps[1..]);
    }
  }

  /** Acknowledgements may be late, repeated or made without a ticket: as long as no failure report hits a row
      that another worker still holds, no row is ever held by two. */
  lemma RespectfulRunsAreExclusive(steps: seq<Step>)
    requires RespectfulRun(EMPTY, steps)
    ensures Exclusive(Run(EMPTY, steps))
  {
    RespectfulRunKeepsHolders(EMPTY, steps);
  }

  /** In a timely run SENT and DEAD are absorbing: no column of such a row changes again. */
  lemma {:induction false} TerminalIsAbsorbing(s: Sys, steps: seq<Step>, id: nat)
    requires Good(s) && LeasesHold(s) && TimelyRun(s, steps)
    requires id < |s.db.rows| && (s.db.rows[id].status == Sent || s.db.rows[id].status == Dead)
    ensures id < |Run(s, steps).db.rows| && Run(s, steps).db.rows[id] == s.db.rows[id]
    decreases |steps|
  {
    if steps != [] {
      StepKeepsGood(s, steps[0]);
      StepKeepsLeases(s, steps[0]);
      assert Apply(s, steps[0]).db.rows[id] == s.db.rows[id];
      TerminalIsAbsorbing(Apply(s, steps[0]), steps[1..], id);
    }
  }

  // ---------- The outbox and the source rows agree ----------

  /** A signal's outbox row is SENT exactly when the signal says it was sent. */
  ghost predicate SignalsAgree(db: Db) {
    forall i | 0 <= i < |db.rows| && db.rows[i].entityType == Signal ::
      db.rows[i].entityId < |db.signalSent| && (db.rows[i].status == Sent <==> db.signalSent[db.rows[i].entityId])
  }

  /** Rows that will be announced are saved unsent, as every caller does. */
  predicate SavesUnsent(step: Step) {
    step.Save? && step.payload.Some? ==> !step.sent
  }

  lemma AckSentKeepsSignals(s: Sys, step: Step)
    requires Good(s) && SignalsAgree(s.db) && step.AckSent?
    ensures SignalsAgree(Apply(s, step).db)
  {
    var id, db' := step.ticket.id, Apply(s, step).db;
    forall i | 0 <= i < |db'.rows| && db'.rows[i].entityType == Signal
      ensures db'.rows[i].entityId < |db'.signalSent|
      ensures db'.rows[i].status == Sent <==> db'.signalSent[db'.rows[i].entityId]
    {
      if id < |s.db.rows| && i != id && s.db.rows[id].entityType == Signal {
        var lo, hi := Min(i, id), Max(i, id);
        assert s.db.rows[lo].entityType == s.db.rows[hi].entityType;
        assert s.db.rows[lo].entityId != s.db.rows[hi].entityId;
      }
    }
  }

  /** A retry parts a signal from its outbox row exactly when the row was already SENT. */
  lemma RetryKeepsSignalsExactly(s: Sys, step: Step)
    requires Good(s) && SignalsAgree(s.db) && step.AckRetry? && step.ticket.id < |s.db.rows|
    ensures SignalsAgree(Apply(s, step).db)
       <==> !(s.db.rows[step.ticket.id].entityType == Signal && s.db.rows[step.ticket.id].status == Sent)
  {
    var id, db' := step.ticket.id, Apply(s, step).db;
    assert db'.rows[id].status != Sent && db'.rows[id].entityType == s.db.rows[id].entityType;
  }

  lemma StepKeepsSignals(s: Sys, step: Step)
    requires Good(s) && LeasesHold(s) && SignalsAgree(s.db) && Timely(s, step) && SavesUnsent(step)
    ensures SignalsAgree(Apply(s, step).db)
  {
    if step.AckSent? {
      AckSentKeepsSignals(s, step);
    } else if step.AckRetry? {
      RetryKeepsSignalsExactly(s, step);
    }
  }

  lemma {:induction false} TimelyRunsKeepSignals(s: Sys, steps: seq<Step>)
    requires Good(s) && LeasesHold(s) && SignalsAgree(s.db) && TimelyRun(s, steps)
    requires forall k | 0 <= k < |steps| :: SavesUnsent(steps[k])
    ensures SignalsAgree(Run(s, steps).db)
    decreases |steps|
  {
    if steps != [] {
      StepKeepsGood(s, steps[0]);
      StepKeepsLeases(s, steps[0]);
      StepKeepsSignals(s, steps[0]);
      TimelyRunsKeepSignals(Apply(s, steps[0]), steps[1..]);
    }
  }

  lemma TimelyRunsAgreeWithSources(steps: seq<Step>)
    requires TimelyRun(EMPTY, steps) && forall k | 0 <= k < |steps| :: SavesUnsent(steps[k])
    ensures SignalsAgree(Run(EMPTY, steps).db)
  {
    TimelyRunsKeepSignals(EMPTY, steps);
  }

  /** In every run, timely or not, a signal whose row is SENT says it was sent. */
  lemma SentSignalsAreFlagged(steps: seq<Step>, i: nat)
    requires i < |Run(EMPTY, steps).db.rows|
    ensures var db := Run(EMPTY, steps).db;
            db.rows[i].entityType == Signal && db.rows[i].status == Sent ==>
              db.rows[i].entityId < |db.signalSent| && db.signalSent[db.rows[i].entityId]
  {
    RunKeepsGood(EMPTY, steps);
  }

  // ---------- What late acknowledgements do ----------

  const SIGNALS := Filter(Some(Signal), None)
  const WATCHES := Filter(Some(Watch), None)
  const CLAIM_SIGNALS := Claim(5, LEASE_SECONDS, SIGNALS)

  lemma RunTwo(s: Sys, a: Step, b: Step)
    ensures Run(s, [a, b]) == Apply(Apply(s, a), b)
  {
    var both := [a, b];
    assert both[0] == a && both[1..] == [b];
    RunOne(Apply(s, a), b);
  }

  lemma RunOne(s: Sys, a: Step)
    ensures Run(s, [a]) == Apply(s, a)
  {
    var one := [a];
    assert one[0] == a && one[1..] == [];
  }

  lemma {:induction false} RunAppend(s: Sys, a: seq<Step>, b: seq<Step>)
    ensures Run(s, a + b) == Run(Run(s, a), b)
    decreases |a|
  {
    if a == [] {
      assert a + b == b;
    } else {
      assert (a + b)[1..] == a[1..] + b;
      RunAppend(Apply(s, a[0]), a[1..], b);
    }
  }

  /** One signal, claimed, its lease run out, and claimed again by a second worker. */
  function ClaimedTwice(): Sys {
    var row := NewRow(Signal, 0, "signal", 0);
    Sys(Db([Claimed(Reclaimed(Claimed(row, 0, 120), 120), 120, 120)], [false], []), 120,
        {Ticket(0, 1, 120), Ticket(0, 2, 240)})
  }

  lemma ClaimedTwiceIsReached()
    ensures Run(EMPTY, [Save(true, false, Some("signal")), CLAIM_SIGNALS] + [Tick(120), CLAIM_SIGNALS])
            == ClaimedTwice()
  {
    RunAppend(EMPTY, [Save(true, false, Some("signal")), CLAIM_SIGNALS], [Tick(120), CLAIM_SIGNALS]);
    RunTwo(EMPTY, Save(true, false, Some("signal")), CLAIM_SIGNALS);
    var row := NewRow(Signal, 0, "signal", 0);
    var once := Run(EMPTY, [Save(true, false, Some("signal")), CLAIM_SIGNALS]);
    var saved := Sys(Db([row], [false], []), 0, {});
    assert Apply(EMPTY, Save(true, false, Some("signal"))) == saved;
    SingleClaim(saved, SIGNALS);
    assert once == Sys(Db([Claimed(row, 0, 120)], [false], []), 0, {Ticket(0, 1, 120)});
    RunTwo(once, Tick(120), CLAIM_SIGNALS);
    SingleClaim(once.(now := 120), SIGNALS);
  }

  lemma SingleClaim(s: Sys, f: Filter)
    requires |s.db.rows| == 1 && Claimable(Reclaimed(s.db.rows[0], s.now), s.now, f)
    ensures Apply(s, Claim(5, LEASE_SECONDS, f))
         == s.(db := s.db.(rows := [Claimed(Reclaimed(s.db.rows[0], s.now), s.now, LEASE_SECONDS)]),
               tickets := s.tickets + {Ticket(0, s.db.rows[0].attempts + 1, s.now + LEASE_SECONDS)})
  {
    assert ClaimableBefore(s.db.rows, 0, s.now, f) == 0;
    assert Chosen(s.db.rows, 0, s.now, 5, f);
    assert TicketsOf(s.db.rows, s.now, Claim(5, LEASE_SECONDS, f))
        == {Ticket(0, s.db.rows[0].attempts + 1, s.now + LEASE_SECONDS)};
  }

  /** The first worker's late failure report takes back the second worker's delivery. */
  lemma LateRetryUnsends()
    ensures var s := Run(ClaimedTwice(), [AckSent(Ticket(0, 2, 240)), AckRetry(Ticket(0, 1, 120), "timeout", 180)]);
            s.db.rows[0].status == Retry && s.db.signalSent == [true]
  {
    RunTwo(ClaimedTwice(), AckSent(Ticket(0, 2, 240)), AckRetry(Ticket(0, 1, 120), "timeout", 180));
  }

  /** The same report, made while the second worker still holds the row, lets a third one claim it too. */
  lemma LateRetrySharesLease()
    ensures !Exclusive(Run(ClaimedTwice(), [AckRetry(Ticket(0, 1, 120), "timeout", 120), CLAIM_SIGNALS]))
  {
    var late := AckRetry(Ticket(0, 1, 120), "timeout", 120);
    RunTwo(ClaimedTwice(), late, CLAIM_SIGNALS);
    SingleClaim(Apply(ClaimedTwice(), late), SIGNALS);
    var s := Run(ClaimedTwice(), [late, CLAIM_SIGNALS]);
    assert Ticket(0, 2, 240) in s.tickets && Ticket(0, 3, 240) in s.tickets;
  }

  // ---------- Watches ----------

  /** A watch's outbox row is SENT exactly when the watch says it was sent. */
  ghost predicate WatchesAgree(db: Db) {
    forall i | 0 <= i < |db.rows| && db.rows[i].entityType == Watch ::
      db.rows[i].entityId < |db.watchSent| && (db.rows[i].status == Sent <==> db.watchSent[db.rows[i].entityId])
  }

  lemma AckSentKeepsWatches(s: Sys, step: Step)
    requires Good(s) && WatchesAgree(s.db) && step.AckSent?
    ensures WatchesAgree(Apply(s, step).db)
  {
    var id, db' := step.ticket.id, Apply(s, step).db;
    forall i | 0 <= i < |db'.rows| && db'.rows[i].entityType == Watch
      ensures db'.rows[i].entityId < |db'.watchSent|
      ensures db'.rows[i].status == Sent <==> db'.watchSent[db'.rows[i].entityId]
    {
      if id < |s.db.rows| && i != id && s.db.rows[id].entityType == Watch {
        var lo, hi := Min(i, id), Max(i, id);
        assert s.db.rows[lo].entityType == s.db.rows[hi].entityType;
        assert s.db.rows[lo].entityId != s.db.rows[hi].entityId;
      }
    }
  }

  /** A retry parts a watch from its outbox row exactly when the row was already SENT. */
  lemma RetryKeepsWatchesExactly(s: Sys, step: Step)
    requires Good(s) && WatchesAgree(s.db) && step.AckRetry? && step.ticket.id < |s.db.rows|
    ensures WatchesAgree(Apply(s, step).db)
       <==> !(s.db.rows[step.ticket.id].entityType == Watch && s.db.rows[step.ticket.id].status == Sent)
  {
    var id, db' := step.ticket.id, Apply(s, step).db;
    assert db'.rows[id].status != Sent && db'.rows[id].entityType == s.db.rows[id].entityType;
  }

  /** A watch has a second writer, its creator, who writes what came of its own attempt to send.  That keeps
      the agreement exactly when the row of the watch says the same at that moment. */
  lemma SetFlagKeepsWatchesExactly(s: Sys, w: nat, sent: bool)
    requires WatchesAgree(s.db)
    ensures WatchesAgree(Apply(s, SetWatchFlag(w, sent)).db)
       <==> forall i | 0 <= i < |s.db.rows| && s.db.rows[i].entityType == Watch && s.db.rows[i].entityId == w ::
              s.db.rows[i].status == Sent <==> sent
  {
    var db' := Apply(s, SetWatchFlag(w, sent)).db;
    assert db'.rows == s.db.rows;
  }

  const CLAIM_WATCHES := Claim(5, LEASE_SECONDS, WATCHES)

  /** From an empty outbox and in time: another worker delivers the watch before its creator, which then finds
      nothing to claim, writes that it was not sent. */
  lemma WatchesMayDisagree()
    ensures var steps := [Save(false, false, Some("watch")), CLAIM_WATCHES]
                         + [AckSent(Ticket(0, 1, LEASE_SECONDS)), SetWatchFlag(0, false)];
            TimelyRun(EMPTY, steps) && !WatchesAgree(Run(EMPTY, steps).db)
  {
    var save, ack, flag := Save(false, false, Some("watch")), AckSent(Ticket(0, 1, LEASE_SECONDS)),
        SetWatchFlag(0, false);
    var row := NewRow(Watch, 0, "watch", 0);
    var saved := Sys(Db([row], [], [false]), 0, {});
    assert Apply(EMPTY, save) == saved;
    SingleClaim(saved, WATCHES);
    var claimed := Apply(saved, CLAIM_WATCHES);
    TwoFirst(EMPTY, save, CLAIM_WATCHES, [ack, flag]);
    TwoFirst(claimed, ack, flag, []);
    assert [ack, flag] + [] == [ack, flag];
    var end := Apply(Apply(claimed, ack), flag);
    assert end.db.rows[0].status == Sent && !end.db.watchSent[0];
  }

  lemma TwoFirst(s: Sys, a: Step, b: Step, rest: seq<Step>)
    ensures Run(s, [a, b] + rest) == Run(Apply(Apply(s, a), b), rest)
    ensures TimelyRun(s, [a, b] + rest) <==>
              Timely(s, a) && Timely(Apply(s, a), b) && TimelyRun(Apply(Apply(s, a), b), rest)
  {
    assert ([a, b] + rest)[1..] == [b] + rest;
    assert ([b] + rest)[1..] == rest;
  }
}
