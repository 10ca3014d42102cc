/** The callers that empty the outbox (app/main.py): one delivery, one drain, one immediate send.
    Telegram's answers are an input, keyed by outbox id.  What a caller does to the store is stated as a
    run of OutboxRuns, so everything proved about runs holds of it. */
module Delivery {
  import opened Common
  import opened Outbox
  import opened OutboxRuns
  import opened OutboxFacts

  type Item = Outbox.Delivery

  // ---------- The run that one batch performs ----------

  /** The acknowledgement that `answer` leads to. */
  function AckOf(t: Ticket, answer: SendOutcome, at: int): Step {
    match answer
    case Accepted => AckSent(t)
    case Refused => AckRetry(t, "telegram_send_returned_false", at + RETRY_DELAY)
    case Raised(error) => AckRetry(t, error, at + RETRY_DELAY)
  }

  function TicketOf(d: Item, lease: int): Ticket {
    Ticket(d.id, d.attempts, lease)
  }

  function Acks(claims: seq<Item>, lease: int, answers: nat -> SendOutcome, at: int): (acks: seq<Step>)
    ensures |acks| == |claims|
    ensures forall k | 0 <= k < |claims| :: acks[k] == AckOf(TicketOf(claims[k], lease), answers(claims[k].id), at)
  {
    seq(|claims|, k requires 0 <= k < |claims| => AckOf(TicketOf(claims[k], lease), answers(claims[k].id), at))
  }

  function ClaimedItems(rows: seq<Row>, now: int, limit: nat, f: Filter): (items: seq<Item>)
    ensures |items| == |ChosenIds(rows, |rows|, now, limit, f)| <= limit
    ensures forall k | 0 <= k < |items| ::
              && items[k].id == ChosenIds(rows, |rows|, now, limit, f)[k] < |rows|
              && items[k].attempts == rows[items[k].id].attempts + 1
    ensures forall a, b | 0 <= a < b < |items| :: items[a].id < items[b].id
  {
    var ids := ChosenIds(rows, |rows|, now, limit, f);
    var after := AfterClaim(rows, now, limit, LEASE_SECONDS, f);
    seq(|ids|, k requires 0 <= k < |ids| => DeliveryOf(after, ids[k]))
  }

  /** Claim at `now`, hear from Telegram at `at`, acknowledge in claim order. */
  function BatchSteps(claim: Step, tick: Step, claims: seq<Item>, lease: int, answers: nat -> SendOutcome,
                      at: int): seq<Step> {
    [claim, tick] + Acks(claims, lease, answers, at)
  }

  function Batch(db: Db, f: Filter, limit: nat, now: int, answers: nat -> SendOutcome, at: int): Db
    requires now <= at
  {
    Run(Sys(db, now, {}),
        BatchSteps(Claim(limit, LEASE_SECONDS, f), Tick(at - now), ClaimedItems(db.rows, now, limit, f),
                   now + LEASE_SECONDS, answers, at)).db
  }

  function Accepts(claims: seq<Item>, answers: nat -> SendOutcome): (n: nat)
    ensures n <= |claims|
  {
    if claims == [] then 0
    else Accepts(claims[..|claims| - 1], answers) + if answers(claims[|claims| - 1].id) == Accepted then 1 else 0
  }

  lemma {:induction false} TicketsDoNotMatter(s: Sys, tickets: set<Ticket>, steps: seq<Step>)
    ensures Run(s.(tickets := tickets), steps).db == Run(s, steps).db
    decreases |steps|
  {
    if steps != [] {
      var s' := Apply(s, steps[0]);
      var t' := Apply(s.(tickets := tickets), steps[0]);
      assert t' == s'.(tickets := t'.tickets);
      TicketsDoNotMatter(s', t'.tickets, steps[1..]);
    }
  }

  lemma ClaimedItemsHoldTickets(rows: seq<Row>, now: int, limit: nat, f: Filter, k: nat)
    requires k < |ClaimedItems(rows, now, limit, f)|
    ensures TicketOf(ClaimedItems(rows, now, limit, f)[k], now + LEASE_SECONDS)
         in TicketsOf(rows, now, Claim(limit, LEASE_SECONDS, f))
  {
    var id := ChosenIds(rows, |rows|, now, limit, f)[k];
    assert id in ChosenIds(rows, |rows|, now, limit, f);
    assert Chosen(rows, id, now, limit, f);
  }

  function Tickets(items: seq<Item>, lease: int): (owed: seq<Ticket>)
    ensures |owed| == |items| && forall k | 0 <= k < |items| :: owed[k] == TicketOf(items[k], lease)
  {
    seq(|items|, k requires 0 <= k < |items| => TicketOf(items[k], lease))
  }

  predicate Acknowledges(step: Step, t: Ticket) { (step.AckSent? || step.AckRetry?) && step.ticket == t }

  /** A worker acknowledges `owed` in order, each whenever its answer arrives but before `lease`; in between,
      others do anything timely that leaves its tickets alone. */
  predicate Interleaves(s: Sys, steps: seq<Step>, owed: seq<Ticket>, lease: int)
    decreases |steps|
  {
    steps == []
    || if owed != [] && Acknowledges(steps[0], owed[0])
       then s.now < lease && Interleaves(Apply(s, steps[0]), steps[1..], owed[1..], lease)
       else Timely(s, steps[0]) && (forall t | t in owed :: !Acknowledges(steps[0], t))
            && Interleaves(Apply(s, steps[0]), steps[1..], owed, lease)
  }

  /** The tickets of a batch are held, distinct and leased alike. */
  ghost predicate Owes(s: Sys, owed: seq<Ticket>, lease: int) {
    && (forall t | t in owed :: t in s.tickets && t.lease == lease)
    && forall a, b | 0 <= a < b < |owed| :: owed[a] != owed[b]
  }

  lemma StepKeepsOwed(s: Sys, step: Step, owed: seq<Ticket>, lease: int)
    requires Owes(s, owed, lease) && forall t | t in owed :: !Acknowledges(step, t)
    ensures Owes(Apply(s, step), owed, lease)
  {
  }

  lemma AckKeepsOwed(s: Sys, step: Step, owed: seq<Ticket>, lease: int)
    requires Owes(s, owed, lease) && owed != [] && Acknowledges(step, owed[0])
    ensures Owes(Apply(s, step), owed[1..], lease)
  {
    forall t | t in owed[1..] ensures t in owed && t != owed[0] {
      var k :| 0 <= k < |owed[1..]| && owed[1..][k] == t;
      assert t == owed[k + 1];
    }
  }

  lemma {:induction false} InterleavedIsTimely(s: Sys, steps: seq<Step>, owed: seq<Ticket>, lease: int)
    requires Owes(s, owed, lease) && Interleaves(s, steps, owed, lease)
    ensures TimelyRun(s, steps)
    decreases |steps|
  {
    if steps != [] {
      if owed != [] && Acknowledges(steps[0], owed[0]) {
        AckKeepsOwed(s, steps[0], owed, lease);
        InterleavedIsTimely(Apply(s, steps[0]), steps[1..], owed[1..], lease);
      } else {
        StepKeepsOwed(s, steps[0], owed, lease);
        InterleavedIsTimely(Apply(s, steps[0]), steps[1..], owed, lease);
      }
    }
  }

  lemma ClaimOwes(s: Sys, f: Filter, limit: nat)
    ensures Owes(Apply(s, Claim(limit, LEASE_SECONDS, f)),
                 Tickets(ClaimedItems(s.db.rows, s.now, limit, f), s.now + LEASE_SECONDS), s.now + LEASE_SECONDS)
  {
    ItemsOwed(s.db.rows, s.now, limit, f, ClaimedItems(s.db.rows, s.now, limit, f));
  }

  lemma ItemsOwed(rows: seq<Row>, now: int, limit: nat, f: Filter, items: seq<Item>)
    requires items == ClaimedItems(rows, now, limit, f)
    ensures forall t | t in Tickets(items, now + LEASE_SECONDS) ::
            t in TicketsOf(rows, now, Claim(limit, LEASE_SECONDS, f))
    ensures forall t | t in Tickets(items, now + LEASE_SECONDS) :: t.lease == now + LEASE_SECONDS
    ensures var owed := Tickets(items, now + LEASE_SECONDS); forall a, b | 0 <= a < b < |owed| :: owed[a] != owed[b]
  {
    var owed := Tickets(items, now + LEASE_SECONDS);
    forall t | t in owed ensures t in TicketsOf(rows, now, Claim(limit, LEASE_SECONDS, f)) {
      var k :| 0 <= k < |owed| && owed[k] == t;
      ClaimedItemsHoldTickets(rows, now, limit, f, k);
    }
    forall a, b | 0 <= a < b < |owed| ensures owed[a] != owed[b] {
      assert items[a].id < items[b].id;
    }
  }

  /** A batch whose answers arrive within the lease, each at its own time and with any timely work of others
      in between, is a timely run. */
  lemma BatchIsTimely(s: Sys, f: Filter, limit: nat, steps: seq<Step>)
    requires Interleaves(Apply(s, Claim(limit, LEASE_SECONDS, f)), steps,
                         Tickets(ClaimedItems(s.db.rows, s.now, limit, f), s.now + LEASE_SECONDS),
                         s.now + LEASE_SECONDS)
    ensures TimelyRun(s, [Claim(limit, LEASE_SECONDS, f)] + steps)
  {
    ClaimOwes(s, f, limit);
    OwedIsTimely(s, Claim(limit, LEASE_SECONDS, f), steps,
                 Tickets(ClaimedItems(s.db.rows, s.now, limit, f), s.now + LEASE_SECONDS), s.now + LEASE_SECONDS);
  }

  lemma OwedIsTimely(s: Sys, claim: Step, steps: seq<Step>, owed: seq<Ticket>, lease: int)
    requires claim.Claim? && Owes(Apply(s, claim), owed, lease) && Interleaves(Apply(s, claim), steps, owed, lease)
    ensures TimelyRun(s, [claim] + steps)
  {
    InterleavedIsTimely(Apply(s, claim), steps, owed, lease);
    assert ([claim] + steps)[1..] == steps;
  }

  /** The uninterrupted batch of one caller is such an interleaving. */
  lemma {:induction false} AcksInterleave(s: Sys, items: seq<Item>, lease: int, answers: nat -> SendOutcome, at: int)
    requires s.now < lease
    ensures Interleaves(s, Acks(items, lease, answers, at), Tickets(items, lease), lease)
    decreases |items|
  {
    if items != [] {
      var acks := Acks(items, lease, answers, at);
      assert acks[1..] == Acks(items[1..], lease, answers, at);
      assert Tickets(items, lease)[1..] == Tickets(items[1..], lease);
      AcksInterleave(Apply(s, acks[0]), items[1..], lease, answers, at);
    }
  }

  /** No source row of an outbox row disappears. */
  ghost predicate SourcesKept(db: Db, after: Db) {
    |after.rows| == |db.rows| && forall j | 0 <= j < |db.rows|
        && SourceExists(db, db.rows[j]) :: SourceExists(after, after.rows[j])
  }

  /** Every item's row and source are there. */
  ghost predicate ItemsExist(db: Db, items: seq<Item>) {
    forall k | 0 <= k < |items| :: items[k].id < |db.rows| && SourceExists(db, db.rows[items[k].id])
  }

  /** Every row's source is there, as it is in every run. */
  ghost predicate SourcesExist(db: Db) {
    forall i | 0 <= i < |db.rows| :: SourceExists(db, db.rows[i])
  }

  lemma ClaimedExist(db: Db, mid: Db, now: int, limit: nat, f: Filter, items: seq<Item>)
    requires mid == db.(rows := AfterClaim(db.rows, now, limit, LEASE_SECONDS, f))
             && items == ClaimedItems(db.rows, now, limit, f)
    ensures SourcesExist(db) ==> ItemsExist(mid, items)
  {
    assert forall i | 0 <= i < |db.rows| :: SourceExists(mid, mid.rows[i]) == SourceExists(db, db.rows[i]);
  }

  lemma AckKeepsSources(db: Db, s: Sys, ticket: Ticket, answer: SendOutcome, at: int)
    requires SourcesKept(db, s.db)
    ensures SourcesKept(db, Apply(s, AckOf(ticket, answer, at)).db)
  {
  }

  /** An accepted send leaves the row SENT and its source flagged; any other answer leaves the flags alone and the row
      RETRY, or DEAD after five attempts, due a minute later with the failure as its error. */
  predicate DeliveredAs(db: Db, after: Db, id: nat, answer: SendOutcome, at: int)
    requires id < |db.rows|
  {
    var r := db.rows[id];
    if answer == Accepted then
      && after.rows == db.rows[id := r.(status := Sent, sentAt := Some(at), leaseUntil := None)]
      && HasSource(db, r)
      && after.signalSent == (if r.entityType == Signal then db.signalSent[r.entityId := true] else db.signalSent)
      && after.watchSent == (if r.entityType == Watch then db.watchSent[r.entityId := true] else db.watchSent)
    else
      var text := if answer == Refused then "telegram_send_returned_false" else answer.error;
      && after.signalSent == db.signalSent && after.watchSent == db.watchSent
      && after.rows == db.rows[id := r.(status := if r.attempts < 5 then Retry else Dead, nextAttemptAt := at + 60,
                                        leaseUntil := None,
                                        lastError := Some(if |text| <= 1000 then text else text[..1000]))]
  }

  // ---------- The callers ----------

  class Bot {
    const repository: Repository
    const watchMaxPerCycle: int
    const sendWatch: bool
    var watchSentInCycle: int

    constructor (repository: Repository, watchMaxPerCycle: int, sendWatch: bool)
      ensures this.repository == repository && this.watchMaxPerCycle == watchMaxPerCycle
      ensures this.sendWatch == sendWatch && watchSentInCycle == 0
    {
      this.repository, this.watchMaxPerCycle, this.sendWatch := repository, watchMaxPerCycle, sendWatch;
      watchSentInCycle := 0;
    }

    /** One send and its acknowledgement; a failed acknowledgement escapes to the caller. */
    method DeliverOutboxItem(item: Item, answer: SendOutcome, at: int, ghost s: Sys, ghost lease: int)
      returns (sent: bool, error: Option<StoreError>)
      requires s.db == repository.State() && s.now == at
      modifies repository
      ensures repository.State() == Apply(s, AckOf(TicketOf(item, lease), answer, at)).db
      ensures sent <==> answer == Accepted && error == None
      ensures item.id < |s.db.rows| && SourceExists(s.db, s.db.rows[item.id]) ==> error == None
      ensures error == None <==>
                item.id < |s.db.rows| && (answer == Accepted ==> HasSource(s.db, s.db.rows[item.id]))
      ensures if error == None then DeliveredAs(s.db, repository.State(), item.id, answer, at)
              else repository.State() == s.db
    {
      MarkSentIsExact(s.db, item.id, at);
      sent, error := false, None;
      match answer {
        case Raised(reason) =>
          MarkRetryIsExact(s.db, item.id, reason, at + RETRY_DELAY);
          error := repository.MarkDeliveryRetry(item.id, reason, at + RETRY_DELAY);
        case Accepted =>
          error := repository.MarkDeliverySent(item.id, at);
          sent := error == None;
        case Refused =>
          MarkRetryIsExact(s.db, item.id, "telegram_send_returned_false", at + RETRY_DELAY);
          error := repository.MarkDeliveryRetry(item.id, "telegram_send_returned_false", at + RETRY_DELAY);
      }
    }

    /** The next delivery of a batch that began with `before`. */
    method DeliverNext(item: Item, answer: SendOutcome, at: int, ghost before: Db, ghost s: Sys, ghost lease: int)
      returns (sent: bool, error: Option<StoreError>)
      requires s.db == repository.State() && s.now == at && SourcesKept(before, s.db)
      modifies repository
      ensures repository.State() == Apply(s, AckOf(TicketOf(item, lease), answer, at)).db
      ensures sent <==> answer == Accepted && error == None
      ensures SourcesKept(before, repository.State())
      ensures item.id < |before.rows| && SourceExists(before, before.rows[item.id]) ==> error == None
    {
      AckKeepsSources(before, s, TicketOf(item, lease), answer, at);
      sent, error := DeliverOutboxItem(item, answer, at, s, lease);
    }

    /** Delivers claimed items in order, counting the accepted ones. */
    method DeliverAll(items: seq<Item>, answers: nat -> SendOutcome, at: int, ghost lease: int)
      returns (delivered: nat, error: Option<StoreError>)
      modifies repository
      ensures delivered <= |items|
      ensures error == None ==>
                && delivered == Accepts(items, answers)
                && repository.State() == Run(Sys(old(repository.State()), at, {}), Acks(items, lease, answers, at)).db
      ensures ItemsExist(old(repository.State()), items) ==> error == None
    {
      delivered, error := 0, None;
      ghost var start := Sys(repository.State(), at, {});
      ghost var acks := Acks(items, lease, answers, at);
      var k := 0;
      while k < |items|
        invariant 0 <= k <= |items| && error == None
        invariant delivered == Accepts(items[..k], answers)
        invariant repository.State() == Run(start, acks[..k]).db && Run(start, acks[..k]).now == at
        invariant SourcesKept(start.db, repository.State())
      {
        ghost var s := Run(start, acks[..k]);
        var sent, failure := DeliverNext(items[k], answers(items[k].id), at, start.db, s, lease);
        if failure.Some? {
          return delivered, failure;
        }
        if sent { delivered := delivered + 1; }
        AcceptsSnoc(items, answers, k);
        RunSnoc(start, acks, k);
        k := k + 1;
      }
      assert items[..k] == items && acks[..k] == acks;
    }

    /** One claim and the delivery of all it took. */
    method ClaimAndDeliver(f: Filter, limit: nat, now: int, answers: nat -> SendOutcome, at: int)
      returns (delivered: nat, error: Option<StoreError>)
      requires now <= at
      modifies repository
      ensures delivered <= limit
      ensures error == None ==> repository.State() == Batch(old(repository.State()), f, limit, now, answers, at)
      ensures error == None ==>
                delivered == Accepts(ClaimedItems(old(repository.rows), now, limit, f), answers)
      ensures SourcesExist(old(repository.State())) ==> error == None
    {
      ghost var db := repository.State();
      var claimed := repository.ClaimDueDeliveries(now, limit, LEASE_SECONDS, f);
      assert claimed == ClaimedItems(db.rows, now, limit, f);
      ghost var mid := repository.State();
      assert mid == db.(rows := AfterClaim(db.rows, now, limit, LEASE_SECONDS, f));
      ClaimedExist(db, mid, now, limit, f, claimed);
      delivered, error := DeliverAll(claimed, answers, at, now + LEASE_SECONDS);
      BatchUnfolds(db, mid, f, limit, now, answers, at);
    }

    /** Sends due signals, then as many due watches as this cycle's budget still allows. */
    method DrainDeliveryOutbox(limit: nat, now: int, at: int, now2: int, at2: int, answers: nat -> SendOutcome)
      returns (delivered: nat, error: Option<StoreError>)
      requires now <= at <= now2 <= at2
      modifies repository, this`watchSentInCycle
      ensures old(watchSentInCycle) <= watchSentInCycle <= Max(old(watchSentInCycle), watchMaxPerCycle)
      ensures error == None ==>
                var mid := Batch(old(repository.State()), Filter(Some(Signal), None), limit, now, answers, at);
                var budget := Max(0, watchMaxPerCycle - old(watchSentInCycle));
                repository.State()
                == if sendWatch && budget != 0
                   then Batch(mid, Filter(Some(Watch), None), Min(limit, budget), now2, answers, at2) else mid
      ensures error == None ==>
                delivered
                == Accepts(ClaimedItems(old(repository.rows), now, limit, Filter(Some(Signal), None)), answers)
                   + (watchSentInCycle - old(watchSentInCycle))
      ensures error == None ==>
                var mid := Batch(old(repository.State()), Filter(Some(Signal), None), limit, now, answers, at);
                var budget := Max(0, watchMaxPerCycle - old(watchSentInCycle));
                watchSentInCycle - old(watchSentInCycle)
                == if sendWatch && budget != 0
                   then Accepts(ClaimedItems(mid.rows, now2, Min(limit, budget), Filter(Some(Watch), None)), answers)
                   else 0
    {
      delivered, error := ClaimAndDeliver(SIGNALS, limit, now, answers, at);
      if error.Some? {
        return;
      }
      ghost var mid := repository.State();
      var budget := Max(0, watchMaxPerCycle - watchSentInCycle);
      if sendWatch && budget != 0 {
        var watches;
        watches, error := ClaimAndDeliver(WATCHES, Min(limit, budget), now2, answers, at2);
        watchSentInCycle := watchSentInCycle + watches;
        delivered := delivered + watches;
        assert error == None ==> repository.State() == Batch(mid, WATCHES, Min(limit, budget), now2, answers, at2);
      }
    }

    /** Claims the item just saved, alone, and sends it at once. */
    method SendNewDelivery(kind: EntityType, entityId: nat, now: int, answers: nat -> SendOutcome, at: int)
      returns (sent: bool, error: Option<StoreError>)
      requires now <= at
      modifies repository
      ensures error == None ==>
                var f := Filter(Some(kind), Some(entityId));
                && repository.State() == Batch(old(repository.State()), f, 1, now, answers, at)
                && (sent <==> Accepts(ClaimedItems(old(repository.rows), now, 1, f), answers) == 1)
    {
      var delivered;
      delivered, error := ClaimAndDeliver(Filter(Some(kind), Some(entityId)), 1, now, answers, at);
      sent := error == None && delivered == 1;
    }
  }

  lemma AcceptsSnoc(items: seq<Item>, answers: nat -> SendOutcome, k: nat)
    requires k < |items|
    ensures Accepts(items[..k + 1], answers) == Accepts(items[..k], answers) + if answers(items[k].id) == Accepted
            then 1 else 0
  {
    assert items[..k + 1][..k] == items[..k];
  }

  lemma RunSnoc(s: Sys, steps: seq<Step>, k: nat)
    requires k < |steps|
    ensures Run(s, steps[..k + 1]) == Apply(Run(s, steps[..k]), steps[k])
  {
    assert steps[..k + 1] == steps[..k] + [steps[k]];
    RunAppend(s, steps[..k], [steps[k]]);
    assert [steps[k]][1..] == [];
  }

  lemma BatchUnfolds(db: Db, mid: Db, f: Filter, limit: nat, now: int, answers: nat -> SendOutcome, at: int)
    requires now <= at
    requires mid == db.(rows := AfterClaim(db.rows, now, limit, LEASE_SECONDS, f))
    ensures Batch(db, f, limit, now, answers, at)
         == Run(Sys(mid, at, {}),
                Acks(ClaimedItems(db.rows, now, limit, f), now + LEASE_SECONDS, answers, at)).db
  {
    StepsUnfold(Sys(db, now, {}), Claim(limit, LEASE_SECONDS, f), Tick(at - now), mid,
                ClaimedItems(db.rows, now, limit, f), now + LEASE_SECONDS, answers, at);
  }

  lemma StepsUnfold(s: Sys, claim: Step, tick: Step, mid: Db, claims: seq<Item>, lease: int,
                    answers: nat -> SendOutcome, at: int)
    requires claim.Claim? && tick.Tick? && s.now + tick.dt == at
    requires mid == s.db.(rows := AfterClaim(s.db.rows, s.now, claim.limit, claim.lease, claim.filter))
    ensures Run(s, BatchSteps(claim, tick, claims, lease, answers, at)).db
            == Run(Sys(mid, at, {}), Acks(claims, lease, answers, at)).db
  {
    var acks := Acks(claims, lease, answers, at);
    TwoFirst(s, claim, tick, acks);
    var s2 := Apply(Apply(s, claim), tick);
    TicketsDoNotMatter(Sys(mid, at, {}), s2.tickets, acks);
  }
}
