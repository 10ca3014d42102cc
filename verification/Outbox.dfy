/** The durable Telegram outbox (app/storage/repository.py) and the two drivers that empty it
    (app/main.py).  A row's id is its position in `rows`: rows are only ever appended, so the order
    of ids is the order of positions.  Times are integers, in seconds. */
module Outbox {
  import opened Common

  const MAX_ATTEMPTS: nat := 5
  const RETRY_DELAY := 60
  const LEASE_SECONDS := 120
  const MAX_ERROR := 1000

  datatype EntityType = Signal | Watch | Other(name: string)

  datatype Status = Pending | InFlight | Retry | Sent | Dead

  datatype Row = Row(
    entityType: EntityType, entityId: nat, payload: string, status: Status, attempts: nat,
    nextAttemptAt: int, lastAttemptAt: Option<int>, leaseUntil: Option<int>, sentAt: Option<int>,
    lastError: Option<string>)

  /** The outbox table and the `telegram_sent` column of its two source tables. */
  datatype Db = Db(rows: seq<Row>, signalSent: seq<bool>, watchSent: seq<bool>)

  /** What a claim hands to a worker. */
  datatype Delivery = Delivery(id: nat, entityType: EntityType, entityId: nat, payload: string, attempts: nat)

  datatype Filter = Filter(entityType: Option<EntityType>, entityId: Option<nat>)

  datatype StoreError = LookupError | ValueError

  function NewRow(entityType: EntityType, entityId: nat, payload: string, now: int): Row {
    Row(entityType, entityId, payload, Pending, 0, now, None, None, None, None)
  }

  // ---------- One row ----------

  predicate LeaseExpired(r: Row, now: int) {
    r.status == InFlight && r.leaseUntil.Some? && r.leaseUntil.value <= now
  }

  /** What the two bulk updates at the head of a claim make of a row. */
  function Reclaimed(r: Row, now: int): Row {
    if !LeaseExpired(r, now) then r
    else if r.attempts >= MAX_ATTEMPTS then
      r.(status := Dead, leaseUntil := None, lastError := Some("delivery_lease_expired_after_max_attempts"))
    else r.(status := Retry, leaseUntil := None, nextAttemptAt := now)
  }

  predicate Matches(r: Row, f: Filter) {
    && (f.entityType.Some? ==> r.entityType == f.entityType.value)
    && (f.entityId.Some? ==> r.entityId == f.entityId.value)
  }

  predicate Claimable(r: Row, now: int, f: Filter) {
    (r.status == Pending || r.status == Retry) && r.nextAttemptAt <= now && Matches(r, f)
  }

  function Claimed(r: Row, now: int, lease: int): Row {
    r.(status := InFlight, attempts := r.attempts + 1, lastAttemptAt := Some(now), leaseUntil := Some(now + lease))
  }

  function SentRow(r: Row, now: int): Row {
    r.(status := Sent, sentAt := Some(now), leaseUntil := None)
  }

  function RetriedRow(r: Row, error: string, next: int): Row {
    r.(status := if r.attempts >= MAX_ATTEMPTS then Dead else Retry,
       nextAttemptAt := next, leaseUntil := None, lastError := Some(Truncated(error)))
  }

  function Truncated(error: string): string {
    if |error| <= MAX_ERROR then error else error[..MAX_ERROR]
  }

  // ---------- The whole table ----------

  /** How many of the first `i` rows a claim could take. */
  function ClaimableBefore(rows: seq<Row>, i: nat, now: int, f: Filter): nat
    requires i <= |rows|
  {
    if i == 0 then 0
    else ClaimableBefore(rows, i - 1, now, f) + if Claimable(Reclaimed(rows[i - 1], now), now, f) then 1 else 0
  }

  /** ORDER BY id LIMIT: a claimable row is taken when fewer than `limit` claimable rows precede it. */
  predicate Chosen(rows: seq<Row>, i: nat, now: int, limit: nat, f: Filter)
    requires i < |rows|
  {
    Claimable(Reclaimed(rows[i], now), now, f) && ClaimableBefore(rows, i, now, f) < limit
  }

  function AfterClaim(rows: seq<Row>, now: int, limit: nat, lease: int, f: Filter): (r: seq<Row>)
    ensures |r| == |rows|
  {
    seq(|rows|, i requires 0 <= i < |rows| =>
      var row := Reclaimed(rows[i], now);
      if Chosen(rows, i, now, limit, f) then Claimed(row, now, lease) else row)
  }

  /** The ids a claim takes among the first `i` rows, ascending. */
  function ChosenIds(rows: seq<Row>, i: nat, now: int, limit: nat, f: Filter): (ids: seq<nat>)
    requires i <= |rows|
    ensures |ids| == Min(ClaimableBefore(rows, i, now, f), limit)
    ensures forall j | 0 <= j < |rows| :: j in ids <==> j < i && Chosen(rows, j, now, limit, f)
    ensures forall a | 0 <= a < |ids| :: ids[a] < i
    ensures forall a, b | 0 <= a < b < |ids| :: ids[a] < ids[b]
  {
    if i == 0 then []
    else
      var rest := ChosenIds(rows, i - 1, now, limit, f);
      if Chosen(rows, i - 1, now, limit, f) then rest + [i - 1] else rest
  }

  function DeliveryOf(rows: seq<Row>, id: nat): Delivery
    requires id < |rows|
  {
    var r := rows[id];
    Delivery(id, r.entityType, r.entityId, r.payload, r.attempts)
  }

  function SourceExists(db: Db, r: Row): bool {
    match r.entityType
    case Signal => r.entityId < |db.signalSent|
    case Watch => r.entityId < |db.watchSent|
    case Other(_) => false
  }

  function MarkSent(db: Db, id: nat, now: int): Result<Db, StoreError> {
    if id >= |db.rows| then Err(LookupError)
    else
      var r := db.rows[id];
      var rows := db.rows[id := SentRow(r, now)];
      match r.entityType
      case Other(_) => Err(ValueError)
      case Signal =>
        if r.entityId < |db.signalSent| then Ok(Db(rows, db.signalSent[r.entityId := true], db.watchSent))
        else Err(LookupError)
      case Watch =>
        if r.entityId < |db.watchSent| then Ok(Db(rows, db.signalSent, db.watchSent[r.entityId := true]))
        else Err(LookupError)
  }

  function MarkRetry(db: Db, id: nat, error: string, next: int): Result<Db, StoreError> {
    if id >= |db.rows| then Err(LookupError)
    else Ok(db.(rows := db.rows[id := RetriedRow(db.rows[id], error, next)]))
  }

  function SaveSignal(db: Db, sent: bool, payload: Option<string>, now: int): Db {
    var id := |db.signalSent|;
    Db(if payload.Some? then db.rows + [NewRow(Signal, id, payload.value, now)] else db.rows,
       db.signalSent + [sent], db.watchSent)
  }

  function SaveWatch(db: Db, sent: bool, payload: Option<string>, now: int): Db {
    var id := |db.watchSent|;
    Db(if payload.Some? then db.rows + [NewRow(Watch, id, payload.value, now)] else db.rows,
       db.signalSent, db.watchSent + [sent])
  }

  // ---------- The repository object and its callers ----------

  /** The answer of the Telegram client to one send. */
  datatype SendOutcome = Accepted | Refused | Raised(error: string)

  class Repository {
    var rows: seq<Row>
    var signalSent: seq<bool>
    var watchSent: seq<bool>

    function State(): Db
      reads this
    {
      Db(rows, signalSent, watchSent)
    }

    constructor ()
      ensures State() == Db([], [], [])
    {
      rows, signalSent, watchSent := [], [], [];
    }

    /** A WATCH decision, a missing feature and the provenance of another event are refused, and nothing is kept. */
    method SaveSignalRow(watch: bool, featuresPresent: bool, sameEvent: bool, sent: bool, payload: Option<string>,
                         now: int)
      returns (r: Result<nat, StoreError>)
      modifies this
      ensures watch || !featuresPresent || !sameEvent ==> r == Err(ValueError) && State() == old(State())
      ensures !watch && featuresPresent && sameEvent ==>
                r == Ok(old(|signalSent|)) && State() == SaveSignal(old(State()), sent, payload, now)
    {
      if watch || !featuresPresent || !sameEvent {
        return Err(ValueError);
      }
      var id := |signalSent|;
      signalSent := signalSent + [sent];
      if payload.Some? {
        rows := rows + [NewRow(Signal, id, payload.value, now)];
      }
      r := Ok(id);
    }

    method SaveWatchRow(sent: bool, payload: Option<string>, now: int) returns (id: nat)
      modifies this
      ensures id == old(|watchSent|)
      ensures State() == SaveWatch(old(State()), sent, payload, now)
    {
      id := |watchSent|;
      watchSent := watchSent + [sent];
      if payload.Some? {
        rows := rows + [NewRow(Watch, id, payload.value, now)];
      }
    }

    /** The bulk update that buries rows whose last permitted attempt ran out of lease. */
    method BuryExpired(now: int)
      modifies this`rows
      ensures |rows| == |old(rows)|
      ensures forall j | 0 <= j < |rows| ::
                rows[j] == if old(rows)[j].attempts >= MAX_ATTEMPTS then Reclaimed(old(rows)[j], now) else old(rows)[j]
    {
      var i := 0;
      while i < |rows|
        invariant 0 <= i <= |rows| == |old(rows)|
        invariant forall j | i <= j < |rows| :: rows[j] == old(rows)[j]
        invariant forall j | 0 <= j < i ::
                    rows[j] == if old(rows)[j].attempts >= MAX_ATTEMPTS then Reclaimed(old(rows)[j], now)
                        else old(rows)[j]
      {
        var r := rows[i];
        if r.status == InFlight && r.leaseUntil.Some? && r.leaseUntil.value <= now && r.attempts >= MAX_ATTEMPTS {
          rows := rows[i := r.(status := Dead, leaseUntil := None,
                               lastError := Some("delivery_lease_expired_after_max_attempts"))];
        }
        i := i + 1;
      }
    }

    /** The bulk update that makes the other rows with an expired lease due again. */
    method RequeueExpired(now: int)
      modifies this`rows
      ensures |rows| == |old(rows)|
      ensures forall j | 0 <= j < |rows| ::
                rows[j] == if old(rows)[j].attempts < MAX_ATTEMPTS then Reclaimed(old(rows)[j], now) else old(rows)[j]
    {
      var i := 0;
      while i < |rows|
        invariant 0 <= i <= |rows| == |old(rows)|
        invariant forall j | i <= j < |rows| :: rows[j] == old(rows)[j]
        invariant forall j | 0 <= j < i ::
                    rows[j] == if old(rows)[j].attempts < MAX_ATTEMPTS then Reclaimed(old(rows)[j], now)
                        else old(rows)[j]
      {
        var r := rows[i];
        if r.status == InFlight && r.leaseUntil.Some? && r.leaseUntil.value <= now && r.attempts < MAX_ATTEMPTS {
          rows := rows[i := r.(status := Retry, leaseUntil := None, nextAttemptAt := now)];
        }
        i := i + 1;
      }
    }

    /** The ordered and limited select over rows whose expired leases were already released. */
    method SelectDue(now: int, limit: nat, f: Filter, ghost before: seq<Row>) returns (ids: seq<nat>)
      requires |rows| == |before|
      requires forall j | 0 <= j < |rows| :: rows[j] == Reclaimed(before[j], now)
      ensures ids == ChosenIds(before, |before|, now, limit, f)
    {
      ids := [];
      var i := 0;
      while i < |rows|
        invariant 0 <= i <= |rows|
        invariant ids == ChosenIds(before, i, now, limit, f)
      {
        if |ids| < limit && Claimable(rows[i], now, f) {
          ids := ids + [i];
        }
        i := i + 1;
      }
    }

    /** Leases each selected row, one at a time. */
    method Lease(ids: seq<nat>, now: int, lease: int) returns (claimed: seq<Delivery>)
      requires forall k | 0 <= k < |ids| :: ids[k] < |rows|
      requires forall a, b | 0 <= a < b < |ids| :: ids[a] < ids[b]
      modifies this`rows
      ensures |rows| == |old(rows)|
      ensures forall j | 0 <= j < |rows| ::
                rows[j] == if j in ids then Claimed(old(rows)[j], now, lease) else old(rows)[j]
      ensures |claimed| == |ids|
      ensures forall k | 0 <= k < |ids| :: claimed[k] == DeliveryOf(rows, ids[k])
    {
      claimed := [];
      var k := 0;
      while k < |ids|
        invariant 0 <= k == |claimed| <= |ids|
        invariant |rows| == |old(rows)|
        invariant forall j | 0 <= j < |rows| ::
                    rows[j] == if j in ids[..k] then Claimed(old(rows)[j], now, lease) else old(rows)[j]
        invariant forall m | 0 <= m < k :: claimed[m] == DeliveryOf(rows, ids[m])
      {
        var id := ids[k];
        assert forall m | 0 <= m < k :: ids[m] < id;
        assert ids[..k + 1] == ids[..k] + [id];
        var r := rows[id];
        rows := rows[id := r.(status := InFlight, attempts := r.attempts + 1, lastAttemptAt := Some(now),
                              leaseUntil := Some(now + lease))];
        claimed := claimed + [DeliveryOf(rows, id)];
        k := k + 1;
      }
      assert ids[..k] == ids;
    }

    /** Releases expired leases, then takes the first `limit` matching due rows in id order. */
    method ClaimDueDeliveries(now: int, limit: nat, lease: int, f: Filter) returns (claimed: seq<Delivery>)
      modifies this`rows
      ensures rows == AfterClaim(old(rows), now, limit, lease, f)
      ensures |claimed| == |ChosenIds(old(rows), |old(rows)|, now, limit, f)|
      ensures forall k | 0 <= k < |claimed| ::
                claimed[k] == DeliveryOf(rows, ChosenIds(old(rows), |old(rows)|, now, limit, f)[k])
      ensures forall k | 0 <= k < |claimed| ::
                && claimed[k].id == ChosenIds(old(rows), |old(rows)|, now, limit, f)[k] < |rows|
                && claimed[k].entityType == rows[claimed[k].id].entityType
                && claimed[k].entityId == rows[claimed[k].id].entityId
                && claimed[k].payload == rows[claimed[k].id].payload
                && claimed[k].attempts == rows[claimed[k].id].attempts
    {
      BuryExpired(now);
      RequeueExpired(now);
      var ids := SelectDue(now, limit, f, old(rows));
      claimed := Lease(ids, now, lease);
    }

    method MarkDeliverySent(id: nat, now: int) returns (error: Option<StoreError>)
      modifies this
      ensures match MarkSent(old(State()), id, now)
              case Ok(db) => error == None && State() == db
              case Err(e) => error == Some(e) && State() == old(State())
    {
      if id >= |rows| {
        return Some(LookupError);
      }
      var r := rows[id];
      match r.entityType {
        case Signal =>
          if r.entityId >= |signalSent| { return Some(LookupError); }
          signalSent := signalSent[r.entityId := true];
        case Watch =>
          if r.entityId >= |watchSent| { return Some(LookupError); }
          watchSent := watchSent[r.entityId := true];
        case Other(_) =>
          return Some(ValueError);
      }
      rows := rows[id := r.(status := Sent, sentAt := Some(now), leaseUntil := None)];
      error := None;
    }

    method MarkDeliveryRetry(id: nat, error: string, next: int) returns (failure: Option<StoreError>)
      modifies this`rows
      ensures match MarkRetry(old(State()), id, error, next)
              case Ok(db) => failure == None && State() == db
              case Err(e) => failure == Some(e) && State() == old(State())
    {
      if id >= |rows| {
        return Some(LookupError);
      }
      var r := rows[id];
      rows := rows[id := r.(status := if r.attempts >= MAX_ATTEMPTS then Dead else Retry,
                            nextAttemptAt := next, leaseUntil := None, lastError := Some(Truncated(error)))];
      failure := None;
    }
  }
}
