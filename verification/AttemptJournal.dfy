/** Shadow entry attempts and their append-only, idempotency-keyed journal
    (app/storage/repository.py).  A journal key is a structured value rather than a formatted string;
    columns that are only copied through (evaluation details, model version) are omitted. */
module AttemptJournal {
  import opened Common

  type AttemptId = string
  type RootId = string

  /** The four terminal states by name; every other state the callers use is a working state. */
  datatype AttemptState = ShadowActionable | Expired | Invalidated | RootReplaced | Working(name: string)

  datatype Attempt = Attempt(
    rootId: RootId, createdAt: int, trigger: string, retestHigh: Option<real>, breakdownLevel: Option<real>,
    startedAt: int, expiresAt: Option<int>, state: AttemptState,
    closeReason: Option<string>, closedAt: Option<int>, lastObservedAt: int)

  datatype Key =
    | CreatedKey(id: AttemptId)
    | ObservedKey(id: AttemptId, state: AttemptState, at: int)
    | MovedKey(id: AttemptId, evaluation: Option<int>, state: AttemptState)
    | ClosedKey(id: AttemptId, evaluation: Option<int>, state: AttemptState)
    | ReplacedStateKey(id: AttemptId)
    | ReplacedClosedKey(id: AttemptId)
    | ReconciledStateKey(id: AttemptId)
    | ReconciledClosedKey(id: AttemptId)
    | RestartKey(id: AttemptId, runtime: string)
    | OrphanKey(id: AttemptId)
    | LimitKey(rootId: RootId, limit: int, requested: AttemptId)
    | CorrelationKey(rootId: RootId, token: int)

  datatype EventKind = Created | StateChanged | Closed | Reused | OrphanDetected | LimitReached | CorrelationMissing

  datatype Event = Event(
    attemptId: Option<AttemptId>, rootId: RootId, kind: EventKind,
    previous: Option<AttemptState>, next: Option<AttemptState>,
    reason: string, at: int, runtime: Option<string>, key: Key)

  /** `order` lists the attempt ids in the order a table scan returns them. */
  datatype Db = Db(attempts: map<AttemptId, Attempt>, order: seq<AttemptId>, journal: seq<Event>, roots: set<RootId>)

  datatype Request = Request(
    id: AttemptId, rootId: RootId, at: int, retestHigh: Option<real>, breakdownLevel: Option<real>,
    state: AttemptState, trigger: string, expiresAt: Option<int>, closeReason: Option<string>,
    runtime: Option<string>, limit: Option<int>)

  predicate Terminal(s: AttemptState) { !s.Working? }

  /** Python truth of an optional string, and of an optional number. */
  predicate Truthy(s: Option<string>) { s.Some? && s.value != "" }

  function OrText(s: Option<string>, other: string): Option<string> { if Truthy(s) then s else Some(other) }

  function OrNumber(x: Option<real>, other: Option<real>): Option<real> {
    if x.Some? && x.value != 0.0 then x else other
  }

  predicate IsOpen(db: Db, id: AttemptId) {
    id in db.attempts && db.attempts[id].closedAt == None
  }

  // ---------- The journal ----------

  predicate HasKey(journal: seq<Event>, key: Key) {
    exists i | 0 <= i < |journal| :: journal[i].key == key
  }

  function Append(journal: seq<Event>, e: Event): seq<Event> {
    if HasKey(journal, e.key) then journal else journal + [e]
  }

  /** The newest event of an attempt. */
  function Latest(journal: seq<Event>, id: AttemptId): Option<Event> {
    if journal == [] then None
    else if journal[|journal| - 1].attemptId == Some(id) then Some(journal[|journal| - 1])
    else Latest(journal[..|journal| - 1], id)
  }

  function ChangeEvent(id: AttemptId, rootId: RootId, previous: AttemptState, next: AttemptState,
                       reason: string, at: int, runtime: Option<string>, key: Key): Event {
    Event(Some(id), rootId, StateChanged, Some(previous), Some(next), reason, at, runtime, key)
  }

  function CloseEvent(id: AttemptId, rootId: RootId, previous: AttemptState, next: AttemptState,
                      reason: string, at: int, runtime: Option<string>, key: Key): Event {
    Event(Some(id), rootId, Closed, Some(previous), Some(next), reason, at, runtime, key)
  }

  function ReuseEvent(id: AttemptId, rootId: RootId, state: AttemptState, reason: string, at: int,
                      runtime: Option<string>, key: Key): Event {
    Event(Some(id), rootId, Reused, Some(state), Some(state), reason, at, runtime, key)
  }

  /** The startup pass found the attempt's root missing. */
  function OrphanEvent(id: AttemptId, a: Attempt, at: int, runtime: Option<string>): Event {
    Event(Some(id), a.rootId, OrphanDetected, Some(a.state), Some(a.state), "root_event_missing", at, runtime,
          OrphanKey(id))
  }

  // ---------- Operations ----------

  function CountForRoot(db: Db, rootId: RootId): nat {
    |set id | id in db.attempts && db.attempts[id].rootId == rootId|
  }

  predicate Refused(db: Db, r: Request) {
    r.id !in db.attempts && r.limit.Some? && CountForRoot(db, r.rootId) >= r.limit.value
  }

  function NewAttempt(r: Request): Attempt {
    Attempt(r.rootId, r.at, r.trigger, r.retestHigh, r.breakdownLevel, r.at, r.expiresAt, r.state, r.closeReason,
            if Truthy(r.closeReason) || Terminal(r.state) then Some(r.at) else None, r.at)
  }

  function Observed(a: Attempt, r: Request): Attempt {
    a.(retestHigh := OrNumber(r.retestHigh, a.retestHigh),
       breakdownLevel := OrNumber(r.breakdownLevel, a.breakdownLevel),
       expiresAt := if a.expiresAt == None then r.expiresAt else a.expiresAt,
       state := r.state,
       closeReason := if Truthy(r.closeReason) then OrText(a.closeReason, r.closeReason.value) else a.closeReason,
       closedAt := if Truthy(r.closeReason) && a.closedAt == None then Some(r.at) else a.closedAt,
       lastObservedAt := r.at)
  }

  /** What observing an existing attempt adds to the journal.  The restart test reads the journal as it
      was before the call. */
  function ObservedJournal(journal: seq<Event>, a: Attempt, r: Request): seq<Event> {
    var changed :=
      if a.state == r.state then journal
      else Append(journal, ChangeEvent(r.id, r.rootId, a.state, r.state,
                                       if Truthy(r.closeReason) then r.closeReason.value else "observation",
                                       r.at, r.runtime, ObservedKey(r.id, r.state, r.at)));
    var latest := Latest(journal, r.id);
    if Truthy(r.runtime) && latest.Some? && Truthy(latest.value.runtime) && latest.value.runtime != r.runtime
    then Append(changed, ReuseEvent(r.id, r.rootId, r.state, "existing_nonterminal_attempt", r.at, r.runtime,
                                    RestartKey(r.id, r.runtime.value)))
    else changed
  }

  function Upsert(db: Db, r: Request): Db {
    if Refused(db, r) then
      db.(journal := Append(db.journal,
        Event(None, r.rootId, LimitReached, None, None, "max_attempts_per_root_event_reached", r.at, r.runtime,
              LimitKey(r.rootId, r.limit.value, r.id))))
    else if r.id !in db.attempts then
      db.(attempts := db.attempts[r.id := NewAttempt(r)], order := db.order + [r.id],
          journal := Append(db.journal,
            Event(Some(r.id), r.rootId, Created, None, Some(r.state), r.trigger, r.at, r.runtime, CreatedKey(r.id))))
    else
      var a := db.attempts[r.id];
      if a.closedAt.Some? || Terminal(a.state) then db
      else db.(attempts := db.attempts[r.id := Observed(a, r)], journal := ObservedJournal(db.journal, a, r))
  }

  function Transition(db: Db, id: AttemptId, rootId: RootId, evaluation: Option<int>, next: AttemptState,
                      reason: string, at: int, runtime: Option<string>): Db
  {
    if !IsOpen(db, id) || (!Terminal(next) && db.attempts[id].state == next) then db
    else
      var a := db.attempts[id];
      var changed :=
        if a.state == next then db.journal
        else Append(db.journal, ChangeEvent(id, rootId, a.state, next, reason, at, runtime,
                                            MovedKey(id, evaluation, next)));
      if Terminal(next) then
        db.(attempts := db.attempts[id := a.(state := next, closedAt := Some(at),
                                             closeReason := OrText(a.closeReason, reason), lastObservedAt := at)],
            journal := Append(changed, CloseEvent(id, rootId, a.state, next, reason, at, runtime,
                                                  ClosedKey(id, evaluation, next))))
      else
        db.(attempts := db.attempts[id := a.(state := next, lastObservedAt := at)], journal := changed)
  }

  /** Moves an open attempt to `next` and closes it, journalling both. */
  function CloseRow(db: Db, id: AttemptId, rootId: RootId, next: AttemptState, closeReason: Option<string>,
                    reason: string, at: int, runtime: Option<string>, stateKey: Key, closedKey: Key): Db
    requires id in db.attempts
  {
    var a := db.attempts[id];
    var changed := Append(db.journal, ChangeEvent(id, rootId, a.state, next, reason, at, runtime, stateKey));
    db.(attempts := db.attempts[id := a.(state := next, closedAt := Some(at), closeReason := closeReason,
                                         lastObservedAt := at)],
        journal := Append(changed, CloseEvent(id, rootId, a.state, next, reason, at, runtime, closedKey)))
  }

  function ReplaceRow(db: Db, id: AttemptId, rootId: RootId, next: AttemptState, reason: string, at: int,
                      runtime: Option<string>): Db
  {
    if IsOpen(db, id) && db.attempts[id].rootId == rootId
    then CloseRow(db, id, rootId, next, Some(reason), reason, at, runtime, ReplacedStateKey(id), ReplacedClosedKey(id))
    else db
  }

  /** Closes the open attempts of a root among the first `n` of a table scan. */
  function ReplaceRoot(db: Db, n: nat, rootId: RootId, next: AttemptState, reason: string, at: int,
                       runtime: Option<string>): (r: Db)
    requires n <= |db.order|
    ensures r.order == db.order && r.roots == db.roots
  {
    if n == 0 then db
    else ReplaceRow(ReplaceRoot(db, n - 1, rootId, next, reason, at, runtime), db.order[n - 1], rootId, next, reason,
                    at, runtime)
  }

  predicate Due(db: Db, id: AttemptId, at: int) {
    IsOpen(db, id) && db.attempts[id].expiresAt.Some? && db.attempts[id].expiresAt.value <= at
  }

  function Expire(db: Db, id: AttemptId, rootId: RootId, evaluation: Option<int>, at: int,
                  runtime: Option<string>): Db {
    if !Due(db, id, at) then db
    else CloseRow(db, id, rootId, Expired, OrText(db.attempts[id].closeReason, "confirmation_ttl_expired"),
                  "confirmation_ttl_expired", at, runtime, MovedKey(id, evaluation, Expired),
                  ClosedKey(id, evaluation, Expired))
  }

  function RecordReuse(db: Db, id: AttemptId, rootId: RootId, at: int, runtime: Option<string>): Db {
    if !IsOpen(db, id) then db
    else db.(journal := Append(db.journal,
      ReuseEvent(id, rootId, db.attempts[id].state, "existing_attempt_after_runtime_restart", at, runtime,
                 RestartKey(id, if Truthy(runtime) then runtime.value else "unknown"))))
  }

  function ReconcileRow(db: Db, id: AttemptId, at: int, runtime: Option<string>): Db {
    if id !in db.attempts then db
    else
      var a := db.attempts[id];
      var marked := if a.rootId in db.roots then db
          else db.(journal := Append(db.journal, OrphanEvent(id, a, at, runtime)));
      if !Due(marked, id, at) then marked
      else CloseRow(marked, id, a.rootId, Expired, OrText(a.closeReason, "startup_reconciliation_ttl_expired"),
                    "startup_reconciliation_ttl_expired", at, runtime, ReconciledStateKey(id), ReconciledClosedKey(id))
  }

  function Reconcile(db: Db, n: nat, at: int, runtime: Option<string>): (r: Db)
    requires n <= |db.order|
    ensures r.order == db.order && r.roots == db.roots
  {
    if n == 0 then db else ReconcileRow(Reconcile(db, n - 1, at, runtime), db.order[n - 1], at, runtime)
  }

  function NoteCorrelation(db: Db, id: Option<AttemptId>, rootId: RootId, token: int, at: int,
                           runtime: Option<string>): Db {
    db.(journal := Append(db.journal,
      Event(id, rootId, CorrelationMissing, None, None, "attempt_correlation_missing", at, runtime,
            CorrelationKey(rootId, token))))
  }

  function ClosedEvents(journal: seq<Event>, id: AttemptId): nat {
    if journal == [] then 0
    else ClosedEvents(journal[..|journal| - 1], id)
         + if journal[|journal| - 1].kind == Closed && journal[|journal| - 1].attemptId == Some(id) then 1 else 0
  }

  /** The attempts the startup pass reports as closed more than once. */
  function DuplicateGroups(db: Db): set<AttemptId> {
    set id | id in db.order && ClosedEvents(db.journal, id) > 1
  }

  /** The attempts open in `before` and closed in `after`. */
  function NewlyClosed(before: Db, after: Db): set<AttemptId> {
    set id | id in before.attempts && IsOpen(before, id) && !IsOpen(after, id)
  }

  lemma {:induction false} ReplaceNeverOpens(db: Db, n: nat, rootId: RootId, next: AttemptState, reason: string,
                                             at: int, runtime: Option<string>, id: AttemptId)
    requires n <= |db.order|
    ensures id in db.attempts <==> id in ReplaceRoot(db, n, rootId, next, reason, at, runtime).attempts
    ensures IsOpen(ReplaceRoot(db, n, rootId, next, reason, at, runtime), id) ==> IsOpen(db, id)
    decreases n
  {
    if n > 0 {
      ReplaceNeverOpens(db, n - 1, rootId, next, reason, at, runtime, id);
    }
  }

  /** Each row a replacement closes is one more row that was open before the scan. */
  lemma ReplaceRowCloses(db: Db, n: nat, rootId: RootId, next: AttemptState, reason: string, at: int,
                         runtime: Option<string>)
    requires n < |db.order|
    requires var mid := ReplaceRoot(db, n, rootId, next, reason, at, runtime);
             IsOpen(mid, db.order[n]) && mid.attempts[db.order[n]].rootId == rootId
    ensures |NewlyClosed(db, ReplaceRoot(db, n + 1, rootId, next, reason, at, runtime))|
         == |NewlyClosed(db, ReplaceRoot(db, n, rootId, next, reason, at, runtime))| + 1
  {
    var mid, id := ReplaceRoot(db, n, rootId, next, reason, at, runtime), db.order[n];
    ReplaceNeverOpens(db, n, rootId, next, reason, at, runtime, id);
    var after := ReplaceRow(mid, id, rootId, next, reason, at, runtime);
    assert forall x | x != id :: IsOpen(after, x) <==> IsOpen(mid, x);
    assert NewlyClosed(db, after) == NewlyClosed(db, mid) + {id};
  }

  lemma {:induction false} ReconcileKeepsRows(db: Db, n: nat, at: int, runtime: Option<string>, id: AttemptId)
    requires n <= |db.order|
    ensures var after := Reconcile(db, n, at, runtime);
            && (id in db.attempts <==> id in after.attempts)
            && (id in db.attempts ==> after.attempts[id].rootId == db.attempts[id].rootId)
            && (IsOpen(after, id) ==> IsOpen(db, id))
    decreases n
  {
    if n > 0 {
      ReconcileKeepsRows(db, n - 1, at, runtime, id);
      ReconcileRowKeepsRows(Reconcile(db, n - 1, at, runtime), db.order[n - 1], at, runtime, id);
    }
  }

  lemma ReconcileRowKeepsRows(db: Db, x: AttemptId, at: int, runtime: Option<string>, id: AttemptId)
    ensures var after := ReconcileRow(db, x, at, runtime);
            && (id in db.attempts <==> id in after.attempts)
            && (id in db.attempts ==> after.attempts[id].rootId == db.attempts[id].rootId)
            && (IsOpen(after, id) <==> IsOpen(db, id) && !(id == x && Due(db, x, at)))
  {
  }

  /** Each row the pass expires is one more row that was open before it. */
  lemma ReconcileRowCloses(db: Db, n: nat, at: int, runtime: Option<string>)
    requires n < |db.order|
    ensures |NewlyClosed(db, Reconcile(db, n + 1, at, runtime))|
         == |NewlyClosed(db, Reconcile(db, n, at, runtime))|
            + if Due(Reconcile(db, n, at, runtime), db.order[n], at) then 1 else 0
  {
    var mid, id := Reconcile(db, n, at, runtime), db.order[n];
    ReconcileKeepsRows(db, n, at, runtime, id);
    var after := ReconcileRow(mid, id, at, runtime);
    forall x: AttemptId ensures IsOpen(after, x) <==> IsOpen(mid, x) && !(x == id && Due(mid, id, at)) {
      ReconcileRowKeepsRows(mid, id, at, runtime, x);
    }
    assert NewlyClosed(db, after) == NewlyClosed(db, mid) + if Due(mid, id, at) then {id} else {};
  }

  /** An attempt of the table whose root is missing. */
  predicate IsOrphan(db: Db, id: AttemptId) { id in db.attempts && db.attempts[id].rootId !in db.roots }

  /** The orphans among the first `n` of a table scan that no earlier pass has journalled. */
  function NewOrphans(db: Db, n: nat): set<AttemptId>
    requires n <= |db.order|
  {
    set id | id in db.order[..n] && IsOrphan(db, id) && !HasKey(db.journal, OrphanKey(id))
  }

  lemma AppendKeys(journal: seq<Event>, e: Event, key: Key)
    ensures HasKey(Append(journal, e), key) <==> HasKey(journal, key) || key == e.key
  {
    if HasKey(journal, key) {
      var i :| 0 <= i < |journal| && journal[i].key == key;
      assert Append(journal, e)[i].key == key;
    }
    if !HasKey(journal, e.key) {
      assert (journal + [e])[|journal|] == e;
    }
  }

  lemma ReconcileRowOrphanKey(db: Db, x: AttemptId, at: int, runtime: Option<string>, id: AttemptId)
    ensures HasKey(ReconcileRow(db, x, at, runtime).journal, OrphanKey(id))
       <==> HasKey(db.journal, OrphanKey(id)) || (id == x && IsOrphan(db, x))
  {
    if x in db.attempts {
      var a := db.attempts[x];
      var marked := if a.rootId in db.roots then db
          else db.(journal := Append(db.journal, OrphanEvent(x, a, at, runtime)));
      AppendKeys(db.journal, OrphanEvent(x, a, at, runtime), OrphanKey(id));
      if Due(marked, x, at) {
        ClosingKeepsOrphanKey(marked, x, at, runtime, id);
      }
    }
  }

  lemma ClosingKeepsOrphanKey(db: Db, x: AttemptId, at: int, runtime: Option<string>, id: AttemptId)
    requires x in db.attempts
    ensures var a := db.attempts[x];
            HasKey(CloseRow(db, x, a.rootId, Expired, OrText(a.closeReason, "startup_reconciliation_ttl_expired"),
                            "startup_reconciliation_ttl_expired", at, runtime, ReconciledStateKey(x),
                            ReconciledClosedKey(x)).journal, OrphanKey(id))
            <==> HasKey(db.journal, OrphanKey(id))
  {
    var a, reason := db.attempts[x], "startup_reconciliation_ttl_expired";
    var change := ChangeEvent(x, a.rootId, a.state, Expired, reason, at, runtime, ReconciledStateKey(x));
    var close := CloseEvent(x, a.rootId, a.state, Expired, reason, at, runtime, ReconciledClosedKey(x));
    AppendKeys(db.journal, change, OrphanKey(id));
    AppendKeys(Append(db.journal, change), close, OrphanKey(id));
  }

  lemma {:induction false} ReconcileOrphanKeys(db: Db, n: nat, at: int, runtime: Option<string>, id: AttemptId)
    requires n <= |db.order|
    ensures HasKey(Reconcile(db, n, at, runtime).journal, OrphanKey(id))
       <==> HasKey(db.journal, OrphanKey(id)) || (id in db.order[..n] && IsOrphan(db, id))
    decreases n
  {
    if n > 0 {
      ReconcileOrphanKeys(db, n - 1, at, runtime, id);
      OneMoreId(db.order, n - 1, id);
      ReconcileKeepsRows(db, n - 1, at, runtime, db.order[n - 1]);
      RowFlagged(db, Reconcile(db, n - 1, at, runtime), db.order[n - 1], at, runtime, id);
    }
  }

  lemma OneMoreId(order: seq<AttemptId>, n: nat, id: AttemptId)
    requires n < |order|
    ensures id in order[..n + 1] <==> id in order[..n] || id == order[n]
  {
    assert order[..n + 1] == order[..n] + [order[n]];
  }

  lemma RowFlagged(db: Db, mid: Db, x: AttemptId, at: int, runtime: Option<string>, id: AttemptId)
    requires mid.roots == db.roots && (x in db.attempts <==> x in mid.attempts)
    requires x in db.attempts ==> mid.attempts[x].rootId == db.attempts[x].rootId
    ensures HasKey(ReconcileRow(mid, x, at, runtime).journal, OrphanKey(id))
       <==> HasKey(mid.journal, OrphanKey(id)) || (id == x && IsOrphan(db, x))
  {
    ReconcileRowOrphanKey(mid, x, at, runtime, id);
  }

  /** The pass flags a row exactly when it is one more new orphan. */
  lemma ReconcileRowFlags(db: Db, n: nat, at: int, runtime: Option<string>)
    requires n < |db.order|
    ensures |NewOrphans(db, n + 1)| == |NewOrphans(db, n)|
            + if IsOrphan(db, db.order[n]) && !HasKey(Reconcile(db, n, at, runtime).journal, OrphanKey(db.order[n]))
                then 1 else 0
  {
    var id := db.order[n];
    ReconcileOrphanKeys(db, n, at, runtime, id);
    assert db.order[..n + 1] == db.order[..n] + [id];
    assert NewOrphans(db, n + 1)
        == NewOrphans(db, n) + if IsOrphan(db, id) && !HasKey(db.journal, OrphanKey(id)) then {id} else {};
  }

  lemma ReconcileOneMore(db: Db, mid: Db, k: nat, at: int, runtime: Option<string>)
    requires k < |db.order| && mid == Reconcile(db, k, at, runtime)
    ensures Reconcile(db, k + 1, at, runtime) == ReconcileRow(mid, db.order[k], at, runtime)
    ensures |NewlyClosed(db, Reconcile(db, k + 1, at, runtime))|
         == |NewlyClosed(db, mid)| + if Due(mid, db.order[k], at) then 1 else 0
    ensures |NewOrphans(db, k + 1)|
         == |NewOrphans(db, k)|
            + if IsOrphan(mid, db.order[k]) && !HasKey(mid.journal, OrphanKey(db.order[k])) then 1 else 0
  {
    ReconcileKeepsRows(db, k, at, runtime, db.order[k]);
    ReconcileRowCloses(db, k, at, runtime);
    ReconcileRowFlags(db, k, at, runtime);
  }

  // ---------- The repository object ----------

  class Repository {
    var attempts: map<AttemptId, Attempt>
    var order: seq<AttemptId>
    var journal: seq<Event>
    var roots: set<RootId>

    function State(): Db
      reads this
    {
      Db(attempts, order, journal, roots)
    }

    constructor ()
      ensures State() == Db(map[], [], [], {})
    {
      attempts, order, journal, roots := map[], [], [], {};
    }

    method AppendAttemptEvent(e: Event) returns (added: bool)
      modifies this`journal
      ensures journal == Append(old(journal), e)
      ensures added <==> !HasKey(old(journal), e.key)
    {
      if HasKey(journal, e.key) {
        return false;
      }
      journal := journal + [e];
      added := true;
    }

    /** Creates an attempt, or observes an existing one without reopening it. */
    method UpsertShadowEntryAttempt(r: Request) returns (persisted: bool)
      modifies this
      ensures State() == Upsert(old(State()), r)
      ensures persisted <==> !Refused(old(State()), r)
    {
      if r.id !in attempts {
        if r.limit.Some? && CountForRoot(State(), r.rootId) >= r.limit.value {
          var _ := AppendAttemptEvent(
            Event(None, r.rootId, LimitReached, None, None, "max_attempts_per_root_event_reached", r.at, r.runtime,
                  LimitKey(r.rootId, r.limit.value, r.id)));
          return false;
        }
        attempts := attempts[r.id := NewAttempt(r)];
        order := order + [r.id];
        var _ := AppendAttemptEvent(
          Event(Some(r.id), r.rootId, Created, None, Some(r.state), r.trigger, r.at, r.runtime, CreatedKey(r.id)));
        return true;
      }
      var a := attempts[r.id];
      if a.closedAt.Some? || Terminal(a.state) {
        return true;
      }
      var latest := Latest(journal, r.id);
      attempts := attempts[r.id := Observed(a, r)];
      if a.state != r.state {
        var _ := AppendAttemptEvent(
          ChangeEvent(r.id, r.rootId, a.state, r.state,
                      if Truthy(r.closeReason) then r.closeReason.value else "observation",
                      r.at, r.runtime, ObservedKey(r.id, r.state, r.at)));
      }
      if Truthy(r.runtime) && latest.Some? && Truthy(latest.value.runtime) && latest.value.runtime != r.runtime {
        var _ := AppendAttemptEvent(
          ReuseEvent(r.id, r.rootId, r.state, "existing_nonterminal_attempt", r.at, r.runtime,
                     RestartKey(r.id, r.runtime.value)));
      }
      persisted := true;
    }

    method TransitionShadowEntryAttempt(id: AttemptId, rootId: RootId, evaluation: Option<int>, next: AttemptState,
                                        reason: string, at: int, runtime: Option<string>) returns (applied: bool)
      modifies this`attempts, this`journal
      ensures State() == Transition(old(State()), id, rootId, evaluation, next, reason, at, runtime)
      ensures applied <==> old(IsOpen(State(), id)) && (Terminal(next) || old(attempts)[id].state != next)
    {
      if id !in attempts || attempts[id].closedAt.Some? {
        return false;
      }
      var row := attempts[id];
      var previous := row.state;
      if !Terminal(next) && previous == next {
        return false;
      }
      if previous != next {
        row := row.(state := next);
        var _ := AppendAttemptEvent(ChangeEvent(id, rootId, previous, next, reason, at, runtime,
                                                MovedKey(id, evaluation, next)));
      }
      if Terminal(next) {
        row := row.(closedAt := Some(at), closeReason := OrText(row.closeReason, reason));
        var _ := AppendAttemptEvent(CloseEvent(id, rootId, previous, next, reason, at, runtime,
                                               ClosedKey(id, evaluation, next)));
      }
      attempts := attempts[id := row.(lastObservedAt := at)];
      applied := true;
    }

    method CloseAttempt(id: AttemptId, rootId: RootId, next: AttemptState, closeReason: Option<string>, reason: string,
                        at: int, runtime: Option<string>, stateKey: Key, closedKey: Key)
      requires id in attempts
      modifies this`attempts, this`journal
      ensures State() == CloseRow(old(State()), id, rootId, next, closeReason, reason, at, runtime, stateKey, closedKey)
    {
      var previous := attempts[id].state;
      attempts := attempts[id := attempts[id].(state := next, closedAt := Some(at), closeReason := closeReason,
                                               lastObservedAt := at)];
      var _ := AppendAttemptEvent(ChangeEvent(id, rootId, previous, next, reason, at, runtime, stateKey));
      var _ := AppendAttemptEvent(CloseEvent(id, rootId, previous, next, reason, at, runtime, closedKey));
    }

    method CloseOpenShadowAttemptsForRoot(rootId: RootId, next: AttemptState, reason: string, at: int,
                                          runtime: Option<string>)
      returns (count: nat)
      modifies this`attempts, this`journal
      ensures State() == ReplaceRoot(old(State()), |old(order)|, rootId, next, reason, at, runtime)
      ensures count == |NewlyClosed(old(State()), State())|
    {
      count := 0;
      var k := 0;
      while k < |order|
        invariant 0 <= k <= |order|
        invariant count == |NewlyClosed(old(State()), State())|
        invariant State() == ReplaceRoot(old(State()), k, rootId, next, reason, at, runtime)
      {
        var id := order[k];
        if id in attempts && attempts[id].closedAt == None && attempts[id].rootId == rootId {
          ReplaceRowCloses(old(State()), k, rootId, next, reason, at, runtime);
          CloseAttempt(id, rootId, next, Some(reason), reason, at, runtime, ReplacedStateKey(id),
                       ReplacedClosedKey(id));
          count := count + 1;
        }
        k := k + 1;
      }
    }

    method ExpireShadowAttemptIfDue(id: AttemptId, rootId: RootId, evaluation: Option<int>, at: int,
                                    runtime: Option<string>)
      returns (expired: bool)
      modifies this`attempts, this`journal
      ensures State() == Expire(old(State()), id, rootId, evaluation, at, runtime)
      ensures expired <==> old(Due(State(), id, at))
    {
      if id !in attempts || attempts[id].closedAt.Some? || attempts[id].expiresAt == None
          || at < attempts[id].expiresAt.value {
        return false;
      }
      CloseAttempt(id, rootId, Expired, OrText(attempts[id].closeReason, "confirmation_ttl_expired"),
                   "confirmation_ttl_expired", at, runtime, MovedKey(id, evaluation, Expired),
                   ClosedKey(id, evaluation, Expired));
      expired := true;
    }

    method RecordAttemptReusedAfterRestart(id: AttemptId, rootId: RootId, at: int, runtime: Option<string>)
      modifies this`journal
      ensures State() == RecordReuse(old(State()), id, rootId, at, runtime)
    {
      if id in attempts && attempts[id].closedAt == None {
        var _ := AppendAttemptEvent(
          ReuseEvent(id, rootId, attempts[id].state, "existing_attempt_after_runtime_restart", at, runtime,
                     RestartKey(id, if Truthy(runtime) then runtime.value else "unknown")));
      }
    }

    /** Startup pass: flags orphans, expires what ran out while the bot was down, and counts attempts
        with more than one closing event.  The count reads what was journalled before the pass, whose own
        events are written when it commits. */
    method ReconcileShadowLifecycle(at: int, runtime: Option<string>)
      returns (expired: nat, orphans: nat, duplicates: nat)
      modifies this`attempts, this`journal
      ensures State() == Reconcile(old(State()), |old(order)|, at, runtime)
      ensures expired == |NewlyClosed(old(State()), State())|
      ensures orphans == |NewOrphans(old(State()), |old(order)|)|
      ensures duplicates == |DuplicateGroups(old(State()))|
    {
      ghost var db := State();
      duplicates := |DuplicateGroups(State())|;
      expired, orphans := 0, 0;
      var k := 0;
      while k < |order|
        invariant 0 <= k <= |order| == |db.order|
        invariant State() == Reconcile(db, k, at, runtime)
        invariant expired == |NewlyClosed(db, State())| && orphans == |NewOrphans(db, k)|
      {
        ReconcileOneMore(db, State(), k, at, runtime);
        var flagged, closed := ReconcileAttempt(order[k], at, runtime);
        if flagged { orphans := orphans + 1; }
        if closed { expired := expired + 1; }
        k := k + 1;
      }
    }

    /** The pass over one attempt. */
    method ReconcileAttempt(id: AttemptId, at: int, runtime: Option<string>) returns (flagged: bool, closed: bool)
      modifies this`attempts, this`journal
      ensures State() == ReconcileRow(old(State()), id, at, runtime)
      ensures flagged <==> old(IsOrphan(State(), id)) && !HasKey(old(journal), OrphanKey(id))
      ensures closed <==> old(Due(State(), id, at))
    {
      flagged, closed := false, false;
      if id in attempts {
        var a := attempts[id];
        if a.rootId !in roots {
          flagged := AppendAttemptEvent(OrphanEvent(id, a, at, runtime));
        }
        if a.closedAt == None && a.expiresAt.Some? && a.expiresAt.value <= at {
          CloseAttempt(id, a.rootId, Expired, OrText(a.closeReason, "startup_reconciliation_ttl_expired"),
                       "startup_reconciliation_ttl_expired", at, runtime, ReconciledStateKey(id),
                       ReconciledClosedKey(id));
          closed := true;
        }
      }
    }
  }
}
