/** Runs of the attempt store: what any interleaving of its operations keeps, and when its journal can
    be replayed. */
module AttemptRuns {
  import opened Common
  import opened AttemptJournal

  datatype Step =
    | DoUpsert(request: Request)
    | DoTransition(id: AttemptId, rootId: RootId, evaluation: Option<int>, next: AttemptState,
                   reason: string, at: int, runtime: Option<string>)
    | DoReplaceRoot(rootId: RootId, next: AttemptState, reason: string, at: int, runtime: Option<string>)
    | DoExpire(id: AttemptId, rootId: RootId, evaluation: Option<int>, at: int, runtime: Option<string>)
    | DoRecordReuse(id: AttemptId, rootId: RootId, at: int, runtime: Option<string>)
    | DoReconcile(at: int, runtime: Option<string>)
    | DoNoteCorrelation(attempt: Option<AttemptId>, rootId: RootId, token: int, at: int, runtime: Option<string>)
    | DoAddRoot(rootId: RootId)

  const EMPTY := Db(map[], [], [], {})

  function Apply(db: Db, step: Step): Db {
    match step
    case DoUpsert(r) => Upsert(db, r)
    case DoTransition(id, root, evaluation, next, reason, at, runtime) =>
      Transition(db, id, root, evaluation, next, reason, at, runtime)
    case DoReplaceRoot(root, next, reason, at, runtime) => ReplaceRoot(db, |db.order|, root, next, reason, at, runtime)
    case DoExpire(id, root, evaluation, at, runtime) => Expire(db, id, root, evaluation, at, runtime)
    case DoRecordReuse(id, root, at, runtime) => RecordReuse(db, id, root, at, runtime)
    case DoReconcile(at, runtime) => Reconcile(db, |db.order|, at, runtime)
    case DoNoteCorrelation(id, root, token, at, runtime) => NoteCorrelation(db, id, root, token, at, runtime)
    case DoAddRoot(root) => db.(roots := db.roots + {root})
  }

  function Run(db: Db, steps: seq<Step>): Db
    decreases |steps|
  {
    if steps == [] then db else Run(Apply(db, steps[0]), steps[1..])
  }

  // ---------- The invariant ----------

  predicate Lifecycle(kind: EventKind) { kind == Created || kind == StateChanged }

  /** A key is used only for the kind of event it was made for. */
  predicate Fits(e: Event) {
    match e.key
    case CreatedKey(id) => e.kind == Created && e.attemptId == Some(id) && e.previous == None && e.next.Some?
    case ObservedKey(id, s, _) => e.kind == StateChanged && e.attemptId == Some(id) && e.previous.Some?
        && e.next == Some(s)
    case MovedKey(id, _, s) => e.kind == StateChanged && e.attemptId == Some(id) && e.previous.Some?
        && e.next == Some(s)
    case ReplacedStateKey(id) => e.kind == StateChanged && e.attemptId == Some(id) && e.previous.Some? && e.next.Some?
    case ReconciledStateKey(id) => e.kind == StateChanged && e.attemptId == Some(id) && e.previous.Some? && e.next.Some?
    case ClosedKey(id, _, _) => e.kind == Closed && e.attemptId == Some(id)
    case ReplacedClosedKey(id) => e.kind == Closed && e.attemptId == Some(id)
    case ReconciledClosedKey(id) => e.kind == Closed && e.attemptId == Some(id)
    case _ => e.kind != Closed && !Lifecycle(e.kind)
  }

  /** The keys that only an operation that closes the attempt uses. */
  predicate Closing(key: Key) {
    (key.MovedKey? && Terminal(key.state)) || key.ReplacedStateKey? || key.ReconciledStateKey?
  }

  /** The event tells the truth about the closed row. */
  predicate Agrees(a: Attempt, e: Event) {
    a.closedAt == Some(e.at) && Some(a.state) == e.next && a.closeReason == Some(e.reason)
  }

  predicate EventOk(db: Db, e: Event) {
    && Fits(e)
    && (e.kind == Closed || Lifecycle(e.kind) ==> e.attemptId.Some? && e.attemptId.value in db.attempts)
    && (e.kind == Closed ==> Agrees(db.attempts[e.attemptId.value], e))
    && (Closing(e.key) ==> db.attempts[e.attemptId.value].closedAt.Some?)
  }

  ghost predicate Inv(db: Db) {
    && (forall i | 0 <= i < |db.journal| :: EventOk(db, db.journal[i]))
    && (forall i, j | 0 <= i < j < |db.journal| :: db.journal[i].key != db.journal[j].key)
    && (forall id | id in db.attempts :: ClosedEvents(db.journal, id) <= 1)
    && (forall id | id in db.attempts :: db.attempts[id].closedAt == None ==> !Truthy(db.attempts[id].closeReason))
    && (forall id :: id in db.order <==> id in db.attempts)
  }

  lemma {:induction false} ClosedEventsExist(journal: seq<Event>, id: AttemptId)
    requires ClosedEvents(journal, id) > 0
    ensures exists i :: 0 <= i < |journal| && journal[i].kind == Closed && journal[i].attemptId == Some(id)
  {
    var n := |journal| - 1;
    if !(journal[n].kind == Closed && journal[n].attemptId == Some(id)) {
      ClosedEventsExist(journal[..n], id);
      var i :| 0 <= i < n && journal[..n][i].kind == Closed && journal[..n][i].attemptId == Some(id);
      assert journal[i].kind == Closed;
    }
  }

  lemma OpenHasNoClosedEvents(db: Db, id: AttemptId)
    requires Inv(db) && IsOpen(db, id)
    ensures ClosedEvents(db.journal, id) == 0
  {
    if ClosedEvents(db.journal, id) > 0 {
      ClosedEventsExist(db.journal, id);
    }
  }

  lemma ClosedEventsSnoc(journal: seq<Event>, e: Event, id: AttemptId)
    ensures ClosedEvents(journal + [e], id)
         == ClosedEvents(journal, id) + if e.kind == Closed && e.attemptId == Some(id) then 1 else 0
  {
    assert (journal + [e])[..|journal|] == journal;
  }

  lemma AppendKeepsInv(db: Db, e: Event)
    requires Inv(db) && EventOk(db, e)
    requires e.kind == Closed ==> ClosedEvents(db.journal, e.attemptId.value) == 0
    ensures Inv(db.(journal := Append(db.journal, e)))
  {
    if !HasKey(db.journal, e.key) {
      forall id | id in db.attempts ensures ClosedEvents(db.journal + [e], id) <= 1 {
        ClosedEventsSnoc(db.journal, e, id);
      }
    }
  }

  /** Nothing in the journal speaks of the final form of an open row, so it may still change. */
  lemma UpdateKeepsInv(db: Db, id: AttemptId, a: Attempt)
    requires Inv(db) && IsOpen(db, id)
    requires a.closedAt == None ==> !Truthy(a.closeReason)
    ensures Inv(db.(attempts := db.attempts[id := a]))
  {
    var db' := db.(attempts := db.attempts[id := a]);
    forall i | 0 <= i < |db.journal| ensures EventOk(db', db.journal[i]) {
      assert EventOk(db, db.journal[i]);
    }
  }

  lemma CloseRowKeepsInv(db: Db, id: AttemptId, rootId: RootId, next: AttemptState, closeReason: Option<string>,
                         reason: string, at: int, runtime: Option<string>, stateKey: Key, closedKey: Key)
    requires Inv(db) && IsOpen(db, id) && closeReason == Some(reason)
    requires Fits(ChangeEvent(id, rootId, next, next, reason, at, runtime, stateKey))
    requires Fits(CloseEvent(id, rootId, next, next, reason, at, runtime, closedKey))
    ensures Inv(CloseRow(db, id, rootId, next, closeReason, reason, at, runtime, stateKey, closedKey))
  {
    var a := db.attempts[id];
    OpenHasNoClosedEvents(db, id);
    var a' := a.(state := next, closedAt := Some(at), closeReason := closeReason, lastObservedAt := at);
    var updated := db.(attempts := db.attempts[id := a']);
    UpdateKeepsInv(db, id, a');
    var change := ChangeEvent(id, rootId, a.state, next, reason, at, runtime, stateKey);
    AppendKeepsInv(updated, change);
    ClosedEventsSnoc(db.journal, change, id);
    var changed := updated.(journal := Append(updated.journal, change));
    AppendKeepsInv(changed, CloseEvent(id, rootId, a.state, next, reason, at, runtime, closedKey));
  }

  lemma UpsertKeepsInv(db: Db, r: Request)
    requires Inv(db)
    ensures Inv(Upsert(db, r))
  {
    if Refused(db, r) {
      AppendKeepsInv(db, Event(None, r.rootId, LimitReached, None, None, "max_attempts_per_root_event_reached",
                               r.at, r.runtime, LimitKey(r.rootId, r.limit.value, r.id)));
    } else if r.id !in db.attempts {
      var grown := db.(attempts := db.attempts[r.id := NewAttempt(r)], order := db.order + [r.id]);
      if ClosedEvents(db.journal, r.id) > 0 {
        ClosedEventsExist(db.journal, r.id);
      }
      forall i | 0 <= i < |db.journal| ensures EventOk(grown, db.journal[i]) {
        assert EventOk(db, db.journal[i]);
      }
      AppendKeepsInv(grown, Event(Some(r.id), r.rootId, Created, None, Some(r.state), r.trigger, r.at, r.runtime,
                                  CreatedKey(r.id)));
    } else if IsOpen(db, r.id) && !Terminal(db.attempts[r.id].state) {
      ObserveKeepsInv(db, r);
    }
  }

  lemma ObserveKeepsInv(db: Db, r: Request)
    requires Inv(db) && IsOpen(db, r.id) && !Terminal(db.attempts[r.id].state)
    ensures Inv(Upsert(db, r))
  {
    UpdateKeepsInv(db, r.id, Observed(db.attempts[r.id], r));
    ObservedJournalKeepsInv(db.(attempts := db.attempts[r.id := Observed(db.attempts[r.id], r)]), db.attempts[r.id], r);
  }

  lemma ObservedJournalKeepsInv(db: Db, a: Attempt, r: Request)
    requires Inv(db) && r.id in db.attempts
    ensures Inv(db.(journal := ObservedJournal(db.journal, a, r)))
  {
    var change := ChangeEvent(r.id, r.rootId, a.state, r.state,
                              if Truthy(r.closeReason) then r.closeReason.value else "observation",
                              r.at, r.runtime, ObservedKey(r.id, r.state, r.at));
    var changed := if a.state == r.state then db else db.(journal := Append(db.journal, change));
    AppendKeepsInv(db, change);
    if Truthy(r.runtime) {
      AppendKeepsInv(changed, ReuseEvent(r.id, r.rootId, r.state, "existing_nonterminal_attempt", r.at, r.runtime,
                                         RestartKey(r.id, r.runtime.value)));
    }
  }

  lemma TransitionKeepsInv(db: Db, id: AttemptId, rootId: RootId, evaluation: Option<int>, next: AttemptState,
                           reason: string, at: int, runtime: Option<string>)
    requires Inv(db)
    ensures Inv(Transition(db, id, rootId, evaluation, next, reason, at, runtime))
  {
    if IsOpen(db, id) && (Terminal(next) || db.attempts[id].state != next) {
      if !Terminal(next) {
        MoveKeepsInv(db, id, rootId, evaluation, next, reason, at, runtime);
      } else if db.attempts[id].state != next {
        CloseRowKeepsInv(db, id, rootId, next, OrText(db.attempts[id].closeReason, reason), reason, at, runtime,
                         MovedKey(id, evaluation, next), ClosedKey(id, evaluation, next));
      } else {
        SettleKeepsInv(db, id, rootId, evaluation, reason, at, runtime);
      }
    }
  }

  lemma MoveKeepsInv(db: Db, id: AttemptId, rootId: RootId, evaluation: Option<int>, next: AttemptState,
                     reason: string, at: int, runtime: Option<string>)
    requires Inv(db) && IsOpen(db, id) && !Terminal(next) && db.attempts[id].state != next
    ensures Inv(Transition(db, id, rootId, evaluation, next, reason, at, runtime))
  {
    var a := db.attempts[id].(state := next, lastObservedAt := at);
    UpdateKeepsInv(db, id, a);
    AppendKeepsInv(db.(attempts := db.attempts[id := a]),
                   ChangeEvent(id, rootId, db.attempts[id].state, next, reason, at, runtime,
                               MovedKey(id, evaluation, next)));
  }

  /** Closing a row that already carries the terminal state. */
  lemma SettleKeepsInv(db: Db, id: AttemptId, rootId: RootId, evaluation: Option<int>, reason: string, at: int,
                       runtime: Option<string>)
    requires Inv(db) && IsOpen(db, id) && Terminal(db.attempts[id].state)
    ensures Inv(Transition(db, id, rootId, evaluation, db.attempts[id].state, reason, at, runtime))
  {
    var next := db.attempts[id].state;
    var a := db.attempts[id].(closedAt := Some(at), closeReason := OrText(db.attempts[id].closeReason, reason),
                              lastObservedAt := at);
    OpenHasNoClosedEvents(db, id);
    UpdateKeepsInv(db, id, a);
    AppendKeepsInv(db.(attempts := db.attempts[id := a]),
                   CloseEvent(id, rootId, next, next, reason, at, runtime, ClosedKey(id, evaluation, next)));
  }

  lemma {:induction false} ReplaceRootKeepsInv(db: Db, n: nat, rootId: RootId, next: AttemptState, reason: string,
                                               at: int, runtime: Option<string>)
    requires Inv(db) && n <= |db.order|
    ensures Inv(ReplaceRoot(db, n, rootId, next, reason, at, runtime))
    decreases n
  {
    if n > 0 {
      ReplaceRootKeepsInv(db, n - 1, rootId, next, reason, at, runtime);
      var mid, id := ReplaceRoot(db, n - 1, rootId, next, reason, at, runtime), db.order[n - 1];
      if IsOpen(mid, id) && mid.attempts[id].rootId == rootId {
        CloseRowKeepsInv(mid, id, rootId, next, Some(reason), reason, at, runtime, ReplacedStateKey(id),
                         ReplacedClosedKey(id));
      }
    }
  }

  lemma ReconcileRowKeepsInv(db: Db, id: AttemptId, at: int, runtime: Option<string>)
    requires Inv(db)
    ensures Inv(ReconcileRow(db, id, at, runtime))
  {
    if id in db.attempts {
      var a := db.attempts[id];
      var orphan := OrphanEvent(id, a, at, runtime);
      AppendKeepsInv(db, orphan);
      var marked := if a.rootId in db.roots then db else db.(journal := Append(db.journal, orphan));
      if Due(marked, id, at) {
        CloseRowKeepsInv(marked, id, a.rootId, Expired, OrText(a.closeReason, "startup_reconciliation_ttl_expired"),
                         "startup_reconciliation_ttl_expired", at, runtime, ReconciledStateKey(id),
                         ReconciledClosedKey(id));
      }
    }
  }

  lemma {:induction false} ReconcileKeepsInv(db: Db, n: nat, at: int, runtime: Option<string>)
    requires Inv(db) && n <= |db.order|
    ensures Inv(Reconcile(db, n, at, runtime))
    decreases n
  {
    if n > 0 {
      ReconcileKeepsInv(db, n - 1, at, runtime);
      var mid := Reconcile(db, n - 1, at, runtime);
      assert Reconcile(db, n, at, runtime) == ReconcileRow(mid, db.order[n - 1], at, runtime);
      ReconcileRowKeepsInv(mid, db.order[n - 1], at, runtime);
    }
  }

  lemma StepKeepsInv(db: Db, step: Step)
    requires Inv(db)
    ensures Inv(Apply(db, step))
  {
    match step
    case DoUpsert(r) => UpsertKeepsInv(db, r);
    case DoTransition(id, root, evaluation, next, reason, at, runtime) =>
      TransitionKeepsInv(db, id, root, evaluation, next, reason, at, runtime);
    case DoReplaceRoot(root, next, reason, at, runtime) =>
        ReplaceRootKeepsInv(db, |db.order|, root, next, reason, at, runtime);
    case DoExpire(id, root, evaluation, at, runtime) =>
      if Due(db, id, at) {
        CloseRowKeepsInv(db, id, root, Expired, OrText(db.attempts[id].closeReason, "confirmation_ttl_expired"),
                         "confirmation_ttl_expired", at, runtime, MovedKey(id, evaluation, Expired),
                         ClosedKey(id, evaluation, Expired));
      }
    case DoRecordReuse(id, root, at, runtime) =>
      if IsOpen(db, id) {
        AppendKeepsInv(db, ReuseEvent(id, root, db.attempts[id].state, "existing_attempt_after_runtime_restart", at,
                                      runtime, RestartKey(id, if Truthy(runtime) then runtime.value else "unknown")));
      }
    case DoReconcile(at, runtime) => ReconcileKeepsInv(db, |db.order|, at, runtime);
    case DoNoteCorrelation(id, root, token, at, runtime) =>
      AppendKeepsInv(db, Event(id, root, CorrelationMissing, None, None, "attempt_correlation_missing", at, runtime,
                               CorrelationKey(root, token)));
    case DoAddRoot(root) =>
      assert forall i | 0 <= i < |db.journal| :: EventOk(db, db.journal[i]) ==> EventOk(Apply(db, step), db.journal[i]);
  }

  lemma {:induction false} RunKeepsInv(db: Db, steps: seq<Step>)
    requires Inv(db)
    ensures Inv(Run(db, steps))
    decreases |steps|
  {
    if steps != [] {
      StepKeepsInv(db, steps[0]);
      RunKeepsInv(Apply(db, steps[0]), steps[1..]);
    }
  }

  // ---------- Single close and freeze ----------

  /** In every run an attempt is closed in the journal at most once, and truthfully. */
  lemma ClosedOnceAndTruthfully(steps: seq<Step>, id: AttemptId)
    ensures var db := Run(EMPTY, steps);
            && (id in db.attempts ==> ClosedEvents(db.journal, id) <= 1)
            && (forall i | 0 <= i < |db.journal| && db.journal[i].kind == Closed
                && db.journal[i].attemptId == Some(id) ::
                  id in db.attempts && Agrees(db.attempts[id], db.journal[i]))
  {
    RunKeepsInv(EMPTY, steps);
    var db := Run(EMPTY, steps);
    forall i | 0 <= i < |db.journal| && db.journal[i].kind == Closed && db.journal[i].attemptId == Some(id)
      ensures id in db.attempts && Agrees(db.attempts[id], db.journal[i])
    {
      assert EventOk(db, db.journal[i]);
    }
  }

  /** The startup pass never finds a duplicate closing event. */
  lemma NoDuplicateGroups(steps: seq<Step>)
    ensures DuplicateGroups(Run(EMPTY, steps)) == {}
  {
    RunKeepsInv(EMPTY, steps);
  }

  predicate Frozen(before: Db, after: Db, id: AttemptId) {
    id in before.attempts && before.attempts[id].closedAt.Some? ==>
      id in after.attempts && after.attempts[id] == before.attempts[id]
  }

  lemma {:induction false} ReplaceRootFreezes(db: Db, n: nat, rootId: RootId, next: AttemptState, reason: string,
                                              at: int, runtime: Option<string>, id: AttemptId)
    requires n <= |db.order|
    ensures Frozen(db, ReplaceRoot(db, n, rootId, next, reason, at, runtime), id)
    decreases n
  {
    if n > 0 {
      ReplaceRootFreezes(db, n - 1, rootId, next, reason, at, runtime, id);
    }
  }

  lemma {:induction false} ReconcileFreezes(db: Db, n: nat, at: int, runtime: Option<string>, id: AttemptId)
    requires n <= |db.order|
    ensures Frozen(db, Reconcile(db, n, at, runtime), id)
    decreases n
  {
    if n > 0 {
      ReconcileFreezes(db, n - 1, at, runtime, id);
      var mid := Reconcile(db, n - 1, at, runtime);
      assert Frozen(mid, ReconcileRow(mid, db.order[n - 1], at, runtime), id);
    }
  }

  lemma StepFreezes(db: Db, step: Step, id: AttemptId)
    ensures Frozen(db, Apply(db, step), id)
  {
    match step
    case DoReplaceRoot(root, next, reason, at, runtime) =>
        ReplaceRootFreezes(db, |db.order|, root, next, reason, at, runtime, id);
    case DoReconcile(at, runtime) => ReconcileFreezes(db, |db.order|, at, runtime, id);
    case _ =>
  }

  /** Once an attempt is closed no run changes any of its columns. */
  lemma {:induction false} ClosedRowsAreFrozen(db: Db, steps: seq<Step>, id: AttemptId)
    requires id in db.attempts && db.attempts[id].closedAt.Some?
    ensures id in Run(db, steps).attempts && Run(db, steps).attempts[id] == db.attempts[id]
    decreases |steps|
  {
    if steps != [] {
      StepFreezes(db, steps[0], id);
      ClosedRowsAreFrozen(Apply(db, steps[0]), steps[1..], id);
    }
  }

  // ---------- The key check never swallows a closing event ----------

  /** The journal gains one closing event of `id` if the attempt was closed in between, and none otherwise. */
  predicate TellsClose(db: Db, after: Db, id: AttemptId) {
    ClosedEvents(after.journal, id)
    == ClosedEvents(db.journal, id) + if IsOpen(db, id) && !IsOpen(after, id) then 1 else 0
  }

  lemma AppendCounts(journal: seq<Event>, e: Event, id: AttemptId)
    ensures ClosedEvents(Append(journal, e), id)
         == ClosedEvents(journal, id)
            + if !HasKey(journal, e.key) && e.kind == Closed && e.attemptId == Some(id) then 1 else 0
  {
    ClosedEventsSnoc(journal, e, id);
  }

  lemma OpenHasFreshKey(db: Db, id: AttemptId, key: Key)
    requires Inv(db) && IsOpen(db, id)
    requires key == ReplacedStateKey(id) || key == ReconciledStateKey(id) || key == ReplacedClosedKey(id)
          || key == ReconciledClosedKey(id) || (key.ClosedKey? && key.id == id)
          || (key.MovedKey? && key.id == id && Terminal(key.state))
    ensures !HasKey(db.journal, key)
  {
    forall i | 0 <= i < |db.journal| ensures db.journal[i].key != key {
      assert EventOk(db, db.journal[i]);
    }
  }

  lemma AppendKeepsFresh(journal: seq<Event>, e: Event, key: Key)
    requires !HasKey(journal, key) && e.key != key
    ensures !HasKey(Append(journal, e), key)
  {
  }

  lemma CloseRowJournals(db: Db, id: AttemptId, rootId: RootId, next: AttemptState, closeReason: Option<string>,
                         reason: string, at: int, runtime: Option<string>, stateKey: Key, closedKey: Key,
                         other: AttemptId)
    requires id in db.attempts && stateKey != closedKey && !HasKey(db.journal, closedKey)
    ensures var after := CloseRow(db, id, rootId, next, closeReason, reason, at, runtime, stateKey, closedKey);
            ClosedEvents(after.journal, other) == ClosedEvents(db.journal, other) + if other == id then 1 else 0
  {
    var change := ChangeEvent(id, rootId, db.attempts[id].state, next, reason, at, runtime, stateKey);
    var changed := Append(db.journal, change);
    AppendKeepsFresh(db.journal, change, closedKey);
    AppendCounts(db.journal, change, other);
    AppendCounts(changed, CloseEvent(id, rootId, db.attempts[id].state, next, reason, at, runtime, closedKey), other);
  }

  lemma ReplaceRowTells(db: Db, y: AttemptId, rootId: RootId, next: AttemptState, reason: string, at: int,
                        runtime: Option<string>, id: AttemptId)
    requires IsOpen(db, y) ==> !HasKey(db.journal, ReplacedClosedKey(y))
    ensures TellsClose(db, ReplaceRow(db, y, rootId, next, reason, at, runtime), id)
  {
    if IsOpen(db, y) && db.attempts[y].rootId == rootId {
      CloseRowJournals(db, y, rootId, next, Some(reason), reason, at, runtime, ReplacedStateKey(y),
                       ReplacedClosedKey(y), id);
    }
  }

  lemma ReplaceRootKeepsFresh(db: Db, n: nat, rootId: RootId, next: AttemptState, reason: string, at: int,
                              runtime: Option<string>, y: AttemptId)
    requires Inv(db) && n <= |db.order|
    ensures var mid := ReplaceRoot(db, n, rootId, next, reason, at, runtime);
            IsOpen(mid, y) ==> !HasKey(mid.journal, ReplacedStateKey(y)) && !HasKey(mid.journal, ReplacedClosedKey(y))
  {
    ReplaceRootKeepsInv(db, n, rootId, next, reason, at, runtime);
    var mid := ReplaceRoot(db, n, rootId, next, reason, at, runtime);
    if IsOpen(mid, y) {
      OpenHasFreshKey(mid, y, ReplacedStateKey(y));
      OpenHasFreshKey(mid, y, ReplacedClosedKey(y));
    }
  }

  lemma TellsBoth(a: Db, b: Db, c: Db, id: AttemptId)
    requires TellsClose(a, b, id) && TellsClose(b, c, id)
    requires (IsOpen(b, id) ==> IsOpen(a, id)) && (IsOpen(c, id) ==> IsOpen(b, id))
    ensures TellsClose(a, c, id)
  {
  }

  lemma ReplaceRowNeverOpens(db: Db, y: AttemptId, rootId: RootId, next: AttemptState, reason: string, at: int,
                             runtime: Option<string>, id: AttemptId)
    ensures IsOpen(ReplaceRow(db, y, rootId, next, reason, at, runtime), id) ==> IsOpen(db, id)
  {
  }

  lemma {:induction false} ReplaceRootTells(db: Db, n: nat, rootId: RootId, next: AttemptState, reason: string,
                                            at: int, runtime: Option<string>, id: AttemptId)
    requires Inv(db) && n <= |db.order|
    ensures TellsClose(db, ReplaceRoot(db, n, rootId, next, reason, at, runtime), id)
    decreases n
  {
    if n > 0 {
      var mid, y := ReplaceRoot(db, n - 1, rootId, next, reason, at, runtime), db.order[n - 1];
      ReplaceRootTells(db, n - 1, rootId, next, reason, at, runtime, id);
      ReplaceNeverOpens(db, n - 1, rootId, next, reason, at, runtime, id);
      ReplaceRootKeepsFresh(db, n - 1, rootId, next, reason, at, runtime, y);
      ReplaceRowTells(mid, y, rootId, next, reason, at, runtime, id);
      ReplaceRowNeverOpens(mid, y, rootId, next, reason, at, runtime, id);
      TellsBoth(db, mid, ReplaceRow(mid, y, rootId, next, reason, at, runtime), id);
    }
  }

  lemma ExpireTells(db: Db, y: AttemptId, reason: string, at: int, runtime: Option<string>, stateKey: Key,
                    closedKey: Key, id: AttemptId)
    requires IsOpen(db, y) && stateKey != closedKey && !HasKey(db.journal, closedKey)
    ensures TellsClose(db, CloseRow(db, y, db.attempts[y].rootId, Expired, OrText(db.attempts[y].closeReason, reason),
                                    reason, at, runtime, stateKey, closedKey), id)
  {
    CloseRowJournals(db, y, db.attempts[y].rootId, Expired, OrText(db.attempts[y].closeReason, reason),
                     reason, at, runtime, stateKey, closedKey, id);
  }

  lemma ReconcileRowTells(db: Db, y: AttemptId, at: int, runtime: Option<string>, id: AttemptId)
    requires IsOpen(db, y) ==> !HasKey(db.journal, ReconciledClosedKey(y))
    ensures TellsClose(db, ReconcileRow(db, y, at, runtime), id)
  {
    if y in db.attempts {
      var orphan := OrphanEvent(y, db.attempts[y], at, runtime);
      AppendCounts(db.journal, orphan, id);
      AppendKeepsFreshIf(db, y, orphan);
      var marked := if db.attempts[y].rootId in db.roots then db else db.(journal := Append(db.journal, orphan));
      if Due(marked, y, at) {
        ExpireTells(marked, y, "startup_reconciliation_ttl_expired", at, runtime,
                    ReconciledStateKey(y), ReconciledClosedKey(y), id);
      }
    }
  }

  lemma AppendKeepsFreshIf(db: Db, y: AttemptId, orphan: Event)
    requires (IsOpen(db, y) ==> !HasKey(db.journal, ReconciledClosedKey(y))) && orphan.key == OrphanKey(y)
    ensures IsOpen(db, y) ==> !HasKey(Append(db.journal, orphan), ReconciledClosedKey(y))
  {
    if IsOpen(db, y) {
      AppendKeepsFresh(db.journal, orphan, ReconciledClosedKey(y));
    }
  }

  lemma ReconcileKeepsFresh(db: Db, n: nat, at: int, runtime: Option<string>, y: AttemptId)
    requires Inv(db) && n <= |db.order|
    ensures var mid := Reconcile(db, n, at, runtime);
            IsOpen(mid, y) ==>
              !HasKey(mid.journal, ReconciledStateKey(y)) && !HasKey(mid.journal, ReconciledClosedKey(y))
  {
    ReconcileKeepsInv(db, n, at, runtime);
    var mid := Reconcile(db, n, at, runtime);
    if IsOpen(mid, y) {
      OpenHasFreshKey(mid, y, ReconciledStateKey(y));
      OpenHasFreshKey(mid, y, ReconciledClosedKey(y));
    }
  }

  lemma {:induction false} ReconcileTells(db: Db, n: nat, at: int, runtime: Option<string>, id: AttemptId)
    requires Inv(db) && n <= |db.order|
    ensures TellsClose(db, Reconcile(db, n, at, runtime), id)
    decreases n
  {
    if n > 0 {
      ReconcileTells(db, n - 1, at, runtime, id);
      ReconcileKeepsRows(db, n - 1, at, runtime, id);
      ReconcileKeepsFresh(db, n - 1, at, runtime, db.order[n - 1]);
      ReconcileRowTells(Reconcile(db, n - 1, at, runtime), db.order[n - 1], at, runtime, id);
      ReconcileRowKeepsRows(Reconcile(db, n - 1, at, runtime), db.order[n - 1], at, runtime, id);
      TellsBoth(db, Reconcile(db, n - 1, at, runtime), Reconcile(db, n, at, runtime), id);
    }
  }

  /** A change event leaves the closing events alone. */
  lemma ChangeCounts(journal: seq<Event>, e: Event, key: Key, id: AttemptId)
    requires e.kind != Closed
    ensures ClosedEvents(Append(journal, e), id) == ClosedEvents(journal, id)
    ensures e.key != key ==> (HasKey(Append(journal, e), key) <==> HasKey(journal, key))
  {
    AppendCounts(journal, e, id);
    if HasKey(journal, key) && !HasKey(journal, e.key) {
      var i :| 0 <= i < |journal| && journal[i].key == key;
      assert (journal + [e])[i].key == key;
    }
  }

  lemma TransitionTells(db: Db, y: AttemptId, rootId: RootId, evaluation: Option<int>, next: AttemptState,
                        reason: string, at: int, runtime: Option<string>, id: AttemptId)
    requires IsOpen(db, y) && Terminal(next) ==> !HasKey(db.journal, ClosedKey(y, evaluation, next))
    ensures TellsClose(db, Transition(db, y, rootId, evaluation, next, reason, at, runtime), id)
  {
    if IsOpen(db, y) && (Terminal(next) || db.attempts[y].state != next) {
      var a, after := db.attempts[y], Transition(db, y, rootId, evaluation, next, reason, at, runtime);
      var change := ChangeEvent(y, rootId, a.state, next, reason, at, runtime, MovedKey(y, evaluation, next));
      var close := CloseEvent(y, rootId, a.state, next, reason, at, runtime, ClosedKey(y, evaluation, next));
      ChangeCounts(db.journal, change, close.key, id);
      var changed := if a.state == next then db.journal else Append(db.journal, change);
      if Terminal(next) {
        assert after.journal == Append(changed, close);
        AppendCounts(changed, close, id);
      } else {
        assert after.journal == changed;
      }
    }
  }

  lemma ObserveCounts(journal: seq<Event>, a: Attempt, r: Request, id: AttemptId)
    ensures ClosedEvents(ObservedJournal(journal, a, r), id) == ClosedEvents(journal, id)
  {
    var change := ChangeEvent(r.id, r.rootId, a.state, r.state,
                              if Truthy(r.closeReason) then r.closeReason.value else "observation",
                              r.at, r.runtime, ObservedKey(r.id, r.state, r.at));
    var changed := if a.state == r.state then journal else Append(journal, change);
    AppendCounts(journal, change, id);
    if Truthy(r.runtime) {
      AppendCounts(changed, ReuseEvent(r.id, r.rootId, r.state, "existing_nonterminal_attempt", r.at, r.runtime,
                                       RestartKey(r.id, r.runtime.value)), id);
    }
  }

  lemma UpsertTellsNothing(db: Db, r: Request, id: AttemptId)
    ensures ClosedEvents(Upsert(db, r).journal, id) == ClosedEvents(db.journal, id)
  {
    if Refused(db, r) {
      AppendCounts(db.journal, Event(None, r.rootId, LimitReached, None, None, "max_attempts_per_root_event_reached",
                                     r.at, r.runtime, LimitKey(r.rootId, r.limit.value, r.id)), id);
    } else if r.id !in db.attempts {
      AppendCounts(db.journal, Event(Some(r.id), r.rootId, Created, None, Some(r.state), r.trigger, r.at, r.runtime,
                                     CreatedKey(r.id)), id);
    } else {
      ObserveCounts(db.journal, db.attempts[r.id], r, id);
    }
  }

  lemma DueExpiryTells(db: Db, y: AttemptId, root: RootId, evaluation: Option<int>, at: int, runtime: Option<string>,
                       id: AttemptId)
    requires Inv(db)
    ensures TellsClose(db, Expire(db, y, root, evaluation, at, runtime), id)
  {
    if Due(db, y, at) {
      OpenHasFreshKey(db, y, ClosedKey(y, evaluation, Expired));
      CloseRowJournals(db, y, root, Expired, OrText(db.attempts[y].closeReason, "confirmation_ttl_expired"),
                       "confirmation_ttl_expired", at, runtime, MovedKey(y, evaluation, Expired),
                       ClosedKey(y, evaluation, Expired), id);
    }
  }

  lemma ReuseTellsNothing(db: Db, y: AttemptId, root: RootId, at: int, runtime: Option<string>, id: AttemptId)
    ensures TellsClose(db, RecordReuse(db, y, root, at, runtime), id)
  {
    if IsOpen(db, y) {
      var key := RestartKey(y, if Truthy(runtime) then runtime.value else "unknown");
      AppendCounts(db.journal, ReuseEvent(y, root, db.attempts[y].state, "existing_attempt_after_runtime_restart", at,
                                          runtime, key), id);
    }
  }

  /** Every operation tells the close of an attempt once, in its closing event, and nothing else closes one
      twice; but an upsert that closes an attempt tells nothing. */
  lemma CloseIsJournalledOnce(db: Db, step: Step, id: AttemptId)
    requires Inv(db)
    ensures if step.DoUpsert? then ClosedEvents(Apply(db, step).journal, id) == ClosedEvents(db.journal, id)
            else TellsClose(db, Apply(db, step), id)
  {
    match step
    case DoUpsert(r) => UpsertTellsNothing(db, r, id);
    case DoTransition(y, root, evaluation, next, reason, at, runtime) =>
      if IsOpen(db, y) && Terminal(next) {
        OpenHasFreshKey(db, y, ClosedKey(y, evaluation, next));
      }
      TransitionTells(db, y, root, evaluation, next, reason, at, runtime, id);
    case DoReplaceRoot(root, next, reason, at, runtime) =>
      ReplaceRootTells(db, |db.order|, root, next, reason, at, runtime, id);
    case DoExpire(y, root, evaluation, at, runtime) =>
      DueExpiryTells(db, y, root, evaluation, at, runtime, id);
    case DoReconcile(at, runtime) => ReconcileTells(db, |db.order|, at, runtime, id);
    case DoRecordReuse(y, root, at, runtime) =>
      ReuseTellsNothing(db, y, root, at, runtime, id);
    case DoNoteCorrelation(y, root, token, at, runtime) =>
      AppendCounts(db.journal, Event(y, root, CorrelationMissing, None, None, "attempt_correlation_missing", at,
                                     runtime, CorrelationKey(root, token)), id);
    case DoAddRoot(_) =>
  }

  predicate IsClosed(db: Db, id: AttemptId) { id in db.attempts && db.attempts[id].closedAt.Some? }

  /** Some upsert of the run closes the attempt: with a close reason, or by creating it closed. */
  predicate ClosedByUpsert(db: Db, steps: seq<Step>, id: AttemptId)
    decreases |steps|
  {
    steps != [] &&
    ((steps[0].DoUpsert? && !IsClosed(db, id) && IsClosed(Apply(db, steps[0]), id))
     || ClosedByUpsert(Apply(db, steps[0]), steps[1..], id))
  }

  lemma {:induction false} ClosedStaysTold(db: Db, steps: seq<Step>, id: AttemptId)
    requires Inv(db) && IsClosed(db, id)
    ensures ClosedEvents(Run(db, steps).journal, id) == ClosedEvents(db.journal, id)
    ensures IsClosed(Run(db, steps), id) && !ClosedByUpsert(db, steps, id)
    decreases |steps|
  {
    if steps != [] {
      CloseIsJournalledOnce(db, steps[0], id);
      StepFreezes(db, steps[0], id);
      StepKeepsInv(db, steps[0]);
      ClosedStaysTold(Apply(db, steps[0]), steps[1..], id);
    }
  }

  lemma OnlyUpsertsCreate(db: Db, step: Step, id: AttemptId)
    requires !step.DoUpsert? && id !in db.attempts
    ensures id !in Apply(db, step).attempts
  {
    match step
    case DoReplaceRoot(root, next, reason, at, runtime) =>
      ReplaceNeverOpens(db, |db.order|, root, next, reason, at, runtime, id);
    case DoReconcile(at, runtime) => ReconcileKeepsRows(db, |db.order|, at, runtime, id);
    case _ =>
  }

  lemma {:induction false} UntoldUntilClosed(db: Db, steps: seq<Step>, id: AttemptId)
    requires Inv(db) && !IsClosed(db, id) && ClosedEvents(db.journal, id) == 0
    ensures ClosedEvents(Run(db, steps).journal, id)
         == if IsClosed(Run(db, steps), id) && !ClosedByUpsert(db, steps, id) then 1 else 0
    decreases |steps|
  {
    if steps != [] {
      var next := Apply(db, steps[0]);
      CloseIsJournalledOnce(db, steps[0], id);
      StepKeepsInv(db, steps[0]);
      if IsClosed(next, id) {
        if !steps[0].DoUpsert? && id !in db.attempts {
          OnlyUpsertsCreate(db, steps[0], id);
        }
        ClosedStaysTold(next, steps[1..], id);
      } else {
        UntoldUntilClosed(next, steps[1..], id);
      }
    }
  }

  /** In every run a closed attempt has exactly one closing event if and only if no upsert closed it; otherwise
      it has none. */
  lemma ClosesAreToldExactly(steps: seq<Step>, id: AttemptId)
    ensures ClosedEvents(Run(EMPTY, steps).journal, id)
         == if IsClosed(Run(EMPTY, steps), id) && !ClosedByUpsert(EMPTY, steps, id) then 1 else 0
  {
    UntoldUntilClosed(EMPTY, steps, id);
  }

  /** An attempt is created and then observed with the close reason of an expired lifecycle. */
  function ExpiredByUpsert(): seq<Step> {
    [DoUpsert(Request("a", "root", 0, None, None, Working("RETEST_IN_PROGRESS"), "volume_climax_lifecycle", None, None,
                      None, None)),
     DoUpsert(Request("a", "root", 1, None, None, Expired, "volume_climax_lifecycle", None,
                      Some("root_lifetime_expired"), None, None))]
  }

  /** The attempt is closed, and the journal does not say so. */
  lemma UpsertClosesSilently()
    ensures IsClosed(Run(EMPTY, ExpiredByUpsert()), "a") && Run(EMPTY, ExpiredByUpsert()).attempts["a"].state == Expired
    ensures ClosedEvents(Run(EMPTY, ExpiredByUpsert()).journal, "a") == 0
  {
    var steps := ExpiredByUpsert();
    var made := Apply(EMPTY, steps[0]);
    assert steps[1..][0] == steps[1] && steps[1..][1..] == [];
    assert Run(EMPTY, steps) == Apply(made, steps[1]);
    assert IsOpen(made, "a");
    assert ClosedByUpsert(made, steps[1..], "a");
    ClosesAreToldExactly(steps, "a");
  }

  // ---------- What the two sweeps leave behind ----------

  lemma {:induction false} ReplaceRootKeepsRoots(db: Db, n: nat, rootId: RootId, next: AttemptState, reason: string,
                                                 at: int, runtime: Option<string>, id: AttemptId)
    requires n <= |db.order| && id in db.attempts
    ensures var after := ReplaceRoot(db, n, rootId, next, reason, at, runtime);
            id in after.attempts && after.attempts[id].rootId == db.attempts[id].rootId
    ensures var after := ReplaceRoot(db, n, rootId, next, reason, at, runtime);
            id in db.order[..n] && db.attempts[id].rootId == rootId ==> !IsOpen(after, id)
    ensures db.attempts[id].rootId != rootId ==>
              ReplaceRoot(db, n, rootId, next, reason, at, runtime).attempts[id] == db.attempts[id]
    decreases n
  {
    if n > 0 {
      ReplaceRootKeepsRoots(db, n - 1, rootId, next, reason, at, runtime, id);
    }
  }

  /** Replacing a root leaves it no open attempt and touches no attempt of another root. */
  lemma ReplaceRootIsExact(db: Db, rootId: RootId, next: AttemptState, reason: string, at: int,
                           runtime: Option<string>, id: AttemptId)
    requires Inv(db) && id in db.attempts
    ensures var after := Apply(db, DoReplaceRoot(rootId, next, reason, at, runtime));
            && id in after.attempts
            && (db.attempts[id].rootId == rootId ==> !IsOpen(after, id))
            && (IsOpen(db, id) && db.attempts[id].rootId == rootId ==>
                  after.attempts[id].state == next && after.attempts[id].closeReason == Some(reason)
                  && after.attempts[id].closedAt == Some(at))
            && (db.attempts[id].rootId != rootId ==> after.attempts[id] == db.attempts[id])
  {
    ReplaceRootKeepsRoots(db, |db.order|, rootId, next, reason, at, runtime, id);
    assert db.order[..|db.order|] == db.order;
    ReplaceRootWrites(db, |db.order|, rootId, next, reason, at, runtime, id);
  }

  lemma {:induction false} ReplaceRootWrites(db: Db, n: nat, rootId: RootId, next: AttemptState, reason: string,
                                             at: int, runtime: Option<string>, id: AttemptId)
    requires n <= |db.order| && id in db.attempts
    ensures var after := ReplaceRoot(db, n, rootId, next, reason, at, runtime);
            id in after.attempts &&
            (after.attempts[id] == db.attempts[id]
             || after.attempts[id] == db.attempts[id].(state := next, closedAt := Some(at),
                                                       closeReason := Some(reason), lastObservedAt := at))
    decreases n
  {
    if n > 0 {
      ReplaceRootWrites(db, n - 1, rootId, next, reason, at, runtime, id);
    }
  }

  lemma {:induction false} ReconcileSweeps(db: Db, n: nat, at: int, runtime: Option<string>, id: AttemptId)
    requires n <= |db.order| && id in db.attempts
    ensures var after := Reconcile(db, n, at, runtime);
            && id in after.attempts
            && (id in db.order[..n] ==> !Due(after, id, at))
            && (!Due(db, id, at) ==> after.attempts[id] == db.attempts[id])
            && (Due(db, id, at) && !Due(after, id, at) ==>
                  after.attempts[id].state == Expired && after.attempts[id].closedAt == Some(at))
            && (Due(db, id, at) && Due(after, id, at) ==> after.attempts[id] == db.attempts[id])
    decreases n
  {
    if n > 0 {
      ReconcileSweeps(db, n - 1, at, runtime, id);
      RowSweeps(Reconcile(db, n - 1, at, runtime), db.order[n - 1], at, runtime, id);
    }
  }

  lemma RowSweeps(db: Db, y: AttemptId, at: int, runtime: Option<string>, id: AttemptId)
    requires id in db.attempts
    ensures var after := ReconcileRow(db, y, at, runtime);
            && id in after.attempts
            && (if y == id && Due(db, id, at)
                then after.attempts[id].state == Expired && after.attempts[id].closedAt == Some(at)
                else after.attempts[id] == db.attempts[id])
  {
  }

  /** The startup pass expires exactly the open attempts whose confirmation time has run out. */
  lemma ReconcileIsExact(db: Db, at: int, runtime: Option<string>, id: AttemptId)
    requires Inv(db) && id in db.attempts
    ensures var after := Apply(db, DoReconcile(at, runtime));
            id in after.attempts
            && if Due(db, id, at) then after.attempts[id].state == Expired && after.attempts[id].closedAt == Some(at)
               else after.attempts[id] == db.attempts[id]
  {
    ReconcileSweeps(db, |db.order|, at, runtime, id);
    assert db.order[..|db.order|] == db.order;
  }
}
