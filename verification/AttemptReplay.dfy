/** Replaying the attempt journal: when the created and state-changed events of an attempt chain up to
    its row, and the exact input on which the idempotency check drops a real change. */
module AttemptReplay {
  import opened Common
  import opened AttemptJournal
  import opened AttemptRuns

  predicate Tells(e: Event, id: AttemptId) { Lifecycle(e.kind) && e.attemptId == Some(id) }

  /** The state that the lifecycle events of `id` lead to. */
  function Replay(journal: seq<Event>, id: AttemptId): Option<AttemptState> {
    if journal == [] then None
    else if Tells(journal[|journal| - 1], id) then journal[|journal| - 1].next
    else Replay(journal[..|journal| - 1], id)
  }

  /** Every lifecycle event of `id` starts where the one before it ended. */
  predicate Chained(journal: seq<Event>, id: AttemptId) {
    journal == []
    || (Chained(journal[..|journal| - 1], id)
        && (Tells(journal[|journal| - 1], id) ==>
              journal[|journal| - 1].previous == Replay(journal[..|journal| - 1], id)))
  }

  function StateOf(db: Db, id: AttemptId): Option<AttemptState> {
    if id in db.attempts then Some(db.attempts[id].state) else None
  }

  /** The journal of `id` can be replayed, and replaying it gives the row's state. */
  predicate Replays(db: Db, id: AttemptId) {
    Chained(db.journal, id) && Replay(db.journal, id) == StateOf(db, id)
  }

  /** The step changes the state of `id` but its key was used before, so the change is not journalled. */
  predicate Swallows(db: Db, step: Step, id: AttemptId) {
    match step
    case DoUpsert(r) =>
      r.id == id && IsOpen(db, id) && !Terminal(db.attempts[id].state) && db.attempts[id].state != r.state
      && HasKey(db.journal, ObservedKey(id, r.state, r.at))
    case DoTransition(y, _, evaluation, next, _, _, _) =>
      y == id && IsOpen(db, id) && !Terminal(next) && db.attempts[id].state != next
      && HasKey(db.journal, MovedKey(id, evaluation, next))
    case _ => false
  }

  lemma AppendReplays(journal: seq<Event>, e: Event, id: AttemptId)
    ensures HasKey(journal, e.key) || !Tells(e, id) ==>
              Replay(Append(journal, e), id) == Replay(journal, id)
                  && (Chained(Append(journal, e), id) <==> Chained(journal, id))
    ensures !HasKey(journal, e.key) && Tells(e, id) ==>
              Replay(Append(journal, e), id) == e.next
              && (Chained(Append(journal, e), id) <==> Chained(journal, id) && e.previous == Replay(journal, id))
  {
    assert (journal + [e])[..|journal|] == journal;
  }

  lemma CloseRowReplays(db: Db, y: AttemptId, rootId: RootId, next: AttemptState, closeReason: Option<string>,
                        reason: string, at: int, runtime: Option<string>, stateKey: Key, closedKey: Key, id: AttemptId)
    requires y in db.attempts && !HasKey(db.journal, stateKey) && Replays(db, id)
    ensures Replays(CloseRow(db, y, rootId, next, closeReason, reason, at, runtime, stateKey, closedKey), id)
  {
    var change := ChangeEvent(y, rootId, db.attempts[y].state, next, reason, at, runtime, stateKey);
    AppendReplays(db.journal, change, id);
    AppendReplays(Append(db.journal, change),
                  CloseEvent(y, rootId, db.attempts[y].state, next, reason, at, runtime, closedKey), id);
  }

  lemma UnknownHasNoCreatedKey(db: Db, id: AttemptId)
    requires Inv(db) && id !in db.attempts
    ensures !HasKey(db.journal, CreatedKey(id))
  {
    forall i | 0 <= i < |db.journal| ensures db.journal[i].key != CreatedKey(id) {
      assert EventOk(db, db.journal[i]);
    }
  }

  lemma ObservedJournalReplays(journal: seq<Event>, a: Attempt, r: Request, id: AttemptId)
    ensures var after := ObservedJournal(journal, a, r);
            if r.id == id && a.state != r.state && !HasKey(journal, ObservedKey(id, r.state, r.at))
            then Replay(after, id) == Some(r.state)
                 && (Chained(after, id) <==> Chained(journal, id) && Replay(journal, id) == Some(a.state))
            else Replay(after, id) == Replay(journal, id) && (Chained(after, id) <==> Chained(journal, id))
  {
    var change := ChangeEvent(r.id, r.rootId, a.state, r.state,
                              if Truthy(r.closeReason) then r.closeReason.value else "observation",
                              r.at, r.runtime, ObservedKey(r.id, r.state, r.at));
    var changed := if a.state == r.state then journal else Append(journal, change);
    AppendReplays(journal, change, id);
    ReuseReplays(journal, changed, r, id);
  }

  /** The restart note, when there is one, tells no change. */
  lemma ReuseReplays(journal: seq<Event>, changed: seq<Event>, r: Request, id: AttemptId)
    ensures var latest := Latest(journal, r.id);
            var after := if Truthy(r.runtime) && latest.Some? && Truthy(latest.value.runtime)
                && latest.value.runtime != r.runtime
                         then Append(changed, ReuseEvent(r.id, r.rootId, r.state, "existing_nonterminal_attempt",
                                                         r.at, r.runtime, RestartKey(r.id, r.runtime.value)))
                         else changed;
            Replay(after, id) == Replay(changed, id) && (Chained(after, id) <==> Chained(changed, id))
  {
    if Truthy(r.runtime) {
      AppendReplays(changed, ReuseEvent(r.id, r.rootId, r.state, "existing_nonterminal_attempt", r.at, r.runtime,
                                        RestartKey(r.id, r.runtime.value)), id);
    }
  }

  lemma ObserveReplays(db: Db, r: Request, id: AttemptId)
    requires IsOpen(db, r.id) && !Terminal(db.attempts[r.id].state) && Replays(db, id)
    ensures Replays(Upsert(db, r), id) <==> !Swallows(db, DoUpsert(r), id)
  {
    var a, after := db.attempts[r.id], Upsert(db, r);
    ObservedJournalReplays(db.journal, a, r, id);
    assert after == db.(attempts := db.attempts[r.id := Observed(a, r)], journal := ObservedJournal(db.journal, a, r));
  }

  lemma UpsertReplays(db: Db, r: Request, id: AttemptId)
    requires Inv(db) && Replays(db, id)
    ensures Replays(Upsert(db, r), id) <==> !Swallows(db, DoUpsert(r), id)
  {
    if Refused(db, r) {
      AppendReplays(db.journal, Event(None, r.rootId, LimitReached, None, None, "max_attempts_per_root_event_reached",
                                      r.at, r.runtime, LimitKey(r.rootId, r.limit.value, r.id)), id);
    } else if r.id !in db.attempts {
      UnknownHasNoCreatedKey(db, r.id);
      AppendReplays(db.journal,
                    Event(Some(r.id), r.rootId, Created, None, Some(r.state), r.trigger, r.at, r.runtime,
                          CreatedKey(r.id)), id);
    } else if IsOpen(db, r.id) && !Terminal(db.attempts[r.id].state) {
      ObserveReplays(db, r, id);
    }
  }

  lemma TransitionReplays(db: Db, y: AttemptId, rootId: RootId, evaluation: Option<int>, next: AttemptState,
                          reason: string, at: int, runtime: Option<string>, id: AttemptId)
    requires Replays(db, id)
    requires IsOpen(db, y) && Terminal(next) ==> !HasKey(db.journal, MovedKey(y, evaluation, next))
    ensures Replays(Transition(db, y, rootId, evaluation, next, reason, at, runtime), id)
       <==> !Swallows(db, DoTransition(y, rootId, evaluation, next, reason, at, runtime), id)
  {
    if IsOpen(db, y) && (Terminal(next) || db.attempts[y].state != next) {
      var a, after := db.attempts[y], Transition(db, y, rootId, evaluation, next, reason, at, runtime);
      var change := ChangeEvent(y, rootId, a.state, next, reason, at, runtime, MovedKey(y, evaluation, next));
      var close := CloseEvent(y, rootId, a.state, next, reason, at, runtime, ClosedKey(y, evaluation, next));
      var changed := if a.state == next then db.journal else Append(db.journal, change);
      AppendReplays(db.journal, change, id);
      if Terminal(next) {
        AppendReplays(changed, close, id);
        assert after.journal == Append(changed, close);
      } else {
        assert after.journal == changed;
      }
    }
  }

  lemma ReplaceRowReplays(db: Db, y: AttemptId, rootId: RootId, next: AttemptState, reason: string, at: int,
                          runtime: Option<string>, id: AttemptId)
    requires Replays(db, id) && (IsOpen(db, y) ==> !HasKey(db.journal, ReplacedStateKey(y)))
    ensures Replays(ReplaceRow(db, y, rootId, next, reason, at, runtime), id)
  {
    if IsOpen(db, y) && db.attempts[y].rootId == rootId {
      CloseRowReplays(db, y, rootId, next, Some(reason), reason, at, runtime, ReplacedStateKey(y),
                      ReplacedClosedKey(y), id);
    }
  }

  lemma {:induction false} ReplaceRootReplays(db: Db, n: nat, rootId: RootId, next: AttemptState, reason: string,
                                              at: int, runtime: Option<string>, id: AttemptId)
    requires Inv(db) && Replays(db, id) && n <= |db.order|
    ensures Replays(ReplaceRoot(db, n, rootId, next, reason, at, runtime), id)
    decreases n
  {
    if n > 0 {
      ReplaceRootReplays(db, n - 1, rootId, next, reason, at, runtime, id);
      ReplaceRootKeepsFresh(db, n - 1, rootId, next, reason, at, runtime, db.order[n - 1]);
      ReplaceRowReplays(ReplaceRoot(db, n - 1, rootId, next, reason, at, runtime), db.order[n - 1], rootId, next,
                        reason, at, runtime, id);
    }
  }

  lemma ReconcileRowReplays(db: Db, y: AttemptId, at: int, runtime: Option<string>, id: AttemptId)
    requires Replays(db, id) && (IsOpen(db, y) ==> !HasKey(db.journal, ReconciledStateKey(y)))
    ensures Replays(ReconcileRow(db, y, at, runtime), id)
  {
    if y in db.attempts {
      var a, orphan := db.attempts[y], OrphanEvent(y, db.attempts[y], at, runtime);
      AppendReplays(db.journal, orphan, id);
      var marked := if a.rootId in db.roots then db else db.(journal := Append(db.journal, orphan));
      if Due(marked, y, at) {
        AppendKeepsFresh(db.journal, orphan, ReconciledStateKey(y));
        CloseRowReplays(marked, y, a.rootId, Expired, OrText(a.closeReason, "startup_reconciliation_ttl_expired"),
                        "startup_reconciliation_ttl_expired", at, runtime, ReconciledStateKey(y),
                        ReconciledClosedKey(y), id);
      }
    }
  }

  lemma {:induction false} ReconcileReplays(db: Db, n: nat, at: int, runtime: Option<string>, id: AttemptId)
    requires Inv(db) && Replays(db, id) && n <= |db.order|
    ensures Replays(Reconcile(db, n, at, runtime), id)
    decreases n
  {
    if n > 0 {
      ReconcileReplays(db, n - 1, at, runtime, id);
      ReconcileKeepsFresh(db, n - 1, at, runtime, db.order[n - 1]);
      ReconcileRowReplays(Reconcile(db, n - 1, at, runtime), db.order[n - 1], at, runtime, id);
    }
  }

  /** A step keeps the journal replayable exactly when it does not run into a used key with a real change. */
  lemma StepReplaysExactly(db: Db, step: Step, id: AttemptId)
    requires Inv(db) && Replays(db, id)
    ensures Replays(Apply(db, step), id) <==> !Swallows(db, step, id)
  {
    match step
    case DoUpsert(r) => UpsertReplays(db, r, id);
    case DoTransition(y, root, evaluation, next, reason, at, runtime) =>
      if IsOpen(db, y) && Terminal(next) {
        OpenHasFreshKey(db, y, MovedKey(y, evaluation, next));
      }
      TransitionReplays(db, y, root, evaluation, next, reason, at, runtime, id);
    case DoReplaceRoot(root, next, reason, at, runtime) =>
        ReplaceRootReplays(db, |db.order|, root, next, reason, at, runtime, id);
    case DoExpire(y, root, evaluation, at, runtime) =>
      if Due(db, y, at) {
        OpenHasFreshKey(db, y, MovedKey(y, evaluation, Expired));
        CloseRowReplays(db, y, root, Expired, OrText(db.attempts[y].closeReason, "confirmation_ttl_expired"),
                        "confirmation_ttl_expired", at, runtime, MovedKey(y, evaluation, Expired),
                        ClosedKey(y, evaluation, Expired), id);
      }
    case DoRecordReuse(y, root, at, runtime) =>
      if IsOpen(db, y) {
        AppendReplays(db.journal,
                      ReuseEvent(y, root, db.attempts[y].state, "existing_attempt_after_runtime_restart", at, runtime,
                                             RestartKey(y, if Truthy(runtime) then runtime.value else "unknown")), id);
      }
    case DoReconcile(at, runtime) => ReconcileReplays(db, |db.order|, at, runtime, id);
    case DoNoteCorrelation(y, root, token, at, runtime) =>
      AppendReplays(db.journal,
                    Event(y, root, CorrelationMissing, None, None, "attempt_correlation_missing", at, runtime,
                          CorrelationKey(root, token)), id);
    case DoAddRoot(_) =>
  }

  // ---------- Whole runs, under the callers' discipline ----------

  /** No two observations of an attempt share a time; they may arrive in any order. */
  predicate TimesDiffer(steps: seq<Step>) {
    forall i, j | 0 <= i < j < |steps| ::
      steps[i].DoUpsert? && steps[j].DoUpsert? && steps[i].request.id == steps[j].request.id ==>
        steps[i].request.at != steps[j].request.at
  }

  predicate TransitionsClose(steps: seq<Step>) {
    forall i | 0 <= i < |steps| :: steps[i].DoTransition? ==> Terminal(steps[i].next)
  }

  /** No observation still to come shares a time with one already journalled. */
  ghost predicate TimesUnused(journal: seq<Event>, steps: seq<Step>) {
    forall key: Key, k | key.ObservedKey? && HasKey(journal, key) && 0 <= k < |steps| ::
      steps[k].DoUpsert? && steps[k].request.id == key.id ==> key.at != steps[k].request.at
  }

  /** The observation keys a journal holds beyond another, all of them `key`. */
  ghost predicate ObservesOnly(before: seq<Event>, after: seq<Event>, made: Option<Key>) {
    forall key: Key | key.ObservedKey? && HasKey(after, key) :: HasKey(before, key) || made == Some(key)
  }

  lemma AppendObserves(before: seq<Event>, journal: seq<Event>, e: Event, made: Option<Key>)
    requires ObservesOnly(before, journal, made) && (!e.key.ObservedKey? || made == Some(e.key))
    ensures ObservesOnly(before, Append(journal, e), made)
  {
    forall key: Key | key.ObservedKey? && HasKey(Append(journal, e), key) && key != e.key ensures HasKey(journal, key) {
      var i :| 0 <= i < |Append(journal, e)| && Append(journal, e)[i].key == key;
      assert journal[i].key == key;
    }
  }

  lemma CloseRowObserves(before: seq<Event>, db: Db, y: AttemptId, rootId: RootId, next: AttemptState,
                         closeReason: Option<string>,
                         reason: string, at: int, runtime: Option<string>, stateKey: Key, closedKey: Key)
    requires y in db.attempts && ObservesOnly(before, db.journal, None) && !stateKey.ObservedKey?
             && !closedKey.ObservedKey?
    ensures ObservesOnly(before,
                         CloseRow(db, y, rootId, next, closeReason, reason, at, runtime, stateKey, closedKey).journal,
                             None)
  {
    var change := ChangeEvent(y, rootId, db.attempts[y].state, next, reason, at, runtime, stateKey);
    AppendObserves(before, db.journal, change, None);
    AppendObserves(before, Append(db.journal, change),
                   CloseEvent(y, rootId, db.attempts[y].state, next, reason, at, runtime, closedKey), None);
  }

  lemma {:induction false} ReplaceRootObserves(db: Db, n: nat, rootId: RootId, next: AttemptState, reason: string,
                                               at: int, runtime: Option<string>)
    requires n <= |db.order|
    ensures ObservesOnly(db.journal, ReplaceRoot(db, n, rootId, next, reason, at, runtime).journal, None)
    decreases n
  {
    if n > 0 {
      ReplaceRootObserves(db, n - 1, rootId, next, reason, at, runtime);
      var mid, y := ReplaceRoot(db, n - 1, rootId, next, reason, at, runtime), db.order[n - 1];
      if IsOpen(mid, y) && mid.attempts[y].rootId == rootId {
        CloseRowObserves(db.journal, mid, y, rootId, next, Some(reason), reason, at, runtime, ReplacedStateKey(y),
                         ReplacedClosedKey(y));
      }
    }
  }

  lemma {:induction false} ReconcileObserves(db: Db, n: nat, at: int, runtime: Option<string>)
    requires n <= |db.order|
    ensures ObservesOnly(db.journal, Reconcile(db, n, at, runtime).journal, None)
    decreases n
  {
    if n > 0 {
      ReconcileObserves(db, n - 1, at, runtime);
      var mid, y := Reconcile(db, n - 1, at, runtime), db.order[n - 1];
      assert Reconcile(db, n, at, runtime) == ReconcileRow(mid, y, at, runtime);
      if y in mid.attempts {
        ReconcileRowObserves(db.journal, mid, y, at, runtime);
      }
    }
  }

  lemma ReconcileRowObserves(before: seq<Event>, db: Db, y: AttemptId, at: int, runtime: Option<string>)
    requires y in db.attempts && ObservesOnly(before, db.journal, None)
    ensures ObservesOnly(before, ReconcileRow(db, y, at, runtime).journal, None)
  {
    var a := db.attempts[y];
    var orphan := OrphanEvent(y, a, at, runtime);
    AppendObserves(before, db.journal, orphan, None);
    var marked := if a.rootId in db.roots then db else db.(journal := Append(db.journal, orphan));
    if Due(marked, y, at) {
      CloseRowObserves(before, marked, y, a.rootId, Expired,
                       OrText(a.closeReason, "startup_reconciliation_ttl_expired"),
                       "startup_reconciliation_ttl_expired", at, runtime, ReconciledStateKey(y),
                       ReconciledClosedKey(y));
    }
  }

  function MadeBy(step: Step): Option<Key> {
    if step.DoUpsert? then Some(ObservedKey(step.request.id, step.request.state, step.request.at)) else None
  }

  lemma UpsertObserves(db: Db, r: Request)
    ensures ObservesOnly(db.journal, Upsert(db, r).journal, MadeBy(DoUpsert(r)))
  {
    var made := MadeBy(DoUpsert(r));
    if Refused(db, r) {
      AppendObserves(db.journal, db.journal,
                     Event(None, r.rootId, LimitReached, None, None, "max_attempts_per_root_event_reached",
                                                   r.at, r.runtime, LimitKey(r.rootId, r.limit.value, r.id)), made);
    } else if r.id !in db.attempts {
      AppendObserves(db.journal, db.journal,
                     Event(Some(r.id), r.rootId, Created, None, Some(r.state), r.trigger, r.at, r.runtime,
                           CreatedKey(r.id)), made);
    } else {
      var a := db.attempts[r.id];
      var change := ChangeEvent(r.id, r.rootId, a.state, r.state,
                                if Truthy(r.closeReason) then r.closeReason.value else "observation",
                                r.at, r.runtime, ObservedKey(r.id, r.state, r.at));
      AppendObserves(db.journal, db.journal, change, made);
      if Truthy(r.runtime) {
        AppendObserves(db.journal, if a.state == r.state then db.journal else Append(db.journal, change),
                       ReuseEvent(r.id, r.rootId, r.state, "existing_nonterminal_attempt", r.at, r.runtime,
                                  RestartKey(r.id, r.runtime.value)), made);
      }
    }
  }

  lemma TransitionObserves(db: Db, y: AttemptId, rootId: RootId, evaluation: Option<int>, next: AttemptState,
                           reason: string, at: int, runtime: Option<string>)
    ensures ObservesOnly(db.journal, Transition(db, y, rootId, evaluation, next, reason, at, runtime).journal, None)
  {
    if IsOpen(db, y) && (Terminal(next) || db.attempts[y].state != next) {
      var a, after := db.attempts[y], Transition(db, y, rootId, evaluation, next, reason, at, runtime);
      var change := ChangeEvent(y, rootId, a.state, next, reason, at, runtime, MovedKey(y, evaluation, next));
      var close := CloseEvent(y, rootId, a.state, next, reason, at, runtime, ClosedKey(y, evaluation, next));
      var changed := if a.state == next then db.journal else Append(db.journal, change);
      AppendObserves(db.journal, db.journal, change, None);
      if Terminal(next) {
        AppendObserves(db.journal, changed, close, None);
        assert after.journal == Append(changed, close);
      } else {
        assert after.journal == changed;
      }
    }
  }

  /** Only an observation makes an observation key. */
  lemma StepObserves(db: Db, step: Step)
    ensures ObservesOnly(db.journal, Apply(db, step).journal, MadeBy(step))
  {
    match step
    case DoUpsert(r) => UpsertObserves(db, r);
    case DoTransition(y, root, evaluation, next, reason, at, runtime) =>
      TransitionObserves(db, y, root, evaluation, next, reason, at, runtime);
    case DoReplaceRoot(root, next, reason, at, runtime) =>
        ReplaceRootObserves(db, |db.order|, root, next, reason, at, runtime);
    case DoExpire(y, root, evaluation, at, runtime) =>
      if Due(db, y, at) {
        CloseRowObserves(db.journal, db, y, root, Expired,
                         OrText(db.attempts[y].closeReason, "confirmation_ttl_expired"),
                         "confirmation_ttl_expired", at, runtime, MovedKey(y, evaluation, Expired),
                         ClosedKey(y, evaluation, Expired));
      }
    case DoRecordReuse(y, root, at, runtime) =>
      if IsOpen(db, y) {
        AppendObserves(db.journal, db.journal,
                       ReuseEvent(y, root, db.attempts[y].state, "existing_attempt_after_runtime_restart", at, runtime,
                                  RestartKey(y, if Truthy(runtime) then runtime.value else "unknown")), None);
      }
    case DoReconcile(at, runtime) => ReconcileObserves(db, |db.order|, at, runtime);
    case DoNoteCorrelation(y, root, token, at, runtime) =>
      AppendObserves(db.journal, db.journal,
                     Event(y, root, CorrelationMissing, None, None, "attempt_correlation_missing", at, runtime,
                           CorrelationKey(root, token)), None);
    case DoAddRoot(_) =>
  }

  lemma StepLeavesTimesUnused(db: Db, steps: seq<Step>)
    requires steps != [] && TimesDiffer(steps) && TimesUnused(db.journal, steps)
    ensures TimesUnused(Apply(db, steps[0]).journal, steps[1..])
  {
    StepObserves(db, steps[0]);
    forall key: Key, k | key.ObservedKey? && HasKey(Apply(db, steps[0]).journal, key) && 0 <= k < |steps[1..]|
                         && steps[1..][k].DoUpsert? && steps[1..][k].request.id == key.id
      ensures key.at != steps[1..][k].request.at
    {
      assert steps[1..][k] == steps[k + 1];
    }
  }

  lemma {:induction false} DisciplinedRunReplays(db: Db, steps: seq<Step>, id: AttemptId)
    requires Inv(db) && Replays(db, id)
    requires TimesDiffer(steps) && TransitionsClose(steps) && TimesUnused(db.journal, steps)
    ensures Replays(Run(db, steps), id)
    decreases |steps|
  {
    if steps != [] {
      StepReplaysExactly(db, steps[0], id);
      StepKeepsInv(db, steps[0]);
      StepLeavesTimesUnused(db, steps);
      assert TimesDiffer(steps[1..]) && TransitionsClose(steps[1..]);
      DisciplinedRunReplays(Apply(db, steps[0]), steps[1..], id);
    }
  }

  /** When no two observations of an attempt share a time, in whatever order they arrive, and explicit
      transitions aim at terminal states, every journal replays to its row: no real change is ever dropped as a
      duplicate. */
  lemma JournalReplaysToRow(steps: seq<Step>, id: AttemptId)
    requires TimesDiffer(steps) && TransitionsClose(steps)
    ensures Replays(Run(EMPTY, steps), id)
  {
    DisciplinedRunReplays(EMPTY, steps, id);
  }

  const RETEST := Working("RETEST_IN_PROGRESS")
  const PENDING := Working("BREAKDOWN_PENDING")

  function Observation(state: AttemptState, at: int): Step {
    DoUpsert(Request("a", "root", at, None, None, state, "structure_observed", None, None, None, None))
  }

  /** Three observations that share a time: the second change to the same state is dropped, and the
      journal ends in a state the row has left. */
  lemma SharedTimesLoseAChange()
    ensures !Replays(Run(EMPTY,
                         [Observation(RETEST, 0), Observation(PENDING, 1), Observation(RETEST, 1),
                          Observation(PENDING, 1)]), "a")
  {
    var s0, s1, s2 := Observation(RETEST, 0), Observation(PENDING, 1), Observation(RETEST, 1);
    var e0 := Event(Some("a"), "root", Created, None, Some(RETEST), "structure_observed", 0, None, CreatedKey("a"));
    var e1 := ChangeEvent("a", "root", RETEST, PENDING, "observation", 1, None, ObservedKey("a", PENDING, 1));
    var e2 := ChangeEvent("a", "root", PENDING, RETEST, "observation", 1, None, ObservedKey("a", RETEST, 1));
    RunFour(EMPTY, s0, s1, s2, s1);
    var d0 := Apply(EMPTY, s0);
    assert d0.journal == [e0];
    var d1 := Apply(d0, s1);
    assert d1.journal == [e0, e1];
    var d2 := Apply(d1, s2);
    assert d2.journal == [e0, e1, e2];
    assert d2.journal[1].key == e1.key;
    var d3 := Apply(d2, s1);
    assert d3.journal == d2.journal;
  }

  lemma RunFour(db: Db, a: Step, b: Step, c: Step, d: Step)
    ensures Run(db, [a, b, c, d]) == Apply(Apply(Apply(Apply(db, a), b), c), d)
  {
    assert [a, b, c, d][1..] == [b, c, d] && [b, c, d][1..] == [c, d] && [c, d][1..] == [d] && [d][1..] == [];
    var two := Apply(Apply(db, a), b);
    assert Run(db, [a, b, c, d]) == Run(Apply(db, a), [b, c, d]) == Run(two, [c, d]);
    assert Run(two, [c, d]) == Run(Apply(two, c), [d]);
  }
}
