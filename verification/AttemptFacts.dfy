/** The attempt store, column by column: what each call writes, and where every column of an attempt comes from over
    a whole run, stated without the functions that compute it. */
module AttemptFacts {
  import opened Common
  import opened AttemptJournal
  import opened AttemptRuns

  // ---------- One observation of an attempt ----------

  /** The root has all the attempts it is allowed, and this would be one more. */
  predicate TurnsAway(db: Db, r: Request) {
    && r.id !in db.attempts && r.limit.Some?
    && |set x | x in db.attempts && db.attempts[x].rootId == r.rootId| >= r.limit.value
  }

  /** The upsert writes the attempt: it makes it, or finds it open and in a working state. */
  predicate Takes(db: Db, r: Request) {
    if r.id in db.attempts then db.attempts[r.id].closedAt == None && db.attempts[r.id].state.Working?
    else !TurnsAway(db, r)
  }

  /** One event is appended under an unused key; under a used one nothing is. */
  predicate Logs(before: seq<Event>, after: seq<Event>, e: Event) {
    after == if exists i :: 0 <= i < |before| && before[i].key == e.key then before else before + [e]
  }

  /** The newest event of the attempt names another runtime than this one. */
  predicate FromAnotherRuntime(journal: seq<Event>, id: AttemptId, runtime: Option<string>) {
    runtime.Some? && runtime.value != "" &&
    exists i ::
      && 0 <= i < |journal| && journal[i].attemptId == Some(id)
      && (forall j | i < j < |journal| :: journal[j].attemptId != Some(id))
      && journal[i].runtime.Some? && journal[i].runtime.value != "" && journal[i].runtime != runtime
  }

  lemma {:induction false} LatestIsNewest(journal: seq<Event>, id: AttemptId, i: nat)
    requires i < |journal| && journal[i].attemptId == Some(id)
    requires forall j | i < j < |journal| :: journal[j].attemptId != Some(id)
    ensures Latest(journal, id) == Some(journal[i])
  {
    if i < |journal| - 1 {
      LatestIsNewest(journal[..|journal| - 1], id, i);
    }
  }

  lemma {:induction false} LatestExists(journal: seq<Event>, id: AttemptId) returns (i: nat)
    requires Latest(journal, id).Some?
    ensures i < |journal| && journal[i] == Latest(journal, id).value && journal[i].attemptId == Some(id)
    ensures forall j | i < j < |journal| :: journal[j].attemptId != Some(id)
  {
    var n := |journal| - 1;
    if journal[n].attemptId == Some(id) {
      i := n;
    } else {
      i := LatestExists(journal[..n], id);
      assert forall j | i < j < n :: journal[..n][j] == journal[j];
    }
  }

  lemma RestartIsExact(journal: seq<Event>, id: AttemptId, runtime: Option<string>)
    ensures FromAnotherRuntime(journal, id, runtime)
       <==> Truthy(runtime) && Latest(journal, id).Some? && Truthy(Latest(journal, id).value.runtime)
            && Latest(journal, id).value.runtime != runtime
  {
    if FromAnotherRuntime(journal, id, runtime) {
      var i :| && 0 <= i < |journal| && journal[i].attemptId == Some(id)
               && (forall j | i < j < |journal| :: journal[j].attemptId != Some(id))
               && journal[i].runtime.Some? && journal[i].runtime.value != "" && journal[i].runtime != runtime;
      LatestIsNewest(journal, id, i);
    }
    if Latest(journal, id).Some? {
      var _ := LatestExists(journal, id);
    }
  }

  /** A refused upsert leaves one note and no attempt; one on a closed or terminal attempt does nothing. */
  lemma RefusedIsExact(db: Db, r: Request)
    ensures Refused(db, r) <==> TurnsAway(db, r)
    ensures TurnsAway(db, r) ==>
              var after := Upsert(db, r);
              && after.attempts == db.attempts && after.order == db.order && after.roots == db.roots
              && Logs(db.journal, after.journal,
                      Event(None, r.rootId, LimitReached, None, None, "max_attempts_per_root_event_reached", r.at,
                            r.runtime, LimitKey(r.rootId, r.limit.value, r.id)))
    ensures r.id in db.attempts && (db.attempts[r.id].closedAt.Some? || !db.attempts[r.id].state.Working?) ==>
              Upsert(db, r) == db
  {
    assert CountForRoot(db, r.rootId) == |set x | x in db.attempts && db.attempts[x].rootId == r.rootId|;
  }

  predicate Opens(r: Request, after: Attempt) {
    && after.rootId == r.rootId && after.createdAt == r.at && after.trigger == r.trigger && after.startedAt == r.at
    && after.retestHigh == r.retestHigh && after.breakdownLevel == r.breakdownLevel && after.expiresAt == r.expiresAt
    && after.state == r.state && after.closeReason == r.closeReason && after.lastObservedAt == r.at
    && after.closedAt
       == (if (r.closeReason.Some? && r.closeReason.value != "") || !r.state.Working? then Some(r.at) else None)
  }

  /** A new attempt takes its columns from the request, and is closed at once if it comes with a reason or in a
      terminal state. */
  lemma CreationIsExact(db: Db, r: Request)
    requires r.id !in db.attempts && Takes(db, r)
    ensures var after := Upsert(db, r);
            && r.id in after.attempts && Opens(r, after.attempts[r.id])
            && after.attempts == db.attempts[r.id := after.attempts[r.id]]
            && after.order == db.order + [r.id] && after.roots == db.roots
            && Logs(db.journal, after.journal,
                    Event(Some(r.id), r.rootId, Created, None, Some(r.state), r.trigger, r.at, r.runtime,
                          CreatedKey(r.id)))
  {
    RefusedIsExact(db, r);
  }

  predicate Observes(a: Attempt, r: Request, after: Attempt) {
    && after.rootId == a.rootId && after.createdAt == a.createdAt && after.trigger == a.trigger
    && after.startedAt == a.startedAt
    && after.retestHigh == (if r.retestHigh.Some? && r.retestHigh.value != 0.0 then r.retestHigh else a.retestHigh)
    && after.breakdownLevel
       == (if r.breakdownLevel.Some? && r.breakdownLevel.value != 0.0 then r.breakdownLevel else a.breakdownLevel)
    && after.expiresAt == (if a.expiresAt.Some? then a.expiresAt else r.expiresAt)
    && after.state == r.state && after.lastObservedAt == r.at
    && if r.closeReason.Some? && r.closeReason.value != "" then
         && after.closedAt == Some(r.at)
         && after.closeReason
            == (if a.closeReason.Some? && a.closeReason.value != "" then a.closeReason else r.closeReason)
       else after.closedAt == None && after.closeReason == a.closeReason
  }

  /** An observation of an open attempt keeps its identity and its expiry, moves its state, and closes it if there is
      a reason. */
  lemma ObservationIsExact(db: Db, r: Request)
    requires r.id in db.attempts && Takes(db, r)
    ensures var a, after := db.attempts[r.id], Upsert(db, r);
            && r.id in after.attempts && Observes(a, r, after.attempts[r.id])
            && after.attempts == db.attempts[r.id := after.attempts[r.id]]
            && after.order == db.order && after.roots == db.roots
  {
  }

  /** It notes first a changed state and then a changed runtime. */
  lemma ObservationIsTold(db: Db, r: Request) returns (mid: seq<Event>)
    requires r.id in db.attempts && Takes(db, r)
    ensures var a := db.attempts[r.id];
            if a.state == r.state then mid == db.journal
            else Logs(db.journal, mid,
                      Event(Some(r.id), r.rootId, StateChanged, Some(a.state), Some(r.state),
                            if r.closeReason.Some? && r.closeReason.value != "" then r.closeReason.value
                            else "observation",
                            r.at, r.runtime, ObservedKey(r.id, r.state, r.at)))
    ensures if FromAnotherRuntime(db.journal, r.id, r.runtime)
            then Logs(mid, Upsert(db, r).journal,
                      Event(Some(r.id), r.rootId, Reused, Some(r.state), Some(r.state),
                            "existing_nonterminal_attempt", r.at, r.runtime, RestartKey(r.id, r.runtime.value)))
            else Upsert(db, r).journal == mid
  {
    RestartIsExact(db.journal, r.id, r.runtime);
    var a := db.attempts[r.id];
    mid := if a.state == r.state then db.journal
           else Append(db.journal,
                       ChangeEvent(r.id, r.rootId, a.state, r.state,
                                   if Truthy(r.closeReason) then r.closeReason.value else "observation",
                                   r.at, r.runtime, ObservedKey(r.id, r.state, r.at)));
  }

  // ---------- Moves, expiries and sweeps ----------

  /** The attempt is closed in state `next`, its first truthy reason kept. */
  predicate ClosesAs(a: Attempt, after: Attempt, next: AttemptState, reason: string, at: int) {
    && after == a.(state := after.state, closedAt := after.closedAt, closeReason := after.closeReason,
                   lastObservedAt := after.lastObservedAt)
    && after.state == next && after.closedAt == Some(at) && after.lastObservedAt == at
    && after.closeReason == (if a.closeReason.Some? && a.closeReason.value != "" then a.closeReason else Some(reason))
  }

  /** A change event and then a closing event, under these keys. */
  predicate LogsClose(before: seq<Event>, mid: seq<Event>, after: seq<Event>, id: AttemptId, rootId: RootId,
                      previous: AttemptState, next: AttemptState, reason: string, at: int, runtime: Option<string>,
                      stateKey: Key, closedKey: Key) {
    && Logs(before, mid,
            Event(Some(id), rootId, StateChanged, Some(previous), Some(next), reason, at, runtime, stateKey))
    && Logs(mid, after, Event(Some(id), rootId, Closed, Some(previous), Some(next), reason, at, runtime, closedKey))
  }

  /** A move of an open attempt to another state is noted; a move to a terminal state closes it and notes that too.
      Every other move does nothing. */
  lemma TransitionIsExact(db: Db, id: AttemptId, rootId: RootId, evaluation: Option<int>, next: AttemptState,
                          reason: string, at: int, runtime: Option<string>)
    returns (mid: seq<Event>)
    ensures var after := Transition(db, id, rootId, evaluation, next, reason, at, runtime);
            if id !in db.attempts || db.attempts[id].closedAt.Some? || (next.Working? && db.attempts[id].state == next)
            then after == db
            else
              var a := db.attempts[id];
              && id in after.attempts && after == db.(attempts := db.attempts[id := after.attempts[id]],
                                                      journal := after.journal)
              && (if next.Working? then after.attempts[id] == a.(state := next, lastObservedAt := at)
                  else ClosesAs(a, after.attempts[id], next, reason, at))
              && (if a.state == next then mid == db.journal
                  else Logs(db.journal, mid, Event(Some(id), rootId, StateChanged, Some(a.state), Some(next), reason,
                                                   at, runtime, MovedKey(id, evaluation, next))))
              && (if next.Working? then after.journal == mid
                  else Logs(mid, after.journal, Event(Some(id), rootId, Closed, Some(a.state), Some(next), reason, at,
                                                      runtime, ClosedKey(id, evaluation, next))))
  {
    mid := db.journal;
    if IsOpen(db, id) && db.attempts[id].state != next {
      mid := Append(db.journal, ChangeEvent(id, rootId, db.attempts[id].state, next, reason, at, runtime,
                                            MovedKey(id, evaluation, next)));
    }
  }

  /** An attempt is expired if and only if it is open and its expiry time has come. */
  lemma ExpireIsExact(db: Db, id: AttemptId, rootId: RootId, evaluation: Option<int>, at: int, runtime: Option<string>)
    returns (mid: seq<Event>)
    ensures var after := Expire(db, id, rootId, evaluation, at, runtime);
            if id in db.attempts && db.attempts[id].closedAt == None && db.attempts[id].expiresAt.Some?
               && db.attempts[id].expiresAt.value <= at
            then
              && id in after.attempts && after == db.(attempts := db.attempts[id := after.attempts[id]],
                                                      journal := after.journal)
              && ClosesAs(db.attempts[id], after.attempts[id], Expired, "confirmation_ttl_expired", at)
              && LogsClose(db.journal, mid, after.journal, id, rootId, db.attempts[id].state, Expired,
                           "confirmation_ttl_expired", at, runtime, MovedKey(id, evaluation, Expired),
                           ClosedKey(id, evaluation, Expired))
            else after == db
  {
    mid := db.journal;
    if Due(db, id, at) {
      mid := Append(db.journal, ChangeEvent(id, rootId, db.attempts[id].state, Expired, "confirmation_ttl_expired", at,
                                            runtime, MovedKey(id, evaluation, Expired)));
    }
  }

  /** One row of a root's replacement: an open attempt of the root is closed with the given reason, whatever reason it
      had, and both events are noted. */
  lemma ReplaceRowIsExact(db: Db, id: AttemptId, rootId: RootId, next: AttemptState, reason: string, at: int,
                          runtime: Option<string>)
    returns (mid: seq<Event>)
    ensures var after := ReplaceRow(db, id, rootId, next, reason, at, runtime);
            if id in db.attempts && db.attempts[id].closedAt == None && db.attempts[id].rootId == rootId then
              && id in after.attempts && after == db.(attempts := db.attempts[id := after.attempts[id]],
                                                      journal := after.journal)
              && after.attempts[id] == db.attempts[id].(state := next, closedAt := Some(at),
                                                        closeReason := Some(reason), lastObservedAt := at)
              && LogsClose(db.journal, mid, after.journal, id, rootId, db.attempts[id].state, next, reason, at, runtime,
                           ReplacedStateKey(id), ReplacedClosedKey(id))
            else after == db
  {
    mid := db.journal;
    if IsOpen(db, id) && db.attempts[id].rootId == rootId {
      mid := Append(db.journal, ChangeEvent(id, rootId, db.attempts[id].state, next, reason, at, runtime,
                                            ReplacedStateKey(id)));
    }
  }

  /** One row of the startup pass: an attempt without its root is noted, open or not, and an open one whose expiry
      time has come is closed. */
  lemma ReconcileRowIsExact(db: Db, id: AttemptId, at: int, runtime: Option<string>)
    returns (marked: seq<Event>, mid: seq<Event>)
    requires id in db.attempts
    ensures var a := db.attempts[id];
            if a.rootId in db.roots then marked == db.journal
            else Logs(db.journal, marked, Event(Some(id), a.rootId, OrphanDetected, Some(a.state), Some(a.state),
                                                "root_event_missing", at, runtime, OrphanKey(id)))
    ensures var a, after := db.attempts[id], ReconcileRow(db, id, at, runtime);
            if a.closedAt == None && a.expiresAt.Some? && a.expiresAt.value <= at then
              && id in after.attempts && after == db.(attempts := db.attempts[id := after.attempts[id]],
                                                      journal := after.journal)
              && ClosesAs(a, after.attempts[id], Expired, "startup_reconciliation_ttl_expired", at)
              && LogsClose(marked, mid, after.journal, id, a.rootId, a.state, Expired,
                           "startup_reconciliation_ttl_expired", at, runtime, ReconciledStateKey(id),
                           ReconciledClosedKey(id))
            else after == db.(journal := marked)
  {
    var a := db.attempts[id];
    marked := if a.rootId in db.roots then db.journal else Append(db.journal, OrphanEvent(id, a, at, runtime));
    mid := Append(marked, ChangeEvent(id, a.rootId, a.state, Expired, "startup_reconciliation_ttl_expired", at, runtime,
                                      ReconciledStateKey(id)));
  }

  /** A reuse after a restart is noted once per runtime, for an open attempt only, and writes no row. */
  lemma ReuseIsExact(db: Db, id: AttemptId, rootId: RootId, at: int, runtime: Option<string>)
    ensures var after := RecordReuse(db, id, rootId, at, runtime);
            if id in db.attempts && db.attempts[id].closedAt == None then
              && after == db.(journal := after.journal)
              && Logs(db.journal, after.journal,
                      Event(Some(id), rootId, Reused, Some(db.attempts[id].state), Some(db.attempts[id].state),
                            "existing_attempt_after_runtime_restart", at, runtime,
                            RestartKey(id, if runtime.Some? && runtime.value != "" then runtime.value else "unknown")))
            else after == db
  {
  }

  // ---------- Where the columns come from, over a run ----------

  /** The requests by which a run writes the attempt through an upsert, in order. */
  function Offers(db: Db, steps: seq<Step>, id: AttemptId): seq<Request>
    decreases |steps|
  {
    if steps == [] then []
    else
      var later := Offers(Apply(db, steps[0]), steps[1..], id);
      if steps[0].DoUpsert? && steps[0].request.id == id && Takes(db, steps[0].request) then [steps[0].request] + later
      else later
  }

  /** The first of them that is there. */
  predicate IsFirst(x: Option<int>, xs: seq<Option<int>>) {
    if x == None then forall k | 0 <= k < |xs| :: xs[k] == None
    else exists k | 0 <= k < |xs| :: IsFirstAt(x, xs, k)
  }

  predicate IsFirstAt(x: Option<int>, xs: seq<Option<int>>, k: nat)
    requires k < |xs|
  {
    xs[k] == x && forall j | 0 <= j < k :: xs[j] == None
  }

  predicate Nonzero(x: Option<real>) { x.Some? && x.value != 0.0 }

  /** The last of them that is there and is not zero; the first of all if no later one is. */
  predicate IsLastNonzero(x: Option<real>, xs: seq<Option<real>>) {
    exists k | 0 <= k < |xs| :: IsLastAt(x, xs, k)
  }

  predicate IsLastAt(x: Option<real>, xs: seq<Option<real>>, k: nat)
    requires k < |xs|
  {
    xs[k] == x && (k == 0 || Nonzero(x)) && forall j | k < j < |xs| :: !Nonzero(xs[j])
  }

  function Expiries(rs: seq<Request>): seq<Option<int>> {
    seq(|rs|, k requires 0 <= k < |rs| => rs[k].expiresAt)
  }

  function RetestHighs(rs: seq<Request>): seq<Option<real>> {
    seq(|rs|, k requires 0 <= k < |rs| => rs[k].retestHigh)
  }

  function BreakdownLevels(rs: seq<Request>): seq<Option<real>> {
    seq(|rs|, k requires 0 <= k < |rs| => rs[k].breakdownLevel)
  }

  lemma FirstOfTwo(x: Option<int>, a: Option<int>, b: Option<int>, rest: seq<Option<int>>)
    requires IsFirst(x, [if a.Some? then a else b] + rest)
    ensures IsFirst(x, [a] + ([b] + rest))
  {
    var ys := [if a.Some? then a else b] + rest;
    if x == None {
      NoneOfTwo(a, b, rest);
    } else {
      var k :| 0 <= k < |ys| && IsFirstAt(x, ys, k);
      FirstShifts(x, a, b, rest, k);
    }
  }

  lemma NoneOfTwo(a: Option<int>, b: Option<int>, rest: seq<Option<int>>)
    requires IsFirst(None, [if a.Some? then a else b] + rest)
    ensures IsFirst(None, [a] + ([b] + rest))
  {
    var ys, zs := [if a.Some? then a else b] + rest, [a] + ([b] + rest);
    assert ys[0] == None;
    forall k | 0 <= k < |zs| ensures zs[k] == None {
      if k >= 2 {
        assert zs[k] == ys[k - 1];
      }
    }
  }

  lemma FirstShifts(x: Option<int>, a: Option<int>, b: Option<int>, rest: seq<Option<int>>, k: nat)
    requires x.Some? && k < 1 + |rest| && IsFirstAt(x, [if a.Some? then a else b] + rest, k)
    ensures IsFirst(x, [a] + ([b] + rest))
  {
    var ys, zs := [if a.Some? then a else b] + rest, [a] + ([b] + rest);
    var w := if k > 0 then k + 1 else if a.Some? then 0 else 1;
    assert zs[w] == x;
    forall j | 0 <= j < w ensures zs[j] == None {
      if k > 0 {
        assert ys[0] == None;
      }
      if j >= 2 {
        assert zs[j] == ys[j - 1];
      }
    }
    assert IsFirstAt(x, zs, w);
  }

  lemma LastOfTwo(x: Option<real>, a: Option<real>, b: Option<real>, rest: seq<Option<real>>)
    requires IsLastNonzero(x, [if Nonzero(b) then b else a] + rest)
    ensures IsLastNonzero(x, [a] + ([b] + rest))
  {
    var ys := [if Nonzero(b) then b else a] + rest;
    var k :| 0 <= k < |ys| && IsLastAt(x, ys, k);
    LastShifts(x, a, b, rest, k);
  }

  lemma LastShifts(x: Option<real>, a: Option<real>, b: Option<real>, rest: seq<Option<real>>, k: nat)
    requires k < 1 + |rest| && IsLastAt(x, [if Nonzero(b) then b else a] + rest, k)
    ensures IsLastNonzero(x, [a] + ([b] + rest))
  {
    var ys, zs := [if Nonzero(b) then b else a] + rest, [a] + ([b] + rest);
    var w := if k > 0 then k + 1 else if Nonzero(b) then 1 else 0;
    assert zs[w] == x;
    forall j | w < j < |zs| ensures !Nonzero(zs[j]) {
      if j >= 2 {
        assert zs[j] == ys[j - 1];
      }
    }
    assert IsLastAt(x, zs, w);
  }

  /** Only its state, its close columns and its last time differ. */
  predicate SameOrigin(a: Attempt, after: Attempt) {
    after == a.(state := after.state, closeReason := after.closeReason, closedAt := after.closedAt,
                lastObservedAt := after.lastObservedAt)
  }

  lemma {:induction false} ReconcileKeepsOrigin(db: Db, n: nat, at: int, runtime: Option<string>, id: AttemptId)
    requires n <= |db.order| && id in db.attempts
    ensures var after := Reconcile(db, n, at, runtime);
            id in after.attempts && SameOrigin(db.attempts[id], after.attempts[id])
    decreases n
  {
    if n > 0 {
      ReconcileKeepsOrigin(db, n - 1, at, runtime, id);
      var mid, y := Reconcile(db, n - 1, at, runtime), db.order[n - 1];
      if y in mid.attempts {
        var _, _ := ReconcileRowIsExact(mid, y, at, runtime);
      }
    }
  }

  /** A step that does not write the attempt through an upsert keeps where its columns come from. */
  lemma OthersKeepOrigin(db: Db, step: Step, id: AttemptId)
    requires id in db.attempts
    requires step.DoUpsert? && step.request.id == id ==> !Takes(db, step.request)
    ensures id in Apply(db, step).attempts && SameOrigin(db.attempts[id], Apply(db, step).attempts[id])
  {
    match step
    case DoReplaceRoot(root, next, reason, at, runtime) =>
      ReplaceRootWrites(db, |db.order|, root, next, reason, at, runtime, id);
    case DoReconcile(at, runtime) => ReconcileKeepsOrigin(db, |db.order|, at, runtime, id);
    case DoUpsert(r) => RefusedIsExact(db, r);
    case _ =>
  }

  predicate Originates(a: Attempt, after: Attempt, offers: seq<Request>) {
    && after.rootId == a.rootId && after.createdAt == a.createdAt && after.trigger == a.trigger
    && after.startedAt == a.startedAt
    && IsFirst(after.expiresAt, [a.expiresAt] + Expiries(offers))
    && IsLastNonzero(after.retestHigh, [a.retestHigh] + RetestHighs(offers))
    && IsLastNonzero(after.breakdownLevel, [a.breakdownLevel] + BreakdownLevels(offers))
  }

  lemma OneOfferOriginates(a: Attempt, r: Request, mid: Attempt, after: Attempt, offers: seq<Request>)
    requires Observes(a, r, mid) && Originates(mid, after, offers)
    ensures Originates(a, after, [r] + offers)
  {
    OneMoreOffer(r, offers);
    FirstOfTwo(after.expiresAt, a.expiresAt, r.expiresAt, Expiries(offers));
    LastOfTwo(after.retestHigh, a.retestHigh, r.retestHigh, RetestHighs(offers));
    LastOfTwo(after.breakdownLevel, a.breakdownLevel, r.breakdownLevel, BreakdownLevels(offers));
  }

  lemma OneMoreOffer(r: Request, offers: seq<Request>)
    ensures Expiries([r] + offers) == [r.expiresAt] + Expiries(offers)
    ensures RetestHighs([r] + offers) == [r.retestHigh] + RetestHighs(offers)
    ensures BreakdownLevels([r] + offers) == [r.breakdownLevel] + BreakdownLevels(offers)
  {
  }

  lemma SameOriginates(a: Attempt, mid: Attempt, after: Attempt, offers: seq<Request>)
    requires SameOrigin(a, mid) && Originates(mid, after, offers)
    ensures Originates(a, after, offers)
  {
  }

  /** From any stored attempt on: its identity never changes, its expiry is its own or the first one offered, and its
      two levels are each the last one offered under its own name. */
  lemma {:induction false} RowFollowsOffers(db: Db, steps: seq<Step>, id: AttemptId)
    requires id in db.attempts
    ensures id in Run(db, steps).attempts
    ensures Originates(db.attempts[id], Run(db, steps).attempts[id], Offers(db, steps, id))
    decreases |steps|
  {
    if steps == [] {
      NoOfferOriginates(db.attempts[id]);
    } else {
      var next := Apply(db, steps[0]);
      if steps[0].DoUpsert? && steps[0].request.id == id && Takes(db, steps[0].request) {
        ObservationIsExact(db, steps[0].request);
        RowFollowsOffers(next, steps[1..], id);
        OneOfferOriginates(db.attempts[id], steps[0].request, next.attempts[id], Run(next, steps[1..]).attempts[id],
                           Offers(next, steps[1..], id));
      } else {
        OthersKeepOrigin(db, steps[0], id);
        RowFollowsOffers(next, steps[1..], id);
        SameOriginates(db.attempts[id], next.attempts[id], Run(next, steps[1..]).attempts[id],
                       Offers(next, steps[1..], id));
      }
    }
  }

  lemma NoOfferOriginates(a: Attempt)
    ensures Originates(a, a, [])
  {
    assert IsFirstAt(a.expiresAt, [a.expiresAt] + Expiries([]), 0);
    assert IsLastAt(a.retestHigh, [a.retestHigh] + RetestHighs([]), 0);
    assert IsLastAt(a.breakdownLevel, [a.breakdownLevel] + BreakdownLevels([]), 0);
  }

  /** What a run's offers make of an attempt that it creates. */
  predicate MadeBy(after: Attempt, offers: seq<Request>) {
    && offers != []
    && after.rootId == offers[0].rootId && after.createdAt == offers[0].at && after.trigger == offers[0].trigger
    && after.startedAt == offers[0].at
    && IsFirst(after.expiresAt, Expiries(offers))
    && IsLastNonzero(after.retestHigh, RetestHighs(offers))
    && IsLastNonzero(after.breakdownLevel, BreakdownLevels(offers))
  }

  lemma MadeAndOriginates(r: Request, mid: Attempt, after: Attempt, offers: seq<Request>)
    requires Opens(r, mid) && Originates(mid, after, offers)
    ensures MadeBy(after, [r] + offers)
  {
    OneMoreOffer(r, offers);
  }

  /** Over every run an attempt exists if and only if some upsert wrote it.  Its root, creation time, trigger and start
      are those of the first such upsert and never change; its expiry is the first one any of them offered and, once
      set, never changes; its retest high and its breakdown level are each the last non-null, non-zero one offered under
      its own name, or else the first one's. */
  lemma {:induction false} ColumnsComeFromOffers(db: Db, steps: seq<Step>, id: AttemptId)
    requires id !in db.attempts
    ensures id in Run(db, steps).attempts <==> Offers(db, steps, id) != []
    ensures id in Run(db, steps).attempts ==> MadeBy(Run(db, steps).attempts[id], Offers(db, steps, id))
    decreases |steps|
  {
    if steps != [] {
      var next := Apply(db, steps[0]);
      if steps[0].DoUpsert? && steps[0].request.id == id && Takes(db, steps[0].request) {
        CreationIsExact(db, steps[0].request);
        RowFollowsOffers(next, steps[1..], id);
        MadeAndOriginates(steps[0].request, next.attempts[id], Run(next, steps[1..]).attempts[id],
                          Offers(next, steps[1..], id));
      } else {
        StaysAbsent(db, steps[0], id);
        ColumnsComeFromOffers(next, steps[1..], id);
      }
    }
  }

  lemma StaysAbsent(db: Db, step: Step, id: AttemptId)
    requires id !in db.attempts
    requires step.DoUpsert? && step.request.id == id ==> !Takes(db, step.request)
    ensures id !in Apply(db, step).attempts
  {
    if step.DoUpsert? {
      RefusedIsExact(db, step.request);
    } else {
      OnlyUpsertsCreate(db, step, id);
    }
  }

  /** The expiry is an anchor: no run changes it once it is set. */
  lemma ExpiryNeverMoves(db: Db, steps: seq<Step>, id: AttemptId)
    requires id in db.attempts && db.attempts[id].expiresAt.Some?
    ensures id in Run(db, steps).attempts && Run(db, steps).attempts[id].expiresAt == db.attempts[id].expiresAt
  {
    RowFollowsOffers(db, steps, id);
    var xs := [db.attempts[id].expiresAt] + Expiries(Offers(db, steps, id));
    assert xs[0].Some?;
  }
}
