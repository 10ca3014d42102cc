/** Admission of new attempts under concurrency (app/storage/repository.py): each worker runs
    begin, read, decide, commit as separate steps.  On SQLite `BEGIN IMMEDIATE` takes the one write lock
    before the count is read; on other databases nothing does. */
module AttemptCap {
  import opened Common

  type AttemptId = string
  type RootId = string
  type WorkerId = nat

  datatype Request = Request(id: AttemptId, rootId: RootId)

  /** Where a worker is inside one upsert. */
  datatype Phase =
    | Idle
    | Begun(request: Request)
    | Counted(request: Request, present: bool, count: nat)
    | Inserting(request: Request)
    | Refusing(request: Request)
    | Reusing(request: Request)

  /** `table` is what has been committed: attempt id to root id. */
  datatype Sys = Sys(table: map<AttemptId, RootId>, lock: Option<WorkerId>, phases: map<WorkerId, Phase>)

  datatype Step =
    | Begin(worker: WorkerId, request: Request)
    | Read(worker: WorkerId)
    | Decide(worker: WorkerId)
    | Commit(worker: WorkerId)
    | Rollback(worker: WorkerId)

  function PhaseOf(s: Sys, w: WorkerId): Phase {
    if w in s.phases then s.phases[w] else Idle
  }

  function At(s: Sys, w: WorkerId, p: Phase): Sys {
    s.(phases := s.phases[w := p])
  }

  function IdsOf(table: map<AttemptId, RootId>, rootId: RootId): set<AttemptId> {
    set id | id in table && table[id] == rootId
  }

  /** The admission query: how many committed attempts a root has. */
  function CountFor(table: map<AttemptId, RootId>, rootId: RootId): nat {
    |IdsOf(table, rootId)|
  }

  function Finish(s: Sys, w: WorkerId): Sys {
    At(s, w, Idle).(lock := if s.lock == Some(w) then None else s.lock)
  }

  /** A step that is not enabled changes nothing; an insert of an existing primary key rolls back. */
  function Apply(s: Sys, step: Step, sqlite: bool, limit: nat): Sys {
    var w := step.worker;
    var p := PhaseOf(s, w);
    match step
    case Begin(_, r) =>
      if p != Idle || (sqlite && s.lock.Some?) then s
      else At(s, w, Begun(r)).(lock := if sqlite then Some(w) else s.lock)
    case Read(_) =>
      if !p.Begun? then s
      else At(s, w, Counted(p.request, p.request.id in s.table, CountFor(s.table, p.request.rootId)))
    case Decide(_) =>
      if !p.Counted? then s
      else At(s, w, if p.present then Reusing(p.request)
                    else if p.count >= limit then Refusing(p.request) else Inserting(p.request))
    case Commit(_) =>
      if p.Inserting? && p.request.id !in s.table
      then Finish(s.(table := s.table[p.request.id := p.request.rootId]), w)
      else if p.Inserting? || p.Refusing? || p.Reusing? then Finish(s, w)
      else s
    case Rollback(_) => if p == Idle then s else Finish(s, w)
  }

  function Run(s: Sys, steps: seq<Step>, sqlite: bool, limit: nat): Sys
    decreases |steps|
  {
    if steps == [] then s else Run(Apply(s, steps[0], sqlite, limit), steps[1..], sqlite, limit)
  }

  ghost predicate Capped(table: map<AttemptId, RootId>, limit: nat) {
    forall root: RootId :: CountFor(table, root) <= limit
  }

  /** Only the lock holder is inside an upsert, and what it read is still true. */
  ghost predicate Inv(s: Sys, limit: nat) {
    && Capped(s.table, limit)
    && (forall w: WorkerId :: PhaseOf(s, w) != Idle ==> s.lock == Some(w))
    && (forall w: WorkerId :: var p := PhaseOf(s, w);
          && (p.Counted? ==> p.count == CountFor(s.table, p.request.rootId) && (p.present <==> p.request.id in s.table))
          && (p.Inserting? ==> p.request.id !in s.table && CountFor(s.table, p.request.rootId) < limit)
          && (p.Refusing? ==> p.request.id !in s.table && CountFor(s.table, p.request.rootId) >= limit))
  }

  lemma InsertGrowsByOne(table: map<AttemptId, RootId>, r: Request, root: RootId)
    requires r.id !in table
    ensures CountFor(table[r.id := r.rootId], root) == CountFor(table, root) + if root == r.rootId then 1 else 0
  {
    if root == r.rootId {
      assert IdsOf(table[r.id := r.rootId], root) == IdsOf(table, root) + {r.id};
    } else {
      assert IdsOf(table[r.id := r.rootId], root) == IdsOf(table, root);
    }
  }

  lemma InsertKeepsCap(table: map<AttemptId, RootId>, r: Request, limit: nat)
    requires Capped(table, limit) && r.id !in table && CountFor(table, r.rootId) < limit
    ensures Capped(table[r.id := r.rootId], limit)
  {
    var grown := table[r.id := r.rootId];
    forall root: RootId ensures CountFor(grown, root) <= limit {
      InsertGrowsByOne(table, r, root);
    }
  }

  lemma StepKeepsInv(s: Sys, step: Step, limit: nat)
    requires Inv(s, limit)
    ensures Inv(Apply(s, step, true, limit), limit)
  {
    var p, s' := PhaseOf(s, step.worker), Apply(s, step, true, limit);
    assert forall w: WorkerId | w != step.worker :: PhaseOf(s', w) == PhaseOf(s, w);
    if step.Commit? && p.Inserting? {
      InsertKeepsCap(s.table, p.request, limit);
    }
  }

  lemma {:induction false} RunKeepsInv(s: Sys, steps: seq<Step>, limit: nat)
    requires Inv(s, limit)
    ensures Inv(Run(s, steps, true, limit), limit)
    decreases |steps|
  {
    if steps != [] {
      StepKeepsInv(s, steps[0], limit);
      RunKeepsInv(Apply(s, steps[0], true, limit), steps[1..], limit);
    }
  }

  /** On SQLite, whatever the workers interleave, no root ever has more attempts than the limit. */
  lemma NeverMoreThanLimit(table: map<AttemptId, RootId>, steps: seq<Step>, limit: nat, root: RootId)
    requires Capped(table, limit)
    ensures CountFor(Run(Sys(table, None, map[]), steps, true, limit).table, root) <= limit
  {
    RunKeepsInv(Sys(table, None, map[]), steps, limit);
  }

  /** On SQLite a step adds a row only when it commits an admitted request: a new id, for a root that is
      still below the limit at that moment.  In particular a refused request adds none. */
  lemma OnlyAdmittedRequestsInsert(s: Sys, step: Step, limit: nat)
    requires Inv(s, limit)
    ensures var p := PhaseOf(s, step.worker);
            Apply(s, step, true, limit).table
            == if step.Commit? && p.Inserting? then s.table[p.request.id := p.request.rootId] else s.table
    ensures var p := PhaseOf(s, step.worker);
            step.Commit? && p.Inserting? ==> p.request.id !in s.table && CountFor(s.table, p.request.rootId) < limit
    ensures var p := PhaseOf(s, step.worker);
            step.Decide? && p.Counted? ==>
              (PhaseOf(Apply(s, step, true, limit), step.worker).Refusing?
               <==> p.request.id !in s.table && CountFor(s.table, p.request.rootId) >= limit)
  {
  }

  /** The step at `k` commits an admitted request for `id`, whose root is still below the limit then. */
  ghost predicate InsertsAt(s: Sys, steps: seq<Step>, limit: nat, k: nat, id: AttemptId)
    requires k < |steps|
  {
    var before := Run(s, steps[..k], true, limit);
    var p := PhaseOf(before, steps[k].worker);
    steps[k].Commit? && p.Inserting? && p.request.id == id
    && id !in before.table && CountFor(before.table, p.request.rootId) < limit
  }

  /** Every row that a run on SQLite adds was inserted by an admitted request while its root was below the
      limit; so a refused request inserts none. */
  lemma {:induction false} AddedBelowLimit(s: Sys, steps: seq<Step>, limit: nat, id: AttemptId) returns (k: nat)
    requires Inv(s, limit) && id !in s.table && id in Run(s, steps, true, limit).table
    ensures k < |steps| && InsertsAt(s, steps, limit, k, id)
    decreases |steps|
  {
    var s' := Apply(s, steps[0], true, limit);
    OnlyAdmittedRequestsInsert(s, steps[0], limit);
    if id in s'.table {
      k := 0;
      assert steps[..0] == [];
    } else {
      StepKeepsInv(s, steps[0], limit);
      var later := AddedBelowLimit(s', steps[1..], limit, id);
      k := later + 1;
      assert steps[..k][1..] == steps[1..][..later];
    }
  }

  // ---------- Without the lock ----------

  /** The phase may still add a row to the root: it read a count below the limit. */
  predicate Admitted(p: Phase, root: RootId, limit: nat) {
    (p.Counted? && p.request.rootId == root && p.count < limit) || (p.Inserting? && p.request.rootId == root)
  }

  function AdmittedBy(s: Sys, workers: set<WorkerId>, root: RootId, limit: nat): set<WorkerId> {
    set w | w in workers && Admitted(PhaseOf(s, w), root, limit)
  }

  /** Once the root is full, whoever was admitted before is all that can still add to it. */
  predicate Contained(s: Sys, workers: set<WorkerId>, root: RootId, limit: nat) {
    var count := CountFor(s.table, root);
    count < limit || count + |AdmittedBy(s, workers, root, limit)| < limit + |workers|
  }

  /** Only a commit adds an attempt, and it uses up the admission of its worker. */
  lemma StepAdmits(s: Sys, step: Step, sqlite: bool, limit: nat, workers: set<WorkerId>, root: RootId)
    requires step.worker in workers
    ensures var s' := Apply(s, step, sqlite, limit);
            var before, after := AdmittedBy(s, workers, root, limit), AdmittedBy(s', workers, root, limit);
            && (CountFor(s'.table, root) == CountFor(s.table, root) && CountFor(s.table, root) >= limit
                ==> after <= before)
            && (CountFor(s'.table, root) != CountFor(s.table, root) ==>
                  && CountFor(s'.table, root) == CountFor(s.table, root) + 1
                  && step.worker in before && after == before - {step.worker})
  {
    var p, s' := PhaseOf(s, step.worker), Apply(s, step, sqlite, limit);
    assert forall w: WorkerId | w != step.worker :: PhaseOf(s', w) == PhaseOf(s, w);
    if step.Commit? && p.Inserting? && p.request.id !in s.table {
      InsertGrowsByOne(s.table, p.request, root);
    }
  }

  lemma StepKeepsContained(s: Sys, step: Step, sqlite: bool, limit: nat, workers: set<WorkerId>, root: RootId)
    requires step.worker in workers && Contained(s, workers, root, limit)
    ensures Contained(Apply(s, step, sqlite, limit), workers, root, limit)
  {
    StepAdmits(s, step, sqlite, limit, workers, root);
    var before, after := AdmittedBy(s, workers, root, limit),
        AdmittedBy(Apply(s, step, sqlite, limit), workers, root, limit);
    if CountFor(Apply(s, step, sqlite, limit).table, root) == CountFor(s.table, root) {
      if CountFor(s.table, root) >= limit {
        SubsetSizes(after, before);
      }
    } else {
      SubsetSizes(before, workers);
      assert |after| == |before| - 1;
    }
  }

  lemma {:induction false} RunKeepsContained(s: Sys, steps: seq<Step>, sqlite: bool, limit: nat,
                                             workers: set<WorkerId>, root: RootId)
    requires (forall i | 0 <= i < |steps| :: steps[i].worker in workers) && Contained(s, workers, root, limit)
    ensures Contained(Run(s, steps, sqlite, limit), workers, root, limit)
    decreases |steps|
  {
    if steps != [] {
      StepKeepsContained(s, steps[0], sqlite, limit, workers, root);
      RunKeepsContained(Apply(s, steps[0], sqlite, limit), steps[1..], sqlite, limit, workers, root);
    }
  }

  /** With or without the lock, n workers take a root to at most n - 1 attempts above the limit. */
  lemma OverrunIsBounded(table: map<AttemptId, RootId>, steps: seq<Step>, sqlite: bool, limit: nat,
                         workers: set<WorkerId>, root: RootId)
    requires workers != {} && (forall i | 0 <= i < |steps| :: steps[i].worker in workers)
             && CountFor(table, root) <= limit
    ensures CountFor(Run(Sys(table, None, map[]), steps, sqlite, limit).table, root) <= limit + |workers| - 1
  {
    assert AdmittedBy(Sys(table, None, map[]), workers, root, limit) == {};
    RunKeepsContained(Sys(table, None, map[]), steps, sqlite, limit, workers, root);
  }

  /** Without it the cap fails at every limit: two workers that both count before either commits
      take a root from one below the limit to one above it. */
  lemma UnlockedWorkersExceedLimit(table: map<AttemptId, RootId>, root: RootId, a: AttemptId, b: AttemptId, limit: nat)
    requires limit > 0 && CountFor(table, root) == limit - 1 && a != b && a !in table && b !in table
    ensures var ra, rb := Request(a, root), Request(b, root);
            var steps := [Begin(0, ra), Begin(1, rb), Read(0), Read(1), Decide(0), Decide(1), Commit(0), Commit(1)];
            CountFor(Run(Sys(table, None, map[]), steps, false, limit).table, root) == limit + 1
  {
    var ra, rb := Request(a, root), Request(b, root);
    var s := Sys(table, None, map[]);
    var s1 := Run(s, [Begin(0, ra), Begin(1, rb), Read(0), Read(1)], false, limit);
    RunFour(s, Begin(0, ra), Begin(1, rb), Read(0), Read(1), false, limit);
    assert PhaseOf(s1, 0) == Counted(ra, false, limit - 1) && PhaseOf(s1, 1) == Counted(rb, false, limit - 1);
    RunFour(s1, Decide(0), Decide(1), Commit(0), Commit(1), false, limit);
    var s2 := Run(s1, [Decide(0), Decide(1), Commit(0), Commit(1)], false, limit);
    assert s2.table == table[a := root][b := root];
    InsertGrowsByOne(table, ra, root);
    InsertGrowsByOne(table[a := root], rb, root);
    RunAppend(s, [Begin(0, ra), Begin(1, rb), Read(0), Read(1)], [Decide(0), Decide(1), Commit(0), Commit(1)], false,
              limit);
    assert [Begin(0, ra), Begin(1, rb), Read(0), Read(1)] + [Decide(0), Decide(1), Commit(0), Commit(1)]
        == [Begin(0, ra), Begin(1, rb), Read(0), Read(1), Decide(0), Decide(1), Commit(0), Commit(1)];
  }

  lemma {:induction false} RunAppend(s: Sys, xs: seq<Step>, ys: seq<Step>, sqlite: bool, limit: nat)
    ensures Run(s, xs + ys, sqlite, limit) == Run(Run(s, xs, sqlite, limit), ys, sqlite, limit)
    decreases |xs|
  {
    if xs == [] {
      assert xs + ys == ys;
    } else {
      assert (xs + ys)[1..] == xs[1..] + ys;
      RunAppend(Apply(s, xs[0], sqlite, limit), xs[1..], ys, sqlite, limit);
    }
  }

  lemma RunFour(s: Sys, a: Step, b: Step, c: Step, d: Step, sqlite: bool, limit: nat)
    ensures Run(s, [a, b, c, d], sqlite, limit)
         == Apply(Apply(Apply(Apply(s, a, sqlite, limit), b, sqlite, limit), c, sqlite, limit), d, sqlite, limit)
  {
    assert [a, b, c, d][1..] == [b, c, d] && [b, c, d][1..] == [c, d] && [c, d][1..] == [d] && [d][1..] == [];
    var two := Apply(Apply(s, a, sqlite, limit), b, sqlite, limit);
    assert Run(s, [a, b, c, d], sqlite, limit) == Run(Apply(s, a, sqlite, limit), [b, c, d], sqlite, limit)
        == Run(two, [c, d], sqlite, limit);
    assert Run(two, [c, d], sqlite, limit) == Run(Apply(two, c, sqlite, limit), [d], sqlite, limit);
  }
}
