/** What every run of the scan-rotation ledger keeps: one open rotation, first results, exact counts and
    exact completion, and how many round-robin cycles complete a rotation. */
module ScanRotationRuns {
  import opened Common
  import opened ScanRotation
  import RR = RoundRobin

  datatype Step =
    | PrepareScan(runtime: string, exchange: set<Symbol>, eligible: set<Symbol>, startedAt: int)
    | RecordScan(cycle: Cycle)

  function Apply(db: Db, step: Step): Db {
    match step
    case PrepareScan(runtime, exchange, eligible, startedAt) => Prepare(db, runtime, exchange, eligible, startedAt)
    case RecordScan(c) => Record(db, c)
  }

  function Run(db: Db, steps: seq<Step>): Db
    decreases |steps|
  {
    if steps == [] then db else Apply(Run(db, steps[..|steps| - 1]), steps[|steps| - 1])
  }

  const NOTHING := Db([], map[])

  // ---------- The invariant ----------

  predicate AtMostOneOpen(rotations: seq<Rotation>) {
    forall i, j | 0 <= i < |rotations| && 0 <= j < |rotations| ::
      rotations[i].status == Open && rotations[j].status == Open ==> i == j
  }

  /** Every eligible symbol has a scan result. */
  predicate Full(results: map<(nat, Symbol), Terminal>, k: nat, eligible: set<Symbol>) {
    forall s | s in eligible :: (k, s) in results && Scanned(results[(k, s)])
  }

  /** No eligible symbol was recorded with anything but a scan status. */
  predicate AllScanned(results: map<(nat, Symbol), Terminal>, k: nat, eligible: set<Symbol>) {
    forall s | s in eligible && (k, s) in results :: Scanned(results[(k, s)])
  }

  /** The stored counts are those of the stored results; only a full rotation is COMPLETED, and a full
      one stays uncompleted only while it has nothing to scan. */
  predicate Truthful(results: map<(nat, Symbol), Terminal>, k: nat, r: Rotation) {
    && r.counts == CountsOf(results, k, r.eligible)
    && (r.status == Completed ==> Full(results, k, r.eligible))
    && (Full(results, k, r.eligible) && r.eligible != {} ==> r.status == Completed)
  }

  ghost predicate Inv(db: Db) {
    && AtMostOneOpen(db.rotations)
    && (forall key | key in db.results :: key.0 < |db.rotations|)
    && (forall k: nat | k < |db.rotations| :: Truthful(db.results, k, db.rotations[k]))
  }

  // ---------- Counting ----------

  lemma SizesAddUp(all: set<Symbol>, a: set<Symbol>, b: set<Symbol>, c: set<Symbol>)
    requires a !! b !! c && all == a + b + c
    ensures |all| == |a| + |b| + |c|
  {
  }

  lemma CoveredIsParted(results: map<(nat, Symbol), Terminal>, k: nat, eligible: set<Symbol>)
    ensures |CoveredBy(results, k, eligible)|
         == |Having(results, k, eligible, ScannedOk)| + |Having(results, k, eligible, ScanFailed)|
             + |Having(results, k, eligible, ScanSkipped)|
  {
    SizesAddUp(CoveredBy(results, k, eligible), Having(results, k, eligible, ScannedOk),
               Having(results, k, eligible, ScanFailed), Having(results, k, eligible, ScanSkipped));
  }

  lemma CoveredIsScheduled(results: map<(nat, Symbol), Terminal>, k: nat, eligible: set<Symbol>)
    ensures var covered, all := CoveredBy(results, k, eligible), ScheduledIn(results, k, eligible);
            |covered| <= |all| && (|covered| == |all| <==> AllScanned(results, k, eligible))
  {
    var covered, all := CoveredBy(results, k, eligible), ScheduledIn(results, k, eligible);
    SubsetSizes(covered, all);
    if covered == all {
      forall s | s in eligible && (k, s) in results ensures Scanned(results[(k, s)]) {
        assert s in all;
      }
    }
  }

  lemma CoveredIsEligible(results: map<(nat, Symbol), Terminal>, k: nat, eligible: set<Symbol>)
    ensures |CoveredBy(results, k, eligible)| == |eligible| <==> Full(results, k, eligible)
    ensures |ScheduledIn(results, k, eligible)| <= |eligible|
  {
    var covered := CoveredBy(results, k, eligible);
    SubsetSizes(covered, eligible);
    SubsetSizes(ScheduledIn(results, k, eligible), eligible);
    if covered == eligible {
      forall s | s in eligible ensures (k, s) in results && Scanned(results[(k, s)]) {
        assert s in covered;
      }
    }
  }

  /** OK, failed and skipped part the covered symbols; they part all results of eligible symbols exactly
      when every such result is a scan status. */
  lemma CountsPart(results: map<(nat, Symbol), Terminal>, k: nat, eligible: set<Symbol>)
    ensures var n := CountsOf(results, k, eligible);
            && n.ok + n.failed + n.skipped == n.covered <= n.scheduled <= |eligible|
            && (n.covered == n.scheduled <==> AllScanned(results, k, eligible))
            && (n.covered == |eligible| <==> Full(results, k, eligible))
  {
    CoveredIsParted(results, k, eligible);
    CoveredIsScheduled(results, k, eligible);
    CoveredIsEligible(results, k, eligible);
  }

  lemma NoResultsNoCounts(results: map<(nat, Symbol), Terminal>, k: nat, eligible: set<Symbol>)
    requires forall key | key in results :: key.0 != k
    ensures CountsOf(results, k, eligible) == NO_COUNTS
  {
    assert CoveredBy(results, k, eligible) == {};
    assert ScheduledIn(results, k, eligible) == {};
    CountsPart(results, k, eligible);
    assert ExcludedIn(results, k) == {};
  }

  /** Two result tables agree on one rotation. */
  ghost predicate AgreeOn(was: map<(nat, Symbol), Terminal>, now: map<(nat, Symbol), Terminal>, k: nat) {
    && (forall s: Symbol :: (k, s) in was <==> (k, s) in now)
    && forall s: Symbol | (k, s) in was :: now[(k, s)] == was[(k, s)]
  }

  lemma AgreeingCounts(was: map<(nat, Symbol), Terminal>, now: map<(nat, Symbol), Terminal>, k: nat,
                       eligible: set<Symbol>)
    requires AgreeOn(was, now, k)
    ensures CountsOf(now, k, eligible) == CountsOf(was, k, eligible)
  {
    assert ScheduledIn(now, k, eligible) == ScheduledIn(was, k, eligible);
    assert forall t :: Having(now, k, eligible, t) == Having(was, k, eligible, t);
    assert CoveredBy(now, k, eligible) == CoveredBy(was, k, eligible);
    assert ExcludedIn(now, k) == ExcludedIn(was, k) by {
      assert forall key: (nat, Symbol) | key.0 == k :: key == (k, key.1);
    }
  }

  lemma ElsewhereUntouched(results: map<(nat, Symbol), Terminal>, k: nat, reported: map<Symbol, Terminal>, other: nat,
                           r: Rotation)
    requires other != k && Truthful(results, other, r)
    ensures Truthful(WithResults(results, k, reported), other, r)
  {
    var after := WithResults(results, k, reported);
    assert AgreeOn(results, after, other);
    AgreeingCounts(results, after, other, r.eligible);
  }

  // ---------- Steps ----------

  lemma EnsureKeepsInv(db: Db, runtime: string, exchange: set<Symbol>, eligible: set<Symbol>, startedAt: int,
                       closedAt: int)
    requires Inv(db)
    ensures var e := EnsureRotation(db.rotations, runtime, exchange, eligible, startedAt, closedAt);
            && |db.rotations| <= |e.0| && Inv(db.(rotations := e.0))
            && forall k | 0 <= k < |db.rotations| && db.rotations[k].status != Open :: e.0[k] == db.rotations[k]
  {
    var (rotations, k) := EnsureRotation(db.rotations, runtime, exchange, eligible, startedAt, closedAt);
    if k == |db.rotations| {
      forall i: nat | i < |rotations| ensures Truthful(db.results, i, rotations[i]) {
        if i == k {
          NoResultsNoCounts(db.results, k, eligible);
        } else {
          assert Truthful(db.results, i, db.rotations[i]);
        }
      }
    }
  }

  lemma EnsureKeepsOneOpen(rotations: seq<Rotation>, c: Cycle)
    requires AtMostOneOpen(rotations)
    ensures AtMostOneOpen(EnsureRotation(rotations, c.runtime, c.exchange, c.eligible, c.startedAt, c.completedAt).0)
  {
  }

  /** A rotation after a recorded cycle, with `results` the results after it. */
  predicate IsSettled(rotations: seq<Rotation>, after: seq<Rotation>, k: nat, results: map<(nat, Symbol), Terminal>,
                      c: Cycle) {
    && k < |rotations| && rotations[k].status == Open && Reusable(rotations[k], c.runtime, c.exchange, c.eligible)
    && after == rotations[k := Settled(rotations[k], CountsOf(results, k, c.eligible), c.completedAt)]
  }

  lemma SettledExactly(rotations: seq<Rotation>, after: seq<Rotation>, k: nat, results: map<(nat, Symbol), Terminal>,
                       c: Cycle)
    requires AtMostOneOpen(rotations) && IsSettled(rotations, after, k, results, c)
    ensures AtMostOneOpen(after) && Reusable(after[k], c.runtime, c.exchange, c.eligible)
    ensures after[k].status == if Full(results, k, c.eligible) then Completed else Open
  {
    CountsPart(results, k, c.eligible);
  }

  lemma SettledIsTruthful(rotations: seq<Rotation>, after: seq<Rotation>, k: nat,
                          results: map<(nat, Symbol), Terminal>, c: Cycle)
    requires IsSettled(rotations, after, k, results, c)
    ensures Truthful(results, k, after[k])
  {
    CountsPart(results, k, c.eligible);
  }

  lemma RecordKeepsInv(db: Db, c: Cycle)
    requires Inv(db) && !Fails(db, c)
    ensures Inv(Record(db, c))
  {
    EnsureKeepsInv(db, c.runtime, c.exchange, c.eligible, c.startedAt, c.completedAt);
    var (rotations, k) := EnsureRotation(db.rotations, c.runtime, c.exchange, c.eligible, c.startedAt, c.completedAt);
    var after := Record(db, c);
    SettledExactly(rotations, after.rotations, k, after.results, c);
    forall i: nat | i < |rotations| ensures Truthful(after.results, i, after.rotations[i]) {
      if i == k {
        SettledIsTruthful(rotations, after.rotations, k, after.results, c);
      } else {
        ElsewhereUntouched(db.results, k, Reported(c), i, rotations[i]);
      }
    }
  }

  lemma {:induction false} RunKeepsInv(steps: seq<Step>)
    ensures Inv(Run(NOTHING, steps))
    decreases |steps|
  {
    if steps != [] {
      var before := steps[..|steps| - 1];
      RunKeepsInv(before);
      var db := Run(NOTHING, before);
      match steps[|steps| - 1]
      case PrepareScan(runtime, exchange, eligible, startedAt) =>
        EnsureKeepsInv(db, runtime, exchange, eligible, startedAt, startedAt);
      case RecordScan(c) =>
        if !Fails(db, c) {
          RecordKeepsInv(db, c);
        }
    }
  }

  // ---------- Theorems ----------

  /** At any point of any run at most one rotation is OPEN. */
  lemma OneOpenRotation(steps: seq<Step>, i: nat, j: nat)
    requires var rotations := Run(NOTHING, steps).rotations;
             i < |rotations| && j < |rotations| && rotations[i].status == Open && rotations[j].status == Open
    ensures i == j
  {
    RunKeepsInv(steps);
  }

  /** The stored counts part the results: they add up to the scheduled count exactly when no eligible
      symbol was recorded with anything but a scan status. */
  lemma StoredCountsPart(steps: seq<Step>, k: nat)
    requires k < |Run(NOTHING, steps).rotations|
    ensures var db := Run(NOTHING, steps);
            var r := db.rotations[k];
            && r.counts.ok + r.counts.failed + r.counts.skipped == r.counts.covered
            && (r.counts.covered == r.counts.scheduled <==> AllScanned(db.results, k, r.eligible))
  {
    RunKeepsInv(steps);
    CountsPart(Run(NOTHING, steps).results, k, Run(NOTHING, steps).rotations[k].eligible);
  }

  /** A rotation with something to scan is COMPLETED exactly when every eligible symbol has a scan result. */
  lemma CompletedExactly(steps: seq<Step>, k: nat)
    requires k < |Run(NOTHING, steps).rotations| && Run(NOTHING, steps).rotations[k].eligible != {}
    ensures var db := Run(NOTHING, steps);
            db.rotations[k].status == Completed <==> Full(db.results, k, db.rotations[k].eligible)
  {
    RunKeepsInv(steps);
  }

  lemma {:induction false} RunGrows(db: Db, steps: seq<Step>)
    ensures |db.rotations| <= |Run(db, steps).rotations|
    ensures forall key | key in db.results ::
              key in Run(db, steps).results && Run(db, steps).results[key] == db.results[key]
    ensures forall k | 0 <= k < |db.rotations| :: Run(db, steps).rotations[k].eligible == db.rotations[k].eligible
    decreases |steps|
  {
    if steps != [] {
      RunGrows(db, steps[..|steps| - 1]);
    }
  }

  /** Within a rotation each symbol keeps its first result, whatever happens later. */
  lemma {:induction false} FirstResultStays(db: Db, steps: seq<Step>, k: nat, s: Symbol)
    requires (k, s) in db.results
    ensures (k, s) in Run(db, steps).results && Run(db, steps).results[(k, s)] == db.results[(k, s)]
    decreases |steps|
  {
    if steps != [] {
      FirstResultStays(db, steps[..|steps| - 1], k, s);
    }
  }

  /** A closed rotation and its results, unchanged. */
  ghost predicate Frozen(was: Db, now: Db, k: nat) {
    k < |was.rotations| <= |now.rotations| && now.rotations[k] == was.rotations[k]
        && AgreeOn(was.results, now.results, k)
  }

  lemma StepFreezes(db: Db, step: Step, k: nat)
    requires k < |db.rotations| && db.rotations[k].status != Open
    ensures Frozen(db, Apply(db, step), k)
  {
    match step
    case PrepareScan(runtime, exchange, eligible, startedAt) =>
    case RecordScan(c) =>
      if !Fails(db, c) {
        var j := RotationOf(db, c);
        assert j != k;
        assert AgreeOn(db.results, WithResults(db.results, j, Reported(c)), k);
      }
  }

  /** Once a rotation is no longer OPEN nothing about it changes. */
  lemma {:induction false} ClosedRotationsAreFrozen(db: Db, steps: seq<Step>, k: nat)
    requires k < |db.rotations| && db.rotations[k].status != Open
    ensures Frozen(db, Run(db, steps), k)
    decreases |steps|
  {
    if steps != [] {
      ClosedRotationsAreFrozen(db, steps[..|steps| - 1], k);
      StepFreezes(Run(db, steps[..|steps| - 1]), steps[|steps| - 1], k);
    }
  }

  lemma CoverageNeverFalls(before: seq<Step>, steps: seq<Step>, k: nat)
    requires k < |Run(NOTHING, before).rotations|
    ensures k < |Run(NOTHING, before + steps).rotations|
    ensures var was, now := Run(NOTHING, before).rotations[k].counts, Run(NOTHING, before + steps).rotations[k].counts;
            was.ok <= now.ok && was.failed <= now.failed && was.skipped <= now.skipped && was.covered <= now.covered
  {
    var db := Run(NOTHING, before);
    RunInParts(NOTHING, before, steps);
    RunGrows(db, steps);
    RunKeepsInv(before);
    RunKeepsInv(before + steps);
    var after, eligible := Run(db, steps), db.rotations[k].eligible;
    HavingGrows(db.results, after.results, k, eligible, ScannedOk);
    HavingGrows(db.results, after.results, k, eligible, ScanFailed);
    HavingGrows(db.results, after.results, k, eligible, ScanSkipped);
    CountsPart(db.results, k, eligible);
    CountsPart(after.results, k, eligible);
  }

  lemma HavingGrows(was: map<(nat, Symbol), Terminal>, now: map<(nat, Symbol), Terminal>, k: nat,
                    eligible: set<Symbol>, t: Terminal)
    requires forall key | key in was :: key in now && now[key] == was[key]
    ensures |Having(was, k, eligible, t)| <= |Having(now, k, eligible, t)|
  {
    SubsetSizes(Having(was, k, eligible, t), Having(now, k, eligible, t));
  }

  lemma {:induction false} RunInParts(db: Db, first: seq<Step>, second: seq<Step>)
    ensures Run(db, first + second) == Run(Run(db, first), second)
    decreases |second|
  {
    if second == [] {
      assert first + second == first;
    } else {
      var n := |second| - 1;
      assert (first + second)[..|first + second| - 1] == first + second[..n];
      RunInParts(db, first, second[..n]);
    }
  }

  /** Recording a cycle completes its rotation exactly when every eligible symbol then has a scan result,
      an empty universe included. */
  lemma RecordingCompletesExactly(steps: seq<Step>, c: Cycle)
    requires !Fails(Run(NOTHING, steps), c)
    ensures var k, db := RotationOf(Run(NOTHING, steps), c), Run(NOTHING, steps + [RecordScan(c)]);
            k < |db.rotations| && db.rotations[k].eligible == c.eligible
            && (db.rotations[k].status == Completed <==> Full(db.results, k, c.eligible))
  {
    var before := Run(NOTHING, steps);
    assert (steps + [RecordScan(c)])[..|steps|] == steps;
    CountsPart(Record(before, c).results, RotationOf(before, c), c.eligible);
  }

  // ---------- Round-robin cycles ----------

  predicate Distinct<T(==)>(s: seq<T>) { forall i, j | 0 <= i < j < |s| :: s[i] != s[j] }

  /** Cycle number `i` of a scan that walks `ordered` with a round-robin cursor and reports a scan status
      for everything it schedules. */
  ghost predicate RoundRobinCycle(first: Cycle, c: Cycle, ordered: seq<Symbol>, cursor: int, batch: nat, i: nat)
    requires ordered != []
  {
    && c.runtime == first.runtime && c.exchange == first.exchange && c.eligible == first.eligible
    && c.eligible == (set s | s in ordered)
    && Distinct(c.excluded)
    && c.scheduled == (set s | s in RR.RoundRobinSlice(ordered, RR.CursorAfter(|ordered|, cursor, batch, i), batch).0)
    && forall s | s in c.scheduled :: Scanned(ResultOf(c, s))
  }

  ghost predicate RoundRobinCycles(cycles: seq<Cycle>, ordered: seq<Symbol>, cursor: int, batch: nat) {
    && ordered != [] && Distinct(ordered) && batch > 0
    && forall i | 0 <= i < |cycles| :: RoundRobinCycle(cycles[0], cycles[i], ordered, cursor, batch, i)
  }

  function Recorded(db: Db, cycles: seq<Cycle>): Db
    decreases |cycles|
  {
    if cycles == [] then db else Record(Recorded(db, cycles[..|cycles| - 1]), cycles[|cycles| - 1])
  }

  /** What `polls` round-robin polls over `ordered` have selected. */
  function Polled(ordered: seq<Symbol>, cursor: int, batch: nat, polls: nat): set<Symbol>
    requires ordered != []
  {
    set d | d in RR.Covered(RR.Stream(|ordered|, cursor, batch, polls)) && d < |ordered| :: ordered[d]
  }

  lemma StreamInRange(n: nat, cursor: int, batch: nat, polls: nat)
    requires n > 0
    ensures forall d | d in RR.Covered(RR.Stream(n, cursor, batch, polls)) :: d < n
  {
    var s := RR.Stream(n, cursor, batch, polls);
    forall t | 0 <= t < |s| ensures s[t] < n {
      RR.StreamIsCircle(n, cursor, batch, polls, t);
    }
  }

  lemma PolledGrows(ordered: seq<Symbol>, cursor: int, batch: nat, polls: nat)
    requires ordered != [] && batch > 0
    ensures Polled(ordered, cursor, batch, polls + 1) == Polled(ordered, cursor, batch, polls)
              + set s | s in RR.RoundRobinSlice(ordered, RR.CursorAfter(|ordered|, cursor, batch, polls), batch).0
  {
    var n := |ordered|;
    var w := RR.Window(n, RR.CursorAfter(n, cursor, batch, polls), batch);
    var slice := RR.Pick(ordered, w);
    assert RR.Stream(n, cursor, batch, polls + 1) == RR.Stream(n, cursor, batch, polls) + w;
    forall s | s in Polled(ordered, cursor, batch, polls + 1)
      ensures s in Polled(ordered, cursor, batch, polls) || s in slice
    {
      var d :| d in RR.Covered(RR.Stream(n, cursor, batch, polls + 1)) && d < n && ordered[d] == s;
      if d in w {
        var i :| 0 <= i < |w| && w[i] == d;
        assert slice[i] == s;
      }
    }
    forall s | s in slice ensures s in Polled(ordered, cursor, batch, polls + 1) {
      var i :| 0 <= i < |slice| && slice[i] == s;
      assert w[i] in RR.Covered(RR.Stream(n, cursor, batch, polls + 1));
    }
  }

  lemma {:induction false} AllNumbers(numbers: set<nat>, n: nat)
    requires forall d | d in numbers :: d < n
    ensures |numbers| <= n
    ensures |numbers| == n <==> forall d: nat | d < n :: d in numbers
  {
    if n > 0 {
      AllNumbers(numbers - {n - 1}, n - 1);
      if n - 1 in numbers {
        assert numbers == numbers - {n - 1} + {n - 1};
      } else {
        assert numbers - {n - 1} == numbers;
      }
    } else {
      assert numbers == {};
    }
  }

  /** Everything has been polled from the ceil(n / span)-th poll on and not before. */
  lemma AllPolledExactly(ordered: seq<Symbol>, cursor: int, batch: nat, polls: nat)
    requires ordered != [] && Distinct(ordered) && batch > 0
    ensures (forall s | s in ordered :: s in Polled(ordered, cursor, batch, polls))
            <==> polls >= RR.CeilDiv(|ordered|, RR.Span(|ordered|, batch))
  {
    var n := |ordered|;
    var covered := RR.Covered(RR.Stream(n, cursor, batch, polls));
    StreamInRange(n, cursor, batch, polls);
    AllNumbers(covered, n);
    RR.PollsCover(n, cursor, batch, polls);
    if forall d: nat | d < n :: d in covered {
      forall s | s in ordered ensures s in Polled(ordered, cursor, batch, polls) {
        var d :| 0 <= d < n && ordered[d] == s;
        assert d in covered;
      }
    }
    if forall s | s in ordered :: s in Polled(ordered, cursor, batch, polls) {
      forall d: nat | d < n ensures d in covered {
        assert ordered[d] in Polled(ordered, cursor, batch, polls);
      }
    }
  }

  /** Exactly the symbols of `polled` have a result in rotation `k`, all of them scan statuses. */
  ghost predicate HasExactly(results: map<(nat, Symbol), Terminal>, k: nat, eligible: set<Symbol>,
                             polled: set<Symbol>) {
    forall s | s in eligible :: if s in polled then (k, s) in results && Scanned(results[(k, s)])
        else (k, s) !in results
  }

  /** Cycle `c` would be recorded in rotation `k`, in which exactly the polled symbols have a result. */
  ghost predicate Midway(db: Db, k: nat, c: Cycle, polled: set<Symbol>) {
    && AtMostOneOpen(db.rotations) && RotationOf(db, c) == k
    && HasExactly(db.results, k, c.eligible, polled)
  }

  lemma ReportAddsScheduled(results: map<(nat, Symbol), Terminal>, k: nat, c: Cycle, polled: set<Symbol>)
    requires HasExactly(results, k, c.eligible, polled)
    requires c.scheduled <= c.eligible && forall s | s in c.scheduled :: Scanned(ResultOf(c, s))
    ensures HasExactly(WithResults(results, k, Reported(c)), k, c.eligible, polled + c.scheduled)
  {
    var reported := Reported(c);
    forall s | s in c.eligible
      ensures s in reported <==> s in c.scheduled
      ensures s in reported ==> reported[s] == ResultOf(c, s)
    {
    }
  }

  lemma OpenAgain(rotations: seq<Rotation>, k: nat, c: Cycle)
    requires AtMostOneOpen(rotations) && k < |rotations| && rotations[k].status == Open
    requires Reusable(rotations[k], c.runtime, c.exchange, c.eligible)
    ensures EnsureRotation(rotations, c.runtime, c.exchange, c.eligible, c.startedAt, c.completedAt).1 == k
  {
  }

  lemma RecordMidway(db: Db, k: nat, c: Cycle, polled: set<Symbol>)
    requires Midway(db, k, c, polled) && Distinct(c.excluded)
    requires c.scheduled <= c.eligible && forall s | s in c.scheduled :: Scanned(ResultOf(c, s))
    ensures var after := Record(db, c);
            && k < |after.rotations|
            && (if c.eligible <= polled + c.scheduled then after.rotations[k].status == Completed
                else after.rotations[k].status == Open && Midway(after, k, c, polled + c.scheduled))
  {
    var rotations := EnsureRotation(db.rotations, c.runtime, c.exchange, c.eligible, c.startedAt, c.completedAt).0;
    var after := Record(db, c);
    EnsureKeepsOneOpen(db.rotations, c);
    assert !Fails(db, c);
    ReportAddsScheduled(db.results, k, c, polled);
    SettledExactly(rotations, after.rotations, k, after.results, c);
    if after.rotations[k].status == Open {
      OpenAgain(after.rotations, k, c);
    }
  }

  lemma SameRotation(db: Db, k: nat, first: Cycle, c: Cycle, polled: set<Symbol>)
    requires c.runtime == first.runtime && c.exchange == first.exchange && c.eligible == first.eligible
    requires Midway(db, k, first, polled)
    ensures Midway(db, k, c, polled)
  {
  }

  /** The cycle that polls everything for the first time. */
  function LastCycle(ordered: seq<Symbol>, batch: nat): nat
    requires ordered != [] && batch > 0
  {
    RR.CeilDiv(|ordered|, RR.Span(|ordered|, batch))
  }

  lemma NextCycle(db: Db, k: nat, first: Cycle, c: Cycle, ordered: seq<Symbol>, cursor: int, batch: nat, m: nat)
    requires ordered != [] && Distinct(ordered) && batch > 0
    requires RoundRobinCycle(first, c, ordered, cursor, batch, m)
    requires Midway(db, k, first, Polled(ordered, cursor, batch, m))
    ensures var after := Record(db, c);
            && k < |after.rotations|
            && (m + 1 >= LastCycle(ordered, batch) ==> after.rotations[k].status == Completed)
            && (m + 1 < LastCycle(ordered, batch) ==>
                  (after.rotations[k].status == Open && Midway(after, k, first, Polled(ordered, cursor, batch, m + 1))))
  {
    var polled, now := Polled(ordered, cursor, batch, m), Polled(ordered, cursor, batch, m + 1);
    SameRotation(db, k, first, c, polled);
    PolledGrows(ordered, cursor, batch, m);
    assert now == polled + c.scheduled;
    AllPolledExactly(ordered, cursor, batch, m + 1);
    assert c.eligible <= now <==> m + 1 >= LastCycle(ordered, batch);
    RecordMidway(db, k, c, polled);
    if m + 1 < LastCycle(ordered, batch) {
      SameRotation(Record(db, c), k, c, first, now);
    }
  }

  /** A fresh rotation scanned in round-robin batches is OPEN until the ceil(n / span)-th cycle, and that
      cycle completes it. */
  lemma {:induction false} RoundRobinCompletes(db: Db, k: nat, cycles: seq<Cycle>, ordered: seq<Symbol>, cursor: int,
                                               batch: nat)
    requires RoundRobinCycles(cycles, ordered, cursor, batch) && 0 < |cycles| <= LastCycle(ordered, batch)
    requires Midway(db, k, cycles[0], {})
    ensures k < |Recorded(db, cycles).rotations|
    ensures Recorded(db, cycles).rotations[k].status == if |cycles| < LastCycle(ordered, batch) then Open else Completed
    ensures |cycles| < LastCycle(ordered, batch) ==>
              Midway(Recorded(db, cycles), k, cycles[0], Polled(ordered, cursor, batch, |cycles|))
    decreases |cycles|
  {
    var m := |cycles| - 1;
    if m == 0 {
      assert Polled(ordered, cursor, batch, m) == {};
    } else {
      assert cycles[..m][0] == cycles[0];
      RoundRobinCompletes(db, k, cycles[..m], ordered, cursor, batch);
    }
    NextCycle(Recorded(db, cycles[..m]), k, cycles[0], cycles[m], ordered, cursor, batch, m);
  }

  /** The ledger's own fresh rotations qualify: in any run, the rotation a cycle would open has no result yet. */
  lemma NewRotationIsFresh(steps: seq<Step>, c: Cycle)
    requires RotationOf(Run(NOTHING, steps), c) == |Run(NOTHING, steps).rotations|
    ensures Midway(Run(NOTHING, steps), RotationOf(Run(NOTHING, steps), c), c, {})
  {
    RunKeepsInv(steps);
  }
}
