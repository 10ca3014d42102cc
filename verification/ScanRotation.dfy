/** The market-scan rotation ledger (app/storage/repository.py).  Symbols are already upper-case, and a
    universe fingerprint is the set of symbols it fingerprints. */
module ScanRotation {
  import opened Common

  /** A symbol in upper case; fingerprints ignore the empty string. */
  type Symbol = s: string | s != "" witness "BTCUSDT"

  datatype Terminal = ScannedOk | ScanFailed | ScanSkipped | Excluded | OtherStatus(name: string)

  datatype RotationStatus = Open | Completed | Incomplete | AbortedRestart

  datatype Counts = Counts(scheduled: nat, ok: nat, failed: nat, skipped: nat, covered: nat, excluded: nat)

  datatype Rotation = Rotation(
    runtime: string, exchange: set<Symbol>, eligible: set<Symbol>, status: RotationStatus,
    startedAt: int, completedAt: Option<int>, counts: Counts)

  /** A rotation's id is its position; `results` holds the first result of each symbol in each rotation. */
  datatype Db = Db(rotations: seq<Rotation>, results: map<(nat, Symbol), Terminal>)

  datatype Cycle = Cycle(
    runtime: string, startedAt: int, completedAt: int, exchange: set<Symbol>, eligible: set<Symbol>,
    excluded: seq<Symbol>, scheduled: set<Symbol>, results: map<Symbol, Terminal>)

  const NO_COUNTS := Counts(0, 0, 0, 0, 0, 0)

  predicate Scanned(t: Terminal) { t == ScannedOk || t == ScanFailed || t == ScanSkipped }

  // ---------- Choosing the rotation ----------

  /** The open rotation that started last, the earliest stored one on a tie. */
  function CurrentOpen(rotations: seq<Rotation>): (current: Option<nat>)
    ensures current.Some? ==> current.value < |rotations| && rotations[current.value].status == Open
    ensures current == None ==> forall i | 0 <= i < |rotations| :: rotations[i].status != Open
  {
    if rotations == [] then None
    else
      var n := |rotations| - 1;
      var before := CurrentOpen(rotations[..n]);
      if rotations[n].status == Open && (before == None || rotations[n].startedAt > rotations[before.value].startedAt)
      then Some(n) else before
  }

  predicate Reusable(r: Rotation, runtime: string, exchange: set<Symbol>, eligible: set<Symbol>) {
    r.runtime == runtime && r.exchange == exchange && r.eligible == eligible
  }

  /** Reuses the open rotation when runtime and universes match; otherwise closes it and opens a new one. */
  function EnsureRotation(rotations: seq<Rotation>, runtime: string, exchange: set<Symbol>, eligible: set<Symbol>,
                          startedAt: int, closedAt: int): (r: (seq<Rotation>, nat))
    ensures r.1 < |r.0| && r.0[r.1].status == Open && Reusable(r.0[r.1], runtime, exchange, eligible)
  {
    var current := CurrentOpen(rotations);
    if current.Some? && Reusable(rotations[current.value], runtime, exchange, eligible) then (rotations, current.value)
    else
      var closed := if current == None then rotations else
        var r := rotations[current.value];
        rotations[current.value := r.(status := if r.runtime != runtime then AbortedRestart else Incomplete,
                                      completedAt := Some(closedAt))];
      (closed + [Rotation(runtime, exchange, eligible, Open, startedAt, None, NO_COUNTS)], |closed|)
  }

  // ---------- Recording one cycle ----------

  /** The excluded symbols that would be inserted. */
  function NewExclusions(results: map<(nat, Symbol), Terminal>, k: nat, c: Cycle): set<Symbol> {
    set s | s in c.excluded && s !in c.eligible && (k, s) !in results
  }

  /** A symbol to be excluded is listed twice: the second insert violates the unique key. */
  predicate DuplicateExclusion(results: map<(nat, Symbol), Terminal>, k: nat, c: Cycle) {
    exists i, j | 0 <= i < j < |c.excluded| :: c.excluded[i] == c.excluded[j]
        && c.excluded[i] in NewExclusions(results, k, c)
  }

  function ResultOf(c: Cycle, s: Symbol): Terminal {
    if s in c.results then c.results[s] else ScanSkipped
  }

  /** What a cycle reports: exclusions outside the eligible universe, and a result for every scheduled symbol
      inside it. */
  function Exclusions(c: Cycle, listed: seq<Symbol>): map<Symbol, Terminal> {
    map s | s in listed && s !in c.eligible :: Excluded
  }

  function Outcomes(c: Cycle, symbols: set<Symbol>): map<Symbol, Terminal> {
    map s | s in symbols :: ResultOf(c, s)
  }

  function Reported(c: Cycle): map<Symbol, Terminal> {
    Outcomes(c, c.scheduled * c.eligible) + Exclusions(c, c.excluded)
  }

  /** First write wins: a symbol that already has a result in the rotation keeps it. */
  function WithResults(results: map<(nat, Symbol), Terminal>, k: nat,
                       reported: map<Symbol, Terminal>): map<(nat, Symbol), Terminal> {
    (map s | s in reported :: (k, s) := reported[s]) + results
  }

  lemma OneMore(base: map<(nat, Symbol), Terminal>, k: nat, reported: map<Symbol, Terminal>, s: Symbol, t: Terminal)
    requires s !in reported
    ensures var after := WithResults(base, k, reported);
            WithResults(base, k, reported[s := t]) == if (k, s) in after then after else after[(k, s) := t]
  {
  }

  lemma WithResultsAt(base: map<(nat, Symbol), Terminal>, k: nat, reported: map<Symbol, Terminal>, j: nat, s: Symbol)
    ensures (j, s) in WithResults(base, k, reported) <==> (j, s) in base || (j == k && s in reported)
    ensures (j, s) in base ==> WithResults(base, k, reported)[(j, s)] == base[(j, s)]
    ensures (j, s) !in base && j == k && s in reported ==> WithResults(base, k, reported)[(j, s)] == reported[s]
  {
  }

  lemma TwoParts(base: map<(nat, Symbol), Terminal>, k: nat, first: map<Symbol, Terminal>,
                 second: map<Symbol, Terminal>)
    ensures WithResults(WithResults(base, k, first), k, second) == WithResults(base, k, second + first)
  {
    var once, both := WithResults(base, k, first), WithResults(base, k, second + first);
    var twice := WithResults(once, k, second);
    forall key: (nat, Symbol)
      ensures key in twice <==> key in both
      ensures key in twice ==> twice[key] == both[key]
    {
      WithResultsAt(base, k, first, key.0, key.1);
      WithResultsAt(once, k, second, key.0, key.1);
      WithResultsAt(base, k, second + first, key.0, key.1);
      assert key == (key.0, key.1);
    }
  }

  /** The symbols of `universe` with a result in rotation `k`, with result `t`, and with a scan result. */
  function ScheduledIn(results: map<(nat, Symbol), Terminal>, k: nat, universe: set<Symbol>): set<Symbol> {
    set s | s in universe && (k, s) in results
  }

  function Having(results: map<(nat, Symbol), Terminal>, k: nat, universe: set<Symbol>, t: Terminal): set<Symbol> {
    set s | s in universe && (k, s) in results && results[(k, s)] == t
  }

  function CoveredBy(results: map<(nat, Symbol), Terminal>, k: nat, universe: set<Symbol>): set<Symbol> {
    set s | s in universe && (k, s) in results && Scanned(results[(k, s)])
  }

  function ExcludedIn(results: map<(nat, Symbol), Terminal>, k: nat): set<(nat, Symbol)> {
    set key | key in results && key.0 == k && results[key] == Excluded
  }

  function CountsOf(results: map<(nat, Symbol), Terminal>, k: nat, eligible: set<Symbol>): Counts {
    Counts(|ScheduledIn(results, k, eligible)|,
           |Having(results, k, eligible, ScannedOk)|,
           |Having(results, k, eligible, ScanFailed)|,
           |Having(results, k, eligible, ScanSkipped)|,
           |CoveredBy(results, k, eligible)|,
           |ExcludedIn(results, k)|)
  }

  function Settled(r: Rotation, counts: Counts, completedAt: int): Rotation {
    var counted := r.(counts := counts);
    if counts.covered == |r.eligible| && counts.scheduled == |r.eligible|
    then counted.(status := Completed, completedAt := Some(completedAt)) else counted
  }

  /** The rotation a cycle is recorded in. */
  function RotationOf(db: Db, c: Cycle): nat {
    EnsureRotation(db.rotations, c.runtime, c.exchange, c.eligible, c.startedAt, c.completedAt).1
  }

  predicate Fails(db: Db, c: Cycle) { DuplicateExclusion(db.results, RotationOf(db, c), c) }

  /** Nothing is stored when the cycle cannot be written. */
  function Record(db: Db, c: Cycle): Db {
    if Fails(db, c) then db
    else
      var (rotations, k) := EnsureRotation(db.rotations, c.runtime, c.exchange, c.eligible, c.startedAt, c.completedAt);
      var results := WithResults(db.results, k, Reported(c));
      Db(rotations[k := Settled(rotations[k], CountsOf(results, k, c.eligible), c.completedAt)], results)
  }

  function Prepare(db: Db, runtime: string, exchange: set<Symbol>, eligible: set<Symbol>, startedAt: int): Db {
    db.(rotations := EnsureRotation(db.rotations, runtime, exchange, eligible, startedAt, startedAt).0)
  }

  class Ledger {
    var rotations: seq<Rotation>
    var results: map<(nat, Symbol), Terminal>

    function State(): Db
      reads this
    {
      Db(rotations, results)
    }

    constructor ()
      ensures State() == Db([], map[])
    {
      rotations, results := [], map[];
    }

    method PrepareMarketScanRotation(runtime: string, exchange: set<Symbol>, eligible: set<Symbol>, startedAt: int)
      returns (id: nat)
      modifies this`rotations
      ensures State() == Prepare(old(State()), runtime, exchange, eligible, startedAt)
      ensures id < |rotations| && rotations[id].status == Open && Reusable(rotations[id], runtime, exchange, eligible)
    {
      id := OpenRotation(runtime, exchange, eligible, startedAt, startedAt);
    }

    method OpenRotation(runtime: string, exchange: set<Symbol>, eligible: set<Symbol>, startedAt: int, closedAt: int)
      returns (id: nat)
      modifies this`rotations
      ensures (rotations, id) == EnsureRotation(old(rotations), runtime, exchange, eligible, startedAt, closedAt)
    {
      var current := CurrentOpen(rotations);
      if current.Some? {
        var r := rotations[current.value];
        if r.runtime == runtime && r.exchange == exchange && r.eligible == eligible {
          return current.value;
        }
        rotations := rotations[current.value := r.(status := if r.runtime != runtime then AbortedRestart
                                                   else Incomplete, completedAt := Some(closedAt))];
      }
      id := |rotations|;
      rotations := rotations + [Rotation(runtime, exchange, eligible, Open, startedAt, None, NO_COUNTS)];
    }

    /** Stores one scan cycle, or nothing when an exclusion is listed twice. */
    method RecordMarketScanCycle(c: Cycle) returns (recorded: Option<nat>)
      modifies this
      ensures State() == Record(old(State()), c)
      ensures recorded == if old(Fails(State(), c)) then None else Some(RotationOf(old(State()), c))
    {
      var db := State();
      var k := OpenRotation(c.runtime, c.exchange, c.eligible, c.startedAt, c.completedAt);
      if DuplicateExclusion(results, k, c) {
        rotations := db.rotations;
        return None;
      }
      AddExclusions(k, c);
      AddScheduled(k, c);
      TwoParts(db.results, k, Exclusions(c, c.excluded), Outcomes(c, c.scheduled * c.eligible));
      var counts := CountsOf(results, k, c.eligible);
      var r := rotations[k].(counts := counts);
      if counts.covered == |c.eligible| && counts.scheduled == |c.eligible| {
        r := r.(status := Completed, completedAt := Some(c.completedAt));
      }
      rotations := rotations[k := r];
      recorded := Some(k);
    }

    method AddExclusions(k: nat, c: Cycle)
      modifies this`results
      ensures results == WithResults(old(results), k, Exclusions(c, c.excluded))
    {
      ghost var before := results;
      var i := 0;
      while i < |c.excluded|
        invariant 0 <= i <= |c.excluded|
        invariant results == WithResults(before, k, Exclusions(c, c.excluded[..i]))
      {
        var s := c.excluded[i];
        OneMoreListed(before, k, c, i);
        if s !in c.eligible && (k, s) !in results {
          results := results[(k, s) := Excluded];
        }
        i := i + 1;
      }
      assert c.excluded[..i] == c.excluded;
    }

    method AddScheduled(k: nat, c: Cycle)
      modifies this`results
      ensures results == WithResults(old(results), k, Outcomes(c, c.scheduled * c.eligible))
    {
      ghost var before := results;
      var todo := c.scheduled * c.eligible;
      ghost var all, done := todo, {};
      while todo != {}
        invariant done !! todo && done + todo == all
        invariant results == WithResults(before, k, Outcomes(c, done))
        decreases todo
      {
        var s :| s in todo;
        todo := todo - {s};
        OneMoreOutcome(before, k, c, done, s);
        if (k, s) !in results {
          results := results[(k, s) := ResultOf(c, s)];
        }
        done := done + {s};
      }
      assert done == all;
    }
  }

  lemma OneMoreListed(base: map<(nat, Symbol), Terminal>, k: nat, c: Cycle, i: nat)
    requires i < |c.excluded|
    ensures var s, after := c.excluded[i], WithResults(base, k, Exclusions(c, c.excluded[..i]));
            WithResults(base, k, Exclusions(c, c.excluded[..i + 1]))
            == if s in c.eligible || (k, s) in after then after else after[(k, s) := Excluded]
  {
    var s, listed := c.excluded[i], Exclusions(c, c.excluded[..i]);
    var longer := Exclusions(c, c.excluded[..i + 1]);
    assert c.excluded[..i + 1] == c.excluded[..i] + [s];
    if s in c.eligible || s in listed {
      assert longer == listed;
    } else {
      assert longer == listed[s := Excluded];
      OneMore(base, k, listed, s, Excluded);
    }
  }

  lemma OneMoreOutcome(base: map<(nat, Symbol), Terminal>, k: nat, c: Cycle, done: set<Symbol>, s: Symbol)
    requires s !in done
    ensures var after := WithResults(base, k, Outcomes(c, done));
            WithResults(base, k, Outcomes(c, done + {s})) == if (k, s) in after then after
                else after[(k, s) := ResultOf(c, s)]
  {
    assert Outcomes(c, done + {s}) == Outcomes(c, done)[s := ResultOf(c, s)];
    OneMore(base, k, Outcomes(c, done), s, ResultOf(c, s));
  }
}
