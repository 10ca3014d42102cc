/** The rotation ledger, column by column: which rotation a cycle is recorded in, and what it stores, stated without
    the functions that compute it. */
module LedgerFacts {
  import opened Common
  import opened ScanRotation

  // ---------- The rotation ----------

  /** The open rotation that started last; of two that started together, the one stored first. */
  predicate IsCurrent(rotations: seq<Rotation>, k: nat)
    requires k < |rotations|
  {
    && rotations[k].status == Open
    && forall i | 0 <= i < |rotations| && rotations[i].status == Open && i != k ::
         rotations[i].startedAt < rotations[k].startedAt
         || (rotations[i].startedAt == rotations[k].startedAt && i > k)
  }

  lemma {:induction false} CurrentIsExact(rotations: seq<Rotation>)
    ensures CurrentOpen(rotations) == None <==> forall i | 0 <= i < |rotations| :: rotations[i].status != Open
    ensures CurrentOpen(rotations).Some? ==> IsCurrent(rotations, CurrentOpen(rotations).value)
  {
    if rotations != [] {
      var n := |rotations| - 1;
      CurrentIsExact(rotations[..n]);
      assert forall i | 0 <= i < n :: rotations[..n][i] == rotations[i];
    }
  }

  predicate Matches(r: Rotation, runtime: string, exchange: set<Symbol>, eligible: set<Symbol>) {
    r.runtime == runtime && r.exchange == exchange && r.eligible == eligible
  }

  /** A rotation that no longer fits is closed: as aborted if the bot was restarted, and else as incomplete. */
  predicate ClosedAs(r: Rotation, after: Rotation, runtime: string, closedAt: int) {
    && after.runtime == r.runtime && after.exchange == r.exchange && after.eligible == r.eligible
    && after.startedAt == r.startedAt && after.counts == r.counts && after.completedAt == Some(closedAt)
    && after.status == (if r.runtime == runtime then Incomplete else AbortedRestart)
  }

  /** An open rotation of this runtime and these universes is used again, and nothing changes. */
  lemma ReuseIsExact(rotations: seq<Rotation>, runtime: string, exchange: set<Symbol>, eligible: set<Symbol>,
                     startedAt: int, closedAt: int, k: nat)
    requires k < |rotations| && IsCurrent(rotations, k) && Matches(rotations[k], runtime, exchange, eligible)
    ensures EnsureRotation(rotations, runtime, exchange, eligible, startedAt, closedAt) == (rotations, k)
  {
    CurrentIsExact(rotations);
  }

  /** Otherwise the open rotation, if any, is closed, and a new one is stored after all others. */
  lemma OpeningIsExact(rotations: seq<Rotation>, runtime: string, exchange: set<Symbol>, eligible: set<Symbol>,
                       startedAt: int, closedAt: int)
    requires forall k | 0 <= k < |rotations| && IsCurrent(rotations, k) ::
               !Matches(rotations[k], runtime, exchange, eligible)
    ensures var (after, id) := EnsureRotation(rotations, runtime, exchange, eligible, startedAt, closedAt);
            && id == |rotations| && |after| == |rotations| + 1
            && (forall i | 0 <= i < |rotations| ::
                  if IsCurrent(rotations, i) then ClosedAs(rotations[i], after[i], runtime, closedAt)
                  else after[i] == rotations[i])
            && after[id].runtime == runtime && after[id].exchange == exchange && after[id].eligible == eligible
            && after[id].status == Open && after[id].startedAt == startedAt && after[id].completedAt == None
            && after[id].counts == Counts(0, 0, 0, 0, 0, 0)
  {
    CurrentIsExact(rotations);
  }

  // ---------- The results ----------

  /** What the cycle says of a symbol: its scan result if it was scheduled and is eligible, or skipped if there is none;
      excluded if it is listed as such and is not eligible; and else nothing. */
  predicate IsTold(c: Cycle, s: Symbol, told: Option<Terminal>) {
    if s in c.eligible then
      told == if s !in c.scheduled then None else if s in c.results then Some(c.results[s]) else Some(ScanSkipped)
    else told == if s in c.excluded then Some(Excluded) else None
  }

  /** A symbol that is not eligible and has no result yet is listed as excluded twice. */
  predicate ListedTwice(results: map<(nat, Symbol), Terminal>, k: nat, c: Cycle) {
    exists i, j | 0 <= i < j < |c.excluded| ::
      c.excluded[i] == c.excluded[j] && c.excluded[i] !in c.eligible && (k, c.excluded[i]) !in results
  }

  lemma TwiceIsExact(results: map<(nat, Symbol), Terminal>, k: nat, c: Cycle)
    ensures DuplicateExclusion(results, k, c) <==> ListedTwice(results, k, c)
  {
    forall i | 0 <= i < |c.excluded|
      ensures c.excluded[i] in NewExclusions(results, k, c)
         <==> c.excluded[i] !in c.eligible && (k, c.excluded[i]) !in results
    {
    }
  }

  /** Such a cycle stores nothing, not even the rotation. */
  lemma FailureIsExact(db: Db, c: Cycle, k: nat)
    requires k == EnsureRotation(db.rotations, c.runtime, c.exchange, c.eligible, c.startedAt, c.completedAt).1
    ensures Fails(db, c) <==> ListedTwice(db.results, k, c)
    ensures ListedTwice(db.results, k, c) ==> Record(db, c) == db
  {
    TwiceIsExact(db.results, k, c);
  }

  /** Every other cycle adds what it tells of the symbols that have no result in its rotation yet, and nothing else. */
  lemma ResultIsExact(db: Db, c: Cycle, k: nat, j: nat, s: Symbol, told: Option<Terminal>)
    requires k == EnsureRotation(db.rotations, c.runtime, c.exchange, c.eligible, c.startedAt, c.completedAt).1
    requires !ListedTwice(db.results, k, c) && IsTold(c, s, told)
    ensures var after := Record(db, c).results;
            if (j, s) in db.results then (j, s) in after && after[(j, s)] == db.results[(j, s)]
            else if j == k && told.Some? then (j, s) in after && after[(j, s)] == told.value
            else (j, s) !in after
  {
    FailureIsExact(db, c, k);
    ReportedIsTold(c, s, told);
    WithResultsAt(db.results, k, Reported(c), j, s);
  }

  lemma ReportedIsTold(c: Cycle, s: Symbol, told: Option<Terminal>)
    requires IsTold(c, s, told)
    ensures s in Reported(c) <==> told.Some?
    ensures told.Some? ==> Reported(c)[s] == told.value
  {
  }

  // ---------- The counts ----------

  /** The stored counts are these numbers of eligible symbols, and of excluded ones. */
  predicate AreCounts(n: Counts, results: map<(nat, Symbol), Terminal>, k: nat, eligible: set<Symbol>) {
    && n.scheduled == |set s | s in eligible && (k, s) in results|
    && n.ok == |set s | s in eligible && (k, s) in results && results[(k, s)] == ScannedOk|
    && n.failed == |set s | s in eligible && (k, s) in results && results[(k, s)] == ScanFailed|
    && n.skipped == |set s | s in eligible && (k, s) in results && results[(k, s)] == ScanSkipped|
    && n.covered
       == |set s | s in eligible && (k, s) in results && results[(k, s)] in {ScannedOk, ScanFailed, ScanSkipped}|
    && n.excluded == |set key | key in results && key.0 == k && results[key] == Excluded|
  }

  lemma CountsAreExact(results: map<(nat, Symbol), Terminal>, k: nat, eligible: set<Symbol>)
    ensures AreCounts(CountsOf(results, k, eligible), results, k, eligible)
  {
    assert CoveredBy(results, k, eligible)
        == set s | s in eligible && (k, s) in results && results[(k, s)] in {ScannedOk, ScanFailed, ScanSkipped};
  }

  /** The cycle's rotation gets the counts of all its results, and is completed if every eligible symbol has a result
      and every one of these is a scan result; every other rotation is as it was once this one was open. */
  lemma RotationIsExact(db: Db, c: Cycle, before: seq<Rotation>, k: nat)
    requires (before, k)
          == EnsureRotation(db.rotations, c.runtime, c.exchange, c.eligible, c.startedAt, c.completedAt)
    requires !ListedTwice(db.results, k, c)
    ensures var after := Record(db, c);
            && |after.rotations| == |before| && k < |before|
            && (forall i | 0 <= i < |before| && i != k :: after.rotations[i] == before[i])
            && var r := after.rotations[k];
               && r == before[k].(counts := r.counts, status := r.status, completedAt := r.completedAt)
               && AreCounts(r.counts, after.results, k, c.eligible)
               && if r.counts.covered == |c.eligible| && r.counts.scheduled == |c.eligible| then
                    r.status == Completed && r.completedAt == Some(c.completedAt)
                  else r.status == before[k].status && r.completedAt == before[k].completedAt
  {
    FailureIsExact(db, c, k);
    CountsAreExact(Record(db, c).results, k, c.eligible);
  }
}
