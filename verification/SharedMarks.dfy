/** The marks of emitted watches in an event that two loops share.  Only the full scan emits watches; the fast
    monitor can undo their marks by saving a copy that it loaded before. */
module SharedMarks {
  import opened Common
  import opened Pullback
  import opened PullbackRuns
  import opened SharedEvent

  // ---------- Exactly when the marks hold ----------

  /** Each kind of watch has gone out at most once, and the row carries its mark or the scan has still to save it. */
  predicate Marked(s: Sys) {
    && Distinct(WatchTypes(s.log))
    && forall t | t in WatchTypes(s.log) :: t in s.stored.emitted || (s.scan.visited && t in s.scan.event.emitted)
  }

  /** What loses a mark: the monitor saves a copy without one that the row has, while the scan has nothing to
      save; or the scan loads over a mark it never saved. */
  predicate Loses(s: Sys, step: Step) {
    match step
    case Save(Fast) => !s.scan.visited && !(s.stored.emitted <= s.fast.event.emitted)
    case Load(Scan) => !(s.scan.event.emitted <= s.stored.emitted)
    case _ => false
  }

  predicate AlwaysMarked(s: Sys, steps: seq<Step>, c: Config)
    decreases |steps|
  {
    Marked(SharedEvent.Run(s, steps, c)) && (steps != [] ==> AlwaysMarked(s, steps[..|steps| - 1], c))
  }

  predicate NeverLoses(s: Sys, steps: seq<Step>, c: Config)
    decreases |steps|
  {
    steps != [] ==>
      NeverLoses(s, steps[..|steps| - 1], c) && !Loses(SharedEvent.Run(s, steps[..|steps| - 1], c), steps[|steps| - 1])
  }

  /** The copy of the scan has every mark there is, and every mark is of a watch that went out. */
  ghost predicate ScanKnows(s: Sys) {
    && Marked(s)
    && (forall t :: t in s.scan.event.emitted <==> t in WatchTypes(s.log))
    && s.stored.emitted <= s.scan.event.emitted && s.fast.event.emitted <= s.scan.event.emitted
  }

  /** A visit of the scan that emits `what` keeps that. */
  lemma EmittedKeepsMarks(s: Sys, s': Sys, after: Event, what: seq<Happening>, types: seq<string>)
    requires ScanKnows(s) && MarksOnce(s.scan.event, after, what)
    requires s'.scan.event == after && s'.scan.visited && s'.stored == s.stored && s'.fast.event == s.fast.event
    requires WatchTypes(s'.log) == types == WatchTypes(s.log) + WatchTypes(what)
    ensures ScanKnows(s')
  {
    if WatchTypes(what) == [] {
      assert types == WatchTypes(s.log);
    } else {
      var t := WatchTypes(what)[0];
      assert types == WatchTypes(s.log) + [t];
      assert forall x :: x in types <==> x in WatchTypes(s.log) || x == t;
    }
  }

  lemma PollKeepsMarks(s: Sys, p: Poll, c: Config)
    requires ScanKnows(s)
    ensures ScanKnows(AfterVisit(s, ByScan(p), c))
  {
    var (after, what) := Process(s.scan.event, p, c);
    ProcessTells(s.scan.event, p, c);
    WatchTypesTogether(s.log, what);
    EmittedKeepsMarks(s, AfterVisit(s, ByScan(p), c), after, what, WatchTypes(s.log + what));
  }

  lemma QuietKeepsMarks(s: Sys, s': Sys)
    requires ScanKnows(s) && s'.scan == s.scan.(missed := s'.scan.missed) && s'.stored == s.stored
    requires s'.fast.event.emitted == s.fast.event.emitted && WatchTypes(s'.log) == WatchTypes(s.log)
    ensures ScanKnows(s')
  {
  }

  lemma FastKeepsMarks(s: Sys, signalId: int, at: int, c: Config)
    requires ScanKnows(s)
    ensures ScanKnows(AfterVisit(s, ByFast(signalId, at), c))
  {
    var what := FastSignal(s.fast.event, Some(signalId), at, c).1;
    OneHappening(Signalled(signalId, false));
    WatchTypesTogether(s.log, what);
    assert WatchTypes(s.log) + [] == WatchTypes(s.log);
    QuietKeepsMarks(s, AfterVisit(s, ByFast(signalId, at), c));
  }

  lemma StepKeepsMarks(s: Sys, step: Step, c: Config)
    requires ScanKnows(s)
    ensures if Loses(s, step) then !Marked(Apply(s, step, c)) else ScanKnows(Apply(s, step, c))
  {
    match step
    case Visit(ByScan(p)) => PollKeepsMarks(s, p, c);
    case Visit(ByFast(signalId, at)) => FastKeepsMarks(s, signalId, at, c);
    case Save(Fast) =>
      if Loses(s, step) {
        var t :| t in s.stored.emitted && t !in s.fast.event.emitted;
        assert t in WatchTypes(s.log);
      }
    case Load(Scan) =>
      if Loses(s, step) {
        var t :| t in s.scan.event.emitted && t !in s.stored.emitted;
        assert t in WatchTypes(s.log);
      }
    case _ =>
  }

  lemma {:induction false} MarkedUntilLost(s: Sys, steps: seq<Step>, c: Config)
    requires ScanKnows(s)
    ensures NeverLoses(s, steps, c) ==> ScanKnows(SharedEvent.Run(s, steps, c))
    ensures AlwaysMarked(s, steps, c) <==> NeverLoses(s, steps, c)
    decreases |steps|
  {
    if steps != [] {
      MarkedUntilLost(s, steps[..|steps| - 1], c);
      if NeverLoses(s, steps[..|steps| - 1], c) {
        StepKeepsMarks(SharedEvent.Run(s, steps[..|steps| - 1], c), steps[|steps| - 1], c);
      }
    }
  }

  /** However the loops interleave, each kind of watch goes out at most once and its mark is in the row once
      saved, if and only if no save or load loses a mark. */
  lemma MarksHoldExactly(e: Event, steps: seq<Step>, c: Config)
    requires IsNew(e)
    ensures AlwaysMarked(Start(e), steps, c) <==> NeverLoses(Start(e), steps, c)
  {
    MarkedUntilLost(Start(e), steps, c);
  }

  // ---------- A watch that goes out twice ----------

  function Fresh(): Features { Features(1, 99.0, 99.0, None, 99.0, 6.0, 1.0) }

  function EarlyPoll(): Poll { Poll(Fresh(), Fresh(), Fresh(), None, true, Nothing) }

  /** The scan emits a watch and saves; the monitor saves what it had loaded; the scan loads and emits again. */
  function LostMark(): seq<Step> {
    [Visit(ByScan(EarlyPoll())), Save(Scan), Save(Fast), Load(Scan)] + [Visit(ByScan(EarlyPoll()))]
  }

  lemma EarlyWatchGoesOut()
    ensures Process(Pump(), EarlyPoll(), SHIPPED).1 == [Advanced(1.0, 99.0), Watched(EARLY_PUMP_WATCH)]
  {
    assert KillPrice(80.0, 100.0) == 87.0 && PullbackPct(100.0, 99.0) == 1.0;
    assert AdvanceEvent(Pump(), Fresh(), 1, SHIPPED).1 == [Advanced(1.0, 99.0)];
  }

  lemma EarlyTypes(log: seq<Happening>)
    ensures WatchTypes(log + [Advanced(1.0, 99.0), Watched(EARLY_PUMP_WATCH)]) == WatchTypes(log) + [EARLY_PUMP_WATCH]
  {
    OneHappening(Advanced(1.0, 99.0));
    OneHappening(Watched(EARLY_PUMP_WATCH));
    assert [Advanced(1.0, 99.0)] + [Watched(EARLY_PUMP_WATCH)] == [Advanced(1.0, 99.0), Watched(EARLY_PUMP_WATCH)];
    WatchTypesTogether([Advanced(1.0, 99.0)], [Watched(EARLY_PUMP_WATCH)]);
    WatchTypesTogether(log, [Advanced(1.0, 99.0), Watched(EARLY_PUMP_WATCH)]);
  }

  lemma RunSnoc(s: Sys, steps: seq<Step>, step: Step, c: Config)
    ensures SharedEvent.Run(s, steps + [step], c) == Apply(SharedEvent.Run(s, steps, c), step, c)
  {
    assert (steps + [step])[..|steps|] == steps;
  }

  lemma LostMarkRepeatsWatch()
    ensures WatchTypes(SharedEvent.Run(Start(Pump()), LostMark(), SHIPPED).log) == [EARLY_PUMP_WATCH, EARLY_PUMP_WATCH]
  {
    var four := [Visit(ByScan(EarlyPoll())), Save(Scan), Save(Fast), Load(Scan)];
    EarlyWatchGoesOut();
    RunFour(Start(Pump()), four[0], four[1], four[2], four[3], SHIPPED);
    var mid := SharedEvent.Run(Start(Pump()), four, SHIPPED);
    assert mid.scan.event == Pump() && mid.log == [] + [Advanced(1.0, 99.0), Watched(EARLY_PUMP_WATCH)];
    RunSnoc(Start(Pump()), four, Visit(ByScan(EarlyPoll())), SHIPPED);
    EarlyTypes([]);
    EarlyTypes(mid.log);
  }
}
