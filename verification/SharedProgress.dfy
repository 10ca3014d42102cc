/** What the stored row of an event keeps when two loops save whole copies of it: its high, signal and marks, its
    expiry, and what the polls have seen.  Each is kept by every visit of one loop; a save can undo it. */
module SharedProgress {
  import opened Common
  import opened Pullback
  import opened PullbackRuns
  import opened SharedEvent

  // ---------- High, signal and marks ----------

  /** The copy has a lower high than the row, not its signal, or not all of its marks. */
  predicate Behind(row: Event, copy: Event) {
    || (row.high.Some? && (copy.high == None || copy.high.value < row.high.value))
    || (row.signalId.Some? && (copy.signalId != row.signalId || copy.high != row.high))
    || !(row.emitted <= copy.emitted)
  }

  /** A stale copy that is behind the row is saved over it. */
  predicate Regresses(s: Sys, step: Step) {
    step.Save? && CopyOf(s, step.loop).stale && Behind(s.stored, CopyOf(s, step.loop).event)
  }

  predicate AlwaysAdvances(s: Sys, steps: seq<Step>, c: Config)
    decreases |steps|
  {
    steps != [] ==>
      && AlwaysAdvances(s, steps[..|steps| - 1], c)
      && Keeps(SharedEvent.Run(s, steps[..|steps| - 1], c).stored, SharedEvent.Run(s, steps, c).stored)
  }

  predicate NeverRegresses(s: Sys, steps: seq<Step>, c: Config)
    decreases |steps|
  {
    steps != [] ==>
      && NeverRegresses(s, steps[..|steps| - 1], c)
      && !Regresses(SharedEvent.Run(s, steps[..|steps| - 1], c), steps[|steps| - 1])
  }

  /** A copy is of the same event as the row; one that is not stale has kept what it was loaded as, and is the row
      itself until it is visited. */
  predicate CopyKeeps(row: Event, copy: Copy) {
    && copy.event.id == row.id && copy.event.base == row.base
    && (!copy.stale ==> Keeps(row, copy.event) && (!copy.visited ==> copy.event == row))
  }

  predicate CopiesKeep(s: Sys) { CopyKeeps(s.stored, s.scan) && CopyKeeps(s.stored, s.fast) }

  lemma StepKeepsCopies(s: Sys, step: Step, c: Config)
    requires CopiesKeep(s)
    ensures CopiesKeep(Apply(s, step, c))
  {
    if step.Visit? {
      var e := CopyOf(s, LoopOf(step.visit)).event;
      VisitKeepsExpiryExactly(e, step.visit, c);
      if !CopyOf(s, LoopOf(step.visit)).stale {
        ComposeKeeps(s.stored, e, Visited(e, step.visit, c).0);
      }
    }
  }

  /** A save keeps the row unless a stale copy is behind it. */
  lemma StepAdvancesExactly(s: Sys, step: Step, c: Config)
    requires CopiesKeep(s)
    ensures Keeps(s.stored, Apply(s, step, c).stored) <==> !Regresses(s, step)
  {
  }

  lemma {:induction false} RunKeepsCopies(e: Event, steps: seq<Step>, c: Config)
    ensures CopiesKeep(SharedEvent.Run(Start(e), steps, c))
    decreases |steps|
  {
    if steps != [] {
      RunKeepsCopies(e, steps[..|steps| - 1], c);
      StepKeepsCopies(SharedEvent.Run(Start(e), steps[..|steps| - 1], c), steps[|steps| - 1], c);
    }
  }

  /** However the loops interleave, no step lowers the stored high, changes its base or id, or takes away its signal
      or a mark, if and only if no stale copy that is behind the row is saved. */
  lemma {:induction false} RowAdvancesExactly(e: Event, steps: seq<Step>, c: Config)
    ensures AlwaysAdvances(Start(e), steps, c) <==> NeverRegresses(Start(e), steps, c)
    decreases |steps|
  {
    if steps != [] {
      var before := steps[..|steps| - 1];
      RowAdvancesExactly(e, before, c);
      RunKeepsCopies(e, before, c);
      StepAdvancesExactly(SharedEvent.Run(Start(e), before, c), steps[|steps| - 1], c);
    }
  }

  /** Then the row keeps what the event had at its detection. */
  lemma {:induction false} AdvancesKeep(e: Event, steps: seq<Step>, c: Config)
    requires NeverRegresses(Start(e), steps, c)
    ensures Keeps(e, SharedEvent.Run(Start(e), steps, c).stored)
    decreases |steps|
  {
    if steps != [] {
      var before := steps[..|steps| - 1];
      AdvancesKeep(e, before, c);
      RunKeepsCopies(e, before, c);
      StepAdvancesExactly(SharedEvent.Run(Start(e), before, c), steps[|steps| - 1], c);
      ComposeKeeps(e, SharedEvent.Run(Start(e), before, c).stored, SharedEvent.Run(Start(e), steps, c).stored);
    }
  }

  // ---------- Expiry ----------

  /** The copy is not the expired row, or not yet expired with another expiry time. */
  predicate UndoesExpiry(row: Event, copy: Event) {
    (row.state == Expired && copy != row) || (copy.state != Expired && copy.expiresAt != row.expiresAt)
  }

  /** A stale copy is saved that undoes the expiry of the row; or the monitor saves a signal that it sent for an
      expired event. */
  predicate LosesExpiry(s: Sys, step: Step) {
    step.Save? &&
    var copy := CopyOf(s, step.loop);
    if copy.stale then UndoesExpiry(s.stored, copy.event)
    else step.loop == Fast && copy.unsaved && s.stored.state == Expired
  }

  predicate AlwaysKeepsExpiry(s: Sys, steps: seq<Step>, c: Config)
    decreases |steps|
  {
    steps != [] ==>
      && AlwaysKeepsExpiry(s, steps[..|steps| - 1], c)
      && KeepsExpiry(SharedEvent.Run(s, steps[..|steps| - 1], c).stored, SharedEvent.Run(s, steps, c).stored)
  }

  predicate NeverLosesExpiry(s: Sys, steps: seq<Step>, c: Config)
    decreases |steps|
  {
    steps != [] ==>
      && NeverLosesExpiry(s, steps[..|steps| - 1], c)
      && !LosesExpiry(SharedEvent.Run(s, steps[..|steps| - 1], c), steps[|steps| - 1])
  }

  /** What a copy that is not stale has done since it was loaded or saved: the scan has kept the expiry, and the
      monitor has sent a signal or done nothing. */
  predicate ExpiryKept(s: Sys) {
    && CopiesKeep(s)
    && (!s.scan.stale ==> KeepsExpiry(s.stored, s.scan.event))
    && (!s.fast.stale ==>
          if s.fast.unsaved then s.fast.event.state == SignalSent && s.fast.event.expiresAt == s.stored.expiresAt
          else s.fast.event == s.stored)
  }

  lemma FastSends(e: Event, signalId: int, at: int, c: Config)
    ensures SignalIn(Visited(e, ByFast(signalId, at), c).1) <==> c.climaxEnabled && e.signalId == None
  {
    assert [Signalled(signalId, false)][0].Signalled?;
  }

  lemma StepKeepsExpiryKept(s: Sys, step: Step, c: Config)
    requires ExpiryKept(s)
    ensures ExpiryKept(Apply(s, step, c))
  {
    StepKeepsCopies(s, step, c);
    if step.Visit? {
      match step.visit
      case ByScan(p) =>
        ProcessKeeps(s.scan.event, p, c);
        if !s.scan.stale {
          ComposeKeeps(s.stored, s.scan.event, Process(s.scan.event, p, c).0);
        }
      case ByFast(signalId, at) => FastSends(s.fast.event, signalId, at, c);
    }
  }

  lemma StepKeepsExpiryExactly(s: Sys, step: Step, c: Config)
    requires ExpiryKept(s)
    ensures KeepsExpiry(s.stored, Apply(s, step, c).stored) <==> !LosesExpiry(s, step)
  {
  }

  /** A current copy of an expired event gets an unsaved signal exactly by a visit that revives the event. */
  lemma UnsavedByRevival(s: Sys, v: Pullback.Visit, c: Config)
    requires ExpiryKept(s) && v.ByFast? && !s.fast.stale && !s.fast.unsaved && s.stored.state == Expired
    ensures AfterVisit(s, v, c).fast.unsaved <==> Revives(s.fast.event, v, c)
  {
    FastSends(s.fast.event, v.signalId, v.at, c);
  }

  lemma {:induction false} RunKeepsExpiryKept(e: Event, steps: seq<Step>, c: Config)
    ensures ExpiryKept(SharedEvent.Run(Start(e), steps, c))
    decreases |steps|
  {
    if steps != [] {
      RunKeepsExpiryKept(e, steps[..|steps| - 1], c);
      StepKeepsExpiryKept(SharedEvent.Run(Start(e), steps[..|steps| - 1], c), steps[|steps| - 1], c);
    }
  }

  /** An expired row stays as it is, and a row keeps its expiry time until it expires, if and only if no stale copy
      that undoes that is saved, and the monitor saves no signal that it sent for an expired event. */
  lemma {:induction false} ExpiryHoldsExactly(e: Event, steps: seq<Step>, c: Config)
    ensures AlwaysKeepsExpiry(Start(e), steps, c) <==> NeverLosesExpiry(Start(e), steps, c)
    decreases |steps|
  {
    if steps != [] {
      var before := steps[..|steps| - 1];
      ExpiryHoldsExactly(e, before, c);
      RunKeepsExpiryKept(e, before, c);
      StepKeepsExpiryExactly(SharedEvent.Run(Start(e), before, c), steps[|steps| - 1], c);
    }
  }

  // ---------- What the polls have seen ----------

  predicate SameProgress(a: Event, b: Event) {
    a.depthPct == b.depthPct && a.lowPrice == b.lowPrice && (a.detectedAt.Some? <==> b.detectedAt.Some?)
  }

  /** What the polls have seen is in the row, or in the copy that the scan has still to save. */
  predicate Recorded(s: Sys) { ProgressFits(if s.scan.visited then s.scan.event else s.stored, s.log) }

  /** The monitor saves a copy with another progress than the row's while the scan has nothing to save; or the scan
      loads a row with another progress than its own. */
  predicate LosesProgress(s: Sys, step: Step) {
    match step
    case Save(Fast) => !s.scan.visited && !SameProgress(s.stored, s.fast.event)
    case Load(Scan) => !SameProgress(s.stored, s.scan.event)
    case _ => false
  }

  predicate AlwaysRecorded(s: Sys, steps: seq<Step>, c: Config)
    decreases |steps|
  {
    Recorded(SharedEvent.Run(s, steps, c)) && (steps != [] ==> AlwaysRecorded(s, steps[..|steps| - 1], c))
  }

  predicate NeverLosesProgress(s: Sys, steps: seq<Step>, c: Config)
    decreases |steps|
  {
    steps != [] ==>
      && NeverLosesProgress(s, steps[..|steps| - 1], c)
      && !LosesProgress(SharedEvent.Run(s, steps[..|steps| - 1], c), steps[|steps| - 1])
  }

  predicate StateOk(e: Event) { e.state in {PullbackObserved, ShortZoneActive} ==> e.detectedAt.Some? }

  /** The scan's copy has seen what the log tells, and so has the row unless the scan has still to save it. */
  predicate ScanTracks(s: Sys) {
    && ProgressFits(s.scan.event, s.log) && (!s.scan.visited ==> ProgressFits(s.stored, s.log))
    && StateOk(s.stored) && StateOk(s.fast.event)
  }

  lemma DepthIsDetermined(a: Event, b: Event, log: seq<Happening>)
    requires DepthFits(a, log) && DepthFits(b, log)
    ensures a.depthPct == b.depthPct && a.lowPrice == b.lowPrice
  {
  }

  /** The log determines the progress of an event that fits it. */
  lemma ProgressIsDetermined(a: Event, b: Event, log: seq<Happening>)
    requires ProgressFits(a, log) && StateOk(b)
    ensures ProgressFits(b, log) <==> SameProgress(a, b)
  {
    if DepthFits(b, log) {
      DepthIsDetermined(a, b, log);
    }
  }

  /** A signal of the monitor says nothing about the progress. */
  lemma FastTellsNoProgress(e: Event, log: seq<Happening>, other: Event, signalId: int, at: int, c: Config)
    requires ProgressFits(e, log)
    ensures ProgressFits(e, log + Visited(other, ByFast(signalId, at), c).1)
  {
    Snoc(log, Signalled(signalId, false));
    assert log + [] == log;
  }

  lemma VisitKeepsTracking(s: Sys, v: Pullback.Visit, c: Config)
    requires ScanTracks(s) && ValidConfig(c)
    ensures ScanTracks(AfterVisit(s, v, c))
  {
    match v
    case ByScan(p) => VisitProgress(s.scan.event, s.log, v, c);
    case ByFast(signalId, at) =>
      FastTellsNoProgress(s.scan.event, s.log, s.fast.event, signalId, at, c);
      if !s.scan.visited {
        FastTellsNoProgress(s.stored, s.log, s.fast.event, signalId, at, c);
      }
  }

  lemma StepKeepsTracking(s: Sys, step: Step, c: Config)
    requires ScanTracks(s) && ValidConfig(c)
    ensures if LosesProgress(s, step) then !Recorded(Apply(s, step, c))
            else ScanTracks(Apply(s, step, c)) && Recorded(Apply(s, step, c))
  {
    match step
    case Visit(v) => VisitKeepsTracking(s, v, c);
    case Save(Fast) =>
      if !s.scan.visited {
        ProgressIsDetermined(s.stored, s.fast.event, s.log);
      }
    case Load(Scan) => ProgressIsDetermined(s.scan.event, s.stored, s.log);
    case _ =>
  }

  lemma {:induction false} TrackedUntilLost(s: Sys, steps: seq<Step>, c: Config)
    requires ScanTracks(s) && Recorded(s) && ValidConfig(c)
    ensures NeverLosesProgress(s, steps, c) ==> ScanTracks(SharedEvent.Run(s, steps, c))
    ensures AlwaysRecorded(s, steps, c) <==> NeverLosesProgress(s, steps, c)
    decreases |steps|
  {
    if steps != [] {
      TrackedUntilLost(s, steps[..|steps| - 1], c);
      if NeverLosesProgress(s, steps[..|steps| - 1], c) {
        StepKeepsTracking(SharedEvent.Run(s, steps[..|steps| - 1], c), steps[|steps| - 1], c);
      }
    }
  }

  /** However the loops interleave, the saved row has the detection, the depth and the low of all polls, and every
      baseline signal followed a detected pullback, if and only if no save or load loses progress. */
  lemma ProgressHoldsExactly(e: Event, steps: seq<Step>, c: Config)
    requires IsNew(e) && ValidConfig(c)
    ensures AlwaysRecorded(Start(e), steps, c) <==> NeverLosesProgress(Start(e), steps, c)
  {
    TrackedUntilLost(Start(e), steps, c);
  }

  // ---------- Stale saves under the shipped settings ----------

  function At(price: real, low: real, high: real, highTime: Option<int>): Poll {
    var f := Features(2, price, high, highTime, low, 6.0, 1.0);
    Poll(f, f, f, None, false, Nothing)
  }

  lemma RunOne(s: Sys, a: Step, c: Config)
    ensures SharedEvent.Run(s, [a], c) == Apply(s, a, c)
  {
    assert [a][..0] == [];
  }

  lemma RunTwo(s: Sys, a: Step, b: Step, c: Config)
    ensures SharedEvent.Run(s, [a, b], c) == Apply(Apply(s, a, c), b, c)
  {
    assert [a, b][..1] == [a];
    RunOne(s, a, c);
  }

  lemma RunThree(s: Sys, a: Step, b: Step, d: Step, c: Config)
    ensures SharedEvent.Run(s, [a, b, d], c) == Apply(Apply(Apply(s, a, c), b, c), d, c)
  {
    assert [a, b, d][..2] == [a, b];
    RunTwo(s, a, b, c);
  }

  /** The scan expires the event below its kill price and saves; the monitor, which has signalled nothing, saves
      what it had loaded, and the event is live again. */
  lemma StaleSaveRevives()
    ensures var poll := Visit(ByScan(At(86.0, 86.0, 86.0, None)));
            && SharedEvent.Run(Start(Pump()), [poll, Save(Scan)], SHIPPED).stored.state == Expired
            && SharedEvent.Run(Start(Pump()), [poll, Save(Scan), Save(Fast)], SHIPPED).stored == Pump()
  {
    var poll := Visit(ByScan(At(86.0, 86.0, 86.0, None)));
    RunTwo(Start(Pump()), poll, Save(Scan), SHIPPED);
    RunThree(Start(Pump()), poll, Save(Scan), Save(Fast), SHIPPED);
    assert KillPrice(80.0, 100.0) == 87.0;
  }

  /** The scan confirms a higher high and saves; the monitor takes the stored high back. */
  lemma StaleSaveLowersHigh()
    ensures var poll := Visit(ByScan(At(99.0, 99.0, 101.0, Some(1))));
            && SharedEvent.Run(Start(Pump()), [poll, Save(Scan)], SHIPPED).stored.high == Some(101.0)
            && SharedEvent.Run(Start(Pump()), [poll, Save(Scan), Save(Fast)], SHIPPED).stored.high == Some(100.0)
  {
    var poll := Visit(ByScan(At(99.0, 99.0, 101.0, Some(1))));
    RunTwo(Start(Pump()), poll, Save(Scan), SHIPPED);
    RunThree(Start(Pump()), poll, Save(Scan), Save(Fast), SHIPPED);
  }

  /** A pullback of five per cent, and one of seven. */
  function FivePct(): Step { Visit(ByScan(At(95.0, 94.0, 95.0, None))) }

  function SevenPct(): Step { Visit(ByScan(At(93.0, 92.0, 93.0, None))) }

  lemma FiveThenSeven()
    ensures var five := Process(Pump(), FivePct().visit.poll, SHIPPED).0;
            && five.depthPct == Some(5.0) && five.detectedAt.Some?
            && Process(five, SevenPct().visit.poll, SHIPPED).0.depthPct == Some(7.0)
            && Process(five, SevenPct().visit.poll, SHIPPED).1 == [Advanced(7.0, 92.0)]
  {
    assert KillPrice(80.0, 100.0) == 87.0 && FloorPrice(80.0, 100.0, SHIPPED) == 91.0;
    assert PullbackPct(100.0, 95.0) == 5.0 && PullbackPct(100.0, 93.0) == 7.0;
    assert IsPullback(Pump(), At(95.0, 94.0, 95.0, None).first, SHIPPED);
  }

  /** The monitor loads the event after the first pullback; the scan records the second and saves; the monitor
      takes the recorded depth back. */
  lemma StaleSaveForgetsDepth()
    ensures var steps := [FivePct(), Save(Scan), Load(Fast)] + [SevenPct(), Save(Scan), Save(Fast)];
            && SharedEvent.Run(Start(Pump()), steps[..5], SHIPPED).stored.depthPct == Some(7.0)
            && SharedEvent.Run(Start(Pump()), steps, SHIPPED).stored.depthPct == Some(5.0)
            && Advanced(7.0, 92.0) in SharedEvent.Run(Start(Pump()), steps, SHIPPED).log
  {
    var steps := [FivePct(), Save(Scan), Load(Fast)] + [SevenPct(), Save(Scan), Save(Fast)];
    var three := SharedEvent.Run(Start(Pump()), [FivePct(), Save(Scan), Load(Fast)], SHIPPED);
    FiveThenSeven();
    RunThree(Start(Pump()), FivePct(), Save(Scan), Load(Fast), SHIPPED);
    assert steps[..5] == [FivePct(), Save(Scan), Load(Fast)] + [SevenPct(), Save(Scan)];
    RunsOn(Start(Pump()), [FivePct(), Save(Scan), Load(Fast)], [SevenPct(), Save(Scan)], SHIPPED);
    RunsOn(Start(Pump()), [FivePct(), Save(Scan), Load(Fast)], [SevenPct(), Save(Scan), Save(Fast)], SHIPPED);
    RunTwo(three, SevenPct(), Save(Scan), SHIPPED);
    RunThree(three, SevenPct(), Save(Scan), Save(Fast), SHIPPED);
    SevenAfterFive(three);
  }

  lemma SevenAfterFive(s: Sys)
    requires s.scan.event == s.fast.event == Process(Pump(), FivePct().visit.poll, SHIPPED).0
    ensures var saved := Saved(AfterVisit(s, SevenPct().visit, SHIPPED), Scan);
            && saved.stored.depthPct == Some(7.0) && Advanced(7.0, 92.0) in saved.log
            && Saved(saved, Fast).stored.depthPct == Some(5.0) && Saved(saved, Fast).log == saved.log
  {
    FiveThenSeven();
    assert Advanced(7.0, 92.0) in [Advanced(7.0, 92.0)];
  }

  lemma {:induction false} RunsOn(s: Sys, a: seq<Step>, b: seq<Step>, c: Config)
    ensures SharedEvent.Run(s, a + b, c) == SharedEvent.Run(SharedEvent.Run(s, a, c), b, c)
    decreases |b|
  {
    if b == [] {
      assert a + b == a;
    } else {
      assert (a + b)[..|a + b| - 1] == a + b[..|b| - 1];
      RunsOn(s, a, b[..|b| - 1], c);
    }
  }
}
