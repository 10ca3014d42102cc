/** One stored event and the two loops that share it (app/main.py, app/storage/repository.py).  The full scan
    and the fast climax monitor each load a copy, work on it across awaits, and save all its columns; nothing
    checks that the row is still what was loaded.  A signal goes out before the copy that sent it is saved.
    The deduplication of a climax signal by subtype only takes signals away, so a signal that it stops is a
    visit that does not happen. */
module SharedEvent {
  import opened Common
  import opened Pullback
  import opened PullbackRuns

  /** `visited`: changed since it was loaded or saved.  `stale`: the row has changed since then.  `unsaved`: it
      has sent a signal that no save has recorded.  `missed`: the other loop has sent a signal that was not in
      the row when this copy was loaded. */
  datatype Copy = Copy(event: Event, visited: bool, stale: bool, unsaved: bool, missed: bool)

  datatype Loop = Scan | Fast

  datatype Sys = Sys(stored: Event, scan: Copy, fast: Copy, log: seq<Happening>)

  datatype Step = Load(loop: Loop) | Visit(visit: Pullback.Visit) | Save(loop: Loop)

  function CopyOf(s: Sys, loop: Loop): Copy { if loop == Scan then s.scan else s.fast }

  function Other(loop: Loop): Loop { if loop == Scan then Fast else Scan }

  function With(s: Sys, loop: Loop, copy: Copy): Sys { if loop == Scan then s.(scan := copy) else s.(fast := copy) }

  function LoopOf(v: Pullback.Visit): Loop { if v.ByScan? then Scan else Fast }

  predicate SignalIn(what: seq<Happening>) { exists i | 0 <= i < |what| :: what[i].Signalled? }

  /** The visit makes its copy send a signal. */
  predicate Sends(s: Sys, v: Pullback.Visit, c: Config) { SignalIn(Visited(CopyOf(s, LoopOf(v)).event, v, c).1) }

  function Loaded(s: Sys, loop: Loop): Sys {
    With(s, loop, Copy(s.stored, false, false, false, CopyOf(s, Other(loop)).unsaved))
  }

  function AfterVisit(s: Sys, v: Pullback.Visit, c: Config): Sys {
    var loop := LoopOf(v);
    var mine, theirs := CopyOf(s, loop), CopyOf(s, Other(loop));
    var (event, what) := Visited(mine.event, v, c);
    var sends := SignalIn(what);
    With(With(s, loop, mine.(event := event, visited := true, unsaved := mine.unsaved || sends)),
         Other(loop), theirs.(missed := theirs.missed || sends)).(log := s.log + what)
  }

  function Saved(s: Sys, loop: Loop): Sys {
    var mine, theirs := CopyOf(s, loop), CopyOf(s, Other(loop));
    With(With(s, loop, mine.(visited := false, stale := false, unsaved := false)),
         Other(loop), theirs.(stale := theirs.stale || mine.visited || mine.stale)).(stored := mine.event)
  }

  function Apply(s: Sys, step: Step, c: Config): Sys {
    match step
    case Load(loop) => Loaded(s, loop)
    case Visit(v) => AfterVisit(s, v, c)
    case Save(loop) => Saved(s, loop)
  }

  function Run(s: Sys, steps: seq<Step>, c: Config): Sys
    decreases |steps|
  {
    if steps == [] then s
    else Apply(Run(s, steps[..|steps| - 1], c), steps[|steps| - 1], c)
  }

  /** The event has just been detected and saved, and both loops have loaded it. */
  function Start(e: Event): Sys {
    var copy := Copy(e, false, false, false, false);
    Sys(e, copy, copy, [])
  }

  // ---------- Loops that stay out of each other's way ----------

  /** A loop visits and saves only a copy that is not stale, does not visit while the other has changes to save,
      and does not load over changes of its own. */
  predicate Orderly(s: Sys, step: Step) {
    match step
    case Load(loop) => !CopyOf(s, loop).visited
    case Visit(v) => !CopyOf(s, LoopOf(v)).stale && !CopyOf(s, Other(LoopOf(v))).visited
    case Save(loop) => !CopyOf(s, loop).stale
  }

  predicate OrderlyRun(s: Sys, steps: seq<Step>, c: Config)
    decreases |steps|
  {
    steps != [] ==>
      OrderlyRun(s, steps[..|steps| - 1], c) && Orderly(Run(s, steps[..|steps| - 1], c), steps[|steps| - 1])
  }

  /** The event as the last visit left it: in the copy that is to be saved, or in the row. */
  function Current(s: Sys): Event {
    if s.scan.visited then s.scan.event else if s.fast.visited then s.fast.event else s.stored
  }

  predicate CopyFresh(s: Sys, copy: Copy) {
    (copy.visited ==> !copy.stale) && (!copy.visited && !copy.stale ==> copy.event == s.stored)
  }

  predicate Serial(s: Sys) {
    CopyFresh(s, s.scan) && CopyFresh(s, s.fast) && !(s.scan.visited && s.fast.visited)
  }

  lemma StepKeepsSerial(s: Sys, step: Step, c: Config)
    requires Serial(s) && Orderly(s, step)
    ensures Serial(Apply(s, step, c))
    ensures (Current(Apply(s, step, c)), Apply(s, step, c).log)
         == if step.Visit? then (Visited(Current(s), step.visit, c).0, s.log + Visited(Current(s), step.visit, c).1)
            else (Current(s), s.log)
  {
  }

  function VisitsOf(steps: seq<Step>): seq<Pullback.Visit> {
    if steps == [] then []
    else VisitsOf(steps[..|steps| - 1]) + if steps[|steps| - 1].Visit? then [steps[|steps| - 1].visit] else []
  }

  /** Orderly loops do to the stored event what their visits, one after another, do to a single one: everything
      proved of runs of one event holds of the event they share. */
  lemma {:induction false} OrderlyIsSerial(e: Event, steps: seq<Step>, c: Config)
    requires OrderlyRun(Start(e), steps, c)
    ensures var s := Run(Start(e), steps, c);
            Serial(s) && (Current(s), s.log) == PullbackRuns.Run(e, VisitsOf(steps), c)
    decreases |steps|
  {
    if steps != [] {
      var before, last := steps[..|steps| - 1], steps[|steps| - 1];
      OrderlyIsSerial(e, before, c);
      StepKeepsSerial(Run(Start(e), before, c), last, c);
      if last.Visit? {
        var visits := VisitsOf(before) + [last.visit];
        assert visits[..|visits| - 1] == VisitsOf(before);
      } else {
        assert VisitsOf(steps) == VisitsOf(before);
      }
    }
  }

  /** In particular an orderly event has at most one signal, and once it is saved its row carries the id. */
  lemma OrderlyOneSignal(e: Event, steps: seq<Step>, c: Config)
    requires IsNew(e) && ValidConfig(c) && OrderlyRun(Start(e), steps, c)
    ensures var s := Run(Start(e), steps, c);
            && SignalIds(s.log) == (if Current(s).signalId.Some? then [Current(s).signalId.value] else [])
            && (!s.scan.visited && !s.fast.visited ==> Current(s) == s.stored)
  {
    OrderlyIsSerial(e, steps, c);
    OneSignalPerEvent(e, VisitsOf(steps), c);
  }

  // ---------- Exactly when the signals are accounted for ----------

  /** At most one signal was sent, and the row carries its id or the loop that sent it has still to save it. */
  predicate Accounted(s: Sys) {
    var ids := SignalIds(s.log);
    if ids == [] then s.stored.signalId == None
    else |ids| == 1 && (s.stored.signalId == Some(ids[0])
                        || (s.stored.signalId == None && (s.scan.unsaved || s.fast.unsaved)))
  }

  /** What spoils it: a signal, or a save over a recorded one, by a copy that missed the other loop's signal;
      and a load over a copy whose own signal was never saved. */
  predicate Spoils(s: Sys, step: Step, c: Config) {
    match step
    case Load(loop) => CopyOf(s, loop).unsaved
    case Visit(v) => CopyOf(s, LoopOf(v)).missed && Sends(s, v, c)
    case Save(loop) => CopyOf(s, loop).missed && !CopyOf(s, Other(loop)).unsaved
  }

  predicate AlwaysAccounted(s: Sys, steps: seq<Step>, c: Config)
    decreases |steps|
  {
    Accounted(Run(s, steps, c)) && (steps != [] ==> AlwaysAccounted(s, steps[..|steps| - 1], c))
  }

  predicate NeverSpoiled(s: Sys, steps: seq<Step>, c: Config)
    decreases |steps|
  {
    steps != [] ==>
      NeverSpoiled(s, steps[..|steps| - 1], c) && !Spoils(Run(s, steps[..|steps| - 1], c), steps[|steps| - 1], c)
  }

  /** What a copy knows of the signals sent. */
  predicate CopyKnows(copy: Copy, ids: seq<int>) {
    if ids == [] then copy.event.signalId == None && !copy.unsaved && !copy.missed
    else if copy.missed then copy.event.signalId == None && !copy.unsaved
    else copy.event.signalId == Some(ids[0])
  }

  predicate Known(s: Sys) {
    var ids := SignalIds(s.log);
    && |ids| <= 1 && CopyKnows(s.scan, ids) && CopyKnows(s.fast, ids)
    && if s.scan.unsaved || s.fast.unsaved then s.stored.signalId == None && (s.scan.missed || s.fast.missed)
       else if ids == [] then s.stored.signalId == None else s.stored.signalId == Some(ids[0])
  }

  lemma {:induction false} NoSignalNoId(what: seq<Happening>)
    ensures SignalIds(what) == [] <==> !SignalIn(what)
    decreases |what|
  {
    if what != [] {
      var n := |what| - 1;
      NoSignalNoId(what[..n]);
      if SignalIn(what) && !what[n].Signalled? {
        var i :| 0 <= i < |what| && what[i].Signalled?;
        assert what[..n][i].Signalled?;
      }
      if SignalIn(what[..n]) {
        var i :| 0 <= i < n && what[..n][i].Signalled?;
        assert what[i].Signalled?;
      }
    }
  }

  /** A visit adds to the signals sent exactly what its copy sends. */
  lemma VisitLogs(s: Sys, v: Pullback.Visit, c: Config) returns (sent: seq<int>)
    ensures sent == SignalIds(Visited(CopyOf(s, LoopOf(v)).event, v, c).1)
    ensures SignalIds(AfterVisit(s, v, c).log) == SignalIds(s.log) + sent
    ensures sent == [] <==> !Sends(s, v, c)
    ensures SignalsOnce(CopyOf(s, LoopOf(v)).event, Visited(CopyOf(s, LoopOf(v)).event, v, c).0,
                        Visited(CopyOf(s, LoopOf(v)).event, v, c).1)
  {
    var e := CopyOf(s, LoopOf(v)).event;
    sent := SignalIds(Visited(e, v, c).1);
    SignalIdsTogether(s.log, Visited(e, v, c).1);
    NoSignalNoId(Visited(e, v, c).1);
    VisitTells(e, v, c);
  }

  /** As long as nothing spoils them the loops know of the signals; the first thing that spoils them shows. */
  lemma VisitKeepsKnown(s: Sys, v: Pullback.Visit, c: Config)
    requires Known(s)
    ensures if Spoils(s, Visit(v), c) then !Accounted(AfterVisit(s, v, c)) else Known(AfterVisit(s, v, c))
  {
    var sent := VisitLogs(s, v, c);
    assert sent == [] ==> SignalIds(s.log) + sent == SignalIds(s.log);
    assert SignalIds(s.log) == [] ==> SignalIds(s.log) + sent == sent;
  }

  lemma StepKeepsKnown(s: Sys, step: Step, c: Config)
    requires Known(s)
    ensures if Spoils(s, step, c) then !Accounted(Apply(s, step, c))
            else Known(Apply(s, step, c)) && Accounted(Apply(s, step, c))
  {
    if step.Visit? {
      VisitKeepsKnown(s, step.visit, c);
    }
  }

  lemma {:induction false} AccountedUntilSpoiled(s: Sys, steps: seq<Step>, c: Config)
    requires Known(s) && Accounted(s)
    ensures NeverSpoiled(s, steps, c) ==> Known(Run(s, steps, c))
    ensures AlwaysAccounted(s, steps, c) <==> NeverSpoiled(s, steps, c)
    decreases |steps|
  {
    if steps != [] {
      AccountedUntilSpoiled(s, steps[..|steps| - 1], c);
      if NeverSpoiled(s, steps[..|steps| - 1], c) {
        StepKeepsKnown(Run(s, steps[..|steps| - 1], c), steps[|steps| - 1], c);
      }
    }
  }

  /** From its detection on, an event has at most one signal whose id its row carries once saved, if and only if
      no loop signals, or saves over a recorded signal, from a copy that missed the other loop's, and none drops
      a copy whose signal it has yet to save. */
  lemma SignalsAccountedExactly(e: Event, steps: seq<Step>, c: Config)
    requires IsNew(e)
    ensures AlwaysAccounted(Start(e), steps, c) <==> NeverSpoiled(Start(e), steps, c)
  {
    AccountedUntilSpoiled(Start(e), steps, c);
  }

  // ---------- Where the shipped settings fail ----------

  /** The pullback, zone and age settings of config.yaml, with the fast monitor on. */
  const SHIPPED := Config(2.4, 8.0, 5.5, 0.55, RangeFromBase, 0.3, 1.5, 0.70, 0.92, 90, true)

  function Pump(): Event { NewEvent("event", 100.0, 0, 80.0, 0, 60) }

  /** Five per cent below the high, inside the zone. */
  function PulledBack(): Features { Features(2, 95.0, 95.0, None, 94.0, 6.0, 1.0) }

  function BaselinePoll(): Poll { Poll(PulledBack(), PulledBack(), PulledBack(), None, false, Short(2, true)) }

  /** The scan has loaded the event; the fast monitor signals it and saves; the scan then polls what it loaded. */
  function StaleScan(): seq<Step> { [Visit(ByFast(1, 1)), Save(Fast), Visit(ByScan(BaselinePoll())), Save(Scan)] }

  lemma BaselineSignals()
    ensures var (after, what) := Process(Pump(), BaselinePoll(), SHIPPED);
            after.signalId == Some(2) && what == [Detected(5.0, 94.0), Signalled(2, true)]
  {
    var f := PulledBack();
    assert KillPrice(80.0, 100.0) == 87.0 && FloorPrice(80.0, 100.0, SHIPPED) == 91.0;
    assert PullbackPct(100.0, 95.0) == 5.0 && IsPullback(Pump(), f, SHIPPED);
    var advanced := AdvanceEvent(Pump(), f, 2, SHIPPED);
    assert advanced.0.state == PullbackObserved && advanced.1 == [Detected(5.0, 94.0)];
    assert BuildZone(advanced.0, f, SHIPPED) == Some((94.0, 98.4));
    assert AfterAdvance(advanced.0, BaselinePoll(), 2, SHIPPED).1 == [Signalled(2, true)];
  }

  /** The monitor has signalled and saved, and the scan still holds what it loaded. */
  function Missed(): Sys {
    Sys(MarkSent(Pump(), 1, 1), Copy(Pump(), false, true, false, true),
        Copy(MarkSent(Pump(), 1, 1), false, false, false, false), [Signalled(1, false)])
  }

  lemma MissedIsReached()
    ensures Saved(AfterVisit(Start(Pump()), ByFast(1, 1), SHIPPED), Fast) == Missed()
  {
    var what := [Signalled(1, false)];
    assert Visited(Pump(), ByFast(1, 1), SHIPPED) == (MarkSent(Pump(), 1, 1), what);
    assert what[0].Signalled?;
    assert [] + what == what;
  }

  lemma RunFour(s: Sys, a: Step, b: Step, d: Step, f: Step, c: Config)
    ensures Run(s, [a, b, d, f], c) == Apply(Apply(Apply(Apply(s, a, c), b, c), d, c), f, c)
  {
    assert [a, b, d, f][..3] == [a, b, d] && [a, b, d][..2] == [a, b] && [a, b][..1] == [a] && [a][..0] == [];
    assert Run(s, [a, b], c) == Apply(Run(s, [a], c), b, c);
    assert Run(s, [a, b, d], c) == Apply(Run(s, [a, b], c), d, c);
  }

  lemma BothSignalled()
    ensures SignalIds([Signalled(1, false)] + [Detected(5.0, 94.0), Signalled(2, true)]) == [1, 2]
  {
    OneHappening(Signalled(1, false));
    OneHappening(Detected(5.0, 94.0));
    OneHappening(Signalled(2, true));
    SignalIdsTogether([Detected(5.0, 94.0)], [Signalled(2, true)]);
    assert [Detected(5.0, 94.0)] + [Signalled(2, true)] == [Detected(5.0, 94.0), Signalled(2, true)];
    SignalIdsTogether([Signalled(1, false)], [Detected(5.0, 94.0), Signalled(2, true)]);
  }

  lemma MissedSignalsAgain()
    ensures var s := Saved(AfterVisit(Missed(), ByScan(BaselinePoll()), SHIPPED), Scan);
            SignalIds(s.log) == [1, 2] && s.stored.signalId == Some(2)
  {
    BaselineSignals();
    BothSignalled();
    assert Visited(Missed().scan.event, ByScan(BaselinePoll()), SHIPPED) == Process(Pump(), BaselinePoll(), SHIPPED);
  }

  /** Two signals go out for one event, and the row forgets the first. */
  lemma StaleScanSignalsTwice()
    ensures IsNew(Pump()) && ValidConfig(SHIPPED)
    ensures var s := Run(Start(Pump()), StaleScan(), SHIPPED);
            SignalIds(s.log) == [1, 2] && s.stored.signalId == Some(2)
  {
    MissedIsReached();
    MissedSignalsAgain();
    RunFour(Start(Pump()), Visit(ByFast(1, 1)), Save(Fast), Visit(ByScan(BaselinePoll())), Save(Scan), SHIPPED);
  }
}
