/** What every run of one tracked event keeps, whatever each visit of the two loops reads.  Visits follow one
    another here; SharedEvent interleaves the loops, each with its own copy of the event. */
module PullbackRuns {
  import opened Common
  import opened Pullback

  /** The event after some visits and everything that happened, in order. */
  function Run(e: Event, visits: seq<Visit>, c: Config): (Event, seq<Happening>)
    decreases |visits|
  {
    if visits == [] then (e, [])
    else
      var (before, log) := Run(e, visits[..|visits| - 1], c);
      var (after, what) := Visited(before, visits[|visits| - 1], c);
      (after, log + what)
  }

  /** An event as the detector builds it. */
  ghost predicate IsNew(e: Event) {
    exists id, high, highTime, base, now, expiry :: e == NewEvent(id, high, highTime, base, now, expiry)
  }

  // ---------- Reading the log ----------

  /** A pullback was detected and no confirmed high has reset it since. */
  predicate Observed(log: seq<Happening>) {
    log != [] &&
    var h := log[|log| - 1];
    h.Detected? || (!h.WasReset? && Observed(log[..|log| - 1]))
  }

  /** The pullbacks and lows of the advances since the last reset, from the detection on once there is one. */
  function SeenSince(log: seq<Happening>): seq<(real, real)> {
    if log == [] then []
    else
      var before := SeenSince(log[..|log| - 1]);
      match log[|log| - 1]
      case WasReset => []
      case Detected(pct, low) => [(pct, low)]
      case Advanced(pct, low) => before + [(pct, low)]
      case _ => before
  }

  function SignalIds(log: seq<Happening>): seq<int> {
    if log == [] then []
    else SignalIds(log[..|log| - 1]) + if log[|log| - 1].Signalled? then [log[|log| - 1].signalId] else []
  }

  function WatchTypes(log: seq<Happening>): seq<string> {
    if log == [] then []
    else WatchTypes(log[..|log| - 1]) + if log[|log| - 1].Watched? then [log[|log| - 1].watchType] else []
  }

  /** Every baseline signal finds a pullback observed. */
  predicate SignalsFollowPullbacks(log: seq<Happening>) {
    log == [] ||
    (SignalsFollowPullbacks(log[..|log| - 1])
     && (log[|log| - 1].Signalled? && log[|log| - 1].baseline ==> Observed(log[..|log| - 1])))
  }

  predicate IsMax(m: real, seen: seq<(real, real)>) {
    (exists k | 0 <= k < |seen| :: seen[k].0 == m) && forall k | 0 <= k < |seen| :: seen[k].0 <= m
  }

  predicate IsMin(m: real, seen: seq<(real, real)>) {
    (exists k | 0 <= k < |seen| :: seen[k].1 == m) && forall k | 0 <= k < |seen| :: m <= seen[k].1
  }

  predicate Distinct(s: seq<string>) { forall i, j | 0 <= i < j < |s| :: s[i] != s[j] }

  // ---------- The invariant ----------

  /** Before a detection the depth starts from zero; from it on it is exactly what was seen. */
  predicate DepthFits(e: Event, log: seq<Happening>) {
    var seen := SeenSince(log);
    if seen == [] then e.depthPct == None && e.lowPrice == None && !Observed(log)
    else
      && e.depthPct.Some? && e.lowPrice.Some? && IsMin(e.lowPrice.value, seen)
      && e.depthPct.value >= 0.0
      && (IsMax(e.depthPct.value, seen)
          || (!Observed(log) && e.depthPct.value == 0.0 && forall k | 0 <= k < |seen| :: seen[k].0 <= 0.0))
  }

  predicate StateFits(e: Event, log: seq<Happening>) {
    && (e.detectedAt.Some? <==> Observed(log))
    && (e.state in {PullbackObserved, ShortZoneActive} ==> e.detectedAt.Some?)
    && SignalsFollowPullbacks(log)
  }

  predicate SignalFits(e: Event, log: seq<Happening>) {
    SignalIds(log) == if e.signalId.Some? then [e.signalId.value] else []
  }

  predicate WatchesFit(e: Event, log: seq<Happening>) {
    Distinct(WatchTypes(log)) && (forall t | t in WatchTypes(log) :: t in e.emitted)
        && forall t | t in e.emitted :: t in WatchTypes(log)
  }

  /** What the polls have seen is in the event. */
  predicate ProgressFits(e: Event, log: seq<Happening>) { DepthFits(e, log) && StateFits(e, log) }

  predicate Fits(e: Event, log: seq<Happening>) {
    ProgressFits(e, log) && SignalFits(e, log) && WatchesFit(e, log)
  }

  lemma Snoc(log: seq<Happening>, h: Happening)
    ensures (log + [h])[..|log + [h]| - 1] == log && (log + [h])[|log + [h]| - 1] == h
  {
  }

  lemma SeenMore(seen: seq<(real, real)>, pct: real, low: real, m: real, l: real)
    requires IsMin(l, seen)
    ensures IsMin(MinReal(l, low), seen + [(pct, low)])
    ensures IsMax(m, seen) ==> IsMax(MaxReal(m, pct), seen + [(pct, low)])
    ensures pct >= m && (forall k | 0 <= k < |seen| :: seen[k].0 <= m) ==> IsMax(pct, seen + [(pct, low)])
  {
    var more := seen + [(pct, low)];
    assert more[|seen|] == (pct, low);
    var k :| 0 <= k < |seen| && seen[k].1 == l;
    assert more[k] == seen[k];
    if IsMax(m, seen) {
      var j :| 0 <= j < |seen| && seen[j].0 == m;
      assert more[j] == seen[j];
    }
  }

  lemma ResetFits(e: Event, log: seq<Happening>, f: Features, now: int)
    requires ProgressFits(e, log) && f.lastHighTime.Some?
    ensures ProgressFits(ResetTo(e, f, now), log + [WasReset])
  {
    Snoc(log, WasReset);
  }

  lemma SentFits(e: Event, log: seq<Happening>, signalId: int, now: int, baseline: bool)
    requires ProgressFits(e, log) && (baseline ==> e.detectedAt.Some?)
    ensures ProgressFits(MarkSent(e, signalId, now), log + [Signalled(signalId, baseline)])
  {
    Snoc(log, Signalled(signalId, baseline));
  }

  lemma EmitFits(e: Event, log: seq<Happening>, watchType: string)
    requires ProgressFits(e, log)
    ensures ProgressFits(Emit(e, watchType).0, log + Emit(e, watchType).1)
  {
    Snoc(log, Watched(watchType));
    assert log + [] == log;
  }

  lemma DetectionFits(e: Event, log: seq<Happening>, pct: real, low: real, now: int)
    requires ProgressFits(e, log) && pct >= 0.0
    ensures ProgressFits(e.(state := PullbackObserved, detectedAt := Some(now), depthPct := Some(pct),
                            lowPrice := Some(low), updatedAt := Some(now)), log + [Detected(pct, low)])
  {
    Snoc(log, Detected(pct, low));
    assert [(pct, low)][0] == (pct, low);
  }

  lemma AdvancedFits(e: Event, log: seq<Happening>, pct: real, low: real, now: int)
    requires ProgressFits(e, log)
    ensures ProgressFits(e.(depthPct := Some(Deeper(e.depthPct, pct)), lowPrice := Some(Lower(e.lowPrice, low)),
                            updatedAt := Some(now)), log + [Advanced(pct, low)])
  {
    var after := e.(depthPct := Some(Deeper(e.depthPct, pct)), lowPrice := Some(Lower(e.lowPrice, low)),
                    updatedAt := Some(now));
    AdvancedDepthFits(e, after, log, pct, low);
    Snoc(log, Advanced(pct, low));
  }

  lemma AdvancedDepthFits(e: Event, after: Event, log: seq<Happening>, pct: real, low: real)
    requires DepthFits(e, log)
    requires after.depthPct == Some(Deeper(e.depthPct, pct)) && after.lowPrice == Some(Lower(e.lowPrice, low))
    ensures DepthFits(after, log + [Advanced(pct, low)])
  {
    Snoc(log, Advanced(pct, low));
    var seen := SeenSince(log);
    assert (seen + [(pct, low)])[|seen|] == (pct, low);
    if seen != [] {
      SeenMore(seen, pct, low, e.depthPct.value, e.lowPrice.value);
    }
  }

  lemma AdvanceFits(e: Event, log: seq<Happening>, f: Features, now: int, c: Config)
    requires ProgressFits(e, log) && ValidConfig(c)
    ensures ProgressFits(AdvanceEvent(e, f, now, c).0, log + AdvanceEvent(e, f, now, c).1)
  {
    assert log + [] == log;
    if Expires(e, f, now) || SignalIsOld(e, now) || e.high == None || e.base == None {
    } else if ConfirmsHigh(e, f) {
      ResetFits(e, log, f, now);
    } else {
      var pct := PullbackPct(e.high.value, f.price);
      if IsPullback(e, f, c) {
        DetectionFits(e, log, pct, f.lastLow, now);
      } else {
        AdvancedFits(e, log, pct, f.lastLow, now);
      }
    }
  }

  lemma AfterAdvanceFits(e: Event, log: seq<Happening>, p: Poll, now: int, c: Config)
    requires ProgressFits(e, log)
    ensures ProgressFits(AfterAdvance(e, p, now, c).0, log + AfterAdvance(e, p, now, c).1)
  {
    assert log + [] == log;
    if e.state == PumpDetected {
      EmitFits(e, log, EARLY_PUMP_WATCH);
    } else if e.state != Expired {
      var zone := BuildZone(e, Seen(p, c), c);
      if zone.Some? {
        DecideFits(Entered(e, p, zone.value), log, p, zone.value, now, c);
      }
    }
  }

  lemma DecideFits(e: Event, log: seq<Happening>, p: Poll, zone: (real, real), now: int, c: Config)
    requires ProgressFits(e, log)
    ensures ProgressFits(Decide(e, p, zone, now, c).0, log + Decide(e, p, zone, now, c).1)
  {
    assert log + [] == log;
    if Considered(e, zone, p.final, now, c) && e.signalId == None {
      match p.verdict
      case Nothing =>
      case WatchFor(watchType) => EmitFits(e, log, watchType);
      case Short(signalId, live) =>
        if live {
          SentFits(e, log, signalId, now, true);
        }
    }
  }

  /** A poll writes into the event what it sees, whatever signal or watch the event has. */
  lemma ProcessFits(e: Event, log: seq<Happening>, p: Poll, c: Config)
    requires ProgressFits(e, log) && ValidConfig(c)
    ensures ProgressFits(Process(e, p, c).0, log + Process(e, p, c).1)
  {
    var now := p.first.asof;
    assert log + [] == log;
    if !Tracked(e) {
    } else if ConfirmsHigh(e, p.first) {
      ResetFits(e, log, p.first, now);
    } else if c.climaxEnabled && e.signalId == None && p.climax.Some? {
      SentFits(e, log, p.climax.value, p.refreshed.asof, false);
    } else {
      AdvanceFits(e, log, Seen(p, c), now, c);
      var (advanced, what) := AdvanceEvent(e, Seen(p, c), now, c);
      JoinFits(advanced, log, what, p, now, c);
    }
  }

  lemma JoinFits(e: Event, log: seq<Happening>, what: seq<Happening>, p: Poll, now: int, c: Config)
    requires ProgressFits(e, log + what)
    ensures ProgressFits(AfterAdvance(e, p, now, c).0, log + (what + AfterAdvance(e, p, now, c).1))
  {
    AfterAdvanceFits(e, log + what, p, now, c);
    assert log + what + AfterAdvance(e, p, now, c).1 == log + (what + AfterAdvance(e, p, now, c).1);
  }

  // ---------- What a visit tells ----------

  lemma {:induction false} SignalIdsTogether(a: seq<Happening>, b: seq<Happening>)
    ensures SignalIds(a + b) == SignalIds(a) + SignalIds(b)
    decreases |b|
  {
    if b == [] {
      assert a + b == a;
    } else {
      var n := |b| - 1;
      assert (a + b)[..|a + b| - 1] == a + b[..n];
      SignalIdsTogether(a, b[..n]);
    }
  }

  lemma {:induction false} WatchTypesTogether(a: seq<Happening>, b: seq<Happening>)
    ensures WatchTypes(a + b) == WatchTypes(a) + WatchTypes(b)
    decreases |b|
  {
    if b == [] {
      assert a + b == a;
    } else {
      var n := |b| - 1;
      assert (a + b)[..|a + b| - 1] == a + b[..n];
      WatchTypesTogether(a, b[..n]);
    }
  }

  /** It sends at most one signal, and only for an event without one; the event then carries its id. */
  predicate SignalsOnce(e: Event, after: Event, what: seq<Happening>) {
    if SignalIds(what) == [] then after.signalId == e.signalId
    else e.signalId == None && |SignalIds(what)| == 1 && after.signalId == Some(SignalIds(what)[0])
  }

  /** It emits at most one watch, one that the event has no mark of, and marks it. */
  predicate MarksOnce(e: Event, after: Event, what: seq<Happening>) {
    var types := WatchTypes(what);
    if types == [] then after.emitted == e.emitted
    else |types| == 1 && types[0] !in e.emitted && after.emitted == e.emitted + {types[0]}
  }

  predicate Tells(e: Event, after: Event, what: seq<Happening>) {
    SignalsOnce(e, after, what) && MarksOnce(e, after, what)
  }

  lemma OneHappening(h: Happening)
    ensures SignalIds([h]) == if h.Signalled? then [h.signalId] else []
    ensures WatchTypes([h]) == if h.Watched? then [h.watchType] else []
  {
    assert [h][..0] == [];
  }

  lemma AdvanceTellsNothing(e: Event, f: Features, now: int, c: Config)
    ensures var (after, what) := AdvanceEvent(e, f, now, c);
            && SignalIds(what) == [] && WatchTypes(what) == []
            && after.signalId == e.signalId && after.emitted == e.emitted
  {
    var what := AdvanceEvent(e, f, now, c).1;
    if what != [] {
      OneHappening(what[0]);
      assert what == [what[0]];
    }
  }

  lemma DecideTells(e: Event, p: Poll, zone: (real, real), now: int, c: Config)
    ensures Tells(e, Decide(e, p, zone, now, c).0, Decide(e, p, zone, now, c).1)
  {
    var what := Decide(e, p, zone, now, c).1;
    if what != [] {
      OneHappening(what[0]);
      assert what == [what[0]];
    }
  }

  lemma AfterAdvanceTells(e: Event, p: Poll, now: int, c: Config)
    ensures Tells(e, AfterAdvance(e, p, now, c).0, AfterAdvance(e, p, now, c).1)
  {
    if e.state == PumpDetected {
      OneHappening(Watched(EARLY_PUMP_WATCH));
    } else if e.state != Expired {
      var zone := BuildZone(e, Seen(p, c), c);
      if zone.Some? {
        DecideTells(Entered(e, p, zone.value), p, zone.value, now, c);
      }
    }
  }

  lemma ProcessTells(e: Event, p: Poll, c: Config)
    ensures Tells(e, Process(e, p, c).0, Process(e, p, c).1)
  {
    var now := p.first.asof;
    if !Tracked(e) {
    } else if ConfirmsHigh(e, p.first) {
      OneHappening(WasReset);
    } else if c.climaxEnabled && e.signalId == None && p.climax.Some? {
      OneHappening(Signalled(p.climax.value, false));
    } else {
      var (advanced, what) := AdvanceEvent(e, Seen(p, c), now, c);
      AdvanceTellsNothing(e, Seen(p, c), now, c);
      AfterAdvanceTells(advanced, p, now, c);
      QuietFirst(e, advanced, what, AfterAdvance(advanced, p, now, c).0, AfterAdvance(advanced, p, now, c).1);
    }
  }

  lemma QuietFirst(e: Event, mid: Event, what: seq<Happening>, after: Event, more: seq<Happening>)
    requires SignalIds(what) == [] && WatchTypes(what) == [] && mid.signalId == e.signalId && mid.emitted == e.emitted
    requires Tells(mid, after, more)
    ensures Tells(e, after, what + more)
  {
    SignalIdsTogether(what, more);
    WatchTypesTogether(what, more);
    assert [] + SignalIds(more) == SignalIds(more);
    assert [] + WatchTypes(more) == WatchTypes(more);
  }

  lemma VisitTells(e: Event, v: Visit, c: Config)
    ensures Tells(e, Visited(e, v, c).0, Visited(e, v, c).1)
  {
    match v
    case ByScan(p) => ProcessTells(e, p, c);
    case ByFast(signalId, _) => OneHappening(Signalled(signalId, false));
  }

  lemma SignalTold(e: Event, after: Event, log: seq<Happening>, what: seq<Happening>)
    requires SignalFits(e, log) && SignalsOnce(e, after, what)
    ensures SignalFits(after, log + what)
  {
    SignalIdsTogether(log, what);
    assert SignalIds(what) == [] ==> SignalIds(log) + SignalIds(what) == SignalIds(log);
  }

  lemma WatchTold(e: Event, after: Event, log: seq<Happening>, what: seq<Happening>)
    requires WatchesFit(e, log) && MarksOnce(e, after, what)
    ensures WatchesFit(after, log + what)
  {
    WatchTypesTogether(log, what);
    if WatchTypes(what) == [] {
      assert WatchTypes(log + what) == WatchTypes(log);
    } else {
      assert WatchTypes(log + what) == WatchTypes(log) + [WatchTypes(what)[0]];
    }
  }

  lemma VisitProgress(e: Event, log: seq<Happening>, v: Visit, c: Config)
    requires ProgressFits(e, log) && ValidConfig(c)
    ensures ProgressFits(Visited(e, v, c).0, log + Visited(e, v, c).1)
  {
    match v
    case ByScan(p) => ProcessFits(e, log, p, c);
    case ByFast(signalId, at) =>
      assert log + [] == log;
      if c.climaxEnabled && e.signalId == None {
        SentFits(e, log, signalId, at, false);
      }
  }

  lemma VisitFits(e: Event, log: seq<Happening>, v: Visit, c: Config)
    requires Fits(e, log) && ValidConfig(c)
    ensures Fits(Visited(e, v, c).0, log + Visited(e, v, c).1)
  {
    VisitProgress(e, log, v, c);
    VisitTells(e, v, c);
    SignalTold(e, Visited(e, v, c).0, log, Visited(e, v, c).1);
    WatchTold(e, Visited(e, v, c).0, log, Visited(e, v, c).1);
  }

  lemma {:induction false} RunFits(e: Event, visits: seq<Visit>, c: Config)
    requires IsNew(e) && ValidConfig(c)
    ensures Fits(Run(e, visits, c).0, Run(e, visits, c).1)
    decreases |visits|
  {
    if visits != [] {
      RunFits(e, visits[..|visits| - 1], c);
      var (before, log) := Run(e, visits[..|visits| - 1], c);
      VisitFits(before, log, visits[|visits| - 1], c);
    }
  }

  // ---------- Theorems ----------

  /** A pullback was detected before position `i` of the log, with no confirmed high in between. */
  predicate FollowsPullback(log: seq<Happening>, i: nat)
    requires i <= |log|
  {
    exists j | 0 <= j < i :: log[j].Detected? && forall k | j < k < i :: !log[k].WasReset?
  }

  lemma {:induction false} ObservedMeans(log: seq<Happening>)
    ensures Observed(log) <==> FollowsPullback(log, |log|)
  {
    if log != [] {
      var n := |log| - 1;
      ObservedMeans(log[..n]);
      if Observed(log) {
        if log[n].Detected? {
        } else {
          var j :| 0 <= j < n && log[..n][j].Detected? && forall k | j < k < n :: !log[..n][k].WasReset?;
          assert log[j].Detected? && forall k | j < k < n :: log[k] == log[..n][k];
        }
      }
      if FollowsPullback(log, |log|) {
        var j :| 0 <= j < |log| && log[j].Detected? && forall k | j < k < |log| :: !log[k].WasReset?;
        if j < n {
          assert !log[n].WasReset?;
          assert log[..n][j].Detected? && forall k | j < k < n :: log[..n][k] == log[k];
        }
      }
    }
  }

  lemma {:induction false} EverySignalFollows(log: seq<Happening>, i: nat)
    requires SignalsFollowPullbacks(log) && i < |log| && log[i].Signalled? && log[i].baseline
    ensures FollowsPullback(log, i)
  {
    var n := |log| - 1;
    if i == n {
      ObservedMeans(log[..n]);
      var j :| 0 <= j < n && log[..n][j].Detected? && forall k | j < k < n :: !log[..n][k].WasReset?;
      assert log[j].Detected? && forall k | j < k < n :: log[k] == log[..n][k];
    } else {
      EverySignalFollows(log[..n], i);
      var j :| 0 <= j < i && log[..n][j].Detected? && forall k | j < k < i :: !log[..n][k].WasReset?;
      assert log[j].Detected? && forall k | j < k < i :: log[k] == log[..n][k];
    }
  }

  /** A baseline signal is only ever emitted after a pullback observed since the last confirmed-high reset. */
  lemma SignalsFollowObservedPullbacks(e: Event, visits: seq<Visit>, c: Config, i: nat)
    requires IsNew(e) && ValidConfig(c) && i < |Run(e, visits, c).1|
    requires Run(e, visits, c).1[i].Signalled? && Run(e, visits, c).1[i].baseline
    ensures FollowsPullback(Run(e, visits, c).1, i)
  {
    RunFits(e, visits, c);
    EverySignalFollows(Run(e, visits, c).1, i);
  }

  /** When the visits follow one another there is at most one signal, and the event carries its id. */
  lemma OneSignalPerEvent(e: Event, visits: seq<Visit>, c: Config)
    requires IsNew(e) && ValidConfig(c)
    ensures var (after, log) := Run(e, visits, c);
            SignalIds(log) == if after.signalId.Some? then [after.signalId.value] else []
  {
    RunFits(e, visits, c);
  }

  /** Then each kind of watch goes out at most once as well. */
  lemma OneWatchOfAKind(e: Event, visits: seq<Visit>, c: Config)
    requires IsNew(e) && ValidConfig(c)
    ensures Distinct(WatchTypes(Run(e, visits, c).1))
    ensures forall t :: t in WatchTypes(Run(e, visits, c).1) <==> t in Run(e, visits, c).0.emitted
  {
    RunFits(e, visits, c);
  }

  /** From the detection on, the recorded depth and low are the greatest pullback and the lowest low that
      the advances have seen. */
  lemma DepthAndLowAreExact(e: Event, visits: seq<Visit>, c: Config)
    requires IsNew(e) && ValidConfig(c) && Run(e, visits, c).0.detectedAt.Some?
    ensures var (after, log) := Run(e, visits, c);
            && after.depthPct.Some? && IsMax(after.depthPct.value, SeenSince(log))
            && after.lowPrice.Some? && IsMin(after.lowPrice.value, SeenSince(log))
  {
    RunFits(e, visits, c);
  }

  /** What no visit touches: the high only rises, base and id stay, a signal id is never replaced. */
  predicate Keeps(e: Event, after: Event) {
    && after.id == e.id && after.base == e.base
    && (e.high.Some? ==> after.high.Some? && e.high.value <= after.high.value)
    && (e.signalId.Some? ==> after.signalId == e.signalId && after.high == e.high)
    && e.emitted <= after.emitted
  }

  /** The expiry time stays until expiry, and an expired event is frozen. */
  predicate KeepsExpiry(e: Event, after: Event) {
    && (after.state != Expired ==> after.expiresAt == e.expiresAt)
    && (e.state == Expired ==> after == e)
  }

  lemma DecideKeeps(e: Event, p: Poll, zone: (real, real), now: int, c: Config)
    requires e.state != Expired
    ensures var after := Decide(e, p, zone, now, c).0;
            Keeps(e, after) && KeepsExpiry(e, after) && after.state != Expired
  {
  }

  lemma AfterAdvanceKeeps(e: Event, p: Poll, now: int, c: Config)
    ensures var after := AfterAdvance(e, p, now, c).0;
            Keeps(e, after) && KeepsExpiry(e, after) && (after.state == Expired <==> e.state == Expired)
  {
    if e.state != Expired && e.state != PumpDetected {
      var zone := BuildZone(e, Seen(p, c), c);
      if zone.Some? {
        DecideKeeps(Entered(e, p, zone.value), p, zone.value, now, c);
      }
    }
  }

  lemma AdvanceKeeps(e: Event, f: Features, now: int, c: Config)
    requires e.state != Expired
    ensures Keeps(e, AdvanceEvent(e, f, now, c).0) && KeepsExpiry(e, AdvanceEvent(e, f, now, c).0)
  {
  }

  lemma ProcessKeeps(e: Event, p: Poll, c: Config)
    ensures Keeps(e, Process(e, p, c).0) && KeepsExpiry(e, Process(e, p, c).0)
  {
    if Tracked(e) {
      var advanced := AdvanceEvent(e, Seen(p, c), p.first.asof, c).0;
      AdvanceKeeps(e, Seen(p, c), p.first.asof, c);
      AfterAdvanceKeeps(advanced, p, p.first.asof, c);
      ComposeKeeps(e, advanced, AfterAdvance(advanced, p, p.first.asof, c).0);
    }
  }

  lemma ComposeKeeps(a: Event, b: Event, d: Event)
    requires Keeps(a, b) && Keeps(b, d)
    ensures Keeps(a, d)
    ensures KeepsExpiry(a, b) && KeepsExpiry(b, d) ==> KeepsExpiry(a, d)
  {
  }

  /** The fast monitor does not look at the state: its signal brings an expired event back. */
  predicate Revives(e: Event, v: Visit, c: Config) {
    v.ByFast? && c.climaxEnabled && e.state == Expired && e.signalId == None
  }

  /** That is the only visit that touches an expired event or an expiry time without expiring it. */
  lemma VisitKeepsExpiryExactly(e: Event, v: Visit, c: Config)
    ensures Keeps(e, Visited(e, v, c).0)
    ensures KeepsExpiry(e, Visited(e, v, c).0) <==> !Revives(e, v, c)
  {
    if v.ByScan? {
      ProcessKeeps(e, v.poll, c);
    }
  }

  predicate EverRevives(e: Event, visits: seq<Visit>, c: Config)
    decreases |visits|
  {
    visits != [] &&
    var before := visits[..|visits| - 1];
    EverRevives(e, before, c) || Revives(Run(e, before, c).0, visits[|visits| - 1], c)
  }

  /** Over any run from any event. */
  lemma {:induction false} RunKeeps(e: Event, visits: seq<Visit>, c: Config)
    ensures Keeps(e, Run(e, visits, c).0)
    ensures !EverRevives(e, visits, c) ==> KeepsExpiry(e, Run(e, visits, c).0)
    decreases |visits|
  {
    if visits != [] {
      RunKeeps(e, visits[..|visits| - 1], c);
      var before := Run(e, visits[..|visits| - 1], c).0;
      VisitKeepsExpiryExactly(before, visits[|visits| - 1], c);
      ComposeKeeps(e, before, Visited(before, visits[|visits| - 1], c).0);
    }
  }

  /** A poll that neither resets the event nor saves a climax signal expires it exactly at its expiry time,
      below the kill price, or fifteen minutes after its signal. */
  lemma ExpiresExactly(e: Event, p: Poll, c: Config)
    requires Tracked(e) && !ConfirmsHigh(e, p.first) && !(c.climaxEnabled && e.signalId == None && p.climax.Some?)
    ensures var now, price := p.first.asof, Seen(p, c).price;
            Process(e, p, c).0.state == Expired <==>
              || (e.expiresAt.Some? && now >= e.expiresAt.value)
              || (e.high.Some? && e.base.Some? && price < KillPrice(e.base.value, e.high.value))
              || (e.sentAt.Some? && now >= e.sentAt.value + 15)
  {
    AfterAdvanceKeeps(AdvanceEvent(e, Seen(p, c), p.first.asof, c).0, p, p.first.asof, c);
  }

  /** The visit is a poll that expires the event. */
  predicate Ends(e: Event, v: Visit, c: Config) {
    v.ByScan? && Tracked(e) && !ConfirmsHigh(e, v.poll.first)
    && !(c.climaxEnabled && e.signalId == None && v.poll.climax.Some?)
    && (Expires(e, Seen(v.poll, c), v.poll.first.asof) || SignalIsOld(e, v.poll.first.asof))
  }

  lemma VisitExpires(e: Event, v: Visit, c: Config)
    requires e.state != Idle
    ensures Visited(e, v, c).0.state == Expired <==> Ends(e, v, c) || (e.state == Expired && !Revives(e, v, c))
    ensures Visited(e, v, c).0.state != Idle
  {
    if v.ByScan? && Tracked(e) && !ConfirmsHigh(e, v.poll.first) {
      var advanced := AdvanceEvent(e, Seen(v.poll, c), v.poll.first.asof, c).0;
      AfterAdvanceKeeps(advanced, v.poll, v.poll.first.asof, c);
      NeverIdle(advanced, v.poll, v.poll.first.asof, c);
      if !(c.climaxEnabled && e.signalId == None && v.poll.climax.Some?) {
        ExpiresExactly(e, v.poll, c);
      }
    }
  }

  lemma NeverIdle(e: Event, p: Poll, now: int, c: Config)
    requires e.state != Idle
    ensures AfterAdvance(e, p, now, c).0.state != Idle
  {
  }

  /** Some poll of the run expires the event, and no visit after it revives it. */
  predicate EndedForGood(e: Event, visits: seq<Visit>, c: Config)
    decreases |visits|
  {
    visits != [] &&
    var before, last := visits[..|visits| - 1], visits[|visits| - 1];
    Ends(Run(e, before, c).0, last, c) || (EndedForGood(e, before, c) && !Revives(Run(e, before, c).0, last, c))
  }

  /** After any run a tracked event is expired exactly when some poll found it past its expiry time, below the
      kill price or fifteen minutes after its signal, and the monitor has not revived it since. */
  lemma {:induction false} RunExpiresExactly(e: Event, visits: seq<Visit>, c: Config)
    requires Tracked(e)
    ensures Run(e, visits, c).0.state == Expired <==> EndedForGood(e, visits, c)
    ensures Run(e, visits, c).0.state != Idle
    decreases |visits|
  {
    if visits != [] {
      RunExpiresExactly(e, visits[..|visits| - 1], c);
      VisitExpires(Run(e, visits[..|visits| - 1], c).0, visits[|visits| - 1], c);
    }
  }

  // ---------- SIGNAL_SENT ----------

  lemma SentDecides(e: Event, p: Poll, now: int, c: Config)
    requires e.state == SignalSent
    ensures AfterAdvance(e, p, now, c).0.state == SignalSent
  {
  }

  /** A signalled event stays SIGNAL_SENT exactly until it expires or its first pullback is observed. */
  lemma SentStaysExactly(e: Event, p: Poll, c: Config)
    requires e.state == SignalSent && e.signalId.Some? && e.high.Some? && e.base.Some?
    ensures var now, f := p.first.asof, Seen(p, c);
            Process(e, p, c).0.state == SignalSent
            <==> !Expires(e, f, now) && !SignalIsOld(e, now) && !IsPullback(e, f, c)
  {
    var advanced := AdvanceEvent(e, Seen(p, c), p.first.asof, c).0;
    if advanced.state == SignalSent {
      SentDecides(advanced, p, p.first.asof, c);
    } else if advanced.state == PullbackObserved {
      ObservedMoves(advanced, p, p.first.asof, c);
    }
  }

  /** The visit is a poll that expires the event or observes its first pullback. */
  predicate LeavesSent(e: Event, v: Visit, c: Config) {
    v.ByScan? && e.high.Some? && e.base.Some? &&
    var now, f := v.poll.first.asof, Seen(v.poll, c);
    Expires(e, f, now) || SignalIsOld(e, now) || IsPullback(e, f, c)
  }

  predicate AlwaysSent(e: Event, visits: seq<Visit>, c: Config)
    decreases |visits|
  {
    Run(e, visits, c).0.state == SignalSent && (visits != [] ==> AlwaysSent(e, visits[..|visits| - 1], c))
  }

  predicate NeverLeaves(e: Event, visits: seq<Visit>, c: Config)
    decreases |visits|
  {
    visits != [] ==>
      && NeverLeaves(e, visits[..|visits| - 1], c)
      && !LeavesSent(Run(e, visits[..|visits| - 1], c).0, visits[|visits| - 1], c)
  }

  /** Over any run a signalled event stays SIGNAL_SENT exactly as long as no poll expires it or observes a first
      pullback; the monitor never moves it. */
  lemma {:induction false} SentLastsExactly(e: Event, visits: seq<Visit>, c: Config)
    requires e.state == SignalSent && e.signalId.Some? && e.high.Some? && e.base.Some?
    ensures AlwaysSent(e, visits, c) <==> NeverLeaves(e, visits, c)
    decreases |visits|
  {
    if visits != [] {
      var before, last := visits[..|visits| - 1], visits[|visits| - 1];
      SentLastsExactly(e, before, c);
      RunKeeps(e, before, c);
      if AlwaysSent(e, before, c) && last.ByScan? {
        SentStaysExactly(Run(e, before, c).0, last.poll, c);
      }
    }
  }

  lemma ObservedMoves(e: Event, p: Poll, now: int, c: Config)
    requires e.state == PullbackObserved && e.signalId.Some?
    ensures AfterAdvance(e, p, now, c).0.state in {PullbackObserved, ShortZoneActive}
  {
  }

  predicate SentWasObserved(e: Event) { e.state == SignalSent ==> e.detectedAt.Some? && e.signalId.Some? }

  lemma BaselineSendsObserved(e: Event, p: Poll, c: Config)
    requires !c.climaxEnabled && SentWasObserved(e)
             && (e.state in {PullbackObserved, ShortZoneActive} ==> e.detectedAt.Some?)
    ensures SentWasObserved(Process(e, p, c).0)
  {
    if Tracked(e) && !ConfirmsHigh(e, p.first) {
      var now := p.first.asof;
      var advanced := AdvanceEvent(e, Seen(p, c), now, c).0;
      assert SentWasObserved(advanced)
          && (advanced.state in {PullbackObserved, ShortZoneActive} ==> advanced.detectedAt.Some?);
      AfterAdvanceSendsObserved(advanced, p, now, c);
    }
  }

  lemma AfterAdvanceSendsObserved(e: Event, p: Poll, now: int, c: Config)
    requires SentWasObserved(e) && (e.state in {PullbackObserved, ShortZoneActive} ==> e.detectedAt.Some?)
    ensures SentWasObserved(AfterAdvance(e, p, now, c).0)
  {
  }

  lemma {:induction false} BaselineRunSendsObserved(e: Event, visits: seq<Visit>, c: Config)
    requires IsNew(e) && ValidConfig(c) && !c.climaxEnabled
    ensures SentWasObserved(Run(e, visits, c).0)
    decreases |visits|
  {
    if visits != [] {
      var before, last := visits[..|visits| - 1], visits[|visits| - 1];
      BaselineRunSendsObserved(e, before, c);
      RunFits(e, before, c);
      if last.ByScan? {
        BaselineSendsObserved(Run(e, before, c).0, last.poll, c);
      }
    }
  }

  /** Without the climax path a sent event is only ever left by expiry. */
  lemma BaselineSentOnlyExpires(e: Event, visits: seq<Visit>, next: Visit, c: Config)
    requires IsNew(e) && ValidConfig(c) && !c.climaxEnabled && Run(e, visits, c).0.state == SignalSent
    ensures Visited(Run(e, visits, c).0, next, c).0.state in {SignalSent, Expired}
  {
    BaselineRunSendsObserved(e, visits, c);
    var sent := Run(e, visits, c).0;
    if next.ByScan? {
      var p := next.poll;
      var advanced := AdvanceEvent(sent, Seen(p, c), p.first.asof, c).0;
      assert advanced.state in {SignalSent, Expired};
      if advanced.state == SignalSent {
        SentDecides(advanced, p, p.first.asof, c);
      }
    }
  }

  /** With it, a signal saved before any pullback lets the next pullback take the event back to
      PULLBACK_OBSERVED: only the signal id then stands against a second signal. */
  lemma SentIsNotAbsorbing(c: Config) returns (e: Event, visits: seq<Visit>)
    requires ValidConfig(c) && c.climaxEnabled && c.pullbackMinPct <= 10.0 <= c.pullbackMaxPct
             && c.holdRangeFloorPct <= 0.5
    ensures IsNew(e) && |visits| == 2 && Run(e, visits[..1], c).0.state == SignalSent
    ensures Run(e, visits, c).0.state in {PullbackObserved, ShortZoneActive} && Run(e, visits, c).0.signalId == Some(1)
  {
    e := NewEvent("event", 100.0, 0, 80.0, 0, 60);
    var f := Features(1, 90.0, 90.0, None, 90.0, c.holdVwapMin, 1.0);
    var climax, quiet := Poll(f, f, f, Some(1), false, Nothing), Poll(f, f, f, None, false, Nothing);
    visits := [ByScan(climax), ByScan(quiet)];
    assert visits[..1] == [ByScan(climax)] && [ByScan(climax)][..0] == [];
    var sent := Process(e, climax, c).0;
    assert Run(e, [ByScan(climax)], c).0 == sent;
    assert PullbackPct(100.0, 90.0) == 10.0;
    assert FloorPrice(80.0, 100.0, c) <= 90.0;
    assert IsPullback(sent, f, c);
    ObservedMoves(AdvanceEvent(sent, f, 1, c).0, quiet, 1, c);
    ProcessKeeps(sent, quiet, c);
    assert Run(e, visits, c).0 == Process(sent, quiet, c).0;
  }

  /** EXPIRED is not absorbing either: a poll expires the event below its kill price, and a signal of the fast
      monitor, which still has it in its pool, makes it SIGNAL_SENT. */
  lemma ExpiredIsNotAbsorbing(c: Config) returns (e: Event, visits: seq<Visit>)
    requires ValidConfig(c) && c.climaxEnabled
    ensures IsNew(e) && |visits| == 2 && Run(e, visits[..1], c).0.state == Expired
    ensures Run(e, visits, c).0.state == SignalSent
  {
    e := NewEvent("event", 100.0, 0, 80.0, 0, 60);
    var f := Features(1, 86.0, 86.0, None, 86.0, 0.0, 1.0);
    var late := Poll(f, f, f, None, false, Nothing);
    visits := [ByScan(late), ByFast(1, 2)];
    assert visits[..1] == [ByScan(late)] && [ByScan(late)][..0] == [];
    var expired := Process(e, late, c).0;
    assert KillPrice(80.0, 100.0) == 87.0;
    assert Run(e, [ByScan(late)], c).0 == expired;
    assert Run(e, visits, c).0 == MarkSent(expired, 1, 2);
  }
}
