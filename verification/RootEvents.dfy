/** Two independent counters of record highs: the persisted root event
    (app/storage/repository.py) and the volume-climax lifecycle (app/signals/climax.py).
    Prices are reals, absent or finite; times are integers, in microseconds. */
module RootEvents {
  import opened Common

  const MINUTE := 60_000_000

  // ---------- The persisted root event ----------

  type RootId = string

  datatype RootEvent = RootEvent(
    symbol: string, startedAt: Option<int>, basePrice: Option<real>,
    peakHigh: Option<real>, peakHighAt: Option<int>, revision: nat,
    extension: Option<real>, extensionSource: Option<string>, extensionAt: Option<int>, lastObservedAt: int)

  datatype Sighting = Sighting(
    symbol: string, startedAt: Option<int>, basePrice: Option<real>, high: Option<real>, highAt: Option<int>,
    extension: Option<real>, source: Option<string>, at: int)

  function NewRoot(s: Sighting): RootEvent {
    RootEvent(s.symbol, s.startedAt, s.basePrice, s.high, s.highAt, 1,
              s.extension, s.source, if s.extension.Some? then Some(s.at) else None, s.at)
  }

  predicate Above(high: Option<real>, peak: Option<real>) {
    high.Some? && (peak == None || high.value > peak.value)
  }

  function Seen(r: RootEvent, s: Sighting): RootEvent {
    var risen := if Above(s.high, r.peakHigh)
      then r.(peakHigh := s.high, peakHighAt := s.highAt, revision := r.revision + 1) else r;
    var frozen := if r.extension == None && s.extension.Some?
      then risen.(extension := s.extension, extensionSource := s.source, extensionAt := Some(s.at)) else risen;
    frozen.(lastObservedAt := s.at)
  }

  /** A sighting creates the root or is recorded on it. */
  function Upsert(roots: map<RootId, RootEvent>, id: RootId, s: Sighting): map<RootId, RootEvent> {
    roots[id := if id in roots then Seen(roots[id], s) else NewRoot(s)]
  }

  class Repository {
    var roots: map<RootId, RootEvent>

    constructor ()
      ensures roots == map[]
    {
      roots := map[];
    }

    /** Creates the root or records one more sighting of it. */
    method UpsertShadowRootEvent(id: RootId, s: Sighting) returns (revision: nat, extension: Option<real>)
      modifies this
      ensures roots == Upsert(old(roots), id, s)
      ensures id in roots && revision == roots[id].revision && extension == roots[id].extension
    {
      if id !in roots {
        roots := roots[id := NewRoot(s)];
      } else {
        var r := roots[id];
        if s.high.Some? && (r.peakHigh == None || s.high.value > r.peakHigh.value) {
          r := r.(peakHigh := s.high, peakHighAt := s.highAt, revision := r.revision + 1);
        }
        if r.extension == None && s.extension.Some? {
          r := r.(extension := s.extension, extensionSource := s.source, extensionAt := Some(s.at));
        }
        roots := roots[id := r.(lastObservedAt := s.at)];
      }
      revision, extension := roots[id].revision, roots[id].extension;
    }
  }

  function SeenAll(r: RootEvent, ss: seq<Sighting>): RootEvent {
    if ss == [] then r else Seen(SeenAll(r, ss[..|ss| - 1]), ss[|ss| - 1])
  }

  // ---------- What both count ----------

  /** Position `i` is a strict record: above the start and above everything offered before it. */
  predicate IsRecord(start: Option<real>, highs: seq<Option<real>>, i: nat)
    requires i < |highs|
  {
    Above(highs[i], start) && forall j | 0 <= j < i :: Above(highs[i], highs[j])
  }

  function Records(start: Option<real>, highs: seq<Option<real>>): set<nat> {
    set i: nat | i < |highs| && IsRecord(start, highs, i)
  }

  /** `top` is the greatest of the start and the offered highs. */
  predicate IsMaximum(top: Option<real>, start: Option<real>, highs: seq<Option<real>>) {
    && (top == start || top in highs)
    && !Above(start, top)
    && forall i | 0 <= i < |highs| :: !Above(highs[i], top)
  }

  lemma RecordsSnoc(start: Option<real>, highs: seq<Option<real>>, high: Option<real>)
    ensures Records(start, highs + [high])
         == Records(start, highs) + if IsRecord(start, highs + [high], |highs|) then {|highs|} else {}
    ensures |Records(start, highs + [high])|
         == |Records(start, highs)| + if IsRecord(start, highs + [high], |highs|) then 1 else 0
  {
    forall i: nat | i < |highs| ensures IsRecord(start, highs + [high], i) <==> IsRecord(start, highs, i) {
      EarlierRecord(start, highs, high, i);
    }
    var all, before := Records(start, highs + [high]), Records(start, highs);
    forall i | i in all ensures i in before || i == |highs| {
    }
    if IsRecord(start, highs + [high], |highs|) {
      assert all == before + {|highs|};
    } else {
      assert all == before;
    }
  }

  lemma EarlierRecord(start: Option<real>, highs: seq<Option<real>>, high: Option<real>, i: nat)
    requires i < |highs|
    ensures IsRecord(start, highs + [high], i) <==> IsRecord(start, highs, i)
  {
    assert forall j | 0 <= j <= i :: (highs + [high])[j] == highs[j];
  }

  /** A high above the maximum so far is a record, and nothing else is. */
  lemma RecordIsAboveMaximum(top: Option<real>, start: Option<real>, highs: seq<Option<real>>, high: Option<real>)
    requires IsMaximum(top, start, highs)
    ensures IsRecord(start, highs + [high], |highs|) <==> Above(high, top)
    ensures IsMaximum(if Above(high, top) then high else top, start, highs + [high])
  {
    var all := highs + [high];
    if IsRecord(start, all, |highs|) && top in highs {
      var j :| 0 <= j < |highs| && highs[j] == top;
      assert Above(all[|highs|], all[j]);
    }
  }

  function HighsOf(ss: seq<Sighting>): (highs: seq<Option<real>>)
    ensures |highs| == |ss|
  {
    seq(|ss|, i requires 0 <= i < |ss| => ss[i].high)
  }

  /** The stored revision grows by one per strict record high, and the stored peak is the maximum. */
  lemma {:induction false} RootCountsRecords(r: RootEvent, ss: seq<Sighting>)
    ensures var after := SeenAll(r, ss);
            && after.revision == r.revision + |Records(r.peakHigh, HighsOf(ss))|
            && IsMaximum(after.peakHigh, r.peakHigh, HighsOf(ss))
  {
    if ss == [] {
      assert Records(r.peakHigh, HighsOf(ss)) == {};
    } else {
      var n := |ss| - 1;
      RootCountsRecords(r, ss[..n]);
      var mid := SeenAll(r, ss[..n]);
      assert HighsOf(ss) == HighsOf(ss[..n]) + [ss[n].high];
      RecordsSnoc(r.peakHigh, HighsOf(ss[..n]), ss[n].high);
      RecordIsAboveMaximum(mid.peakHigh, r.peakHigh, HighsOf(ss[..n]), ss[n].high);
    }
  }

  /** The extension, its source and its time come from the first sighting that offered one, and stay. */
  lemma {:induction false} ExtensionIsFirstOffered(r: RootEvent, ss: seq<Sighting>, i: nat)
    requires r.extension == None && i < |ss| && ss[i].extension.Some?
    requires forall j | 0 <= j < i :: ss[j].extension == None
    ensures var after := SeenAll(r, ss);
            after.extension == ss[i].extension && after.extensionSource == ss[i].source
                && after.extensionAt == Some(ss[i].at)
  {
    var n := |ss| - 1;
    if i < n {
      ExtensionIsFirstOffered(r, ss[..n], i);
    } else {
      NoOfferNoExtension(r, ss[..n]);
    }
  }

  lemma {:induction false} NoOfferNoExtension(r: RootEvent, ss: seq<Sighting>)
    requires r.extension.Some? || forall j | 0 <= j < |ss| :: ss[j].extension == None
    ensures var after := SeenAll(r, ss);
            after.extension == r.extension && after.extensionSource == r.extensionSource
                && after.extensionAt == r.extensionAt
  {
    if ss != [] {
      NoOfferNoExtension(r, ss[..|ss| - 1]);
    }
  }

  // ---------- The volume-climax lifecycle ----------

  datatype LifecycleState = Watching | FallbackReady | Expired

  datatype Veto =
    | RootLifetimeExpired | InsufficientClosedCandles | ConfirmationWindowOpen | PriceAccelerationResumed
    | ActiveShortSqueeze | OiContinuation | RejectionMissing | LiquidityNotConfirmed | EntryDistanceNotConfirmed

  datatype Lifecycle = Lifecycle(
    state: LifecycleState, revision: int, rootCreatedAt: int, latestHigh: real, latestHighAt: int,
    confirmationStartedAt: int, lastObservedAt: int, vetoes: seq<Veto>, expired: bool)

  datatype Config = Config(maxLifetimeMinutes: int, windowMinutes: int, minClosedCandles: int)

  datatype Observation = Observation(
    high: real, at: int, closedCandles: int, accelerating: bool, squeeze: bool, oiContinuation: bool,
    rejectionOk: bool, liquidityOk: bool, distanceOk: bool)

  datatype LifecycleError = ObservedBeforeRoot | NonPositiveHigh

  predicate WithinLifetime(l: Lifecycle, at: int, c: Config) {
    at - l.rootCreatedAt <= c.maxLifetimeMinutes * MINUTE
  }

  predicate WindowElapsed(from: int, at: int, c: Config) {
    at - from >= c.windowMinutes * MINUTE
  }

  function Also(vetoes: seq<Veto>, b: bool, v: Veto): seq<Veto> { if b then vetoes + [v] else vetoes }

  function Vetoes(l: Lifecycle, o: Observation, c: Config): seq<Veto> {
    var v1 := Also([], o.closedCandles < c.minClosedCandles, InsufficientClosedCandles);
    var v2 := Also(v1, !WindowElapsed(l.confirmationStartedAt, o.at, c), ConfirmationWindowOpen);
    var v3 := Also(v2, o.accelerating, PriceAccelerationResumed);
    var v4 := Also(v3, o.squeeze, ActiveShortSqueeze);
    var v5 := Also(v4, o.oiContinuation, OiContinuation);
    var v6 := Also(v5, !o.rejectionOk, RejectionMissing);
    var v7 := Also(v6, !o.liquidityOk, LiquidityNotConfirmed);
    Also(v7, !o.distanceOk, EntryDistanceNotConfirmed)
  }

  function Advance(l: Lifecycle, o: Observation, c: Config): Result<Lifecycle, LifecycleError> {
    if o.at < l.rootCreatedAt then Err(ObservedBeforeRoot)
    else if o.high <= 0.0 || l.latestHigh <= 0.0 then Err(NonPositiveHigh)
    else if !WithinLifetime(l, o.at, c) then
      Ok(l.(state := Expired, lastObservedAt := o.at, vetoes := [RootLifetimeExpired], expired := true))
    else if o.high > l.latestHigh then
      Ok(Lifecycle(Watching, l.revision + 1, l.rootCreatedAt, o.high, o.at, o.at, o.at, [], false))
    else
      var vetoes := Vetoes(l, o, c);
      Ok(l.(state := if vetoes == [] then FallbackReady else Watching, lastObservedAt := o.at, vetoes := vetoes,
            expired := false))
  }

  /** The lifecycle decision, its veto list built entry by entry. */
  method AdvanceVolumeClimaxLifecycle(l: Lifecycle, o: Observation, c: Config)
    returns (r: Result<Lifecycle, LifecycleError>)
    ensures r == Advance(l, o, c)
  {
    if o.at < l.rootCreatedAt {
      return Err(ObservedBeforeRoot);
    }
    if o.high <= 0.0 || l.latestHigh <= 0.0 {
      return Err(NonPositiveHigh);
    }
    if o.at - l.rootCreatedAt > c.maxLifetimeMinutes * MINUTE {
      return Ok(l.(state := Expired, lastObservedAt := o.at, vetoes := [RootLifetimeExpired], expired := true));
    }
    if o.high > l.latestHigh {
      return Ok(Lifecycle(Watching, l.revision + 1, l.rootCreatedAt, o.high, o.at, o.at, o.at, [], false));
    }
    var reasons := [];
    if o.closedCandles < c.minClosedCandles { reasons := reasons + [InsufficientClosedCandles]; }
    if o.at - l.confirmationStartedAt < c.windowMinutes * MINUTE { reasons := reasons + [ConfirmationWindowOpen]; }
    if o.accelerating { reasons := reasons + [PriceAccelerationResumed]; }
    if o.squeeze { reasons := reasons + [ActiveShortSqueeze]; }
    if o.oiContinuation { reasons := reasons + [OiContinuation]; }
    if !o.rejectionOk { reasons := reasons + [RejectionMissing]; }
    if !o.liquidityOk { reasons := reasons + [LiquidityNotConfirmed]; }
    if !o.distanceOk { reasons := reasons + [EntryDistanceNotConfirmed]; }
    r := Ok(l.(state := if reasons == [] then FallbackReady else Watching, lastObservedAt := o.at, vetoes := reasons,
               expired := false));
  }

  /** The caller feeds each result into the next call; a rejected call changes nothing. */
  function Next(l: Lifecycle, o: Observation, c: Config): Lifecycle {
    match Advance(l, o, c) case Ok(l') => l' case Err(_) => l
  }

  function AdvanceAll(l: Lifecycle, os: seq<Observation>, c: Config): Lifecycle {
    if os == [] then l else Next(AdvanceAll(l, os[..|os| - 1], c), os[|os| - 1], c)
  }

  function HighsSeen(os: seq<Observation>): (highs: seq<Option<real>>)
    ensures |highs| == |os|
  {
    seq(|os|, i requires 0 <= i < |os| => Some(os[i].high))
  }

  /** What the callers feed: positive highs, times that never fall and start at or after the root. */
  predicate WellFed(l: Lifecycle, os: seq<Observation>) {
    && l.latestHigh > 0.0
    && (forall i | 0 <= i < |os| :: os[i].high > 0.0 && os[i].at >= l.rootCreatedAt)
    && (forall i, j | 0 <= i < j < |os| :: os[i].at <= os[j].at)
  }

  lemma {:induction false} RootTimeNeverMoves(l: Lifecycle, os: seq<Observation>, c: Config)
    requires WellFed(l, os)
    ensures AdvanceAll(l, os, c).rootCreatedAt == l.rootCreatedAt
    ensures AdvanceAll(l, os, c).latestHigh >= l.latestHigh
    ensures AdvanceAll(l, os, c).revision >= l.revision
  {
    if os != [] {
      RootTimeNeverMoves(l, os[..|os| - 1], c);
    }
  }

  /** Within its lifetime the lifecycle counts exactly the strict record highs. */
  lemma {:induction false} LifecycleCountsRecords(l: Lifecycle, os: seq<Observation>, c: Config)
    requires WellFed(l, os) && forall i | 0 <= i < |os| :: WithinLifetime(l, os[i].at, c)
    ensures var after := AdvanceAll(l, os, c);
            && after.revision == l.revision + |Records(Some(l.latestHigh), HighsSeen(os))|
            && IsMaximum(Some(after.latestHigh), Some(l.latestHigh), HighsSeen(os))
  {
    if os == [] {
      assert Records(Some(l.latestHigh), HighsSeen(os)) == {};
    } else {
      var n := |os| - 1;
      LifecycleCountsRecords(l, os[..n], c);
      RootTimeNeverMoves(l, os[..n], c);
      var mid := AdvanceAll(l, os[..n], c);
      assert HighsSeen(os) == HighsSeen(os[..n]) + [Some(os[n].high)];
      RecordsSnoc(Some(l.latestHigh), HighsSeen(os[..n]), Some(os[n].high));
      RecordIsAboveMaximum(Some(mid.latestHigh), Some(l.latestHigh), HighsSeen(os[..n]), Some(os[n].high));
    }
  }

  lemma MaximumIsUnique(a: Option<real>, b: Option<real>, start: Option<real>, highs: seq<Option<real>>)
    requires IsMaximum(a, start, highs) && IsMaximum(b, start, highs) && start.Some?
    ensures a == b
  {
  }

  /** The two counters agree: fed the same highs from the same start, and until the lifetime runs out,
      they hold the same high and the same revision. */
  lemma CountersAgree(r: RootEvent, ss: seq<Sighting>, l: Lifecycle, os: seq<Observation>, c: Config)
    requires r.peakHigh == Some(l.latestHigh) && r.revision == l.revision
    requires HighsOf(ss) == HighsSeen(os)
    requires WellFed(l, os) && forall i | 0 <= i < |os| :: WithinLifetime(l, os[i].at, c)
    ensures SeenAll(r, ss).peakHigh == Some(AdvanceAll(l, os, c).latestHigh)
    ensures SeenAll(r, ss).revision == AdvanceAll(l, os, c).revision
  {
    RootCountsRecords(r, ss);
    LifecycleCountsRecords(l, os, c);
    MaximumIsUnique(SeenAll(r, ss).peakHigh, Some(AdvanceAll(l, os, c).latestHigh), r.peakHigh, HighsOf(ss));
  }

  /** From agreement, one more shared high parts the counters exactly when it is a record that comes
      after the root's lifetime. */
  lemma CountersPartExactly(r: RootEvent, s: Sighting, l: Lifecycle, o: Observation, c: Config)
    requires r.peakHigh == Some(l.latestHigh) && r.revision == l.revision
    requires s.high == Some(o.high) && WellFed(l, [o])
    ensures (Seen(r, s).peakHigh == Some(Next(l, o, c).latestHigh) && Seen(r, s).revision == Next(l, o, c).revision)
       <==> !(o.high > l.latestHigh && !WithinLifetime(l, o.at, c))
  {
    assert [o][0] == o;
  }

  /** EXPIRED is absorbing: later observations find it expired, with high, revision and window frozen. */
  lemma {:induction false} ExpiredIsAbsorbing(l: Lifecycle, os: seq<Observation>, c: Config)
    requires WellFed(l, os) && forall i | 0 <= i < |os| :: !WithinLifetime(l, os[i].at, c)
    ensures var after := AdvanceAll(l, os, c);
            && after.revision == l.revision && after.latestHigh == l.latestHigh
            && after.latestHighAt == l.latestHighAt && after.confirmationStartedAt == l.confirmationStartedAt
            && (os != [] ==> after.state == Expired && after.expired)
  {
    if os != [] {
      var n := |os| - 1;
      ExpiredIsAbsorbing(l, os[..n], c);
      RootTimeNeverMoves(l, os[..n], c);
    }
  }

  lemma {:induction false} AdvanceAllAppend(l: Lifecycle, xs: seq<Observation>, ys: seq<Observation>, c: Config)
    ensures AdvanceAll(l, xs + ys, c) == AdvanceAll(AdvanceAll(l, xs, c), ys, c)
    decreases |ys|
  {
    if ys == [] {
      assert xs + ys == xs;
    } else {
      assert (xs + ys)[..|xs + ys| - 1] == xs + ys[..|ys| - 1];
      AdvanceAllAppend(l, xs, ys[..|ys| - 1], c);
    }
  }

  lemma SuffixWellFed(l: Lifecycle, mid: Lifecycle, os: seq<Observation>, k: nat)
    requires WellFed(l, os) && k <= |os| && mid.rootCreatedAt == l.rootCreatedAt && mid.latestHigh >= l.latestHigh
    ensures WellFed(mid, os[k..])
  {
    forall i | 0 <= i < |os[k..]| ensures os[k..][i].high > 0.0 && os[k..][i].at >= mid.rootCreatedAt {
      assert os[k..][i] == os[k + i];
    }
  }

  lemma ExpiredExactly(l: Lifecycle, os: seq<Observation>, c: Config)
    requires WellFed(l, os) && os != []
    ensures AdvanceAll(l, os, c).state == Expired <==> !WithinLifetime(l, os[|os| - 1].at, c)
  {
    RootTimeNeverMoves(l, os[..|os| - 1], c);
  }

  /** A run that reported EXPIRED once reports it ever after, and counts no more records. */
  lemma OnceExpiredAlwaysExpired(l: Lifecycle, os: seq<Observation>, k: nat, c: Config)
    requires WellFed(l, os) && 0 < k <= |os| && AdvanceAll(l, os[..k], c).state == Expired
    ensures AdvanceAll(l, os, c).state == Expired
    ensures AdvanceAll(l, os, c).revision == AdvanceAll(l, os[..k], c).revision
    ensures AdvanceAll(l, os, c).latestHigh == AdvanceAll(l, os[..k], c).latestHigh
  {
    assert os == os[..k] + os[k..];
    AdvanceAllAppend(l, os[..k], os[k..], c);
    ExpiredExactly(l, os[..k], c);
    RootTimeNeverMoves(l, os[..k], c);
    var mid := AdvanceAll(l, os[..k], c);
    SuffixWellFed(l, mid, os, k);
    forall i | 0 <= i < |os[k..]| ensures !WithinLifetime(mid, os[k..][i].at, c) {
      assert os[k..][i] == os[k + i] && os[k - 1].at <= os[k + i].at;
    }
    ExpiredIsAbsorbing(mid, os[k..], c);
  }

  // ---------- When the fallback is ready ----------

  /** The last observation of a living run is a record exactly when it tops the high held before it. */
  lemma LastRecord(l: Lifecycle, os: seq<Observation>, c: Config)
    requires WellFed(l, os) && os != [] && forall i | 0 <= i < |os| - 1 :: WithinLifetime(l, os[i].at, c)
    ensures var n := |os| - 1;
            Records(Some(l.latestHigh), HighsSeen(os))
            == Records(Some(l.latestHigh), HighsSeen(os[..n]))
               + if os[n].high > AdvanceAll(l, os[..n], c).latestHigh then {n} else {}
  {
    var n := |os| - 1;
    LifecycleCountsRecords(l, os[..n], c);
    assert HighsSeen(os) == HighsSeen(os[..n]) + [Some(os[n].high)];
    RecordsSnoc(Some(l.latestHigh), HighsSeen(os[..n]), Some(os[n].high));
    RecordIsAboveMaximum(Some(AdvanceAll(l, os[..n], c).latestHigh), Some(l.latestHigh), HighsSeen(os[..n]),
                         Some(os[n].high));
  }

  /** The window starts at the last record high, or where it started if there was none. */
  ghost predicate WindowStart(l: Lifecycle, os: seq<Observation>, records: set<nat>, start: int)
    requires forall i | i in records :: i < |os|
  {
    && start >= l.confirmationStartedAt
    && (forall i | i in records :: os[i].at <= start)
    && (start == l.confirmationStartedAt || exists i :: i in records && os[i].at == start)
  }

  lemma {:induction false} WindowStartsAtLastRecord(l: Lifecycle, os: seq<Observation>, c: Config)
    requires WellFed(l, os) && forall i | 0 <= i < |os| :: WithinLifetime(l, os[i].at, c)
    requires os != [] ==> l.confirmationStartedAt <= os[0].at
    ensures WindowStart(l, os, Records(Some(l.latestHigh), HighsSeen(os)), AdvanceAll(l, os, c).confirmationStartedAt)
  {
    if os != [] {
      var n := |os| - 1;
      WindowStartsAtLastRecord(l, os[..n], c);
      RootTimeNeverMoves(l, os[..n], c);
      LastRecord(l, os, c);
      WindowStartSnoc(l, os, Records(Some(l.latestHigh), HighsSeen(os[..n])),
                      AdvanceAll(l, os[..n], c).confirmationStartedAt);
    }
  }

  lemma WindowStartSnoc(l: Lifecycle, os: seq<Observation>, records: set<nat>, start: int)
    requires os != [] && (forall i, j | 0 <= i < j < |os| :: os[i].at <= os[j].at)
             && l.confirmationStartedAt <= os[0].at
    requires forall i | i in records :: i < |os| - 1
    requires WindowStart(l, os[..|os| - 1], records, start)
    ensures WindowStart(l, os, records, start)
    ensures WindowStart(l, os, records + {|os| - 1}, os[|os| - 1].at)
  {
    var n := |os| - 1;
    if start != l.confirmationStartedAt {
      var i :| i in records && os[..n][i].at == start;
      assert i in records && os[i].at == start;
    }
    assert n in records + {n};
  }

  predicate GatesOpen(o: Observation, c: Config) {
    o.closedCandles >= c.minClosedCandles && !o.accelerating && !o.squeeze && !o.oiContinuation
    && o.rejectionOk && o.liquidityOk && o.distanceOk
  }

  /** The fallback is ready after a run exactly when the root is still alive, every gate is open, the
      last observation set no record, and no record of the whole run lies within the last window. */
  lemma ReadyExactly(l: Lifecycle, os: seq<Observation>, c: Config)
    requires WellFed(l, os) && os != [] && l.confirmationStartedAt <= os[0].at
    ensures var last := os[|os| - 1];
            var records := Records(Some(l.latestHigh), HighsSeen(os));
            AdvanceAll(l, os, c).state == FallbackReady
            <==> && WithinLifetime(l, last.at, c) && GatesOpen(last, c) && |os| - 1 !in records
                 && WindowElapsed(l.confirmationStartedAt, last.at, c)
                 && (forall i | i in records :: WindowElapsed(os[i].at, last.at, c))
  {
    var n := |os| - 1;
    RootTimeNeverMoves(l, os[..n], c);
    if WithinLifetime(l, os[n].at, c) {
      ReadyWhileAlive(l, os, AdvanceAll(l, os[..n], c), n, c);
    }
  }

  lemma ReadyWhileAlive(l: Lifecycle, os: seq<Observation>, mid: Lifecycle, n: nat, c: Config)
    requires WellFed(l, os) && n == |os| - 1 && l.confirmationStartedAt <= os[0].at
    requires mid == AdvanceAll(l, os[..n], c) && WithinLifetime(l, os[n].at, c)
    requires mid.rootCreatedAt == l.rootCreatedAt && mid.latestHigh >= l.latestHigh
    ensures var records := Records(Some(l.latestHigh), HighsSeen(os));
            Next(mid, os[n], c).state == FallbackReady
            <==> && GatesOpen(os[n], c) && n !in records
                 && WindowElapsed(l.confirmationStartedAt, os[n].at, c)
                 && (forall i | i in records :: WindowElapsed(os[i].at, os[n].at, c))
  {
    WindowStartsAtLastRecord(l, os[..n], c);
    LastRecord(l, os, c);
    VetoesAreGates(mid, os[n], c);
  }

  lemma VetoesAreGates(l: Lifecycle, o: Observation, c: Config)
    ensures Vetoes(l, o, c) == [] <==> GatesOpen(o, c) && WindowElapsed(l.confirmationStartedAt, o.at, c)
  {
  }
}
