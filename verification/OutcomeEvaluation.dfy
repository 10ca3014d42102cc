/** The paper outcome of one observation, computed from closed one-minute candles
    (app/outcomes/strategy_observations.py).  Prices are reals, times are integers in seconds, and a
    frame lists its candles in ascending time, as `klines_to_frame` delivers them. */
module OutcomeEvaluation {
  import opened Common
  import opened OutcomeQueue
  import opened RealArithmetic

  const HORIZONS: seq<nat> := [1, 3, 5, 15]

  datatype Candle = Candle(at: int, high: real, low: real, close: real)

  datatype Reason =
    | NoKlines | AwaitingClosedFutureCandles | NoClosedFutureCandles | Awaiting15mCoverage

  datatype Horizon = Horizon(price: Option<real>, changePct: Option<real>, shortReturnPct: Option<real>)

  /** Where the extremes of the future lie. */
  datatype Extremes = Extremes(mfePct: real, maePct: real, minutesToMfe: real, minutesToMae: real,
                               newHigh: Option<bool>)

  datatype Report = Report(
    status: Status, reason: Option<Reason>, retryable: bool, horizons: seq<Horizon>,
    extremes: Option<Extremes>, candles: nat, coverageEnd: Option<int>)

  datatype EvaluationError = EntryPriceNotPositive

  ghost predicate Ascending(frame: seq<Candle>) {
    forall i, j | 0 <= i < j < |frame| :: frame[i].at < frame[j].at
  }

  predicate Visible(c: Candle, observed: int, now: int) {
    c.at + MINUTE <= now && c.at > observed
  }

  /** The candles after the observation whose minute has fully elapsed. */
  function Future(frame: seq<Candle>, observed: int, now: int): (future: seq<Candle>)
    ensures |future| <= |frame|
    ensures forall c :: c in future <==> c in frame && Visible(c, observed, now)
  {
    if frame == [] then []
    else
      var rest := Future(frame[..|frame| - 1], observed, now);
      assert frame == frame[..|frame| - 1] + [frame[|frame| - 1]];
      if Visible(frame[|frame| - 1], observed, now) then rest + [frame[|frame| - 1]] else rest
  }

  function CeilMinute(t: int): int {
    var minute := t - t % MINUTE;
    if t == minute then minute else minute + MINUTE
  }

  /** When the first candle at or after the fifteen-minute target has closed. */
  function CoverageReadyAt(observed: int): int {
    CeilMinute(observed + 15 * MINUTE) + MINUTE
  }

  /** The close of the first candle at or after `target`. */
  function PriceAt(future: seq<Candle>, target: int): Option<real> {
    if future == [] then None
    else if future[0].at >= target then Some(future[0].close)
    else PriceAt(future[1..], target)
  }

  function HorizonOf(price: Option<real>, entry: real): Horizon
    requires entry > 0.0
  {
    match price
    case None => Horizon(None, None, None)
    case Some(p) => Horizon(price, Some((p - entry) / entry * 100.0), Some((entry - p) / entry * 100.0))
  }

  function Empty(status: Status, reason: Reason, retryable: bool): Report {
    Report(status, Some(reason), retryable, seq(|HORIZONS|, _ => Horizon(None, None, None)), None, 0, None)
  }

  function MissingFuture(observed: int, now: int): Report {
    if now < CoverageReadyAt(observed) then Empty(Incomplete, AwaitingClosedFutureCandles, true)
    else Empty(Unknown, NoClosedFutureCandles, true)
  }

  /** The first position of the lowest low, and of the highest high. */
  function Lowest(future: seq<Candle>): (i: nat)
    requires future != []
    ensures i < |future| && forall j | 0 <= j < |future| :: future[i].low <= future[j].low
    ensures forall j | 0 <= j < i :: future[i].low < future[j].low
  {
    if |future| == 1 then 0
    else
      var i := Lowest(future[..|future| - 1]);
      if future[|future| - 1].low < future[i].low then |future| - 1 else i
  }

  function Highest(future: seq<Candle>): (i: nat)
    requires future != []
    ensures i < |future| && forall j | 0 <= j < |future| :: future[j].high <= future[i].high
    ensures forall j | 0 <= j < i :: future[j].high < future[i].high
  {
    if |future| == 1 then 0
    else
      var i := Highest(future[..|future| - 1]);
      if future[|future| - 1].high > future[i].high then |future| - 1 else i
  }

  function ExtremesOf(future: seq<Candle>, observed: int, entry: real, eventHigh: Option<real>): Extremes
    requires future != [] && entry > 0.0
  {
    var low, high := future[Lowest(future)], future[Highest(future)];
    Extremes((entry - low.low) / entry * 100.0, (high.high - entry) / entry * 100.0,
             (low.at - observed) as real / MINUTE as real, (high.at - observed) as real / MINUTE as real,
             if eventHigh.Some? then Some(high.high > eventHigh.value) else None)
  }

  function HorizonsOf(future: seq<Candle>, observed: int, entry: real): (hs: seq<Horizon>)
    requires entry > 0.0
    ensures |hs| == |HORIZONS|
    ensures forall i | 0 <= i < |hs| :: hs[i] == HorizonOf(PriceAt(future, observed + HORIZONS[i] * MINUTE), entry)
  {
    seq(|HORIZONS|, i requires 0 <= i < |HORIZONS| =>
        HorizonOf(PriceAt(future, observed + HORIZONS[i] * MINUTE), entry))
  }

  predicate AllPriced(hs: seq<Horizon>) {
    forall i | 0 <= i < |hs| :: hs[i].price.Some?
  }

  function Evaluate(observed: int, entry: real, eventHigh: Option<real>, frame: seq<Candle>, now: int)
    : Result<Report, EvaluationError>
  {
    if entry <= 0.0 then Err(EntryPriceNotPositive)
    else if frame == [] then
      Ok(if now < CoverageReadyAt(observed) then MissingFuture(observed, now) else Empty(Unknown, NoKlines, true))
    else
      var future := Future(frame, observed, now);
      if future == [] then Ok(MissingFuture(observed, now))
      else
        var hs := HorizonsOf(future, observed, entry);
        var done := AllPriced(hs);
        Ok(Report(if done then Complete else Incomplete, if done then None else Some(Awaiting15mCoverage), !done, hs,
                  Some(ExtremesOf(future, observed, entry, eventHigh)), |future|, Some(future[|future| - 1].at)))
  }

  /** The evaluator, its horizon table filled entry by entry. */
  method EvaluateStrategyObservation(observed: int, entry: real, eventHigh: Option<real>, frame: seq<Candle>, now: int)
    returns (r: Result<Report, EvaluationError>)
    ensures r == Evaluate(observed, entry, eventHigh, frame, now)
  {
    if entry <= 0.0 {
      return Err(EntryPriceNotPositive);
    }
    if frame == [] {
      return Ok(if now < CoverageReadyAt(observed) then MissingFuture(observed, now)
                else Empty(Unknown, NoKlines, true));
    }
    var future := Future(frame, observed, now);
    if future == [] {
      return Ok(MissingFuture(observed, now));
    }
    var hs: seq<Horizon> := [];
    var done := true;
    var i := 0;
    while i < |HORIZONS|
      invariant 0 <= i == |hs| <= |HORIZONS|
      invariant forall k | 0 <= k < i :: hs[k] == HorizonOf(PriceAt(future, observed + HORIZONS[k] * MINUTE), entry)
      invariant done <==> forall k | 0 <= k < i :: hs[k].price.Some?
    {
      var price := PriceAt(future, observed + HORIZONS[i] * MINUTE);
      hs := hs + [HorizonOf(price, entry)];
      if price == None { done := false; }
      i := i + 1;
    }
    assert hs == HorizonsOf(future, observed, entry);
    r := Ok(Report(if done then Complete else Incomplete, if done then None else Some(Awaiting15mCoverage), !done, hs,
                   Some(ExtremesOf(future, observed, entry, eventHigh)), |future|, Some(future[|future| - 1].at)));
  }

  // ---------- Exact readiness ----------

  lemma {:induction false} PriceExists(future: seq<Candle>, target: int)
    ensures PriceAt(future, target).Some? <==> exists c :: c in future && c.at >= target
  {
    if future != [] {
      PriceExists(future[1..], target);
      assert future == [future[0]] + future[1..];
    }
  }

  /** The targets ascend, so the horizons have a price once the last one has. */
  lemma AllPricedExactly(future: seq<Candle>, observed: int, entry: real)
    requires entry > 0.0
    ensures AllPriced(HorizonsOf(future, observed, entry))
       <==> exists c :: c in future && c.at >= observed + 15 * MINUTE
  {
    PriceExists(future, observed + 1 * MINUTE);
    PriceExists(future, observed + 3 * MINUTE);
    PriceExists(future, observed + 5 * MINUTE);
    PriceExists(future, observed + 15 * MINUTE);
    var hs := HorizonsOf(future, observed, entry);
    assert AllPriced(hs) <==> hs[0].price.Some? && hs[1].price.Some? && hs[2].price.Some? && hs[3].price.Some?;
  }

  lemma CompleteWhenPriced(observed: int, entry: real, eventHigh: Option<real>, frame: seq<Candle>, now: int)
    requires entry > 0.0
    ensures Evaluate(observed, entry, eventHigh, frame, now).value.status == Complete
       <==> Future(frame, observed, now) != [] && AllPriced(HorizonsOf(Future(frame, observed, now), observed, entry))
  {
  }

  /** A report is complete exactly when a candle at or after the fifteen-minute target has closed. */
  lemma CompleteExactly(observed: int, entry: real, eventHigh: Option<real>, frame: seq<Candle>, now: int)
    requires entry > 0.0
    ensures Evaluate(observed, entry, eventHigh, frame, now).value.status == Complete
       <==> exists c :: c in frame && c.at >= observed + 15 * MINUTE && c.at + MINUTE <= now
  {
    var future := Future(frame, observed, now);
    CompleteWhenPriced(observed, entry, eventHigh, frame, now);
    AllPricedExactly(future, observed, entry);
    assert forall c :: c in frame && c.at >= observed + 15 * MINUTE && c.at + MINUTE <= now ==> c in future;
  }

  /** Minute candles with no gap between the observation and now. */
  ghost predicate GapFree(frame: seq<Candle>, observed: int, now: int) {
    && (forall c | c in frame :: c.at % MINUTE == 0)
    && (forall m | m > observed && m % MINUTE == 0 && m + MINUTE <= now :: exists c :: c in frame && c.at == m)
  }

  lemma CeilMinuteIsLeast(t: int, m: int)
    ensures CeilMinute(t) % MINUTE == 0 && CeilMinute(t) >= t
    ensures m % MINUTE == 0 && m >= t ==> m >= CeilMinute(t)
  {
  }

  /** A minute candle at or after the target closes no earlier than the ready time, */
  lemma NotBeforeReady(observed: int, at: int, now: int)
    requires at % MINUTE == 0 && at >= observed + 15 * MINUTE && at + MINUTE <= now
    ensures now >= CoverageReadyAt(observed)
  {
    CeilMinuteIsLeast(observed + 15 * MINUTE, at);
  }

  /** and on gap-free candles one has closed by then. */
  lemma CandleByReady(frame: seq<Candle>, observed: int, now: int)
    requires GapFree(frame, observed, now) && now >= CoverageReadyAt(observed)
    ensures exists c :: c in frame && c.at >= observed + 15 * MINUTE && c.at + MINUTE <= now
  {
    var m := CeilMinute(observed + 15 * MINUTE);
    CeilMinuteIsLeast(observed + 15 * MINUTE, m);
    assert m > observed && m % MINUTE == 0 && m + MINUTE <= now;
  }

  /** On gap-free candles the report is complete exactly from `CoverageReadyAt` on. */
  lemma ReadyExactly(observed: int, entry: real, eventHigh: Option<real>, frame: seq<Candle>, now: int)
    requires entry > 0.0 && GapFree(frame, observed, now)
    ensures Evaluate(observed, entry, eventHigh, frame, now).value.status == Complete
            <==> now >= CoverageReadyAt(observed)
  {
    CompleteExactly(observed, entry, eventHigh, frame, now);
    if now >= CoverageReadyAt(observed) {
      CandleByReady(frame, observed, now);
    }
    forall c | c in frame && c.at >= observed + 15 * MINUTE && c.at + MINUTE <= now
        ensures now >= CoverageReadyAt(observed) {
      NotBeforeReady(observed, c.at, now);
    }
  }

  /** What the queue relies on: an incomplete report is retryable, and a complete one never is. */
  lemma RetryableUnlessComplete(observed: int, entry: real, eventHigh: Option<real>, frame: seq<Candle>, now: int)
    requires entry > 0.0
    ensures var r := Evaluate(observed, entry, eventHigh, frame, now).value;
            r.retryable <==> r.status != Complete
  {
  }

  // ---------- Stability as time passes ----------

  lemma {:induction false} FutureGrows(frame: seq<Candle>, observed: int, now: int, later: int)
    requires Ascending(frame) && now <= later
    ensures Future(frame, observed, now) <= Future(frame, observed, later)
    ensures frame != [] && frame[|frame| - 1].at + MINUTE <= now ==>
              Future(frame, observed, now) == Future(frame, observed, later)
  {
    if frame != [] {
      FutureGrows(frame[..|frame| - 1], observed, now, later);
      if frame[|frame| - 1].at + MINUTE <= now && |frame| > 1 {
        assert frame[|frame| - 2].at < frame[|frame| - 1].at;
      }
    }
  }

  lemma {:induction false} PriceStays(future: seq<Candle>, longer: seq<Candle>, target: int)
    requires future <= longer && PriceAt(future, target).Some?
    ensures PriceAt(longer, target) == PriceAt(future, target)
  {
    if future[0].at < target {
      PriceStays(future[1..], longer[1..], target);
    }
  }

  lemma HorizonsStay(future: seq<Candle>, longer: seq<Candle>, observed: int, entry: real)
    requires entry > 0.0 && future <= longer
    ensures var hs, hs' := HorizonsOf(future, observed, entry), HorizonsOf(longer, observed, entry);
            forall i | 0 <= i < |HORIZONS| && hs[i].price.Some? :: hs'[i] == hs[i]
  {
    forall i | 0 <= i < |HORIZONS| && PriceAt(future, observed + HORIZONS[i] * MINUTE).Some?
      ensures PriceAt(longer, observed + HORIZONS[i] * MINUTE) == PriceAt(future, observed + HORIZONS[i] * MINUTE)
    {
      PriceStays(future, longer, observed + HORIZONS[i] * MINUTE);
    }
  }

  /** A complete report stays complete as time passes. */
  lemma CompleteStays(observed: int, entry: real, eventHigh: Option<real>, frame: seq<Candle>, now: int, later: int)
    requires entry > 0.0 && now <= later && Evaluate(observed, entry, eventHigh, frame, now).value.status == Complete
    ensures Evaluate(observed, entry, eventHigh, frame, later).value.status == Complete
  {
    CompleteExactly(observed, entry, eventHigh, frame, now);
    CompleteExactly(observed, entry, eventHigh, frame, later);
  }

  predicate Keeps(r: Report, r': Report) {
    && |r.horizons| == |r'.horizons|
    && (forall i | 0 <= i < |r.horizons| && r.horizons[i].price.Some? :: r'.horizons[i] == r.horizons[i])
    && (r.extremes.Some? ==>
          && r'.extremes.Some?
          && r'.extremes.value.mfePct >= r.extremes.value.mfePct
          && r'.extremes.value.maePct >= r.extremes.value.maePct
          && (r.extremes.value.newHigh == Some(true) ==> r'.extremes.value.newHigh == Some(true)))
    && r.candles <= r'.candles
  }

  /** As time passes over the same history, a horizon price once set never changes, and the favourable
      and adverse excursions, the new-high flag and the candle count never shrink. */
  lemma ReportsAreStable(observed: int, entry: real, eventHigh: Option<real>, frame: seq<Candle>, now: int, later: int)
    requires entry > 0.0 && Ascending(frame) && now <= later
    ensures Keeps(Evaluate(observed, entry, eventHigh, frame, now).value,
                  Evaluate(observed, entry, eventHigh, frame, later).value)
  {
    FutureGrows(frame, observed, now, later);
    var future, longer := Future(frame, observed, now), Future(frame, observed, later);
    if future != [] {
      HorizonsStay(future, longer, observed, entry);
      ExtremesGrow(future, longer, observed, entry, eventHigh);
    } else {
      var r := Evaluate(observed, entry, eventHigh, frame, now).value;
      assert forall i | 0 <= i < |r.horizons| :: r.horizons[i].price == None;
    }
  }

  lemma ExtremesGrow(future: seq<Candle>, longer: seq<Candle>, observed: int, entry: real, eventHigh: Option<real>)
    requires entry > 0.0 && future != [] && future <= longer
    ensures var e, e' := ExtremesOf(future, observed, entry, eventHigh), ExtremesOf(longer, observed, entry, eventHigh);
            e'.mfePct >= e.mfePct && e'.maePct >= e.maePct && (e.newHigh == Some(true) ==> e'.newHigh == Some(true))
  {
    var low, low' := future[Lowest(future)].low, longer[Lowest(longer)].low;
    var high, high' := future[Highest(future)].high, longer[Highest(longer)].high;
    assert longer[Lowest(future)] == future[Lowest(future)] && longer[Highest(future)] == future[Highest(future)];
    assert low' <= low && high <= high';
    QuotientMono(entry - low, entry - low', entry);
    QuotientMono(high - entry, high' - entry, entry);
  }
}
