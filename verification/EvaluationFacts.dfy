/** The outcome report, figure by figure, as properties of the frame's visible candles, stated without the functions
    that compute it. */
module EvaluationFacts {
  import opened Common
  import opened OutcomeQueue
  import opened OutcomeEvaluation

  // ---------- The visible candles ----------

  /** Candle `i` comes after the observation, and its minute has run out. */
  predicate Shows(frame: seq<Candle>, observed: int, now: int, i: nat)
    requires i < |frame|
  {
    frame[i].at > observed && frame[i].at + 60 <= now
  }

  function Shown(frame: seq<Candle>, observed: int, now: int): set<nat> {
    set i: nat | i < |frame| && Shows(frame, observed, now, i)
  }

  /** `places` lists the visible positions in order, and `future` what is there. */
  ghost predicate Places(frame: seq<Candle>, observed: int, now: int, future: seq<Candle>, places: seq<nat>) {
    && |places| == |future| == |Shown(frame, observed, now)|
    && (forall k | 0 <= k < |places| :: places[k] < |frame| && future[k] == frame[places[k]])
    && (forall a, b | 0 <= a < b < |places| :: places[a] < places[b])
    && (forall i :: i in places <==> i in Shown(frame, observed, now))
  }

  lemma {:induction false} FuturePlaces(frame: seq<Candle>, observed: int, now: int) returns (places: seq<nat>)
    ensures Places(frame, observed, now, Future(frame, observed, now), places)
  {
    places := [];
    if frame != [] {
      var n := |frame| - 1;
      var before := FuturePlaces(frame[..n], observed, now);
      places := if Shows(frame, observed, now, n) then before + [n] else before;
      PlacesSnoc(frame, observed, now, Future(frame[..n], observed, now), before);
    }
  }

  lemma PlacesSnoc(frame: seq<Candle>, observed: int, now: int, future: seq<Candle>, places: seq<nat>)
    requires frame != [] && Places(frame[..|frame| - 1], observed, now, future, places)
    ensures var n := |frame| - 1;
            if Shows(frame, observed, now, n) then Places(frame, observed, now, future + [frame[n]], places + [n])
            else Places(frame, observed, now, future, places)
  {
    var n := |frame| - 1;
    ShownSnoc(frame, observed, now);
    OneMore(Shown(frame[..n], observed, now), Shown(frame, observed, now), n, Shows(frame, observed, now, n));
  }

  lemma ShownSnoc(frame: seq<Candle>, observed: int, now: int)
    requires frame != []
    ensures var n := |frame| - 1;
            forall i :: i in Shown(frame, observed, now)
                        <==> i in Shown(frame[..n], observed, now) || (Shows(frame, observed, now, n) && i == n)
  {
  }

  // ---------- Prices ----------

  /** Position `i` is the first visible candle at or after `target`. */
  predicate IsFirstFrom(frame: seq<Candle>, observed: int, now: int, target: int, i: nat)
    requires i < |frame|
  {
    && Shows(frame, observed, now, i) && frame[i].at >= target
    && forall j: nat | j < i && Shows(frame, observed, now, j) :: frame[j].at < target
  }

  /** The price is the close of the first visible candle at or after the target, and the two returns are its distance
      from the entry, for the price and for the short; without such a candle there is none of the three. */
  predicate IsHorizon(h: Horizon, frame: seq<Candle>, observed: int, now: int, entry: real, minutes: int)
    requires entry > 0.0
  {
    if forall i: nat | i < |frame| && Shows(frame, observed, now, i) :: frame[i].at < observed + minutes * 60 then
      h.price == None && h.changePct == None && h.shortReturnPct == None
    else
      exists i: nat | i < |frame| ::
        IsFirstFrom(frame, observed, now, observed + minutes * 60, i) && IsPriced(h, frame[i].close, entry)
  }

  predicate IsPriced(h: Horizon, price: real, entry: real)
    requires entry > 0.0
  {
    && h.price == Some(price)
    && h.changePct == Some((price - entry) / entry * 100.0)
    && h.shortReturnPct == Some((entry - price) / entry * 100.0)
  }

  lemma PricedIsExact(price: real, entry: real)
    requires entry > 0.0
    ensures IsPriced(HorizonOf(Some(price), entry), price, entry)
  {
  }

  lemma {:induction false} PriceIsAt(future: seq<Candle>, target: int) returns (k: nat)
    ensures k <= |future| && forall j | 0 <= j < k :: future[j].at < target
    ensures k < |future| ==> future[k].at >= target && PriceAt(future, target) == Some(future[k].close)
    ensures k == |future| ==> PriceAt(future, target) == None
  {
    if future == [] || future[0].at >= target {
      k := 0;
    } else {
      var rest := PriceIsAt(future[1..], target);
      k := rest + 1;
      forall j | 0 <= j < k ensures future[j].at < target {
        assert j > 0 ==> future[j] == future[1..][j - 1];
      }
    }
  }

  lemma HorizonIsExact(frame: seq<Candle>, observed: int, now: int, future: seq<Candle>, places: seq<nat>, entry: real,
                       minutes: int, h: Horizon)
    requires entry > 0.0 && Places(frame, observed, now, future, places)
    requires h == HorizonOf(PriceAt(future, observed + minutes * 60), entry)
    ensures IsHorizon(h, frame, observed, now, entry, minutes)
  {
    var k := PriceIsAt(future, observed + minutes * 60);
    if k < |future| {
      FirstPlace(frame, observed, now, future, places, observed + minutes * 60, k);
      PricedIsExact(future[k].close, entry);
      assert frame[places[k]] == future[k];
    } else {
      NonePlaced(frame, observed, now, future, places, observed + minutes * 60);
    }
  }

  lemma NonePlaced(frame: seq<Candle>, observed: int, now: int, future: seq<Candle>, places: seq<nat>, target: int)
    requires Places(frame, observed, now, future, places) && forall j | 0 <= j < |future| :: future[j].at < target
    ensures forall i: nat | i < |frame| && Shows(frame, observed, now, i) :: frame[i].at < target
  {
    forall i: nat | i < |frame| && Shows(frame, observed, now, i) ensures frame[i].at < target {
      var j := PlaceOf(frame, observed, now, future, places, i);
    }
  }

  lemma PlaceOf(frame: seq<Candle>, observed: int, now: int, future: seq<Candle>, places: seq<nat>, i: nat)
    returns (k: nat)
    requires i < |frame| && Shows(frame, observed, now, i) && Places(frame, observed, now, future, places)
    ensures k < |places| && places[k] == i && future[k] == frame[i]
  {
    assert i in places;
    k :| 0 <= k < |places| && places[k] == i;
  }

  lemma FirstPlace(frame: seq<Candle>, observed: int, now: int, future: seq<Candle>, places: seq<nat>, target: int,
                   k: nat)
    requires Places(frame, observed, now, future, places) && k < |future| && future[k].at >= target
    requires forall j | 0 <= j < k :: future[j].at < target
    ensures IsFirstFrom(frame, observed, now, target, places[k])
  {
    assert places[k] in places;
    forall j: nat | j < places[k] && Shows(frame, observed, now, j) ensures frame[j].at < target {
      var m := PlaceOf(frame, observed, now, future, places, j);
      assert m < k;
    }
  }

  // ---------- Extremes ----------

  /** Position `i` has the lowest low of the visible candles, and is the first that has it. */
  predicate IsLowest(frame: seq<Candle>, observed: int, now: int, i: nat)
    requires i < |frame|
  {
    && Shows(frame, observed, now, i)
    && (forall j: nat | j < |frame| && Shows(frame, observed, now, j) :: frame[i].low <= frame[j].low)
    && (forall j: nat | j < i && Shows(frame, observed, now, j) :: frame[i].low < frame[j].low)
  }

  predicate IsHighest(frame: seq<Candle>, observed: int, now: int, i: nat)
    requires i < |frame|
  {
    && Shows(frame, observed, now, i)
    && (forall j: nat | j < |frame| && Shows(frame, observed, now, j) :: frame[j].high <= frame[i].high)
    && (forall j: nat | j < i && Shows(frame, observed, now, j) :: frame[j].high < frame[i].high)
  }

  /** For a short, the favourable excursion goes from the entry down to the lowest low, */
  predicate IsFavourable(pct: real, minutes: real, c: Candle, observed: int, entry: real)
    requires entry > 0.0
  {
    pct == (entry - c.low) / entry * 100.0 && minutes == (c.at - observed) as real / 60.0
  }

  /** and the adverse one up to the highest high. */
  predicate IsAdverse(pct: real, minutes: real, c: Candle, observed: int, entry: real)
    requires entry > 0.0
  {
    pct == (c.high - entry) / entry * 100.0 && minutes == (c.at - observed) as real / 60.0
  }

  /** Each excursion comes with the minutes to the first candle that got there; a new high is told if the event's high
      is known. */
  predicate AreExtremes(e: Extremes, frame: seq<Candle>, observed: int, now: int, entry: real, eventHigh: Option<real>)
    requires entry > 0.0
  {
    && (exists i: nat | i < |frame| ::
          IsLowest(frame, observed, now, i) && IsFavourable(e.mfePct, e.minutesToMfe, frame[i], observed, entry))
    && (exists i: nat | i < |frame| ::
          IsHighest(frame, observed, now, i) && IsAdverse(e.maePct, e.minutesToMae, frame[i], observed, entry))
    && if eventHigh == None then e.newHigh == None
       else e.newHigh == Some(GoesAbove(frame, observed, now, eventHigh.value))
  }

  predicate GoesAbove(frame: seq<Candle>, observed: int, now: int, high: real) {
    exists i: nat :: i < |frame| && Shows(frame, observed, now, i) && frame[i].high > high
  }

  lemma LowestIsExact(frame: seq<Candle>, observed: int, now: int, future: seq<Candle>, places: seq<nat>)
    requires Places(frame, observed, now, future, places) && future != []
    ensures places[Lowest(future)] < |frame| && IsLowest(frame, observed, now, places[Lowest(future)])
  {
    var k := Lowest(future);
    assert places[k] in places;
    forall j: nat | j < |frame| && Shows(frame, observed, now, j)
      ensures frame[places[k]].low <= frame[j].low && (j < places[k] ==> frame[places[k]].low < frame[j].low)
    {
      var m := PlaceOf(frame, observed, now, future, places, j);
    }
  }

  lemma HighestIsExact(frame: seq<Candle>, observed: int, now: int, future: seq<Candle>, places: seq<nat>)
    requires Places(frame, observed, now, future, places) && future != []
    ensures places[Highest(future)] < |frame| && IsHighest(frame, observed, now, places[Highest(future)])
  {
    var k := Highest(future);
    assert places[k] in places;
    forall j: nat | j < |frame| && Shows(frame, observed, now, j)
      ensures frame[j].high <= frame[places[k]].high && (j < places[k] ==> frame[j].high < frame[places[k]].high)
    {
      var m := PlaceOf(frame, observed, now, future, places, j);
    }
  }

  lemma ExcursionsAreExact(future: seq<Candle>, observed: int, entry: real, eventHigh: Option<real>)
    requires entry > 0.0 && future != []
    ensures var e := ExtremesOf(future, observed, entry, eventHigh);
            && IsFavourable(e.mfePct, e.minutesToMfe, future[Lowest(future)], observed, entry)
            && IsAdverse(e.maePct, e.minutesToMae, future[Highest(future)], observed, entry)
            && e.newHigh == (if eventHigh == None then None
                             else Some(future[Highest(future)].high > eventHigh.value))
  {
  }

  lemma ExtremesAreExact(frame: seq<Candle>, observed: int, now: int, future: seq<Candle>, places: seq<nat>,
                         entry: real, eventHigh: Option<real>, e: Extremes)
    requires entry > 0.0 && Places(frame, observed, now, future, places) && future != []
    requires e == ExtremesOf(future, observed, entry, eventHigh)
    ensures AreExtremes(e, frame, observed, now, entry, eventHigh)
  {
    ExcursionsAreExact(future, observed, entry, eventHigh);
    LowestIsExact(frame, observed, now, future, places);
    HighestIsExact(frame, observed, now, future, places);
    Attained(e, frame, observed, now, entry, eventHigh, places[Lowest(future)], places[Highest(future)]);
  }

  lemma Attained(e: Extremes, frame: seq<Candle>, observed: int, now: int, entry: real, eventHigh: Option<real>,
                 low: nat, high: nat)
    requires entry > 0.0 && low < |frame| && high < |frame|
    requires IsLowest(frame, observed, now, low) && IsFavourable(e.mfePct, e.minutesToMfe, frame[low], observed, entry)
    requires IsHighest(frame, observed, now, high) && IsAdverse(e.maePct, e.minutesToMae, frame[high], observed, entry)
    requires e.newHigh == if eventHigh == None then None else Some(frame[high].high > eventHigh.value)
    ensures AreExtremes(e, frame, observed, now, entry, eventHigh)
  {
  }

  // ---------- The report ----------

  /** The least whole minute at or after the fifteen-minute target, and one more for its candle to close. */
  predicate IsReadyAt(ready: int, observed: int) {
    ready % 60 == 0 && observed + 960 <= ready < observed + 1020
  }

  lemma ReadyIsExact(observed: int)
    ensures IsReadyAt(CoverageReadyAt(observed), observed)
  {
  }

  /** No figure at all. */
  predicate IsBlank(r: Report) {
    && |r.horizons| == 4 && (forall k | 0 <= k < 4 :: r.horizons[k] == Horizon(None, None, None))
    && r.extremes == None && r.candles == 0 && r.coverageEnd == None
  }

  /** Without a visible candle the report is blank and retryable: incomplete until the fifteen-minute candle could have
      closed, and unknown from then on. */
  lemma BlankIsExact(observed: int, entry: real, eventHigh: Option<real>, frame: seq<Candle>, now: int, ready: int)
    requires entry > 0.0 && IsReadyAt(ready, observed)
    requires forall i: nat | i < |frame| :: !Shows(frame, observed, now, i)
    ensures var r := Evaluate(observed, entry, eventHigh, frame, now).value;
            && IsBlank(r) && r.retryable
            && r.status == (if now < ready then Incomplete else Unknown)
            && r.reason == Some(if now < ready then AwaitingClosedFutureCandles
                                else if frame == [] then NoKlines else NoClosedFutureCandles)
  {
    ReadyIsExact(observed);
    var places := FuturePlaces(frame, observed, now);
    assert Shown(frame, observed, now) == {};
  }

  predicate IsLast(frame: seq<Candle>, observed: int, now: int, i: nat)
    requires i < |frame|
  {
    Shows(frame, observed, now, i) && forall j: nat | i < j < |frame| :: !Shows(frame, observed, now, j)
  }

  lemma LastIsExact(frame: seq<Candle>, observed: int, now: int, future: seq<Candle>, places: seq<nat>)
    requires Places(frame, observed, now, future, places) && future != []
    ensures var i := places[|places| - 1];
            i < |frame| && IsLast(frame, observed, now, i) && frame[i].at == future[|future| - 1].at
  {
    var i := places[|places| - 1];
    assert i in places;
    forall j: nat | j < |frame| && Shows(frame, observed, now, j) ensures j <= i {
      var k := PlaceOf(frame, observed, now, future, places, j);
    }
  }

  lemma SomethingShows(frame: seq<Candle>, observed: int, now: int)
    requires exists i: nat :: i < |frame| && Shows(frame, observed, now, i)
    ensures Future(frame, observed, now) != []
  {
    var i: nat :| i < |frame| && Shows(frame, observed, now, i);
    assert frame[i] in frame && Visible(frame[i], observed, now);
  }

  lemma ReportReads(observed: int, entry: real, eventHigh: Option<real>, frame: seq<Candle>, now: int,
                    future: seq<Candle>)
    requires entry > 0.0 && future == Future(frame, observed, now) && future != []
    ensures Evaluate(observed, entry, eventHigh, frame, now).Ok?
    ensures var r := Evaluate(observed, entry, eventHigh, frame, now).value;
            && r.horizons == HorizonsOf(future, observed, entry)
            && r.extremes == Some(ExtremesOf(future, observed, entry, eventHigh))
            && r.candles == |future| && r.coverageEnd == Some(future[|future| - 1].at)
  {
  }

  /** Some candle shows, so there are four horizons, 1, 3, 5 and 15 minutes after the observation, */
  lemma HorizonsAreExact(observed: int, entry: real, eventHigh: Option<real>, frame: seq<Candle>, now: int, k: nat)
    requires entry > 0.0 && k < 4 && exists i: nat :: i < |frame| && Shows(frame, observed, now, i)
    ensures Evaluate(observed, entry, eventHigh, frame, now).Ok?
    ensures var r := Evaluate(observed, entry, eventHigh, frame, now).value;
            |r.horizons| == 4 && IsHorizon(r.horizons[k], frame, observed, now, entry, [1, 3, 5, 15][k])
  {
    SomethingShows(frame, observed, now);
    var future := Future(frame, observed, now);
    var places := FuturePlaces(frame, observed, now);
    ReportReads(observed, entry, eventHigh, frame, now, future);
    HorizonIsExact(frame, observed, now, future, places, entry, HORIZONS[k], HorizonsOf(future, observed, entry)[k]);
  }

  /** the two excursions and the new-high flag, */
  lemma ExcursionsReadOff(observed: int, entry: real, eventHigh: Option<real>, frame: seq<Candle>, now: int)
    requires entry > 0.0 && exists i: nat :: i < |frame| && Shows(frame, observed, now, i)
    ensures Evaluate(observed, entry, eventHigh, frame, now).Ok?
    ensures var r := Evaluate(observed, entry, eventHigh, frame, now).value;
            r.extremes.Some? && AreExtremes(r.extremes.value, frame, observed, now, entry, eventHigh)
  {
    SomethingShows(frame, observed, now);
    var future := Future(frame, observed, now);
    var places := FuturePlaces(frame, observed, now);
    ReportReads(observed, entry, eventHigh, frame, now, future);
    ExtremesAreExact(frame, observed, now, future, places, entry, eventHigh,
                     ExtremesOf(future, observed, entry, eventHigh));
  }

  /** the number of candles that show and the time of the last one. */
  lemma CoverageIsExact(observed: int, entry: real, eventHigh: Option<real>, frame: seq<Candle>, now: int)
    requires entry > 0.0 && exists i: nat :: i < |frame| && Shows(frame, observed, now, i)
    ensures Evaluate(observed, entry, eventHigh, frame, now).Ok?
    ensures var r := Evaluate(observed, entry, eventHigh, frame, now).value;
            && r.candles == |Shown(frame, observed, now)|
            && exists i: nat | i < |frame| :: IsLast(frame, observed, now, i) && r.coverageEnd == Some(frame[i].at)
  {
    SomethingShows(frame, observed, now);
    var future := Future(frame, observed, now);
    var places := FuturePlaces(frame, observed, now);
    ReportReads(observed, entry, eventHigh, frame, now, future);
    LastIsExact(frame, observed, now, future, places);
  }

  /** The report is complete, and not to be retried, if and only if all four horizons have their price. */
  lemma StatusIsExact(observed: int, entry: real, eventHigh: Option<real>, frame: seq<Candle>, now: int)
    requires entry > 0.0 && exists i: nat :: i < |frame| && Shows(frame, observed, now, i)
    ensures Evaluate(observed, entry, eventHigh, frame, now).Ok?
    ensures var r := Evaluate(observed, entry, eventHigh, frame, now).value;
            if forall k | 0 <= k < |r.horizons| :: r.horizons[k].price.Some? then
              r.status == Complete && r.reason == None && !r.retryable
            else r.status == Incomplete && r.reason == Some(Awaiting15mCoverage) && r.retryable
  {
    SomethingShows(frame, observed, now);
  }

  lemma RefusedExactly(observed: int, entry: real, eventHigh: Option<real>, frame: seq<Candle>, now: int)
    ensures Evaluate(observed, entry, eventHigh, frame, now) == Err(EntryPriceNotPositive) <==> entry <= 0.0
    ensures Evaluate(observed, entry, eventHigh, frame, now).Ok? <==> entry > 0.0
  {
  }
}
