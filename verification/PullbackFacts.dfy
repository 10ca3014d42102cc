/** The baseline event, field by field: what one advance, one decision and one poll do to it, stated without the
    functions that compute it. */
module PullbackFacts {
  import opened Common
  import opened Pullback

  // ---------- What an advance tells apart ----------

  /** Its time is up, the price has given back all but thirty-five percent of the pump, or its signal is fifteen minutes
      old. */
  predicate IsOver(e: Event, f: Features, now: int) {
    || (e.expiresAt.Some? && e.expiresAt.value <= now)
    || (e.base.Some? && e.high.Some? && f.price - e.base.value < 0.35 * (e.high.value - e.base.value))
    || (e.sentAt.Some? && now - e.sentAt.value >= 15)
  }

  /** A candle has confirmed a high above the event's, and no signal has been sent. */
  predicate IsTopped(e: Event, f: Features) {
    e.signalId == None && e.base.Some? && e.high.Some? && f.lastHighTime.Some? && e.high.value < f.lastHigh
  }

  /** The percentage by which the price lies below the high. */
  predicate IsDrop(pct: real, high: real, price: real) {
    if high == 0.0 then pct == 0.0 else pct * high == (high - price) * 100.0
  }

  /** A first drop within bounds that holds both the VWAP and the floor of the pump's range. */
  predicate Holds(e: Event, f: Features, c: Config, pct: real)
    requires e.high.Some? && e.base.Some?
  {
    && e.detectedAt == None && c.pullbackMinPct <= pct && pct <= c.pullbackMaxPct && f.distToVwapPct >= c.holdVwapMin
    && f.price - e.base.value >= c.holdRangeFloorPct * (e.high.value - e.base.value)
  }

  // ---------- What it writes ----------

  /** The event starts over from the new high; its id, base, expiry, watches and signal columns stay. */
  predicate StartsOver(e: Event, after: Event, f: Features, now: int) {
    after == Event(e.id, PumpDetected, Some(f.lastHigh), f.lastHighTime, e.base, None, None, None, None, e.sentAt,
                   e.signalId, e.expiresAt, Some(now), e.emitted)
  }

  predicate Ends(e: Event, after: Event, now: int) {
    after == Event(e.id, Expired, e.high, e.highTime, e.base, e.detectedAt, e.depthPct, e.lowPrice, e.zone, e.sentAt,
                   e.signalId, Some(now), Some(now), e.emitted)
  }

  predicate GoesOn(e: Event, after: Event, state: Status, detectedAt: Option<int>, depth: Option<real>,
                   low: Option<real>, now: int) {
    after == Event(e.id, state, e.high, e.highTime, e.base, detectedAt, depth, low, e.zone, e.sentAt, e.signalId,
                   e.expiresAt, Some(now), e.emitted)
  }

  /** The greater depth and the lower low, where a missing depth counts as none. */
  predicate AreExtremes(e: Event, pct: real, lastLow: real, depth: real, low: real) {
    && depth >= pct && depth >= (if e.depthPct == None then 0.0 else e.depthPct.value)
    && (depth == pct || depth == if e.depthPct == None then 0.0 else e.depthPct.value)
    && low <= lastLow && (e.lowPrice.Some? ==> low <= e.lowPrice.value)
    && (low == lastLow || e.lowPrice == Some(low))
  }

  /** One advance: expiry first, then the events without a high or base, then a new high, then a first pullback, and
      otherwise the extremes go on. */
  predicate Advances(e: Event, after: Event, what: seq<Happening>, f: Features, now: int, c: Config, pct: real,
                     depth: real, low: real) {
    if IsOver(e, f, now) then Ends(e, after, now) && what == []
    else if e.high == None || e.base == None then
      GoesOn(e, after, e.state, e.detectedAt, e.depthPct, e.lowPrice, now) && what == []
    else if IsTopped(e, f) then StartsOver(e, after, f, now) && what == [WasReset]
    else
      && IsDrop(pct, e.high.value, f.price)
      && if Holds(e, f, c, pct) then
           && GoesOn(e, after, PullbackObserved, Some(now), Some(pct), Some(f.lastLow), now)
           && what == [Detected(pct, f.lastLow)]
         else
           && AreExtremes(e, pct, f.lastLow, depth, low)
           && GoesOn(e, after, e.state, e.detectedAt, Some(depth), Some(low), now)
           && what == [Advanced(pct, f.lastLow)]
  }

  lemma DropIsExact(high: real, price: real)
    ensures IsDrop(PullbackPct(high, price), high, price)
  {
    if high != 0.0 {
      var q := (high - price) / high;
      assert q * high == high - price;
      assert q * 100.0 * high == q * high * 100.0;
    }
  }

  lemma AdvanceIsExact(e: Event, f: Features, now: int, c: Config) returns (pct: real, depth: real, low: real)
    ensures var (after, what) := AdvanceEvent(e, f, now, c);
            Advances(e, after, what, f, now, c, pct, depth, low)
  {
    pct, depth, low := 0.0, 0.0, 0.0;
    if e.high.Some? && e.base.Some? {
      pct := PullbackPct(e.high.value, f.price);
      depth, low := Deeper(e.depthPct, pct), Lower(e.lowPrice, f.lastLow);
      DropIsExact(e.high.value, f.price);
    }
  }

  // ---------- Zone, watches and signals ----------

  /** The two edges lie two multiples of the ATR below the high, or two fractions of the pump above the base; which is
      the lower one does not matter. */
  predicate IsZone(zone: (real, real), e: Event, f: Features, c: Config)
    requires e.high.Some? && e.base.Some?
  {
    var a := if c.zoneMode == AtrFromHigh then e.high.value - c.zoneAtrLowMult * f.atr14
             else e.base.value + c.zoneRangeLowPct * (e.high.value - e.base.value);
    var b := if c.zoneMode == AtrFromHigh then e.high.value - c.zoneAtrHighMult * f.atr14
             else e.base.value + c.zoneRangeHighPct * (e.high.value - e.base.value);
    zone.0 <= zone.1 && (zone == (a, b) || zone == (b, a))
  }

  lemma ZoneIsExact(e: Event, f: Features, c: Config)
    ensures BuildZone(e, f, c) == None <==> e.high == None || e.base == None
    ensures BuildZone(e, f, c).Some? ==> IsZone(BuildZone(e, f, c).value, e, f, c)
  {
  }

  predicate IsSent(e: Event, after: Event, signalId: int, at: int) {
    after == Event(e.id, SignalSent, e.high, e.highTime, e.base, e.detectedAt, e.depthPct, e.lowPrice, e.zone, Some(at),
                   Some(signalId), e.expiresAt, Some(at), e.emitted)
  }

  /** A watch goes out unless one of its type did before. */
  predicate Watches(e: Event, after: Event, what: seq<Happening>, watchType: string) {
    if watchType in e.emitted then after == e && what == []
    else after == e.(emitted := after.emitted) && after.emitted == e.emitted + {watchType}
         && what == [Watched(watchType)]
  }

  /** The engine passes: an observed pullback, active or not, before its expiry, whose high is less than the maximal age
      old, with the price inside the zone. */
  predicate Passes(e: Event, zone: (real, real), f: Features, now: int, c: Config) {
    && (e.state == PullbackObserved || e.state == ShortZoneActive)
    && (e.expiresAt.Some? ==> now < e.expiresAt.value)
    && (e.highTime.Some? ==> now - e.highTime.value < c.maxSignalAge)
    && zone.0 <= f.price && f.price <= zone.1
  }

  predicate Decides(e: Event, after: Event, what: seq<Happening>, p: Poll, zone: (real, real), now: int, c: Config) {
    if e.signalId.Some? || !Passes(e, zone, p.final, now, c) || p.verdict == Nothing then after == e && what == []
    else if p.verdict.WatchFor? then Watches(e, after, what, p.verdict.watchType)
    else if p.verdict.live then
      IsSent(e, after, p.verdict.signalId, now) && what == [Signalled(p.verdict.signalId, true)]
    else after == e && what == []
  }

  lemma DecisionIsExact(e: Event, p: Poll, zone: (real, real), now: int, c: Config)
    ensures var (after, what) := Decide(e, p, zone, now, c);
            Decides(e, after, what, p, zone, now, c)
  {
  }

  // ---------- One poll ----------

  /** What follows an advance: nothing for an expired event; at most an early watch for a pump; and for any other event
      with a zone the zone is stored, an observed pullback inside it becomes active, and the engine decides. */
  predicate Follows(e: Event, after: Event, more: seq<Happening>, p: Poll, f: Features, now: int, c: Config,
                    zone: (real, real)) {
    if e.state == Expired then after == e && more == []
    else if e.state == PumpDetected then
      if p.earlyWatch then Watches(e, after, more, "EARLY_PUMP_WATCH") else after == e && more == []
    else if e.high == None || e.base == None then after == e && more == []
    else
      && IsZone(zone, e, f, c)
      && var state := if e.state == PullbackObserved && zone.0 <= p.final.price && p.final.price <= zone.1
                      then ShortZoneActive else e.state;
         Decides(e.(zone := Some(zone), state := state), after, more, p, zone, now, c)
  }

  lemma FollowingIsExact(e: Event, p: Poll, now: int, c: Config, f: Features) returns (zone: (real, real))
    requires f == if c.climaxEnabled then p.refreshed else p.first
    ensures var (after, more) := AfterAdvance(e, p, now, c);
            Follows(e, after, more, p, f, now, c, zone)
  {
    zone := (0.0, 0.0);
    if e.state != Expired && e.state != PumpDetected {
      ZoneIsExact(e, f, c);
      if e.high.Some? && e.base.Some? {
        zone := BuildZone(e, f, c).value;
        DecisionIsExact(Entered(e, p, zone), p, zone, now, c);
      }
    }
  }

  /** One poll: an event that is no longer tracked is left alone; a confirmed high starts it over; a climax signal is
      sent if the climax path is on and none was sent before; and otherwise it is advanced on the features of that path,
      and what follows follows. */
  lemma PollIsExact(e: Event, p: Poll, c: Config)
    returns (mid: Event, what: seq<Happening>, more: seq<Happening>, pct: real, depth: real, low: real,
             zone: (real, real))
    ensures var (after, all) := Process(e, p, c);
            if e.state == Idle || e.state == Expired then after == e && all == []
            else if IsTopped(e, p.first) then StartsOver(e, after, p.first, p.first.asof) && all == [WasReset]
            else if c.climaxEnabled && e.signalId == None && p.climax.Some? then
              IsSent(e, after, p.climax.value, p.refreshed.asof) && all == [Signalled(p.climax.value, false)]
            else
              var f := if c.climaxEnabled then p.refreshed else p.first;
              && all == what + more
              && Advances(e, mid, what, f, p.first.asof, c, pct, depth, low)
              && Follows(mid, after, more, p, f, p.first.asof, c, zone)
  {
    var f := if c.climaxEnabled then p.refreshed else p.first;
    var advanced := AdvanceEvent(e, f, p.first.asof, c);
    mid, what := advanced.0, advanced.1;
    more := AfterAdvance(mid, p, p.first.asof, c).1;
    pct, depth, low := AdvanceIsExact(e, f, p.first.asof, c);
    zone := FollowingIsExact(mid, p, p.first.asof, c, f);
  }

  /** The fast monitor sends a climax signal if and only if that path is on and the event carries no signal. */
  lemma FastIsExact(e: Event, climax: Option<int>, at: int, c: Config)
    ensures var (after, what) := FastSignal(e, climax, at, c);
            if c.climaxEnabled && e.signalId == None && climax.Some? then
              IsSent(e, after, climax.value, at) && what == [Signalled(climax.value, false)]
            else after == e && what == []
  {
  }
}
