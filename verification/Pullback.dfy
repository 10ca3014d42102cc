/** The baseline event machine: PullbackTracker (app/events/pullback_tracker.py), the short zone
    (app/events/short_zone.py) and the poll of one tracked event in `_process_symbol` (app/main.py).
    Times are minutes since the epoch. */
module Pullback {
  import opened Common

  datatype Status = Idle | PumpDetected | PullbackObserved | ShortZoneActive | SignalSent | Expired

  datatype ZoneMode = AtrFromHigh | RangeFromBase

  datatype Config = Config(
    pullbackMinPct: real, pullbackMaxPct: real, holdVwapMin: real, holdRangeFloorPct: real,
    zoneMode: ZoneMode, zoneAtrLowMult: real, zoneAtrHighMult: real, zoneRangeLowPct: real, zoneRangeHighPct: real,
    maxSignalAge: int, climaxEnabled: bool)

  /** The settings are validated as non-negative. */
  predicate ValidConfig(c: Config) { c.pullbackMinPct >= 0.0 }

  datatype Features = Features(asof: int, price: real, lastHigh: real, lastHighTime: Option<int>, lastLow: real,
                               distToVwapPct: real, atr14: real)

  /** The tracked fields of one event instance. */
  datatype Event = Event(
    id: string, state: Status, high: Option<real>, highTime: Option<int>, base: Option<real>,
    detectedAt: Option<int>, depthPct: Option<real>, lowPrice: Option<real>, zone: Option<(real, real)>,
    sentAt: Option<int>, signalId: Option<int>, expiresAt: Option<int>, updatedAt: Option<int>, emitted: set<string>)

  /** What the signal engine decides once its gate lets the event through. */
  datatype Verdict = Nothing | WatchFor(watchType: string) | Short(signalId: int, live: bool)

  /** Everything a poll reads: the features before and after the climax and liquidity refreshes, the climax
      signal it saves if any, whether an early watch qualifies, and the engine's verdict. */
  datatype Poll = Poll(first: Features, refreshed: Features, final: Features, climax: Option<int>, earlyWatch: bool,
                       verdict: Verdict)

  datatype Happening =
    | WasReset
    | Advanced(pullbackPct: real, low: real)
    | Detected(pullbackPct: real, low: real)
    | Watched(watchType: string)
    | Signalled(signalId: int, baseline: bool)

  const EARLY_PUMP_WATCH := "EARLY_PUMP_WATCH"

  // ---------- The tracker, on values ----------

  predicate PastTime(limit: Option<int>, now: int) { limit.Some? && now >= limit.value }

  function KillPrice(base: real, high: real): real { base + 0.35 * (high - base) }

  predicate Expires(e: Event, f: Features, now: int) {
    PastTime(e.expiresAt, now) || (e.high.Some? && e.base.Some? && f.price < KillPrice(e.base.value, e.high.value))
  }

  predicate SignalIsOld(e: Event, now: int) { e.sentAt.Some? && now >= e.sentAt.value + 15 }

  predicate ConfirmsHigh(e: Event, f: Features) {
    e.signalId == None && e.high.Some? && e.base.Some? && f.lastHighTime.Some? && f.lastHigh > e.high.value
  }

  function ResetTo(e: Event, f: Features, now: int): Event
    requires f.lastHighTime.Some?
  {
    e.(high := Some(f.lastHigh), highTime := f.lastHighTime, detectedAt := None, depthPct := None, lowPrice := None,
       zone := None, state := PumpDetected, updatedAt := Some(now))
  }

  function PullbackPct(high: real, price: real): real {
    if high == 0.0 then 0.0 else (high - price) / high * 100.0
  }

  function FloorPrice(base: real, high: real, c: Config): real { base + c.holdRangeFloorPct * (high - base) }

  predicate IsPullback(e: Event, f: Features, c: Config)
    requires e.high.Some? && e.base.Some?
  {
    && e.detectedAt == None
    && c.pullbackMinPct <= PullbackPct(e.high.value, f.price) <= c.pullbackMaxPct
    && f.distToVwapPct >= c.holdVwapMin
    && f.price >= FloorPrice(e.base.value, e.high.value, c)
  }

  function Deeper(depth: Option<real>, pct: real): real { MaxReal(if depth.Some? then depth.value else 0.0, pct) }

  function Lower(low: Option<real>, price: real): real { if low.Some? then MinReal(low.value, price) else price }

  /** The event after one advance and what happened. */
  function AdvanceEvent(e: Event, f: Features, now: int, c: Config): (Event, seq<Happening>) {
    var seen := e.(updatedAt := Some(now));
    if Expires(e, f, now) || SignalIsOld(e, now) then (seen.(state := Expired, expiresAt := Some(now)), [])
    else if e.high == None || e.base == None then (seen, [])
    else if ConfirmsHigh(e, f) then (ResetTo(e, f, now), [WasReset])
    else
      var pct := PullbackPct(e.high.value, f.price);
      if IsPullback(e, f, c)
      then (seen.(state := PullbackObserved, detectedAt := Some(now), depthPct := Some(pct),
                  lowPrice := Some(f.lastLow)),
            [Detected(pct, f.lastLow)])
      else (seen.(depthPct := Some(Deeper(e.depthPct, pct)), lowPrice := Some(Lower(e.lowPrice, f.lastLow))),
            [Advanced(pct, f.lastLow)])
  }

  function MarkSent(e: Event, signalId: int, now: int): Event {
    e.(state := SignalSent, signalId := Some(signalId), sentAt := Some(now), updatedAt := Some(now))
  }

  // ---------- One poll, on values ----------

  function BuildZone(e: Event, f: Features, c: Config): Option<(real, real)> {
    if e.base == None || e.high == None then None
    else
      var (a, b) :=
        if c.zoneMode == AtrFromHigh
        then (e.high.value - c.zoneAtrLowMult * f.atr14, e.high.value - c.zoneAtrHighMult * f.atr14)
        else (e.base.value + c.zoneRangeLowPct * (e.high.value - e.base.value),
              e.base.value + c.zoneRangeHighPct * (e.high.value - e.base.value));
      Some((MinReal(a, b), MaxReal(a, b)))
  }

  /** The engine considers only an observed pullback that is neither stale nor outside its zone. */
  predicate Considered(e: Event, zone: (real, real), f: Features, now: int, c: Config) {
    && e.state in {PullbackObserved, ShortZoneActive}
    && !PastTime(e.expiresAt, now)
    && !(e.highTime.Some? && now >= e.highTime.value + c.maxSignalAge)
    && zone.0 <= f.price <= zone.1
  }

  function Emit(e: Event, watchType: string): (Event, seq<Happening>) {
    if watchType in e.emitted then (e, []) else (e.(emitted := e.emitted + {watchType}), [Watched(watchType)])
  }

  function Decide(e: Event, p: Poll, zone: (real, real), now: int, c: Config): (Event, seq<Happening>) {
    var verdict := if Considered(e, zone, p.final, now, c) then p.verdict else Nothing;
    if verdict == Nothing || e.signalId.Some? then (e, [])
    else if verdict.WatchFor? then Emit(e, verdict.watchType)
    else if !verdict.live then (e, [])
    else (MarkSent(e, verdict.signalId, now), [Signalled(verdict.signalId, true)])
  }

  /** The event with its zone, active if an observed pullback has entered it. */
  function Entered(e: Event, p: Poll, zone: (real, real)): Event {
    var zoned := e.(zone := Some(zone));
    if zone.0 <= p.final.price <= zone.1 && e.state == PullbackObserved then zoned.(state := ShortZoneActive) else zoned
  }

  /** The zone part of a poll that found the event past its pump. */
  function EnterZone(e: Event, p: Poll, f: Features, now: int, c: Config): (Event, seq<Happening>) {
    var zone := BuildZone(e, f, c);
    if zone == None then (e, []) else Decide(Entered(e, p, zone.value), p, zone.value, now, c)
  }

  predicate Tracked(e: Event) { e.state != Idle && e.state != Expired }

  /** The features an advance sees. */
  function Seen(p: Poll, c: Config): Features { if c.climaxEnabled then p.refreshed else p.first }

  function AfterAdvance(e: Event, p: Poll, now: int, c: Config): (Event, seq<Happening>) {
    if e.state == Expired then (e, [])
    else if e.state == PumpDetected then (if p.earlyWatch then Emit(e, EARLY_PUMP_WATCH) else (e, []))
    else EnterZone(e, p, Seen(p, c), now, c)
  }

  /** One poll of a tracked event; an event that is no longer tracked is left to its successor. */
  function Process(e: Event, p: Poll, c: Config): (Event, seq<Happening>) {
    var now := p.first.asof;
    if !Tracked(e) then (e, [])
    else if ConfirmsHigh(e, p.first) then (ResetTo(e, p.first, now), [WasReset])
    else if c.climaxEnabled && e.signalId == None && p.climax.Some?
    then (MarkSent(e, p.climax.value, p.refreshed.asof), [Signalled(p.climax.value, false)])
    else
      var (advanced, what) := AdvanceEvent(e, Seen(p, c), now, c);
      var (after, more) := AfterAdvance(advanced, p, now, c);
      (after, what + more)
  }

  /** A visit to the event by one of the two loops that share it: a poll of the full scan, or a signal of the
      fast climax monitor, which looks at nothing but the signal id. */
  datatype Visit = ByScan(poll: Poll) | ByFast(signalId: int, at: int)

  function FastSignal(e: Event, climax: Option<int>, at: int, c: Config): (Event, seq<Happening>) {
    if !c.climaxEnabled || e.signalId.Some? || climax == None then (e, [])
    else (MarkSent(e, climax.value, at), [Signalled(climax.value, false)])
  }

  function Visited(e: Event, v: Visit, c: Config): (Event, seq<Happening>) {
    match v
    case ByScan(p) => Process(e, p, c)
    case ByFast(signalId, at) => FastSignal(e, Some(signalId), at, c)
  }

  // ---------- The objects ----------

  class EventState {
    const id: string
    var state: Status
    var eventHigh: Option<real>
    var eventHighTime: Option<int>
    var eventBasePrice: Option<real>
    var pullbackDetectedAt: Option<int>
    var pullbackDepthPct: Option<real>
    var pullbackLowPrice: Option<real>
    var zone: Option<(real, real)>
    var signalSentAt: Option<int>
    var signalId: Option<int>
    var expiresAt: Option<int>
    var updatedAt: Option<int>
    var emittedWatchTypes: set<string>

    function Value(): Event
      reads this
    {
      Event(id, state, eventHigh, eventHighTime, eventBasePrice, pullbackDetectedAt, pullbackDepthPct, pullbackLowPrice,
            zone, signalSentAt, signalId, expiresAt, updatedAt, emittedWatchTypes)
    }

    /** A pump as the detector builds it. */
    constructor (id: string, high: real, highTime: int, base: real, now: int, expiryMinutes: int)
      ensures Value() == NewEvent(id, high, highTime, base, now, expiryMinutes)
    {
      this.id, state := id, PumpDetected;
      eventHigh, eventHighTime, eventBasePrice := Some(high), Some(highTime), Some(base);
      pullbackDetectedAt, pullbackDepthPct, pullbackLowPrice, zone := None, None, None, None;
      signalSentAt, signalId, expiresAt, updatedAt := None, None, Some(now + expiryMinutes), Some(now);
      emittedWatchTypes := {};
    }
  }

  function NewEvent(id: string, high: real, highTime: int, base: real, now: int, expiryMinutes: int): Event {
    Event(id, PumpDetected, Some(high), Some(highTime), Some(base), None, None, None, None, None, None,
          Some(now + expiryMinutes), Some(now), {})
  }

  class PullbackTracker {
    const config: Config

    constructor (config: Config)
      ensures this.config == config
    {
      this.config := config;
    }

    method Advance(s: EventState, f: Features, now: int) returns (ghost what: seq<Happening>)
      modifies s
      ensures (s.Value(), what) == AdvanceEvent(old(s.Value()), f, now, config)
    {
      what := [];
      s.updatedAt := Some(now);
      var expire := ShouldExpire(s, f, now);
      if expire {
        s.state, s.expiresAt := Expired, Some(now);
        return;
      }
      if s.signalSentAt.Some? && now >= s.signalSentAt.value + 15 {
        s.state, s.expiresAt := Expired, Some(now);
        return;
      }
      if s.eventHigh == None || s.eventBasePrice == None {
        return;
      }
      var reset := ResetAfterConfirmedHigh(s, f, now);
      if reset {
        what := [WasReset];
        return;
      }
      var pullbackPct := PullbackPct(s.eventHigh.value, f.price);
      s.pullbackDepthPct := Some(Deeper(s.pullbackDepthPct, pullbackPct));
      s.pullbackLowPrice := Some(Lower(s.pullbackLowPrice, f.lastLow));
      what := [Advanced(pullbackPct, f.lastLow)];
      var floorPrice := FloorPrice(s.eventBasePrice.value, s.eventHigh.value, config);
      if s.pullbackDetectedAt == None && config.pullbackMinPct <= pullbackPct <= config.pullbackMaxPct
         && f.distToVwapPct >= config.holdVwapMin && f.price >= floorPrice
      {
        s.state, s.pullbackDetectedAt := PullbackObserved, Some(now);
        s.pullbackDepthPct, s.pullbackLowPrice := Some(pullbackPct), Some(f.lastLow);
        what := [Detected(pullbackPct, f.lastLow)];
      }
    }

    method ResetAfterConfirmedHigh(s: EventState, f: Features, now: int) returns (reset: bool)
      modifies s
      ensures reset == ConfirmsHigh(old(s.Value()), f)
      ensures s.Value() == if reset then ResetTo(old(s.Value()), f, now) else old(s.Value())
    {
      if s.signalId.Some? || s.eventHigh == None || s.eventBasePrice == None || f.lastHighTime == None {
        return false;
      }
      if f.lastHigh <= s.eventHigh.value {
        return false;
      }
      s.eventHigh, s.eventHighTime := Some(f.lastHigh), f.lastHighTime;
      s.pullbackDetectedAt, s.pullbackDepthPct, s.pullbackLowPrice, s.zone := None, None, None, None;
      s.state, s.updatedAt := PumpDetected, Some(now);
      reset := true;
    }

    method MarkSignalSent(s: EventState, signalId: int, when: int)
      modifies s
      ensures s.Value() == MarkSent(old(s.Value()), signalId, when)
    {
      s.state, s.signalId, s.signalSentAt, s.updatedAt := SignalSent, Some(signalId), Some(when), Some(when);
    }

    method ShouldExpire(s: EventState, f: Features, now: int) returns (expire: bool)
      ensures expire == Expires(s.Value(), f, now)
    {
      if s.expiresAt.Some? && now >= s.expiresAt.value {
        return true;
      }
      if s.eventHigh == None || s.eventBasePrice == None {
        return false;
      }
      expire := f.price < KillPrice(s.eventBasePrice.value, s.eventHigh.value);
    }
  }

  class Bot {
    const config: Config
    const tracker: PullbackTracker

    constructor (config: Config)
      ensures this.config == config && tracker.config == config
    {
      this.config := config;
      tracker := new PullbackTracker(config);
    }

    /** The climax path that both loops share, up to the signal it saves: an event with a signal is left alone. */
    method EvaluateAndSendClimax(s: EventState, climax: Option<int>, at: int)
      returns (sent: bool, ghost what: seq<Happening>)
      requires tracker.config == config
      modifies s
      ensures (s.Value(), what) == FastSignal(old(s.Value()), climax, at, config)
      ensures sent <==> config.climaxEnabled && old(s.signalId) == None && climax.Some?
    {
      sent, what := false, [];
      if !config.climaxEnabled || s.signalId.Some? {
        return;
      }
      if climax.Some? {
        tracker.MarkSignalSent(s, climax.value, at);
        sent, what := true, [Signalled(climax.value, false)];
      }
    }

    /** One poll of a tracked event: reset, climax, advance, zone, decision. */
    method ProcessSymbol(s: EventState, p: Poll) returns (ghost what: seq<Happening>)
      requires tracker.config == config && Tracked(s.Value())
      modifies s
      ensures (s.Value(), what) == Process(old(s.Value()), p, config)
    {
      var now := p.first.asof;
      var reset := tracker.ResetAfterConfirmedHigh(s, p.first, now);
      if reset {
        return [WasReset];
      }
      var features := p.first;
      if config.climaxEnabled {
        features := p.refreshed;
        var sent;
        sent, what := EvaluateAndSendClimax(s, p.climax, features.asof);
        if sent {
          return;
        }
      }
      what := tracker.Advance(s, features, now);
      ghost var advanced, more := s.Value(), [];
      if s.state == PumpDetected {
        if p.earlyWatch {
          more := EmitOnce(s, EARLY_PUMP_WATCH);
        }
      } else if s.state != Expired {
        more := FollowZone(s, p, features, now);
      }
      assert (s.Value(), more) == AfterAdvance(advanced, p, now, config);
      what := what + more;
    }

    /** A watch of one type goes out once per event. */
    method EmitOnce(s: EventState, watchType: string) returns (ghost what: seq<Happening>)
      modifies s
      ensures (s.Value(), what) == Emit(old(s.Value()), watchType)
    {
      if watchType in s.emittedWatchTypes {
        return [];
      }
      s.emittedWatchTypes := s.emittedWatchTypes + {watchType};
      what := [Watched(watchType)];
    }

    method FollowZone(s: EventState, p: Poll, f: Features, now: int) returns (ghost what: seq<Happening>)
      requires tracker.config == config
      modifies s
      ensures (s.Value(), what) == EnterZone(old(s.Value()), p, f, now, config)
    {
      var zone := BuildZone(s.Value(), f, config);
      if zone == None {
        return [];
      }
      var (low, high) := zone.value;
      s.zone := zone;
      if low <= p.final.price <= high && s.state == PullbackObserved {
        s.state := ShortZoneActive;
      }
      var considered := Considered(s.Value(), (low, high), p.final, now, config);
      if !considered || p.verdict == Nothing || s.signalId.Some? {
        return [];
      }
      match p.verdict {
        case WatchFor(watchType) =>
          what := EmitOnce(s, watchType);
        case Short(signalId, live) =>
          if !live {
            return [];
          }
          tracker.MarkSignalSent(s, signalId, now);
          what := [Signalled(signalId, true)];
      }
    }
  }
}
