/** The setup score, term by term: what each feature contributes at its ends and in between, what each flag needs and
    costs, and how the sum becomes points, stated without the functions that compute it. */
module ScoreFacts {
  import opened Common
  import opened RealArithmetic
  import opened SetupScore

  // ---------- The points of one feature ----------

  /** Nothing up to `start`, all points from `end` on, and in between in proportion. */
  predicate IsRamp(r: real, value: real, start: real, end: real, points: real) {
    && (value <= start ==> r == 0.0)
    && (value >= end ==> r == points)
    && (start < value < end ==> r * (end - start) == (value - start) * points)
  }

  /** All points at the ideal, falling in proportion to none at `width` from it. */
  predicate IsTent(r: real, value: real, ideal: real, width: real, points: real) {
    var distance := if value >= ideal then value - ideal else ideal - value;
    && (distance >= width ==> r == 0.0)
    && (distance < width ==> r * width == (width - distance) * points)
  }

  lemma Proportion(part: real, whole: real, points: real)
    requires whole > 0.0
    ensures part / whole * points * whole == part * points
  {
    var q := part / whole;
    Quotient(part, whole);
    assert q * points * whole == q * whole * points;
  }

  lemma ScaleIsRamp(value: real, start: real, end: real, points: real)
    requires start < end && points >= 0.0
    ensures IsRamp(Scale(value, start, end, points), value, start, end, points)
  {
    Proportion(value - start, end - start, points);
  }

  lemma BandIsTent(value: real, ideal: real, width: real, points: real)
    requires width > 0.0 && points >= 0.0
    ensures IsTent(IdealBand(value, ideal, width, points), value, ideal, width, points)
  {
    var distance := if value >= ideal then value - ideal else ideal - value;
    Proportion(distance, width, points);
    Distribute(1.0, distance / width, points);
    Distribute(points, distance / width * points, width);
    Distribute(width, distance, points);
  }

  /** The middle of the short zone, a little above half way, scores most; an empty zone scores nothing. */
  predicate IsZonePoints(r: real, price: real, low: real, high: real) {
    if high <= low then r == 0.0
    else IsTent(r, (price - low) / (high - low), 0.55, 0.55, 10.0)
  }

  lemma ZoneIsExact(price: real, low: real, high: real)
    ensures IsZonePoints(ZoneScore(price, low, high), price, low, high)
  {
    if high > low {
      BandIsTent((price - low) / (high - low), 0.55, 0.55, 10.0);
    }
  }

  // ---------- The sum ----------

  datatype Parts = Parts(
    vwap: real, ema: real, wick: real, rejection: real, close: real, retest: real, volume: real, range: real,
    ret15m: real, ret1h: real, ret4h: real, event: real, pullback: real, maturity: real, zone: real,
    oi15m: real, oi1h: real, funding: real)

  predicate AreMomentum(p: Parts, f: Features) {
    && IsRamp(p.vwap, f.distToVwapPct, 6.0, 12.0, 10.0) && IsRamp(p.ema, f.distToEma20Atr, 2.0, 4.0, 5.0)
    && IsRamp(p.wick, f.upperWickRatio, 0.12, 0.25, 8.0) && IsRamp(p.rejection, f.rejectionFromHighPct, 0.8, 1.6, 8.0)
    && IsRamp(p.close, 1.0 - f.closePositionInRange, 0.25, 0.8, 2.0)
    && p.retest == (if f.latestFailedRetest then 2.0 else 0.0)
    && IsRamp(p.volume, f.volZscore30m, 0.4, 2.0, 6.0) && IsRamp(p.range, f.rangeAtrRatio, 1.3, 2.2, 4.0)
  }

  predicate AreEvent(p: Parts, f: Features, zoneLow: real, zoneHigh: real, c: Config) {
    && IsRamp(p.ret15m, f.ret15m, 6.0, 12.0, 5.0) && IsRamp(p.ret1h, f.ret1h, 8.0, 15.0, 5.0)
    && IsRamp(p.ret4h, f.ret4h, 20.0, 35.0, 5.0)
    && IsRamp(p.event, if f.eventRangePct == None then 0.0 else f.eventRangePct.value, 6.0, 22.0, 10.0)
    && IsTent(p.pullback, if f.pullbackFromHighPct == None then 0.0 else f.pullbackFromHighPct.value, 3.5, 3.5, 10.0)
    && IsRamp(p.maturity, f.distToVwapPct, c.distToVwapMin, c.distToVwapMin + 4.0, 5.0)
    && IsZonePoints(p.zone, f.price, zoneLow, zoneHigh)
    && p.oi15m == (if f.oiChange15m.Some? && f.oiChange15m.value > 0.0 then 2.0 else 0.0)
    && p.oi1h == (if f.oiChange1h.Some? && f.oiChange1h.value > 0.0 then 2.0 else 0.0)
    && p.funding == (if f.fundingRate.Some? && f.fundingRate.value > 0.0 then 1.0 else 0.0)
  }

  function Greatest(a: real, b: real, c: real): (m: real)
    ensures m >= a && m >= b && m >= c && (m == a || m == b || m == c)
  {
    MaxReal(MaxReal(a, b), c)
  }

  function Sum(p: Parts): real {
    p.vwap + p.ema + p.wick + p.rejection + p.close + p.retest + p.volume + p.range
    + Greatest(p.ret15m, p.ret1h, p.ret4h) + p.event + p.pullback + p.maturity + p.zone + p.oi15m + p.oi1h + p.funding
  }

  function PartsOf(f: Features, zoneLow: real, zoneHigh: real, c: Config): Parts {
    Parts(Scale(f.distToVwapPct, 6.0, 12.0, 10.0), Scale(f.distToEma20Atr, 2.0, 4.0, 5.0),
          Scale(f.upperWickRatio, 0.12, 0.25, 8.0), Scale(f.rejectionFromHighPct, 0.8, 1.6, 8.0),
          Scale(1.0 - f.closePositionInRange, 0.25, 0.8, 2.0), if f.latestFailedRetest then 2.0 else 0.0,
          Scale(f.volZscore30m, 0.4, 2.0, 6.0), Scale(f.rangeAtrRatio, 1.3, 2.2, 4.0),
          Scale(f.ret15m, 6.0, 12.0, 5.0), Scale(f.ret1h, 8.0, 15.0, 5.0), Scale(f.ret4h, 20.0, 35.0, 5.0),
          Scale(OrZero(f.eventRangePct), 6.0, 22.0, 10.0), IdealBand(OrZero(f.pullbackFromHighPct), 3.5, 3.5, 10.0),
          Scale(f.distToVwapPct, c.distToVwapMin, c.distToVwapMin + 4.0, 5.0), ZoneScore(f.price, zoneLow, zoneHigh),
          Bonus(f.oiChange15m, 2.0), Bonus(f.oiChange1h, 2.0), Bonus(f.fundingRate, 1.0))
  }

  lemma MomentumIsExact(f: Features, zoneLow: real, zoneHigh: real, c: Config)
    ensures AreMomentum(PartsOf(f, zoneLow, zoneHigh, c), f)
  {
    ScaleIsRamp(f.distToVwapPct, 6.0, 12.0, 10.0);
    ScaleIsRamp(f.distToEma20Atr, 2.0, 4.0, 5.0);
    ScaleIsRamp(f.upperWickRatio, 0.12, 0.25, 8.0);
    ScaleIsRamp(f.rejectionFromHighPct, 0.8, 1.6, 8.0);
    ScaleIsRamp(1.0 - f.closePositionInRange, 0.25, 0.8, 2.0);
    ScaleIsRamp(f.volZscore30m, 0.4, 2.0, 6.0);
    ScaleIsRamp(f.rangeAtrRatio, 1.3, 2.2, 4.0);
  }

  lemma EventIsExact(f: Features, zoneLow: real, zoneHigh: real, c: Config)
    ensures AreEvent(PartsOf(f, zoneLow, zoneHigh, c), f, zoneLow, zoneHigh, c)
  {
    ScaleIsRamp(f.ret15m, 6.0, 12.0, 5.0);
    ScaleIsRamp(f.ret1h, 8.0, 15.0, 5.0);
    ScaleIsRamp(f.ret4h, 20.0, 35.0, 5.0);
    ScaleIsRamp(OrZero(f.eventRangePct), 6.0, 22.0, 10.0);
    BandIsTent(OrZero(f.pullbackFromHighPct), 3.5, 3.5, 10.0);
    ScaleIsRamp(f.distToVwapPct, c.distToVwapMin, c.distToVwapMin + 4.0, 5.0);
    ZoneIsExact(f.price, zoneLow, zoneHigh);
  }

  /** The raw total is the sum of the points of every feature, of the three returns only the greatest. */
  lemma TotalIsExact(f: Features, zoneLow: real, zoneHigh: real, c: Config) returns (p: Parts)
    ensures AreMomentum(p, f) && AreEvent(p, f, zoneLow, zoneHigh, c)
    ensures RawTotal(f, zoneLow, zoneHigh, c) == Sum(p)
  {
    p := PartsOf(f, zoneLow, zoneHigh, c);
    MomentumIsExact(f, zoneLow, zoneHigh, c);
    EventIsExact(f, zoneLow, zoneHigh, c);
  }

  /** The nearest integer, the even one of two. */
  predicate IsNearest(n: int, x: real) {
    && n as real - 0.5 <= x <= n as real + 0.5
    && (x == n as real - 0.5 || x == n as real + 0.5 ==> n % 2 == 0)
  }

  lemma RoundIsNearest(x: real)
    ensures IsNearest(RoundHalfEven(x), x)
  {
  }

  lemma ScoreUnfolds(f: Features, zoneLow: real, zoneHigh: real, c: Config, total: real, penalty: nat)
    requires total == RawTotal(f, zoneLow, zoneHigh, c) && penalty == Penalty(f, c)
    ensures ScoreSetup(f, zoneLow, zoneHigh, c) == RoundHalfEven(MaxReal(0.0, MinReal(100.0, total - penalty as real)))
  {
  }

  /** The score is the nearest integer to the total less the penalty, kept between 0 and 100. */
  lemma ScoreIsExact(f: Features, zoneLow: real, zoneHigh: real, c: Config, total: real, penalty: nat)
    requires total == RawTotal(f, zoneLow, zoneHigh, c) && penalty == Penalty(f, c)
    ensures var x := total - penalty as real;
            IsNearest(ScoreSetup(f, zoneLow, zoneHigh, c), if x < 0.0 then 0.0 else if x > 100.0 then 100.0 else x)
  {
    ScoreUnfolds(f, zoneLow, zoneHigh, c, total, penalty);
    RoundIsNearest(MaxReal(0.0, MinReal(100.0, total - penalty as real)));
  }

  // ---------- The flags ----------

  function Rank(flag: Flag): nat {
    match flag
    case ShallowPullback => 1
    case NearHigh => 2
    case WeakRejection => 3
    case ThinVwapBuffer => 4
    case HighBroken => 5
    case LargeBody => 6
    case RetestNotFailed => 7
    case LiquidityUnavailable => 8
    case WideSpread => 9
    case HighSlippage => 10
    case ThinDepth1 => 11
    case ThinDepth2 => 12
  }

  predicate InOrder(flags: seq<Flag>, below: nat) {
    && (forall i | 0 <= i < |flags| :: Rank(flags[i]) < below)
    && forall i, j | 0 <= i < j < |flags| :: Rank(flags[i]) < Rank(flags[j])
  }

  lemma AlsoInOrder(before: seq<Flag>, flag: Flag, f: Features, c: Config)
    requires InOrder(before, Rank(flag))
    ensures InOrder(Also(before, flag, f, c), Rank(flag) + 1)
  {
  }

  lemma EntryInOrder(f: Features, c: Config)
    ensures InOrder(EntryFlags(f, c), 5)
  {
    var one := Also([], ShallowPullback, f, c);
    var two := Also(one, NearHigh, f, c);
    AlsoInOrder([], ShallowPullback, f, c);
    AlsoInOrder(one, NearHigh, f, c);
    AlsoInOrder(two, WeakRejection, f, c);
    AlsoInOrder(Also(two, WeakRejection, f, c), ThinVwapBuffer, f, c);
  }

  lemma ContinuationInOrder(before: seq<Flag>, f: Features, c: Config)
    requires InOrder(before, 5)
    ensures InOrder(ContinuationFlags(before, f, c), 8)
  {
    var one := Also(before, HighBroken, f, c);
    AlsoInOrder(before, HighBroken, f, c);
    AlsoInOrder(one, LargeBody, f, c);
    AlsoInOrder(Also(one, LargeBody, f, c), RetestNotFailed, f, c);
  }

  lemma OrderbookInOrder(before: seq<Flag>, f: Features, c: Config)
    requires InOrder(before, 8)
    ensures InOrder(OrderbookFlags(before, f, c), 13)
  {
    var one := Also(before, LiquidityUnavailable, f, c);
    var two := Also(one, WideSpread, f, c);
    var three := Also(two, HighSlippage, f, c);
    AlsoInOrder(before, LiquidityUnavailable, f, c);
    AlsoInOrder(one, WideSpread, f, c);
    AlsoInOrder(two, HighSlippage, f, c);
    AlsoInOrder(three, ThinDepth1, f, c);
    AlsoInOrder(Also(three, ThinDepth1, f, c), ThinDepth2, f, c);
  }

  /** Flags are listed in this order, each once. */
  lemma FlagsInOrder(f: Features, c: Config)
    ensures InOrder(Flags(f, c), 13)
  {
    EntryInOrder(f, c);
    ContinuationInOrder(EntryFlags(f, c), f, c);
    OrderbookInOrder(ContinuationFlags(EntryFlags(f, c), f, c), f, c);
  }

  function Pullback(f: Features): real { if f.pullbackFromHighPct == None then 0.0 else f.pullbackFromHighPct.value }

  function FromHigh(f: Features): real {
    if f.distanceToEventHighPct == None then 0.0 else f.distanceToEventHighPct.value
  }

  /** Each flag is listed if and only if its condition holds: the four about the entry, */
  lemma EntryConditions(f: Features, c: Config)
    ensures ShallowPullback in Flags(f, c) <==> 0.0 < Pullback(f) < c.pullbackMinPct
    ensures NearHigh in Flags(f, c) <==> FromHigh(f) < 1.0 || Pullback(f) < 0.5
    ensures WeakRejection in Flags(f, c)
       <==> f.upperWickRatio < c.upperWickMin && f.rejectionFromHighPct < c.rejectionMin
    ensures ThinVwapBuffer in Flags(f, c) <==> f.distToVwapPct < c.distToVwapMin + 1.0
  {
    FlagsAreExact(f, c, ShallowPullback);
    FlagsAreExact(f, c, NearHigh);
    FlagsAreExact(f, c, WeakRejection);
    FlagsAreExact(f, c, ThinVwapBuffer);
  }

  /** the three about continuation, */
  lemma ContinuationConditions(f: Features, c: Config)
    ensures HighBroken in Flags(f, c) <==> f.recentHighBreakout
    ensures LargeBody in Flags(f, c) <==> f.latestBodyAtrRatio > 1.0
    ensures RetestNotFailed in Flags(f, c) <==> !f.latestFailedRetest
  {
    FlagsAreExact(f, c, HighBroken);
    FlagsAreExact(f, c, LargeBody);
    FlagsAreExact(f, c, RetestNotFailed);
  }

  /** and the five about the order book, of which the last four need it. */
  lemma OrderbookConditions(f: Features, c: Config)
    ensures LiquidityUnavailable in Flags(f, c) <==> !f.liquidityAvailable
    ensures WideSpread in Flags(f, c)
       <==> f.liquidityAvailable && f.spreadPct.Some? && f.spreadPct.value > c.maxSpreadPct
    ensures HighSlippage in Flags(f, c)
       <==> f.liquidityAvailable && f.slippagePct.Some? && f.slippagePct.value > c.maxSlippagePct
    ensures ThinDepth1 in Flags(f, c)
       <==> f.liquidityAvailable && f.depth1Pct.Some? && f.depth1Pct.value < c.minDepth1Pct
    ensures ThinDepth2 in Flags(f, c)
       <==> f.liquidityAvailable && f.depth2Pct.Some? && f.depth2Pct.value < c.minDepth2Pct
  {
    FlagsAreExact(f, c, LiquidityUnavailable);
    FlagsAreExact(f, c, WideSpread);
    FlagsAreExact(f, c, HighSlippage);
    FlagsAreExact(f, c, ThinDepth1);
    FlagsAreExact(f, c, ThinDepth2);
  }

  lemma ListedAreRaised(f: Features, c: Config, flags: seq<Flag>)
    requires flags == Flags(f, c)
    ensures Lists(flags, f, c)
  {
    forall flag ensures flag in flags <==> Raised(flag, f, c) {
      FlagsAreExact(f, c, flag);
    }
  }

  /** The entry flags cost their settings, a near high half of one but four at least, a thin buffer six; */
  predicate EntrySum(flags: seq<Flag>, c: Config, sum: nat) {
    sum == (if ShallowPullback in flags then c.shallowPullbackPenalty else 0)
           + (if NearHigh !in flags then 0
              else if c.shallowPullbackPenalty >= 8 then c.shallowPullbackPenalty / 2 else 4)
           + (if WeakRejection in flags then c.weakRejectionPenalty else 0)
           + (if ThinVwapBuffer in flags then 6 else 0)
  }

  predicate ContinuationSum(flags: seq<Flag>, c: Config, sum: nat) {
    sum == (if HighBroken in flags then 12 else 0) + (if LargeBody in flags then 10 else 0)
           + (if RetestNotFailed in flags then c.retestNotFailedPenalty else 0)
  }

  predicate RestSum(flags: seq<Flag>, c: Config, sum: nat) {
    sum == (if LiquidityUnavailable in flags then 10 else 0)
           + (if ShallowPullback in flags && NearHigh in flags && WeakRejection in flags && RetestNotFailed in flags
              then c.combinedEarlyShortRiskPenalty else 0)
  }

  ghost predicate Lists(flags: seq<Flag>, f: Features, c: Config) {
    forall flag :: flag in flags <==> Raised(flag, f, c)
  }

  lemma EntryAdds(f: Features, c: Config, flags: seq<Flag>, sum: nat)
    requires Lists(flags, f, c) && EntrySum(flags, c, sum)
    ensures sum == EntryCost(f, c)
  {
  }

  lemma ContinuationAdds(f: Features, c: Config, flags: seq<Flag>, sum: nat)
    requires Lists(flags, f, c) && ContinuationSum(flags, c, sum)
    ensures sum == ContinuationCost(f, c)
  {
  }

  lemma RestAdds(f: Features, c: Config, flags: seq<Flag>, sum: nat)
    requires Lists(flags, f, c) && RestSum(flags, c, sum)
    ensures sum == Charge(LiquidityUnavailable, f, c) + if EarlyShort(f, c) then c.combinedEarlyShortRiskPenalty else 0
  {
  }

  /** and all together, with more for the four signs of an early short at once, at most forty. */
  lemma PenaltyIsExact(f: Features, c: Config, flags: seq<Flag>, entry: nat, continuation: nat, rest: nat)
    requires flags == Flags(f, c)
    requires EntrySum(flags, c, entry) && ContinuationSum(flags, c, continuation) && RestSum(flags, c, rest)
    ensures Penalty(f, c) == if entry + continuation + rest > 40 then 40 else entry + continuation + rest
  {
    ListedAreRaised(f, c, flags);
    EntryAdds(f, c, flags, entry);
    ContinuationAdds(f, c, flags, continuation);
    RestAdds(f, c, flags, rest);
  }

  /** A breakout risk is one of these six flags. */
  lemma BreakoutIsExact(f: Features, c: Config)
    ensures BreakoutRisk(f, c)
       <==> var flags := Flags(f, c);
            HighBroken in flags || LargeBody in flags || WideSpread in flags || HighSlippage in flags
            || ThinDepth1 in flags || ThinDepth2 in flags
  {
    BreakoutCases(f, c);
    FlagsAreExact(f, c, HighBroken);
    FlagsAreExact(f, c, LargeBody);
    FlagsAreExact(f, c, WideSpread);
    FlagsAreExact(f, c, HighSlippage);
    FlagsAreExact(f, c, ThinDepth1);
    FlagsAreExact(f, c, ThinDepth2);
  }
}
