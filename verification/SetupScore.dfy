/** The setup score (app/signals/scoring.py) and its risk penalties (app/signals/risk_flags.py), over reals. */
module SetupScore {
  import opened Common
  import opened RealArithmetic

  datatype Features = Features(
    price: real, ret15m: real, ret1h: real, ret4h: real, distToVwapPct: real, distToEma20Atr: real,
    upperWickRatio: real, rejectionFromHighPct: real, closePositionInRange: real, volZscore30m: real,
    rangeAtrRatio: real, oiChange15m: Option<real>, oiChange1h: Option<real>, fundingRate: Option<real>,
    eventRangePct: Option<real>, pullbackFromHighPct: Option<real>, distanceToEventHighPct: Option<real>,
    recentHighBreakout: bool, latestBodyAtrRatio: real, latestFailedRetest: bool,
    spreadPct: Option<real>, slippagePct: Option<real>, depth1Pct: Option<real>, depth2Pct: Option<real>,
    liquidityAvailable: bool)

  /** The settings read here, each validated as non-negative. */
  datatype Config = Config(
    pullbackMinPct: real, upperWickMin: real, rejectionMin: real, distToVwapMin: real,
    shallowPullbackPenalty: nat, weakRejectionPenalty: nat, retestNotFailedPenalty: nat,
    combinedEarlyShortRiskPenalty: nat,
    maxSpreadPct: real, maxSlippagePct: real, minDepth1Pct: real, minDepth2Pct: real)

  datatype Flag =
    | ShallowPullback | NearHigh | WeakRejection | ThinVwapBuffer | HighBroken | LargeBody | RetestNotFailed
    | LiquidityUnavailable | WideSpread | HighSlippage | ThinDepth1 | ThinDepth2

  function OrZero(x: Option<real>): real { if x.Some? then x.value else 0.0 }

  // ---------- Risk flags ----------

  /** The condition behind each flag. */
  predicate Raised(flag: Flag, f: Features, c: Config) {
    var pullback := OrZero(f.pullbackFromHighPct);
    match flag
    case ShallowPullback => 0.0 < pullback < c.pullbackMinPct
    case NearHigh => OrZero(f.distanceToEventHighPct) < 1.0 || pullback < 0.5
    case WeakRejection => f.upperWickRatio < c.upperWickMin && f.rejectionFromHighPct < c.rejectionMin
    case ThinVwapBuffer => f.distToVwapPct < c.distToVwapMin + 1.0
    case HighBroken => f.recentHighBreakout
    case LargeBody => f.latestBodyAtrRatio > 1.0
    case RetestNotFailed => !f.latestFailedRetest
    case LiquidityUnavailable => !f.liquidityAvailable
    case WideSpread => f.liquidityAvailable && f.spreadPct.Some? && f.spreadPct.value > c.maxSpreadPct
    case HighSlippage => f.liquidityAvailable && f.slippagePct.Some? && f.slippagePct.value > c.maxSlippagePct
    case ThinDepth1 => f.liquidityAvailable && f.depth1Pct.Some? && f.depth1Pct.value < c.minDepth1Pct
    case ThinDepth2 => f.liquidityAvailable && f.depth2Pct.Some? && f.depth2Pct.value < c.minDepth2Pct
  }

  /** The points a flag costs; order-book flags cost none. */
  function Cost(flag: Flag, c: Config): nat {
    match flag
    case ShallowPullback => c.shallowPullbackPenalty
    case NearHigh => Max(4, c.shallowPullbackPenalty / 2)
    case WeakRejection => c.weakRejectionPenalty
    case ThinVwapBuffer => 6
    case HighBroken => 12
    case LargeBody => 10
    case RetestNotFailed => c.retestNotFailedPenalty
    case LiquidityUnavailable => 10
    case _ => 0
  }

  /** The flags that mark a breakout risk. */
  predicate Breaks(flag: Flag) { flag in {HighBroken, LargeBody, WideSpread, HighSlippage, ThinDepth1, ThinDepth2} }

  function Charge(flag: Flag, f: Features, c: Config): nat { if Raised(flag, f, c) then Cost(flag, c) else 0 }

  /** The raised flags in the order the source checks them, in three stretches. */
  function Also(before: seq<Flag>, flag: Flag, f: Features, c: Config): seq<Flag> {
    if Raised(flag, f, c) then before + [flag] else before
  }

  function EntryFlags(f: Features, c: Config): seq<Flag> {
    Also(Also(Also(Also([], ShallowPullback, f, c), NearHigh, f, c), WeakRejection, f, c), ThinVwapBuffer, f, c)
  }

  function ContinuationFlags(before: seq<Flag>, f: Features, c: Config): seq<Flag> {
    Also(Also(Also(before, HighBroken, f, c), LargeBody, f, c), RetestNotFailed, f, c)
  }

  function OrderbookFlags(before: seq<Flag>, f: Features, c: Config): seq<Flag> {
    Also(Also(Also(Also(Also(before, LiquidityUnavailable, f, c), WideSpread, f, c), HighSlippage, f, c), ThinDepth1,
              f, c), ThinDepth2, f, c)
  }

  function Flags(f: Features, c: Config): seq<Flag> { OrderbookFlags(ContinuationFlags(EntryFlags(f, c), f, c), f, c) }

  function EntryCost(f: Features, c: Config): nat {
    Charge(ShallowPullback, f, c) + Charge(NearHigh, f, c) + Charge(WeakRejection, f, c) + Charge(ThinVwapBuffer, f, c)
  }

  function ContinuationCost(f: Features, c: Config): nat {
    Charge(HighBroken, f, c) + Charge(LargeBody, f, c) + Charge(RetestNotFailed, f, c)
  }

  /** All four signs of an early short at once. */
  predicate EarlyShort(f: Features, c: Config) {
    Raised(ShallowPullback, f, c) && Raised(WeakRejection, f, c) && Raised(RetestNotFailed, f, c)
        && Raised(NearHigh, f, c)
  }

  /** The cost of every raised flag and of an early short, at most 40. */
  function Penalty(f: Features, c: Config): nat {
    Min(EntryCost(f, c) + ContinuationCost(f, c) + Charge(LiquidityUnavailable, f, c)
        + (if EarlyShort(f, c) then c.combinedEarlyShortRiskPenalty else 0), 40)
  }

  ghost predicate BreakoutRisk(f: Features, c: Config) { exists flag :: Breaks(flag) && Raised(flag, f, c) }

  lemma BreakoutCases(f: Features, c: Config)
    ensures BreakoutRisk(f, c) <==>
      || Raised(HighBroken, f, c) || Raised(LargeBody, f, c)
      || Raised(WideSpread, f, c) || Raised(HighSlippage, f, c) || Raised(ThinDepth1, f, c) || Raised(ThinDepth2, f, c)
  {
    assert Breaks(HighBroken) && Breaks(LargeBody) && Breaks(WideSpread) && Breaks(HighSlippage) && Breaks(ThinDepth1)
        && Breaks(ThinDepth2);
  }

  method EvaluateRiskFlags(f: Features, c: Config) returns (flags: seq<Flag>, points: nat, breakoutRisk: bool)
    ensures flags == Flags(f, c) && points == Penalty(f, c)
    ensures breakoutRisk <==> BreakoutRisk(f, c)
  {
    var penalty, broken;
    flags, penalty := CheckEntry(f, c);
    flags, penalty, broken := CheckContinuation(f, c, flags, penalty);
    if EarlyShort(f, c) {
      penalty := penalty + c.combinedEarlyShortRiskPenalty;
    }
    flags, penalty, breakoutRisk := CheckOrderbook(f, c, flags, penalty, broken);
    points := Min(penalty, 40);
    BreakoutCases(f, c);
  }

  method CheckEntry(f: Features, c: Config) returns (flags: seq<Flag>, penalty: nat)
    ensures flags == EntryFlags(f, c) && penalty == EntryCost(f, c)
  {
    flags, penalty := [], 0;
    var pullback := OrZero(f.pullbackFromHighPct);
    if 0.0 < pullback < c.pullbackMinPct {
      flags, penalty := flags + [ShallowPullback], penalty + c.shallowPullbackPenalty;
    }
    if OrZero(f.distanceToEventHighPct) < 1.0 || pullback < 0.5 {
      flags, penalty := flags + [NearHigh], penalty + Max(4, c.shallowPullbackPenalty / 2);
    }
    if f.upperWickRatio < c.upperWickMin && f.rejectionFromHighPct < c.rejectionMin {
      flags, penalty := flags + [WeakRejection], penalty + c.weakRejectionPenalty;
    }
    if f.distToVwapPct < c.distToVwapMin + 1.0 {
      flags, penalty := flags + [ThinVwapBuffer], penalty + 6;
    }
  }

  method CheckContinuation(f: Features, c: Config, before: seq<Flag>, points: nat)
    returns (flags: seq<Flag>, penalty: nat, breakoutRisk: bool)
    ensures flags == ContinuationFlags(before, f, c) && penalty == points + ContinuationCost(f, c)
    ensures breakoutRisk <==> Raised(HighBroken, f, c) || Raised(LargeBody, f, c)
  {
    flags, penalty, breakoutRisk := before, points, false;
    if f.recentHighBreakout {
      flags, penalty, breakoutRisk := flags + [HighBroken], penalty + 12, true;
    }
    if f.latestBodyAtrRatio > 1.0 {
      flags, penalty, breakoutRisk := flags + [LargeBody], penalty + 10, true;
    }
    if !f.latestFailedRetest {
      flags, penalty := flags + [RetestNotFailed], penalty + c.retestNotFailedPenalty;
    }
  }

  /** A flat charge without liquidity data, otherwise flags that only mark a breakout risk. */
  method CheckOrderbook(f: Features, c: Config, before: seq<Flag>, points: nat, broken: bool)
    returns (flags: seq<Flag>, penalty: nat, breakoutRisk: bool)
    ensures flags == OrderbookFlags(before, f, c) && penalty == points + Charge(LiquidityUnavailable, f, c)
    ensures breakoutRisk <==>
      broken || Raised(WideSpread, f, c) || Raised(HighSlippage, f, c) || Raised(ThinDepth1, f, c)
          || Raised(ThinDepth2, f, c)
  {
    flags, penalty, breakoutRisk := before, points, broken;
    if !f.liquidityAvailable {
      flags, penalty := flags + [LiquidityUnavailable], penalty + 10;
    } else {
      if f.spreadPct.Some? && f.spreadPct.value > c.maxSpreadPct {
        flags, breakoutRisk := flags + [WideSpread], true;
      }
      if f.slippagePct.Some? && f.slippagePct.value > c.maxSlippagePct {
        flags, breakoutRisk := flags + [HighSlippage], true;
      }
      if f.depth1Pct.Some? && f.depth1Pct.value < c.minDepth1Pct {
        flags, breakoutRisk := flags + [ThinDepth1], true;
      }
      if f.depth2Pct.Some? && f.depth2Pct.value < c.minDepth2Pct {
        flags, breakoutRisk := flags + [ThinDepth2], true;
      }
    }
  }

  lemma AlsoHas(before: seq<Flag>, flag: Flag, f: Features, c: Config, other: Flag)
    ensures other in Also(before, flag, f, c) <==> other in before || (other == flag && Raised(flag, f, c))
  {
  }

  lemma EntryFlagsAreExact(f: Features, c: Config, flag: Flag)
    ensures flag in EntryFlags(f, c)
       <==> flag in {ShallowPullback, NearHigh, WeakRejection, ThinVwapBuffer} && Raised(flag, f, c)
  {
    var one := Also([], ShallowPullback, f, c);
    var two := Also(one, NearHigh, f, c);
    AlsoHas([], ShallowPullback, f, c, flag);
    AlsoHas(one, NearHigh, f, c, flag);
    AlsoHas(two, WeakRejection, f, c, flag);
    AlsoHas(Also(two, WeakRejection, f, c), ThinVwapBuffer, f, c, flag);
  }

  lemma ContinuationFlagsAreExact(before: seq<Flag>, f: Features, c: Config, flag: Flag)
    ensures flag in ContinuationFlags(before, f, c)
            <==> flag in before || (flag in {HighBroken, LargeBody, RetestNotFailed} && Raised(flag, f, c))
  {
    var one := Also(before, HighBroken, f, c);
    AlsoHas(before, HighBroken, f, c, flag);
    AlsoHas(one, LargeBody, f, c, flag);
    AlsoHas(Also(one, LargeBody, f, c), RetestNotFailed, f, c, flag);
  }

  lemma OrderbookFlagsAreExact(before: seq<Flag>, f: Features, c: Config, flag: Flag)
    ensures flag in OrderbookFlags(before, f, c)
            <==> flag in before
                 || (flag in {LiquidityUnavailable, WideSpread, HighSlippage, ThinDepth1, ThinDepth2}
                     && Raised(flag, f, c))
  {
    var one := Also(before, LiquidityUnavailable, f, c);
    var two := Also(one, WideSpread, f, c);
    var three := Also(two, HighSlippage, f, c);
    AlsoHas(before, LiquidityUnavailable, f, c, flag);
    AlsoHas(one, WideSpread, f, c, flag);
    AlsoHas(two, HighSlippage, f, c, flag);
    AlsoHas(three, ThinDepth1, f, c, flag);
    AlsoHas(Also(three, ThinDepth1, f, c), ThinDepth2, f, c, flag);
  }

  /** The flags listed are exactly the flags raised. */
  lemma FlagsAreExact(f: Features, c: Config, flag: Flag)
    ensures flag in Flags(f, c) <==> Raised(flag, f, c)
  {
    EntryFlagsAreExact(f, c, flag);
    ContinuationFlagsAreExact(EntryFlags(f, c), f, c, flag);
    OrderbookFlagsAreExact(ContinuationFlags(EntryFlags(f, c), f, c), f, c, flag);
    AnyFlag(flag);
  }

  lemma AnyFlag(flag: Flag)
    ensures flag in {ShallowPullback, NearHigh, WeakRejection, ThinVwapBuffer}
            || flag in {HighBroken, LargeBody, RetestNotFailed}
         || flag in {LiquidityUnavailable, WideSpread, HighSlippage, ThinDepth1, ThinDepth2}
  {
  }

  // ---------- The score ----------

  function Scale(value: real, start: real, end: real, points: real): (r: real)
    requires start < end && points >= 0.0
    ensures 0.0 <= r <= points
  {
    if value <= start then 0.0
    else if value >= end then points
    else
      ScaledPart(value - start, end - start, points);
      (value - start) / (end - start) * points
  }

  lemma ScaledPart(part: real, whole: real, points: real)
    requires 0.0 <= part <= whole && whole > 0.0 && points >= 0.0
    ensures 0.0 <= part / whole * points <= points
  {
    Quotient(part, whole);
    QuotientBelow(part, whole, 1.0);
    MulMono(points, 0.0, part / whole);
    MulMono(points, part / whole, 1.0);
  }

  lemma ScaleGrows(low: real, high: real, start: real, end: real, points: real)
    requires start < end && points >= 0.0 && low <= high
    ensures Scale(low, start, end, points) <= Scale(high, start, end, points)
  {
    if start < low && high < end {
      var a, b := (low - start) / (end - start), (high - start) / (end - start);
      Quotient(high - start, end - start);
      QuotientBelow(low - start, end - start, b);
      MulMono(points, a, b);
    }
  }

  function IdealBand(value: real, ideal: real, width: real, points: real): (r: real)
    requires width > 0.0 && points >= 0.0
    ensures 0.0 <= r <= points
  {
    var distance := if value >= ideal then value - ideal else ideal - value;
    if distance >= width then 0.0
    else
      ScaledPart(distance, width, points);
      Distribute(1.0, distance / width, points);
      (1.0 - distance / width) * points
  }

  /** Where the score is scored in the short zone. */
  function ZoneScore(price: real, low: real, high: real): (r: real)
    ensures 0.0 <= r <= 10.0
  {
    if high <= low then 0.0 else IdealBand((price - low) / (high - low), 0.55, 0.55, 10.0)
  }

  function Stretch(f: Features): (r: real)
    ensures 0.0 <= r <= 15.0
  {
    Scale(f.distToVwapPct, 6.0, 12.0, 10.0) + Scale(f.distToEma20Atr, 2.0, 4.0, 5.0)
  }

  function Exhaustion(f: Features): (r: real)
    ensures 0.0 <= r <= 20.0
  {
    Scale(f.upperWickRatio, 0.12, 0.25, 8.0) + Scale(f.rejectionFromHighPct, 0.8, 1.6, 8.0)
    + Scale(1.0 - f.closePositionInRange, 0.25, 0.8, 2.0) + (if f.latestFailedRetest then 2.0 else 0.0)
  }

  function Volume(f: Features): (r: real)
    ensures 0.0 <= r <= 10.0
  {
    Scale(f.volZscore30m, 0.4, 2.0, 6.0) + Scale(f.rangeAtrRatio, 1.3, 2.2, 4.0)
  }

  function EventQuality(f: Features): (r: real)
    ensures 0.0 <= r <= 15.0
  {
    MaxReal(MaxReal(Scale(f.ret15m, 6.0, 12.0, 5.0), Scale(f.ret1h, 8.0, 15.0, 5.0)), Scale(f.ret4h, 20.0, 35.0, 5.0))
    + Scale(OrZero(f.eventRangePct), 6.0, 22.0, 10.0)
  }

  function PullbackMaturity(f: Features, c: Config): (r: real)
    ensures 0.0 <= r <= 15.0
  {
    IdealBand(OrZero(f.pullbackFromHighPct), 3.5, 3.5, 10.0)
        + Scale(f.distToVwapPct, c.distToVwapMin, c.distToVwapMin + 4.0, 5.0)
  }

  function Bonus(change: Option<real>, points: real): real {
    if change.Some? && change.value > 0.0 then points else 0.0
  }

  function DerivativesBonus(f: Features): (r: real)
    ensures 0.0 <= r <= 5.0
  {
    Bonus(f.oiChange15m, 2.0) + Bonus(f.oiChange1h, 2.0) + Bonus(f.fundingRate, 1.0)
  }

  function RawTotal(f: Features, zoneLow: real, zoneHigh: real, c: Config): (r: real)
    ensures 0.0 <= r <= 90.0
  {
    Stretch(f) + Exhaustion(f) + Volume(f) + EventQuality(f) + PullbackMaturity(f, c)
    + ZoneScore(f.price, zoneLow, zoneHigh) + DerivativesBonus(f)
  }

  /** Python's rounding: to the nearest integer, ties to the even one. */
  function RoundHalfEven(x: real): (r: int)
    ensures r as real - 0.5 <= x <= r as real + 0.5
  {
    var down := x.Floor;
    var rest := x - down as real;
    if rest < 0.5 || (rest == 0.5 && down % 2 == 0) then down else down + 1
  }

  lemma RoundingGrows(x: real, y: real)
    requires x <= y
    ensures RoundHalfEven(x) <= RoundHalfEven(y)
  {
  }

  function ScoreSetup(f: Features, zoneLow: real, zoneHigh: real, c: Config): int {
    RoundHalfEven(MaxReal(0.0, MinReal(100.0, RawTotal(f, zoneLow, zoneHigh, c) - Penalty(f, c) as real)))
  }

  /** The score lies in [0, 90], ten points short of its cap. */
  lemma ScoreInRange(f: Features, zoneLow: real, zoneHigh: real, c: Config)
    ensures 0 <= ScoreSetup(f, zoneLow, zoneHigh, c) <= 90
  {
    var x := MaxReal(0.0, MinReal(100.0, RawTotal(f, zoneLow, zoneHigh, c) - Penalty(f, c) as real));
    RoundingGrows(0.0, x);
    RoundingGrows(x, 90.0);
  }

  /** The bound is reached wherever a 3.5% pullback is deep enough. */
  lemma NinetyIsReached(c: Config) returns (f: Features)
    requires c.pullbackMinPct <= 3.5
    ensures ScoreSetup(f, 0.0, 1.0, c) == 90
  {
    f := Features(0.55, 12.0, 15.0, 35.0, MaxReal(12.0, c.distToVwapMin + 4.0), 4.0,
                  MaxReal(0.25, c.upperWickMin), MaxReal(1.6, c.rejectionMin), 0.0, 2.0, 2.2,
                  Some(1.0), Some(1.0), Some(1.0), Some(22.0), Some(3.5), Some(1.0),
                  false, 0.0, true, None, None, None, None, true);
    BestIsFull(f, c);
    NoPenalty(f, c);
    RoundingGrows(90.0, 90.0);
  }

  lemma NoPenalty(f: Features, c: Config)
    requires !Raised(ShallowPullback, f, c) && !Raised(NearHigh, f, c) && !Raised(WeakRejection, f, c)
             && !Raised(ThinVwapBuffer, f, c)
    requires !Raised(HighBroken, f, c) && !Raised(LargeBody, f, c) && !Raised(RetestNotFailed, f, c)
             && !Raised(LiquidityUnavailable, f, c)
    ensures Penalty(f, c) == 0
  {
  }

  lemma BestIsFull(f: Features, c: Config)
    requires f.price == 0.55 && f.ret15m == 12.0 && f.distToVwapPct >= 12.0 && f.distToVwapPct >= c.distToVwapMin + 4.0
    requires f.distToEma20Atr == 4.0 && f.upperWickRatio >= 0.25 && f.rejectionFromHighPct >= 1.6
             && f.closePositionInRange == 0.0
    requires f.volZscore30m == 2.0 && f.rangeAtrRatio == 2.2
             && f.oiChange15m == f.oiChange1h == f.fundingRate == Some(1.0)
    requires f.eventRangePct == Some(22.0) && f.pullbackFromHighPct == Some(3.5) && f.latestFailedRetest
    ensures RawTotal(f, 0.0, 1.0, c) == 90.0
  {
  }

  // ---------- Monotonicity ----------

  predicate AtMost(a: Option<real>, b: Option<real>) { OrZero(a) <= OrZero(b) }

  /** `g` is at least as good a short as `f` in everything but where its pullback and its zone put it. */
  predicate AtLeastAsGood(f: Features, g: Features) {
    && f.price == g.price && f.pullbackFromHighPct == g.pullbackFromHighPct
    && f.distToVwapPct <= g.distToVwapPct && f.distToEma20Atr <= g.distToEma20Atr
    && f.upperWickRatio <= g.upperWickRatio && f.rejectionFromHighPct <= g.rejectionFromHighPct
    && f.closePositionInRange >= g.closePositionInRange
    && f.volZscore30m <= g.volZscore30m && f.rangeAtrRatio <= g.rangeAtrRatio
    && f.ret15m <= g.ret15m && f.ret1h <= g.ret1h && f.ret4h <= g.ret4h
    && AtMost(f.eventRangePct, g.eventRangePct) && AtMost(f.distanceToEventHighPct, g.distanceToEventHighPct)
    && AtMost(f.oiChange15m, g.oiChange15m) && AtMost(f.oiChange1h, g.oiChange1h)
        && AtMost(f.fundingRate, g.fundingRate)
    && (g.recentHighBreakout ==> f.recentHighBreakout) && f.latestBodyAtrRatio >= g.latestBodyAtrRatio
    && (f.latestFailedRetest ==> g.latestFailedRetest) && (f.liquidityAvailable ==> g.liquidityAvailable)
  }

  lemma RaisedLess(f: Features, g: Features, c: Config, flag: Flag)
    requires AtLeastAsGood(f, g) && !flag.WideSpread? && !flag.HighSlippage? && !flag.ThinDepth1? && !flag.ThinDepth2?
    ensures Raised(flag, g, c) ==> Raised(flag, f, c)
    ensures Charge(flag, g, c) <= Charge(flag, f, c)
  {
  }

  lemma PenaltyFalls(f: Features, g: Features, c: Config)
    requires AtLeastAsGood(f, g)
    ensures Penalty(g, c) <= Penalty(f, c)
  {
    RaisedLess(f, g, c, ShallowPullback);
    RaisedLess(f, g, c, NearHigh);
    RaisedLess(f, g, c, WeakRejection);
    RaisedLess(f, g, c, ThinVwapBuffer);
    RaisedLess(f, g, c, HighBroken);
    RaisedLess(f, g, c, LargeBody);
    RaisedLess(f, g, c, RetestNotFailed);
    RaisedLess(f, g, c, LiquidityUnavailable);
  }

  lemma RawTotalGrows(f: Features, g: Features, zoneLow: real, zoneHigh: real, c: Config)
    requires AtLeastAsGood(f, g)
    ensures RawTotal(f, zoneLow, zoneHigh, c) <= RawTotal(g, zoneLow, zoneHigh, c)
  {
    assert Stretch(f) <= Stretch(g) by {
      ScaleGrows(f.distToVwapPct, g.distToVwapPct, 6.0, 12.0, 10.0);
      ScaleGrows(f.distToEma20Atr, g.distToEma20Atr, 2.0, 4.0, 5.0);
    }
    assert Exhaustion(f) <= Exhaustion(g) by {
      ScaleGrows(f.upperWickRatio, g.upperWickRatio, 0.12, 0.25, 8.0);
      ScaleGrows(f.rejectionFromHighPct, g.rejectionFromHighPct, 0.8, 1.6, 8.0);
      ScaleGrows(1.0 - f.closePositionInRange, 1.0 - g.closePositionInRange, 0.25, 0.8, 2.0);
    }
    assert Volume(f) <= Volume(g) by {
      ScaleGrows(f.volZscore30m, g.volZscore30m, 0.4, 2.0, 6.0);
      ScaleGrows(f.rangeAtrRatio, g.rangeAtrRatio, 1.3, 2.2, 4.0);
    }
    assert EventQuality(f) <= EventQuality(g) by {
      ScaleGrows(f.ret15m, g.ret15m, 6.0, 12.0, 5.0);
      ScaleGrows(f.ret1h, g.ret1h, 8.0, 15.0, 5.0);
      ScaleGrows(f.ret4h, g.ret4h, 20.0, 35.0, 5.0);
      ScaleGrows(OrZero(f.eventRangePct), OrZero(g.eventRangePct), 6.0, 22.0, 10.0);
    }
    assert PullbackMaturity(f, c) <= PullbackMaturity(g, c) by {
      ScaleGrows(f.distToVwapPct, g.distToVwapPct, c.distToVwapMin, c.distToVwapMin + 4.0, 5.0);
    }
  }

  /** Improving any of these features, alone or together, never lowers the score: not through the bonuses,
      the penalty switches, the 40-point cap, the clamp or the rounding. */
  lemma ScoreGrows(f: Features, g: Features, zoneLow: real, zoneHigh: real, c: Config)
    requires AtLeastAsGood(f, g)
    ensures ScoreSetup(f, zoneLow, zoneHigh, c) <= ScoreSetup(g, zoneLow, zoneHigh, c)
  {
    PenaltyFalls(f, g, c);
    RawTotalGrows(f, g, zoneLow, zoneHigh, c);
    ClampedGrows(RawTotal(f, zoneLow, zoneHigh, c), RawTotal(g, zoneLow, zoneHigh, c), Penalty(f, c) as real,
                 Penalty(g, c) as real);
  }

  lemma ClampedGrows(a: real, b: real, p: real, q: real)
    requires a <= b && q <= p
    ensures RoundHalfEven(MaxReal(0.0, MinReal(100.0, a - p))) <= RoundHalfEven(MaxReal(0.0, MinReal(100.0, b - q)))
  {
    RoundingGrows(MaxReal(0.0, MinReal(100.0, a - p)), MaxReal(0.0, MinReal(100.0, b - q)));
  }

  /** More VWAP distance, a longer upper wick or a deeper rejection, each with everything else fixed. */
  lemma ScoreGrowsInEach(f: Features, zoneLow: real, zoneHigh: real, c: Config, more: real)
    requires more >= 0.0
    ensures ScoreSetup(f, zoneLow, zoneHigh, c)
            <= ScoreSetup(f.(distToVwapPct := f.distToVwapPct + more), zoneLow, zoneHigh, c)
    ensures ScoreSetup(f, zoneLow, zoneHigh, c)
            <= ScoreSetup(f.(upperWickRatio := f.upperWickRatio + more), zoneLow, zoneHigh, c)
    ensures ScoreSetup(f, zoneLow, zoneHigh, c)
            <= ScoreSetup(f.(rejectionFromHighPct := f.rejectionFromHighPct + more), zoneLow, zoneHigh, c)
  {
    ScoreGrows(f, f.(distToVwapPct := f.distToVwapPct + more), zoneLow, zoneHigh, c);
    ScoreGrows(f, f.(upperWickRatio := f.upperWickRatio + more), zoneLow, zoneHigh, c);
    ScoreGrows(f, f.(rejectionFromHighPct := f.rejectionFromHighPct + more), zoneLow, zoneHigh, c);
  }
}
