/** The order-book metrics of the market scanner (app/market/scanner.py): the sell-side slippage walk and
    the bid depth, over reals. */
module OrderBook {
  import opened Common
  import opened RealArithmetic

  datatype Level = Level(price: real, size: real) {
    function Worth(): real { price * size }
  }

  datatype Liquidity = Liquidity(spreadPct: real, slippagePct: Option<real>, depth1Pct: real, depth2Pct: real)

  const NOTIONAL := 10000.0

  predicate Positive(book: seq<Level>) { forall i | 0 <= i < |book| :: book[i].price > 0.0 && book[i].size > 0.0 }

  predicate Descending(book: seq<Level>) { forall i, j | 0 <= i < j < |book| :: book[i].price >= book[j].price }

  /** Bids as the scanner hands them to the walk. */
  predicate Bids(book: seq<Level>) { Positive(book) && Descending(book) }

  function Value(book: seq<Level>): real {
    if book == [] then 0.0 else book[0].Worth() + Value(book[1..])
  }

  /** The base sold for `notional` quote: whole levels from the best one, then part of the next. */
  function BaseSold(book: seq<Level>, notional: real): real
    requires Positive(book)
  {
    if book == [] || notional <= 0.0 then 0.0
    else if book[0].Worth() <= notional then book[0].size + BaseSold(book[1..], notional - book[0].Worth())
    else notional / book[0].price
  }

  /** Percent by which the walk's average price falls short of the best bid. */
  function ShortfallPct(best: real, average: real): real
    requires best > 0.0
  {
    (best - average) / best * 100.0
  }

  // ---------- The walk ----------

  lemma WholeLevel(level: Level)
    requires level.price > 0.0 && level.size > 0.0
    ensures level.Worth() / level.price == level.size && level.Worth() > 0.0
  {
    PositiveProduct(level.price, level.size);
    Quotient(level.Worth(), level.price);
    var d := level.Worth() / level.price;
    if d < level.size {
      MulStrict(level.price, d, level.size);
    } else if d > level.size {
      MulStrict(level.price, level.size, d);
    }
  }

  lemma {:induction false} SoldSomething(book: seq<Level>, notional: real)
    requires Positive(book)
    ensures BaseSold(book, notional) >= 0.0
    ensures book != [] && notional > 0.0 ==> BaseSold(book, notional) > 0.0
    decreases |book|
  {
    if book != [] && notional > 0.0 {
      WholeLevel(book[0]);
      Quotient(notional, book[0].price);
      SoldSomething(book[1..], notional - book[0].Worth());
    }
  }

  lemma {:induction false} ValueIsPositive(book: seq<Level>)
    requires Positive(book)
    ensures Value(book) >= 0.0
  {
    if book != [] {
      WholeLevel(book[0]);
      ValueIsPositive(book[1..]);
    }
  }

  function Slippage(bids: seq<Level>, notional: real): real
    requires Positive(bids) && 0.0 < notional <= Value(bids)
  {
    SoldSomething(bids, notional);
    ShortfallPct(bids[0].price, notional / BaseSold(bids, notional))
  }

  /** Absent when the book cannot absorb a positive notional. */
  function SlippageOf(bids: seq<Level>, notional: real): Option<real>
    requires Positive(bids)
  {
    if 0.0 < notional <= Value(bids) then Some(Slippage(bids, notional)) else None
  }

  lemma SoldFromBest(book: seq<Level>, notional: real)
    requires Positive(book) && book != [] && 0.0 <= notional
    ensures book[0].Worth() <= notional
            ==> BaseSold(book, notional) == book[0].size + BaseSold(book[1..], notional - book[0].Worth())
    ensures book[0].Worth() > notional ==> BaseSold(book, notional) == notional / book[0].price
    ensures BaseSold(book[1..], 0.0) == 0.0 && book[0].Worth() > 0.0
  {
    WholeLevel(book[0]);
  }

  /** What is left to sell and what was sold before level `i`. */
  ghost predicate Walked(bids: seq<Level>, notional: real, i: nat, remaining: real, baseSold: real)
    requires Positive(bids) && i <= |bids|
  {
    && Value(bids) - notional == Value(bids[i..]) - remaining
    && (notional <= 0.0 ==> i == 0 && remaining == notional && baseSold == 0.0)
    && (notional > 0.0 ==> remaining > 0.0 && baseSold + BaseSold(bids[i..], remaining) == BaseSold(bids, notional))
  }

  lemma WalkOne(bids: seq<Level>, notional: real, i: nat, remaining: real, baseSold: real)
    requires Positive(bids) && i < |bids| && Walked(bids, notional, i, remaining, baseSold)
    ensures var take := MinReal(remaining, bids[i].Worth());
            var left, sold := remaining - take, baseSold + take / bids[i].price;
            && (left > 0.0 ==> Walked(bids, notional, i + 1, left, sold))
            && (left <= 0.0 && notional > 0.0 ==>
                  sold == BaseSold(bids, notional) && left == 0.0 && notional <= Value(bids))
            && (notional <= 0.0 ==> sold <= 0.0 && left == 0.0)
  {
    var rest := bids[i + 1..];
    assert bids[i..][0] == bids[i] && bids[i..][1..] == rest;
    WholeLevel(bids[i]);
    Quotient(remaining, bids[i].price);
    ValueIsPositive(rest);
    assert Value(bids[i..]) == bids[i].Worth() + Value(rest);
    assert BaseSold(rest, 0.0) == 0.0;
  }

  /** Walks the bids from the best one. */
  method SellSlippagePct(bids: seq<Level>, notional: real) returns (slippage: Option<real>)
    requires Positive(bids)
    ensures slippage == SlippageOf(bids, notional)
  {
    if bids == [] {
      return None;
    }
    SoldSomething(bids, notional);
    var best, remaining, baseSold, quoteReceived := bids[0].price, notional, 0.0, 0.0;
    var i := 0;
    while i < |bids|
      invariant 0 <= i <= |bids|
      invariant quoteReceived + remaining == notional
      invariant Walked(bids, notional, i, remaining, baseSold)
    {
      WalkOne(bids, notional, i, remaining, baseSold);
      var price := bids[i].price;
      var quoteAtLevel := bids[i].Worth();
      var quoteToTake := MinReal(remaining, quoteAtLevel);
      baseSold := baseSold + quoteToTake / price;
      quoteReceived := quoteReceived + quoteToTake;
      remaining := remaining - quoteToTake;
      if remaining <= 0.0 {
        break;
      }
      i := i + 1;
    }
    if remaining > 0.0 || baseSold <= 0.0 {
      return None;
    }
    slippage := Some(ShortfallPct(best, quoteReceived / baseSold));
  }

  // ---------- The walk is the cheapest fill ----------

  /** An amount of base taken from each level. */
  predicate Feasible(book: seq<Level>, fill: seq<real>) {
    |fill| == |book| && forall i | 0 <= i < |book| :: 0.0 <= fill[i] <= book[i].size
  }

  function Base(fill: seq<real>): real {
    if fill == [] then 0.0 else fill[0] + Base(fill[1..])
  }

  function Quote(book: seq<Level>, fill: seq<real>): real
    requires |fill| == |book|
  {
    if book == [] then 0.0 else fill[0] * book[0].price + Quote(book[1..], fill[1..])
  }

  function Greedy(book: seq<Level>, notional: real): (fill: seq<real>)
    requires Positive(book)
    ensures |fill| == |book|
  {
    if book == [] then []
    else if notional <= 0.0 then [0.0] + Greedy(book[1..], 0.0)
    else if book[0].Worth() <= notional then [book[0].size] + Greedy(book[1..], notional - book[0].Worth())
    else [notional / book[0].price] + Greedy(book[1..], 0.0)
  }

  lemma PartOfLevel(level: Level, notional: real)
    requires level.price > 0.0 && level.size > 0.0 && 0.0 <= notional < level.Worth()
    ensures 0.0 <= notional / level.price <= level.size && notional / level.price * level.price == notional
  {
    Quotient(notional, level.price);
    QuotientBelow(notional, level.price, level.size);
  }

  lemma {:induction false} GreedyIsFeasible(book: seq<Level>, notional: real)
    requires Positive(book) && 0.0 <= notional
    ensures Feasible(book, Greedy(book, notional))
    decreases |book|
  {
    if book != [] {
      WholeLevel(book[0]);
      if notional <= 0.0 || book[0].Worth() > notional {
        GreedyIsFeasible(book[1..], 0.0);
        PartOfLevel(book[0], notional);
      } else {
        GreedyIsFeasible(book[1..], notional - book[0].Worth());
      }
    }
  }

  lemma {:induction false} GreedySells(book: seq<Level>, notional: real)
    requires Positive(book)
    ensures Base(Greedy(book, notional)) == BaseSold(book, notional)
    decreases |book|
  {
    if book != [] {
      var left := if notional > 0.0 && book[0].Worth() <= notional then notional - book[0].Worth() else 0.0;
      GreedySells(book[1..], left);
      assert Greedy(book, notional)[1..] == Greedy(book[1..], left);
      assert BaseSold(book[1..], 0.0) == 0.0;
    }
  }

  lemma QuoteCons(book: seq<Level>, f: real, rest: seq<real>)
    requires book != [] && |rest| == |book| - 1
    ensures Quote(book, [f] + rest) == f * book[0].price + Quote(book[1..], rest)
  {
    assert ([f] + rest)[1..] == rest;
  }

  lemma {:induction false} NothingEarned(book: seq<Level>)
    requires Positive(book)
    ensures Quote(book, Greedy(book, 0.0)) == 0.0
  {
    if book != [] {
      NothingEarned(book[1..]);
      QuoteCons(book, 0.0, Greedy(book[1..], 0.0));
    }
  }

  lemma {:induction false} GreedyEarns(book: seq<Level>, notional: real)
    requires Positive(book) && 0.0 <= notional <= Value(book)
    ensures Quote(book, Greedy(book, notional)) == notional
    decreases |book|
  {
    if notional <= 0.0 {
      NothingEarned(book);
    } else if notional < book[0].Worth() {
      NothingEarned(book[1..]);
      PartOfLevel(book[0], notional);
      QuoteCons(book, notional / book[0].price, Greedy(book[1..], 0.0));
    } else {
      GreedyEarns(book[1..], notional - book[0].Worth());
      QuoteCons(book, book[0].size, Greedy(book[1..], notional - book[0].Worth()));
    }
  }

  /** The walk takes a feasible fill worth the notional. */
  lemma GreedyFill(book: seq<Level>, notional: real) returns (fill: seq<real>)
    requires Positive(book) && 0.0 <= notional <= Value(book)
    ensures fill == Greedy(book, notional) && Feasible(book, fill)
    ensures Quote(book, fill) == notional && Base(fill) == BaseSold(book, notional)
  {
    fill := Greedy(book, notional);
    GreedyIsFeasible(book, notional);
    GreedySells(book, notional);
    GreedyEarns(book, notional);
  }

  /** No fill earns more than its base times the highest price, or more than the book is worth. */
  lemma {:induction false} QuoteBound(book: seq<Level>, fill: seq<real>, p: real)
    requires Positive(book) && Feasible(book, fill) && forall i | 0 <= i < |book| :: book[i].price <= p
    ensures 0.0 <= Quote(book, fill) <= Base(fill) * p && Quote(book, fill) <= Value(book)
    ensures 0.0 <= Base(fill)
  {
    if book != [] {
      QuoteBound(book[1..], fill[1..], p);
      QuoteStep(fill[0], book[0], p, Quote(book[1..], fill[1..]), Base(fill[1..]));
    }
  }

  lemma QuoteStep(f: real, level: Level, p: real, quote: real, base: real)
    requires 0.0 <= f <= level.size && 0.0 < level.price <= p && quote <= base * p
    ensures 0.0 <= f * level.price <= level.Worth() && f * level.price + quote <= (f + base) * p
  {
    MulMono(f, level.price, p);
    MulMono(level.price, f, level.size);
    MulMono(level.price, 0.0, f);
    Distribute(f, base, p);
  }

  /** A fill that takes everything better than level `m` and nothing worse. */
  predicate MarginAt(book: seq<Level>, fill: seq<real>, m: nat)
    requires |fill| == |book|
  {
    m < |book| && (forall i | 0 <= i < m :: fill[i] == book[i].size) && forall i | m < i < |book| :: fill[i] == 0.0
  }

  lemma {:induction false} NothingLeft(book: seq<Level>, i: nat)
    requires Positive(book) && i < |book|
    ensures Greedy(book, 0.0)[i] == 0.0
    decreases i
  {
    if i > 0 {
      NothingLeft(book[1..], i - 1);
    }
  }

  lemma {:induction false} GreedyMargin(book: seq<Level>, notional: real) returns (m: nat)
    requires Positive(book) && book != []
    ensures MarginAt(book, Greedy(book, notional), m)
    decreases |book|
  {
    if notional > 0.0 && book[0].Worth() <= notional {
      if |book| == 1 {
        m := 0;
      } else {
        var below := GreedyMargin(book[1..], notional - book[0].Worth());
        m := below + 1;
        assert Greedy(book, notional)[1..] == Greedy(book[1..], notional - book[0].Worth());
      }
    } else {
      m := 0;
      forall i | 0 < i < |book| ensures Greedy(book, notional)[i] == 0.0 {
        NothingLeft(book[1..], i - 1);
      }
    }
  }

  /** Moving base to the other side of a marginal price never earns more than that price. */
  predicate AwayFrom(book: seq<Level>, fill: seq<real>, walk: seq<real>, p: real)
    requires |fill| == |walk| == |book|
  {
    forall i | 0 <= i < |book| :: (fill[i] <= walk[i] && p <= book[i].price)
        || (fill[i] >= walk[i] && p >= book[i].price)
  }

  /** `base` at price `p` is worth at least `quote`. */
  predicate Costs(base: real, quote: real, p: real) { base * p >= quote }

  lemma AddCosts(base0: real, base1: real, quote0: real, quote1: real, p: real)
    requires Costs(base0, quote0, p) && Costs(base1, quote1, p)
    ensures Costs(base0 + base1, quote0 + quote1, p)
  {
    Distribute(base0, base1, p);
  }

  lemma ExchangeStep(f: real, g: real, price: real, p: real)
    requires (f <= g && p <= price) || (f >= g && p >= price)
    ensures Costs(f - g, f * price - g * price, p)
  {
    Distribute(f, g, price);
    if f == g {
    } else if f > g {
      MulMono(f - g, price, p);
    } else {
      MulMono(g - f, p, price);
      Distribute(g, f, p);
      Distribute(g, f, price);
    }
  }

  lemma {:induction false} Exchange(book: seq<Level>, fill: seq<real>, walk: seq<real>, p: real)
    requires |fill| == |walk| == |book| && AwayFrom(book, fill, walk, p)
    ensures Costs(Base(fill) - Base(walk), Quote(book, fill) - Quote(book, walk), p)
  {
    if book != [] {
      Exchange(book[1..], fill[1..], walk[1..], p);
      ExchangeStep(fill[0], walk[0], book[0].price, p);
      AddCosts(fill[0] - walk[0], Base(fill[1..]) - Base(walk[1..]), fill[0] * book[0].price - walk[0] * book[0].price,
               Quote(book[1..], fill[1..]) - Quote(book[1..], walk[1..]), p);
    }
  }

  lemma FillsLieAway(book: seq<Level>, walk: seq<real>, m: nat, fill: seq<real>)
    requires Descending(book) && Feasible(book, fill) && |walk| == |book| && MarginAt(book, walk, m)
    ensures AwayFrom(book, fill, walk, book[m].price)
  {
    forall i | 0 <= i < |book|
      ensures (fill[i] <= walk[i] && book[m].price <= book[i].price)
              || (fill[i] >= walk[i] && book[m].price >= book[i].price)
    {
      if i < m {
        assert walk[i] == book[i].size;
      } else if i > m {
        assert walk[i] == 0.0;
      }
    }
  }

  lemma MarginSellsLeast(book: seq<Level>, walk: seq<real>, m: nat, fill: seq<real>)
    requires Bids(book) && Feasible(book, fill) && |walk| == |book| && MarginAt(book, walk, m)
    requires Quote(book, fill) >= Quote(book, walk)
    ensures Base(fill) >= Base(walk)
  {
    FillsLieAway(book, walk, m, fill);
    Exchange(book, fill, walk, book[m].price);
    NotNegative(Base(fill) - Base(walk), Quote(book, fill) - Quote(book, walk), book[m].price);
  }

  /** Of all ways to take at least the notional out of the book, the walk sells the least base. */
  lemma WalkSellsLeast(book: seq<Level>, notional: real, fill: seq<real>)
    requires Bids(book) && book != [] && 0.0 <= notional && Feasible(book, fill) && Quote(book, fill) >= notional
    ensures Base(fill) >= BaseSold(book, notional)
  {
    QuoteBound(book, fill, book[0].price);
    var walk := GreedyFill(book, notional);
    var m := GreedyMargin(book, notional);
    MarginSellsLeast(book, walk, m, fill);
  }

  lemma NotNegative(base: real, quote: real, p: real)
    requires p > 0.0 && Costs(base, quote, p) && quote >= 0.0
    ensures base >= 0.0
  {
    if base < 0.0 {
      MulStrict(p, base, 0.0);
    }
  }

  // ---------- Order theory ----------

  /** Less base for the same quote per base is a better price. */
  lemma ShortfallOrder(best: real, notional0: real, base0: real, notional1: real, base1: real)
    requires best > 0.0 && base0 > 0.0 && base1 > 0.0 && notional0 > 0.0 && notional1 > 0.0
    requires base0 * notional1 <= base1 * notional0
    ensures ShortfallPct(best, notional0 / base0) <= ShortfallPct(best, notional1 / base1)
  {
    var a0, a1 := notional0 / base0, notional1 / base1;
    Quotient(notional0, base0);
    Quotient(notional1, base1);
    if a0 < a1 {
      MulStrict(base0 * base1, a0, a1);
    }
    ShortfallFalls(best, a1, a0);
  }

  lemma ShortfallFalls(best: real, low: real, high: real)
    requires best > 0.0 && low <= high
    ensures ShortfallPct(best, high) <= ShortfallPct(best, low)
  {
    QuotientMono(best - high, best - low, best);
  }

  lemma ShortfallInRange(best: real, average: real)
    requires 0.0 < average <= best
    ensures 0.0 <= ShortfallPct(best, average) < 100.0
  {
    var gap := (best - average) / best;
    Quotient(best - average, best);
    if gap >= 1.0 {
      MulMono(best, 1.0, gap);
    }
  }

  lemma AverageAtMostBest(base: real, quote: real, best: real)
    requires base > 0.0 && 0.0 < quote <= base * best
    ensures 0.0 < quote / base <= best
  {
    Quotient(quote, base);
    QuotientBelow(quote, base, best);
  }

  /** Slippage lies in [0, 100). */
  lemma SlippageInRange(bids: seq<Level>, notional: real)
    requires Bids(bids) && 0.0 < notional <= Value(bids)
    ensures 0.0 <= Slippage(bids, notional) < 100.0
  {
    SoldSomething(bids, notional);
    var fill := GreedyFill(bids, notional);
    QuoteBound(bids, fill, bids[0].price);
    AverageAtMostBest(BaseSold(bids, notional), notional, bids[0].price);
    ShortfallInRange(bids[0].price, notional / BaseSold(bids, notional));
  }

  /** No way of selling the same notional into the book slips less than the walk. */
  lemma NoFillBeatsTheWalk(bids: seq<Level>, notional: real, fill: seq<real>)
    requires Bids(bids) && 0.0 < notional <= Value(bids)
    requires Feasible(bids, fill) && Quote(bids, fill) == notional
    ensures Base(fill) > 0.0 && Slippage(bids, notional) <= ShortfallPct(bids[0].price, notional / Base(fill))
  {
    SoldSomething(bids, notional);
    WalkSellsLeast(bids, notional, fill);
    MulMono(notional, BaseSold(bids, notional), Base(fill));
    ShortfallOrder(bids[0].price, notional, BaseSold(bids, notional), notional, Base(fill));
  }

  function Scaled(fill: seq<real>, c: real): (scaled: seq<real>)
    ensures |scaled| == |fill|
  {
    if fill == [] then [] else [fill[0] * c] + Scaled(fill[1..], c)
  }

  lemma {:induction false} ScaledFeasible(book: seq<Level>, fill: seq<real>, c: real)
    requires Feasible(book, fill) && 0.0 <= c <= 1.0
    ensures Feasible(book, Scaled(fill, c))
  {
    if fill != [] {
      ScaledFeasible(book[1..], fill[1..], c);
      MulMono(fill[0], 0.0, c);
      MulMono(fill[0], c, 1.0);
      forall i | 0 <= i < |book| ensures 0.0 <= Scaled(fill, c)[i] <= book[i].size {
        if i > 0 {
          assert Scaled(fill, c)[i] == Scaled(fill[1..], c)[i - 1] && book[i] == book[1..][i - 1];
        }
      }
    }
  }

  lemma {:induction false} ScaledQuote(book: seq<Level>, fill: seq<real>, c: real)
    requires |fill| == |book|
    ensures Quote(book, Scaled(fill, c)) == Quote(book, fill) * c
  {
    if fill != [] {
      ScaledQuote(book[1..], fill[1..], c);
      assert Scaled(fill, c)[1..] == Scaled(fill[1..], c);
      ScaledSum(fill[0], book[0].price, Quote(book[1..], fill[1..]), c);
    }
  }

  lemma {:induction false} ScaledBase(fill: seq<real>, c: real)
    ensures Base(Scaled(fill, c)) == Base(fill) * c
  {
    if fill != [] {
      ScaledBase(fill[1..], c);
      assert Scaled(fill, c)[1..] == Scaled(fill[1..], c);
      Distribute(fill[0], Base(fill[1..]), c);
    }
  }

  lemma ScaledSum(f: real, price: real, quote: real, c: real)
    ensures (f * price + quote) * c == f * c * price + quote * c
  {
  }

  /** Scaling a fill scales what it sells and what it earns. */
  lemma ScaledFill(bids: seq<Level>, fill: seq<real>, c: real, quote: real, base: real) returns (part: seq<real>)
    requires Feasible(bids, fill) && 0.0 <= c <= 1.0 && Quote(bids, fill) == quote && Base(fill) == base
    ensures Feasible(bids, part) && Quote(bids, part) == quote * c && Base(part) == base * c
  {
    part := Scaled(fill, c);
    ScaledFeasible(bids, fill, c);
    ScaledQuote(bids, fill, c);
    ScaledBase(fill, c);
  }

  /** Part of what a fill earns needs at most that part of its base. */
  lemma PartSellsLess(bids: seq<Level>, fill: seq<real>, c: real, quote: real, base: real, less: real)
    requires Bids(bids) && Feasible(bids, fill) && 0.0 <= c <= 1.0 && Quote(bids, fill) == quote && Base(fill) == base
    requires bids != [] && 0.0 <= less == quote * c
    ensures BaseSold(bids, less) <= base * c
  {
    var part := ScaledFill(bids, fill, c, quote, base);
    WalkSellsLeast(bids, less, part);
  }

  /** Selling more never slips less. */
  lemma SlippageGrowsWithNotional(bids: seq<Level>, less: real, more: real)
    requires Bids(bids) && 0.0 < less <= more <= Value(bids)
    ensures Slippage(bids, less) <= Slippage(bids, more)
  {
    var base0, base1 := BaseSold(bids, less), BaseSold(bids, more);
    SoldSomething(bids, less);
    SoldSomething(bids, more);
    assert base0 * more <= base1 * less by {
      var c := Part(less, more);
      var fill := GreedyFill(bids, more);
      PartSellsLess(bids, fill, c, more, base1, less);
      Rescaled(base0, base1, c, less, more);
    }
    ShortfallOrder(bids[0].price, less, base0, more, base1);
  }

  lemma Part(less: real, more: real) returns (c: real)
    requires 0.0 < less <= more
    ensures 0.0 <= c <= 1.0 && less == more * c
  {
    c := less / more;
    Quotient(less, more);
    QuotientBelow(less, more, 1.0);
  }

  lemma Rescaled(base0: real, base1: real, c: real, less: real, more: real)
    requires base0 <= base1 * c && more * c == less && more > 0.0
    ensures base0 * more <= base1 * less
  {
    MulMono(more, base0, base1 * c);
  }

  /** The same prices with at least the same size at each. */
  predicate Deeper(book: seq<Level>, deeper: seq<Level>) {
    |deeper| == |book|
    && forall i | 0 <= i < |book| :: deeper[i].price == book[i].price && book[i].size <= deeper[i].size
  }

  lemma {:induction false} SameQuote(book: seq<Level>, deeper: seq<Level>, fill: seq<real>)
    requires Deeper(book, deeper) && |fill| == |book|
    ensures Quote(deeper, fill) == Quote(book, fill)
  {
    if book != [] {
      SameQuote(book[1..], deeper[1..], fill[1..]);
    }
  }

  /** Adding size to existing levels never raises the slippage, and never makes the book too thin. */
  lemma SlippageFallsWithSize(bids: seq<Level>, deeper: seq<Level>, notional: real)
    requires Bids(bids) && Bids(deeper) && Deeper(bids, deeper) && 0.0 < notional <= Value(bids)
    ensures notional <= Value(deeper) && Slippage(deeper, notional) <= Slippage(bids, notional)
  {
    var fill := GreedyFill(bids, notional);
    SameQuote(bids, deeper, fill);
    QuoteBound(deeper, fill, bids[0].price);
    NoFillBeatsTheWalk(deeper, notional, fill);
  }

  // ---------- Depth ----------

  /** The quote bid at or above a floor price. */
  function BidDepth(bids: seq<Level>, floor: real): real {
    if bids == [] then 0.0 else (if bids[0].price >= floor then bids[0].Worth() else 0.0) + BidDepth(bids[1..], floor)
  }

  lemma {:induction false} DepthGrowsDown(bids: seq<Level>, low: real, high: real)
    requires Positive(bids) && low <= high
    ensures 0.0 <= BidDepth(bids, high) <= BidDepth(bids, low) <= Value(bids)
  {
    if bids != [] {
      WholeLevel(bids[0]);
      DepthGrowsDown(bids[1..], low, high);
    }
  }

  lemma {:induction false} NoDepthBelow(bids: seq<Level>, floor: real)
    requires forall i | 0 <= i < |bids| :: bids[i].price < floor
    ensures BidDepth(bids, floor) == 0.0
  {
    if bids != [] {
      NoDepthBelow(bids[1..], floor);
    }
  }

  /** `base` sold at no worse than `p` earns at least `base * p`. */
  predicate Earns(base: real, quote: real, p: real) { base * p <= quote }

  lemma AddEarnings(base0: real, base1: real, quote0: real, quote1: real, p: real)
    requires Earns(base0, quote0, p) && Earns(base1, quote1, p)
    ensures Earns(base0 + base1, quote0 + quote1, p)
  {
    Distribute(base0, base1, p);
  }

  lemma EarnsWithinLevel(level: Level, notional: real, floor: real)
    requires level.price >= floor > 0.0 && level.size > 0.0 && notional >= 0.0
    ensures Earns(notional / level.price, notional, floor) && Earns(level.size, level.Worth(), floor)
  {
    Quotient(notional, level.price);
    MulMono(notional / level.price, floor, level.price);
    MulMono(level.size, floor, level.price);
  }

  /** A notional within the depth above a floor is sold at no less than that floor on average. */
  lemma {:induction false} SoldAboveFloor(bids: seq<Level>, notional: real, floor: real)
    requires Bids(bids) && floor > 0.0 && 0.0 <= notional <= BidDepth(bids, floor)
    ensures Earns(BaseSold(bids, notional), notional, floor)
    decreases |bids|
  {
    if bids != [] && notional > 0.0 {
      if bids[0].price < floor {
        NoDepthBelow(bids, floor);
      } else {
        SoldFromBest(bids, notional);
        EarnsWithinLevel(bids[0], notional, floor);
        if bids[0].Worth() <= notional {
          SoldAboveFloor(bids[1..], notional - bids[0].Worth(), floor);
          AddEarnings(bids[0].size, BaseSold(bids[1..], notional - bids[0].Worth()),
                      bids[0].Worth(), notional - bids[0].Worth(), floor);
        }
      }
    }
  }

  /** So enough depth above a floor bounds the slippage by the floor's distance from the best bid. */
  lemma DepthBoundsSlippage(bids: seq<Level>, notional: real, floor: real)
    requires Bids(bids) && floor > 0.0 && 0.0 < notional <= BidDepth(bids, floor)
    ensures notional <= Value(bids) && Slippage(bids, notional) <= ShortfallPct(bids[0].price, floor)
  {
    DepthGrowsDown(bids, floor, floor);
    SoldAboveFloor(bids, notional, floor);
    SoldSomething(bids, notional);
    EarnedAverage(BaseSold(bids, notional), notional, floor);
    ShortfallFalls(bids[0].price, floor, notional / BaseSold(bids, notional));
  }

  lemma EarnedAverage(base: real, quote: real, floor: real)
    requires base > 0.0 && Earns(base, quote, floor)
    ensures quote / base >= floor
  {
    QuotientAbove(quote, base, floor);
  }

  // ---------- From raw levels to metrics ----------

  /** Keeps the levels with a positive price and size. */
  function Levels(raw: seq<Level>): (levels: seq<Level>)
    ensures Positive(levels)
  {
    if raw == [] then []
    else (if raw[0].price > 0.0 && raw[0].size > 0.0 then [raw[0]] else []) + Levels(raw[1..])
  }

  /** Inserts into a descending book, after the levels of the same price. */
  function InsertBid(book: seq<Level>, level: Level): (r: seq<Level>)
    ensures |r| == |book| + 1
  {
    if book == [] || level.price > book[0].price then [level] + book else [book[0]] + InsertBid(book[1..], level)
  }

  function SortBids(levels: seq<Level>): (r: seq<Level>)
    ensures |r| == |levels|
  {
    if levels == [] then [] else InsertBid(SortBids(levels[1..]), levels[0])
  }

  lemma BidsCons(level: Level, rest: seq<Level>)
    requires Bids(rest) && level.price > 0.0 && level.size > 0.0 && forall x | x in rest :: x.price <= level.price
    ensures Bids([level] + rest)
  {
    assert forall i | 0 <= i < |rest| :: rest[i] in rest;
  }

  lemma {:induction false} InsertedLevels(book: seq<Level>, level: Level)
    ensures forall x :: x in InsertBid(book, level) <==> x in book || x == level
    ensures Value(InsertBid(book, level)) == Value(book) + level.Worth()
  {
    if book == [] || level.price > book[0].price {
      assert ([level] + book)[1..] == book;
    } else {
      assert book == [book[0]] + book[1..];
      InsertedLevels(book[1..], level);
      assert ([book[0]] + InsertBid(book[1..], level))[1..] == InsertBid(book[1..], level);
    }
  }

  lemma {:induction false} InsertedInOrder(book: seq<Level>, level: Level)
    requires Bids(book) && level.price > 0.0 && level.size > 0.0
    ensures Bids(InsertBid(book, level))
  {
    if book == [] || level.price > book[0].price {
      forall x | x in book ensures x.price <= level.price {
        assert x.price <= book[0].price;
      }
      BidsCons(level, book);
    } else {
      InsertedInOrder(book[1..], level);
      InsertedLevels(book[1..], level);
      forall x | x in InsertBid(book[1..], level) ensures x.price <= book[0].price {
        if x in book[1..] {
          assert x in book;
        }
      }
      BidsCons(book[0], InsertBid(book[1..], level));
    }
  }

  lemma {:induction false} InsertedOnce(book: seq<Level>, level: Level)
    ensures multiset(InsertBid(book, level)) == multiset(book) + multiset{level}
  {
    if book != [] && level.price <= book[0].price {
      InsertedOnce(book[1..], level);
      assert book == [book[0]] + book[1..];
    }
  }

  /** Sorting keeps the levels, each as often as it occurs, and what they are worth, and puts them in bid order. */
  lemma {:induction false} SortedBids(levels: seq<Level>)
    requires Positive(levels)
    ensures Bids(SortBids(levels)) && Value(SortBids(levels)) == Value(levels)
    ensures multiset(SortBids(levels)) == multiset(levels)
  {
    if levels != [] {
      assert levels == [levels[0]] + levels[1..];
      SortedBids(levels[1..]);
      InsertedOnce(SortBids(levels[1..]), levels[0]);
      InsertedInOrder(SortBids(levels[1..]), levels[0]);
      InsertedLevels(SortBids(levels[1..]), levels[0]);
    }
  }

  /** The lowest ask. */
  function BestAsk(asks: seq<Level>): (ask: real)
    requires asks != []
    ensures (exists i | 0 <= i < |asks| :: asks[i].price == ask) && forall i | 0 <= i < |asks| :: ask <= asks[i].price
  {
    if |asks| == 1 then asks[0].price else MinReal(asks[0].price, BestAsk(asks[1..]))
  }

  function SpreadPct(bid: real, ask: real): real
    requires bid > 0.0 && ask > 0.0
  {
    (ask - bid) / ((bid + ask) / 2.0) * 100.0
  }

  /** Absent without a price, or without one usable level on each side. */
  method OrderbookLiquidity(rawBids: seq<Level>, rawAsks: seq<Level>, price: real) returns (r: Option<Liquidity>)
    ensures r == None <==> price <= 0.0 || Levels(rawBids) == [] || Levels(rawAsks) == []
    ensures Bids(SortBids(Levels(rawBids)))
    ensures r.Some? ==>
      var bids := SortBids(Levels(rawBids));
      r.value == Liquidity(SpreadPct(bids[0].price, BestAsk(Levels(rawAsks))), SlippageOf(bids, 10000.0),
                           BidDepth(bids, price * 0.99), BidDepth(bids, price * 0.98))
  {
    var bids, asks := SortBids(Levels(rawBids)), Levels(rawAsks);
    SortedBids(Levels(rawBids));
    if price <= 0.0 || bids == [] || asks == [] {
      return None;
    }
    var slippage := SellSlippagePct(bids, NOTIONAL);
    // Both best prices are positive, so the midpoint is.
    r := Some(Liquidity(SpreadPct(bids[0].price, BestAsk(asks)), slippage,
                        BidDepth(bids, price * 0.99), BidDepth(bids, price * 0.98)));
  }

  /** The slippage is absent exactly when the bids are worth less than the notional, otherwise it lies in
      [0, 100); one percent of depth never exceeds two percent; and whenever one percent of depth covers
      the notional, the slippage stays within that percent's distance from the best bid. */
  ghost predicate MetricsAgree(bids: seq<Level>, price: real)
    requires Bids(bids)
  {
    var slippage, depth1, depth2 := SlippageOf(bids, NOTIONAL), BidDepth(bids, price * 0.99),
        BidDepth(bids, price * 0.98);
    && (slippage == None <==> Value(bids) < NOTIONAL)
    && (slippage.Some? ==> 0.0 <= slippage.value < 100.0)
    && 0.0 <= depth1 <= depth2
    && (NOTIONAL <= depth1 ==>
          slippage.Some? && bids != [] && slippage.value <= ShortfallPct(bids[0].price, price * 0.99))
  }

  lemma BidMetricsAgree(bids: seq<Level>, price: real)
    requires Bids(bids) && price > 0.0
    ensures MetricsAgree(bids, price)
  {
    DepthGrowsDown(bids, price * 0.98, price * 0.99);
    if NOTIONAL <= Value(bids) {
      SlippageInRange(bids, NOTIONAL);
    }
    if NOTIONAL <= BidDepth(bids, price * 0.99) {
      DepthBoundsSlippage(bids, NOTIONAL, price * 0.99);
    }
  }

  /** The metrics of any raw book agree. */
  lemma RawMetricsAgree(rawBids: seq<Level>, price: real)
    requires price > 0.0
    ensures Bids(SortBids(Levels(rawBids))) && MetricsAgree(SortBids(Levels(rawBids)), price)
    ensures Value(SortBids(Levels(rawBids))) == Value(Levels(rawBids))
  {
    SortedBids(Levels(rawBids));
    BidMetricsAgree(SortBids(Levels(rawBids)), price);
  }
}
