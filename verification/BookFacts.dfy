/** The order-book metrics as sums over levels and as the least of all fills, stated without the functions that compute
    them. */
module BookFacts {
  import opened Common
  import opened RealArithmetic
  import opened OrderBook

  // ---------- Sums over levels ----------

  function Total(xs: seq<real>): real { if xs == [] then 0.0 else xs[0] + Total(xs[1..]) }

  function Worths(book: seq<Level>): (xs: seq<real>)
    ensures |xs| == |book| && forall i | 0 <= i < |book| :: xs[i] == book[i].price * book[i].size
  {
    seq(|book|, i requires 0 <= i < |book| => book[i].price * book[i].size)
  }

  /** What each level at or above the floor is worth. */
  function WorthsAbove(book: seq<Level>, floor: real): (xs: seq<real>)
    ensures |xs| == |book|
    ensures forall i | 0 <= i < |book| :: xs[i] == if book[i].price >= floor then book[i].price * book[i].size else 0.0
  {
    seq(|book|, i requires 0 <= i < |book| => if book[i].price >= floor then book[i].price * book[i].size else 0.0)
  }

  /** What each part of a fill earns. */
  function Earnings(book: seq<Level>, fill: seq<real>): (xs: seq<real>)
    requires |fill| == |book|
    ensures |xs| == |book| && forall i | 0 <= i < |book| :: xs[i] == fill[i] * book[i].price
  {
    seq(|book|, i requires 0 <= i < |book| => fill[i] * book[i].price)
  }

  lemma {:induction false} ValueIsTotal(book: seq<Level>)
    ensures Value(book) == Total(Worths(book))
  {
    if book != [] {
      ValueIsTotal(book[1..]);
      forall i | 0 <= i < |book| - 1 ensures Worths(book)[1..][i] == Worths(book[1..])[i] {
        assert book[1..][i] == book[i + 1];
      }
      assert Worths(book)[1..] == Worths(book[1..]);
    }
  }

  /** The depth is what the levels at or above the floor are worth together. */
  lemma {:induction false} DepthIsTotal(book: seq<Level>, floor: real)
    ensures BidDepth(book, floor) == Total(WorthsAbove(book, floor))
  {
    if book != [] {
      DepthIsTotal(book[1..], floor);
      WorthsAboveRest(book, floor);
    }
  }

  lemma WorthsAboveRest(book: seq<Level>, floor: real)
    requires book != []
    ensures WorthsAbove(book, floor)[1..] == WorthsAbove(book[1..], floor)
    ensures WorthsAbove(book, floor)[0] == if book[0].price >= floor then book[0].Worth() else 0.0
  {
    forall i | 0 <= i < |book| - 1 ensures WorthsAbove(book, floor)[1..][i] == WorthsAbove(book[1..], floor)[i] {
      assert book[1..][i] == book[i + 1];
    }
  }

  lemma {:induction false} QuoteIsTotal(book: seq<Level>, fill: seq<real>)
    requires |fill| == |book|
    ensures Quote(book, fill) == Total(Earnings(book, fill))
  {
    if book != [] {
      QuoteIsTotal(book[1..], fill[1..]);
      forall i | 0 <= i < |book| - 1 ensures Earnings(book, fill)[1..][i] == Earnings(book[1..], fill[1..])[i] {
        assert book[1..][i] == book[i + 1];
      }
      assert Earnings(book, fill)[1..] == Earnings(book[1..], fill[1..]);
    }
  }

  lemma {:induction false} BaseIsTotal(fill: seq<real>)
    ensures Base(fill) == Total(fill)
  {
    if fill != [] {
      BaseIsTotal(fill[1..]);
    }
  }

  // ---------- The slippage ----------

  /** A part of each level, worth `notional` together. */
  predicate Sells(book: seq<Level>, fill: seq<real>, notional: real) {
    && |fill| == |book| && (forall i | 0 <= i < |book| :: 0.0 <= fill[i] <= book[i].size)
    && Total(Earnings(book, fill)) == notional
  }

  /** Everything better than some level, nothing worse than it. */
  predicate FromTheTop(book: seq<Level>, fill: seq<real>) {
    |fill| == |book| && exists m | 0 <= m < |book| :: StopsAt(book, fill, m)
  }

  predicate StopsAt(book: seq<Level>, fill: seq<real>, m: nat)
    requires m < |book| == |fill|
  {
    (forall i | 0 <= i < m :: fill[i] == book[i].size) && forall i | m < i < |book| :: fill[i] == 0.0
  }

  /** There is a slippage if and only if the notional is positive and the bids are worth it. */
  lemma SlippageExistsExactly(bids: seq<Level>, notional: real)
    requires Positive(bids)
    ensures SlippageOf(bids, notional).Some? <==> 0.0 < notional <= Total(Worths(bids))
  {
    ValueIsTotal(bids);
  }

  /** It comes from the fill that takes the bids from the top: its average price, the notional over what it sells, falls
      short of the best bid by that percentage. */
  lemma SlippageIsExact(bids: seq<Level>, notional: real) returns (fill: seq<real>)
    requires Positive(bids) && 0.0 < notional <= Total(Worths(bids))
    ensures bids != [] && Sells(bids, fill, notional) && FromTheTop(bids, fill) && Total(fill) > 0.0
    ensures SlippageOf(bids, notional).Some?
    ensures SlippageOf(bids, notional).value * bids[0].price == (bids[0].price - notional / Total(fill)) * 100.0
  {
    ValueIsTotal(bids);
    fill := GreedyFill(bids, notional);
    QuoteIsTotal(bids, fill);
    BaseIsTotal(fill);
    SoldSomething(bids, notional);
    var m := GreedyMargin(bids, notional);
    assert StopsAt(bids, fill, m);
    ShortfallIsExact(bids[0].price, notional / Total(fill));
  }

  lemma ShortfallIsExact(best: real, average: real)
    requires best > 0.0
    ensures ShortfallPct(best, average) * best == (best - average) * 100.0
  {
    var q := (best - average) / best;
    Quotient(best - average, best);
    assert q * 100.0 * best == q * best * 100.0;
  }

  /** On bids in order no other fill of the notional sells less base, so none has a better average price. */
  lemma NoOtherSellsLess(bids: seq<Level>, notional: real, fill: seq<real>, other: seq<real>)
    requires Bids(bids) && 0.0 < notional && Sells(bids, fill, notional) && FromTheTop(bids, fill)
    requires Sells(bids, other, notional)
    ensures Total(fill) <= Total(other)
  {
    var m :| 0 <= m < |bids| && StopsAt(bids, fill, m);
    QuoteIsTotal(bids, fill);
    QuoteIsTotal(bids, other);
    BaseIsTotal(fill);
    BaseIsTotal(other);
    MarginSellsLeast(bids, fill, m, other);
  }

  // ---------- The levels and the spread ----------

  /** The usable levels are those with a positive price and size, each as often as it occurs. */
  lemma {:induction false} LevelsAreExact(raw: seq<Level>, x: Level)
    ensures multiset(Levels(raw))[x] == if x.price > 0.0 && x.size > 0.0 then multiset(raw)[x] else 0
  {
    if raw != [] {
      LevelsAreExact(raw[1..], x);
      assert raw == [raw[0]] + raw[1..];
    }
  }

  /** The best bid is the greatest usable price. */
  lemma BestBidIsGreatest(raw: seq<Level>)
    requires Levels(raw) != []
    ensures var best := SortBids(Levels(raw))[0];
            best in Levels(raw) && forall x | x in Levels(raw) :: x.price <= best.price
  {
    var levels, bids := Levels(raw), SortBids(Levels(raw));
    SortedBids(levels);
    assert bids[0] in multiset(bids);
    forall x | x in levels ensures x.price <= bids[0].price {
      assert x in multiset(levels);
      assert x in bids;
    }
  }

  /** The spread is the distance between the best prices, as a percentage of the middle between them. */
  lemma SpreadIsExact(bid: real, ask: real)
    requires bid > 0.0 && ask > 0.0
    ensures SpreadPct(bid, ask) * ((bid + ask) / 2.0) == (ask - bid) * 100.0
  {
    var middle := (bid + ask) / 2.0;
    var q := (ask - bid) / middle;
    Quotient(ask - bid, middle);
    assert q * 100.0 * middle == q * middle * 100.0;
  }
}
