/** Closed one-minute candles and complete five-minute bars (app/market/candles.py).  Times are
    milliseconds; a frame is a sequence of rows in any order. */
module Candles {
  import opened Common

  const MINUTE := 60000
  const BUCKET := 5 * MINUTE

  datatype Row = Row(time: int, open: real, high: real, low: real, close: real, volume: real, turnover: real)

  datatype Bar = Bar(time: int, open: real, high: real, low: real, close: real, volume: real, turnover: real)

  // ---------- Closed rows, grouped and sorted ----------

  predicate ClosedBy(r: Row, asof: int) { r.time + MINUTE <= asof }

  function Closed1mRows(frame: seq<Row>, asof: int): (closed: seq<Row>)
    ensures forall r :: r in closed <==> r in frame && ClosedBy(r, asof)
  {
    if frame == [] then []
    else
      assert frame == frame[..|frame| - 1] + [frame[|frame| - 1]];
      Closed1mRows(frame[..|frame| - 1], asof) + if ClosedBy(frame[|frame| - 1], asof) then [frame[|frame| - 1]] else []
  }

  function BucketOf(t: int): int { t - t % BUCKET }

  /** The rows of one bucket, in frame order. */
  function Group(rows: seq<Row>, b: int): (group: seq<Row>)
    ensures forall r :: r in group <==> r in rows && BucketOf(r.time) == b
  {
    if rows == [] then []
    else
      assert rows == rows[..|rows| - 1] + [rows[|rows| - 1]];
      Group(rows[..|rows| - 1], b) + if BucketOf(rows[|rows| - 1].time) == b then [rows[|rows| - 1]] else []
  }

  predicate ByTime(rows: seq<Row>) { forall i, j | 0 <= i < j < |rows| :: rows[i].time <= rows[j].time }

  lemma ByTimeSnoc(rows: seq<Row>, r: Row)
    requires ByTime(rows) && forall x | x in rows :: x.time <= r.time
    ensures ByTime(rows + [r])
  {
  }

  function InsertRow(rows: seq<Row>, r: Row): (s: seq<Row>)
    requires ByTime(rows)
    ensures ByTime(s) && multiset(s) == multiset(rows) + multiset{r}
    ensures forall x :: x in s <==> x in rows || x == r
  {
    if rows == [] then [r]
    else
      var n := |rows| - 1;
      assert rows == rows[..n] + [rows[n]];
      if rows[n].time <= r.time then
        ByTimeSnoc(rows, r);
        rows + [r]
      else
        ByTimeSnoc(InsertRow(rows[..n], r), rows[n]);
        InsertRow(rows[..n], r) + [rows[n]]
  }

  function SortRows(rows: seq<Row>): (s: seq<Row>)
    ensures ByTime(s) && multiset(s) == multiset(rows)
  {
    if rows == [] then []
    else
      assert rows == rows[..|rows| - 1] + [rows[|rows| - 1]];
      InsertRow(SortRows(rows[..|rows| - 1]), rows[|rows| - 1])
  }

  function Volume(rows: seq<Row>): real {
    if rows == [] then 0.0 else Volume(rows[..|rows| - 1]) + rows[|rows| - 1].volume
  }

  // ---------- Bars ----------

  /** Five rows, one at each minute of the bucket. */
  predicate IsFull(group: seq<Row>, b: int) {
    |group| == 5 && forall i | 0 <= i < 5 :: group[i].time == b + i * MINUTE
  }

  predicate Complete(closed: seq<Row>, b: int) { IsFull(SortRows(Group(closed, b)), b) }

  function Aggregate(g: seq<Row>, b: int): Bar
    requires |g| == 5
  {
    Bar(b + BUCKET, g[0].open,
        MaxReal(g[0].high, MaxReal(g[1].high, MaxReal(g[2].high, MaxReal(g[3].high, g[4].high)))),
        MinReal(g[0].low, MinReal(g[1].low, MinReal(g[2].low, MinReal(g[3].low, g[4].low)))),
        g[4].close,
        g[0].volume + g[1].volume + g[2].volume + g[3].volume + g[4].volume,
        g[0].turnover + g[1].turnover + g[2].turnover + g[3].turnover + g[4].turnover)
  }

  function BarOf(closed: seq<Row>, b: int): Bar
    requires Complete(closed, b)
  {
    Aggregate(SortRows(Group(closed, b)), b)
  }

  predicate Ascending(s: seq<int>) { forall i, j | 0 <= i < j < |s| :: s[i] < s[j] }

  lemma AscendingSnoc(keys: seq<int>, k: int)
    requires Ascending(keys) && forall x | x in keys :: x < k
    ensures Ascending(keys + [k])
  {
    assert forall i | 0 <= i < |keys| :: keys[i] in keys;
  }

  function InsertKey(keys: seq<int>, k: int): (r: seq<int>)
    requires Ascending(keys)
    ensures Ascending(r) && forall x :: x in r <==> x in keys || x == k
  {
    if keys == [] then [k]
    else
      var n := |keys| - 1;
      assert keys == keys[..n] + [keys[n]];
      if keys[n] < k then keys + [k]
      else if keys[n] == k then keys
      else
        AscendingSnoc(InsertKey(keys[..n], k), keys[n]);
        InsertKey(keys[..n], k) + [keys[n]]
  }

  /** The buckets that hold a row, ascending. */
  function Buckets(rows: seq<Row>): (r: seq<int>)
    ensures Ascending(r) && forall r0 | r0 in rows :: BucketOf(r0.time) in r
  {
    if rows == [] then []
    else
      assert rows == rows[..|rows| - 1] + [rows[|rows| - 1]];
      InsertKey(Buckets(rows[..|rows| - 1]), BucketOf(rows[|rows| - 1].time))
  }

  /** The complete buckets among some. */
  function CompleteAmong(closed: seq<Row>, buckets: seq<int>): (r: seq<int>)
    requires Ascending(buckets)
    ensures Ascending(r) && forall b :: b in r <==> b in buckets && Complete(closed, b)
  {
    if buckets == [] then []
    else
      var n := |buckets| - 1;
      assert buckets == buckets[..n] + [buckets[n]];
      AscendingSnoc(CompleteAmong(closed, buckets[..n]), buckets[n]);
      if Complete(closed, buckets[n]) then CompleteAmong(closed, buckets[..n]) + [buckets[n]]
          else CompleteAmong(closed, buckets[..n])
  }

  function BarsAt(closed: seq<Row>, starts: seq<int>): (bars: seq<Bar>)
    requires forall b | b in starts :: Complete(closed, b)
    ensures |bars| == |starts| && forall i | 0 <= i < |starts| :: bars[i] == BarOf(closed, starts[i])
  {
    seq(|starts|, i requires 0 <= i < |starts| => BarOf(closed, starts[i]))
  }

  function Starts(closed: seq<Row>): seq<int> { CompleteAmong(closed, Buckets(closed)) }

  function Bars(frame: seq<Row>, asof: int): seq<Bar> {
    var closed := Closed1mRows(frame, asof);
    BarsAt(closed, Starts(closed))
  }

  lemma BarsAtSnoc(closed: seq<Row>, starts: seq<int>, b: int)
    requires (forall x | x in starts :: Complete(closed, x)) && Complete(closed, b)
    ensures BarsAt(closed, starts + [b]) == BarsAt(closed, starts) + [BarOf(closed, b)]
  {
  }

  lemma OneMoreBucket(closed: seq<Row>, buckets: seq<int>, i: nat)
    requires Ascending(buckets) && i < |buckets|
    ensures BarsAt(closed, CompleteAmong(closed, buckets[..i + 1]))
         == BarsAt(closed, CompleteAmong(closed, buckets[..i]))
            + if Complete(closed, buckets[i]) then [BarOf(closed, buckets[i])] else []
  {
    assert buckets[..i + 1][..i] == buckets[..i];
    if Complete(closed, buckets[i]) {
      BarsAtSnoc(closed, CompleteAmong(closed, buckets[..i]), buckets[i]);
    }
  }

  /** Walks the buckets that hold a closed row and keeps a bar for each full one. */
  method Complete5mOhlcv(frame: seq<Row>, asof: int) returns (bars: seq<Bar>)
    ensures bars == Bars(frame, asof)
  {
    var closed := Closed1mRows(frame, asof);
    var buckets := Buckets(closed);
    bars := [];
    for i := 0 to |buckets|
      invariant bars == BarsAt(closed, CompleteAmong(closed, buckets[..i]))
    {
      var bar := BarOfBucket(closed, buckets[i]);
      OneMoreBucket(closed, buckets, i);
      bars := bars + bar;
    }
    assert buckets[..|buckets|] == buckets;
  }

  /** The bar of one bucket, if it is full. */
  method BarOfBucket(closed: seq<Row>, b: int) returns (bar: seq<Bar>)
    ensures bar == if Complete(closed, b) then [BarOf(closed, b)] else []
  {
    var group := SortRows(Group(closed, b));
    bar := [];
    if IsFull(group, b) {
      bar := [Aggregate(group, b)];
    }
  }

  // ---------- What a bar is ----------

  predicate HasMinute(rows: seq<Row>, t: int) { exists i | 0 <= i < |rows| :: rows[i].time == t }

  /** Five rows, in any order, with one at every minute of the bucket. */
  predicate CoversMinutes(rows: seq<Row>, b: int) {
    |rows| == 5 && forall k | 0 <= k < 5 :: HasMinute(rows, b + k * MINUTE)
  }

  lemma SameMinutes(rows: seq<Row>, others: seq<Row>, t: int)
    requires multiset(rows) == multiset(others) && HasMinute(rows, t)
    ensures HasMinute(others, t)
  {
    var i :| 0 <= i < |rows| && rows[i].time == t;
    assert rows[i] in multiset(others);
  }

  lemma SameSize(rows: seq<Row>, others: seq<Row>)
    requires multiset(rows) == multiset(others)
    ensures |rows| == |others|
  {
    assert |multiset(rows)| == |multiset(others)|;
  }

  /** A bucket is complete exactly when its closed rows are five with one at every minute. */
  lemma CompleteExactly(closed: seq<Row>, b: int)
    ensures Complete(closed, b) <==> CoversMinutes(Group(closed, b), b)
  {
    var group := Group(closed, b);
    var s := SortRows(group);
    SameSize(s, group);
    if IsFull(s, b) {
      forall k | 0 <= k < 5 ensures HasMinute(group, b + k * MINUTE) {
        assert s[k].time == b + k * MINUTE;
        SameMinutes(s, group, b + k * MINUTE);
      }
    }
    if CoversMinutes(group, b) {
      forall k | 0 <= k < 5 ensures HasMinute(s, b + k * MINUTE) {
        SameMinutes(group, s, b + k * MINUTE);
      }
      FiveDistinctTimes(s, b);
    }
  }

  lemma EarlierFirst(s: seq<Row>, i: nat, j: nat)
    requires ByTime(s) && i < |s| && j < |s| && s[i].time < s[j].time
    ensures i < j
  {
  }

  lemma FiveDistinctTimes(s: seq<Row>, b: int)
    requires ByTime(s) && CoversMinutes(s, b)
    ensures IsFull(s, b)
  {
    var i0 := RowAt(s, b, 0);
    var i1 := RowAt(s, b, 1);
    var i2 := RowAt(s, b, 2);
    var i3 := RowAt(s, b, 3);
    var i4 := RowAt(s, b, 4);
    EarlierFirst(s, i0, i1);
    EarlierFirst(s, i1, i2);
    EarlierFirst(s, i2, i3);
    EarlierFirst(s, i3, i4);
  }

  lemma RowAt(s: seq<Row>, b: int, k: nat) returns (i: nat)
    requires CoversMinutes(s, b) && k < 5
    ensures i < |s| == 5 && s[i].time == b + k * MINUTE
  {
    assert HasMinute(s, b + k * MINUTE);
    i :| 0 <= i < |s| && s[i].time == b + k * MINUTE;
  }

  predicate IsHighOf(m: real, rows: seq<Row>) {
    (exists i | 0 <= i < |rows| :: rows[i].high == m) && forall i | 0 <= i < |rows| :: rows[i].high <= m
  }

  predicate IsLowOf(m: real, rows: seq<Row>) {
    (exists i | 0 <= i < |rows| :: rows[i].low == m) && forall i | 0 <= i < |rows| :: m <= rows[i].low
  }

  function Turnover(rows: seq<Row>): real {
    if rows == [] then 0.0 else Turnover(rows[..|rows| - 1]) + rows[|rows| - 1].turnover
  }

  lemma RowAtMinute(s: seq<Row>, g: seq<Row>, b: int, k: nat, r: Row)
    requires IsFull(s, b) && multiset(s) == multiset(g) && k < 5 && r in g && r.time == b + k * MINUTE
    ensures r == s[k]
  {
    assert r in multiset(s);
    var i :| 0 <= i < 5 && s[i] == r;
    assert s[i].time == b + i * MINUTE;
  }

  /** The bar opens with the row at the bucket's start and closes with the row four minutes later, spans the
      rows' highs and lows, and carries exactly their volume and turnover. */
  ghost predicate IsBarOf(bar: Bar, rows: seq<Row>, b: int) {
    && bar.time == b + BUCKET
    && (forall r | r in rows && r.time == b :: bar.open == r.open)
    && (forall r | r in rows && r.time == b + 4 * MINUTE :: bar.close == r.close)
    && IsHighOf(bar.high, rows) && IsLowOf(bar.low, rows)
    && bar.volume == Volume(rows) && bar.turnover == Turnover(rows)
  }

  lemma AggregateIsBar(s: seq<Row>, g: seq<Row>, b: int)
    requires IsFull(s, b) && multiset(s) == multiset(g) && Volume(s) == Volume(g) && Turnover(s) == Turnover(g)
    ensures IsBarOf(Aggregate(s, b), g, b)
  {
    FiveSums(s);
    SpanOfFive(s, b);
    SameHighs(Aggregate(s, b).high, s, g);
    SameLows(Aggregate(s, b).low, s, g);
    forall r | r in g && r.time == b ensures r == s[0] {
      RowAtMinute(s, g, b, 0, r);
    }
    forall r | r in g && r.time == b + 4 * MINUTE ensures r == s[4] {
      RowAtMinute(s, g, b, 4, r);
    }
  }

  lemma BarIsExact(closed: seq<Row>, b: int)
    requires Complete(closed, b)
    ensures IsBarOf(BarOf(closed, b), Group(closed, b), b)
  {
    SortKeepsSums(Group(closed, b));
    AggregateIsBar(SortRows(Group(closed, b)), Group(closed, b), b);
  }

  lemma OneMoreRow(s: seq<Row>, k: nat)
    requires k < |s|
    ensures Volume(s[..k + 1]) == Volume(s[..k]) + s[k].volume
            && Turnover(s[..k + 1]) == Turnover(s[..k]) + s[k].turnover
  {
    assert s[..k + 1][..k] == s[..k];
  }

  lemma FiveSums(s: seq<Row>)
    requires |s| == 5
    ensures Volume(s) == s[0].volume + s[1].volume + s[2].volume + s[3].volume + s[4].volume
    ensures Turnover(s) == s[0].turnover + s[1].turnover + s[2].turnover + s[3].turnover + s[4].turnover
  {
    OneMoreRow(s, 0);
    OneMoreRow(s, 1);
    OneMoreRow(s, 2);
    OneMoreRow(s, 3);
    OneMoreRow(s, 4);
    assert s[..5] == s;
  }

  lemma {:induction false} InsertKeepsSums(rows: seq<Row>, r: Row)
    requires ByTime(rows)
    ensures Volume(InsertRow(rows, r)) == Volume(rows) + r.volume
    ensures Turnover(InsertRow(rows, r)) == Turnover(rows) + r.turnover
  {
    if rows != [] {
      var n := |rows| - 1;
      if rows[n].time <= r.time {
        assert (rows + [r])[..|rows|] == rows;
      } else {
        InsertKeepsSums(rows[..n], r);
        var s := InsertRow(rows[..n], r);
        assert (s + [rows[n]])[..|s|] == s;
      }
    }
  }

  lemma {:induction false} SortKeepsSums(rows: seq<Row>)
    ensures Volume(SortRows(rows)) == Volume(rows) && Turnover(SortRows(rows)) == Turnover(rows)
  {
    if rows != [] {
      var n := |rows| - 1;
      SortKeepsSums(rows[..n]);
      InsertKeepsSums(SortRows(rows[..n]), rows[n]);
    }
  }

  lemma SpanOfFive(s: seq<Row>, b: int)
    requires |s| == 5
    ensures IsHighOf(Aggregate(s, b).high, s) && IsLowOf(Aggregate(s, b).low, s)
  {
    var bar := Aggregate(s, b);
    assert bar.high in [s[0].high, s[1].high, s[2].high, s[3].high, s[4].high];
    assert bar.low in [s[0].low, s[1].low, s[2].low, s[3].low, s[4].low];
  }

  lemma SameHighs(m: real, s: seq<Row>, g: seq<Row>)
    requires multiset(s) == multiset(g) && IsHighOf(m, s)
    ensures IsHighOf(m, g)
  {
    var i :| 0 <= i < |s| && s[i].high == m;
    assert s[i] in multiset(g);
    forall j | 0 <= j < |g| ensures g[j].high <= m {
      assert g[j] in multiset(s);
    }
  }

  lemma SameLows(m: real, s: seq<Row>, g: seq<Row>)
    requires multiset(s) == multiset(g) && IsLowOf(m, s)
    ensures IsLowOf(m, g)
  {
    var i :| 0 <= i < |s| && s[i].low == m;
    assert s[i] in multiset(g);
    forall j | 0 <= j < |g| ensures m <= g[j].low {
      assert g[j] in multiset(s);
    }
  }

  // ---------- The output over time ----------

  /** The output has a bar for every complete bucket and no other, in ascending order. */
  lemma OutputIsExact(frame: seq<Row>, asof: int, b: int)
    ensures Ascending(Starts(Closed1mRows(frame, asof)))
    ensures b in Starts(Closed1mRows(frame, asof)) <==> Complete(Closed1mRows(frame, asof), b)
  {
    var closed := Closed1mRows(frame, asof);
    if Complete(closed, b) {
      CompleteExactly(closed, b);
      assert HasMinute(Group(closed, b), b + 0 * MINUTE);
      assert b in Buckets(closed);
    }
  }

  /** How many rows of bucket `b` close after `early` but by `late`. */
  function LateRows(frame: seq<Row>, early: int, late: int, b: int): nat {
    if frame == [] then 0
    else
      var r := frame[|frame| - 1];
      LateRows(frame[..|frame| - 1], early, late, b) + if BucketOf(r.time) == b && !ClosedBy(r, early)
          && ClosedBy(r, late) then 1 else 0
  }

  lemma {:induction false} GroupSettles(frame: seq<Row>, early: int, late: int, b: int)
    requires early <= late
    ensures |Group(Closed1mRows(frame, late), b)| == |Group(Closed1mRows(frame, early), b)|
            + LateRows(frame, early, late, b)
    ensures LateRows(frame, early, late, b) == 0
            ==> Group(Closed1mRows(frame, late), b) == Group(Closed1mRows(frame, early), b)
  {
    if frame != [] {
      var n := |frame| - 1;
      GroupSettles(frame[..n], early, late, b);
      assert Closed1mRows(frame[..n], early) + [] == Closed1mRows(frame[..n], early);
      assert Closed1mRows(frame[..n], late) + [] == Closed1mRows(frame[..n], late);
      GroupSnoc(Closed1mRows(frame[..n], early), frame[n], b);
      GroupSnoc(Closed1mRows(frame[..n], late), frame[n], b);
    }
  }

  lemma GroupSnoc(rows: seq<Row>, r: Row, b: int)
    ensures Group(rows + [r], b) == Group(rows, b) + if BucketOf(r.time) == b then [r] else []
  {
    assert (rows + [r])[..|rows|] == rows;
  }

  /** A bar that was there stays exactly when no further row of its bucket closes in between. */
  lemma BarStaysExactly(frame: seq<Row>, early: int, late: int, b: int)
    requires early <= late && Complete(Closed1mRows(frame, early), b)
    ensures Complete(Closed1mRows(frame, late), b) <==> LateRows(frame, early, late, b) == 0
    ensures Complete(Closed1mRows(frame, late), b)
            ==> BarOf(Closed1mRows(frame, late), b) == BarOf(Closed1mRows(frame, early), b)
  {
    GroupSettles(frame, early, late, b);
    CompleteExactly(Closed1mRows(frame, early), b);
    CompleteExactly(Closed1mRows(frame, late), b);
  }

  lemma {:induction false} NoLateRows(frame: seq<Row>, early: int, late: int, b: int)
    requires forall r | r in frame && BucketOf(r.time) == b && ClosedBy(r, late) :: ClosedBy(r, early)
    ensures LateRows(frame, early, late, b) == 0
  {
    if frame != [] {
      NoLateRows(frame[..|frame| - 1], early, late, b);
    }
  }

  lemma FullRowsAreTimely(closed: seq<Row>, b: int, r: Row)
    requires Complete(closed, b) && r in closed && BucketOf(r.time) == b
    ensures b <= r.time <= b + 4 * MINUTE
  {
    var g := Group(closed, b);
    assert r in multiset(g);
    assert r in multiset(SortRows(g));
  }

  /** Whatever completes later lies in the future of the earlier output. */
  lemma NewBarsAreLater(frame: seq<Row>, early: int, late: int, b: int)
    requires early <= late && Complete(Closed1mRows(frame, late), b) && !Complete(Closed1mRows(frame, early), b)
    ensures b + BUCKET > early
  {
    if b + BUCKET <= early {
      forall r | r in frame && BucketOf(r.time) == b && ClosedBy(r, late) ensures ClosedBy(r, early) {
        FullRowsAreTimely(Closed1mRows(frame, late), b, r);
      }
      NoLateRows(frame, early, late, b);
      GroupSettles(frame, early, late, b);
    }
  }

  /** No bar is output before its bucket has passed. */
  lemma BarsArePast(frame: seq<Row>, asof: int, b: int)
    requires Complete(Closed1mRows(frame, asof), b)
    ensures b + BUCKET <= asof
  {
    var g := Group(Closed1mRows(frame, asof), b);
    var s := SortRows(g);
    assert s[4] in multiset(g);
  }

  /** Ascending keys whose extra keys all come after the rest. */
  lemma {:induction false} PrefixOfKeys(a: seq<int>, b: seq<int>)
    requires Ascending(a) && Ascending(b) && forall x | x in a :: x in b
    requires forall x, y | x in a && y in b && y !in a :: x < y
    ensures a <= b
    decreases |a|
  {
    if a != [] {
      assert a[0] in a && a[0] in b && b[0] in b;
      assert b[0] == a[0];
      assert a == [a[0]] + a[1..] && b == [b[0]] + b[1..];
      forall x | x in a[1..] ensures x in b[1..] {
        assert x in a && x > a[0];
      }
      forall x, y | x in a[1..] && y in b[1..] && y !in a[1..] ensures x < y {
        assert x in a && y in b && y > b[0] && y !in a;
      }
      PrefixOfKeys(a[1..], b[1..]);
    }
  }

  lemma BarsTakePrefix(early: seq<Row>, late: seq<Row>, a: seq<int>, b: seq<int>)
    requires (forall x | x in a :: Complete(early, x)) && (forall x | x in b :: Complete(late, x))
    requires a <= b && forall x | x in a :: BarOf(early, x) == BarOf(late, x)
    ensures BarsAt(early, a) <= BarsAt(late, b)
  {
    forall i | 0 <= i < |a| ensures BarsAt(early, a)[i] == BarsAt(late, b)[i] {
      assert a[i] in a && b[i] == a[i];
    }
  }

  lemma BarsKeepStarts(early: seq<Row>, late: seq<Row>, a: seq<int>, b: seq<int>, x: int)
    requires (forall x | x in a :: Complete(early, x)) && (forall x | x in b :: Complete(late, x))
    requires BarsAt(early, a) <= BarsAt(late, b) && x in a
    ensures x in b
  {
    var i :| 0 <= i < |a| && a[i] == x;
    assert BarsAt(early, a)[i].time == BarsAt(late, b)[i].time;
    assert b[i] == x;
  }

  /** Between the two times no further row closes in a bucket that is complete at the earlier one. */
  ghost predicate Undisturbed(frame: seq<Row>, early: int, late: int) {
    forall b | Complete(Closed1mRows(frame, early), b) :: LateRows(frame, early, late, b) == 0
  }

  lemma StartsArePrefix(frame: seq<Row>, early: int, late: int)
    requires early <= late && Undisturbed(frame, early, late)
    ensures Starts(Closed1mRows(frame, early)) <= Starts(Closed1mRows(frame, late))
  {
    var s0, s1 := Starts(Closed1mRows(frame, early)), Starts(Closed1mRows(frame, late));
    forall b | b in s0 ensures b in s1 {
      BarStaysExactly(frame, early, late, b);
      OutputIsExact(frame, late, b);
    }
    forall x, y | x in s0 && y in s1 && y !in s0 ensures x < y {
      OutputIsExact(frame, early, y);
      NewBarsAreLater(frame, early, late, y);
      BarsArePast(frame, early, x);
    }
    PrefixOfKeys(s0, s1);
  }

  lemma UndisturbedIsPrefix(frame: seq<Row>, early: int, late: int)
    requires early <= late && Undisturbed(frame, early, late)
    ensures Bars(frame, early) <= Bars(frame, late)
  {
    var c0, c1 := Closed1mRows(frame, early), Closed1mRows(frame, late);
    StartsArePrefix(frame, early, late);
    forall b | b in Starts(c0) ensures Complete(c1, b) && BarOf(c0, b) == BarOf(c1, b) {
      BarStaysExactly(frame, early, late, b);
    }
    BarsTakePrefix(c0, c1, Starts(c0), Starts(c1));
  }

  lemma PrefixIsUndisturbed(frame: seq<Row>, early: int, late: int)
    requires early <= late && Bars(frame, early) <= Bars(frame, late)
    ensures Undisturbed(frame, early, late)
  {
    var c0, c1 := Closed1mRows(frame, early), Closed1mRows(frame, late);
    forall b | Complete(c0, b) ensures LateRows(frame, early, late, b) == 0 {
      OutputIsExact(frame, early, b);
      BarsKeepStarts(c0, c1, Starts(c0), Starts(c1), b);
      BarStaysExactly(frame, early, late, b);
    }
  }

  /** The earlier output is a prefix of the later one exactly when no complete bucket gets a further row. */
  lemma PrefixExactly(frame: seq<Row>, early: int, late: int)
    requires early <= late
    ensures Bars(frame, early) <= Bars(frame, late) <==> Undisturbed(frame, early, late)
  {
    if Undisturbed(frame, early, late) {
      UndisturbedIsPrefix(frame, early, late);
    } else if Bars(frame, early) <= Bars(frame, late) {
      PrefixIsUndisturbed(frame, early, late);
    }
  }

  /** Minute-aligned frames never repaint. */
  lemma AlignedFramesNeverRepaint(frame: seq<Row>, early: int, late: int)
    requires early <= late && forall r | r in frame :: r.time % MINUTE == 0
    ensures Bars(frame, early) <= Bars(frame, late)
  {
    PrefixExactly(frame, early, late);
    forall b | Complete(Closed1mRows(frame, early), b) ensures LateRows(frame, early, late, b) == 0 {
      BarsArePast(frame, early, b);
      forall r | r in frame && BucketOf(r.time) == b && ClosedBy(r, late) ensures ClosedBy(r, early) {
        AlignedInBucket(r.time, b);
      }
      NoLateRows(frame, early, late, b);
    }
  }

  lemma AlignedInBucket(t: int, b: int)
    requires BucketOf(t) == b && t % MINUTE == 0
    ensures t + MINUTE <= b + BUCKET
  {
  }

  lemma {:induction false} AllClosed(rows: seq<Row>, asof: int)
    requires forall i | 0 <= i < |rows| :: ClosedBy(rows[i], asof)
    ensures Closed1mRows(rows, asof) == rows
  {
    if rows != [] {
      AllClosed(rows[..|rows| - 1], asof);
      OneMoreClosed(rows, asof);
    }
  }

  lemma OneMoreClosed(rows: seq<Row>, asof: int)
    requires rows != [] && ClosedBy(rows[|rows| - 1], asof)
    requires Closed1mRows(rows[..|rows| - 1], asof) == rows[..|rows| - 1]
    ensures Closed1mRows(rows, asof) == rows
  {
    assert Closed1mRows(rows, asof) == Closed1mRows(rows[..|rows| - 1], asof) + [rows[|rows| - 1]];
    WithLast(rows);
  }

  lemma WithLast(rows: seq<Row>)
    requires rows != []
    ensures rows[..|rows| - 1] + [rows[|rows| - 1]] == rows
  {
  }

  lemma {:induction false} OneBucket(rows: seq<Row>, b: int)
    requires forall i | 0 <= i < |rows| :: BucketOf(rows[i].time) == b
    ensures Group(rows, b) == rows
  {
    if rows != [] {
      OneBucket(rows[..|rows| - 1], b);
      OneMoreInBucket(rows, b);
    }
  }

  lemma OneMoreInBucket(rows: seq<Row>, b: int)
    requires rows != [] && BucketOf(rows[|rows| - 1].time) == b && Group(rows[..|rows| - 1], b) == rows[..|rows| - 1]
    ensures Group(rows, b) == rows
  {
    assert Group(rows, b) == Group(rows[..|rows| - 1], b) + [rows[|rows| - 1]];
    WithLast(rows);
  }

  predicate FirstFiveMinutes(rows: seq<Row>) {
    |rows| == 5 && forall i | 0 <= i < 5 :: rows[i].time == i * MINUTE
  }

  lemma FiveMakeABar(five: seq<Row>)
    requires FirstFiveMinutes(five)
    ensures Closed1mRows(five, BUCKET) == five && Complete(five, 0)
  {
    FiveClosedTogether(five);
    CompleteExactly(five, 0);
    FiveCover(five);
  }

  lemma FiveClosedTogether(five: seq<Row>)
    requires FirstFiveMinutes(five)
    ensures Closed1mRows(five, BUCKET) == five && Group(five, 0) == five
  {
    AllClosed(five, BUCKET);
    OneBucket(five, 0);
  }

  lemma FiveCover(five: seq<Row>)
    requires FirstFiveMinutes(five)
    ensures CoversMinutes(five, 0)
  {
    forall k | 0 <= k < 5 ensures HasMinute(five, 0 + k * MINUTE) {
      assert five[k].time == k * MINUTE;
    }
  }

  lemma LateRowIsLate(rows: seq<Row>, late: Row)
    requires 4 * MINUTE < late.time < BUCKET
    ensures Closed1mRows(rows + [late], BUCKET) == Closed1mRows(rows, BUCKET)
    ensures LateRows(rows + [late], BUCKET, late.time + MINUTE, 0) > 0
  {
    var frame := rows + [late];
    assert frame[..|frame| - 1] == rows && frame[|frame| - 1] == late;
    assert BucketOf(late.time) == 0;
    assert Closed1mRows(rows, BUCKET) + [] == Closed1mRows(rows, BUCKET);
  }

  /** A row off the minute repaints: five aligned rows make a bar at minute five that the row takes back. */
  lemma UnalignedRowRepaints(five: seq<Row>, late: Row)
    requires FirstFiveMinutes(five) && 4 * MINUTE < late.time < BUCKET
    ensures !(Bars(five + [late], BUCKET) <= Bars(five + [late], late.time + MINUTE))
  {
    FiveMakeABar(five);
    LateRowIsLate(five, late);
    LateRowTakesBack(five + [late], five, BUCKET, late.time + MINUTE, 0);
  }

  lemma LateRowTakesBack(frame: seq<Row>, closed: seq<Row>, early: int, late: int, b: int)
    requires early <= late && closed == Closed1mRows(frame, early) && Complete(closed, b)
             && LateRows(frame, early, late, b) > 0
    ensures !(Bars(frame, early) <= Bars(frame, late))
  {
    PrefixExactly(frame, early, late);
  }

  /** Two frames that differ only in rows not closed yet. */
  predicate SameClosedRows(f: seq<Row>, g: seq<Row>, asof: int) {
    |f| == |g| && forall i | 0 <= i < |f| :: f[i] == g[i] || (!ClosedBy(f[i], asof) && !ClosedBy(g[i], asof))
  }

  lemma {:induction false} OpenRowsDoNotShow(f: seq<Row>, g: seq<Row>, asof: int)
    requires SameClosedRows(f, g, asof)
    ensures Closed1mRows(f, asof) == Closed1mRows(g, asof) && Bars(f, asof) == Bars(g, asof)
    decreases |f|
  {
    if f != [] {
      OpenRowsDoNotShow(f[..|f| - 1], g[..|g| - 1], asof);
    }
  }

  // ---------- Volume ----------

  function BarVolume(bars: seq<Bar>): real {
    if bars == [] then 0.0 else BarVolume(bars[..|bars| - 1]) + bars[|bars| - 1].volume
  }

  /** The volume of the rows whose bucket is among `starts`. */
  function VolumeWithin(rows: seq<Row>, starts: seq<int>): real {
    if rows == [] then 0.0
    else
      var r := rows[|rows| - 1];
      VolumeWithin(rows[..|rows| - 1], starts) + if BucketOf(r.time) in starts then r.volume else 0.0
  }

  lemma {:induction false} OneMoreGroup(rows: seq<Row>, starts: seq<int>, b: int)
    requires b !in starts
    ensures VolumeWithin(rows, starts + [b]) == VolumeWithin(rows, starts) + Volume(Group(rows, b))
  {
    if rows != [] {
      var n := |rows| - 1;
      OneMoreGroup(rows[..n], starts, b);
      var g := Group(rows[..n], b);
      if BucketOf(rows[n].time) == b {
        assert (g + [rows[n]])[..|g|] == g;
      } else {
        assert g + [] == g;
      }
    }
  }

  lemma {:induction false} NothingWithin(rows: seq<Row>)
    ensures VolumeWithin(rows, []) == 0.0
  {
    if rows != [] {
      NothingWithin(rows[..|rows| - 1]);
    }
  }

  lemma {:induction false} BarsCarryVolume(closed: seq<Row>, starts: seq<int>)
    requires Ascending(starts) && forall b | b in starts :: Complete(closed, b)
    ensures BarVolume(BarsAt(closed, starts)) == VolumeWithin(closed, starts)
    decreases |starts|
  {
    if starts == [] {
      NothingWithin(closed);
    } else {
      var n := |starts| - 1;
      var b, rest := starts[n], starts[..n];
      assert starts == rest + [b];
      BarsCarryVolume(closed, rest);
      OneMoreGroup(closed, rest, b);
      BarIsExact(closed, b);
      BarsAtSnoc(closed, rest, b);
      BarVolumeSnoc(BarsAt(closed, rest), BarOf(closed, b));
    }
  }

  lemma BarVolumeSnoc(bars: seq<Bar>, bar: Bar)
    ensures BarVolume(bars + [bar]) == BarVolume(bars) + bar.volume
  {
    assert (bars + [bar])[..|bars|] == bars;
  }

  /** The bars carry exactly the volume of the closed rows of complete buckets. */
  lemma VolumeIsConserved(frame: seq<Row>, asof: int)
    ensures BarVolume(Bars(frame, asof)) == VolumeWithin(Closed1mRows(frame, asof), Starts(Closed1mRows(frame, asof)))
  {
    OutputIsExact(frame, asof, 0);
    BarsCarryVolume(Closed1mRows(frame, asof), Starts(Closed1mRows(frame, asof)));
  }
}
