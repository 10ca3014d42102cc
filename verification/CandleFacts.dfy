/** The five-minute bars as properties of the one-minute frame, by its positions and in milliseconds, stated without
    the functions that compute them. */
module CandleFacts {
  import opened Common
  import opened Candles

  /** Row `i` has closed by `asof` and lies in the five minutes from `b`. */
  predicate Inside(frame: seq<Row>, asof: int, b: int, i: nat)
    requires i < |frame|
  {
    frame[i].time + 60000 <= asof && b <= frame[i].time && frame[i].time < b + 300000
  }

  function Insiders(frame: seq<Row>, asof: int, b: int): set<nat> {
    set i: nat | i < |frame| && Inside(frame, asof, b, i)
  }

  /** `b` is a whole five minutes, five closed rows lie inside, and these are one at each minute. */
  predicate FiveInside(frame: seq<Row>, asof: int, b: int) {
    && b % 300000 == 0 && |Insiders(frame, asof, b)| == 5
    && forall k | 0 <= k < 5 :: exists i :: i in Insiders(frame, asof, b) && frame[i].time == b + k * 60000
  }

  lemma InsideIsBucket(t: int, b: int)
    requires b % 300000 == 0
    ensures BucketOf(t) == b <==> b <= t && t < b + 300000
  {
  }

  lemma BucketIsWhole(t: int)
    ensures BucketOf(t) % 300000 == 0
  {
  }

  /** A bucket holds as many rows as there are positions inside. */
  lemma {:induction false} GroupCounts(frame: seq<Row>, asof: int, b: int)
    requires b % 300000 == 0
    ensures |Group(Closed1mRows(frame, asof), b)| == |Insiders(frame, asof, b)|
  {
    if frame == [] {
      assert Insiders(frame, asof, b) == {};
    } else {
      var n := |frame| - 1;
      GroupCounts(frame[..n], asof, b);
      InsideIsBucket(frame[n].time, b);
      OneMoreInside(frame, asof, b);
      if ClosedBy(frame[n], asof) {
        GroupSnoc(Closed1mRows(frame[..n], asof), frame[n], b);
      } else {
        assert Closed1mRows(frame[..n], asof) + [] == Closed1mRows(frame[..n], asof);
      }
    }
  }

  lemma OneMoreInside(frame: seq<Row>, asof: int, b: int)
    requires frame != []
    ensures var n := |frame| - 1;
            |Insiders(frame, asof, b)| == |Insiders(frame[..n], asof, b)| + if Inside(frame, asof, b, n) then 1 else 0
  {
    var n := |frame| - 1;
    OneMore(Insiders(frame[..n], asof, b), Insiders(frame, asof, b), n, Inside(frame, asof, b, n));
  }

  lemma PositionOf(frame: seq<Row>, asof: int, b: int, r: Row) returns (i: nat)
    requires b % 300000 == 0 && r in Group(Closed1mRows(frame, asof), b)
    ensures i in Insiders(frame, asof, b) && frame[i] == r
  {
    InsideIsBucket(r.time, b);
    i :| 0 <= i < |frame| && frame[i] == r;
  }

  lemma InGroup(frame: seq<Row>, asof: int, b: int, i: nat)
    requires b % 300000 == 0 && i in Insiders(frame, asof, b)
    ensures frame[i] in Group(Closed1mRows(frame, asof), b)
  {
    InsideIsBucket(frame[i].time, b);
  }

  lemma HasMinuteExactly(frame: seq<Row>, asof: int, b: int, k: nat)
    requires b % 300000 == 0 && k < 5
    ensures HasMinute(Group(Closed1mRows(frame, asof), b), b + k * 60000)
       <==> exists i :: i in Insiders(frame, asof, b) && frame[i].time == b + k * 60000
  {
    var group := Group(Closed1mRows(frame, asof), b);
    if HasMinute(group, b + k * 60000) {
      var j :| 0 <= j < |group| && group[j].time == b + k * 60000;
      var i := PositionOf(frame, asof, b, group[j]);
    }
    if i :| i in Insiders(frame, asof, b) && frame[i].time == b + k * 60000 {
      InGroup(frame, asof, b, i);
    }
  }

  /** A bucket is complete if and only if five closed rows lie inside, one at each minute. */
  lemma CompleteInPlaces(frame: seq<Row>, asof: int, b: int)
    ensures Complete(Closed1mRows(frame, asof), b) <==> FiveInside(frame, asof, b)
  {
    var closed := Closed1mRows(frame, asof);
    CompleteExactly(closed, b);
    if b % 300000 == 0 {
      GroupCounts(frame, asof, b);
      forall k: nat | k < 5
        ensures HasMinute(Group(closed, b), b + k * 60000)
           <==> exists i :: i in Insiders(frame, asof, b) && frame[i].time == b + k * 60000
      {
        HasMinuteExactly(frame, asof, b, k);
      }
    } else if Group(closed, b) != [] {
      BucketIsWhole(Group(closed, b)[0].time);
    }
  }

  /** Its bar takes its times, prices and sums from the five rows at these positions. */
  predicate ReadsFrom(bar: Bar, frame: seq<Row>, b: int, p: seq<nat>)
    requires |p| == 5 && forall k | 0 <= k < 5 :: p[k] < |frame|
  {
    && bar.time == b + 300000 && bar.open == frame[p[0]].open && bar.close == frame[p[4]].close
    && (forall k | 0 <= k < 5 :: frame[p[k]].low >= bar.low && bar.high >= frame[p[k]].high)
    && (exists k | 0 <= k < 5 :: bar.high == frame[p[k]].high) && (exists k | 0 <= k < 5 :: bar.low == frame[p[k]].low)
    && bar.volume == frame[p[0]].volume + frame[p[1]].volume + frame[p[2]].volume + frame[p[3]].volume
                     + frame[p[4]].volume
    && bar.turnover == frame[p[0]].turnover + frame[p[1]].turnover + frame[p[2]].turnover + frame[p[3]].turnover
                       + frame[p[4]].turnover
  }

  lemma BarReads(frame: seq<Row>, asof: int, b: int, p: seq<nat>)
    requires |p| == 5 && FiveInside(frame, asof, b)
    requires forall k | 0 <= k < 5 :: p[k] in Insiders(frame, asof, b) && frame[p[k]].time == b + k * 60000
    ensures Complete(Closed1mRows(frame, asof), b)
    ensures ReadsFrom(BarOf(Closed1mRows(frame, asof), b), frame, b, p)
  {
    var group := Group(Closed1mRows(frame, asof), b);
    CompleteInPlaces(frame, asof, b);
    forall k: nat | k < 5 ensures frame[p[k]] in group {
      InGroup(frame, asof, b, p[k]);
    }
    GroupReads(SortRows(group), group, frame, b, p);
  }

  lemma GroupReads(s: seq<Row>, group: seq<Row>, frame: seq<Row>, b: int, p: seq<nat>)
    requires IsFull(s, b) && multiset(s) == multiset(group) && |p| == 5
    requires forall k | 0 <= k < 5 :: p[k] < |frame| && frame[p[k]] in group && frame[p[k]].time == b + k * 60000
    ensures ReadsFrom(Aggregate(s, b), frame, b, p)
  {
    forall k: nat | k < 5 ensures s[k] == frame[p[k]] {
      RowAtMinute(s, group, b, k, frame[p[k]]);
    }
    SpanOfFive(s, b);
    AggregateReads(s, frame, b, p);
  }

  lemma AggregateReads(s: seq<Row>, frame: seq<Row>, b: int, p: seq<nat>)
    requires |p| == |s| == 5 && forall k | 0 <= k < 5 :: p[k] < |frame| && s[k] == frame[p[k]]
    requires IsHighOf(Aggregate(s, b).high, s) && IsLowOf(Aggregate(s, b).low, s)
    ensures ReadsFrom(Aggregate(s, b), frame, b, p)
  {
  }

  /** The output lists, in ascending time, one bar for each five minutes with five such rows, and nothing else. */
  lemma BarsAreExact(frame: seq<Row>, asof: int, b: int)
    ensures var bars, starts := Bars(frame, asof), Starts(Closed1mRows(frame, asof));
            && |bars| == |starts|
            && (forall i | 0 <= i < |bars| ::
                  bars[i].time == starts[i] + 300000
                  && FiveInside(frame, asof, starts[i]) && bars[i] == BarOf(Closed1mRows(frame, asof), starts[i]))
            && (forall i, j | 0 <= i < j < |bars| :: bars[i].time < bars[j].time)
            && (FiveInside(frame, asof, b) ==> exists i | 0 <= i < |bars| :: bars[i].time == b + 300000)
  {
    var closed := Closed1mRows(frame, asof);
    OutputIsExact(frame, asof, b);
    CompleteInPlaces(frame, asof, b);
    var bars, starts := Bars(frame, asof), Starts(closed);
    forall i | 0 <= i < |starts| ensures FiveInside(frame, asof, starts[i]) && bars[i].time == starts[i] + 300000 {
      assert starts[i] in starts;
      OutputIsExact(frame, asof, starts[i]);
      CompleteInPlaces(frame, asof, starts[i]);
    }
    if FiveInside(frame, asof, b) {
      var i :| 0 <= i < |starts| && starts[i] == b;
      assert bars[i].time == b + 300000;
    }
  }
}
