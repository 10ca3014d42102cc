/** The two cyclic selectors: `round_robin_slice` (app/market/shortlist.py) over an ordered universe and
    the fast monitor's `_select_fast_monitor_keys` (app/main.py).  Both walk the same circle. */
module RoundRobin {
  import opened Common

  function Span(n: nat, size: nat): nat { Min(size, n) }

  /** The positions one poll selects on a circle of `n`. */
  function Window(n: nat, cursor: int, size: nat): (w: seq<nat>)
    requires n > 0
    ensures |w| == Span(n, size) && forall o | 0 <= o < |w| :: w[o] < n
  {
    seq(Span(n, size), o requires 0 <= o < Span(n, size) => (cursor % n + o) % n)
  }

  function NextCursor(n: nat, cursor: int, size: nat): nat
    requires n > 0
  {
    (cursor % n + Span(n, size)) % n
  }

  function Pick<T>(keys: seq<T>, positions: seq<nat>): seq<T>
    requires forall i | 0 <= i < |positions| :: positions[i] < |keys|
  {
    seq(|positions|, i requires 0 <= i < |positions| => keys[positions[i]])
  }

  /** A slice of the ordered universe and the cursor of the next one. */
  function RoundRobinSlice<T>(ordered: seq<T>, cursor: int, batch: int): (seq<T>, nat) {
    if ordered == [] || batch <= 0 then ([], 0)
    else (Pick(ordered, Window(|ordered|, cursor, batch)), NextCursor(|ordered|, cursor, batch))
  }

  class FastMonitor {
    var cursor: int
    const maxActive: nat

    constructor (maxActive: nat)
      ensures cursor == 0 && this.maxActive == maxActive
    {
      cursor, this.maxActive := 0, maxActive;
    }

    /** Rotates the pool to the cursor, takes the head, and advances the cursor past it. */
    method SelectKeys<T>(keys: seq<T>) returns (selected: seq<T>)
      requires keys != []
      modifies this
      ensures selected == Pick(keys, Window(|keys|, old(cursor), maxActive))
      ensures cursor == NextCursor(|keys|, old(cursor), maxActive)
    {
      var start := cursor % |keys|;
      var ordered := keys[start..] + keys[..start];
      selected := ordered[..Min(maxActive, |ordered|)];
      cursor := (start + |selected|) % |keys|;
      forall o | 0 <= o < |selected| ensures selected[o] == keys[(start + o) % |keys|] {
        WrapOnce(start + o, |keys|);
      }
    }
  }

  // ---------- Modular arithmetic ----------

  lemma WrapOnce(x: nat, n: nat)
    requires n > 0 && x < 2 * n
    ensures x % n == if x < n then x else x - n
  {
    if x >= n {
      DivModUnique(x, n, 1, x - n);
    } else {
      DivModUnique(x, n, 0, x);
    }
  }

  lemma DivModUnique(x: int, n: nat, q: int, r: int)
    requires n > 0 && x == q * n + r && 0 <= r < n
    ensures x / n == q && x % n == r
  {
    var q', r' := x / n, x % n;
    assert x == q' * n + r';
    assert (q - q') * n == r' - r;
    if q > q' {
      MulLe(1, q - q', n);
    } else if q < q' {
      MulLe(1, q' - q, n);
    }
  }

  lemma MulLe(a: int, b: int, n: nat)
    requires a <= b
    ensures a * n <= b * n
  {
  }

  lemma ModAdd(a: int, b: int, n: nat)
    requires n > 0
    ensures (a % n + b) % n == (a + b) % n
  {
    var s := a % n + b;
    assert a == a / n * n + a % n && s == s / n * n + s % n;
    assert a + b == (a / n + s / n) * n + s % n;
    DivModUnique(a + b, n, a / n + s / n, s % n);
  }

  /** Stepping one further either stays in the row or starts the next. */
  lemma DivModSucc(x: nat, n: nat)
    requires n > 0
    ensures (x + 1) / n == x / n + (if x % n == n - 1 then 1 else 0)
    ensures (x + 1) % n == if x % n == n - 1 then 0 else x % n + 1
  {
    if x % n == n - 1 {
      assert x + 1 == (x / n + 1) * n + 0;
      DivModUnique(x + 1, n, x / n + 1, 0);
    } else {
      DivModUnique(x + 1, n, x / n, x % n + 1);
    }
  }

  /** A slice takes the symbols from the cursor on, round the end, and leaves the cursor behind the last one; without
      symbols or a positive batch it is empty and the cursor returns to the start. */
  lemma SliceIsExact<T>(ordered: seq<T>, cursor: int, batch: int)
    ensures var (slice, next) := RoundRobinSlice(ordered, cursor, batch);
            if |ordered| == 0 || batch <= 0 then |slice| == 0 && next == 0
            else
              && |slice| == (if batch < |ordered| then batch else |ordered|)
              && (forall o | 0 <= o < |slice| :: slice[o] == ordered[(cursor + o) % |ordered|])
              && next == (cursor + |slice|) % |ordered|
  {
    if ordered != [] && batch > 0 {
      var n := |ordered|;
      ModAdd(cursor, Span(n, batch), n);
      forall o: nat | o < Span(n, batch) ensures Window(n, cursor, batch)[o] == (cursor + o) % n {
        ModAdd(cursor, o, n);
      }
    }
  }

  // ---------- Consecutive polls ----------

  function CursorAfter(n: nat, cursor: int, size: nat, polls: nat): int
    requires n > 0
  {
    if polls == 0 then cursor else NextCursor(n, CursorAfter(n, cursor, size, polls - 1), size)
  }

  /** Everything that `polls` consecutive polls select, in order. */
  function Stream(n: nat, cursor: int, size: nat, polls: nat): (s: seq<nat>)
    requires n > 0
    ensures |s| == polls * Span(n, size)
  {
    if polls == 0 then []
    else Stream(n, cursor, size, polls - 1) + Window(n, CursorAfter(n, cursor, size, polls - 1), size)
  }

  lemma {:induction false} CursorMoves(n: nat, cursor: int, size: nat, polls: nat)
    requires n > 0
    ensures CursorAfter(n, cursor, size, polls) % n == (cursor + polls * Span(n, size)) % n
  {
    if polls > 0 {
      var s, c := Span(n, size), CursorAfter(n, cursor, size, polls - 1);
      CursorMoves(n, cursor, size, polls - 1);
      ModAdd(c, s, n);
      ModAdd(cursor + (polls - 1) * s, s, n);
      assert cursor + (polls - 1) * s + s == cursor + polls * s;
      WrapOnce(CursorAfter(n, cursor, size, polls), n);
    }
  }

  /** Consecutive polls read off the circle without gap or overlap. */
  lemma {:induction false} StreamIsCircle(n: nat, cursor: int, size: nat, polls: nat, t: nat)
    requires n > 0 && t < polls * Span(n, size)
    ensures Stream(n, cursor, size, polls)[t] == (cursor + t) % n
  {
    var s := Span(n, size);
    var head := (polls - 1) * s;
    assert polls * s == head + s;
    if t < head {
      StreamIsCircle(n, cursor, size, polls - 1, t);
    } else {
      CursorMoves(n, cursor, size, polls - 1);
      var c := CursorAfter(n, cursor, size, polls - 1);
      ModAdd(cursor + head, t - head, n);
      assert cursor + head + (t - head) == cursor + t;
    }
  }

  function Count(s: seq<nat>, d: nat): nat {
    if s == [] then 0 else Count(s[..|s| - 1], d) + if s[|s| - 1] == d then 1 else 0
  }

  lemma SameResidue(cursor: int, x: nat, d: nat, n: nat)
    requires n > 0 && d < n
    ensures (cursor + x) % n == d <==> x % n == (d - cursor) % n
  {
    var e := (d - cursor) % n;
    if (cursor + x) % n == d {
      assert x == (cursor + x) / n * n + (d - cursor);
      assert d - cursor == (d - cursor) / n * n + e;
      assert x == ((cursor + x) / n + (d - cursor) / n) * n + e;
      DivModUnique(x, n, (cursor + x) / n + (d - cursor) / n, e);
    }
    if x % n == e {
      assert d - cursor == (d - cursor) / n * n + e;
      assert cursor + x == (x / n - (d - cursor) / n) * n + d;
      DivModUnique(cursor + x, n, x / n - (d - cursor) / n, d);
    }
  }

  /** How often the first `len` steps around the circle meet position `d`, in closed form. */
  lemma {:induction false} CountOnCircle(s: seq<nat>, n: nat, cursor: int, d: nat)
    requires n > 0 && d < n && forall t | 0 <= t < |s| :: s[t] == (cursor + t) % n
    ensures Count(s, d) == |s| / n + if |s| % n > (d - cursor) % n then 1 else 0
    decreases |s|
  {
    if s == [] {
      DivModUnique(0, n, 0, 0);
    } else {
      var len := |s| - 1;
      CountOnCircle(s[..len], n, cursor, d);
      SameResidue(cursor, len, d, n);
      DivModSucc(len, n);
    }
  }

  function CeilDiv(x: nat, n: nat): nat
    requires n > 0
  {
    x / n + if x % n == 0 then 0 else 1
  }

  /** Over any number of consecutive polls, from any cursor, every key is selected the same number of
      times up to one: the floor or the ceiling of polls times span over n. */
  lemma PollsAreBalanced(n: nat, cursor: int, size: nat, polls: nat, d: nat)
    requires n > 0 && d < n
    ensures var total := polls * Span(n, size);
            total / n <= Count(Stream(n, cursor, size, polls), d) <= CeilDiv(total, n)
  {
    var s := Stream(n, cursor, size, polls);
    forall t | 0 <= t < |s| ensures s[t] == (cursor + t) % n {
      StreamIsCircle(n, cursor, size, polls, t);
    }
    CountOnCircle(s, n, cursor, d);
  }

  /** One poll never selects a key twice. */
  lemma PollIsDistinct(n: nat, cursor: int, size: nat, a: nat, b: nat)
    requires n > 0 && a < b < Span(n, size)
    ensures Window(n, cursor, size)[a] != Window(n, cursor, size)[b]
  {
    WrapOnce(cursor % n + a, n);
    WrapOnce(cursor % n + b, n);
  }

  // ---------- Coverage ----------

  function Covered(s: seq<nat>): set<nat> { set d | d in s }

  /** The first steps around the circle meet a new position each, until all are met. */
  lemma {:induction false} CoverageGrows(s: seq<nat>, n: nat, cursor: int)
    requires n > 0 && forall t | 0 <= t < |s| :: s[t] == (cursor + t) % n
    ensures |Covered(s)| == Min(|s|, n)
    decreases |s|
  {
    if s != [] {
      var len := |s| - 1;
      CoverageGrows(s[..len], n, cursor);
      assert s == s[..len] + [s[len]];
      assert Covered(s) == Covered(s[..len]) + {s[len]};
      if len < n {
        forall t | 0 <= t < len ensures s[t] != s[len] {
          DistinctOnCircle(cursor, t, len, n);
        }
      } else {
        AllCovered(s[..len], n, cursor, s[len]);
      }
    }
  }

  lemma DistinctOnCircle(cursor: int, a: nat, b: nat, n: nat)
    requires a < b < n
    ensures (cursor + a) % n != (cursor + b) % n
  {
    ModAdd(cursor, a, n);
    ModAdd(cursor, b, n);
    WrapOnce(cursor % n + a, n);
    WrapOnce(cursor % n + b, n);
  }

  lemma AllCovered(s: seq<nat>, n: nat, cursor: int, d: nat)
    requires n > 0 && d < n && |s| >= n && forall t | 0 <= t < |s| :: s[t] == (cursor + t) % n
    ensures d in Covered(s)
  {
    var t := (d - cursor) % n;
    DivModUnique(t, n, 0, t);
    SameResidue(cursor, t, d, n);
    assert s[t] == d;
  }

  /** Polls cover min(polls * span, n) keys; so they cover all n from the ceil(n / span)-th poll on and
      not before. */
  lemma PollsCover(n: nat, cursor: int, size: nat, polls: nat)
    requires n > 0 && size > 0
    ensures |Covered(Stream(n, cursor, size, polls))| == Min(polls * Span(n, size), n)
    ensures |Covered(Stream(n, cursor, size, polls))| == n <==> polls >= CeilDiv(n, Span(n, size))
  {
    var s := Stream(n, cursor, size, polls);
    forall t | 0 <= t < |s| ensures s[t] == (cursor + t) % n {
      StreamIsCircle(n, cursor, size, polls, t);
    }
    CoverageGrows(s, n, cursor);
    CeilDivExact(n, Span(n, size), polls);
  }

  lemma CeilDivExact(x: nat, d: nat, k: nat)
    requires d > 0
    ensures k * d >= x <==> k >= CeilDiv(x, d)
  {
    var q, r := x / d, x % d;
    assert x == q * d + r;
    if k >= CeilDiv(x, d) {
      MulLe(CeilDiv(x, d), k, d);
    } else {
      MulLe(k, CeilDiv(x, d) - 1, d);
    }
  }
}
