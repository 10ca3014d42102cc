/** The total order in which the outcome queue is read, and the sorted list of a finite set under it. */
module DueOrder {
  import opened Common

  /** ORDER BY at, observed_at, id. */
  datatype Slot = Slot(at: int, observedAt: int, id: int)

  predicate Less(a: Slot, b: Slot) {
    a.at < b.at || (a.at == b.at && (a.observedAt < b.observedAt || (a.observedAt == b.observedAt && a.id < b.id)))
  }

  predicate IsFirst(m: Slot, slots: set<Slot>) {
    m in slots && forall y | y in slots :: y == m || Less(m, y)
  }

  lemma {:induction false} FirstExists(slots: set<Slot>)
    requires slots != {}
    ensures exists m :: IsFirst(m, slots)
    decreases |slots|
  {
    var x :| x in slots;
    var rest := slots - {x};
    if rest == {} {
      assert slots == {x};
      assert IsFirst(x, slots);
    } else {
      FirstExists(rest);
      var m :| IsFirst(m, rest);
      var least := if Less(x, m) then x else m;
      forall y | y in slots ensures y == least || Less(least, y) {
        assert y == x || y in rest;
      }
      assert IsFirst(least, slots);
    }
  }

  function First(slots: set<Slot>): (m: Slot)
    requires slots != {}
    ensures IsFirst(m, slots)
  {
    FirstExists(slots);
    var m :| IsFirst(m, slots);
    m
  }

  function SetOf<T(==)>(s: seq<T>): set<T> { set y | y in s }

  lemma SetOfCons<T>(x: T, s: seq<T>)
    ensures SetOf([x] + s) == {x} + SetOf(s)
  {
  }

  function Sorted(slots: set<Slot>): (order: seq<Slot>)
    ensures |order| == |slots| && SetOf(order) == slots
    decreases |slots|
  {
    if slots == {} then []
    else
      var m := First(slots);
      var rest := Sorted(slots - {m});
      SetOfCons(m, rest);
      [m] + rest
  }

  /** The list is strictly ascending, so it is the order the query asks for. */
  lemma {:induction false} SortedAscends(slots: set<Slot>, i: nat, j: nat)
    requires i < j < |slots|
    ensures Less(Sorted(slots)[i], Sorted(slots)[j])
    decreases |slots|
  {
    var m := First(slots);
    var rest := Sorted(slots - {m});
    if i == 0 {
      assert rest[j - 1] in SetOf(rest);
    } else {
      SortedAscends(slots - {m}, i - 1, j - 1);
    }
  }

  /** Removing the head of the list leaves its tail. */
  lemma {:induction false} SortedDrop(slots: set<Slot>, k: nat)
    requires k <= |slots|
    ensures Sorted(slots - SetOf(Sorted(slots)[..k])) == Sorted(slots)[k..]
    decreases k
  {
    if k == 0 {
      assert Sorted(slots)[..0] == [];
      assert slots - SetOf(Sorted(slots)[..0]) == slots;
    } else {
      var m := First(slots);
      SortedDrop(slots - {m}, k - 1);
      SortedTail(slots, m, k);
    }
  }

  lemma ConsSlices<T>(x: T, s: seq<T>, k: nat)
    requires 0 < k <= |s| + 1
    ensures ([x] + s)[..k] == [x] + s[..k - 1]
    ensures ([x] + s)[k..] == s[k - 1..]
  {
  }

  lemma SortedTail(slots: set<Slot>, m: Slot, k: nat)
    requires slots != {} && m == First(slots) && 0 < k <= |slots|
    ensures slots - SetOf(Sorted(slots)[..k]) == (slots - {m}) - SetOf(Sorted(slots - {m})[..k - 1])
    ensures Sorted(slots)[k..] == Sorted(slots - {m})[k - 1..]
  {
    var rest := Sorted(slots - {m});
    ConsSlices(m, rest, k);
    SetOfCons(m, rest[..k - 1]);
    WithoutBoth(slots, m, SetOf(rest[..k - 1]));
  }

  lemma WithoutBoth<T>(all: set<T>, x: T, others: set<T>)
    ensures all - ({x} + others) == (all - {x}) - others
  {
  }

  function Ahead(slots: set<Slot>, x: Slot): set<Slot> {
    set y | y in slots && Less(y, x)
  }

  function Head(slots: set<Slot>, k: nat): (head: seq<Slot>)
    ensures |head| == Min(k, |slots|) && SetOf(head) <= slots
  {
    var head := Sorted(slots)[..Min(k, |slots|)];
    assert forall y | y in head :: y in SetOf(Sorted(slots));
    head
  }

  /** A slot is among the first `k` exactly when fewer than `k` slots come before it. */
  lemma {:induction false} RankIsPosition(slots: set<Slot>, x: Slot, k: nat)
    requires x in slots
    ensures x in Head(slots, k) <==> |Ahead(slots, x)| < k
    decreases |slots|
  {
    if k > 0 {
      var m := First(slots);
      assert Head(slots, k) == [m] + Head(slots - {m}, k - 1);
      if x == m {
        assert Ahead(slots, x) == {};
      } else {
        RankIsPosition(slots - {m}, x, k - 1);
        assert Ahead(slots, x) == Ahead(slots - {m}, x) + {m};
      }
    }
  }

  lemma HeadSize(slots: set<Slot>, k: nat)
    ensures |SetOf(Head(slots, k))| == Min(k, |slots|)
  {
    forall i, j | 0 <= i < j < |Head(slots, k)| ensures Head(slots, k)[i] != Head(slots, k)[j] {
      SortedAscends(slots, i, j);
    }
    DistinctSize(Head(slots, k));
  }

  lemma {:induction false} DistinctSize<T>(s: seq<T>)
    requires forall i, j | 0 <= i < j < |s| :: s[i] != s[j]
    ensures |SetOf(s)| == |s|
  {
    if s != [] {
      DistinctSize(s[..|s| - 1]);
      assert SetOf(s) == SetOf(s[..|s| - 1]) + {s[|s| - 1]};
    }
  }

  /** Everything in the head comes before anything that the head leaves out. */
  lemma HeadIsAhead(slots: set<Slot>, k: nat, x: Slot)
    requires x in slots && x !in Head(slots, k)
    ensures SetOf(Head(slots, k)) <= Ahead(slots, x)
    ensures |SetOf(Head(slots, k))| == k
  {
    RankIsPosition(slots, x, k);
    forall y | y in Head(slots, k) ensures Less(y, x) {
      assert y in SetOf(Head(slots, k));
      RankIsPosition(slots, y, k);
      if !Less(y, x) {
        assert Ahead(slots, x) <= Ahead(slots, y);
        SubsetSizes(Ahead(slots, x), Ahead(slots, y));
      }
    }
    SubsetSizes(Ahead(slots, x), slots);
    HeadSize(slots, k);
  }
}
