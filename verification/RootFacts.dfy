/** The stored root event and the lifecycle, column by column: which sighting each column comes from, and what one
    observation does, stated without the functions that compute it. */
module RootFacts {
  import opened Common
  import opened RootEvents

  // ---------- The stored root over all its sightings ----------

  datatype Call = Call(id: RootId, sighting: Sighting)

  function UpsertAll(roots: map<RootId, RootEvent>, calls: seq<Call>): map<RootId, RootEvent> {
    if calls == [] then roots
    else
      var last := calls[|calls| - 1];
      Upsert(UpsertAll(roots, calls[..|calls| - 1]), last.id, last.sighting)
  }

  /** The sightings of one root, in order. */
  function SightingsOf(calls: seq<Call>, id: RootId): seq<Sighting> {
    if calls == [] then []
    else
      var earlier := SightingsOf(calls[..|calls| - 1], id);
      if calls[|calls| - 1].id == id then earlier + [calls[|calls| - 1].sighting] else earlier
  }

  /** Sighting `i` offers a high above every high offered before it. */
  predicate Tops(ss: seq<Sighting>, i: nat)
    requires i < |ss|
  {
    ss[i].high.Some? && forall j | 0 <= j < i :: ss[j].high == None || ss[j].high.value < ss[i].high.value
  }

  /** The sightings after the first one that set a new high. */
  function NewHighs(ss: seq<Sighting>): set<nat> {
    set i: nat | 0 < i < |ss| && Tops(ss, i)
  }

  /** The peak and its time are those of sighting `k`, and no high is above it; nothing earlier is as high. */
  predicate PeakFrom(r: RootEvent, ss: seq<Sighting>, k: nat)
    requires k < |ss|
  {
    && r.peakHigh == ss[k].high && r.peakHighAt == ss[k].highAt
    && if ss[k].high == None then k == 0 && forall j | 0 <= j < |ss| :: ss[j].high == None
       else && Tops(ss, k)
            && forall j | k < j < |ss| :: ss[j].high == None || ss[j].high.value <= ss[k].high.value
  }

  /** The extension, its source and its time are those of the first sighting that offered one; if none did, there is
      none, and the source is what the first sighting named. */
  predicate ExtensionFrom(r: RootEvent, ss: seq<Sighting>) {
    if forall j | 0 <= j < |ss| :: ss[j].extension == None then
      ss != [] && r.extension == None && r.extensionAt == None && r.extensionSource == ss[0].source
    else
      exists k | 0 <= k < |ss| :: IsFirstOffer(r, ss, k)
  }

  predicate IsFirstOffer(r: RootEvent, ss: seq<Sighting>, k: nat)
    requires k < |ss|
  {
    && ss[k].extension.Some? && (forall j | 0 <= j < k :: ss[j].extension == None)
    && r.extension == ss[k].extension && r.extensionSource == ss[k].source && r.extensionAt == Some(ss[k].at)
  }

  predicate IdentityFrom(r: RootEvent, ss: seq<Sighting>) {
    && ss != [] && r.symbol == ss[0].symbol && r.startedAt == ss[0].startedAt && r.basePrice == ss[0].basePrice
    && r.lastObservedAt == ss[|ss| - 1].at
  }

  predicate ComesFrom(r: RootEvent, ss: seq<Sighting>) {
    && IdentityFrom(r, ss)
    && r.revision == 1 + |NewHighs(ss)|
    && (exists k | 0 <= k < |ss| :: PeakFrom(r, ss, k))
    && ExtensionFrom(r, ss)
  }

  lemma FirstComesFrom(s: Sighting)
    ensures ComesFrom(NewRoot(s), [s])
  {
    var r, ss := NewRoot(s), [s];
    assert NewHighs(ss) == {};
    assert PeakFrom(r, ss, 0);
    assert s.extension.Some? ==> IsFirstOffer(r, ss, 0);
    assert s.extension == None ==> forall j | 0 <= j < |ss| :: ss[j].extension == None;
    assert s.extension.Some? ==> ss[0].extension.Some?;
  }

  lemma EarlierTops(ss: seq<Sighting>, s: Sighting, i: nat)
    requires i < |ss|
    ensures Tops(ss + [s], i) <==> Tops(ss, i)
  {
    assert forall j | 0 <= j <= i :: (ss + [s])[j] == ss[j];
  }

  /** The newest sighting tops the rest if and only if it is above the peak. */
  lemma TopsPeak(r: RootEvent, ss: seq<Sighting>, s: Sighting, k: nat)
    requires k < |ss| && PeakFrom(r, ss, k)
    ensures Tops(ss + [s], |ss|) <==> s.high.Some? && (r.peakHigh == None || s.high.value > r.peakHigh.value)
  {
    var all := ss + [s];
    assert forall j | 0 <= j < |ss| :: all[j] == ss[j];
    if Tops(all, |ss|) {
      assert all[k].high == None || all[k].high.value < s.high.value;
    }
  }

  lemma PeakSnoc(r: RootEvent, ss: seq<Sighting>, s: Sighting, k: nat)
    requires k < |ss| && PeakFrom(r, ss, k)
    ensures PeakFrom(Seen(r, s), ss + [s], if Tops(ss + [s], |ss|) then |ss| else k)
  {
    TopsPeak(r, ss, s, k);
    EarlierTops(ss, s, k);
    assert forall j | 0 <= j < |ss| :: (ss + [s])[j] == ss[j];
  }

  lemma NewHighsSnoc(ss: seq<Sighting>, s: Sighting)
    requires ss != []
    ensures |NewHighs(ss + [s])| == |NewHighs(ss)| + if Tops(ss + [s], |ss|) then 1 else 0
  {
    forall i: nat ensures i in NewHighs(ss + [s]) <==> i in NewHighs(ss) || (Tops(ss + [s], |ss|) && i == |ss|) {
      if i < |ss| {
        EarlierTops(ss, s, i);
      }
    }
    OneMore(NewHighs(ss), NewHighs(ss + [s]), |ss|, Tops(ss + [s], |ss|));
  }

  lemma ExtensionSnoc(r: RootEvent, ss: seq<Sighting>, s: Sighting)
    requires ss != [] && ExtensionFrom(r, ss)
    ensures ExtensionFrom(Seen(r, s), ss + [s])
  {
    var all, after := ss + [s], Seen(r, s);
    assert forall j | 0 <= j < |ss| :: all[j] == ss[j];
    if forall j | 0 <= j < |ss| :: ss[j].extension == None {
      if s.extension.Some? {
        assert IsFirstOffer(after, all, |ss|);
      }
    } else {
      var k :| 0 <= k < |ss| && IsFirstOffer(r, ss, k);
      assert IsFirstOffer(after, all, k);
    }
  }

  lemma NextComesFrom(r: RootEvent, ss: seq<Sighting>, s: Sighting)
    requires ComesFrom(r, ss)
    ensures ComesFrom(Seen(r, s), ss + [s])
  {
    var k :| 0 <= k < |ss| && PeakFrom(r, ss, k);
    CountsSnoc(r, ss, s, k);
    PeakSnoc(r, ss, s, k);
    ExtensionSnoc(r, ss, s);
    IdentitySnoc(r, ss, s);
  }

  lemma IdentitySnoc(r: RootEvent, ss: seq<Sighting>, s: Sighting)
    requires IdentityFrom(r, ss)
    ensures IdentityFrom(Seen(r, s), ss + [s])
  {
  }

  lemma CountsSnoc(r: RootEvent, ss: seq<Sighting>, s: Sighting, k: nat)
    requires k < |ss| && PeakFrom(r, ss, k) && r.revision == 1 + |NewHighs(ss)|
    ensures Seen(r, s).revision == 1 + |NewHighs(ss + [s])|
  {
    TopsPeak(r, ss, s, k);
    NewHighsSnoc(ss, s);
  }

  /** After any calls on a repository that did not know the root, the root is stored if and only if it was sighted.  Its
      symbol, start and base are the first sighting's; its peak and the peak's time come from the first sighting of the
      greatest high; its revision is one plus the new highs after the first sighting; its extension, source and time
      come from the first sighting that offered one, the creating one included. */
  lemma {:induction false} RootComesFromSightings(roots: map<RootId, RootEvent>, calls: seq<Call>, id: RootId)
    requires id !in roots
    ensures id in UpsertAll(roots, calls) <==> SightingsOf(calls, id) != []
    ensures id in UpsertAll(roots, calls) ==> ComesFrom(UpsertAll(roots, calls)[id], SightingsOf(calls, id))
  {
    if calls != [] {
      var n := |calls| - 1;
      RootComesFromSightings(roots, calls[..n], id);
      var before, s := UpsertAll(roots, calls[..n]), calls[n].sighting;
      if calls[n].id == id && id in before {
        NextComesFrom(before[id], SightingsOf(calls[..n], id), s);
      } else if calls[n].id == id {
        FirstComesFrom(s);
        assert SightingsOf(calls, id) == [s];
      }
    }
  }

  /** A stored root that is not sighted again stays as it is. */
  lemma {:induction false} OtherRootsStay(roots: map<RootId, RootEvent>, calls: seq<Call>, id: RootId)
    requires id in roots && SightingsOf(calls, id) == []
    ensures id in UpsertAll(roots, calls) && UpsertAll(roots, calls)[id] == roots[id]
  {
    if calls != [] {
      OtherRootsStay(roots, calls[..|calls| - 1], id);
    }
  }

  // ---------- One observation of the lifecycle ----------

  /** The order in which vetoes are listed. */
  function Rank(v: Veto): nat {
    match v
    case RootLifetimeExpired => 0
    case InsufficientClosedCandles => 1
    case ConfirmationWindowOpen => 2
    case PriceAccelerationResumed => 3
    case ActiveShortSqueeze => 4
    case OiContinuation => 5
    case RejectionMissing => 6
    case LiquidityNotConfirmed => 7
    case EntryDistanceNotConfirmed => 8
  }

  predicate InOrder(vetoes: seq<Veto>) {
    forall i, j | 0 <= i < j < |vetoes| :: Rank(vetoes[i]) < Rank(vetoes[j])
  }

  /** The condition of each veto of a living root. */
  predicate Applies(l: Lifecycle, o: Observation, c: Config, v: Veto) {
    match v
    case RootLifetimeExpired => false
    case InsufficientClosedCandles => o.closedCandles < c.minClosedCandles
    case ConfirmationWindowOpen => o.at - l.confirmationStartedAt < c.windowMinutes * 60_000_000
    case PriceAccelerationResumed => o.accelerating
    case ActiveShortSqueeze => o.squeeze
    case OiContinuation => o.oiContinuation
    case RejectionMissing => !o.rejectionOk
    case LiquidityNotConfirmed => !o.liquidityOk
    case EntryDistanceNotConfirmed => !o.distanceOk
  }

  /** Of the vetoes up to rank `n`, exactly those whose condition holds are listed, in order and once. */
  ghost predicate ListedUpTo(l: Lifecycle, o: Observation, c: Config, vetoes: seq<Veto>, n: nat) {
    InOrder(vetoes) && forall v :: v in vetoes <==> Rank(v) <= n && Applies(l, o, c, v)
  }

  lemma AlsoListed(l: Lifecycle, o: Observation, c: Config, vetoes: seq<Veto>, b: bool, v: Veto)
    returns (after: seq<Veto>)
    requires Rank(v) > 0 && ListedUpTo(l, o, c, vetoes, Rank(v) - 1) && (b <==> Applies(l, o, c, v))
    ensures after == Also(vetoes, b, v) && ListedUpTo(l, o, c, after, Rank(v))
  {
    after := Also(vetoes, b, v);
    forall w ensures w in after <==> Rank(w) <= Rank(v) && Applies(l, o, c, w) {
      assert w in after <==> w in vetoes || (b && w == v);
      assert Rank(w) == Rank(v) ==> w == v;
    }
    assert forall i | 0 <= i < |vetoes| :: after[i] == vetoes[i] && vetoes[i] in vetoes;
  }

  lemma FirstHalf(l: Lifecycle, o: Observation, c: Config) returns (v4: seq<Veto>)
    ensures var v1 := Also([], o.closedCandles < c.minClosedCandles, InsufficientClosedCandles);
            var v2 := Also(v1, !WindowElapsed(l.confirmationStartedAt, o.at, c), ConfirmationWindowOpen);
            v4 == Also(Also(v2, o.accelerating, PriceAccelerationResumed), o.squeeze, ActiveShortSqueeze)
    ensures ListedUpTo(l, o, c, v4, 4)
  {
    NoneListed(l, o, c);
    v4 := AlsoListed(l, o, c, [], o.closedCandles < c.minClosedCandles, InsufficientClosedCandles);
    v4 := AlsoListed(l, o, c, v4, !WindowElapsed(l.confirmationStartedAt, o.at, c), ConfirmationWindowOpen);
    v4 := AlsoListed(l, o, c, v4, o.accelerating, PriceAccelerationResumed);
    v4 := AlsoListed(l, o, c, v4, o.squeeze, ActiveShortSqueeze);
  }

  lemma SecondHalf(l: Lifecycle, o: Observation, c: Config, v4: seq<Veto>) returns (v8: seq<Veto>)
    requires ListedUpTo(l, o, c, v4, 4)
    ensures var v6 := Also(Also(v4, o.oiContinuation, OiContinuation), !o.rejectionOk, RejectionMissing);
            v8 == Also(Also(v6, !o.liquidityOk, LiquidityNotConfirmed), !o.distanceOk, EntryDistanceNotConfirmed)
    ensures ListedUpTo(l, o, c, v8, 8)
  {
    v8 := AlsoListed(l, o, c, v4, o.oiContinuation, OiContinuation);
    v8 := AlsoListed(l, o, c, v8, !o.rejectionOk, RejectionMissing);
    v8 := AlsoListed(l, o, c, v8, !o.liquidityOk, LiquidityNotConfirmed);
    v8 := AlsoListed(l, o, c, v8, !o.distanceOk, EntryDistanceNotConfirmed);
  }

  lemma NoneListed(l: Lifecycle, o: Observation, c: Config)
    ensures ListedUpTo(l, o, c, [], 0)
  {
  }

  /** A veto is listed if and only if its condition holds, in this order and once. */
  lemma VetoesAreExact(l: Lifecycle, o: Observation, c: Config)
    ensures InOrder(Vetoes(l, o, c)) && forall v :: v in Vetoes(l, o, c) <==> Applies(l, o, c, v)
  {
    var v4 := FirstHalf(l, o, c);
    var v8 := SecondHalf(l, o, c, v4);
    assert Vetoes(l, o, c) == v8;
    assert forall v :: Rank(v) <= 8;
  }

  /** An observation before the root, or a high that is not positive, is refused, in this order; past the lifetime the
      high and the window stay; a new high starts a revision and a window at its own time; and otherwise everything but
      the vetoes stays, and the fallback is ready if and only if there is none. */
  lemma AdvanceIsExact(l: Lifecycle, o: Observation, c: Config)
    ensures Advance(l, o, c) == Err(ObservedBeforeRoot) <==> o.at < l.rootCreatedAt
    ensures Advance(l, o, c) == Err(NonPositiveHigh)
       <==> o.at >= l.rootCreatedAt && (o.high <= 0.0 || l.latestHigh <= 0.0)
    ensures Advance(l, o, c).Ok? ==>
              var after := Advance(l, o, c).value;
              && after.rootCreatedAt == l.rootCreatedAt && after.lastObservedAt == o.at
              && (after.expired <==> after.state == Expired)
              && if o.at - l.rootCreatedAt > c.maxLifetimeMinutes * 60_000_000 then
                   && after.state == Expired && after.vetoes == [RootLifetimeExpired] && after.revision == l.revision
                   && after.latestHigh == l.latestHigh && after.latestHighAt == l.latestHighAt
                   && after.confirmationStartedAt == l.confirmationStartedAt
                 else if o.high > l.latestHigh then
                   && after.state == Watching && after.vetoes == [] && after.revision == l.revision + 1
                   && after.latestHigh == o.high && after.latestHighAt == o.at && after.confirmationStartedAt == o.at
                 else
                   && InOrder(after.vetoes) && (forall v :: v in after.vetoes <==> Applies(l, o, c, v))
                   && after.state == (if after.vetoes == [] then FallbackReady else Watching)
                   && after.revision == l.revision
                   && after.latestHigh == l.latestHigh && after.latestHighAt == l.latestHighAt
                   && after.confirmationStartedAt == l.confirmationStartedAt
  {
    VetoesAreExact(l, o, c);
  }
}
