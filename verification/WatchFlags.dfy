/** The second writer of a watch (app/main.py): its creator saves it, claims it alone, sends it, acknowledges,
    and at the end writes into the source row whether its own attempt was accepted.  The creators are run here
    on top of the outbox, among any other workers. */
module WatchFlags {
  import opened Common
  import opened Outbox
  import opened OutboxRuns

  /** Where the creator of a watch is: saved it, holds it, or knows what came of its attempt. */
  datatype Phase = Saved | Holding(ticket: Ticket) | Answered(sent: bool)

  /** `creators` are the watches whose flag is yet to be written. */
  datatype Crew = Crew(sys: Sys, creators: map<nat, Phase>)

  datatype Move =
    | Others(step: Step)
    | Create(payload: Option<string>)
    | ClaimOwn(watch: nat)
    | Answer(watch: nat, accepted: bool, error: string)
    | WriteFlag(watch: nat)

  const NOBODY := Crew(EMPTY, map[])

  function OwnClaim(w: nat): Step { Claim(1, LEASE_SECONDS, Filter(Some(Watch), Some(w))) }

  /** The creator's claim hands it its row, if the row is still to be had. */
  function Found(s: Sys, w: nat): Phase {
    var ids := ChosenIds(s.db.rows, |s.db.rows|, s.now, 1, OwnClaim(w).filter);
    if ids == [] then Answered(false)
        else Holding(Ticket(ids[0], s.db.rows[ids[0]].attempts + 1, s.now + LEASE_SECONDS))
  }

  function AckOf(t: Ticket, accepted: bool, error: string, now: int): Step {
    if accepted then AckSent(t) else AckRetry(t, error, now + RETRY_DELAY)
  }

  predicate Enabled(c: Crew, m: Move) {
    match m
    case Others(step) =>
      && !step.SetWatchFlag? && !(step.Save? && !step.signal)
      && (step.AckSent? || step.AckRetry? ==> Holding(step.ticket) !in c.creators.Values)
    case Create(_) => true
    case ClaimOwn(w) => w in c.creators && c.creators[w] == Saved
    case Answer(w, _, _) => w in c.creators && c.creators[w].Holding?
    case WriteFlag(w) => w in c.creators && c.creators[w].Answered?
  }

  /** The outbox step that a move makes. */
  function StepOf(c: Crew, m: Move): Step
    requires Enabled(c, m)
  {
    match m
    case Others(step) => step
    case Create(payload) => Save(false, false, payload)
    case ClaimOwn(w) => OwnClaim(w)
    case Answer(w, accepted, error) => AckOf(c.creators[w].ticket, accepted, error, c.sys.now)
    case WriteFlag(w) => SetWatchFlag(w, c.creators[w].sent)
  }

  function CreatorsAfter(c: Crew, m: Move): map<nat, Phase>
    requires Enabled(c, m)
  {
    match m
    case Others(_) => c.creators
    case Create(payload) => c.creators[|c.sys.db.watchSent| := if payload.Some? then Saved else Answered(false)]
    case ClaimOwn(w) => c.creators[w := Found(c.sys, w)]
    case Answer(w, accepted, _) => c.creators[w := Answered(accepted)]
    case WriteFlag(w) => c.creators - {w}
  }

  function Apply(c: Crew, m: Move): Crew {
    if Enabled(c, m) then Crew(OutboxRuns.Apply(c.sys, StepOf(c, m)), CreatorsAfter(c, m)) else c
  }

  function Run(c: Crew, moves: seq<Move>): Crew
    decreases |moves|
  {
    if moves == [] then c else Run(Apply(c, moves[0]), moves[1..])
  }

  /** Every acknowledgement, by whomever, is of a ticket held and comes before its lease runs out. */
  predicate InTime(c: Crew, m: Move) { Enabled(c, m) ==> Timely(c.sys, StepOf(c, m)) }

  predicate InTimeRun(c: Crew, moves: seq<Move>)
    decreases |moves|
  {
    moves != [] ==> InTime(c, moves[0]) && InTimeRun(Apply(c, moves[0]), moves[1..])
  }

  /** The row of a watch has been delivered. */
  predicate Delivered(s: Sys, w: nat) {
    exists i | 0 <= i < |s.db.rows| :: s.db.rows[i].entityType == Watch && s.db.rows[i].entityId == w
        && s.db.rows[i].status == Sent
  }

  /** A creator that sent nothing writes so after somebody else has delivered its watch. */
  predicate WritesTooLate(c: Crew, m: Move) {
    m.WriteFlag? && m.watch in c.creators && c.creators[m.watch] == Answered(false) && Delivered(c.sys, m.watch)
  }

  predicate NeverTooLate(c: Crew, moves: seq<Move>)
    decreases |moves|
  {
    moves != [] ==> !WritesTooLate(c, moves[0]) && NeverTooLate(Apply(c, moves[0]), moves[1..])
  }

  // ---------- What the creators know ----------

  predicate RowOf(s: Sys, i: nat, w: nat) {
    i < |s.db.rows| && s.db.rows[i].entityType == Watch && s.db.rows[i].entityId == w
  }

  /** A creator holds a ticket of its own row; if its attempt was accepted its row is SENT. */
  ghost predicate Knows(s: Sys, w: nat, p: Phase) {
    && w < |s.db.watchSent|
    && (p.Holding? ==> p.ticket in s.tickets && RowOf(s, p.ticket.id, w))
    && (p == Answered(true) ==> forall i: nat | RowOf(s, i, w) :: s.db.rows[i].status == Sent)
  }

  ghost predicate CreatorsKnow(c: Crew) {
    forall w | w in c.creators :: Knows(c.sys, w, c.creators[w])
  }

  ghost predicate Sound(c: Crew) { Good(c.sys) && LeasesHold(c.sys) && CreatorsKnow(c) }

  /** A row and its entity stay what they are, and SENT stays SENT in timely steps. */
  lemma RowStays(s: Sys, step: Step, i: nat)
    requires Good(s) && LeasesHold(s) && Timely(s, step) && i < |s.db.rows|
    ensures var s' := OutboxRuns.Apply(s, step);
            && i < |s'.db.rows| && s'.db.rows[i].entityType == s.db.rows[i].entityType
            && s'.db.rows[i].entityId == s.db.rows[i].entityId
            && (s.db.rows[i].status == Sent ==> s'.db.rows[i].status == Sent)
  {
  }

  /** The only new rows are those of a save. */
  lemma NewRows(s: Sys, step: Step, i: nat)
    requires |s.db.rows| <= i < |OutboxRuns.Apply(s, step).db.rows|
    ensures step.Save? && step.payload.Some?
    ensures var r := OutboxRuns.Apply(s, step).db.rows[i];
            if step.signal then r.entityType == Signal else r.entityType == Watch && r.entityId == |s.db.watchSent|
  {
  }

  lemma KnowsOn(s: Sys, step: Step, w: nat, p: Phase)
    requires Good(s) && LeasesHold(s) && Timely(s, step) && Knows(s, w, p)
    requires p.Holding? ==> !((step.AckSent? || step.AckRetry?) && step.ticket == p.ticket)
    ensures Knows(OutboxRuns.Apply(s, step), w, p)
  {
    var s' := OutboxRuns.Apply(s, step);
    if p.Holding? {
      RowStays(s, step, p.ticket.id);
    }
    if p == Answered(true) {
      forall i: nat | RowOf(s', i, w) ensures s'.db.rows[i].status == Sent {
        if i < |s.db.rows| {
          RowStays(s, step, i);
        } else {
          NewRows(s, step, i);
        }
      }
    }
  }

  lemma OwnRowFound(s: Sys, w: nat)
    requires w < |s.db.watchSent|
    ensures Knows(OutboxRuns.Apply(s, OwnClaim(w)), w, Found(s, w))
  {
    var f := OwnClaim(w).filter;
    var ids := ChosenIds(s.db.rows, |s.db.rows|, s.now, 1, f);
    if ids != [] {
      assert ids[0] in ids && Chosen(s.db.rows, ids[0], s.now, 1, f);
      assert Found(s, w).ticket in TicketsOf(s.db.rows, s.now, OwnClaim(w));
    }
  }

  /** Only one row announces a watch. */
  lemma OneRow(s: Sys, i: nat, j: nat, w: nat)
    requires SourcesDistinct(s.db.rows) && RowOf(s, i, w) && RowOf(s, j, w)
    ensures i == j
  {
  }

  lemma OwnAnswerKnown(s: Sys, w: nat, t: Ticket, accepted: bool, error: string)
    requires Good(s) && LeasesHold(s) && Knows(s, w, Holding(t)) && s.now < t.lease
    ensures Knows(OutboxRuns.Apply(s, AckOf(t, accepted, error, s.now)), w, Answered(accepted))
  {
    var s' := OutboxRuns.Apply(s, AckOf(t, accepted, error, s.now));
    if accepted {
      assert RowOk(s.db, s.db.rows[t.id]);
      forall i: nat | RowOf(s', i, w) ensures s'.db.rows[i].status == Sent {
        assert RowOf(s, i, w);
        OneRow(s, i, t.id, w);
      }
    }
  }

  lemma MoveKeepsKnowing(c: Crew, m: Move, w: nat)
    requires Sound(c) && Enabled(c, m) && InTime(c, m) && w in CreatorsAfter(c, m)
    ensures Knows(Apply(c, m).sys, w, CreatorsAfter(c, m)[w])
  {
    match m
    case Create(payload) =>
      if w != |c.sys.db.watchSent| {
        KnowsOn(c.sys, StepOf(c, m), w, c.creators[w]);
      }
    case ClaimOwn(v) =>
      if w == v {
        assert Knows(c.sys, w, c.creators[w]);
        OwnRowFound(c.sys, w);
      } else {
        KnowsOn(c.sys, StepOf(c, m), w, c.creators[w]);
      }
    case Answer(v, accepted, error) =>
      assert Knows(c.sys, v, c.creators[v]);
      if w == v {
        OwnAnswerKnown(c.sys, w, c.creators[w].ticket, accepted, error);
      } else {
        assert Knows(c.sys, w, c.creators[w]);
        KnowsOn(c.sys, StepOf(c, m), w, c.creators[w]);
      }
    case Others(step) =>
      assert c.creators[w] in c.creators.Values;
      KnowsOn(c.sys, step, w, c.creators[w]);
    case WriteFlag(v) =>
      KnowsOn(c.sys, StepOf(c, m), w, c.creators[w]);
  }

  lemma MoveKeepsSound(c: Crew, m: Move)
    requires Sound(c) && InTime(c, m)
    ensures Sound(Apply(c, m))
  {
    if Enabled(c, m) {
      StepKeepsGood(c.sys, StepOf(c, m));
      StepKeepsLeases(c.sys, StepOf(c, m));
      forall w | w in CreatorsAfter(c, m) ensures Knows(Apply(c, m).sys, w, CreatorsAfter(c, m)[w]) {
        MoveKeepsKnowing(c, m, w);
      }
    }
  }

  // ---------- When the watches agree ----------

  lemma FlagKeepsWatchesExactly(c: Crew, w: nat)
    requires Sound(c) && WatchesAgree(c.sys.db) && w in c.creators && c.creators[w].Answered?
    ensures WatchesAgree(Apply(c, WriteFlag(w)).sys.db) <==> !WritesTooLate(c, WriteFlag(w))
  {
    assert Knows(c.sys, w, c.creators[w]);
    SetFlagKeepsWatchesExactly(c.sys, w, c.creators[w].sent);
    if c.creators[w].sent {
      assert forall i: nat | RowOf(c.sys, i, w) :: c.sys.db.rows[i].status == Sent;
    }
  }

  lemma StepKeepsWatches(s: Sys, step: Step)
    requires Good(s) && LeasesHold(s) && WatchesAgree(s.db) && Timely(s, step) && !step.SetWatchFlag?
    requires step.Save? && !step.signal ==> !step.sent
    ensures WatchesAgree(OutboxRuns.Apply(s, step).db)
  {
    if step.AckSent? {
      AckSentKeepsWatches(s, step);
    } else if step.AckRetry? {
      RetryKeepsWatchesExactly(s, step);
    }
  }

  /** An accepted answer is written on a SENT row, so only a failed one can part the two. */
  lemma MoveKeepsWatchesExactly(c: Crew, m: Move)
    requires Sound(c) && WatchesAgree(c.sys.db) && InTime(c, m)
    ensures WatchesAgree(Apply(c, m).sys.db) <==> !WritesTooLate(c, m)
  {
    if Enabled(c, m) {
      if m.WriteFlag? {
        FlagKeepsWatchesExactly(c, m.watch);
      } else {
        StepKeepsWatches(c.sys, StepOf(c, m));
      }
    }
  }

  /** A delivered watch says it was not sent, and its creator is done. */
  predicate Parted(c: Crew, i: nat) {
    && i < |c.sys.db.rows| && c.sys.db.rows[i].entityType == Watch && c.sys.db.rows[i].status == Sent
    && c.sys.db.rows[i].entityId < |c.sys.db.watchSent| && !c.sys.db.watchSent[c.sys.db.rows[i].entityId]
    && c.sys.db.rows[i].entityId !in c.creators
  }

  lemma TooLateParts(c: Crew, m: Move) returns (i: nat)
    requires Sound(c) && InTime(c, m) && WritesTooLate(c, m)
    ensures Parted(Apply(c, m), i)
  {
    i :| 0 <= i < |c.sys.db.rows| && c.sys.db.rows[i].entityType == Watch && c.sys.db.rows[i].entityId == m.watch
         && c.sys.db.rows[i].status == Sent;
    assert Knows(c.sys, m.watch, c.creators[m.watch]);
  }

  /** Nobody writes the flag of a delivered watch again once its creator is done. */
  lemma PartedStays(c: Crew, m: Move, i: nat)
    requires Sound(c) && InTime(c, m) && Parted(c, i)
    ensures Parted(Apply(c, m), i)
  {
    if Enabled(c, m) {
      var step := StepOf(c, m);
      RowStays(c.sys, step, i);
      FlagStays(c.sys, step, i);
    }
  }

  lemma FlagStays(s: Sys, step: Step, i: nat)
    requires Good(s) && LeasesHold(s) && Timely(s, step)
    requires i < |s.db.rows| && s.db.rows[i].entityType == Watch && s.db.rows[i].status == Sent
    requires s.db.rows[i].entityId < |s.db.watchSent|
    requires step.SetWatchFlag? ==> step.watchId != s.db.rows[i].entityId
    ensures var after := OutboxRuns.Apply(s, step).db.watchSent;
            s.db.rows[i].entityId < |after| && after[s.db.rows[i].entityId] == s.db.watchSent[s.db.rows[i].entityId]
  {
  }

  lemma {:induction false} PartedForGood(c: Crew, moves: seq<Move>, i: nat)
    requires Sound(c) && InTimeRun(c, moves) && Parted(c, i)
    ensures !WatchesAgree(Run(c, moves).sys.db)
    decreases |moves|
  {
    if moves != [] {
      MoveKeepsSound(c, moves[0]);
      PartedStays(c, moves[0], i);
      PartedForGood(Apply(c, moves[0]), moves[1..], i);
    }
  }

  lemma {:induction false} AgreeExactly(c: Crew, moves: seq<Move>)
    requires Sound(c) && WatchesAgree(c.sys.db) && InTimeRun(c, moves)
    ensures WatchesAgree(Run(c, moves).sys.db) <==> NeverTooLate(c, moves)
    decreases |moves|
  {
    if moves != [] {
      MoveKeepsSound(c, moves[0]);
      MoveKeepsWatchesExactly(c, moves[0]);
      if WritesTooLate(c, moves[0]) {
        var i := TooLateParts(c, moves[0]);
        PartedForGood(Apply(c, moves[0]), moves[1..], i);
      } else {
        AgreeExactly(Apply(c, moves[0]), moves[1..]);
      }
    }
  }

  /** In timely runs every watch is SENT in the outbox exactly when its source row says sent, if and only if no
      creator whose own attempt failed writes its flag after somebody else has delivered the watch. */
  lemma WatchesAgreeExactly(moves: seq<Move>)
    requires InTimeRun(NOBODY, moves)
    ensures WatchesAgree(Run(NOBODY, moves).sys.db) <==> NeverTooLate(NOBODY, moves)
  {
    AgreeExactly(NOBODY, moves);
  }

  // ---------- Undisturbed creators ----------

  /** Somebody else reports a watch as accepted while its creator is still under way. */
  predicate Interferes(c: Crew, m: Move) {
    && m.Others? && m.step.AckSent? && m.step.ticket.id < |c.sys.db.rows|
    && c.sys.db.rows[m.step.ticket.id].entityType == Watch && c.sys.db.rows[m.step.ticket.id].entityId in c.creators
  }

  predicate Undisturbed(c: Crew, moves: seq<Move>)
    decreases |moves|
  {
    moves != [] ==> !Interferes(c, moves[0]) && Undisturbed(Apply(c, moves[0]), moves[1..])
  }

  /** A watch that its creator has not delivered, nobody has. */
  ghost predicate OnlyCreatorsDeliver(c: Crew) {
    forall w | w in c.creators && c.creators[w] != Answered(true) :: !Delivered(c.sys, w)
  }

  lemma DeliveredBy(s: Sys, step: Step, w: nat)
    requires w < |s.db.watchSent| && !Delivered(s, w) && Delivered(OutboxRuns.Apply(s, step), w)
    ensures step.AckSent? && RowOf(s, step.ticket.id, w)
  {
    var s' := OutboxRuns.Apply(s, step);
    var i: nat :| i < |s'.db.rows| && s'.db.rows[i].entityType == Watch && s'.db.rows[i].entityId == w
        && s'.db.rows[i].status == Sent;
    if i < |s.db.rows| {
      assert s'.db.rows[i].entityType == s.db.rows[i].entityType && s'.db.rows[i].entityId == s.db.rows[i].entityId;
      assert s.db.rows[i].status != Sent;
    }
  }

  lemma NothingSavedDelivered(s: Sys, payload: Option<string>)
    requires Good(s)
    ensures !Delivered(OutboxRuns.Apply(s, Save(false, false, payload)), |s.db.watchSent|)
  {
    forall i: nat | i < |s.db.rows| ensures s.db.rows[i].entityType == Watch
        ==> s.db.rows[i].entityId < |s.db.watchSent| {
      assert RowOk(s.db, s.db.rows[i]);
    }
  }

  lemma MoveKeepsOnlyCreators(c: Crew, m: Move)
    requires Sound(c) && OnlyCreatorsDeliver(c) && InTime(c, m) && !Interferes(c, m)
    ensures OnlyCreatorsDeliver(Apply(c, m))
  {
    if Enabled(c, m) {
      var after := Apply(c, m);
      forall w | w in after.creators && after.creators[w] != Answered(true) ensures !Delivered(after.sys, w) {
        if m.Create? && w == |c.sys.db.watchSent| {
          NothingSavedDelivered(c.sys, m.payload);
        } else {
          assert Knows(c.sys, w, c.creators[w]);
          assert m.Answer? ==> Knows(c.sys, m.watch, c.creators[m.watch]);
          if Delivered(after.sys, w) {
            DeliveredBy(c.sys, StepOf(c, m), w);
            assert false;
          }
        }
      }
    }
  }

  lemma {:induction false} UndisturbedIsNeverTooLate(c: Crew, moves: seq<Move>)
    requires Sound(c) && OnlyCreatorsDeliver(c) && InTimeRun(c, moves) && Undisturbed(c, moves)
    ensures NeverTooLate(c, moves)
    decreases |moves|
  {
    if moves != [] {
      MoveKeepsSound(c, moves[0]);
      MoveKeepsOnlyCreators(c, moves[0]);
      UndisturbedIsNeverTooLate(Apply(c, moves[0]), moves[1..]);
    }
  }

  /** In particular they agree when nobody delivers a watch whose creator is still under way. */
  lemma UndisturbedWatchesAgree(moves: seq<Move>)
    requires InTimeRun(NOBODY, moves) && Undisturbed(NOBODY, moves)
    ensures WatchesAgree(Run(NOBODY, moves).sys.db)
  {
    UndisturbedIsNeverTooLate(NOBODY, moves);
    WatchesAgreeExactly(moves);
  }

  // ---------- A drain that is faster than the creator ----------

  /** A watch is saved, a drain delivers it, and its creator, finding nothing to claim, writes that it was not sent. */
  function DrainedFirst(): seq<Move> {
    [Create(Some("watch")), Others(CLAIM_WATCHES)] + [Others(AckSent(Ticket(0, 1, LEASE_SECONDS))), ClaimOwn(0)]
        + [WriteFlag(0)]
  }

  lemma TwoMoves(c: Crew, a: Move, b: Move, rest: seq<Move>)
    ensures InTimeRun(c, [a, b] + rest) <==>
              InTime(c, a) && InTime(Apply(c, a), b) && InTimeRun(Apply(Apply(c, a), b), rest)
    ensures NeverTooLate(c, [a, b] + rest) <==>
              !WritesTooLate(c, a) && !WritesTooLate(Apply(c, a), b) && NeverTooLate(Apply(Apply(c, a), b), rest)
  {
    assert ([a, b] + rest)[1..] == [b] + rest;
    assert ([b] + rest)[1..] == rest;
  }

  /** The drain has sent the watch, and its creator is still to look. */
  function Drained(): Crew {
    var row := SentRow(Claimed(NewRow(Watch, 0, "watch", 0), 0, LEASE_SECONDS), 0);
    Crew(Sys(Db([row], [], [true]), 0, {}), map[0 := Saved])
  }

  lemma DrainedIsReached()
    ensures var claimed := Apply(Apply(NOBODY, Create(Some("watch"))), Others(CLAIM_WATCHES));
            && Ticket(0, 1, LEASE_SECONDS) in claimed.sys.tickets && claimed.sys.now == 0
            && Apply(claimed, Others(AckSent(Ticket(0, 1, LEASE_SECONDS)))) == Drained()
  {
    var row := NewRow(Watch, 0, "watch", 0);
    var saved := Crew(Sys(Db([row], [], [false]), 0, {}), map[0 := Saved]);
    assert Apply(NOBODY, Create(Some("watch"))) == saved;
    SingleClaim(saved.sys, WATCHES);
  }

  lemma DrainedFirstIsTooLate()
    ensures InTimeRun(NOBODY, DrainedFirst()) && !NeverTooLate(NOBODY, DrainedFirst())
    ensures !WatchesAgree(Run(NOBODY, DrainedFirst()).sys.db)
  {
    var create, drain, ack := Create(Some("watch")), Others(CLAIM_WATCHES),
        Others(AckSent(Ticket(0, 1, LEASE_SECONDS)));
    var claimed := Apply(Apply(NOBODY, create), drain);
    DrainedIsReached();
    NothingToClaim(Drained().sys);
    var late := Drained().(creators := map[0 := Answered(false)]);
    assert Apply(Drained(), ClaimOwn(0)) == late;
    LateFlag(late);
    TwoMoves(claimed, ack, ClaimOwn(0), [WriteFlag(0)]);
    TwoMoves(NOBODY, create, drain, [ack, ClaimOwn(0)] + [WriteFlag(0)]);
    assert DrainedFirst() == [create, drain] + ([ack, ClaimOwn(0)] + [WriteFlag(0)]);
    WatchesAgreeExactly(DrainedFirst());
  }

  lemma LateFlag(c: Crew)
    requires 0 in c.creators && c.creators[0] == Answered(false)
    requires |c.sys.db.rows| > 0 && RowOf(c.sys, 0, 0) && c.sys.db.rows[0].status == Sent
    ensures InTimeRun(c, [WriteFlag(0)]) && !NeverTooLate(c, [WriteFlag(0)])
  {
    assert Delivered(c.sys, 0);
  }

  lemma NothingToClaim(s: Sys)
    requires |s.db.rows| == 1 && s.db.rows[0].status == Sent && s.db.rows[0].leaseUntil == None
    ensures Found(s, 0) == Answered(false)
    ensures OutboxRuns.Apply(s, OwnClaim(0)) == s
  {
    var f := OwnClaim(0).filter;
    assert !Chosen(s.db.rows, 0, s.now, 1, f);
    assert ClaimableBefore(s.db.rows, 0, s.now, f) == 0;
    assert AfterClaim(s.db.rows, s.now, 1, LEASE_SECONDS, f) == s.db.rows;
    assert TicketsOf(s.db.rows, s.now, OwnClaim(0)) == {};
  }
}
