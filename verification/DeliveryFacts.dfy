/** What a whole batch leaves behind, row by row: each claimed row ends as its own answer says. */
module DeliveryFacts {
  import opened Common
  import opened Outbox
  import opened OutboxRuns
  import opened OutboxFacts
  import opened Delivery

  /** The row of a claimed item after its answer: SENT, or due a minute later, or DEAD after the fifth attempt. */
  predicate AnsweredAs(r: Row, after: Row, answer: SendOutcome, at: int) {
    && after.entityType == r.entityType && after.entityId == r.entityId && after.payload == r.payload
    && after.attempts == r.attempts && after.lastAttemptAt == r.lastAttemptAt && after.leaseUntil == None
    && if answer == Accepted then
         after.status == Sent && after.sentAt == Some(at) && after.nextAttemptAt == r.nextAttemptAt
         && after.lastError == r.lastError
       else
         var text := if answer == Refused then "telegram_send_returned_false" else answer.error;
         && after.status == (if r.attempts < 5 then Retry else Dead) && after.sentAt == r.sentAt
         && after.nextAttemptAt == at + 60 && after.lastError == Some(if |text| <= 1000 then text else text[..1000])
  }

  predicate Holds(items: seq<Item>, id: nat) { exists k | 0 <= k < |items| :: items[k].id == id }

  /** Row `id` announces source row `j` of `kind` and was accepted. */
  predicate Announces(db: Db, id: nat, answers: nat -> SendOutcome, kind: EntityType, j: nat) {
    id < |db.rows| && db.rows[id].entityType == kind && db.rows[id].entityId == j && answers(id) == Accepted
  }

  predicate AnnouncedBy(db: Db, items: seq<Item>, answers: nat -> SendOutcome, kind: EntityType, j: nat) {
    exists k | 0 <= k < |items| :: Announces(db, items[k].id, answers, kind, j)
  }

  /** Items of a batch are in id order, and their rows and sources are there. */
  ghost predicate Batched(db: Db, items: seq<Item>) {
    && (forall k | 0 <= k < |items| :: items[k].id < |db.rows| && HasSource(db, db.rows[items[k].id]))
    && forall a, b | 0 <= a < b < |items| :: items[a].id < items[b].id
  }

  lemma AckAnswers(s: Sys, t: Ticket, answer: SendOutcome, at: int)
    requires t.id < |s.db.rows| && HasSource(s.db, s.db.rows[t.id]) && s.now == at
    ensures var after := Apply(s, AckOf(t, answer, at)).db;
            && |after.rows| == |s.db.rows| && AnsweredAs(s.db.rows[t.id], after.rows[t.id], answer, at)
            && (forall i | 0 <= i < |s.db.rows| && i != t.id :: after.rows[i] == s.db.rows[i])
            && Apply(s, AckOf(t, answer, at)).now == at
  {
    MarkSentIsExact(s.db, t.id, at);
  }

  /** An acknowledgement raises exactly the flag of an accepted row. */
  lemma AckFlags(s: Sys, t: Ticket, answer: SendOutcome, at: int)
    requires t.id < |s.db.rows| && HasSource(s.db, s.db.rows[t.id]) && s.now == at
    ensures var after, r := Apply(s, AckOf(t, answer, at)).db, s.db.rows[t.id];
            && |after.signalSent| == |s.db.signalSent| && |after.watchSent| == |s.db.watchSent|
            && (forall j | 0 <= j < |s.db.signalSent| ::
                  after.signalSent[j]
                  <==> s.db.signalSent[j] || (answer == Accepted && r.entityType == Signal && r.entityId == j))
            && (forall j | 0 <= j < |s.db.watchSent| ::
                  after.watchSent[j]
                  <==> s.db.watchSent[j] || (answer == Accepted && r.entityType == Watch && r.entityId == j))
  {
    MarkSentIsExact(s.db, t.id, at);
  }

  lemma RestIsBatched(s: Sys, items: seq<Item>, lease: int, answer: SendOutcome, at: int)
    requires items != [] && Batched(s.db, items) && s.now == at
    ensures Batched(Apply(s, AckOf(TicketOf(items[0], lease), answer, at)).db, items[1..])
  {
    var after := Apply(s, AckOf(TicketOf(items[0], lease), answer, at)).db;
    AckAnswers(s, TicketOf(items[0], lease), answer, at);
    AckFlags(s, TicketOf(items[0], lease), answer, at);
    forall k | 0 <= k < |items[1..]|
      ensures items[1..][k].id < |after.rows| && HasSource(after, after.rows[items[1..][k].id])
    {
      assert items[1..][k] == items[k + 1] && items[0].id < items[k + 1].id;
    }
  }

  lemma HoldsRest(items: seq<Item>, id: nat)
    requires items != []
    ensures Holds(items, id) <==> items[0].id == id || Holds(items[1..], id)
  {
    if Holds(items[1..], id) {
      var k :| 0 <= k < |items[1..]| && items[1..][k].id == id;
      assert items[k + 1].id == id;
    }
    if Holds(items, id) && items[0].id != id {
      var k :| 0 <= k < |items| && items[k].id == id;
      assert items[1..][k - 1].id == id;
    }
  }

  lemma {:induction false} AcksAnswer(s: Sys, items: seq<Item>, lease: int, answers: nat -> SendOutcome, at: int,
                                      i: nat)
    requires Batched(s.db, items) && s.now == at && i < |s.db.rows|
    ensures var after := Run(s, Acks(items, lease, answers, at)).db;
            && |after.rows| == |s.db.rows|
            && if Holds(items, i) then AnsweredAs(s.db.rows[i], after.rows[i], answers(i), at)
               else after.rows[i] == s.db.rows[i]
    decreases |items|
  {
    if items != [] {
      var t := TicketOf(items[0], lease);
      var acks := Acks(items, lease, answers, at);
      assert acks[1..] == Acks(items[1..], lease, answers, at);
      AckAnswers(s, t, answers(items[0].id), at);
      RestIsBatched(s, items, lease, answers(items[0].id), at);
      AcksAnswer(Apply(s, acks[0]), items[1..], lease, answers, at, i);
      HoldsRest(items, i);
      if items[0].id == i {
        FirstNotAgain(items);
      }
    }
  }

  lemma FirstNotAgain(items: seq<Item>)
    requires items != [] && forall a, b | 0 <= a < b < |items| :: items[a].id < items[b].id
    ensures !Holds(items[1..], items[0].id)
  {
    forall k | 0 <= k < |items[1..]| ensures items[1..][k].id != items[0].id {
      assert items[1..][k] == items[k + 1];
    }
  }

  lemma ClaimIsBatched(db: Db, mid: Db, f: Filter, limit: nat, now: int)
    requires mid == db.(rows := AfterClaim(db.rows, now, limit, LEASE_SECONDS, f))
    requires forall i | 0 <= i < |db.rows| :: HasSource(db, db.rows[i])
    ensures Batched(mid, ClaimedItems(db.rows, now, limit, f))
  {
    var items := ClaimedItems(db.rows, now, limit, f);
    forall k | 0 <= k < |items| ensures items[k].id < |mid.rows| && HasSource(mid, mid.rows[items[k].id]) {
      assert HasSource(db, db.rows[items[k].id]);
    }
  }

  lemma ClaimHolds(rows: seq<Row>, f: Filter, limit: nat, now: int, i: nat)
    requires i < |rows|
    ensures Holds(ClaimedItems(rows, now, limit, f), i) <==> Taken(rows, i, now, limit, f)
  {
    var items, ids := ClaimedItems(rows, now, limit, f), ChosenIds(rows, |rows|, now, limit, f);
    ClaimIsExact(rows, now, limit, LEASE_SECONDS, f, i);
    if i in ids {
      var k :| 0 <= k < |ids| && ids[k] == i;
      assert items[k].id == i;
    }
    if Holds(items, i) {
      var k :| 0 <= k < |items| && items[k].id == i;
      assert ids[k] == i;
    }
  }

  /** Over a whole batch a row that the claim takes ends as its answer says, its attempt counted: SENT if and only if
      Telegram accepted it.  Every other row is as the claim left it. */
  lemma BatchIsExact(db: Db, f: Filter, limit: nat, now: int, answers: nat -> SendOutcome, at: int, i: nat)
    requires now <= at && i < |db.rows| && forall j | 0 <= j < |db.rows| :: HasSource(db, db.rows[j])
    ensures |Batch(db, f, limit, now, answers, at).rows| == |db.rows|
    ensures var r, after := db.rows[i], Batch(db, f, limit, now, answers, at).rows[i];
            if Taken(db.rows, i, now, limit, f)
            then exists mid :: ClaimedAs(r, mid, true, now, 120) && AnsweredAs(mid, after, answers(i), at)
            else ClaimedAs(r, after, false, now, 120)
    ensures Taken(db.rows, i, now, limit, f) ==>
              (Batch(db, f, limit, now, answers, at).rows[i].status == Sent <==> answers(i) == Accepted)
  {
    var mid := db.(rows := AfterClaim(db.rows, now, limit, LEASE_SECONDS, f));
    BatchUnfolds(db, mid, f, limit, now, answers, at);
    ClaimIsBatched(db, mid, f, limit, now);
    ClaimIsExact(db.rows, now, limit, LEASE_SECONDS, f, i);
    ClaimHolds(db.rows, f, limit, now, i);
    AcksAnswer(Sys(mid, at, {}), ClaimedItems(db.rows, now, limit, f), now + LEASE_SECONDS, answers, at, i);
  }

  // ---------- The source flags of a batch ----------

  function FlagsOf(db: Db, kind: EntityType): seq<bool> { if kind == Signal then db.signalSent else db.watchSent }

  lemma AckFlag(s: Sys, t: Ticket, answers: nat -> SendOutcome, at: int, kind: EntityType, j: nat)
    requires t.id < |s.db.rows| && HasSource(s.db, s.db.rows[t.id]) && s.now == at
    requires (kind == Signal || kind == Watch) && j < |FlagsOf(s.db, kind)|
    ensures var after := Apply(s, AckOf(t, answers(t.id), at)).db;
            && |FlagsOf(after, kind)| == |FlagsOf(s.db, kind)|
            && (FlagsOf(after, kind)[j] <==> FlagsOf(s.db, kind)[j] || Announces(s.db, t.id, answers, kind, j))
  {
    AckFlags(s, t, answers(t.id), at);
  }

  lemma AnnouncedRest(db: Db, after: Db, items: seq<Item>, answers: nat -> SendOutcome, kind: EntityType, j: nat)
    requires items != [] && |after.rows| == |db.rows|
    requires forall i | 0 <= i < |db.rows| ::
               after.rows[i].entityType == db.rows[i].entityType && after.rows[i].entityId == db.rows[i].entityId
    ensures AnnouncedBy(db, items, answers, kind, j)
       <==> Announces(db, items[0].id, answers, kind, j) || AnnouncedBy(after, items[1..], answers, kind, j)
  {
    if AnnouncedBy(after, items[1..], answers, kind, j) {
      var k :| 0 <= k < |items[1..]| && Announces(after, items[1..][k].id, answers, kind, j);
      assert Announces(db, items[k + 1].id, answers, kind, j);
    }
    if AnnouncedBy(db, items, answers, kind, j) {
      var k :| 0 <= k < |items| && Announces(db, items[k].id, answers, kind, j);
      if k > 0 {
        assert Announces(after, items[1..][k - 1].id, answers, kind, j);
      }
    }
  }

  lemma {:induction false} AcksFlag(s: Sys, items: seq<Item>, lease: int, answers: nat -> SendOutcome, at: int,
                                    kind: EntityType, j: nat)
    requires Batched(s.db, items) && s.now == at && (kind == Signal || kind == Watch)
    requires j < |FlagsOf(s.db, kind)|
    ensures var after := Run(s, Acks(items, lease, answers, at)).db;
            && |FlagsOf(after, kind)| == |FlagsOf(s.db, kind)|
            && (FlagsOf(after, kind)[j] <==> FlagsOf(s.db, kind)[j] || AnnouncedBy(s.db, items, answers, kind, j))
    decreases |items|
  {
    if items != [] {
      var t, acks := TicketOf(items[0], lease), Acks(items, lease, answers, at);
      var mid := Apply(s, acks[0]);
      assert acks[1..] == Acks(items[1..], lease, answers, at);
      AckFlag(s, t, answers, at, kind, j);
      AckKeepsKinds(s, t, answers(t.id), at);
      RestIsBatched(s, items, lease, answers(t.id), at);
      AcksFlag(mid, items[1..], lease, answers, at, kind, j);
      AnnouncedRest(s.db, mid.db, items, answers, kind, j);
    }
  }

  lemma AckKeepsKinds(s: Sys, t: Ticket, answer: SendOutcome, at: int)
    requires t.id < |s.db.rows| && HasSource(s.db, s.db.rows[t.id]) && s.now == at
    ensures var after := Apply(s, AckOf(t, answer, at));
            && after.now == at && |after.db.rows| == |s.db.rows|
            && forall i | 0 <= i < |s.db.rows| ::
                 && after.db.rows[i].entityType == s.db.rows[i].entityType
                 && after.db.rows[i].entityId == s.db.rows[i].entityId
  {
    AckAnswers(s, t, answer, at);
  }

  /** Some row that announces source row `j` of `kind` is taken and accepted. */
  predicate TakenAndAccepted(rows: seq<Row>, now: int, limit: nat, f: Filter, answers: nat -> SendOutcome,
                             kind: EntityType, j: nat)
  {
    exists i: nat :: i < |rows| && Taken(rows, i, now, limit, f) && rows[i].entityType == kind && rows[i].entityId == j
                     && answers(i) == Accepted
  }

  lemma AnnouncedExactly(rows: seq<Row>, mid: Db, items: seq<Item>, f: Filter, limit: nat, now: int,
                         answers: nat -> SendOutcome, kind: EntityType, j: nat)
    requires |mid.rows| == |rows| && forall i: nat | i < |rows| :: Holds(items, i) <==> Taken(rows, i, now, limit, f)
    requires forall i | 0 <= i < |rows| ::
               mid.rows[i].entityType == rows[i].entityType && mid.rows[i].entityId == rows[i].entityId
    ensures AnnouncedBy(mid, items, answers, kind, j) <==> TakenAndAccepted(rows, now, limit, f, answers, kind, j)
  {
    if AnnouncedBy(mid, items, answers, kind, j) {
      var k :| 0 <= k < |items| && Announces(mid, items[k].id, answers, kind, j);
      assert Holds(items, items[k].id);
    }
    if TakenAndAccepted(rows, now, limit, f, answers, kind, j) {
      var i: nat :| i < |rows| && Taken(rows, i, now, limit, f) && rows[i].entityType == kind
                    && rows[i].entityId == j && answers(i) == Accepted;
      assert Holds(items, i);
      var k :| 0 <= k < |items| && items[k].id == i;
      assert Announces(mid, items[k].id, answers, kind, j);
    }
  }

  lemma ClaimKeepsKinds(rows: seq<Row>, f: Filter, limit: nat, now: int)
    ensures var after := AfterClaim(rows, now, limit, LEASE_SECONDS, f);
            && |after| == |rows|
            && forall i | 0 <= i < |rows| ::
                 after[i].entityType == rows[i].entityType && after[i].entityId == rows[i].entityId
  {
  }

  /** A source row of the batch's table is flagged afterwards if and only if it was before, or a row that announces it
      was taken and accepted. */
  lemma BatchFlagsExactly(db: Db, f: Filter, limit: nat, now: int, answers: nat -> SendOutcome, at: int,
                          kind: EntityType, j: nat)
    requires now <= at && forall i | 0 <= i < |db.rows| :: HasSource(db, db.rows[i])
    requires (kind == Signal || kind == Watch) && j < |FlagsOf(db, kind)|
    ensures |FlagsOf(Batch(db, f, limit, now, answers, at), kind)| == |FlagsOf(db, kind)|
    ensures FlagsOf(Batch(db, f, limit, now, answers, at), kind)[j]
       <==> FlagsOf(db, kind)[j] || TakenAndAccepted(db.rows, now, limit, f, answers, kind, j)
  {
    var mid := db.(rows := AfterClaim(db.rows, now, limit, LEASE_SECONDS, f));
    BatchUnfolds(db, mid, f, limit, now, answers, at);
    ClaimIsBatched(db, mid, f, limit, now);
    AcksFlag(Sys(mid, at, {}), ClaimedItems(db.rows, now, limit, f), now + LEASE_SECONDS, answers, at, kind, j);
    ClaimKeepsKinds(db.rows, f, limit, now);
    forall i: nat | i < |db.rows|
      ensures Holds(ClaimedItems(db.rows, now, limit, f), i) <==> Taken(db.rows, i, now, limit, f)
    {
      ClaimHolds(db.rows, f, limit, now, i);
    }
    AnnouncedExactly(db.rows, mid, ClaimedItems(db.rows, now, limit, f), f, limit, now, answers, kind, j);
  }

  // ---------- The count of a batch ----------

  function AcceptedIds(items: seq<Item>, answers: nat -> SendOutcome): set<nat> {
    set k | 0 <= k < |items| && answers(items[k].id) == Accepted :: items[k].id
  }

  lemma {:induction false} AcceptsCounts(items: seq<Item>, answers: nat -> SendOutcome)
    requires forall a, b | 0 <= a < b < |items| :: items[a].id < items[b].id
    ensures Accepts(items, answers) == |AcceptedIds(items, answers)|
  {
    if items == [] {
      assert AcceptedIds(items, answers) == {};
    } else {
      var n := |items| - 1;
      AcceptsCounts(items[..n], answers);
      var before, after := AcceptedIds(items[..n], answers), AcceptedIds(items, answers);
      forall id: nat ensures id in after <==> id in before || (answers(items[n].id) == Accepted && id == items[n].id) {
        if id in before {
          var k :| 0 <= k < n && answers(items[..n][k].id) == Accepted && items[..n][k].id == id;
          assert items[k].id == id;
        }
        if id in after {
          var k :| 0 <= k < |items| && answers(items[k].id) == Accepted && items[k].id == id;
          assert k < n ==> items[..n][k].id == id;
        }
      }
      OneMore(before, after, items[n].id, answers(items[n].id) == Accepted);
    }
  }

  /** A batch reports as delivered the number of rows that its claim takes and Telegram accepts. */
  lemma BatchCounts(rows: seq<Row>, f: Filter, limit: nat, now: int, answers: nat -> SendOutcome)
    ensures Accepts(ClaimedItems(rows, now, limit, f), answers)
         == |set i: nat | i < |rows| && Taken(rows, i, now, limit, f) && answers(i) == Accepted|
  {
    var items := ClaimedItems(rows, now, limit, f);
    AcceptsCounts(items, answers);
    var taken := set i: nat | i < |rows| && Taken(rows, i, now, limit, f) && answers(i) == Accepted;
    forall i: nat ensures i in AcceptedIds(items, answers) <==> i in taken {
      if i < |rows| {
        ClaimHolds(rows, f, limit, now, i);
      }
    }
    assert AcceptedIds(items, answers) == taken;
  }
}
