/** Delivery ends: without the operator, a message of the offline queue is completed, given up,
    expired, evicted or deleted, after no more steps than its rank. */
module QueueEnds {
  import opened Common
  import opened QueueItems
  import opened QueueRows
  import opened QueueSteps
  import opened QueueTheorems
  import opened QueueDelivery

  /** The row with this number, if it is there. */
  function RowOf(q: Queue, x: nat): Option<Item> {
    var i := IndexOfId(q.rows, x);
    if i.Some? then Some(q.rows[i.value]) else None
  }

  predicate Live(q: Queue, x: nat) {
    RowOf(q, x).Some? && RowOf(q, x).value.status != Dead
  }

  function RankOf(o: Options, q: Queue, x: nat): nat {
    var r := RowOf(q, x);
    if r.Some? && r.value.retries <= o.maxAttempts then Rank(o, r.value) else 0
  }

  /** The step brings the dead row back: the operator does, or a late answer that finds it with an
      attempt left. */
  predicate Raises(o: Options, q: Queue, op: Op, x: nat) {
    var r := RowOf(q, x);
    && r.Some? && r.value.status == Dead
    && match op
       case OpRevive(m, _) => m == r.value.messageId
       case OpNack(m, _) => m == r.value.messageId && r.value.retries < o.maxAttempts
       case _ => false
  }

  /** The step brings the live row on: it makes progress with it, or removes it. */
  predicate Advances(o: Options, q: Queue, op: Op, x: nat) {
    && Live(q, x)
    && (|| RowOf(Step(o, q, op), x).None?
        || (var e := EventOf(op, RowOf(q, x).value);
            e.Some? && Progresses(o, RowOf(q, x).value, e.value.event, e.value.now)))
  }

  lemma RowOfIs(q: Queue, r: Item)
    requires Keyed(q) && r in q.rows
    ensures RowOf(q, r.id) == Some(r)
  {
    IndexOfIdIsTheOnly(q, r);
  }

  lemma RowOfIsThere(q: Queue, x: nat)
    ensures RowOf(q, x).Some? ==> RowOf(q, x).value in q.rows && RowOf(q, x).value.id == x
  {
  }

  lemma UnraisedEvent(o: Options, q: Queue, op: Op, r: Item)
    requires Keyed(q) && r in q.rows && !Raises(o, q, op, r.id)
    requires op.OpPublish? ==> HasAttempt(o, q, op.messageId)
    ensures EventOf(op, r).Some? ==> Unraising(o, r, EventOf(op, r).value.event)
  {
    hide Keyed;
    RowOfIs(q, r);
    FindIsTheOnly(q, r.messageId);
  }

  /** No step raises the rank of a row unless it brings it back, and each that brings it on lowers
      it. */
  lemma StepLowersRank(o: Options, q: Queue, op: Op, x: nat)
    requires ValidOptions(o) && QueueOk(o, q) && x < q.nextId && !Raises(o, q, op, x)
    requires op.OpPublish? ==> HasAttempt(o, q, op.messageId)
    ensures RankOf(o, Step(o, q, op), x) + (if Advances(o, q, op, x) then 1 else 0) <= RankOf(o, q, x)
  {
    hide Keyed, Bytes, Step, Evolve, Raises, Unraising, Progresses;
    var q' := Step(o, q, op);
    RowOfIsThere(q, x);
    RowOfIsThere(q', x);
    if RowOf(q', x).Some? {
      var after := RowOf(q', x).value;
      var r := RowHasAncestor(o, q, op, after);
      RowOfIs(q, r);
      assert LifeOk(o, r);
      UnraisedEvent(o, q, op, r);
      var e := EventOf(op, r);
      if e.Some? {
        ProgressLowersRank(o, r, e.value.event, e.value.now);
      }
    } else if Live(q, x) {
      assert LifeOk(o, RowOf(q, x).value);
    }
  }

  predicate NeverRaised(o: Options, q: Queue, ops: seq<Op>, x: nat)
    decreases |ops|
  {
    ops != [] ==> !Raises(o, q, ops[0], x) && NeverRaised(o, Step(o, q, ops[0]), ops[1..], x)
  }

  function AdvancesIn(o: Options, q: Queue, ops: seq<Op>, x: nat): nat
    decreases |ops|
  {
    if ops == [] then 0
    else (if Advances(o, q, ops[0], x) then 1 else 0) + AdvancesIn(o, Step(o, q, ops[0]), ops[1..], x)
  }

  lemma RankIsBounded(o: Options, q: Queue, x: nat)
    requires QueueOk(o, q)
    ensures RankOf(o, q, x) <= 2 * o.maxAttempts + 1
    ensures RankOf(o, q, x) == 0 <==> !Live(q, x)
  {
    hide Keyed, Bytes;
    RowOfIsThere(q, x);
    if RowOf(q, x).Some? {
      assert LifeOk(o, RowOf(q, x).value);
    }
  }

  /** Over every disciplined run in which nothing brings it back, whatever the server answers and
      whatever else happens in the queue: the steps that bring a row on use its rank up, and once
      there have been that many the row is dead or gone. */
  lemma {:induction false} DeliveryEndsInQueue(o: Options, q: Queue, ops: seq<Op>, x: nat)
    requires ValidOptions(o) && QueueOk(o, q) && Disciplined(o, q, ops) && NeverRaised(o, q, ops, x) && x < q.nextId
    ensures AdvancesIn(o, q, ops, x) + RankOf(o, Run(o, q, ops), x) <= RankOf(o, q, x) <= 2 * o.maxAttempts + 1
    ensures AdvancesIn(o, q, ops, x) >= RankOf(o, q, x) ==> !Live(Run(o, q, ops), x)
    decreases |ops|
  {
    hide QueueOk, HasAttempt, Step, Advances, Raises, RankOf, Live;
    RankIsBounded(o, q, x);
    if ops != [] {
      StepKeepsOk(o, q, ops[0]);
      KeysOfOk(o, q);
      StepKeepsKeyed(o, q, ops[0]);
      StepLowersRank(o, q, ops[0], x);
      DeliveryEndsInQueue(o, Step(o, q, ops[0]), ops[1..], x);
    }
  }

  // ---------------------------------------------------------------- how it ends

  /** A removal of this row is written down among the events from `from` on. */
  predicate WrittenDown(audit: seq<AuditEvent>, from: nat, r: Item) {
    exists i :: from <= i < |audit| && audit[i].messageId == r.messageId && audit[i].topic == r.topic
                && audit[i].status == r.status && (audit[i].reason == Expired || audit[i].reason == PayloadBudgetEviction)
  }

  /** The ways in which a step takes a row away. */
  predicate Takes(o: Options, q: Queue, op: Op, r: Item) {
    || op == OpComplete(r.messageId)
    || op == OpDelete(r.id)
    || WrittenDown(Step(o, q, op).audit, |q.audit|, r)
  }

  lemma StillThere(q: Queue, r: Item)
    requires r in q.rows
    ensures RowOf(q, r.id).Some?
  {
  }

  lemma EvolvedIsThere(o: Options, q: Queue, i: Option<nat>, e: Event, now: int, r: Item)
    requires (i.Some? ==> i.value < |q.rows|) && r in q.rows
    ensures RowOf(EvolveAt(o, q, i, e, now), r.id).Some?
  {
    hide Evolve;
    var j :| 0 <= j < |q.rows| && q.rows[j] == r;
    var q' := EvolveAt(o, q, i, e, now);
    if i.Some? {
      EvolveKeepsIdentity(o, q.rows[i.value], e, now);
    }
    assert q'.rows[j].id == r.id;
  }

  lemma RemovedIsWritten(q: Queue, gone: seq<Item>, reason: Reason, now: int, r: Item)
    requires Keyed(q) && r in q.rows && (forall g :: g in gone ==> g in q.rows) && (reason == Expired || reason == PayloadBudgetEviction)
    ensures var q' := Removed(q, gone, reason, now);
            && (r in q'.rows || WrittenDown(q'.audit, |q.audit|, r))
            && q.audit <= q'.audit
  {
    hide Without, DistinctMessages;
    KeyedMeans(q);
    RemovalIsWrittenDown(q, gone, reason, now, r);
    var q' := Removed(q, gone, reason, now);
    if r !in q'.rows {
      var i :| |q.audit| <= i < |q'.audit| && q'.audit[i] == AuditOf(r, reason, now);
      assert q'.audit[i].messageId == r.messageId;
    }
  }

  lemma ExpiredIsWritten(o: Options, q: Queue, now: int, r: Item)
    requires Keyed(q) && r in q.rows
    ensures r in Expire(o, q, now).rows || WrittenDown(Expire(o, q, now).audit, |q.audit|, r)
    ensures q.audit <= Expire(o, q, now).audit && Keyed(Expire(o, q, now))
  {
    hide Keyed;
    OlderThanExactly(q.rows, now - o.maxAge);
    RemovedIsWritten(q, OlderThan(q.rows, now - o.maxAge), Expired, now, r);
    RemovalKeepsKeyed(q, OlderThan(q.rows, now - o.maxAge), Expired, now);
  }

  lemma EvictedIsWritten(o: Options, q: Queue, incoming: nat, now: int, r: Item)
    requires Keyed(q) && r in q.rows
    ensures r in Evict(o, q, incoming, now).rows || WrittenDown(Evict(o, q, incoming, now).audit, |q.audit|, r)
    ensures q.audit <= Evict(o, q, incoming, now).audit
  {
    hide Keyed;
    MemberOfByAge(q.rows);
    RemovedIsWritten(q, Victims(q.rows, Bytes(q.rows) + incoming - o.maxBytes), PayloadBudgetEviction, now, r);
  }

  lemma WrittenDownLater(audit: seq<AuditEvent>, audit': seq<AuditEvent>, from: nat, from': nat, r: Item)
    requires WrittenDown(audit, from, r) && audit <= audit' && from' <= from
    ensures WrittenDown(audit', from', r)
  {
    var i :| from <= i < |audit| && audit[i].messageId == r.messageId && audit[i].topic == r.topic
             && audit[i].status == r.status && (audit[i].reason == Expired || audit[i].reason == PayloadBudgetEviction);
    assert audit'[i] == audit[i];
  }

  /** Making room: what expires and what is evicted is written down. */
  lemma RoomIsWritten(o: Options, q: Queue, incoming: nat, now: int, r: Item)
    requires Keyed(q) && r in q.rows
    ensures var room := Evict(o, Expire(o, q, now), incoming, now);
            r in room.rows || WrittenDown(room.audit, |q.audit|, r)
  {
    hide Keyed, Expire, Evict, WrittenDown;
    var left := Expire(o, q, now);
    ExpiredIsWritten(o, q, now, r);
    if r in left.rows {
      EvictedIsWritten(o, left, incoming, now, r);
      if WrittenDown(Evict(o, left, incoming, now).audit, |left.audit|, r) {
        WrittenDownLater(Evict(o, left, incoming, now).audit, Evict(o, left, incoming, now).audit, |left.audit|, |q.audit|, r);
      }
    } else {
      AuditGrows(o, left, incoming, now);
      WrittenDownLater(left.audit, Evict(o, left, incoming, now).audit, |q.audit|, |q.audit|, r);
    }
  }

  lemma AuditGrows(o: Options, q: Queue, incoming: nat, now: int)
    ensures q.audit <= Evict(o, q, incoming, now).audit
  {
  }

  lemma EnqueueTakes(o: Options, q: Queue, request: Request, now: int, r: Item)
    requires Keyed(q) && r in q.rows && RowOf(Enqueued(o, q, request, now), r.id).None?
    ensures WrittenDown(Enqueued(o, q, request, now).audit, |q.audit|, r)
  {
    hide Keyed, Expire, Evict, WrittenDown, RowOf;
    var q', left := Enqueued(o, q, request, now), Expire(o, q, now);
    if r in q'.rows {
      StillThere(q', r);
    }
    if Acceptable(o, request) {
      ExpiredIsWritten(o, q, now, r);
      RoomIsWritten(o, q, request.bytes, now, r);
    }
  }

  lemma SweptIsThere(o: Options, q: Queue, now: int, r: Item)
    requires r in q.rows
    ensures RowOf(Swept(o, q, now), r.id).Some?
  {
    hide Evolve;
    var j :| 0 <= j < |q.rows| && q.rows[j] == r;
    EvolveKeepsIdentity(o, r, Deadline, now);
    assert Swept(o, q, now).rows[j].id == r.id;
  }

  lemma DueTakes(o: Options, q: Queue, now: int, later: int, r: Item)
    requires Keyed(q) && r in q.rows && RowOf(Step(o, q, OpDue(now, later)), r.id).None?
    ensures WrittenDown(Step(o, q, OpDue(now, later)).audit, |q.audit|, r)
  {
    hide Keyed, Expire, Evolve, WrittenDown, RowOf;
    ExpiredIsWritten(o, q, now, r);
    if r in Expire(o, q, now).rows {
      SweptIsThere(o, Expire(o, q, now), later, r);
    }
  }

  lemma CompletionTakes(q: Queue, m: string, r: Item)
    requires Keyed(q) && r in q.rows && RowOf(WithoutMessage(q, m), r.id).None?
    ensures r.messageId == m && Find(q, m) == Some(r)
  {
    hide RowOf;
    var item := Find(q, m);
    FindIsTheOnly(q, r.messageId);
    if item.Some? {
      WithoutMembers(q.rows, {item.value.id});
    }
    if r in WithoutMessage(q, m).rows {
      StillThere(WithoutMessage(q, m), r);
    } else {
      SameIdSameRow(q.rows, r, item.value);
    }
  }

  /** A live row that a step takes away was completed, deleted, expired or evicted. */
  lemma LiveRowIsTaken(o: Options, q: Queue, op: Op, r: Item)
    requires Keyed(q) && r in q.rows && r.status != Dead && RowOf(Step(o, q, op), r.id).None?
    ensures Takes(o, q, op, r)
  {
    hide Keyed, Expire, Evict, Evolve, WrittenDown, RowOf;
    match op
    case OpEnqueue(request, now) => EnqueueTakes(o, q, request, now, r);
    case OpDue(now, later) => DueTakes(o, q, now, later, r);
    case OpPublish(m, now) => EvolvedIsThere(o, q, IndexOf(q.rows, m), Publish, now, r);
    case OpFail(id, now) => EvolvedIsThere(o, q, IndexOfId(q.rows, id), Fail, now, r);
    case OpNack(m, now) => EvolvedIsThere(o, q, IndexOf(q.rows, m), Nack, now, r);
    case OpReject(m, now) => RejectionTakesNothing(o, q, m, now, r);
    case OpComplete(m) => CompletionTakes(q, m, r);
    case OpRevive(m, now) => RevivalTakesNothing(o, q, m, now, r);
    case OpResolve(m, now) => ResolutionTakesNoLive(q, m, now, r);
    case OpExpire(now) =>
      ExpiredIsWritten(o, q, now, r);
      if r in Expire(o, q, now).rows {
        StillThere(Expire(o, q, now), r);
      }
    case OpDelete(id) => DeletionTakes(q, id, r);
    case OpReopen(now) =>
      RoomIsWritten(o, q, 0, now, r);
      if r in Opened(o, q, now).rows {
        StillThere(Opened(o, q, now), r);
      }
  }

  lemma DeletionTakes(q: Queue, id: nat, r: Item)
    requires Keyed(q) && r in q.rows && RowOf(q.(rows := Without(q.rows, {id})), r.id).None?
    ensures r.id == id
  {
    hide Keyed, RowOf;
    DeletionKeepsKeyed(q, id);
    if r.id != id {
      StillThere(q.(rows := Without(q.rows, {id})), r);
    }
  }

  lemma RejectionTakesNothing(o: Options, q: Queue, m: string, now: int, r: Item)
    requires r in q.rows
    ensures RowOf(Rejected(o, q, m, now), r.id).Some?
  {
    hide Evolve;
    EvolvedIsThere(o, q, IndexOf(q.rows, m), Reject, now, r);
    StillThere(q, r);
  }

  lemma RevivalTakesNothing(o: Options, q: Queue, m: string, now: int, r: Item)
    requires r in q.rows
    ensures RowOf(Revived(o, q, m, now), r.id).Some?
  {
    hide Evolve;
    EvolvedIsThere(o, q, IndexOf(q.rows, m), Revive, now, r);
    StillThere(q, r);
  }

  lemma ResolutionTakesNoLive(q: Queue, m: string, now: int, r: Item)
    requires Keyed(q) && r in q.rows && r.status != Dead
    ensures RowOf(Resolved(q, m, now), r.id).Some?
  {
    StillThere(q, r);
    var item := ToResolve(q, m);
    if item.Some? {
      var noted := Noted(ResolveBlocker(q, m), item.value, DeadResolved, now);
      if RowOf(WithoutMessage(noted, m), r.id).None? {
        CompletionTakes(noted, m, r);
      }
    }
  }

  /** The row stops being live in a step that gives it up, or takes it away. */
  predicate EndsLive(o: Options, q: Queue, ops: seq<Op>, x: nat)
    decreases |ops|
  {
    && ops != [] && Live(q, x)
    && if Live(Step(o, q, ops[0]), x) then EndsLive(o, Step(o, q, ops[0]), ops[1..], x)
       else RowOf(Step(o, q, ops[0]), x).Some? || Takes(o, q, ops[0], RowOf(q, x).value)
  }

  /** So in every run in which as many steps bring a live message on as its rank says, there is one
      that completes it, gives it up, or removes it for its age, for the budget or by its number. */
  lemma DeliveryHasAnEnd(o: Options, q: Queue, ops: seq<Op>, x: nat)
    requires ValidOptions(o) && QueueOk(o, q) && Disciplined(o, q, ops) && NeverRaised(o, q, ops, x) && x < q.nextId
    requires Live(q, x) && AdvancesIn(o, q, ops, x) >= RankOf(o, q, x)
    ensures EndsLive(o, q, ops, x)
  {
    hide QueueOk, Step, Live;
    DeliveryEndsInQueue(o, q, ops, x);
    KeysOfOk(o, q);
    NoLongerLive(o, q, ops, x);
  }

  lemma {:induction false} NoLongerLive(o: Options, q: Queue, ops: seq<Op>, x: nat)
    requires Keyed(q) && Live(q, x) && !Live(Run(o, q, ops), x)
    ensures EndsLive(o, q, ops, x)
    decreases |ops|
  {
    hide Keyed, Step, Takes;
    StepKeepsKeyed(o, q, ops[0]);
    RowOfIsThere(q, x);
    if Live(Step(o, q, ops[0]), x) {
      NoLongerLive(o, Step(o, q, ops[0]), ops[1..], x);
    } else if RowOf(Step(o, q, ops[0]), x).None? {
      LiveRowIsTaken(o, q, ops[0], RowOf(q, x).value);
    }
  }
}
