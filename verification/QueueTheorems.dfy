/** What the offline queue keeps over every run: its keys, the byte budget and the bound on
    attempts; and what leaves it. */
module QueueTheorems {
  import opened Common
  import opened QueueItems
  import opened QueueRows
  import opened QueueSteps

  ghost predicate DistinctMessages(rows: seq<Item>) {
    forall i, j :: 0 <= i < j < |rows| ==> rows[i].messageId != rows[j].messageId
  }

  /** No two rows of an id or of a message, and numbers are never used again. */
  ghost predicate Keyed(q: Queue) {
    && DistinctIds(q.rows) && DistinctMessages(q.rows)
    && (forall r :: r in q.rows ==> r.id < q.nextId)
  }

  ghost predicate RowsOk(o: Options, q: Queue) {
    Keyed(q) && (forall r :: r in q.rows ==> LifeOk(o, r))
  }

  ghost predicate QueueOk(o: Options, q: Queue) {
    RowsOk(o, q) && Bytes(q.rows) <= o.maxBytes
  }

  // ---------------------------------------------------------------- keeping the rows in order

  lemma {:induction false} WithoutKeepsDistinctMessages(rows: seq<Item>, ids: set<nat>)
    requires DistinctMessages(rows)
    ensures DistinctMessages(Without(rows, ids))
    decreases |rows|
  {
    if rows != [] {
      var init, last := rows[..|rows| - 1], rows[|rows| - 1];
      WithoutKeepsDistinctMessages(init, ids);
      WithoutMembers(init, ids);
      forall r | r in init
        ensures r.messageId != last.messageId
      {
        var i :| 0 <= i < |init| && init[i] == r;
        assert rows[i] == r;
      }
    }
  }

  lemma RemovalKeepsKeyed(q: Queue, gone: seq<Item>, reason: Reason, now: int)
    requires Keyed(q)
    ensures Keyed(Removed(q, gone, reason, now))
    ensures forall r :: r in Removed(q, gone, reason, now).rows ==> r in q.rows
  {
    hide DistinctIds, DistinctMessages;
    WithoutDistinct(q.rows, Ids(gone));
    WithoutKeepsDistinctMessages(q.rows, Ids(gone));
    WithoutMembers(q.rows, Ids(gone));
  }

  lemma RemovalKeepsOk(o: Options, q: Queue, gone: seq<Item>, reason: Reason, now: int)
    requires RowsOk(o, q)
    ensures RowsOk(o, Removed(q, gone, reason, now))
    ensures Bytes(Removed(q, gone, reason, now).rows) <= Bytes(q.rows)
  {
    hide Keyed;
    RemovalKeepsKeyed(q, gone, reason, now);
    WithoutBytes(q.rows, Ids(gone));
  }

  lemma {:induction false} SameSizesSameBytes(rows: seq<Item>, rows': seq<Item>)
    requires |rows'| == |rows| && forall i :: 0 <= i < |rows| ==> rows'[i].bytes == rows[i].bytes
    ensures Bytes(rows') == Bytes(rows)
    decreases |rows|
  {
    if rows != [] {
      SameSizesSameBytes(rows[..|rows| - 1], rows'[..|rows| - 1]);
    }
  }

  lemma EvolveKeepsIdentity(o: Options, item: Item, e: Event, now: int)
    ensures var after := Evolve(o, item, e, now);
            && after.id == item.id && after.messageId == item.messageId && after.topic == item.topic
            && after.bytes == item.bytes && after.created == item.created
  {
  }

  lemma EvolvedKeepsKeyed(q: Queue, rows': seq<Item>, blockers: map<string, Blocker>)
    requires Keyed(q) && |rows'| == |q.rows|
    requires forall i :: 0 <= i < |q.rows| ==> rows'[i].id == q.rows[i].id && rows'[i].messageId == q.rows[i].messageId
    ensures Keyed(q.(rows := rows', blockers := blockers))
  {
    forall r | r in rows'
      ensures r.id < q.nextId
    {
      var i :| 0 <= i < |rows'| && rows'[i] == r;
      assert q.rows[i] in q.rows;
    }
  }

  lemma EvolvedRowsOk(o: Options, q: Queue, rows': seq<Item>, blockers: map<string, Blocker>)
    requires QueueOk(o, q) && |rows'| == |q.rows|
    requires forall i :: 0 <= i < |q.rows| ==>
               && rows'[i].id == q.rows[i].id && rows'[i].messageId == q.rows[i].messageId
               && rows'[i].bytes == q.rows[i].bytes && LifeOk(o, rows'[i])
    ensures QueueOk(o, q.(rows := rows', blockers := blockers))
  {
    hide Keyed;
    SameSizesSameBytes(q.rows, rows');
    EvolvedKeepsKeyed(q, rows', blockers);
  }

  /** An attempt is only started on a message that has one left. */
  predicate HasAttempt(o: Options, q: Queue, messageId: string) {
    var item := Find(q, messageId);
    item.Some? ==> item.value.status == Dead || item.value.retries < o.maxAttempts
  }

  lemma EvolveAtKeepsOk(o: Options, q: Queue, i: nat, e: Event, now: int)
    requires ValidOptions(o) && QueueOk(o, q) && i < |q.rows|
    requires e == Publish ==> q.rows[i].status == Dead || q.rows[i].retries < o.maxAttempts || o.maxAttempts == MAX_INT
    ensures QueueOk(o, EvolveAt(o, q, Some(i), e, now))
  {
    hide Keyed;
    EvolveKeepsIdentity(o, q.rows[i], e, now);
    assert q.rows[i] in q.rows;
    EvolveKeepsLifeExactlyWhen(o, q.rows[i], e, now);
    forall j | 0 <= j < |q.rows|
      ensures LifeOk(o, q.rows[j])
    {
      assert q.rows[j] in q.rows;
    }
    EvolvedRowsOk(o, q, q.rows[i := Evolve(o, q.rows[i], e, now)], q.blockers);
  }

  lemma SweepKeepsOk(o: Options, q: Queue, now: int)
    requires ValidOptions(o) && QueueOk(o, q)
    ensures QueueOk(o, Swept(o, q, now))
  {
    forall i | 0 <= i < |q.rows|
      ensures LifeOk(o, Evolve(o, q.rows[i], Deadline, now))
      ensures Evolve(o, q.rows[i], Deadline, now).bytes == q.rows[i].bytes
      ensures Evolve(o, q.rows[i], Deadline, now).id == q.rows[i].id
      ensures Evolve(o, q.rows[i], Deadline, now).messageId == q.rows[i].messageId
    {
      assert q.rows[i] in q.rows;
      EvolveKeepsIdentity(o, q.rows[i], Deadline, now);
      EvolveKeepsLifeExactlyWhen(o, q.rows[i], Deadline, now);
    }
    EvolvedRowsOk(o, q, EvolveAll(o, q.rows, Deadline, now), Swept(o, q, now).blockers);
  }

  lemma InsertionKeepsKeyed(q: Queue, r: Request, now: int)
    requires Keyed(q) && forall i :: 0 <= i < |q.rows| ==> q.rows[i].messageId != r.messageId
    ensures Keyed(Inserted(q, r, now))
  {
    forall i | 0 <= i < |q.rows|
      ensures q.rows[i].id < q.nextId
    {
      assert q.rows[i] in q.rows;
    }
  }

  lemma InsertionKeepsOk(o: Options, q: Queue, r: Request, now: int)
    requires ValidOptions(o) && RowsOk(o, q) && Bytes(q.rows) + r.bytes <= o.maxBytes
    requires forall i :: 0 <= i < |q.rows| ==> q.rows[i].messageId != r.messageId
    ensures QueueOk(o, Inserted(q, r, now))
  {
    hide Keyed, Bytes, LifeOk;
    InsertionKeepsKeyed(q, r, now);
    var q' := Inserted(q, r, now);
    var last := q'.rows[|q.rows|];
    BytesAppend(q.rows, last);
    NewRowIsAlive(o, last);
    forall x | x in q'.rows
      ensures LifeOk(o, x)
    {
      assert x in q.rows || x == last;
    }
  }

  lemma NewRowIsAlive(o: Options, item: Item)
    requires ValidOptions(o) && item.status == Pending && item.retries == 0 && item.due.Some?
    ensures LifeOk(o, item)
  {
  }

  lemma ExpiryKeepsOk(o: Options, q: Queue, now: int)
    requires RowsOk(o, q)
    ensures RowsOk(o, Expire(o, q, now)) && Bytes(Expire(o, q, now).rows) <= Bytes(q.rows)
  {
    RemovalKeepsOk(o, q, OlderThan(q.rows, now - o.maxAge), Expired, now);
  }

  lemma EvictionKeepsOk(o: Options, q: Queue, incoming: nat, now: int)
    requires RowsOk(o, q) && incoming <= o.maxBytes
    ensures RowsOk(o, Evict(o, q, incoming, now)) && Bytes(Evict(o, q, incoming, now).rows) + incoming <= o.maxBytes
    ensures forall r :: r in Evict(o, q, incoming, now).rows ==> r in q.rows
  {
    var gone := Victims(q.rows, Bytes(q.rows) + incoming - o.maxBytes);
    RemovalKeepsOk(o, q, gone, PayloadBudgetEviction, now);
    EvictionMeetsBudget(o, q, incoming, now);
    WithoutMembers(q.rows, Ids(gone));
  }

  /** An accepted message fits the budget, whatever was in the queue before. */
  lemma EnqueueKeepsOk(o: Options, q: Queue, r: Request, now: int)
    requires ValidOptions(o) && QueueOk(o, q)
    ensures QueueOk(o, Enqueued(o, q, r, now))
  {
    if Acceptable(o, r) {
      ExpiryKeepsOk(o, q, now);
      var left := Expire(o, q, now);
      if IndexOf(left.rows, r.messageId).None? {
        EvictionKeepsOk(o, left, r.bytes, now);
        var room := Evict(o, left, r.bytes, now);
        forall i | 0 <= i < |room.rows|
          ensures room.rows[i].messageId != r.messageId
        {
          assert room.rows[i] in left.rows;
        }
        InsertionKeepsOk(o, room, r, now);
      }
    }
  }

  /** Opening with a new budget makes the queue fit it, whatever else the new options are; and it
      is in order if no row has more attempts than they allow. */
  lemma OpeningMeetsBudget(o: Options, q: Queue, now: int)
    requires DistinctIds(q.rows)
    ensures Bytes(Opened(o, q, now).rows) <= o.maxBytes
    ensures RowsOk(o, q) ==> QueueOk(o, Opened(o, q, now))
  {
    hide Keyed;
    WithoutDistinct(q.rows, Ids(OlderThan(q.rows, now - o.maxAge)));
    EvictionMeetsBudget(o, Expire(o, q, now), 0, now);
    if RowsOk(o, q) {
      ExpiryKeepsOk(o, q, now);
      EvictionKeepsOk(o, Expire(o, q, now), 0, now);
    }
  }

  lemma WithoutMessageKeepsOk(o: Options, q: Queue, messageId: string)
    requires QueueOk(o, q)
    ensures QueueOk(o, WithoutMessage(q, messageId))
  {
    var item := Find(q, messageId);
    if item.Some? {
      WithoutDistinct(q.rows, {item.value.id});
      WithoutKeepsDistinctMessages(q.rows, {item.value.id});
      WithoutMembers(q.rows, {item.value.id});
      WithoutBytes(q.rows, {item.value.id});
    }
  }

  lemma TouchKeepsOk(o: Options, q: Queue, messageId: string, e: Event, now: int)
    requires ValidOptions(o) && QueueOk(o, q) && (e == Publish ==> HasAttempt(o, q, messageId) || o.maxAttempts == MAX_INT)
    ensures QueueOk(o, Touched(o, q, messageId, e, now))
  {
    var i := IndexOf(q.rows, messageId);
    if i.Some? {
      EvolveAtKeepsOk(o, q, i.value, e, now);
    }
  }

  lemma FailKeepsOk(o: Options, q: Queue, id: nat, now: int)
    requires ValidOptions(o) && QueueOk(o, q)
    ensures QueueOk(o, EvolveAt(o, q, IndexOfId(q.rows, id), Fail, now))
  {
    var i := IndexOfId(q.rows, id);
    if i.Some? {
      EvolveAtKeepsOk(o, q, i.value, Fail, now);
    }
  }

  lemma OperatorKeepsOk(o: Options, q: Queue, messageId: string, now: int)
    requires ValidOptions(o) && QueueOk(o, q)
    ensures QueueOk(o, Revived(o, q, messageId, now)) && QueueOk(o, Resolved(q, messageId, now))
  {
    TouchKeepsOk(o, q, messageId, Revive, now);
    var item := ToResolve(q, messageId);
    if item.Some? {
      WithoutMessageKeepsOk(o, Noted(ResolveBlocker(q, messageId), item.value, DeadResolved, now), messageId);
    }
  }

  lemma DueKeepsOk(o: Options, q: Queue, now: int, later: int)
    requires ValidOptions(o) && QueueOk(o, q)
    ensures QueueOk(o, Swept(o, Expire(o, q, now), later))
  {
    ExpiryKeepsOk(o, q, now);
    SweepKeepsOk(o, Expire(o, q, now), later);
  }

  lemma RejectionKeepsOk(o: Options, q: Queue, messageId: string, now: int)
    requires ValidOptions(o) && QueueOk(o, q)
    ensures QueueOk(o, Rejected(o, q, messageId, now))
  {
    TouchKeepsOk(o, q, messageId, Reject, now);
  }

  lemma DeletionKeepsOk(o: Options, q: Queue, id: nat)
    requires QueueOk(o, q)
    ensures QueueOk(o, q.(rows := Without(q.rows, {id})))
  {
    WithoutDistinct(q.rows, {id});
    WithoutKeepsDistinctMessages(q.rows, {id});
    WithoutMembers(q.rows, {id});
    WithoutBytes(q.rows, {id});
  }

  lemma ReopeningKeepsOk(o: Options, q: Queue, now: int)
    requires QueueOk(o, q)
    ensures QueueOk(o, Opened(o, q, now))
  {
    hide Keyed;
    assert DistinctIds(q.rows) by { KeyedMeans(q); }
    OpeningMeetsBudget(o, q, now);
  }

  lemma KeyedMeans(q: Queue)
    requires Keyed(q)
    ensures DistinctIds(q.rows) && DistinctMessages(q.rows)
  {
  }

  lemma StepKeepsOk(o: Options, q: Queue, op: Op)
    requires ValidOptions(o) && QueueOk(o, q) && (op.OpPublish? ==> HasAttempt(o, q, op.messageId) || o.maxAttempts == MAX_INT)
    ensures QueueOk(o, Step(o, q, op))
  {
    match op
    case OpEnqueue(r, now) => EnqueueKeepsOk(o, q, r, now);
    case OpDue(now, later) => DueKeepsOk(o, q, now, later);
    case OpPublish(m, now) => TouchKeepsOk(o, q, m, Publish, now);
    case OpFail(id, now) => FailKeepsOk(o, q, id, now);
    case OpNack(m, now) => TouchKeepsOk(o, q, m, Nack, now);
    case OpReject(m, now) => RejectionKeepsOk(o, q, m, now);
    case OpComplete(m) => WithoutMessageKeepsOk(o, q, m);
    case OpRevive(m, now) => OperatorKeepsOk(o, q, m, now);
    case OpResolve(m, now) => OperatorKeepsOk(o, q, m, now);
    case OpExpire(now) => ExpiryKeepsOk(o, q, now);
    case OpDelete(id) => DeletionKeepsOk(o, q, id);
    case OpReopen(now) => ReopeningKeepsOk(o, q, now);
  }

  /** Attempts are only started on messages that have one left. */
  predicate Disciplined(o: Options, q: Queue, ops: seq<Op>)
    decreases |ops|
  {
    ops != [] ==>
      (ops[0].OpPublish? ==> HasAttempt(o, q, ops[0].messageId)) && Disciplined(o, Step(o, q, ops[0]), ops[1..])
  }

  /** Marking without an attempt left is the one step that breaks the bound. */
  lemma StepIsOkExactlyWhen(o: Options, q: Queue, op: Op)
    requires ValidOptions(o) && QueueOk(o, q)
    ensures QueueOk(o, Step(o, q, op))
            <==> (op.OpPublish? ==> HasAttempt(o, q, op.messageId) || o.maxAttempts == MAX_INT)
  {
    hide Keyed;
    if op.OpPublish? ==> HasAttempt(o, q, op.messageId) || o.maxAttempts == MAX_INT {
      StepKeepsOk(o, q, op);
    } else {
      var i := IndexOf(q.rows, op.messageId).value;
      assert q.rows[i] in q.rows;
      EvolveKeepsLifeExactlyWhen(o, q.rows[i], Publish, op.now);
      assert Step(o, q, op).rows[i] in Step(o, q, op).rows;
    }
  }

  ghost predicate AlwaysOk(o: Options, q: Queue, ops: seq<Op>)
    decreases |ops|
  {
    QueueOk(o, q) && (ops != [] ==> AlwaysOk(o, Step(o, q, ops[0]), ops[1..]))
  }

  /** Over every run: the live payloads stay within the budget, and no message is attempted more
      often than allowed, at every instant exactly when no attempt is started on a message that
      has none left. */
  lemma {:induction false} RunIsOkExactlyWhen(o: Options, q: Queue, ops: seq<Op>)
    requires ValidOptions(o) && QueueOk(o, q)
    ensures AlwaysOk(o, q, ops) <==> Disciplined(o, q, ops) || o.maxAttempts == MAX_INT
    decreases |ops|
  {
    hide QueueOk, HasAttempt, Step;
    if ops != [] {
      StepIsOkExactlyWhen(o, q, ops[0]);
      if QueueOk(o, Step(o, q, ops[0])) {
        RunIsOkExactlyWhen(o, Step(o, q, ops[0]), ops[1..]);
      }
    }
  }

  // ---------------------------------------------------------------- what every step keeps of the keys

  lemma WithoutMessageKeepsKeyed(q: Queue, messageId: string)
    requires Keyed(q)
    ensures Keyed(WithoutMessage(q, messageId))
    ensures forall r :: r in WithoutMessage(q, messageId).rows ==> r in q.rows && r.messageId != messageId
  {
    var item := Find(q, messageId);
    if item.Some? {
      WithoutDistinct(q.rows, {item.value.id});
      WithoutKeepsDistinctMessages(q.rows, {item.value.id});
      WithoutMembers(q.rows, {item.value.id});
      FindIsTheOnly(q, messageId);
    }
  }

  lemma FindIsTheOnly(q: Queue, messageId: string)
    requires Keyed(q)
    ensures forall r :: r in q.rows && r.messageId == messageId ==> Find(q, messageId) == Some(r)
  {
    forall r | r in q.rows && r.messageId == messageId
      ensures Find(q, messageId) == Some(r)
    {
      var i :| 0 <= i < |q.rows| && q.rows[i] == r;
    }
  }

  lemma EvolveAtKeepsKeyed(o: Options, q: Queue, i: Option<nat>, e: Event, now: int)
    requires Keyed(q) && (i.Some? ==> i.value < |q.rows|)
    ensures Keyed(EvolveAt(o, q, i, e, now))
  {
    hide Keyed, Evolve;
    if i.Some? {
      EvolveKeepsIdentity(o, q.rows[i.value], e, now);
      EvolvedKeepsKeyed(q, q.rows[i.value := Evolve(o, q.rows[i.value], e, now)], q.blockers);
    }
  }

  lemma EnqueueKeepsKeyed(o: Options, q: Queue, r: Request, now: int)
    requires Keyed(q)
    ensures Keyed(Enqueued(o, q, r, now))
    ensures forall x :: x in Enqueued(o, q, r, now).rows ==>
              x in q.rows || (x.id == q.nextId && x.messageId == r.messageId && x.topic == r.topic && x.status == Pending && x.retries == 0)
  {
    hide Keyed;
    var left := Expire(o, q, now);
    RemovalKeepsKeyed(q, OlderThan(q.rows, now - o.maxAge), Expired, now);
    if Acceptable(o, r) && IndexOf(left.rows, r.messageId).None? {
      RemovalKeepsKeyed(left, Victims(left.rows, Bytes(left.rows) + r.bytes - o.maxBytes), PayloadBudgetEviction, now);
      var room := Evict(o, left, r.bytes, now);
      forall i | 0 <= i < |room.rows|
        ensures room.rows[i].messageId != r.messageId
      {
        assert room.rows[i] in left.rows;
      }
      InsertionKeepsKeyed(room, r, now);
    }
  }

  lemma DueKeepsKeyed(o: Options, q: Queue, now: int, later: int)
    requires Keyed(q)
    ensures Keyed(Swept(o, Expire(o, q, now), later))
  {
    hide Keyed, Evolve;
    var left := Expire(o, q, now);
    RemovalKeepsKeyed(q, OlderThan(q.rows, now - o.maxAge), Expired, now);
    forall i | 0 <= i < |left.rows|
      ensures Evolve(o, left.rows[i], Deadline, later).id == left.rows[i].id
      ensures Evolve(o, left.rows[i], Deadline, later).messageId == left.rows[i].messageId
    {
      EvolveKeepsIdentity(o, left.rows[i], Deadline, later);
    }
    EvolvedKeepsKeyed(left, EvolveAll(o, left.rows, Deadline, later), Swept(o, left, later).blockers);
  }

  lemma DeletionKeepsKeyed(q: Queue, id: nat)
    requires Keyed(q)
    ensures Keyed(q.(rows := Without(q.rows, {id})))
    ensures forall r :: r in Without(q.rows, {id}) <==> r in q.rows && r.id != id
  {
    WithoutDistinct(q.rows, {id});
    WithoutKeepsDistinctMessages(q.rows, {id});
    WithoutMembers(q.rows, {id});
  }

  lemma OpeningKeepsKeyed(o: Options, q: Queue, now: int)
    requires Keyed(q)
    ensures Keyed(Opened(o, q, now)) && forall r :: r in Opened(o, q, now).rows ==> r in q.rows
  {
    hide Keyed;
    var left := Expire(o, q, now);
    RemovalKeepsKeyed(q, OlderThan(q.rows, now - o.maxAge), Expired, now);
    RemovalKeepsKeyed(left, Victims(left.rows, Bytes(left.rows) - o.maxBytes), PayloadBudgetEviction, now);
  }

  lemma StepKeepsKeyed(o: Options, q: Queue, op: Op)
    requires Keyed(q)
    ensures Keyed(Step(o, q, op)) && q.nextId <= Step(o, q, op).nextId
  {
    hide Keyed, Evolve;
    match op
    case OpEnqueue(r, now) => EnqueueKeepsKeyed(o, q, r, now);
    case OpDue(now, later) => DueKeepsKeyed(o, q, now, later);
    case OpPublish(m, now) => EvolveAtKeepsKeyed(o, q, IndexOf(q.rows, m), Publish, now);
    case OpFail(id, now) => EvolveAtKeepsKeyed(o, q, IndexOfId(q.rows, id), Fail, now);
    case OpNack(m, now) => EvolveAtKeepsKeyed(o, q, IndexOf(q.rows, m), Nack, now);
    case OpReject(m, now) =>
      EvolveAtKeepsKeyed(o, q, IndexOf(q.rows, m), Reject, now);
      SameRowsKeyed(Touched(o, q, m, Reject, now), Rejected(o, q, m, now));
    case OpComplete(m) => WithoutMessageKeepsKeyed(q, m);
    case OpRevive(m, now) =>
      if Revived(o, q, m, now) != q {
        EvolveAtKeepsKeyed(o, q, IndexOf(q.rows, m), Revive, now);
        SameRowsKeyed(Touched(o, q, m, Revive, now), Revived(o, q, m, now));
      }
    case OpResolve(m, now) =>
      var item := ToResolve(q, m);
      if item.Some? {
        SameRowsKeyed(q, Noted(ResolveBlocker(q, m), item.value, DeadResolved, now));
        WithoutMessageKeepsKeyed(Noted(ResolveBlocker(q, m), item.value, DeadResolved, now), m);
      }
    case OpExpire(now) => RemovalKeepsKeyed(q, OlderThan(q.rows, now - o.maxAge), Expired, now);
    case OpDelete(id) => DeletionKeepsKeyed(q, id);
    case OpReopen(now) => OpeningKeepsKeyed(o, q, now);
  }

  lemma SameRowsKeyed(q: Queue, q': Queue)
    requires Keyed(q) && q'.rows == q.rows && q'.nextId == q.nextId
    ensures Keyed(q')
  {
  }

  // ---------------------------------------------------------------- what is removed

  lemma {:induction false} OlderThanExactly(rows: seq<Item>, cutoff: int)
    ensures forall r :: r in OlderThan(rows, cutoff) <==> r in rows && r.created < cutoff
    decreases |rows|
  {
    if rows != [] {
      OlderThanExactly(rows[..|rows| - 1], cutoff);
      assert rows == rows[..|rows| - 1] + [rows[|rows| - 1]];
    }
  }

  lemma {:induction false} IdsComeFromRows(rows: seq<Item>, id: nat) returns (r: Item)
    requires id in Ids(rows)
    ensures r in rows && r.id == id
    decreases |rows|
  {
    r := rows[|rows| - 1];
    if r.id != id {
      r := IdsComeFromRows(rows[..|rows| - 1], id);
    }
  }

  /** Removing rows takes out just those, and each of them is written down as it was. */
  lemma RemovalIsWrittenDown(q: Queue, gone: seq<Item>, reason: Reason, now: int, r: Item)
    requires DistinctIds(q.rows) && r in q.rows && forall g :: g in gone ==> g in q.rows
    ensures var q' := Removed(q, gone, reason, now);
            && (r in q'.rows <==> r !in gone)
            && (r !in q'.rows ==> exists i :: |q.audit| <= i < |q'.audit| && q'.audit[i] == AuditOf(r, reason, now))
            && q'.audit[..|q.audit|] == q.audit && |q'.audit| == |q.audit| + |gone|
  {
    WithoutMembers(q.rows, Ids(gone));
    if r in gone {
      var i :| 0 <= i < |gone| && gone[i] == r;
      IdsMembers(gone, i);
      assert Removed(q, gone, reason, now).audit[|q.audit| + i] == AuditOf(r, reason, now);
    } else if r.id in Ids(gone) {
      var g := IdsComeFromRows(gone, r.id);
      SameIdSameRow(q.rows, r, g);
    }
  }

  /** What is left after expiry is exactly what is not older than the maximum age. */
  lemma ExpiryIsExact(o: Options, q: Queue, now: int, r: Item)
    requires DistinctIds(q.rows) && r in q.rows
    ensures r in Expire(o, q, now).rows <==> r.created >= now - o.maxAge
  {
    hide Without, OlderThan, DistinctIds;
    OlderThanExactly(q.rows, now - o.maxAge);
    RemovalIsWrittenDown(q, OlderThan(q.rows, now - o.maxAge), Expired, now, r);
  }

  // ---------------------------------------------------------------- what a batch contains

  lemma {:induction false} DueRowsMembers(rows: seq<Item>, now: int)
    ensures forall r :: r in DueRows(rows, now) <==> r in rows && IsDue(r, now)
    decreases |rows|
  {
    if rows != [] {
      DueRowsMembers(rows[..|rows| - 1], now);
      assert rows == rows[..|rows| - 1] + [rows[|rows| - 1]];
    }
  }

  lemma BatchMembers(q: Queue, now: int, limit: nat)
    ensures forall r :: r in Batch(q, now, limit) ==> r in q.rows && IsDue(r, now)
    ensures |Batch(q, now, limit)| <= limit
  {
    DueRowsMembers(q.rows, now);
    MemberOfByAge(DueRows(q.rows, now));
  }

  /** A message of the batch has an attempt left, so publishing it keeps the bound, unless its
      deadline fell between the two looks at the clock. */
  lemma BatchHasAttemptsExactlyWhen(o: Options, q: Queue, swept: int, now: int, limit: nat, item: Item)
    requires ValidOptions(o) && RowsOk(o, q) && item in Batch(Swept(o, q, swept), now, limit)
    ensures item.due.Some?
    ensures item.retries < o.maxAttempts
            <==> !(item.status == AwaitingAck && item.retries == o.maxAttempts && swept < item.due.value <= now)
  {
    var rows := EvolveAll(o, q.rows, Deadline, swept);
    BatchMembers(Swept(o, q, swept), now, limit);
    assert item in rows;
    var i :| 0 <= i < |rows| && rows[i] == item;
    assert q.rows[i] in q.rows;
    EvolveKeepsLifeExactlyWhen(o, q.rows[i], Deadline, swept);
  }

  /** First in, first out: a due message that is not in the batch is younger than all that
      are, and the batch is full. */
  lemma BatchIsOldestFirst(q: Queue, now: int, limit: nat, r: Item)
    requires r in q.rows && IsDue(r, now) && r !in Batch(q, now, limit)
    ensures |Batch(q, now, limit)| == limit
    ensures forall b :: b in Batch(q, now, limit) ==> Older(b, r)
  {
    var due := ByAge(DueRows(q.rows, now));
    DueRowsMembers(q.rows, now);
    MemberOfByAge(DueRows(q.rows, now));
    ByAgeSorts(DueRows(q.rows, now));
    var j :| 0 <= j < |due| && due[j] == r;
    var batch := Batch(q, now, limit);
    assert limit <= j;
    forall b | b in batch
      ensures Older(b, r)
    {
      var i :| 0 <= i < |batch| && batch[i] == b;
      assert Older(due[i], due[j]);
    }
  }
}
