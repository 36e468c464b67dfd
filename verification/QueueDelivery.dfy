/** How often one message of the offline queue is marked for publishing over whole runs, and
    what its callers have to keep to. */
module QueueDelivery {
  import opened Common
  import opened QueueItems
  import opened QueueRows
  import opened QueueSteps
  import opened QueueTheorems

  // ---------------------------------------------------------------- what becomes of a row

  predicate Marks(op: Op, r: Item) {
    op.OpPublish? && op.messageId == r.messageId && r.status != Dead
  }

  predicate Revives(op: Op, r: Item) {
    op.OpRevive? && op.messageId == r.messageId && r.status == Dead
  }

  /** What the operation does to a row that is left. */
  function EventOf(op: Op, r: Item): Option<Timed> {
    match op
    case OpPublish(m, now) => if m == r.messageId then Some(Timed(Publish, now)) else None
    case OpFail(id, now) => if id == r.id then Some(Timed(Fail, now)) else None
    case OpNack(m, now) => if m == r.messageId then Some(Timed(Nack, now)) else None
    case OpReject(m, now) => if m == r.messageId then Some(Timed(Reject, now)) else None
    case OpRevive(m, now) => if m == r.messageId then Some(Timed(Revive, now)) else None
    case OpDue(_, later) => Some(Timed(Deadline, later))
    case _ => None
  }

  function Becomes(o: Options, op: Op, r: Item): Item {
    var e := EventOf(op, r);
    if e.Some? then Evolve(o, r, e.value.event, e.value.now) else r
  }

  /** In short: the same message, with its attempts counted up when it is marked and never down
      unless it is revived; and it waits for an acknowledgement only if it was marked just now or
      has not changed. */
  predicate Heir(op: Op, r: Item, after: Item) {
    && after.id == r.id && after.messageId == r.messageId && after.topic == r.topic
    && (Revives(op, r) || after.retries >= if Marks(op, r) then OneMore(r.retries) else r.retries)
    && (after.status == AwaitingAck ==> after == r || Marks(op, r))
  }

  lemma BecomesHeir(o: Options, op: Op, r: Item)
    ensures Heir(op, r, Becomes(o, op, r))
  {
  }

  lemma EvolvedRow(o: Options, q: Queue, i: Option<nat>, e: Event, now: int, after: Item) returns (r: Item)
    requires Keyed(q) && (i.Some? ==> i.value < |q.rows|) && after in EvolveAt(o, q, i, e, now).rows
    ensures r in q.rows && after.id == r.id
    ensures if i.Some? && q.rows[i.value].id == r.id then r == q.rows[i.value] && after == Evolve(o, r, e, now) else after == r
  {
    hide Evolve;
    var j :| 0 <= j < |q.rows| && EvolveAt(o, q, i, e, now).rows[j] == after;
    r := q.rows[j];
    if i.Some? {
      EvolveKeepsIdentity(o, q.rows[i.value], e, now);
    }
  }

  /** Every row comes from a row and is what the operation makes of it, except the one just
      inserted. */
  lemma RowHasAncestor(o: Options, q: Queue, op: Op, after: Item) returns (r: Item)
    requires Keyed(q) && after in Step(o, q, op).rows && !(op.OpEnqueue? && after.id == q.nextId)
    ensures r in q.rows && after == Becomes(o, op, r) && Heir(op, r, after)
  {
    hide Keyed, Evolve;
    r := after;
    match op {
      case OpEnqueue(request, now) => EnqueueKeepsKeyed(o, q, request, now);
      case OpDue(now, later) => r := SweptRow(o, q, op, now, later, after);
      case OpPublish(m, now) => r := TouchedMessage(o, q, op, m, Publish, now, after);
      case OpFail(id, now) => r := FailedRow(o, q, op, id, now, after);
      case OpNack(m, now) => r := TouchedMessage(o, q, op, m, Nack, now, after);
      case OpReject(m, now) => r := TouchedMessage(o, q, op, m, Reject, now, after);
      case OpComplete(m) => WithoutMessageKeepsKeyed(q, m);
      case OpRevive(m, now) => r := RevivedRow(o, q, op, m, now, after);
      case OpResolve(m, now) => WithoutResolved(q, m, now, after);
      case OpExpire(now) => RemovalKeepsKeyed(q, OlderThan(q.rows, now - o.maxAge), Expired, now);
      case OpDelete(id) => DeletionKeepsKeyed(q, id);
      case OpReopen(now) => OpeningKeepsKeyed(o, q, now);
    }
    BecomesHeir(o, op, r);
  }

  lemma WithoutResolved(q: Queue, m: string, now: int, after: Item)
    requires Keyed(q) && after in Resolved(q, m, now).rows
    ensures after in q.rows
  {
    hide Keyed;
    var item := ToResolve(q, m);
    if item.Some? {
      var noted := Noted(ResolveBlocker(q, m), item.value, DeadResolved, now);
      SameRowsKeyed(q, noted);
      WithoutMessageKeepsKeyed(noted, m);
    }
  }

  lemma TouchedMessage(o: Options, q: Queue, op: Op, m: string, e: Event, now: int, after: Item) returns (r: Item)
    requires Keyed(q) && after in Touched(o, q, m, e, now).rows
    requires forall x: Item :: EventOf(op, x) == if m == x.messageId then Some(Timed(e, now)) else None
    ensures r in q.rows && after == Becomes(o, op, r)
  {
    hide Evolve, EventOf;
    r := EvolvedRow(o, q, IndexOf(q.rows, m), e, now, after);
    FindIsTheOnly(q, m);
  }

  lemma RevivedRow(o: Options, q: Queue, op: Op, m: string, now: int, after: Item) returns (r: Item)
    requires Keyed(q) && op == OpRevive(m, now) && after in Revived(o, q, m, now).rows
    ensures r in q.rows && after == Becomes(o, op, r)
  {
    if Find(q, m).Some? && Find(q, m).value.status == Dead {
      r := TouchedMessage(o, q, op, m, Revive, now, after);
    } else {
      r := after;
      FindIsTheOnly(q, m);
    }
  }

  lemma FailedRow(o: Options, q: Queue, op: Op, id: nat, now: int, after: Item) returns (r: Item)
    requires Keyed(q) && op == OpFail(id, now) && after in EvolveAt(o, q, IndexOfId(q.rows, id), Fail, now).rows
    ensures r in q.rows && after == Becomes(o, op, r)
  {
    hide Evolve;
    r := EvolvedRow(o, q, IndexOfId(q.rows, id), Fail, now, after);
    IndexOfIdIsTheOnly(q, r);
  }

  lemma SweptRow(o: Options, q: Queue, op: Op, now: int, later: int, after: Item) returns (r: Item)
    requires Keyed(q) && op == OpDue(now, later) && after in Step(o, q, op).rows
    ensures r in q.rows && r in Expire(o, q, now).rows && after == Evolve(o, r, Deadline, later) && after == Becomes(o, op, r)
  {
    hide Keyed, Evolve;
    RemovalKeepsKeyed(q, OlderThan(q.rows, now - o.maxAge), Expired, now);
    var left := Expire(o, q, now);
    var i :| 0 <= i < |left.rows| && EvolveAll(o, left.rows, Deadline, later)[i] == after;
    r := left.rows[i];
  }

  // ---------------------------------------------------------------- how often a message is marked

  /** How often the live message in the row with this number is marked for publishing. */
  function MarksOf(o: Options, q: Queue, ops: seq<Op>, x: nat): nat
    decreases |ops|
  {
    if ops == [] then 0
    else (if MarksRow(q, ops[0], x) then 1 else 0) + MarksOf(o, Step(o, q, ops[0]), ops[1..], x)
  }

  predicate MarksRow(q: Queue, op: Op, x: nat) {
    op.OpPublish? && Find(q, op.messageId).Some? && Find(q, op.messageId).value.id == x
    && Find(q, op.messageId).value.status != Dead
  }

  predicate NeverRevived(o: Options, q: Queue, ops: seq<Op>, x: nat)
    decreases |ops|
  {
    ops != [] ==>
      && (ops[0].OpRevive? && Find(q, ops[0].messageId).Some? && Find(q, ops[0].messageId).value.id == x ==>
            Find(q, ops[0].messageId).value.status != Dead)
      && NeverRevived(o, Step(o, q, ops[0]), ops[1..], x)
  }

  /** The attempts that the row has left; none if there is no such row. */
  function AttemptsLeft(o: Options, q: Queue, x: nat): nat {
    var i := IndexOfId(q.rows, x);
    if i.Some? && q.rows[i.value].retries <= o.maxAttempts then o.maxAttempts - q.rows[i.value].retries else 0
  }

  lemma IndexOfIdIsTheOnly(q: Queue, r: Item)
    requires Keyed(q) && r in q.rows
    ensures IndexOfId(q.rows, r.id).Some? && q.rows[IndexOfId(q.rows, r.id).value] == r
  {
    var i :| 0 <= i < |q.rows| && q.rows[i] == r;
  }

  lemma StepUsesAttempts(o: Options, q: Queue, op: Op, x: nat)
    requires ValidOptions(o) && QueueOk(o, q) && x < q.nextId
    requires op.OpPublish? ==> HasAttempt(o, q, op.messageId)
    requires NeverRevived(o, q, [op], x)
    ensures AttemptsLeft(o, Step(o, q, op), x) + (if MarksRow(q, op, x) then 1 else 0) <= AttemptsLeft(o, q, x)
  {
    hide Evolve, Bytes, Keyed, Step;
    if MarksRow(q, op, x) {
      IndexOfIdIsTheOnly(q, Find(q, op.messageId).value);
    }
    var i := IndexOfId(Step(o, q, op).rows, x);
    if i.Some? {
      var after := Step(o, q, op).rows[i.value];
      assert after in Step(o, q, op).rows;
      var r := RowHasAncestor(o, q, op, after);
      IndexOfIdIsTheOnly(q, r);
      assert LifeOk(o, r);
      if op.OpPublish? || op.OpRevive? {
        FindIsTheOnly(q, op.messageId);
        if Find(q, op.messageId).Some? && Find(q, op.messageId).value.id == x {
          IndexOfIdIsTheOnly(q, Find(q, op.messageId).value);
        }
      }
    }
  }

  /** Over every disciplined run, however the server answers: a message that the operator does
      not revive is marked at most as often as it has attempts left, a new one at most as often
      as the limit says. */
  lemma {:induction false} MarksAreBounded(o: Options, q: Queue, ops: seq<Op>, x: nat)
    requires ValidOptions(o) && QueueOk(o, q) && Disciplined(o, q, ops) && NeverRevived(o, q, ops, x) && x < q.nextId
    ensures MarksOf(o, q, ops, x) <= AttemptsLeft(o, q, x) <= o.maxAttempts
    decreases |ops|
  {
    hide QueueOk, HasAttempt, Step, MarksRow, AttemptsLeft;
    if ops != [] {
      StepKeepsOk(o, q, ops[0]);
      KeysOfOk(o, q);
      StepKeepsKeyed(o, q, ops[0]);
      StepUsesAttempts(o, q, ops[0], x);
      MarksAreBounded(o, Step(o, q, ops[0]), ops[1..], x);
    }
    AttemptsAreLimited(o, q, x);
  }

  lemma KeysOfOk(o: Options, q: Queue)
    requires QueueOk(o, q)
    ensures Keyed(q)
  {
  }

  lemma AttemptsAreLimited(o: Options, q: Queue, x: nat)
    ensures AttemptsLeft(o, q, x) <= o.maxAttempts
  {
  }

  // ---------------------------------------------------------------- who marks

  function DueMessages(rows: seq<Item>, now: int): set<string> {
    set r | r in rows && IsDue(r, now) :: r.messageId
  }

  /** The messages that the program may mark: what it has just stored, what was due in the last
      sweep before a batch is read, and what was answered, failed, revived or taken away since;
      marking uses the title up. */
  function Titles(o: Options, q: Queue, op: Op, titles: set<string>): set<string> {
    match op
    case OpEnqueue(r, now) =>
      if Acceptable(o, r) && IndexOf(Expire(o, q, now).rows, r.messageId).None? then titles + {r.messageId} else titles
    case OpDue(now, later) => titles + DueMessages(Step(o, q, op).rows, later)
    case OpPublish(m, _) => titles - {m}
    case OpFail(id, _) =>
      var i := IndexOfId(q.rows, id);
      if i.Some? then titles + {q.rows[i.value].messageId} else titles
    case OpNack(m, _) => titles + {m}
    case OpReject(m, _) => titles + {m}
    case OpComplete(m) => titles + {m}
    case OpRevive(m, _) => if Find(q, m).Some? && Find(q, m).value.status == Dead then titles + {m} else titles
    case OpResolve(m, _) => if ToResolve(q, m).Some? then titles + {m} else titles
    case OpExpire(_) => titles
    case OpDelete(_) => titles
    case OpReopen(_) => titles
  }

  predicate MarksByTitle(o: Options, q: Queue, ops: seq<Op>, titles: set<string>)
    decreases |ops|
  {
    ops != [] ==>
      && (ops[0].OpPublish? ==> ops[0].messageId in titles)
      && MarksByTitle(o, Step(o, q, ops[0]), ops[1..], Titles(o, q, ops[0], titles))
  }

  /** A row that waits for an acknowledgement after a step, without having been marked in it, has
      waited before; and it has not got its title in this step unless its time was up. */
  lemma WaitingRowIsOld(o: Options, q: Queue, op: Op, m: string) returns (r: Item)
    requires Keyed(q) && Find(Step(o, q, op), m).Some? && Find(Step(o, q, op), m).value.status == AwaitingAck
    requires !(op.OpPublish? && op.messageId == m)
    ensures r in q.rows && r.messageId == m && Find(Step(o, q, op), m) == Some(r) == Find(q, m)
  {
    hide Keyed, Evolve, Step;
    StepKeepsKeyed(o, q, op);
    var after := Find(Step(o, q, op), m).value;
    if op.OpEnqueue? {
      InsertedIsPending(o, q, op.request, op.now, after);
    }
    r := RowHasAncestor(o, q, op, after);
    FindIsTheOnly(q, m);
  }

  lemma InsertedIsPending(o: Options, q: Queue, r: Request, now: int, after: Item)
    requires Keyed(q) && after in Step(o, q, OpEnqueue(r, now)).rows && after.status == AwaitingAck
    ensures after.id != q.nextId && after in q.rows
  {
    hide DistinctIds, DistinctMessages;
    EnqueueKeepsKeyed(o, q, r, now);
  }

  lemma AnsweredIsNotWaiting(o: Options, q: Queue, i: nat, e: Event, now: int)
    requires Keyed(q) && i < |q.rows| && (e == Fail || e == Nack || e == Reject)
    ensures Find(EvolveAt(o, q, Some(i), e, now), q.rows[i].messageId).Some?
    ensures Find(EvolveAt(o, q, Some(i), e, now), q.rows[i].messageId).value.status != AwaitingAck
  {
    hide Evolve, Keyed;
    var q' := EvolveAt(o, q, Some(i), e, now);
    EvolveAtKeepsKeyed(o, q, Some(i), e, now);
    EvolveKeepsIdentity(o, q.rows[i], e, now);
    assert q'.rows[i] in q'.rows;
    FindIsTheOnly(q', q.rows[i].messageId);
    AnswerEndsTheWait(o, q.rows[i], e, now);
  }

  lemma AnswerEndsTheWait(o: Options, item: Item, e: Event, now: int)
    requires e == Fail || e == Nack || e == Reject
    ensures Evolve(o, item, e, now).status != AwaitingAck
  {
  }

  lemma SweptHasAttempt(o: Options, q: Queue, op: Op, m: string)
    requires ValidOptions(o) && QueueOk(o, q) && op.OpDue? && m in DueMessages(Step(o, q, op).rows, op.deadlineClock)
    requires Find(Step(o, q, op), m).Some? && Find(Step(o, q, op), m).value.status == AwaitingAck
    ensures Find(Step(o, q, op), m).value.retries < o.maxAttempts
  {
    hide Keyed, Step, Bytes;
    StepKeepsKeyed(o, q, op);
    var after := Find(Step(o, q, op), m).value;
    FindIsTheOnly(Step(o, q, op), m);
    assert IsDue(after, op.deadlineClock);
    var r := SweptRow(o, q, op, op.expiryClock, op.deadlineClock, after);
    assert LifeOk(o, r);
  }

  lemma StoredIsNotWaiting(o: Options, q: Queue, r: Request, now: int)
    requires Keyed(q) && Acceptable(o, r) && IndexOf(Expire(o, q, now).rows, r.messageId).None?
    ensures Find(Enqueued(o, q, r, now), r.messageId).Some?
    ensures Find(Enqueued(o, q, r, now), r.messageId).value.status == Pending
  {
    hide Keyed, Expire, Evict;
    EnqueueKeepsKeyed(o, q, r, now);
    var q' := Enqueued(o, q, r, now);
    assert q'.rows[|q'.rows| - 1] in q'.rows;
    FindIsTheOnly(q', r.messageId);
  }

  lemma NewTitleIsGood(o: Options, q: Queue, op: Op, m: string, titles: set<string>)
    requires ValidOptions(o) && QueueOk(o, q) && m in Titles(o, q, op, titles) && m !in titles
    requires Find(Step(o, q, op), m).Some? && Find(Step(o, q, op), m).value.status == AwaitingAck
    ensures Find(Step(o, q, op), m).value.retries < o.maxAttempts
  {
    hide Keyed, Evolve, Bytes;
    var r := WaitingRowIsOld(o, q, op, m);
    match op
    case OpEnqueue(request, now) => StoredIsNotWaiting(o, q, request, now);
    case OpDue(_, _) => SweptHasAttempt(o, q, op, m);
    case OpFail(id, now) => AnsweredIsNotWaiting(o, q, IndexOfId(q.rows, id).value, Fail, now);
    case OpNack(_, now) => AnsweredIsNotWaiting(o, q, IndexOf(q.rows, m).value, Nack, now);
    case OpReject(_, now) => AnsweredIsNotWaiting(o, q, IndexOf(q.rows, m).value, Reject, now);
    case OpComplete(_) => WithoutMessageKeepsKeyed(q, m);
    case _ =>
  }

  lemma TitleIsGood(o: Options, q: Queue, op: Op, m: string, titles: set<string>)
    requires ValidOptions(o) && QueueOk(o, q) && QueueOk(o, Step(o, q, op))
    requires m in Titles(o, q, op, titles) && (m in titles ==> HasAttempt(o, q, m))
    ensures HasAttempt(o, Step(o, q, op), m)
  {
    hide Keyed, Evolve, Bytes, Step;
    var found := Find(Step(o, q, op), m);
    if found.Some? {
      assert LifeOk(o, found.value);
      if found.value.status == AwaitingAck {
        var r := WaitingRowIsOld(o, q, op, m);
        if m !in titles {
          NewTitleIsGood(o, q, op, m, titles);
        }
      }
    }
  }

  /** What the callers have to keep to: if nobody marks a message twice without an answer, a
      failure, or a sweep at which it was due in between, every attempt is started on a message
      that has one left, and the queue is in order at every instant. */
  lemma {:induction false} MarkingByTitleIsDisciplined(o: Options, q: Queue, ops: seq<Op>, titles: set<string>)
    requires ValidOptions(o) && QueueOk(o, q) && MarksByTitle(o, q, ops, titles)
    requires forall m :: m in titles ==> HasAttempt(o, q, m)
    ensures Disciplined(o, q, ops) && AlwaysOk(o, q, ops)
    decreases |ops|
  {
    hide QueueOk, HasAttempt, Step, Titles;
    if ops != [] {
      StepKeepsOk(o, q, ops[0]);
      forall m | m in Titles(o, q, ops[0], titles)
        ensures HasAttempt(o, Step(o, q, ops[0]), m)
      {
        TitleIsGood(o, q, ops[0], m, titles);
      }
      MarkingByTitleIsDisciplined(o, Step(o, q, ops[0]), ops[1..], Titles(o, q, ops[0], titles));
    }
  }

  /** And what happens if two of them mark one message in a row: the bound survives exactly when
      it has two attempts left. */
  lemma TwoMarksInARowExactlyWhen(o: Options, q: Queue, m: string, first: int, second: int)
    requires ValidOptions(o) && QueueOk(o, q) && Find(q, m).Some? && Find(q, m).value.status != Dead
    ensures AlwaysOk(o, q, [OpPublish(m, first), OpPublish(m, second)])
            <==> Find(q, m).value.retries + 2 <= o.maxAttempts || o.maxAttempts == MAX_INT
  {
    hide QueueOk, Evolve;
    var item, q' := Find(q, m).value, Step(o, q, OpPublish(m, first));
    RunIsOkExactlyWhen(o, q, [OpPublish(m, first), OpPublish(m, second)]);
    assert [OpPublish(m, first), OpPublish(m, second)][1..] == [OpPublish(m, second)];
    MarkedOnce(o, q, m, first);
    assert Disciplined(o, q', [OpPublish(m, second)]) <==> HasAttempt(o, q', m);
  }

  lemma MarkedOnce(o: Options, q: Queue, m: string, now: int)
    requires QueueOk(o, q) && Find(q, m).Some? && Find(q, m).value.status != Dead
    ensures var found := Find(Step(o, q, OpPublish(m, now)), m);
            found.Some? && found.value.status == AwaitingAck && found.value.retries == OneMore(Find(q, m).value.retries)
  {
    hide Keyed, Bytes;
    var i := IndexOf(q.rows, m);
    var q' := Step(o, q, OpPublish(m, now));
    EvolveAtKeepsKeyed(o, q, i, Publish, now);
    assert q'.rows[i.value] in q'.rows;
    FindIsTheOnly(q', m);
  }
}
