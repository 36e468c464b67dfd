/** The offline delivery queue as the repository class writes it: one table updated in place
    inside transactions. Each method is proved to perform the step that bears its name. */
module OfflineQueue {
  import opened Common
  import opened QueueItems
  import opened QueueRows
  import opened QueueSteps

  datatype EnqueueResult = Refused | Duplicate | Accepted

  class Repository {
    const options: Options
    var rows: seq<Item>
    var blockers: map<string, Blocker>
    var audit: seq<AuditEvent>
    var nextId: nat

    ghost function State(): Queue
      reads this
    {
      Queue(rows, blockers, audit, nextId)
    }

    /** Opening the repository over tables that exist already enforces the retention rules. */
    constructor (options: Options, tables: Queue, now: int)
      ensures this.options == options && State() == Opened(options, tables, now)
    {
      this.options := options;
      rows, blockers, audit, nextId := tables.rows, tables.blockers, tables.audit, tables.nextId;
      new;
      RemoveExpired(now);
      EnforcePayloadBudget(0, now);
    }

    method RemoveExpired(now: int)
      modifies this
      ensures State() == Expire(options, old(State()), now)
    {
      var gone := OlderThan(rows, now - options.maxAge);
      audit := audit + AuditOfAll(gone, Expired, now);
      blockers := BlockForAll(blockers, gone);
      rows := Without(rows, Ids(gone));
    }

    /** Read the rows oldest first until enough bytes are picked. */
    method PickVictims(toFree: int) returns (victims: seq<Item>)
      ensures victims == Victims(rows, toFree)
    {
      var oldest := ByAge(rows);
      MemberOfByAge(rows);
      var n, selected: nat := 0, 0;
      while n < |oldest| && selected < toFree
        invariant n <= |oldest|
        invariant VictimCount(oldest, toFree - selected, n) == VictimCount(oldest, toFree, 0)
        decreases |oldest| - n
      {
        selected := selected + oldest[n].bytes;
        n := n + 1;
      }
      victims := oldest[..n];
    }

    /** Pick the victims, then write down and delete them one by one. */
    method EnforcePayloadBudget(incoming: nat, now: int)
      modifies this
      ensures State() == Evict(options, old(State()), incoming, now)
    {
      ghost var start := State();
      var victims := PickVictims(Bytes(rows) + incoming - options.maxBytes);
      NothingRemoved(start, now);
      for i := 0 to |victims|
        invariant State() == Removed(start, victims[..i], PayloadBudgetEviction, now)
      {
        assert victims[..i + 1] == victims[..i] + [victims[i]];
        RemovedNext(start, victims[..i], victims[i], now);
        EvictRow(victims[i], now);
      }
      assert victims[..|victims|] == victims;
    }

    method EvictRow(item: Item, now: int)
      modifies this
      ensures State() == old(State()).(
                rows := Without(old(rows), {item.id}), blockers := BlockFor(old(blockers), item),
                audit := old(audit) + [AuditOf(item, PayloadBudgetEviction, now)])
    {
      if item.status == Dead {
        blockers := blockers[item.messageId := Blocker(item.topic, false)];
      }
      audit := audit + [AuditOf(item, PayloadBudgetEviction, now)];
      rows := Without(rows, {item.id});
    }

    static lemma NothingRemoved(q: Queue, now: int)
      ensures Removed(q, [], PayloadBudgetEviction, now) == q
    {
      WithoutNone(q.rows, {});
      assert q.audit + AuditOfAll([], PayloadBudgetEviction, now) == q.audit;
    }

    static lemma RemovedNext(q: Queue, gone: seq<Item>, item: Item, now: int)
      ensures var before := Removed(q, gone, PayloadBudgetEviction, now);
              Removed(q, gone + [item], PayloadBudgetEviction, now)
              == before.(rows := Without(before.rows, {item.id}), blockers := BlockFor(before.blockers, item),
                         audit := before.audit + [AuditOf(item, PayloadBudgetEviction, now)])
    {
      assert (gone + [item])[..|gone|] == gone;
      WithoutTwice(q.rows, Ids(gone), {item.id});
      assert AuditOfAll(gone + [item], PayloadBudgetEviction, now)
             == AuditOfAll(gone, PayloadBudgetEviction, now) + [AuditOf(item, PayloadBudgetEviction, now)];
    }

    /** A message that is malformed or alone over the budget is refused and changes nothing. */
    method Enqueue(r: Request, now: int) returns (result: EnqueueResult)
      modifies this
      ensures State() == Step(options, old(State()), OpEnqueue(r, now))
      ensures result == Refused <==> !Acceptable(options, r)
      ensures result == Refused ==> State() == old(State())
      ensures result == Duplicate <==>
                Acceptable(options, r) && IndexOf(Expire(options, old(State()), now).rows, r.messageId).Some?
      ensures result == Accepted ==> rows != [] && rows[|rows| - 1].messageId == r.messageId && rows[|rows| - 1].status == Pending
    {
      if r.messageId == "" || r.topic == "" || r.envelopeId != Some(r.messageId) {
        return Refused;
      }
      if r.bytes > options.maxBytes {
        return Refused;
      }
      RemoveExpired(now);
      if IndexOf(rows, r.messageId).Some? {
        return Duplicate;
      }
      EnforcePayloadBudget(r.bytes, now);
      Insert(r, now);
      result := Accepted;
    }

    method Insert(r: Request, now: int)
      modifies this
      ensures State() == Inserted(old(State()), r, now)
      ensures rows != [] && rows[|rows| - 1].messageId == r.messageId && rows[|rows| - 1].status == Pending
    {
      var created := r.created.GetOr(now);
      rows := rows + [Item(nextId, r.messageId, r.topic, Pending, 0, Some(created), false, r.bytes, created)];
      nextId := nextId + 1;
    }

    /** The clock is read three times: for expiry, for the acknowledgement deadlines, and for
        what is due. */
    method GetDueMessages(maxCount: nat, clock: int, deadlineClock: int, dueClock: int) returns (batch: seq<Item>)
      modifies this
      ensures State() == Step(options, old(State()), OpDue(clock, deadlineClock))
      ensures batch == Batch(State(), dueClock, Min(maxCount, options.maxBatch))
    {
      RemoveExpired(clock);
      rows := EvolveAll(options, rows, Deadline, deadlineClock);
      blockers := BlockForAll(blockers, MissedAcks(rows));
      var limit := Min(maxCount, options.maxBatch);
      var due := ByAge(DueRows(rows, dueClock));
      batch := if limit < |due| then due[..limit] else due;
    }

    method MarkAwaitingAcknowledgement(messageId: string, now: int) returns (item: Option<Item>)
      modifies this
      ensures State() == Step(options, old(State()), OpPublish(messageId, now))
      ensures item.Some? == Find(old(State()), messageId).Some?
      ensures item.Some? ==> item.value in rows && item.value.messageId == messageId
    {
      var i := IndexOf(rows, messageId);
      if i.None? {
        return None;
      }
      var current := rows[i.value];
      if current.status == Dead {
        assert rows[i.value := current] == rows;
        return Some(rows[i.value]);
      }
      var attemptCount := if current.retries == MAX_INT then MAX_INT else current.retries + 1;
      current := current.(status := AwaitingAck, retries := attemptCount, due := Some(now + options.ackTimeout), missedAck := false);
      rows := rows[i.value := current];
      item := Some(rows[i.value]);
    }

    method Complete(messageId: string) returns (item: Option<Item>)
      modifies this
      ensures State() == Step(options, old(State()), OpComplete(messageId))
      ensures item == Find(old(State()), messageId)
    {
      item := None;
      var i := IndexOf(rows, messageId);
      if i.Some? {
        item := Some(rows[i.value]);
        rows := Without(rows, {rows[i.value].id});
      }
    }

    /** Removal by row number: nothing is written down about it. */
    method Delete(id: nat)
      modifies this
      ensures State() == Step(options, old(State()), OpDelete(id))
    {
      rows := Without(rows, {id});
    }

    method ScheduleRetry(messageId: string, now: int) returns (item: Option<Item>)
      modifies this
      ensures State() == Step(options, old(State()), OpNack(messageId, now))
      ensures item.Some? == Find(old(State()), messageId).Some?
      ensures item.Some? ==> item.value in rows && item.value.messageId == messageId
    {
      var i := IndexOf(rows, messageId);
      if i.None? {
        return None;
      }
      var current := rows[i.value];
      if current.retries >= options.maxAttempts {
        current := current.(status := Dead, due := None, missedAck := false);
      } else {
        var delay := RetryDelay(options, if current.retries >= 1 then current.retries else 1);
        current := current.(status := Retry, due := Some(now + delay), missedAck := false);
      }
      rows := rows[i.value := current];
      item := Some(rows[i.value]);
    }

    /** None stands for the exception about a message that does not exist. */
    method RecordFailure(id: nat, now: int) returns (item: Option<Item>)
      modifies this
      ensures State() == Step(options, old(State()), OpFail(id, now))
      ensures item.Some? == IndexOfId(old(rows), id).Some?
      ensures item.Some? ==> item.value in rows && item.value.id == id
    {
      var i := IndexOfId(rows, id);
      if i.None? {
        return None;
      }
      var current := rows[i.value];
      if current.status == Dead {
        assert rows[i.value := current] == rows;
        return Some(rows[i.value]);
      }
      var count := FailedCount(current);
      if count >= options.maxAttempts {
        current := current.(status := Dead, retries := count, due := None, missedAck := false);
      } else {
        current := current.(status := Retry, retries := count, due := Some(now + RetryDelay(options, count)), missedAck := false);
      }
      rows := rows[i.value := current];
      item := Some(rows[i.value]);
    }

    method Quarantine(messageId: string, now: int) returns (item: Option<Item>)
      modifies this
      ensures State() == Step(options, old(State()), OpReject(messageId, now))
      ensures item.Some? == Find(old(State()), messageId).Some?
      ensures item.Some? ==> item.value in rows && item.value.messageId == messageId
    {
      var i := IndexOf(rows, messageId);
      if i.None? {
        return None;
      }
      var current := rows[i.value].(status := Dead, due := None, missedAck := false);
      rows := rows[i.value := current];
      blockers := blockers[messageId := Blocker(current.topic, false)];
      item := Some(rows[i.value]);
    }

    method RetryDead(messageId: string, now: int) returns (item: Option<Item>)
      modifies this
      ensures State() == Step(options, old(State()), OpRevive(messageId, now))
      ensures item.Some? == Find(old(State()), messageId).Some?
      ensures item.Some? ==> item.value in rows && item.value.messageId == messageId
    {
      var i := IndexOf(rows, messageId);
      if i.None? {
        return None;
      }
      var current := rows[i.value];
      if current.status != Dead {
        return Some(rows[i.value]);
      }
      var revived := current.(status := Retry, retries := 0, due := Some(now), missedAck := false);
      rows := rows[i.value := revived];
      if messageId in blockers {
        blockers := blockers[messageId := blockers[messageId].(resolved := true)];
      }
      audit := UnblockHistory(audit, messageId) + [AuditOf(current, DeadRetried, now).(blocksTopic := false)];
      item := Some(rows[i.value]);
    }

    method ResolveDead(messageId: string, now: int) returns (ok: bool)
      modifies this
      ensures State() == Step(options, old(State()), OpResolve(messageId, now))
      ensures ok == ToResolve(old(State()), messageId).Some?
    {
      var i := IndexOf(rows, messageId);
      var q := Queue(rows, blockers, audit, nextId);
      var source := ToResolve(q, messageId);
      if source.None? {
        return false;
      }
      if messageId in blockers {
        blockers := blockers[messageId := blockers[messageId].(resolved := true)];
      }
      audit := UnblockHistory(audit, messageId) + [AuditOf(source.value, DeadResolved, now).(blocksTopic := false)];
      if i.Some? {
        rows := Without(rows, {rows[i.value].id});
      }
      ok := true;
    }
  }
}
