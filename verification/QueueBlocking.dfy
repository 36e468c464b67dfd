/** A message that was given up blocks its topic: how long. */
module QueueBlocking {
  import opened Common
  import opened QueueItems
  import opened QueueRows
  import opened QueueSteps
  import opened QueueTheorems
  import opened QueueDelivery

  // ---------------------------------------------------------------- blocked topics

  predicate BlocksBy(q: Queue, x: string, topic: string) {
    x in q.blockers && q.blockers[x] == Blocker(topic, false)
  }

  /** What `HasDeadMessageForTopic` answers. */
  ghost predicate Blocked(q: Queue, topic: string) {
    || (exists r :: r in q.rows && r.status == Dead && r.topic == topic)
    || (exists x :: BlocksBy(q, x, topic))
  }

  /** What a removal, or a sweep, leaves of one blocker, if there is at most one row `it` of the
      message. */
  lemma {:induction false} BlockersAfterAll(blockers: map<string, Blocker>, items: seq<Item>, x: string, it: Option<Item>)
    requires forall r :: r in items && r.messageId == x ==> it == Some(r)
    ensures var after := BlockForAll(blockers, items);
            if it.Some? && it.value.messageId == x && it.value in items && it.value.status == Dead
            then x in after && after[x] == Blocker(it.value.topic, false)
            else (x in after <==> x in blockers) && (x in blockers ==> after[x] == blockers[x])
    decreases |items|
  {
    if items != [] {
      assert items == items[..|items| - 1] + [items[|items| - 1]];
      BlockersAfterAll(blockers, items[..|items| - 1], x, it);
      assert items[|items| - 1] in items;
    }
  }

  lemma VictimsMembers(rows: seq<Item>, toFree: int)
    ensures forall r :: r in Victims(rows, toFree) ==> r in rows
  {
    MemberOfByAge(rows);
  }

  // What lets a blocker go: its message is given up again under another topic.

  /** The row of the message, if it is there under another topic. */
  predicate Elsewhere(q: Queue, x: string, topic: string) {
    Find(q, x).Some? && Find(q, x).value.topic != topic
  }

  predicate TooOld(o: Options, item: Item, now: int) {
    item.created < now - o.maxAge
  }

  predicate EvictedFor(o: Options, q: Queue, x: string, incoming: nat) {
    Find(q, x).Some? && Find(q, x).value in Victims(q.rows, Bytes(q.rows) + incoming - o.maxBytes)
  }

  /** The steps after which the message no longer blocks the topic: a rejection under another
      topic; the operator's word about a message that is dead or gone; and the end of a dead
      row under another topic, by age, by the budget or by its deadline. */
  predicate LetsGo(o: Options, q: Queue, op: Op, x: string, topic: string) {
    var it := Find(q, x);
    match op
    case OpEnqueue(r, now) =>
      && Acceptable(o, r) && Elsewhere(q, x, topic) && it.value.status == Dead
      && (TooOld(o, it.value, now)
          || (IndexOf(Expire(o, q, now).rows, r.messageId).None? && EvictedFor(o, Expire(o, q, now), x, r.bytes)))
    case OpDue(now, later) =>
      && Elsewhere(q, x, topic)
      && (if TooOld(o, it.value, now) then it.value.status == Dead
          else MissedDeadline(o, it.value, later) || (it.value.status == Dead && it.value.missedAck))
    case OpReject(m, _) => m == x && Elsewhere(q, x, topic)
    case OpRevive(m, _) => m == x && it.Some? && it.value.status == Dead
    case OpResolve(m, _) => m == x && (it.None? || it.value.status == Dead)
    case OpExpire(now) => Elsewhere(q, x, topic) && it.value.status == Dead && TooOld(o, it.value, now)
    case OpReopen(now) =>
      && Elsewhere(q, x, topic) && it.value.status == Dead
      && (TooOld(o, it.value, now) || EvictedFor(o, Expire(o, q, now), x, 0))
    case _ => false
  }

  lemma RemovalAndBlocker(q: Queue, gone: seq<Item>, reason: Reason, now: int, x: string, topic: string)
    requires Keyed(q) && forall r :: r in gone ==> r in q.rows
    ensures BlocksBy(Removed(q, gone, reason, now), x, topic)
            <==> if Find(q, x).Some? && Find(q, x).value in gone && Find(q, x).value.status == Dead
                 then Find(q, x).value.topic == topic else BlocksBy(q, x, topic)
    ensures Find(Removed(q, gone, reason, now), x)
            == if Find(q, x).Some? && Find(q, x).value in gone then None else Find(q, x)
  {
    hide Keyed, Without;
    FindIsTheOnly(q, x);
    BlockersAfterAll(q.blockers, gone, x, Find(q, x));
    RemovalAndRow(q, gone, reason, now, x);
  }

  lemma RemovalAndRow(q: Queue, gone: seq<Item>, reason: Reason, now: int, x: string)
    requires Keyed(q) && forall r :: r in gone ==> r in q.rows
    ensures Find(Removed(q, gone, reason, now), x)
            == if Find(q, x).Some? && Find(q, x).value in gone then None else Find(q, x)
  {
    hide Without, DistinctMessages;
    var q' := Removed(q, gone, reason, now);
    RemovalKeepsKeyed(q, gone, reason, now);
    FindIsTheOnly(q, x);
    FindIsTheOnly(q', x);
    if Find(q, x).Some? {
      RemovalIsWrittenDown(q, gone, reason, now, Find(q, x).value);
    }
  }

  lemma ExpiryAndBlocker(o: Options, q: Queue, now: int, x: string, topic: string)
    requires Keyed(q)
    ensures Keyed(Expire(o, q, now))
    ensures var it := Find(q, x);
            && (BlocksBy(Expire(o, q, now), x, topic)
                <==> if it.Some? && TooOld(o, it.value, now) && it.value.status == Dead then it.value.topic == topic
                     else BlocksBy(q, x, topic))
            && Find(Expire(o, q, now), x) == if it.Some? && TooOld(o, it.value, now) then None else it
  {
    hide Keyed, Without, OlderThan, BlocksBy;
    OlderThanExactly(q.rows, now - o.maxAge);
    RemovalKeepsKeyed(q, OlderThan(q.rows, now - o.maxAge), Expired, now);
    RemovalAndBlocker(q, OlderThan(q.rows, now - o.maxAge), Expired, now, x, topic);
  }

  lemma EvictionAndBlocker(o: Options, q: Queue, incoming: nat, now: int, x: string, topic: string)
    requires Keyed(q)
    ensures var it := Find(q, x);
            BlocksBy(Evict(o, q, incoming, now), x, topic)
            <==> if EvictedFor(o, q, x, incoming) && it.value.status == Dead then it.value.topic == topic
                 else BlocksBy(q, x, topic)
  {
    hide Keyed, BlocksBy;
    var toFree := Bytes(q.rows) + incoming - o.maxBytes;
    VictimsMembers(q.rows, toFree);
    RemovalAndBlocker(q, Victims(q.rows, toFree), PayloadBudgetEviction, now, x, topic);
  }

  lemma {:induction false} MissedAcksMembers(rows: seq<Item>)
    ensures forall r :: r in MissedAcks(rows) <==> r in rows && r.status == Dead && r.missedAck
    decreases |rows|
  {
    if rows != [] {
      MissedAcksMembers(rows[..|rows| - 1]);
      assert rows == rows[..|rows| - 1] + [rows[|rows| - 1]];
    }
  }

  lemma SweepAndBlocker(o: Options, q: Queue, now: int, x: string, topic: string)
    requires Keyed(q)
    ensures var it := Find(q, x);
            BlocksBy(Swept(o, q, now), x, topic)
            <==> if it.Some? && (MissedDeadline(o, it.value, now) || (it.value.status == Dead && it.value.missedAck))
                 then it.value.topic == topic else BlocksBy(q, x, topic)
  {
    hide Keyed, Evolve;
    var rows := EvolveAll(o, q.rows, Deadline, now);
    var it := if Find(q, x).Some? then Some(Evolve(o, Find(q, x).value, Deadline, now)) else None;
    MissedAcksMembers(rows);
    FindIsTheOnly(q, x);
    forall r | r in rows && r.messageId == x
      ensures it == Some(r)
    {
      var i :| 0 <= i < |rows| && rows[i] == r;
      EvolveKeepsIdentity(o, q.rows[i], Deadline, now);
      assert q.rows[i] in q.rows;
    }
    BlockersAfterAll(q.blockers, MissedAcks(rows), x, it);
    if it.Some? {
      DeadlineMakesMissed(o, Find(q, x).value, now);
      var i := IndexOf(q.rows, x).value;
      assert rows[i] == it.value;
    }
  }

  lemma DeadlineMakesMissed(o: Options, item: Item, now: int)
    ensures var after := Evolve(o, item, Deadline, now);
            && after.messageId == item.messageId && after.topic == item.topic
            && (after.status == Dead && after.missedAck
                <==> MissedDeadline(o, item, now) || (item.status == Dead && item.missedAck))
  {
  }

  lemma EnqueueAndBlocker(o: Options, q: Queue, r: Request, now: int, x: string, topic: string)
    requires Keyed(q) && BlocksBy(q, x, topic)
    ensures BlocksBy(Enqueued(o, q, r, now), x, topic) <==> !LetsGo(o, q, OpEnqueue(r, now), x, topic)
  {
    hide Keyed, Expire, Evict, EvictedFor;
    if Acceptable(o, r) {
      ExpiryAndBlocker(o, q, now, x, topic);
      EvictionAndBlocker(o, Expire(o, q, now), r.bytes, now, x, topic);
      EvictedIsThere(o, Expire(o, q, now), x, r.bytes);
    }
  }

  lemma ReopeningAndBlocker(o: Options, q: Queue, now: int, x: string, topic: string)
    requires Keyed(q) && BlocksBy(q, x, topic)
    ensures BlocksBy(Opened(o, q, now), x, topic) <==> !LetsGo(o, q, OpReopen(now), x, topic)
  {
    hide Keyed, Expire, Evict, EvictedFor;
    ExpiryAndBlocker(o, q, now, x, topic);
    EvictionAndBlocker(o, Expire(o, q, now), 0, now, x, topic);
    EvictedIsThere(o, Expire(o, q, now), x, 0);
  }

  lemma EvictedIsThere(o: Options, q: Queue, x: string, incoming: nat)
    ensures EvictedFor(o, q, x, incoming) ==> Find(q, x).Some?
  {
  }

  /** One step: the blocker stays exactly when the step does not let it go. */
  lemma StepKeepsBlockerExactlyWhen(o: Options, q: Queue, op: Op, x: string, topic: string)
    requires Keyed(q) && BlocksBy(q, x, topic)
    ensures BlocksBy(Step(o, q, op), x, topic) <==> !LetsGo(o, q, op, x, topic)
  {
    hide Keyed, Expire, Evict, Evolve, Swept;
    match op
    case OpEnqueue(r, now) => EnqueueAndBlocker(o, q, r, now, x, topic);
    case OpDue(now, later) =>
      ExpiryAndBlocker(o, q, now, x, topic);
      SweepAndBlocker(o, Expire(o, q, now), later, x, topic);
    case OpExpire(now) => ExpiryAndBlocker(o, q, now, x, topic);
    case OpReopen(now) => ReopeningAndBlocker(o, q, now, x, topic);
    case _ =>
  }

  ghost predicate AlwaysBlocks(o: Options, q: Queue, ops: seq<Op>, x: string, topic: string)
    decreases |ops|
  {
    BlocksBy(q, x, topic) && (ops != [] ==> AlwaysBlocks(o, Step(o, q, ops[0]), ops[1..], x, topic))
  }

  predicate NeverLetsGo(o: Options, q: Queue, ops: seq<Op>, x: string, topic: string)
    decreases |ops|
  {
    ops != [] ==> !LetsGo(o, q, ops[0], x, topic) && NeverLetsGo(o, Step(o, q, ops[0]), ops[1..], x, topic)
  }

  /** Over every run: the message blocks the topic at every instant exactly when no step of the
      run lets it go. */
  lemma {:induction false} BlocksAlwaysExactlyWhen(o: Options, q: Queue, ops: seq<Op>, x: string, topic: string)
    requires Keyed(q) && BlocksBy(q, x, topic)
    ensures AlwaysBlocks(o, q, ops, x, topic) <==> NeverLetsGo(o, q, ops, x, topic)
    decreases |ops|
  {
    hide Keyed, Step, LetsGo, BlocksBy;
    if ops != [] {
      StepKeepsKeyed(o, q, ops[0]);
      StepKeepsBlockerExactlyWhen(o, q, ops[0], x, topic);
      if !LetsGo(o, q, ops[0], x, topic) {
        BlocksAlwaysExactlyWhen(o, Step(o, q, ops[0]), ops[1..], x, topic);
      }
    }
  }

  lemma {:induction false} BlocksToTheEnd(o: Options, q: Queue, ops: seq<Op>, x: string, topic: string)
    requires AlwaysBlocks(o, q, ops, x, topic)
    ensures Blocked(Run(o, q, ops), topic)
    decreases |ops|
  {
    hide Step;
    if ops == [] {
      assert BlocksBy(q, x, topic);
    } else {
      BlocksToTheEnd(o, Step(o, q, ops[0]), ops[1..], x, topic);
    }
  }

  /** Neither the operator resolves or revives x, nor is x enqueued under another topic. */
  predicate LeavesBlocked(op: Op, x: string, topic: string) {
    match op
    case OpRevive(m, _) => m != x
    case OpResolve(m, _) => m != x
    case OpEnqueue(r, _) => r.messageId == x ==> r.topic == topic
    case _ => true
  }

  lemma LeftAloneStaysHere(o: Options, q: Queue, op: Op, x: string, topic: string)
    requires Keyed(q) && !Elsewhere(q, x, topic) && LeavesBlocked(op, x, topic)
    ensures !LetsGo(o, q, op, x, topic) && !Elsewhere(Step(o, q, op), x, topic)
  {
    hide Keyed, Step, Expire, Evolve;
    var found := Find(Step(o, q, op), x);
    if found.Some? {
      if op.OpEnqueue? && found.value.id == q.nextId {
        InsertedHasTopic(o, q, op.request, op.now, found.value);
      } else {
        var r := RowHasAncestor(o, q, op, found.value);
        FindIsTheOnly(q, x);
      }
    }
  }

  lemma InsertedHasTopic(o: Options, q: Queue, r: Request, now: int, after: Item)
    requires Keyed(q) && after in Step(o, q, OpEnqueue(r, now)).rows && after.id == q.nextId
    ensures after.messageId == r.messageId && after.topic == r.topic
  {
    hide DistinctIds, DistinctMessages;
    EnqueueKeepsKeyed(o, q, r, now);
  }

  lemma {:induction false} LeftAloneNeverLetsGo(o: Options, q: Queue, ops: seq<Op>, x: string, topic: string)
    requires Keyed(q) && !Elsewhere(q, x, topic) && forall i :: 0 <= i < |ops| ==> LeavesBlocked(ops[i], x, topic)
    ensures NeverLetsGo(o, q, ops, x, topic)
    decreases |ops|
  {
    hide Keyed, Step, LetsGo, Elsewhere, LeavesBlocked;
    if ops != [] {
      StepKeepsKeyed(o, q, ops[0]);
      LeftAloneStaysHere(o, q, ops[0], x, topic);
      LeftAloneNeverLetsGo(o, Step(o, q, ops[0]), ops[1..], x, topic);
    }
  }

  /** A dead message that is removed for its age or for the budget goes on blocking its topic
      exactly as long as no step lets it go; and none does while the operator leaves it alone
      and nobody enqueues that message under another topic. */
  lemma RemovedDeadBlocksExactlyWhen(o: Options, q: Queue, gone: seq<Item>, reason: Reason, now: int, v: Item, ops: seq<Op>)
    requires Keyed(q) && v in gone && v.status == Dead && forall r :: r in gone ==> r in q.rows
    ensures var left := Removed(q, gone, reason, now);
            && (AlwaysBlocks(o, left, ops, v.messageId, v.topic) <==> NeverLetsGo(o, left, ops, v.messageId, v.topic))
            && ((forall i :: 0 <= i < |ops| ==> LeavesBlocked(ops[i], v.messageId, v.topic)) ==>
                  NeverLetsGo(o, left, ops, v.messageId, v.topic))
            && (NeverLetsGo(o, left, ops, v.messageId, v.topic) ==> Blocked(Run(o, left, ops), v.topic))
  {
    hide Keyed, Removed, LeavesBlocked, LetsGo;
    var left := Removed(q, gone, reason, now);
    RemovalKeepsKeyed(q, gone, reason, now);
    FindIsTheOnly(q, v.messageId);
    RemovalAndBlocker(q, gone, reason, now, v.messageId, v.topic);
    BlocksAlwaysExactlyWhen(o, left, ops, v.messageId, v.topic);
    if NeverLetsGo(o, left, ops, v.messageId, v.topic) {
      BlocksToTheEnd(o, left, ops, v.messageId, v.topic);
    }
    if forall i :: 0 <= i < |ops| ==> LeavesBlocked(ops[i], v.messageId, v.topic) {
      LeftAloneNeverLetsGo(o, left, ops, v.messageId, v.topic);
    }
  }

  /** Resolving takes the blocker and the row away, and writes it down. */
  lemma ResolvingFreesTheTopic(o: Options, q: Queue, x: string, now: int)
    requires RowsOk(o, q) && ToResolve(q, x).Some?
    ensures var q' := Resolved(q, x, now);
            && (forall topic :: !BlocksBy(q', x, topic))
            && (forall r :: r in q'.rows ==> r.messageId != x)
            && |q'.audit| == |q.audit| + 1 && q'.audit[|q.audit|].reason == DeadResolved && q'.audit[|q.audit|].messageId == x
            && (forall e :: e in q'.audit && e.messageId == x ==> !e.blocksTopic)
  {
    var item := Find(q, x);
    if item.Some? {
      WithoutMembers(q.rows, {item.value.id});
      forall r | r in q.rows && r.messageId == x
        ensures r == item.value
      {
        var i :| 0 <= i < |q.rows| && q.rows[i] == r;
      }
    }
  }
}
