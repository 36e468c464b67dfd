/** Every operation of the offline queue as a step of a state machine over its tables. */
module QueueSteps {
  import opened Common
  import opened QueueItems
  import opened QueueRows

  /** The first row with a message id; there is at most one. */
  function IndexOf(rows: seq<Item>, messageId: string): (r: Option<nat>)
    ensures r.Some? ==> r.value < |rows| && rows[r.value].messageId == messageId
    ensures r.None? ==> forall i :: 0 <= i < |rows| ==> rows[i].messageId != messageId
  {
    if rows == [] then None
    else
      var before := IndexOf(rows[..|rows| - 1], messageId);
      if before.Some? then before
      else if rows[|rows| - 1].messageId == messageId then Some(|rows| - 1)
      else None
  }

  function IndexOfId(rows: seq<Item>, id: nat): (r: Option<nat>)
    ensures r.Some? ==> r.value < |rows| && rows[r.value].id == id
    ensures r.None? ==> forall i :: 0 <= i < |rows| ==> rows[i].id != id
  {
    if rows == [] then None
    else
      var before := IndexOfId(rows[..|rows| - 1], id);
      if before.Some? then before
      else if rows[|rows| - 1].id == id then Some(|rows| - 1)
      else None
  }

  function Find(q: Queue, messageId: string): Option<Item> {
    var i := IndexOf(q.rows, messageId);
    if i.Some? then Some(q.rows[i.value]) else None
  }

  function EvolveAt(o: Options, q: Queue, i: Option<nat>, e: Event, now: int): Queue
    requires i.Some? ==> i.value < |q.rows|
  {
    if i.None? then q else q.(rows := q.rows[i.value := Evolve(o, q.rows[i.value], e, now)])
  }

  function Touched(o: Options, q: Queue, messageId: string, e: Event, now: int): Queue {
    EvolveAt(o, q, IndexOf(q.rows, messageId), e, now)
  }

  // ---------------------------------------------------------------- enqueueing

  datatype Request = Request(messageId: string, envelopeId: Option<string>, topic: string, bytes: nat, created: Option<int>)

  /** The message id is given trimmed and must be the one inside the payload. */
  predicate Acceptable(o: Options, r: Request) {
    r.messageId != "" && r.topic != "" && r.envelopeId == Some(r.messageId) && r.bytes <= o.maxBytes
  }

  function Inserted(q: Queue, r: Request, now: int): Queue {
    var created := r.created.GetOr(now);
    q.(rows := q.rows + [Item(q.nextId, r.messageId, r.topic, Pending, 0, Some(created), false, r.bytes, created)],
       nextId := q.nextId + 1)
  }

  function Enqueued(o: Options, q: Queue, r: Request, now: int): Queue {
    if !Acceptable(o, r) then q
    else
      var left := Expire(o, q, now);
      if IndexOf(left.rows, r.messageId).Some? then left
      else Inserted(Evict(o, left, r.bytes, now), r, now)
  }

  // ---------------------------------------------------------------- the sweep before delivery

  function EvolveAll(o: Options, rows: seq<Item>, e: Event, now: int): (r: seq<Item>)
    ensures |r| == |rows|
    ensures forall i :: 0 <= i < |rows| ==> r[i] == Evolve(o, rows[i], e, now)
  {
    seq(|rows|, i requires 0 <= i < |rows| => Evolve(o, rows[i], e, now))
  }

  function MissedAcks(rows: seq<Item>): seq<Item> {
    if rows == [] then []
    else
      var before := MissedAcks(rows[..|rows| - 1]);
      var last := rows[|rows| - 1];
      if last.status == Dead && last.missedAck then before + [last] else before
  }

  /** Published messages that used up their attempts and missed the deadline are given up. */
  function Swept(o: Options, q: Queue, now: int): Queue {
    var rows := EvolveAll(o, q.rows, Deadline, now);
    q.(rows := rows, blockers := BlockForAll(q.blockers, MissedAcks(rows)))
  }

  predicate IsDue(item: Item, now: int) {
    item.status != Dead && (item.due.None? || item.due.value <= now)
  }

  function DueRows(rows: seq<Item>, now: int): seq<Item> {
    if rows == [] then []
    else
      var before := DueRows(rows[..|rows| - 1], now);
      if IsDue(rows[|rows| - 1], now) then before + [rows[|rows| - 1]] else before
  }

  /** The batch handed to the publisher: due, oldest first, at most `limit`. */
  function Batch(q: Queue, now: int, limit: nat): seq<Item> {
    var due := ByAge(DueRows(q.rows, now));
    if limit < |due| then due[..limit] else due
  }

  // ---------------------------------------------------------------- the operator

  function ResolveBlocker(q: Queue, messageId: string): Queue {
    if messageId in q.blockers then q.(blockers := q.blockers[messageId := q.blockers[messageId].(resolved := true)]) else q
  }

  function Unblocking(event: AuditEvent, messageId: string): AuditEvent {
    if event.messageId == messageId then event.(blocksTopic := false) else event
  }

  function UnblockHistory(audit: seq<AuditEvent>, messageId: string): (r: seq<AuditEvent>)
    ensures |r| == |audit|
    ensures forall i :: 0 <= i < |audit| ==> r[i] == Unblocking(audit[i], messageId)
  {
    seq(|audit|, i requires 0 <= i < |audit| => Unblocking(audit[i], messageId))
  }

  function Noted(q: Queue, item: Item, reason: Reason, now: int): Queue {
    q.(audit := UnblockHistory(q.audit, item.messageId) + [AuditOf(item, reason, now).(blocksTopic := false)])
  }

  function Revived(o: Options, q: Queue, messageId: string, now: int): Queue {
    var item := Find(q, messageId);
    if item.None? || item.value.status != Dead then q
    else Noted(ResolveBlocker(Touched(o, q, messageId, Revive, now), messageId), item.value, DeadRetried, now)
  }

  /** Who is being resolved: a dead row, or one that was removed and left a blocker. */
  function ToResolve(q: Queue, messageId: string): Option<Item> {
    var item := Find(q, messageId);
    if item.Some? then if item.value.status == Dead then item else None
    else if messageId in q.blockers && !q.blockers[messageId].resolved then
      Some(Item(0, messageId, q.blockers[messageId].topic, Dead, 0, None, false, LastBytes(q.audit, messageId), 0))
    else None
  }

  function LastBytes(audit: seq<AuditEvent>, messageId: string): nat {
    if audit == [] then 0
    else if audit[|audit| - 1].messageId == messageId then audit[|audit| - 1].bytes
    else LastBytes(audit[..|audit| - 1], messageId)
  }

  function WithoutMessage(q: Queue, messageId: string): Queue {
    var item := Find(q, messageId);
    if item.None? then q else q.(rows := Without(q.rows, {item.value.id}))
  }

  function Resolved(q: Queue, messageId: string, now: int): Queue {
    var item := ToResolve(q, messageId);
    if item.None? then q
    else WithoutMessage(Noted(ResolveBlocker(q, messageId), item.value, DeadResolved, now), messageId)
  }

  /** Opening the queue, with whatever options, over the tables that are there. */
  function Opened(o: Options, q: Queue, now: int): Queue {
    Evict(o, Expire(o, q, now), 0, now)
  }

  // ---------------------------------------------------------------- steps

  /** `OpDue` is the change that fetching a batch makes before it reads: the clock is looked
      at once for expiry and once for the acknowledgement deadlines. `OpDelete` removes a row by
      its number and writes nothing down; `OpReopen` opens the queue again. */
  datatype Op =
    | OpEnqueue(request: Request, now: int)
    | OpDue(expiryClock: int, deadlineClock: int)
    | OpPublish(messageId: string, now: int)
    | OpFail(id: nat, now: int)
    | OpNack(messageId: string, now: int)
    | OpReject(messageId: string, now: int)
    | OpComplete(messageId: string)
    | OpRevive(messageId: string, now: int)
    | OpResolve(messageId: string, now: int)
    | OpExpire(now: int)
    | OpDelete(id: nat)
    | OpReopen(now: int)

  function Rejected(o: Options, q: Queue, messageId: string, now: int): Queue {
    var item := Find(q, messageId);
    if item.None? then q
    else
      var q' := Touched(o, q, messageId, Reject, now);
      q'.(blockers := q'.blockers[messageId := Blocker(item.value.topic, false)])
  }

  function Step(o: Options, q: Queue, op: Op): Queue {
    match op
    case OpEnqueue(r, now) => Enqueued(o, q, r, now)
    case OpDue(now, later) => Swept(o, Expire(o, q, now), later)
    case OpPublish(m, now) => Touched(o, q, m, Publish, now)
    case OpFail(id, now) => EvolveAt(o, q, IndexOfId(q.rows, id), Fail, now)
    case OpNack(m, now) => Touched(o, q, m, Nack, now)
    case OpReject(m, now) => Rejected(o, q, m, now)
    case OpComplete(m) => WithoutMessage(q, m)
    case OpRevive(m, now) => Revived(o, q, m, now)
    case OpResolve(m, now) => Resolved(q, m, now)
    case OpExpire(now) => Expire(o, q, now)
    case OpDelete(id) => q.(rows := Without(q.rows, {id}))
    case OpReopen(now) => Opened(o, q, now)
  }

  function Run(o: Options, q: Queue, ops: seq<Op>): Queue
    decreases |ops|
  {
    if ops == [] then q else Run(o, Step(o, q, ops[0]), ops[1..])
  }
}
