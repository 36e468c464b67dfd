/** The two tables behind the chat sessions, and the conversations that they stand for. */
module ChatDatabase {
  import opened Common
  import opened MessageContent
  import opened MessageRows

  /** `counts` is the session table, reduced to its denormalised message count. */
  datatype Db = Db(counts: map<string, nat>, table: seq<Row>, nextRow: nat)

  /** Row keys are unique, and no message row lacks its session row. */
  ghost predicate TableOk(db: Db) {
    && DistinctIds(db.table)
    && (forall r :: r in db.table ==> r.id < db.nextRow && r.session in db.counts)
  }

  ghost predicate SessionOk(db: Db, id: string)
    requires id in db.counts
  {
    db.counts[id] == |RowsOf(db.table, id)| && InOrder(RowsOf(db.table, id))
  }

  ghost predicate DbOk(db: Db) {
    TableOk(db) && forall id :: id in db.counts ==> SessionOk(db, id)
  }

  function MessageOf(c: Codec, row: Row): Message {
    Message(row.role, Parsed(c, row.raw))
  }

  function MessagesOf(c: Codec, rows: seq<Row>): (ms: seq<Message>)
    ensures |ms| == |rows|
    ensures forall i :: 0 <= i < |rows| ==> ms[i] == MessageOf(c, rows[i])
  {
    seq(|rows|, i requires 0 <= i < |rows| => MessageOf(c, rows[i]))
  }

  function Conversation(c: Codec, db: Db, id: string): seq<Message> {
    MessagesOf(c, RowsOf(db.table, id))
  }

  /** What the database says, as a plain map from session to messages. */
  function Conversations(c: Codec, db: Db): map<string, seq<Message>> {
    map id | id in db.counts :: Conversation(c, db, id)
  }

  function Times(rows: seq<Row>): (ts: seq<int>)
    ensures |ts| == |rows|
    ensures forall i :: 0 <= i < |rows| ==> ts[i] == rows[i].time
  {
    seq(|rows|, i requires 0 <= i < |rows| => rows[i].time)
  }

  /** When the messages of each session were stored. */
  function Timetable(db: Db): map<string, seq<int>> {
    map id | id in db.counts :: Times(RowsOf(db.table, id))
  }

  lemma SessionsOfTables(c: Codec, db: Db)
    ensures Conversations(c, db).Keys == db.counts.Keys == Timetable(db).Keys
  {
  }

  /** The clock reads later than every message of the session. */
  ghost predicate ClockIsPast(db: Db, id: string, now: int) {
    forall r :: r in RowsOf(db.table, id) ==> r.time < now
  }

  /** What a database read of a session returns, in whatever order ties come. */
  lemma ReadIsConversation(c: Codec, db: Db, id: string, out: seq<Row>)
    requires DbOk(db) && id in db.counts && IsOrdering(RowsOf(db.table, id), out)
    ensures MessagesOf(c, out) == Conversation(c, db, id)
  {
    assert SessionOk(db, id);
    OrderingOfInOrder(RowsOf(db.table, id), out);
  }

  // ---------------------------------------------------------------- statements

  function InsertMessage(c: Codec, db: Db, id: string, m: Message, now: int): Db {
    db.(table := db.table + [Row(db.nextRow, id, m.role, Stored(c, m.content), now)], nextRow := db.nextRow + 1)
  }

  function SetCount(db: Db, id: string, count: nat): Db {
    if id in db.counts then db.(counts := db.counts[id := count]) else db
  }

  function DeleteRow(db: Db, row: nat): Db {
    db.(table := WithoutRow(db.table, row))
  }

  function DeleteMessages(db: Db, id: string): Db {
    db.(table := WithoutSession(db.table, id))
  }

  function DeleteSession(db: Db, id: string): Db {
    db.(counts := db.counts - {id})
  }

  lemma InsertKeepsTableOk(c: Codec, db: Db, id: string, m: Message, now: int)
    requires TableOk(db) && id in db.counts
    ensures TableOk(InsertMessage(c, db, id, m, now))
    ensures forall s :: RowsOf(InsertMessage(c, db, id, m, now).table, s)
                        == if s == id then RowsOf(db.table, s) + [Row(db.nextRow, id, m.role, Stored(c, m.content), now)]
                           else RowsOf(db.table, s)
  {
    var row := Row(db.nextRow, id, m.role, Stored(c, m.content), now);
    forall s {
      RowsOfAppend(db.table, row, s);
    }
  }

  lemma DeleteRowKeepsTableOk(db: Db, id: string, i: nat)
    requires TableOk(db) && i < |RowsOf(db.table, id)|
    ensures var rows := RowsOf(db.table, id);
            && TableOk(DeleteRow(db, rows[i].id))
            && forall s :: RowsOf(DeleteRow(db, rows[i].id).table, s)
                           == if s == id then rows[..i] + rows[i + 1..] else RowsOf(db.table, s)
  {
    var rows := RowsOf(db.table, id);
    WithoutRowMembers(db.table, rows[i].id);
    RowsOfDistinct(db.table, id);
    WithoutRowAt(rows, i);
    WithoutRowCommutes(db.table, rows[i].id, id);
    RowsOfMembers(db.table, id);
    forall s | s != id
      ensures RowsOf(DeleteRow(db, rows[i].id).table, s) == RowsOf(db.table, s)
    {
      WithoutRowCommutes(db.table, rows[i].id, s);
      KeyBelongsToOneSession(db, rows[i], s);
      WithoutAbsentRow(RowsOf(db.table, s), rows[i].id);
    }
  }

  lemma KeyBelongsToOneSession(db: Db, row: Row, s: string)
    requires TableOk(db) && row in db.table && s != row.session
    ensures forall r :: r in RowsOf(db.table, s) ==> r.id != row.id
  {
    RowsOfMembers(db.table, s);
    forall r | r in RowsOf(db.table, s)
      ensures r.id != row.id
    {
      var i :| 0 <= i < |db.table| && db.table[i] == r;
      var j :| 0 <= j < |db.table| && db.table[j] == row;
    }
  }

  lemma DeleteMessagesKeepsTableOk(db: Db, id: string)
    requires TableOk(db)
    ensures TableOk(DeleteMessages(db, id))
    ensures forall r :: r in DeleteMessages(db, id).table ==> r.session != id
    ensures forall s :: RowsOf(DeleteMessages(db, id).table, s) == if s == id then [] else RowsOf(db.table, s)
  {
    WithoutSessionMembers(db.table, id);
    forall s {
      WithoutSessionRows(db.table, id, s);
    }
  }

  /** One session changed, the others read as before. */
  lemma OneSessionChanged(c: Codec, db: Db, db': Db, id: string)
    requires DbOk(db) && TableOk(db') && id in db'.counts && SessionOk(db', id)
    requires db'.counts.Keys == db.counts.Keys + {id}
    requires forall s :: s != id ==> RowsOf(db'.table, s) == RowsOf(db.table, s)
    requires forall s :: s != id && s in db.counts ==> db'.counts[s] == db.counts[s]
    ensures DbOk(db')
    ensures Conversations(c, db') == Conversations(c, db)[id := Conversation(c, db', id)]
  {
    hide TableOk;
    forall s | s in db'.counts
      ensures SessionOk(db', s)
    {
      assert s != id ==> SessionOk(db, s);
    }
  }

  // ---------------------------------------------------------------- effects on conversations

  lemma InsertedMessageReads(c: Codec, db: Db, id: string, m: Message, now: int)
    requires TableOk(db) && id in db.counts
    ensures Conversation(c, InsertMessage(c, db, id, m, now), id) == Conversation(c, db, id) + [ReloadMessage(c, m)]
  {
    InsertKeepsTableOk(c, db, id, m, now);
    var row := Row(db.nextRow, id, m.role, Stored(c, m.content), now);
    assert MessageOf(c, row) == ReloadMessage(c, m);
  }

  lemma RowKeepsOrderExactlyWhen(db: Db, id: string, row: Row)
    requires InOrder(RowsOf(db.table, id))
    ensures InOrder(RowsOf(db.table, id) + [row]) <==> ClockIsPast(db, id, row.time)
  {
    var rows := RowsOf(db.table, id);
    AppendKeepsOrderExactlyWhen(rows, row);
    if rows != [] {
      assert rows[|rows| - 1] in rows;
    }
  }

  lemma InsertedMessageIsCounted(c: Codec, db: Db, id: string, m: Message, now: int, count: nat)
    requires DbOk(db) && id in db.counts
    ensures var db' := SetCount(InsertMessage(c, db, id, m, now), id, count);
            && TableOk(db')
            && (forall s :: s in db.counts && s != id ==> SessionOk(db', s))
            && (SessionOk(db', id) <==> count == |RowsOf(db.table, id)| + 1 && ClockIsPast(db, id, now))
  {
    InsertKeepsTableOk(c, db, id, m, now);
    assert SessionOk(db, id);
    RowKeepsOrderExactlyWhen(db, id, Row(db.nextRow, id, m.role, Stored(c, m.content), now));
    forall s | s in db.counts && s != id
      ensures SessionOk(SetCount(InsertMessage(c, db, id, m, now), id, count), s)
    {
      assert SessionOk(db, s);
    }
  }

  /** A message inserted is one more message at the end of its conversation; and the database
      is in order exactly when it was counted, once, and the clock had moved on. */
  lemma InsertedMessageIsLast(c: Codec, db: Db, id: string, m: Message, now: int, count: nat)
    requires DbOk(db) && id in db.counts
    ensures var db' := SetCount(InsertMessage(c, db, id, m, now), id, count);
            && TableOk(db')
            && (forall s :: s in db.counts && s != id ==> SessionOk(db', s))
            && (DbOk(db') <==> count == |RowsOf(db.table, id)| + 1 && ClockIsPast(db, id, now))
            && Conversations(c, db') == Conversations(c, db)[id := Conversations(c, db)[id] + [ReloadMessage(c, m)]]
  {
    hide SessionOk, TableOk, Stored, ReloadMessage;
    var db' := SetCount(InsertMessage(c, db, id, m, now), id, count);
    InsertedMessageIsCounted(c, db, id, m, now, count);
    assert DbOk(db') <==> SessionOk(db', id);
    InsertedMessageReads(c, db, id, m, now);
    forall s | s in db'.counts && s != id
      ensures Conversation(c, db', s) == Conversation(c, db, s)
    {
      RowsOfAppend(db.table, Row(db.nextRow, id, m.role, Stored(c, m.content), now), s);
    }
  }

  /** One round of deleting a suffix row by row. */
  lemma DeleteNextRow(db: Db, id: string, rows: seq<Row>, keep: nat, i: nat)
    requires TableOk(db) && keep <= i < |rows| && RowsOf(db.table, id) == rows[..keep] + rows[i..]
    ensures TableOk(DeleteRow(db, rows[i].id))
    ensures RowsOf(DeleteRow(db, rows[i].id).table, id) == rows[..keep] + rows[i + 1..]
    ensures forall s :: s != id ==> RowsOf(DeleteRow(db, rows[i].id).table, s) == RowsOf(db.table, s)
  {
    var left := RowsOf(db.table, id);
    assert left[keep] == rows[i];
    DeleteRowKeepsTableOk(db, id, keep);
    assert left[..keep] + left[keep + 1..] == rows[..keep] + rows[i + 1..];
  }

  /** The rows that `replace_messages` writes: consecutive keys, consecutive microseconds. */
  function NewRows(c: Codec, firstKey: nat, id: string, ms: seq<Message>, now: int): (rows: seq<Row>)
    ensures |rows| == |ms|
    ensures forall i :: 0 <= i < |ms| ==>
              rows[i] == Row(firstKey + i, id, ms[i].role, Stored(c, ms[i].content), now + i)
  {
    if ms == [] then []
    else
      var n, last := |ms| - 1, ms[|ms| - 1];
      NewRows(c, firstKey, id, ms[..n], now) + [Row(firstKey + n, id, last.role, Stored(c, last.content), now + n)]
  }

  lemma NewRowsGrow(c: Codec, firstKey: nat, id: string, ms: seq<Message>, i: nat, now: int)
    requires i < |ms|
    ensures NewRows(c, firstKey, id, ms[..i + 1], now)
            == NewRows(c, firstKey, id, ms[..i], now) + [Row(firstKey + i, id, ms[i].role, Stored(c, ms[i].content), now + i)]
  {
    assert ms[..i + 1][..i] == ms[..i];
  }

  /** One round of writing the new messages of a session. */
  lemma InsertNextRow(c: Codec, db: Db, id: string, firstKey: nat, ms: seq<Message>, i: nat, now: int)
    requires TableOk(db) && id in db.counts && i < |ms| && db.nextRow == firstKey + i
    requires RowsOf(db.table, id) == NewRows(c, firstKey, id, ms[..i], now)
    ensures var db' := InsertMessage(c, db, id, ms[i], now + i);
            && TableOk(db')
            && RowsOf(db'.table, id) == NewRows(c, firstKey, id, ms[..i + 1], now)
            && (forall s :: s != id ==> RowsOf(db'.table, s) == RowsOf(db.table, s))
  {
    hide InsertMessage, Stored, TableOk, RowsOf, NewRows;
    InsertKeepsTableOk(c, db, id, ms[i], now + i);
    NewRowsGrow(c, firstKey, id, ms, i, now);
  }

  /** The rows of one session cut down to the first `keep`, and counted. */
  lemma CutConversationIsPrefix(c: Codec, db: Db, db': Db, id: string, keep: nat)
    requires DbOk(db) && TableOk(db') && id in db.counts && keep <= |RowsOf(db.table, id)|
    requires db'.counts == db.counts[id := keep]
    requires forall s :: RowsOf(db'.table, s) == if s == id then RowsOf(db.table, s)[..keep] else RowsOf(db.table, s)
    ensures DbOk(db')
    ensures Conversations(c, db') == Conversations(c, db)[id := Conversation(c, db, id)[..keep]]
  {
    assert SessionOk(db, id) && SessionOk(db', id);
    OneSessionChanged(c, db, db', id);
    assert Conversation(c, db', id) == Conversation(c, db, id)[..keep];
  }

  lemma NewRowsAreTheConversation(c: Codec, db: Db, db': Db, id: string, firstKey: nat, ms: seq<Message>, now: int)
    requires DbOk(db) && TableOk(db') && id in db.counts
    requires db'.counts == db.counts[id := |ms|]
    requires RowsOf(db'.table, id) == NewRows(c, firstKey, id, ms, now)
    requires forall s :: s != id ==> RowsOf(db'.table, s) == RowsOf(db.table, s)
    ensures DbOk(db') && Conversations(c, db') == Conversations(c, db)[id := ReloadAll(c, ms)]
  {
    assert SessionOk(db', id);
    OneSessionChanged(c, db, db', id);
    assert Conversation(c, db', id) == ReloadAll(c, ms);
  }

  lemma NewSessionIsEmpty(c: Codec, db: Db, id: string)
    requires DbOk(db) && id !in db.counts
    ensures DbOk(db.(counts := db.counts[id := 0]))
    ensures Conversations(c, db.(counts := db.counts[id := 0])) == Conversations(c, db)[id := []]
  {
    var db' := db.(counts := db.counts[id := 0]);
    RowsOfAbsent(db.table, id);
    assert SessionOk(db', id);
    OneSessionChanged(c, db, db', id);
  }

  /** Deleting the messages and the session row leaves no orphan and touches no other. */
  lemma DeletedSessionIsGone(c: Codec, db: Db, id: string)
    requires DbOk(db)
    ensures DbOk(DeleteSession(DeleteMessages(db, id), id))
    ensures Conversations(c, DeleteSession(DeleteMessages(db, id), id)) == Conversations(c, db) - {id}
  {
    var db' := DeleteSession(DeleteMessages(db, id), id);
    DeleteMessagesKeepsTableOk(db, id);
    forall s | s in db'.counts
      ensures SessionOk(db', s)
    {
      assert SessionOk(db, s);
    }
  }

  // ---------------------------------------------------------------- effects on timestamps

  lemma OneTimetableChanged(db: Db, db': Db, id: string, times: seq<int>)
    requires db'.counts.Keys == db.counts.Keys + {id} && Times(RowsOf(db'.table, id)) == times
    requires forall s :: s != id ==> RowsOf(db'.table, s) == RowsOf(db.table, s)
    ensures Timetable(db') == Timetable(db)[id := times]
  {
  }

  lemma ClockIsPastTimetable(db: Db, id: string, now: int)
    requires id in db.counts && forall i :: 0 <= i < |Timetable(db)[id]| ==> Timetable(db)[id][i] < now
    ensures ClockIsPast(db, id, now)
  {
    var rows, times := RowsOf(db.table, id), Timetable(db)[id];
    forall r | r in rows
      ensures r.time < now
    {
      var i :| 0 <= i < |rows| && rows[i] == r;
      assert times[i] == r.time;
    }
  }

  lemma InsertedMessageTime(c: Codec, db: Db, id: string, m: Message, now: int, count: nat)
    requires TableOk(db) && id in db.counts
    ensures Timetable(SetCount(InsertMessage(c, db, id, m, now), id, count))
            == Timetable(db)[id := Timetable(db)[id] + [now]]
  {
    var db' := SetCount(InsertMessage(c, db, id, m, now), id, count);
    InsertKeepsTableOk(c, db, id, m, now);
    assert Times(RowsOf(db'.table, id)) == Timetable(db)[id] + [now];
    OneTimetableChanged(db, db', id, Timetable(db)[id] + [now]);
  }

  lemma CutTimes(db: Db, db': Db, id: string, keep: nat)
    requires id in db.counts && keep <= |RowsOf(db.table, id)| && db'.counts.Keys == db.counts.Keys
    requires forall s :: RowsOf(db'.table, s) == if s == id then RowsOf(db.table, s)[..keep] else RowsOf(db.table, s)
    ensures Timetable(db') == Timetable(db)[id := Timetable(db)[id][..keep]]
  {
    assert Times(RowsOf(db'.table, id)) == Timetable(db)[id][..keep];
    OneTimetableChanged(db, db', id, Timetable(db)[id][..keep]);
  }

  /** The timestamps of `n` messages replaced at `now`. */
  function Microseconds(now: int, n: nat): (ts: seq<int>)
    ensures |ts| == n && forall i :: 0 <= i < n ==> ts[i] == now + i
  {
    seq(n, i => now + i)
  }

  lemma NewRowsTimes(c: Codec, db: Db, db': Db, id: string, firstKey: nat, ms: seq<Message>, now: int)
    requires id in db.counts && db'.counts.Keys == db.counts.Keys
    requires RowsOf(db'.table, id) == NewRows(c, firstKey, id, ms, now)
    requires forall s :: s != id ==> RowsOf(db'.table, s) == RowsOf(db.table, s)
    ensures Timetable(db') == Timetable(db)[id := Microseconds(now, |ms|)]
  {
    assert Times(RowsOf(db'.table, id)) == Microseconds(now, |ms|);
    OneTimetableChanged(db, db', id, Microseconds(now, |ms|));
  }

  lemma NewSessionTimes(db: Db, id: string)
    requires TableOk(db) && id !in db.counts
    ensures Timetable(db.(counts := db.counts[id := 0])) == Timetable(db)[id := []]
  {
    RowsOfAbsent(db.table, id);
    OneTimetableChanged(db, db.(counts := db.counts[id := 0]), id, []);
  }

  lemma DeletedSessionTimes(db: Db, id: string)
    requires TableOk(db)
    ensures Timetable(DeleteSession(DeleteMessages(db, id), id)) == Timetable(db) - {id}
  {
    DeleteMessagesKeepsTableOk(db, id);
  }
}
