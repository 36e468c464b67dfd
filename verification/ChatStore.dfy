/** The session manager: a lazily filled cache of session objects over the database, updated
    in place. Every method is proved to act on the plain map from session to messages that
    the database stands for, and to keep the cache telling the same story. */
module ChatStore {
  import opened Common
  import opened MessageContent
  import opened MessageRows
  import opened ChatDatabase
  import opened ChatRuns

  class Session {
    const id: string
    var history: seq<Message>
    var messageCount: nat

    constructor (id: string, history: seq<Message>, messageCount: nat)
      ensures this.id == id && this.history == history && this.messageCount == messageCount
    {
      this.id, this.history, this.messageCount := id, history, messageCount;
    }

    /** The object shows the conversation, or is still empty and knows that there is one. */
    ghost predicate Shows(c: Codec, conversation: seq<Message>)
      reads this
    {
      if history == [] then conversation != [] ==> messageCount > 0
      else ReloadAll(c, history) == conversation
    }
  }

  /** Every cached object is filed under its own id and shows its conversation. */
  ghost predicate CacheShows(sessions: map<string, Session>, c: Codec, contents: map<string, seq<Message>>)
    reads sessions.Values
  {
    forall id :: id in sessions ==>
      sessions[id].id == id && id in contents && sessions[id].Shows(c, contents[id])
  }

  class SessionManager {
    const codec: Codec
    // How the database answers ORDER BY timestamp.
    const orderBy: seq<Row> -> seq<Row>
    var sessions: map<string, Session>
    var db: Db

    ghost predicate CacheOk()
      reads this, sessions.Values
    {
      CacheShows(sessions, codec, Contents())
    }

    ghost predicate Valid()
      reads this, sessions.Values
    {
      Faithful(codec) && Orders(orderBy) && DbOk(db) && CacheOk()
    }

    ghost function Contents(): map<string, seq<Message>>
      reads this
    {
      Conversations(codec, db)
    }

    /** What the manager stands for. */
    ghost function State(): Chats
      reads this
    {
      StateOf(codec, db)
    }

    /** What `get_session` will show for a known session: the cached history, or, if that is
        empty, what loading gives. */
    ghost function ShownOf(id: string): seq<Message>
      requires id in Contents()
      reads this, sessions.Values
    {
      if id in sessions && sessions[id].history != [] then sessions[id].history else Contents()[id]
    }

    ghost function Shown(): Shown
      reads this, sessions.Values
    {
      map id | id in Contents() :: ShownOf(id)
    }

    ghost function Whole(): Store
      reads this, sessions.Values
    {
      Store(State(), Shown())
    }

    constructor (codec: Codec, orderBy: seq<Row> -> seq<Row>)
      requires Faithful(codec) && Orders(orderBy)
      ensures Valid() && Whole() == Store(Chats(map[], map[]), map[])
    {
      this.codec, this.orderBy := codec, orderBy;
      sessions, db := map[], Db(map[], [], 0);
    }

    // -------------------------------------------------------------- reading

    /** The object is the cached one of its session, and it is filled. */
    ghost predicate Filled(session: Session)
      reads this, session
    {
      && session.id in sessions && session == sessions[session.id]
      && session.id in Contents()
      && ReloadAll(codec, session.history) == Contents()[session.id]
    }

    /** What is shown and what is stored differ by one round trip at most. */
    lemma WholeShowsItself()
      requires Valid()
      ensures ShowsItself(codec, Whole())
    {
      forall id | id in Contents()
        ensures ReloadAll(codec, Contents()[id]) == Contents()[id]
        ensures ReloadAll(codec, ShownOf(id)) == Contents()[id]
      {
        StoredConversationIsSettled(id);
      }
    }

    /** Read the messages of a session in timestamp order and parse them one by one. */
    method ReadHistory(id: string) returns (history: seq<Message>)
      requires Orders(orderBy) && DbOk(db) && id in db.counts
      ensures history == Conversation(codec, db, id)
    {
      var rows := orderBy(RowsOf(db.table, id));
      history := [];
      for i := 0 to |rows|
        invariant history == MessagesOf(codec, rows[..i])
      {
        history := history + [MessageOf(codec, rows[i])];
      }
      assert rows[..|rows|] == rows;
      ReadIsConversation(codec, db, id, rows);
    }

    /** Put a fresh object for the session into the cache. */
    method LoadSession(id: string) returns (ok: bool)
      requires Valid()
      modifies this`sessions
      ensures Valid() && ok == (id in db.counts)
      ensures !ok ==> sessions == old(sessions)
      ensures ok ==> id in sessions && fresh(sessions[id]) && sessions == old(sessions)[id := sessions[id]]
      ensures ok ==> id in Contents() && sessions[id].history == Contents()[id]
    {
      if id !in db.counts {
        return false;
      }
      var history := ReadHistory(id);
      assert SessionOk(db, id);
      StoredConversationIsSettled(id);
      var session := new Session(id, history, db.counts[id]);
      sessions := sessions[id := session];
      ok := true;
    }

    lemma StoredConversationIsSettled(id: string)
      requires Faithful(codec)
      ensures ReloadAll(codec, Conversation(codec, db, id)) == Conversation(codec, db, id)
    {
      var conversation := Conversation(codec, db, id);
      forall i | 0 <= i < |conversation|
        ensures ReloadAll(codec, conversation)[i] == conversation[i]
      {
        ReloadSettles(codec, Text(RowsOf(db.table, id)[i].raw));
      }
    }

    /** The first half of `get_session`: make sure that the session is cached and filled. */
    method Hydrate(id: string) returns (ok: bool)
      requires Valid()
      modifies this`sessions
      ensures Valid() && ok == (id in db.counts) && Shown() == old(Shown())
      ensures !ok ==> sessions == old(sessions)
      ensures ok ==>
                && id in sessions && sessions[id].history == Shown()[id]
                && sessions == old(sessions)[id := sessions[id]]
                && (fresh(sessions[id]) || (id in old(sessions) && sessions[id] == old(sessions)[id]))
    {
      hide Conversations, Timetable, DbOk, Faithful, Orders, ReloadAll;
      SessionsOfTables(codec, db);
      if id in sessions && !(sessions[id].history == [] && sessions[id].messageCount > 0) {
        return true;
      }
      ok := LoadSession(id);
    }

    /** The second half: take the message count over from the session row. */
    method SyncMetadata(session: Session)
      requires Valid() && session.id in sessions && session == sessions[session.id]
      requires session.history == Shown()[session.id]
      modifies session
      ensures Valid() && Shown() == old(Shown()) && session.history == old(session.history)
      ensures Filled(session) && session.messageCount == |Contents()[session.id]|
    {
      StoredConversationIsSettled(session.id);
      assert SessionOk(db, session.id);
      session.messageCount := db.counts[session.id];
    }

    /** `get_session`; null stands for the KeyError. The object returned is the cached one, it
        is filled, and its history is what is shown, message by message. */
    method GetSession(id: string) returns (session: Session?)
      requires Valid()
      modifies this`sessions, sessions.Values
      ensures Valid() && fresh(sessions.Values - old(sessions.Values))
      ensures session == null <==> id !in db.counts
      ensures session != null ==>
                && session.id == id && Filled(session) && session.messageCount == |Contents()[id]|
                && session.history == Shown()[id]
      ensures Shown() == old(Shown())
      ensures session == null ==> sessions == old(sessions)
      ensures forall other :: other in old(sessions) && other != id ==>
                other in sessions && sessions[other] == old(sessions[other])
    {
      hide Conversations, Timetable, DbOk, Faithful, Orders;
      SessionsOfTables(codec, db);
      var ok := Hydrate(id);
      if !ok {
        return null;
      }
      session := sessions[id];
      SyncMetadata(session);
    }

    // -------------------------------------------------------------- writing

    /** A message row is written only under an existing session; the count is taken from the
        cached object, whoever is asking, and the tables stay in order exactly when that is
        the right count and the clock is past the messages of the session. */
    method PersistMessage(id: string, m: Message, now: int)
      requires DbOk(db)
      modifies this`db, this`sessions
      ensures sessions == if id in old(Contents()) then old(sessions) else old(sessions) - {id}
      ensures State() == After(codec, old(State()), Add(id, m, now))
      ensures TableOk(db) && forall s :: s in db.counts && s != id ==> SessionOk(db, s)
      ensures DbOk(db) <==>
                (id in old(Contents()) ==>
                   && id in sessions && |sessions[id].history| == |old(Contents())[id]| + 1
                   && ClockIsPast(old(db), id, now))
    {
      if id !in db.counts {
        sessions := sessions - {id};
        return;
      }
      var count := if id in sessions then |sessions[id].history| else 0;
      InsertedMessageIsLast(codec, db, id, m, now, count);
      InsertIsAdd(codec, db, id, m, now, count);
      db := InsertMessage(codec, db, id, m, now);
      db := SetCount(db, id, count);
    }

    method Append(session: Session, m: Message, now: int)
      requires Valid() && Filled(session)
      modifies this`db, this`sessions, session
      ensures sessions == old(sessions)
      ensures Valid() <==> ClockIsPast(old(db), session.id, now)
      ensures State() == After(codec, old(State()), Add(session.id, m, now))
      ensures Shown() == ShownAfter(old(Contents()), old(Shown()), Add(session.id, m, now))
    {
      hide Conversations, Timetable, DbOk, Faithful, Orders;
      SessionsOfTables(codec, db);
      ReloadAllAppend(codec, session.history, m);
      session.history := session.history + [m];
      session.messageCount := |session.history|;
      PersistMessage(session.id, m, now);
    }

    /** `add_message`: the message becomes the last one of the conversation. The tables stay in
        order exactly when the clock is past the messages of the session. */
    method AddMessage(id: string, m: Message, now: int) returns (ok: bool)
      requires Valid()
      modifies this, sessions.Values
      ensures fresh(sessions.Values - old(sessions.Values))
      ensures ok == (id in old(Contents()))
      ensures Valid() <==> (ok ==> ClockIsPast(old(db), id, now))
      ensures State() == After(codec, old(State()), Add(id, m, now))
      ensures Shown() == ShownAfter(old(Contents()), old(Shown()), Add(id, m, now))
    {
      hide Conversations, Timetable, DbOk, Faithful, Orders;
      SessionsOfTables(codec, db);
      var session := GetSession(id);
      ok := session != null;
      if ok {
        Append(session, m, now);
      }
    }

    /** Delete the rows after the first `keep` of a session, one at a time. */
    method DeleteSuffix(id: string, rows: seq<Row>, keep: nat)
      requires TableOk(db) && RowsOf(db.table, id) == rows && keep <= |rows|
      modifies this`db
      ensures TableOk(db) && db.counts == old(db.counts)
      ensures RowsOf(db.table, id) == rows[..keep]
      ensures forall s :: s != id ==> RowsOf(db.table, s) == RowsOf(old(db.table), s)
    {
      assert rows[..keep] + rows[keep..] == rows;
      var i := keep;
      while i < |rows|
        invariant keep <= i <= |rows|
        invariant TableOk(db) && db.counts == old(db.counts)
        invariant RowsOf(db.table, id) == rows[..keep] + rows[i..]
        invariant forall s :: s != id ==> RowsOf(db.table, s) == RowsOf(old(db.table), s)
      {
        DeleteNextRow(db, id, rows, keep, i);
        db := DeleteRow(db, rows[i].id);
        i := i + 1;
      }
      assert rows[..keep] + rows[|rows|..] == rows[..keep];
    }

    /** The database side of a truncation: the rows past `keepCount` go, and the number of
        those that remain is stored. */
    method CutRows(id: string, keepCount: nat)
      requires Orders(orderBy) && DbOk(db) && id in db.counts
      modifies this`db
      ensures DbOk(db)
      ensures State() == After(codec, old(State()), Truncate(id, keepCount))
    {
      assert SessionOk(db, id);
      var rows := orderBy(RowsOf(db.table, id));
      OrderingOfInOrder(RowsOf(db.table, id), rows);
      var keep := if keepCount < |rows| then keepCount else |rows|;
      ghost var start := db;
      DeleteSuffix(id, rows, keep);
      db := SetCount(db, id, keep);
      CutIsTruncate(codec, start, db, id, keepCount, keep);
    }

    method Shorten(session: Session, keepCount: nat)
      requires Valid() && Filled(session)
      modifies this`db, session
      ensures Valid() && State() == After(codec, old(State()), Truncate(session.id, keepCount))
      ensures Shown() == ShownAfter(old(Contents()), old(Shown()), Truncate(session.id, keepCount))
    {
      hide Conversations, Timetable, DbOk, Faithful, Orders, ReloadAll, InTime, Conversation, TableOk, SessionOk, RowsOf;
      SessionsOfTables(codec, db);
      ReloadOfPrefix(codec, session.history, keepCount);
      ghost var contents := Contents();
      CutRows(session.id, keepCount);
      assert Contents() == contents[session.id := Prefix(contents[session.id], keepCount)];
      hide After;
      session.history := Prefix(session.history, keepCount);
    }

    /** `truncate_messages`: exactly the suffix goes. */
    method TruncateMessages(id: string, keepCount: int) returns (ok: bool)
      requires Valid()
      modifies this, sessions.Values
      ensures Valid() && fresh(sessions.Values - old(sessions.Values))
      ensures ok == (id in old(Contents()) && keepCount >= 0)
      ensures State() == After(codec, old(State()), Truncate(id, keepCount))
      ensures Shown() == ShownAfter(old(Contents()), old(Shown()), Truncate(id, keepCount))
    {
      hide Conversations, Timetable, DbOk, Faithful, Orders;
      SessionsOfTables(codec, db);
      var session := GetSession(id);
      ok := session != null && keepCount >= 0;
      if ok {
        Shorten(session, keepCount);
      }
    }

    method Overwrite(session: Session, messages: seq<Message>, now: int)
      requires Valid() && Filled(session)
      modifies this`db, session
      ensures Valid() && State() == After(codec, old(State()), Replace(session.id, messages, now))
      ensures Shown() == ShownAfter(old(Contents()), old(Shown()), Replace(session.id, messages, now))
    {
      hide Conversations, Timetable, DbOk, Faithful, Orders, InTime, Conversation, TableOk, SessionOk, RowsOf, ShownOf;
      SessionsOfTables(codec, db);
      ShownIsFromHistories();
      OnlyCachedUnderItsId(session);
      ghost var id, contents, before := session.id, Contents(), Histories(sessions);
      RewriteRows(session.id, messages, now);
      assert Contents() == contents[id := ReloadAll(codec, messages)];
      assert messages == [] ==> ReloadAll(codec, messages) == [];
      hide After, ReloadAll, ShownFrom;
      session.history := messages;
      session.messageCount := |messages|;
      ShownIsFromHistories();
      assert Histories(sessions) == before[id := messages];
      ReplacedIsShown(before, contents, id, messages, ReloadAll(codec, messages));
    }

    /** `replace_messages`: the given messages and no others, in the given order. */
    method ReplaceMessages(id: string, messages: seq<Message>, now: int) returns (ok: bool)
      requires Valid()
      modifies this, sessions.Values
      ensures Valid() && fresh(sessions.Values - old(sessions.Values))
      ensures ok == (id in old(Contents()))
      ensures State() == After(codec, old(State()), Replace(id, messages, now))
      ensures Shown() == ShownAfter(old(Contents()), old(Shown()), Replace(id, messages, now))
    {
      hide Conversations, Timetable, DbOk, Faithful, Orders;
      SessionsOfTables(codec, db);
      var session := GetSession(id);
      ok := session != null;
      if ok {
        Overwrite(session, messages, now);
      }
    }

    /** Delete the rows of a session and insert new ones a microsecond apart. */
    method RewriteRows(id: string, messages: seq<Message>, now: int)
      requires DbOk(db) && id in db.counts
      modifies this`db
      ensures DbOk(db)
      ensures State() == After(codec, old(State()), Replace(id, messages, now))
    {
      ghost var start := db;
      DeleteMessagesKeepsTableOk(db, id);
      db := DeleteMessages(db, id);
      ghost var firstKey := db.nextRow;
      for i := 0 to |messages|
        invariant TableOk(db) && db.counts == start.counts && db.nextRow == firstKey + i
        invariant RowsOf(db.table, id) == NewRows(codec, firstKey, id, messages[..i], now)
        invariant forall s :: s != id ==> RowsOf(db.table, s) == RowsOf(start.table, s)
      {
        InsertNextRow(codec, db, id, firstKey, messages, i, now);
        db := InsertMessage(codec, db, id, messages[i], now + i);
      }
      assert messages[..|messages|] == messages;
      db := SetCount(db, id, |messages|);
      RewriteIsReplace(codec, start, db, id, firstKey, messages, now);
    }

    method InsertSession(id: string)
      requires DbOk(db) && id !in db.counts
      modifies this`db
      ensures DbOk(db) && State() == After(codec, old(State()), Create(id))
    {
      NewIsCreate(codec, db, id);
      db := db.(counts := db.counts[id := 0]);
    }

    method CacheEmpty(id: string)
      requires Valid() && id in Contents() && Contents()[id] == []
      modifies this`sessions
      ensures Valid() && Shown() == old(Shown())
      ensures id in sessions && fresh(sessions[id]) && sessions == old(sessions)[id := sessions[id]]
    {
      hide Conversations, Timetable, DbOk, Faithful, Orders, ReloadAll, Conversation, TableOk, SessionOk, RowsOf;
      var session := new Session(id, [], 0);
      sessions := sessions[id := session];
    }

    /** `create_session`; false stands for the integrity error of an existing key. */
    method CreateSession(id: string) returns (ok: bool)
      requires Valid()
      modifies this
      ensures Valid() && fresh(sessions.Values - old(sessions.Values))
      ensures ok == (id !in old(Contents()))
      ensures State() == After(codec, old(State()), Create(id))
      ensures Shown() == ShownAfter(old(Contents()), old(Shown()), Create(id))
    {
      hide Conversations, Timetable, DbOk, Faithful, Orders, ReloadAll;
      SessionsOfTables(codec, db);
      if id in db.counts {
        return false;
      }
      InsertSession(id);
      assert Shown() == old(Shown())[id := []];
      CacheEmpty(id);
      ok := true;
    }

    method EraseRows(id: string)
      requires DbOk(db)
      modifies this`db
      ensures DbOk(db) && State() == After(codec, old(State()), Delete(id))
    {
      GoneIsDelete(codec, db, id);
      db := DeleteMessages(db, id);
      db := DeleteSession(db, id);
    }

    /** `delete_session`: rows, session row and cached object go together. */
    method DeleteSessionAndMessages(id: string) returns (ok: bool)
      requires Valid()
      modifies this
      ensures Valid() && sessions == old(sessions) - {id}
      ensures ok == (id in old(Contents()))
      ensures State() == After(codec, old(State()), Delete(id))
      ensures Shown() == ShownAfter(old(Contents()), old(Shown()), Delete(id))
    {
      hide Conversations, Timetable, DbOk, Faithful, Orders;
      SessionsOfTables(codec, db);
      ok := id in db.counts || id in sessions;
      EraseRows(id);
      sessions := sessions - {id};
    }

    /** A restart: the cache starts over with empty objects for recent sessions that have
        messages. `recent` is whatever the query selects. */
    method LoadSessions(recent: set<string>)
      requires Valid()
      modifies this`sessions
      ensures Valid() && forall id :: id in sessions ==> id in recent && fresh(sessions[id]) && sessions[id].history == []
      ensures Shown() == Contents()
    {
      sessions := map[];
      var left := recent;
      while left != {}
        invariant left <= recent && Valid()
        invariant forall id :: id in sessions ==> id in recent && fresh(sessions[id]) && sessions[id].history == []
        decreases left
      {
        var id :| id in left;
        if id in db.counts && db.counts[id] > 0 {
          var session := new Session(id, [], db.counts[id]);
          sessions := sessions[id := session];
        }
        left := left - {id};
      }
    }

    // -------------------------------------------------------------- runs

    method Perform(call: Call) returns (answer: Answer)
      requires Valid() && Timely(State(), call)
      modifies this, sessions.Values
      ensures Valid() && fresh(sessions.Values - old(sessions.Values))
      ensures Whole() == StoreAfter(codec, old(Whole()), call)
      ensures answer == AnswerTo(old(Whole()), call)
    {
      match call
      case Create(id) =>
        var ok := CreateSession(id);
        answer := if ok then Done(true) else Raised;
      case Get(id) =>
        var session := GetSession(id);
        answer := if session == null then Raised else Messages(session.history);
      case Add(id, m, now) =>
        if id in db.counts {
          ClockIsPastTimetable(db, id, now);
        }
        var ok := AddMessage(id, m, now);
        answer := if ok then Done(true) else Raised;
      case Truncate(id, keepCount) =>
        var known := id in db.counts;
        var ok := TruncateMessages(id, keepCount);
        answer := if known then Done(ok) else Raised;
      case Replace(id, messages, now) =>
        var ok := ReplaceMessages(id, messages, now);
        answer := if ok then Done(true) else Raised;
      case Delete(id) =>
        var ok := DeleteSessionAndMessages(id);
        answer := Done(ok);
      case Restart(recent) =>
        LoadSessions(recent);
        answer := Done(true);
    }

    /** Over every run of calls, restarts included, in which messages are added in time, the
        manager stands for what the calls do to a plain table of conversations, and every call
        returns what it would return on that table. */
    method Run(calls: seq<Call>) returns (answers: seq<Answer>)
      requires Valid() && AllTimely(codec, State(), calls)
      modifies this, sessions.Values
      ensures Valid() && Whole() == StoreAfterAll(codec, old(Whole()), calls)
      ensures answers == AnswersTo(codec, old(Whole()), calls)
    {
      answers := [];
      for i := 0 to |calls|
        invariant Valid() && fresh(sessions.Values - old(sessions.Values))
        invariant AllTimely(codec, State(), calls[i..])
        invariant Whole() == StoreAfterAll(codec, old(Whole()), calls[..i])
        invariant answers == AnswersTo(codec, old(Whole()), calls[..i])
      {
        assert calls[i..][1..] == calls[i + 1..];
        assert calls[..i + 1] == calls[..i] + [calls[i]];
        StoreAfterMore(codec, old(Whole()), calls[..i], calls[i]);
        var answer := Perform(calls[i]);
        answers := answers + [answer];
      }
      assert calls[..|calls|] == calls;
    }

    // -------------------------------------------------------------- the second way in

    /** `Session.add_message`, called on an object that somebody still holds. A message is
        never written under a deleted session; and cache, counts and order stay right exactly
        when the session is gone, or the object is the cached one and was filled and the clock
        is past the messages of the session; and then it is shown. */
    method AddThroughSession(session: Session, m: Message, now: int)
      requires Valid()
      modifies this, session
      ensures TableOk(db) && (forall s :: s in db.counts && s != session.id ==> SessionOk(db, s))
      ensures State() == After(codec, old(State()), Add(session.id, m, now))
      ensures Valid() <==>
                || session.id !in old(Contents())
                || (&& session.id in old(sessions) && session == old(sessions)[session.id]
                    && |old(session.history)| == |old(Contents())[session.id]|
                    && ClockIsPast(old(db), session.id, now))
      ensures Valid() ==> Shown() == ShownAfter(old(Contents()), old(Shown()), Add(session.id, m, now))
    {
      hide Conversations, Timetable, DbOk, TableOk, SessionOk, ClockIsPast, ReloadMessage, ShownFrom, CacheShows;
      SessionsOfTables(codec, db);
      ShownIsFromHistories();
      OnlyCachedUnderItsId(session);
      ghost var id, contents, before := session.id, Contents(), Histories(sessions);
      WriteThrough(session, m, now);
      ShownIsFromHistories();
      if Valid() && id in contents {
        assert Histories(sessions) == before[id := before[id] + [m]];
        AddedIsShown(before, contents, id, m, ReloadMessage(codec, m));
      } else {
        assert id !in contents ==> Histories(sessions) == before;
      }
    }

    method WriteThrough(session: Session, m: Message, now: int)
      requires Valid()
      modifies this, session
      ensures TableOk(db) && (forall s :: s in db.counts && s != session.id ==> SessionOk(db, s))
      ensures State() == After(codec, old(State()), Add(session.id, m, now))
      ensures Valid() <==>
                || session.id !in old(Contents())
                || (&& session.id in old(sessions) && session == old(sessions)[session.id]
                    && |old(session.history)| == |old(Contents())[session.id]|
                    && ClockIsPast(old(db), session.id, now))
      ensures sessions == old(sessions) && session.history == old(session.history) + [m]
    {
      hide Conversations, Timetable, DbOk, TableOk, SessionOk, Faithful, Orders, ReloadAll, ClockIsPast, ReloadMessage;
      SessionsOfTables(codec, db);
      ReloadAllAppend(codec, session.history, m);
      OnlyCachedUnderItsId(session);
      session.history := session.history + [m];
      session.messageCount := |session.history|;
      PersistMessage(session.id, m, now);
      assert sessions == old(sessions);
    }

    lemma OnlyCachedUnderItsId(session: Session)
      requires Valid()
      ensures forall id :: id in sessions && sessions[id] == session ==> id == session.id && id in Contents()
    {
    }

    lemma ShownIsFromHistories()
      ensures Shown() == ShownFrom(Histories(sessions), Contents())
    {
      hide Conversations;
    }
  }

  ghost function Histories(sessions: map<string, Session>): map<string, seq<Message>>
    reads sessions.Values
  {
    map id | id in sessions :: sessions[id].history
  }

  function ShownFrom(histories: map<string, seq<Message>>, contents: map<string, seq<Message>>): Shown {
    map id | id in contents :: if id in histories && histories[id] != [] then histories[id] else contents[id]
  }

  /** A history that is as long as its conversation grows with it, and what is shown grows by the
      message. */
  lemma AddedIsShown(histories: map<string, seq<Message>>, contents: map<string, seq<Message>>, id: string, m: Message, stored: Message)
    requires id in contents ==> id in histories && |histories[id]| == |contents[id]|
    ensures id in contents ==>
              ShownFrom(histories[id := histories[id] + [m]], contents[id := contents[id] + [stored]])
              == var shown := ShownFrom(histories, contents); shown[id := shown[id] + [m]]
  {
  }

  lemma ReplacedIsShown(histories: map<string, seq<Message>>, contents: map<string, seq<Message>>, id: string,
                        messages: seq<Message>, stored: seq<Message>)
    requires id in contents && (messages == [] ==> stored == [])
    ensures ShownFrom(histories[id := messages], contents[id := stored]) == ShownFrom(histories, contents)[id := messages]
  {
  }
}
