/** What the calls of the session manager do to a plain table of conversations, each message
    with the time at which it was stored; and what holds over every run of calls. */
module ChatRuns {
  import opened Common
  import opened MessageContent
  import opened MessageRows
  import opened ChatDatabase

  /** Conversations and, message by message, their timestamps. */
  datatype Chats = Chats(contents: map<string, seq<Message>>, times: map<string, seq<int>>)

  datatype Call =
    | Create(id: string)
    | Get(id: string)
    | Add(id: string, message: Message, now: int)
    | Truncate(id: string, keepCount: int)
    | Replace(id: string, messages: seq<Message>, now: int)
    | Delete(id: string)
    | Restart(recent: set<string>)

  function Prefix<T>(ms: seq<T>, keep: nat): seq<T> {
    if keep < |ms| then ms[..keep] else ms
  }

  /** A call on an unknown id, or a creation of a known one, changes nothing. */
  function After(c: Codec, s: Chats, call: Call): Chats {
    match call
    case Create(id) =>
      if id in s.contents then s else Chats(s.contents[id := []], s.times[id := []])
    case Add(id, m, now) =>
      if id !in s.contents || id !in s.times then s
      else Chats(s.contents[id := s.contents[id] + [ReloadMessage(c, m)]], s.times[id := s.times[id] + [now]])
    case Truncate(id, keep) =>
      if id !in s.contents || id !in s.times || keep < 0 then s
      else Chats(s.contents[id := Prefix(s.contents[id], keep)], s.times[id := Prefix(s.times[id], keep)])
    case Replace(id, ms, now) =>
      if id !in s.contents then s
      else Chats(s.contents[id := ReloadAll(c, ms)], s.times[id := Microseconds(now, |ms|)])
    case Delete(id) => Chats(s.contents - {id}, s.times - {id})
    case _ => s
  }

  function AfterAll(c: Codec, s: Chats, calls: seq<Call>): Chats
    decreases |calls|
  {
    if calls == [] then s else AfterAll(c, After(c, s, calls[0]), calls[1..])
  }

  /** A message is added when the clock is past all messages of its session. */
  predicate Timely(s: Chats, call: Call) {
    call.Add? && call.id in s.times ==> forall i :: 0 <= i < |s.times[call.id]| ==> s.times[call.id][i] < call.now
  }

  predicate AllTimely(c: Codec, s: Chats, calls: seq<Call>)
    decreases |calls|
  {
    calls != [] ==> Timely(s, calls[0]) && AllTimely(c, After(c, s, calls[0]), calls[1..])
  }

  predicate Increasing(ts: seq<int>) {
    forall i, j :: 0 <= i < j < |ts| ==> ts[i] < ts[j]
  }

  /** Every message has its timestamp, and timestamp order is conversation order. */
  ghost predicate InTime(s: Chats) {
    && s.times.Keys == s.contents.Keys
    && (forall id :: id in s.times ==> |s.times[id]| == |s.contents[id]| && Increasing(s.times[id]))
  }

  lemma CallKeepsInTime(c: Codec, s: Chats, call: Call)
    requires InTime(s) && Timely(s, call)
    ensures InTime(After(c, s, call))
  {
  }

  /** The exact price of not being in time: the order is lost with the first message added
      at or before the last one. */
  lemma AddKeepsInTimeExactlyWhen(c: Codec, s: Chats, id: string, m: Message, now: int)
    requires InTime(s) && id in s.contents
    ensures InTime(After(c, s, Add(id, m, now))) <==> Timely(s, Add(id, m, now))
  {
    var s' := After(c, s, Add(id, m, now));
    var ts, ts' := s.times[id], s'.times[id];
    if InTime(s') {
      forall i | 0 <= i < |ts|
        ensures ts[i] < now
      {
        assert ts'[i] == ts[i] && ts'[|ts|] == now;
      }
    } else {
      assert forall t :: t in s'.times && t != id ==> Increasing(s'.times[t]);
      if Timely(s, Add(id, m, now)) {
        CallKeepsInTime(c, s, Add(id, m, now));
      }
    }
  }

  ghost predicate AlwaysInTime(c: Codec, s: Chats, calls: seq<Call>)
    decreases |calls|
  {
    InTime(s) && (calls != [] ==> AlwaysInTime(c, After(c, s, calls[0]), calls[1..]))
  }

  /** Over every run timestamp order is conversation order at every instant exactly when every
      message is added in time. */
  lemma {:induction false} RunIsInTimeExactlyWhen(c: Codec, s: Chats, calls: seq<Call>)
    requires InTime(s)
    ensures AlwaysInTime(c, s, calls) <==> AllTimely(c, s, calls)
    decreases |calls|
  {
    hide InTime, Timely, After;
    if calls != [] {
      CallIsInTimeExactlyWhen(c, s, calls[0]);
      if Timely(s, calls[0]) {
        RunIsInTimeExactlyWhen(c, After(c, s, calls[0]), calls[1..]);
      }
    }
  }

  lemma CallIsInTimeExactlyWhen(c: Codec, s: Chats, call: Call)
    requires InTime(s)
    ensures InTime(After(c, s, call)) <==> Timely(s, call)
  {
    if Timely(s, call) {
      CallKeepsInTime(c, s, call);
    } else {
      AddKeepsInTimeExactlyWhen(c, s, call.id, call.message, call.now);
    }
  }

  /** After replacing n messages at t the next message is in time exactly from t + n on. */
  lemma AddAfterReplaceInTimeExactlyWhen(c: Codec, s: Chats, id: string, ms: seq<Message>, t: int, m: Message, now: int)
    requires id in s.contents
    ensures Timely(After(c, s, Replace(id, ms, t)), Add(id, m, now)) <==> (ms != [] ==> now >= t + |ms|)
  {
    var times := After(c, s, Replace(id, ms, t)).times[id];
    if ms != [] {
      assert times[|ms| - 1] == t + |ms| - 1;
    }
  }

  /** Truncating takes off what was added after. */
  lemma TruncateUndoesAdd(c: Codec, s: Chats, id: string, m: Message, now: int)
    requires InTime(s) && id in s.contents
    ensures After(c, After(c, s, Add(id, m, now)), Truncate(id, |s.contents[id]|)) == s
  {
    var added := After(c, s, Add(id, m, now));
    assert added.contents[id][..|s.contents[id]|] == s.contents[id];
    assert added.times[id][..|s.contents[id]|] == s.times[id];
  }

  // ---------------------------------------------------------------- what is shown

  type Shown = map<string, seq<Message>>

  /** A call leaves, adds or replaces messages as they are given; only a restart brings all of
      them back from the database. */
  function ShownAfter(contents: map<string, seq<Message>>, shown: Shown, call: Call): Shown {
    match call
    case Create(id) => if id in contents then shown else shown[id := []]
    case Get(_) => shown
    case Add(id, m, _) => if id in shown then shown[id := shown[id] + [m]] else shown
    case Truncate(id, keep) => if id !in shown || keep < 0 then shown else shown[id := Prefix(shown[id], keep)]
    case Replace(id, ms, _) => if id in shown then shown[id := ms] else shown
    case Delete(id) => shown - {id}
    case Restart(_) => contents
  }

  /** The conversations as stored, and as `get_session` shows them. */
  datatype Store = Store(chats: Chats, shown: Shown)

  function StoreAfter(c: Codec, s: Store, call: Call): Store {
    Store(After(c, s.chats, call), ShownAfter(s.chats.contents, s.shown, call))
  }

  function StoreAfterAll(c: Codec, s: Store, calls: seq<Call>): Store
    decreases |calls|
  {
    if calls == [] then s else StoreAfterAll(c, StoreAfter(c, s, calls[0]), calls[1..])
  }

  /** What a call returns: the messages shown, a truth value, or an exception about the id. */
  datatype Answer = Messages(messages: seq<Message>) | Done(ok: bool) | Raised

  function AnswerTo(s: Store, call: Call): Answer {
    match call
    case Create(id) => if id in s.shown then Raised else Done(true)
    case Get(id) => if id in s.shown then Messages(s.shown[id]) else Raised
    case Add(id, _, _) => if id in s.shown then Done(true) else Raised
    case Truncate(id, keep) => if id in s.shown then Done(keep >= 0) else Raised
    case Replace(id, _, _) => if id in s.shown then Done(true) else Raised
    case Delete(id) => Done(id in s.shown)
    case Restart(_) => Done(true)
  }

  function AnswersTo(c: Codec, s: Store, calls: seq<Call>): seq<Answer> {
    if calls == [] then []
    else AnswersTo(c, s, calls[..|calls| - 1]) + [AnswerTo(StoreAfterAll(c, s, calls[..|calls| - 1]), calls[|calls| - 1])]
  }

  lemma {:induction false} StoreAfterMore(c: Codec, s: Store, calls: seq<Call>, call: Call)
    ensures StoreAfterAll(c, s, calls + [call]) == StoreAfter(c, StoreAfterAll(c, s, calls), call)
    decreases |calls|
  {
    if calls == [] {
      assert ([] + [call])[1..] == [];
      assert StoreAfterAll(c, StoreAfter(c, s, call), []) == StoreAfter(c, s, call);
    } else {
      StoreAfterMore(c, StoreAfter(c, s, calls[0]), calls[1..], call);
      assert (calls + [call])[1..] == calls[1..] + [call];
    }
  }

  /** What is shown becomes what is stored by one round trip. */
  ghost predicate ShowsItself(c: Codec, s: Store) {
    && s.shown.Keys == s.chats.contents.Keys
    && (forall id :: id in s.shown ==> ReloadAll(c, s.shown[id]) == s.chats.contents[id])
    && (forall id :: id in s.shown ==> ReloadAll(c, s.chats.contents[id]) == s.chats.contents[id])
    && s.chats.times.Keys == s.chats.contents.Keys
  }

  /** The call gives the store nothing that a round trip changes. */
  predicate GivesExact(c: Codec, s: Store, call: Call) {
    match call
    case Add(id, m, _) => id in s.shown ==> Exact(c, m)
    case Replace(id, ms, _) => id in s.shown ==> forall i :: 0 <= i < |ms| ==> Exact(c, ms[i])
    case _ => true
  }

  /** From a store that shows what it stores, one call leaves such a store exactly when it
      gives nothing that a round trip changes. */
  lemma CallShowsStoredExactlyWhen(c: Codec, s: Store, call: Call)
    requires Faithful(c) && ShowsItself(c, s) && s.shown == s.chats.contents
    ensures var s' := StoreAfter(c, s, call);
            s'.shown == s'.chats.contents <==> GivesExact(c, s, call)
  {
    var s' := StoreAfter(c, s, call);
    match call
    case Add(id, m, _) =>
      if id in s.shown {
        ReloadIsExactWhen(c, m.content);
        var n := |s.shown[id]|;
        assert s'.shown[id][n] == m && s'.chats.contents[id][n] == ReloadMessage(c, m);
      }
    case Replace(id, ms, _) =>
      if id in s.shown {
        ExactMessagesReload(c, ms);
        assert s'.shown[id] == ms && s'.chats.contents[id] == ReloadAll(c, ms);
      }
    case _ =>
  }

  lemma ReloadOfPrefix(c: Codec, ms: seq<Message>, keep: nat)
    ensures ReloadAll(c, Prefix(ms, keep)) == Prefix(ReloadAll(c, ms), keep)
  {
  }

  lemma CallShowsItself(c: Codec, s: Store, call: Call)
    requires Faithful(c) && ShowsItself(c, s)
    ensures ShowsItself(c, StoreAfter(c, s, call))
  {
    match call
    case Add(id, m, _) =>
      if id in s.shown {
        ReloadAllAppend(c, s.shown[id], m);
        ReloadAllAppend(c, s.chats.contents[id], ReloadMessage(c, m));
        ReloadSettles(c, m.content);
      }
    case Truncate(id, keep) =>
      if id in s.shown && keep >= 0 {
        ReloadOfPrefix(c, s.shown[id], keep);
        ReloadOfPrefix(c, s.chats.contents[id], keep);
      }
    case Replace(id, ms, _) =>
      ReloadAllSettles(c, ms);
    case _ =>
  }

  /** After every call of the run the store shows what it stores. */
  predicate AlwaysShowsStored(c: Codec, s: Store, calls: seq<Call>)
    decreases |calls|
  {
    s.shown == s.chats.contents && (calls != [] ==> AlwaysShowsStored(c, StoreAfter(c, s, calls[0]), calls[1..]))
  }

  predicate GivesOnlyExact(c: Codec, s: Store, calls: seq<Call>)
    decreases |calls|
  {
    calls != [] ==> GivesExact(c, s, calls[0]) && GivesOnlyExact(c, StoreAfter(c, s, calls[0]), calls[1..])
  }

  /** What `get_session` returns is the stored conversation throughout a run exactly when no
      call of the run gives a message that a round trip changes. */
  lemma {:induction false} RunShowsStoredExactlyWhen(c: Codec, s: Store, calls: seq<Call>)
    requires Faithful(c) && ShowsItself(c, s) && s.shown == s.chats.contents
    ensures AlwaysShowsStored(c, s, calls) <==> GivesOnlyExact(c, s, calls)
    decreases |calls|
  {
    if calls != [] {
      CallShowsStoredExactlyWhen(c, s, calls[0]);
      CallShowsItself(c, s, calls[0]);
      if GivesExact(c, s, calls[0]) {
        RunShowsStoredExactlyWhen(c, StoreAfter(c, s, calls[0]), calls[1..]);
      }
    }
  }

  /** In any run, one session is shown as it is stored exactly when every message that it
      shows survives the round trip. */
  lemma ShownIsStoredExactlyWhen(c: Codec, s: Store, id: string)
    requires Faithful(c) && ShowsItself(c, s) && id in s.shown
    ensures s.shown[id] == s.chats.contents[id] <==> forall i :: 0 <= i < |s.shown[id]| ==> Exact(c, s.shown[id][i])
  {
    ExactMessagesReload(c, s.shown[id]);
  }

  // ---------------------------------------------------------------- the tables behind it

  /** What the two tables stand for. */
  function StateOf(c: Codec, db: Db): Chats {
    Chats(Conversations(c, db), Timetable(db))
  }

  lemma InsertIsAdd(c: Codec, db: Db, id: string, m: Message, now: int, count: nat)
    requires DbOk(db) && id in db.counts
    ensures StateOf(c, SetCount(InsertMessage(c, db, id, m, now), id, count)) == After(c, StateOf(c, db), Add(id, m, now))
  {
    InsertedMessageIsLast(c, db, id, m, now, count);
    InsertedMessageTime(c, db, id, m, now, count);
  }

  lemma CutChatsAreTruncated(c: Codec, s: Chats, s': Chats, id: string, keepCount: nat, keep: nat)
    requires id in s.contents && id in s.times && |s.times[id]| == |s.contents[id]|
    requires keep == if keepCount < |s.contents[id]| then keepCount else |s.contents[id]|
    requires s'.contents == s.contents[id := s.contents[id][..keep]]
    requires s'.times == s.times[id := s.times[id][..keep]]
    ensures s' == After(c, s, Truncate(id, keepCount))
  {
    assert keep == |s.contents[id]| ==> s.contents[id][..keep] == s.contents[id];
    assert keep == |s.times[id]| ==> s.times[id][..keep] == s.times[id];
  }

  lemma CutIsTruncate(c: Codec, db: Db, db': Db, id: string, keepCount: nat, keep: nat)
    requires DbOk(db) && TableOk(db') && id in db.counts
    requires keep == if keepCount < |RowsOf(db.table, id)| then keepCount else |RowsOf(db.table, id)|
    requires db'.counts == db.counts[id := keep]
    requires forall s :: RowsOf(db'.table, s) == if s == id then RowsOf(db.table, s)[..keep] else RowsOf(db.table, s)
    ensures DbOk(db') && StateOf(c, db') == After(c, StateOf(c, db), Truncate(id, keepCount))
  {
    CutConversationIsPrefix(c, db, db', id, keep);
    CutTimes(db, db', id, keep);
    CutChatsAreTruncated(c, StateOf(c, db), StateOf(c, db'), id, keepCount, keep);
  }

  lemma RewriteIsReplace(c: Codec, db: Db, db': Db, id: string, firstKey: nat, ms: seq<Message>, now: int)
    requires DbOk(db) && TableOk(db') && id in db.counts
    requires db'.counts == db.counts[id := |ms|]
    requires RowsOf(db'.table, id) == NewRows(c, firstKey, id, ms, now)
    requires forall s :: s != id ==> RowsOf(db'.table, s) == RowsOf(db.table, s)
    ensures DbOk(db') && StateOf(c, db') == After(c, StateOf(c, db), Replace(id, ms, now))
  {
    NewRowsAreTheConversation(c, db, db', id, firstKey, ms, now);
    NewRowsTimes(c, db, db', id, firstKey, ms, now);
  }

  lemma NewIsCreate(c: Codec, db: Db, id: string)
    requires DbOk(db) && id !in db.counts
    ensures DbOk(db.(counts := db.counts[id := 0]))
    ensures StateOf(c, db.(counts := db.counts[id := 0])) == After(c, StateOf(c, db), Create(id))
  {
    NewSessionIsEmpty(c, db, id);
    NewSessionTimes(db, id);
  }

  lemma GoneIsDelete(c: Codec, db: Db, id: string)
    requires DbOk(db)
    ensures DbOk(DeleteSession(DeleteMessages(db, id), id))
    ensures StateOf(c, DeleteSession(DeleteMessages(db, id), id)) == After(c, StateOf(c, db), Delete(id))
  {
    DeletedSessionIsGone(c, db, id);
    DeletedSessionTimes(db, id);
  }
}
