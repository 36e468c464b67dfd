/** The queue table as a value: what expires, what is evicted to keep the byte budget, and
    what is written down about it. */
module QueueRows {
  import opened Common
  import opened QueueItems

  datatype Reason = Expired | PayloadBudgetEviction | DeadRetried | DeadResolved

  datatype AuditEvent = AuditEvent(
    messageId: string, topic: string, status: Status, reason: Reason, bytes: nat, at: int, blocksTopic: bool)

  datatype Blocker = Blocker(topic: string, resolved: bool)

  /** `audit` is the whole log: its own retention, which folds old events into totals, is
      not modelled. */
  datatype Queue = Queue(rows: seq<Item>, blockers: map<string, Blocker>, audit: seq<AuditEvent>, nextId: nat)

  function Bytes(rows: seq<Item>): nat {
    if rows == [] then 0 else Bytes(rows[..|rows| - 1]) + rows[|rows| - 1].bytes
  }

  ghost predicate DistinctIds(rows: seq<Item>) {
    forall i, j :: 0 <= i < j < |rows| ==> rows[i].id != rows[j].id
  }

  // ---------------------------------------------------------------- ORDER BY created_at, id

  predicate Older(a: Item, b: Item) {
    a.created < b.created || (a.created == b.created && a.id <= b.id)
  }

  function InsertByAge(rows: seq<Item>, x: Item): seq<Item> {
    if rows == [] || Older(rows[|rows| - 1], x) then rows + [x]
    else InsertByAge(rows[..|rows| - 1], x) + [rows[|rows| - 1]]
  }

  function ByAge(rows: seq<Item>): seq<Item> {
    if rows == [] then [] else InsertByAge(ByAge(rows[..|rows| - 1]), rows[|rows| - 1])
  }

  ghost predicate SortedByAge(rows: seq<Item>) {
    forall i, j :: 0 <= i < j < |rows| ==> Older(rows[i], rows[j])
  }

  lemma BytesAppend(rows: seq<Item>, x: Item)
    ensures Bytes(rows + [x]) == Bytes(rows) + x.bytes
  {
    assert (rows + [x])[..|rows|] == rows;
  }

  lemma {:induction false} InsertByAgePermutes(rows: seq<Item>, x: Item)
    ensures multiset(InsertByAge(rows, x)) == multiset(rows) + multiset{x}
    decreases |rows|
  {
    if rows != [] && !Older(rows[|rows| - 1], x) {
      InsertByAgePermutes(rows[..|rows| - 1], x);
      assert rows == rows[..|rows| - 1] + [rows[|rows| - 1]];
    }
  }

  lemma {:induction false} InsertByAgeBytes(rows: seq<Item>, x: Item)
    ensures Bytes(InsertByAge(rows, x)) == Bytes(rows) + x.bytes
    decreases |rows|
  {
    if rows == [] || Older(rows[|rows| - 1], x) {
      BytesAppend(rows, x);
    } else {
      InsertByAgeBytes(rows[..|rows| - 1], x);
      BytesAppend(InsertByAge(rows[..|rows| - 1], x), rows[|rows| - 1]);
    }
  }

  lemma InsertByAgeMembers(rows: seq<Item>, x: Item)
    ensures forall r :: r in InsertByAge(rows, x) ==> r in rows || r == x
  {
    InsertByAgePermutes(rows, x);
    forall r | r in InsertByAge(rows, x)
      ensures r in rows || r == x
    {
      assert r in multiset(InsertByAge(rows, x));
    }
  }

  lemma {:induction false} InsertByAgeSorts(rows: seq<Item>, x: Item)
    requires SortedByAge(rows)
    ensures SortedByAge(InsertByAge(rows, x))
    decreases |rows|
  {
    if rows != [] && !Older(rows[|rows| - 1], x) {
      InsertByAgeSorts(rows[..|rows| - 1], x);
      InsertByAgeMembers(rows[..|rows| - 1], x);
      var before, last := InsertByAge(rows[..|rows| - 1], x), rows[|rows| - 1];
      forall i | 0 <= i < |before|
        ensures Older(before[i], last)
      {
        assert before[i] in before;
        if before[i] != x {
          var k :| 0 <= k < |rows| - 1 && rows[..|rows| - 1][k] == before[i];
          assert Older(rows[k], rows[|rows| - 1]);
        }
      }
    }
  }

  lemma {:induction false} ByAgePermutes(rows: seq<Item>)
    ensures multiset(ByAge(rows)) == multiset(rows)
    decreases |rows|
  {
    if rows != [] {
      ByAgePermutes(rows[..|rows| - 1]);
      InsertByAgePermutes(ByAge(rows[..|rows| - 1]), rows[|rows| - 1]);
      assert rows == rows[..|rows| - 1] + [rows[|rows| - 1]];
    }
  }

  lemma {:induction false} ByAgeSorts(rows: seq<Item>)
    ensures SortedByAge(ByAge(rows))
    decreases |rows|
  {
    if rows != [] {
      ByAgeSorts(rows[..|rows| - 1]);
      InsertByAgeSorts(ByAge(rows[..|rows| - 1]), rows[|rows| - 1]);
    }
  }

  lemma {:induction false} ByAgeBytes(rows: seq<Item>)
    ensures Bytes(ByAge(rows)) == Bytes(rows)
    decreases |rows|
  {
    if rows != [] {
      ByAgeBytes(rows[..|rows| - 1]);
      InsertByAgeBytes(ByAge(rows[..|rows| - 1]), rows[|rows| - 1]);
    }
  }

  // ---------------------------------------------------------------- deleting

  function Without(rows: seq<Item>, ids: set<nat>): seq<Item> {
    if rows == [] then []
    else
      var before := Without(rows[..|rows| - 1], ids);
      if rows[|rows| - 1].id in ids then before else before + [rows[|rows| - 1]]
  }

  function Ids(rows: seq<Item>): set<nat> {
    if rows == [] then {} else Ids(rows[..|rows| - 1]) + {rows[|rows| - 1].id}
  }

  lemma {:induction false} IdsMembers(rows: seq<Item>, i: nat)
    requires i < |rows|
    ensures rows[i].id in Ids(rows)
    decreases |rows|
  {
    if i < |rows| - 1 {
      IdsMembers(rows[..|rows| - 1], i);
    }
  }

  lemma {:induction false} WithoutMembers(rows: seq<Item>, ids: set<nat>)
    ensures forall r :: r in Without(rows, ids) <==> r in rows && r.id !in ids
    decreases |rows|
  {
    if rows != [] {
      WithoutMembers(rows[..|rows| - 1], ids);
      assert rows == rows[..|rows| - 1] + [rows[|rows| - 1]];
    }
  }

  lemma {:induction false} WithoutBytes(rows: seq<Item>, ids: set<nat>)
    ensures Bytes(Without(rows, ids)) <= Bytes(rows)
    decreases |rows|
  {
    if rows != [] {
      WithoutBytes(rows[..|rows| - 1], ids);
      BytesAppend(Without(rows[..|rows| - 1], ids), rows[|rows| - 1]);
    }
  }

  /** The last row shares its key with no other. */
  lemma LastIsDistinct(rows: seq<Item>)
    requires DistinctIds(rows) && rows != []
    ensures forall r :: r in rows[..|rows| - 1] ==> r.id != rows[|rows| - 1].id
  {
    forall r | r in rows[..|rows| - 1]
      ensures r.id != rows[|rows| - 1].id
    {
      var i :| 0 <= i < |rows| - 1 && rows[..|rows| - 1][i] == r;
      assert rows[i] == r;
    }
  }

  lemma {:induction false} WithoutDistinct(rows: seq<Item>, ids: set<nat>)
    requires DistinctIds(rows)
    ensures DistinctIds(Without(rows, ids))
    decreases |rows|
  {
    if rows != [] {
      WithoutDistinct(rows[..|rows| - 1], ids);
      WithoutMembers(rows[..|rows| - 1], ids);
      LastIsDistinct(rows);
    }
  }

  lemma {:induction false} WithoutOne(rows: seq<Item>, x: Item)
    requires DistinctIds(rows) && x in rows
    ensures Bytes(Without(rows, {x.id})) == Bytes(rows) - x.bytes
    decreases |rows|
  {
    var init, last := rows[..|rows| - 1], rows[|rows| - 1];
    assert rows == init + [last];
    LastIsDistinct(rows);
    if last == x {
      WithoutNone(init, {x.id});
    } else {
      assert x in init;
      WithoutOne(init, x);
      BytesAppend(Without(init, {x.id}), last);
    }
  }

  lemma {:induction false} WithoutNone(rows: seq<Item>, ids: set<nat>)
    requires forall r :: r in rows ==> r.id !in ids
    ensures Without(rows, ids) == rows
    decreases |rows|
  {
    if rows != [] {
      WithoutNone(rows[..|rows| - 1], ids);
      assert rows == rows[..|rows| - 1] + [rows[|rows| - 1]];
    }
  }

  lemma {:induction false} WithoutTwice(rows: seq<Item>, a: set<nat>, b: set<nat>)
    ensures Without(Without(rows, a), b) == Without(rows, a + b)
    decreases |rows|
  {
    if rows != [] {
      var init, last := rows[..|rows| - 1], rows[|rows| - 1];
      WithoutTwice(init, a, b);
      if last.id !in a {
        assert (Without(init, a) + [last])[..|Without(init, a)|] == Without(init, a);
      }
    }
  }

  // ---------------------------------------------------------------- eviction

  /** How many of the oldest rows have to go to free the given number of bytes. */
  function VictimCount(oldest: seq<Item>, toFree: int, from: nat): nat
    requires from <= |oldest|
    decreases |oldest| - from
  {
    if toFree <= 0 || from == |oldest| then from
    else VictimCount(oldest, toFree - oldest[from].bytes, from + 1)
  }

  function Victims(rows: seq<Item>, toFree: int): seq<Item> {
    var n := VictimCount(ByAge(rows), toFree, 0);
    if n <= |rows| && n <= |ByAge(rows)| then ByAge(rows)[..n] else []
  }

  function BytesUpTo(rows: seq<Item>, n: nat): nat
    requires n <= |rows|
  {
    if n == 0 then 0 else BytesUpTo(rows, n - 1) + rows[n - 1].bytes
  }

  lemma {:induction false} BytesOfPrefix(rows: seq<Item>, n: nat)
    requires n <= |rows|
    ensures Bytes(rows[..n]) == BytesUpTo(rows, n)
    decreases n
  {
    if n > 0 {
      BytesOfPrefix(rows, n - 1);
      assert rows[..n] == rows[..n - 1] + [rows[n - 1]];
      BytesAppend(rows[..n - 1], rows[n - 1]);
    }
  }

  /** Enough is picked, and with one less it would not have been enough. */
  lemma {:induction false} VictimCountIsLeast(oldest: seq<Item>, toFree: int, from: nat)
    requires from <= |oldest| && toFree <= BytesUpTo(oldest, |oldest|) - BytesUpTo(oldest, from)
    ensures var n := VictimCount(oldest, toFree, from);
            && from <= n <= |oldest|
            && BytesUpTo(oldest, n) - BytesUpTo(oldest, from) >= toFree
            && (n > from ==> BytesUpTo(oldest, n - 1) - BytesUpTo(oldest, from) < toFree)
    decreases |oldest| - from
  {
    if toFree > 0 && from < |oldest| {
      VictimCountIsLeast(oldest, toFree - oldest[from].bytes, from + 1);
    }
  }

  // ---------------------------------------------------------------- removing rows for good

  function AuditOf(item: Item, reason: Reason, at: int): AuditEvent {
    AuditEvent(item.messageId, item.topic, item.status, reason, item.bytes, at, item.status == Dead)
  }

  function AuditOfAll(items: seq<Item>, reason: Reason, at: int): (events: seq<AuditEvent>)
    ensures |events| == |items|
    ensures forall i :: 0 <= i < |items| ==> events[i] == AuditOf(items[i], reason, at)
  {
    seq(|items|, i requires 0 <= i < |items| => AuditOf(items[i], reason, at))
  }

  /** A dead message leaves a blocker behind, which reopens one that it left before. */
  function BlockFor(blockers: map<string, Blocker>, item: Item): map<string, Blocker> {
    if item.status == Dead then blockers[item.messageId := Blocker(item.topic, false)] else blockers
  }

  function BlockForAll(blockers: map<string, Blocker>, items: seq<Item>): map<string, Blocker> {
    if items == [] then blockers
    else BlockFor(BlockForAll(blockers, items[..|items| - 1]), items[|items| - 1])
  }

  function Removed(q: Queue, gone: seq<Item>, reason: Reason, at: int): Queue {
    q.(rows := Without(q.rows, Ids(gone)), blockers := BlockForAll(q.blockers, gone),
       audit := q.audit + AuditOfAll(gone, reason, at))
  }

  function OlderThan(rows: seq<Item>, cutoff: int): seq<Item> {
    if rows == [] then []
    else
      var before := OlderThan(rows[..|rows| - 1], cutoff);
      if rows[|rows| - 1].created < cutoff then before + [rows[|rows| - 1]] else before
  }

  function Expire(o: Options, q: Queue, now: int): Queue {
    Removed(q, OlderThan(q.rows, now - o.maxAge), Expired, now)
  }

  function Evict(o: Options, q: Queue, incoming: nat, now: int): Queue {
    Removed(q, Victims(q.rows, Bytes(q.rows) + incoming - o.maxBytes), PayloadBudgetEviction, now)
  }

  // ---------------------------------------------------------------- the byte budget

  lemma MemberOfByAge(rows: seq<Item>)
    ensures forall r :: r in ByAge(rows) <==> r in rows
    ensures |ByAge(rows)| == |rows|
  {
    ByAgePermutes(rows);
    assert |multiset(ByAge(rows))| == |multiset(rows)|;
    forall r
      ensures r in ByAge(rows) <==> r in rows
    {
      assert r in ByAge(rows) <==> r in multiset(ByAge(rows));
    }
  }

  lemma VictimsAreTheOldest(rows: seq<Item>, toFree: int)
    requires toFree <= Bytes(rows)
    ensures var n := |Victims(rows, toFree)|;
            && n <= |ByAge(rows)| && Victims(rows, toFree) == ByAge(rows)[..n]
            && Bytes(Victims(rows, toFree)) >= toFree
            && (n > 0 ==> Bytes(ByAge(rows)[..n - 1]) < toFree)
  {
    hide ByAge, VictimCount, Bytes;
    var oldest := ByAge(rows);
    ByAgeBytes(rows);
    MemberOfByAge(rows);
    assert oldest[..|oldest|] == oldest;
    BytesOfPrefix(oldest, |oldest|);
    VictimCountIsLeast(oldest, toFree, 0);
    var n := VictimCount(oldest, toFree, 0);
    BytesOfPrefix(oldest, n);
    if n > 0 {
      BytesOfPrefix(oldest, n - 1);
    }
  }

  lemma {:induction false} ByAgeDistinct(rows: seq<Item>)
    requires DistinctIds(rows)
    ensures DistinctIds(ByAge(rows))
    decreases |rows|
  {
    if rows != [] {
      ByAgeDistinct(rows[..|rows| - 1]);
      MemberOfByAge(rows[..|rows| - 1]);
      LastIsDistinct(rows);
      InsertByAgeDistinct(ByAge(rows[..|rows| - 1]), rows[|rows| - 1]);
    }
  }

  lemma {:induction false} InsertByAgeDistinct(rows: seq<Item>, x: Item)
    requires DistinctIds(rows) && forall r :: r in rows ==> r.id != x.id
    ensures DistinctIds(InsertByAge(rows, x))
    decreases |rows|
  {
    if rows != [] && !Older(rows[|rows| - 1], x) {
      var init, last := rows[..|rows| - 1], rows[|rows| - 1];
      InsertByAgeDistinct(init, x);
      InsertByAgeMembers(init, x);
      LastIsDistinct(rows);
    }
  }

  lemma {:induction false} RemovalFreesBytes(rows: seq<Item>, gone: seq<Item>)
    requires DistinctIds(rows) && DistinctIds(gone) && forall g :: g in gone ==> g in rows
    ensures Bytes(Without(rows, Ids(gone))) == Bytes(rows) - Bytes(gone)
    ensures forall r :: r in rows && r !in gone ==> r.id !in Ids(gone)
    decreases |gone|
  {
    if gone == [] {
      WithoutNone(rows, Ids(gone));
    } else {
      var init, last := gone[..|gone| - 1], gone[|gone| - 1];
      RemovalFreesBytes(rows, init);
      RemoveLast(rows, init, last);
      forall r | r in rows && r !in gone
        ensures r.id !in Ids(gone)
      {
        assert r !in init && r != last;
        SameIdSameRow(rows, r, last);
      }
    }
  }

  lemma SameIdSameRow(rows: seq<Item>, r: Item, s: Item)
    requires DistinctIds(rows) && r in rows && s in rows
    ensures r.id == s.id ==> r == s
  {
    var i :| 0 <= i < |rows| && rows[i] == r;
    var j :| 0 <= j < |rows| && rows[j] == s;
  }

  lemma RemoveLast(rows: seq<Item>, init: seq<Item>, last: Item)
    requires DistinctIds(rows) && last in rows && last.id !in Ids(init)
    ensures Bytes(Without(rows, Ids(init) + {last.id})) == Bytes(Without(rows, Ids(init))) - last.bytes
  {
    WithoutDistinct(rows, Ids(init));
    WithoutMembers(rows, Ids(init));
    WithoutOne(Without(rows, Ids(init)), last);
    WithoutTwice(rows, Ids(init), {last.id});
  }

  /** Taking out the victims frees the bytes asked for. */
  lemma VictimsFreeEnough(rows: seq<Item>, toFree: int)
    requires DistinctIds(rows) && toFree <= Bytes(rows)
    ensures Bytes(Without(rows, Ids(Victims(rows, toFree)))) <= Bytes(rows) - toFree
  {
    VictimsAreTheOldest(rows, toFree);
    ByAgeDistinct(rows);
    MemberOfByAge(rows);
    RemovalFreesBytes(rows, Victims(rows, toFree));
  }

  /** After an eviction what is left and what is coming fit the budget. */
  lemma EvictionMeetsBudget(o: Options, q: Queue, incoming: nat, now: int)
    requires DistinctIds(q.rows) && incoming <= o.maxBytes
    ensures Bytes(Evict(o, q, incoming, now).rows) + incoming <= o.maxBytes
  {
    VictimsFreeEnough(q.rows, Bytes(q.rows) + incoming - o.maxBytes);
  }

  /** Whatever is evicted is older than whatever stays. */
  lemma EvictionIsOldestFirst(rows: seq<Item>, toFree: int, v: Item, r: Item)
    requires DistinctIds(rows) && toFree <= Bytes(rows)
    requires v in Victims(rows, toFree) && r in Without(rows, Ids(Victims(rows, toFree)))
    ensures Older(v, r) && v.id != r.id
  {
    var oldest, gone := ByAge(rows), Victims(rows, toFree);
    VictimsAreTheOldest(rows, toFree);
    ByAgeSorts(rows);
    MemberOfByAge(rows);
    WithoutMembers(rows, Ids(gone));
    var i :| 0 <= i < |gone| && gone[i] == v;
    IdsMembers(gone, i);
    var j :| 0 <= j < |oldest| && oldest[j] == r;
    if j < |gone| {
      IdsMembers(gone, j);
    }
    assert Older(oldest[i], oldest[j]);
  }

  /** No more is evicted than needed: with the youngest victim kept, the budget would be exceeded. */
  lemma EvictionIsLeast(o: Options, q: Queue, incoming: nat)
    requires incoming <= o.maxBytes
    ensures var gone := Victims(q.rows, Bytes(q.rows) + incoming - o.maxBytes);
            gone != [] ==> Bytes(q.rows) - Bytes(gone[..|gone| - 1]) + incoming > o.maxBytes
  {
    var toFree := Bytes(q.rows) + incoming - o.maxBytes;
    VictimsAreTheOldest(q.rows, toFree);
    var gone := Victims(q.rows, toFree);
    if gone != [] {
      assert gone[..|gone| - 1] == ByAge(q.rows)[..|gone| - 1];
    }
  }
}
