/** The message table: rows of all sessions, read back in timestamp order. */
module MessageRows {
  import opened Common

  datatype Row = Row(id: nat, session: string, role: string, raw: string, time: int)

  /** The rows of one session, in the order in which they were inserted. */
  function RowsOf(table: seq<Row>, session: string): seq<Row> {
    if table == [] then []
    else
      var before := RowsOf(table[..|table| - 1], session);
      var last := table[|table| - 1];
      if last.session == session then before + [last] else before
  }

  function WithoutSession(table: seq<Row>, session: string): seq<Row> {
    if table == [] then []
    else
      var before := WithoutSession(table[..|table| - 1], session);
      var last := table[|table| - 1];
      if last.session == session then before else before + [last]
  }

  function WithoutRow(table: seq<Row>, id: nat): seq<Row> {
    if table == [] then []
    else
      var before := WithoutRow(table[..|table| - 1], id);
      var last := table[|table| - 1];
      if last.id == id then before else before + [last]
  }

  // ---------------------------------------------------------------- ORDER BY timestamp

  ghost predicate Sorted(rows: seq<Row>) {
    forall i, j :: 0 <= i < j < |rows| ==> rows[i].time <= rows[j].time
  }

  /** A result that `ORDER BY timestamp` may return: it leaves ties open. */
  ghost predicate IsOrdering(rows: seq<Row>, out: seq<Row>) {
    multiset(out) == multiset(rows) && Sorted(out)
  }

  ghost predicate Orders(orderBy: seq<Row> -> seq<Row>) {
    forall rows: seq<Row> :: IsOrdering(rows, orderBy(rows))
  }

  /** Every later row has a later timestamp. */
  ghost predicate InOrder(rows: seq<Row>) {
    forall i, j :: 0 <= i < j < |rows| ==> rows[i].time < rows[j].time
  }

  function Insert(rows: seq<Row>, row: Row): seq<Row> {
    if rows == [] || rows[|rows| - 1].time <= row.time then rows + [row]
    else Insert(rows[..|rows| - 1], row) + [rows[|rows| - 1]]
  }

  lemma {:induction false} InsertAddsOne(rows: seq<Row>, row: Row)
    ensures multiset(Insert(rows, row)) == multiset(rows) + multiset{row}
    decreases |rows|
  {
    if rows != [] && rows[|rows| - 1].time > row.time {
      InsertAddsOne(rows[..|rows| - 1], row);
      assert rows == rows[..|rows| - 1] + [rows[|rows| - 1]];
    }
  }

  lemma {:induction false} InsertKeepsSorted(rows: seq<Row>, row: Row)
    requires Sorted(rows)
    ensures Sorted(Insert(rows, row))
    decreases |rows|
  {
    if rows != [] && rows[|rows| - 1].time > row.time {
      var init, last := rows[..|rows| - 1], rows[|rows| - 1];
      InsertKeepsSorted(init, row);
      InsertAddsOne(init, row);
      forall r | r in Insert(init, row)
        ensures r.time <= last.time
      {
        assert r in multiset(Insert(init, row));
        assert r in init || r == row;
      }
    }
  }

  /** The database always has an answer. */
  lemma {:induction false} SomeOrdering(rows: seq<Row>) returns (out: seq<Row>)
    ensures IsOrdering(rows, out)
    decreases |rows|
  {
    if rows == [] {
      out := [];
    } else {
      var before := SomeOrdering(rows[..|rows| - 1]);
      out := Insert(before, rows[|rows| - 1]);
      InsertAddsOne(before, rows[|rows| - 1]);
      InsertKeepsSorted(before, rows[|rows| - 1]);
      assert rows == rows[..|rows| - 1] + [rows[|rows| - 1]];
    }
  }

  lemma LastOfOrdering(rows: seq<Row>, out: seq<Row>)
    requires InOrder(rows) && IsOrdering(rows, out) && rows != []
    ensures out != [] && out[|out| - 1] == rows[|rows| - 1]
  {
    assert |multiset(out)| == |multiset(rows)|;
    assert rows[|rows| - 1] in multiset(out) && out[|out| - 1] in multiset(rows);
  }

  lemma LastTakenOff(rows: seq<Row>)
    requires rows != []
    ensures multiset(rows[..|rows| - 1]) == multiset(rows) - multiset{rows[|rows| - 1]}
  {
    assert rows == rows[..|rows| - 1] + [rows[|rows| - 1]];
  }

  /** Rows in strict timestamp order are read back in just that order. */
  lemma {:induction false} OrderingOfInOrder(rows: seq<Row>, out: seq<Row>)
    requires InOrder(rows) && IsOrdering(rows, out)
    ensures out == rows
    decreases |rows|
  {
    if rows == [] {
      assert |multiset(out)| == |multiset(rows)|;
    } else {
      LastOfOrdering(rows, out);
      LastTakenOff(rows);
      LastTakenOff(out);
      OrderingOfInOrder(rows[..|rows| - 1], out[..|out| - 1]);
      assert out == out[..|out| - 1] + [out[|out| - 1]];
    }
  }

  ghost predicate DistinctIds(rows: seq<Row>) {
    forall i, j :: 0 <= i < j < |rows| ==> rows[i].id != rows[j].id
  }

  lemma TieCanBeSwapped(rows: seq<Row>, i: nat, j: nat)
    requires Sorted(rows) && i < j < |rows| && rows[i].time == rows[j].time
    ensures IsOrdering(rows, rows[i := rows[j]][j := rows[i]])
  {
    var swapped := rows[i := rows[j]][j := rows[i]];
    assert multiset(swapped) == multiset(rows);
    assert forall k :: 0 <= k < |rows| ==> swapped[k].time == rows[k].time;
  }

  /** Exactly when conversation order is what every answer of the database shows. */
  lemma ReadBackInOrderExactlyWhen(rows: seq<Row>)
    requires DistinctIds(rows)
    ensures (forall out :: IsOrdering(rows, out) ==> out == rows) <==> InOrder(rows)
  {
    if InOrder(rows) {
      forall out | IsOrdering(rows, out)
        ensures out == rows
      {
        OrderingOfInOrder(rows, out);
      }
    } else if Sorted(rows) {
      var i, j :| 0 <= i < j < |rows| && rows[i].time >= rows[j].time;
      TieCanBeSwapped(rows, i, j);
      assert rows[i].id != rows[j].id;
      assert rows[i := rows[j]][j := rows[i]][i] != rows[i];
    } else {
      var out := SomeOrdering(rows);
      assert out != rows;
    }
  }

  /** Appending a message keeps the order exactly when the clock is past the last one. */
  lemma AppendKeepsOrderExactlyWhen(rows: seq<Row>, row: Row)
    requires InOrder(rows)
    ensures InOrder(rows + [row]) <==> (rows != [] ==> rows[|rows| - 1].time < row.time)
  {
    var all := rows + [row];
    if rows != [] {
      assert all[|rows| - 1] == rows[|rows| - 1] && all[|rows|] == row;
    }
  }

  // ---------------------------------------------------------------- inserting and deleting

  lemma RowsOfAppend(table: seq<Row>, row: Row, session: string)
    ensures RowsOf(table + [row], session)
            == if row.session == session then RowsOf(table, session) + [row] else RowsOf(table, session)
  {
    assert (table + [row])[..|table|] == table;
  }

  lemma {:induction false} RowsOfMembers(table: seq<Row>, session: string)
    ensures forall r :: r in RowsOf(table, session) <==> r in table && r.session == session
    decreases |table|
  {
    if table != [] {
      RowsOfMembers(table[..|table| - 1], session);
      assert table == table[..|table| - 1] + [table[|table| - 1]];
    }
  }

  lemma {:induction false} RowsOfAbsent(table: seq<Row>, session: string)
    requires forall r :: r in table ==> r.session != session
    ensures RowsOf(table, session) == []
    decreases |table|
  {
    if table != [] {
      RowsOfAbsent(table[..|table| - 1], session);
    }
  }

  lemma {:induction false} RowsOfDistinct(table: seq<Row>, session: string)
    requires DistinctIds(table)
    ensures DistinctIds(RowsOf(table, session))
    decreases |table|
  {
    if table != [] {
      var init, last := table[..|table| - 1], table[|table| - 1];
      RowsOfDistinct(init, session);
      RowsOfMembers(init, session);
      forall r | r in RowsOf(init, session)
        ensures r.id != last.id
      {
        var i :| 0 <= i < |init| && init[i] == r;
        assert table[i].id != last.id;
      }
    }
  }

  lemma {:induction false} WithoutSessionRows(table: seq<Row>, gone: string, session: string)
    ensures RowsOf(WithoutSession(table, gone), session) == if session == gone then [] else RowsOf(table, session)
    decreases |table|
  {
    if table != [] {
      var init, last := table[..|table| - 1], table[|table| - 1];
      WithoutSessionRows(init, gone, session);
      RowsOfAppend(WithoutSession(init, gone), last, session);
    }
  }

  /** Everything kept was there before, and in the same relative order. */
  lemma {:induction false} WithoutSessionMembers(table: seq<Row>, gone: string)
    ensures forall r :: r in WithoutSession(table, gone) <==> r in table && r.session != gone
    ensures DistinctIds(table) ==> DistinctIds(WithoutSession(table, gone))
    decreases |table|
  {
    if table != [] {
      var init, last := table[..|table| - 1], table[|table| - 1];
      WithoutSessionMembers(init, gone);
      assert table == init + [last];
      if DistinctIds(table) {
        assert DistinctIds(init);
        DistinctAppend(WithoutSession(init, gone), init, last);
      }
    }
  }

  lemma DistinctAppend(part: seq<Row>, init: seq<Row>, last: Row)
    requires DistinctIds(part) && DistinctIds(init + [last]) && forall r :: r in part ==> r in init
    ensures DistinctIds(part + [last])
  {
    forall r | r in part
      ensures r.id != last.id
    {
      var i :| 0 <= i < |init| && init[i] == r;
      assert (init + [last])[i].id != (init + [last])[|init|].id;
    }
  }

  lemma {:induction false} WithoutRowCommutes(table: seq<Row>, id: nat, session: string)
    ensures RowsOf(WithoutRow(table, id), session) == WithoutRow(RowsOf(table, session), id)
    decreases |table|
  {
    if table != [] {
      var init, last := table[..|table| - 1], table[|table| - 1];
      WithoutRowCommutes(init, id, session);
      RowsOfAppend(WithoutRow(init, id), last, session);
      WithoutRowAppend(RowsOf(init, session), last, id);
    }
  }

  lemma WithoutRowAppend(rows: seq<Row>, row: Row, id: nat)
    ensures WithoutRow(rows + [row], id) == if row.id == id then WithoutRow(rows, id) else WithoutRow(rows, id) + [row]
  {
    assert (rows + [row])[..|rows|] == rows;
  }

  lemma {:induction false} WithoutRowMembers(table: seq<Row>, id: nat)
    ensures forall r :: r in WithoutRow(table, id) <==> r in table && r.id != id
    ensures DistinctIds(table) ==> DistinctIds(WithoutRow(table, id))
    decreases |table|
  {
    if table != [] {
      var init, last := table[..|table| - 1], table[|table| - 1];
      WithoutRowMembers(init, id);
      assert table == init + [last];
      if DistinctIds(table) {
        assert DistinctIds(init);
        DistinctAppend(WithoutRow(init, id), init, last);
      }
    }
  }

  lemma {:induction false} WithoutAbsentRow(rows: seq<Row>, id: nat)
    requires forall r :: r in rows ==> r.id != id
    ensures WithoutRow(rows, id) == rows
    decreases |rows|
  {
    if rows != [] {
      WithoutAbsentRow(rows[..|rows| - 1], id);
      assert rows == rows[..|rows| - 1] + [rows[|rows| - 1]];
    }
  }

  /** Deleting a row by its key takes out that row and nothing else. */
  lemma {:induction false} WithoutRowAt(rows: seq<Row>, i: nat)
    requires DistinctIds(rows) && i < |rows|
    ensures WithoutRow(rows, rows[i].id) == rows[..i] + rows[i + 1..]
    decreases |rows|
  {
    var init, last := rows[..|rows| - 1], rows[|rows| - 1];
    if i < |rows| - 1 {
      WithoutRowAt(init, i);
      assert rows[..i] + rows[i + 1..] == (init[..i] + init[i + 1..]) + [last];
    } else {
      WithoutAbsentRow(init, last.id);
      assert rows[..i] + rows[i + 1..] == init;
    }
  }
}
