/** The full-text index over chat messages: three triggers that follow the message table and a
    backfill for what was there before. */
module SearchIndex {
  import opened Common

  datatype Row = Row(content: Option<string>, session: string, role: string)

  /** The message table by primary key. */
  type Table = map<string, Row>

  datatype Entry = Entry(content: string, messageId: string, session: string, role: string)

  function EntryOf(id: string, row: Row): Entry {
    Entry(row.content.GetOr(""), id, row.session, row.role)
  }

  // ---------------------------------------------------------------- agreement

  /** How often an entry belongs into the index. */
  function Due(table: Table, e: Entry): nat {
    if e.messageId in table && e == EntryOf(e.messageId, table[e.messageId]) then 1 else 0
  }

  /** As a multiset, the index is the image of the table. */
  ghost predicate Agrees(table: Table, entries: seq<Entry>) {
    forall e :: multiset(entries)[e] == Due(table, e)
  }

  predicate Indexed(entries: seq<Entry>, id: string) {
    exists i :: 0 <= i < |entries| && entries[i].messageId == id
  }

  function Without(entries: seq<Entry>, id: string): seq<Entry> {
    if entries == [] then []
    else
      var before := Without(entries[..|entries| - 1], id);
      if entries[|entries| - 1].messageId == id then before else before + [entries[|entries| - 1]]
  }

  lemma {:induction false} WithoutCounts(entries: seq<Entry>, id: string)
    ensures forall e :: multiset(Without(entries, id))[e] == if e.messageId == id then 0 else multiset(entries)[e]
    decreases |entries|
  {
    if entries != [] {
      WithoutCounts(entries[..|entries| - 1], id);
      assert entries == entries[..|entries| - 1] + [entries[|entries| - 1]];
    }
  }

  lemma IndexedCounts(entries: seq<Entry>, id: string)
    ensures Indexed(entries, id) <==> exists e :: e in multiset(entries) && e.messageId == id
  {
    forall i | 0 <= i < |entries|
      ensures entries[i] in multiset(entries)
    {
    }
    if e :| e in multiset(entries) && e.messageId == id {
      assert e in entries;
    }
  }

  // ---------------------------------------------------------------- the triggers

  function AfterInsert(entries: seq<Entry>, id: string, row: Row): seq<Entry> {
    entries + [EntryOf(id, row)]
  }

  function AfterDelete(entries: seq<Entry>, id: string): seq<Entry> {
    Without(entries, id)
  }

  function AfterUpdate(entries: seq<Entry>, oldId: string, newId: string, row: Row): seq<Entry> {
    Without(entries, oldId) + [EntryOf(newId, row)]
  }

  /** A statement on one row of the table. The primary key makes an insert of a key that is
      there, or an update to one that another row has, fail. */
  datatype Change =
    | Insert(id: string, row: Row)
    | Update(oldId: string, newId: string, row: Row)
    | Delete(id: string)

  predicate Fails(table: Table, c: Change) {
    match c
    case Insert(id, _) => id in table
    case Update(oldId, newId, _) => oldId in table && newId != oldId && newId in table
    case Delete(_) => false
  }

  predicate Touches(table: Table, c: Change) {
    !Fails(table, c) && match c
                        case Insert(_, _) => true
                        case Update(oldId, _, _) => oldId in table
                        case Delete(id) => id in table
  }

  function TableAfter(table: Table, c: Change): Table {
    if !Touches(table, c) then table
    else match c
         case Insert(id, row) => table[id := row]
         case Update(oldId, newId, row) => (table - {oldId})[newId := row]
         case Delete(id) => table - {id}
  }

  function EntriesAfter(table: Table, entries: seq<Entry>, c: Change): seq<Entry> {
    if !Touches(table, c) then entries
    else match c
         case Insert(id, row) => AfterInsert(entries, id, row)
         case Update(oldId, newId, row) => AfterUpdate(entries, oldId, newId, row)
         case Delete(id) => AfterDelete(entries, id)
  }

  lemma UpdateKeepsAgreement(table: Table, entries: seq<Entry>, oldId: string, newId: string, row: Row)
    requires Agrees(table, entries) && oldId in table && (newId == oldId || newId !in table)
    ensures Agrees((table - {oldId})[newId := row], AfterUpdate(entries, oldId, newId, row))
  {
    WithoutCounts(entries, oldId);
  }

  lemma TriggersKeepAgreement(table: Table, entries: seq<Entry>, c: Change)
    requires Agrees(table, entries)
    ensures Agrees(TableAfter(table, c), EntriesAfter(table, entries, c))
  {
    match c
    case Insert(id, row) =>
    case Update(oldId, newId, row) =>
      if Touches(table, c) {
        hide Agrees;
        UpdateKeepsAgreement(table, entries, oldId, newId, row);
      }
    case Delete(id) => WithoutCounts(entries, id);
  }

  // ---------------------------------------------------------------- the backfill

  /** One entry more for each message that had none. */
  ghost predicate Backfilled(table: Table, entries: seq<Entry>, entries': seq<Entry>) {
    forall e :: multiset(entries')[e] == multiset(entries)[e] + (if Indexed(entries, e.messageId) then 0 else Due(table, e))
  }

  /** The index is right after the backfill exactly when it contained nothing wrong before:
      no entry of a message that is gone, none that differs from its message, none twice. */
  lemma BackfillAgreesExactlyWhen(table: Table, entries: seq<Entry>, entries': seq<Entry>)
    requires Backfilled(table, entries, entries')
    ensures Agrees(table, entries') <==> forall e :: multiset(entries)[e] <= Due(table, e)
  {
    if forall e :: multiset(entries)[e] <= Due(table, e) {
      forall e
        ensures multiset(entries')[e] == Due(table, e)
      {
        IndexedCounts(entries, e.messageId);
        if Indexed(entries, e.messageId) {
          var f :| f in multiset(entries) && f.messageId == e.messageId;
          assert multiset(entries)[f] <= Due(table, f);
          assert f == EntryOf(e.messageId, table[e.messageId]);
        }
      }
    } else {
      var e :| multiset(entries)[e] > Due(table, e);
      assert multiset(entries')[e] > Due(table, e);
    }
  }

  /** Over an empty index the backfill makes it agree; over one that agrees it adds nothing. */
  lemma BackfillFromEmptyAndAgain(table: Table, entries: seq<Entry>, entries': seq<Entry>)
    requires Backfilled(table, entries, entries') && (entries == [] || Agrees(table, entries))
    ensures Agrees(table, entries')
    ensures Agrees(table, entries) ==> multiset(entries') == multiset(entries)
  {
    BackfillAgreesExactlyWhen(table, entries, entries');
    if Agrees(table, entries) {
      forall e
        ensures multiset(entries')[e] == multiset(entries)[e]
      {
      }
    }
  }

  /** The database with its index; the migration may run at any start of the program. */
  class Transcripts {
    var table: Table
    var entries: seq<Entry>

    constructor (table: Table, entries: seq<Entry>)
      ensures this.table == table && this.entries == entries
    {
      this.table, this.entries := table, entries;
    }

    /** `_migrate_chat_messages_fts`: an entry for every message without one. */
    method Migrate()
      modifies this`entries
      ensures Backfilled(table, old(entries), entries)
    {
      var missing := set id | id in table && !Indexed(entries, id);
      var left := missing;
      while left != {}
        invariant left <= missing
        invariant forall e :: multiset(entries)[e] ==
                    multiset(old(entries))[e] + (if e.messageId in missing - left then Due(table, e) else 0)
        decreases left
      {
        var id :| id in left;
        entries := entries + [EntryOf(id, table[id])];
        left := left - {id};
      }
    }

    method Execute(c: Change)
      requires Agrees(table, entries)
      modifies this
      ensures Agrees(table, entries)
      ensures table == TableAfter(old(table), c)
    {
      TriggersKeepAgreement(table, entries, c);
      if !Touches(table, c) {
        return;
      }
      match c
      case Insert(id, row) =>
        table := table[id := row];
        entries := entries + [EntryOf(id, row)];
      case Update(oldId, newId, row) =>
        table := (table - {oldId})[newId := row];
        entries := Without(entries, oldId);
        entries := entries + [EntryOf(newId, row)];
      case Delete(id) =>
        table := table - {id};
        entries := Without(entries, id);
    }
  }

  function TableAfterAll(table: Table, changes: seq<Change>): Table
    decreases |changes|
  {
    if changes == [] then table else TableAfterAll(TableAfter(table, changes[0]), changes[1..])
  }

  function EntriesAfterAll(table: Table, entries: seq<Entry>, changes: seq<Change>): seq<Entry>
    decreases |changes|
  {
    if changes == [] then entries
    else EntriesAfterAll(TableAfter(table, changes[0]), EntriesAfter(table, entries, changes[0]), changes[1..])
  }

  /** Migrated once over an empty index, the index agrees with the table after any run of
      inserts, updates, changes of key included, and deletions. */
  lemma {:induction false} RunKeepsAgreement(table: Table, entries: seq<Entry>, changes: seq<Change>)
    requires Backfilled(table, [], entries) || Agrees(table, entries)
    ensures Agrees(TableAfterAll(table, changes), EntriesAfterAll(table, entries, changes))
    decreases |changes|
  {
    if !Agrees(table, entries) {
      BackfillFromEmptyAndAgain(table, [], entries);
    }
    if changes != [] {
      TriggersKeepAgreement(table, entries, changes[0]);
      RunKeepsAgreement(TableAfter(table, changes[0]), EntriesAfter(table, entries, changes[0]), changes[1..]);
    }
  }
}
