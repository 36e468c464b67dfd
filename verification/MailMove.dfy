/** Moving mail between two folders over IMAP: MOVE, and where the server refuses it, COPY,
    flag and EXPUNGE, each of which may be refused or cut off half-way. */
module MailMove {
  import opened Common

  datatype Mail = Mail(body: string, deleted: bool)

  /** The source folder by UID, and how many copies of each of its messages have arrived in
      the destination, which is another folder. */
  datatype Boxes = Boxes(source: map<nat, Mail>, copies: multiset<nat>)

  /** `Cut` is a connection that breaks before the answer: the call raises. */
  datatype Reply = OK | NO | Cut

  /** One way for the server to behave: how it answers each command and, where it does not
      answer OK, how far it got. `duplicated` are messages that a failed MOVE copied and did
      not remove (RFC 6851, section 3.3 leaves that open). */
  datatype Server = Server(
    fetch: Reply, listed: set<nat>,
    move: Reply, moved: set<nat>, duplicated: set<nat>,
    copy: Reply, copied: set<nat>,
    store: Reply, flagged: set<nat>,
    expunge: Reply, expunged: set<nat>)

  datatype Outcome = Moved | NotMoved | Raised

  function Present(b: Boxes, uids: set<nat>): set<nat> {
    uids * b.source.Keys
  }

  function AfterMove(b: Boxes, uids: set<nat>, server: Server): Boxes {
    var present := Present(b, uids);
    if server.move == OK then Boxes(b.source - present, b.copies + multiset(present))
    else
      var gone := server.moved * present;
      Boxes(b.source - gone, b.copies + multiset(gone + server.duplicated * present))
  }

  /** A refused COPY leaves the destination as it was (RFC 3501, section 6.4.7). */
  function AfterCopy(b: Boxes, uids: set<nat>, server: Server): Boxes {
    match server.copy
    case OK => b.(copies := b.copies + multiset(Present(b, uids)))
    case NO => b
    case Cut => b.(copies := b.copies + multiset(server.copied * Present(b, uids)))
  }

  function Flag(source: map<nat, Mail>, uids: set<nat>): map<nat, Mail> {
    map u | u in source :: if u in uids then source[u].(deleted := true) else source[u]
  }

  function AfterStore(b: Boxes, uids: set<nat>, server: Server): Boxes {
    b.(source := Flag(b.source, if server.store == OK then uids else uids * server.flagged))
  }

  function Deleted(b: Boxes): set<nat> {
    set u | u in b.source && b.source[u].deleted
  }

  /** EXPUNGE removes every message flagged \Deleted, whoever flagged it. */
  function AfterExpunge(b: Boxes, server: Server): Boxes {
    b.(source := b.source - (if server.expunge == OK then Deleted(b) else Deleted(b) * server.expunged))
  }

  // ---------------------------------------------------------------- what must never happen

  /** Seen from the start: every selected message is still in the source or has arrived;
      messages not selected and not flagged are untouched; nothing else changes but flags. */
  ghost predicate Safe(start: Boxes, b: Boxes, uids: set<nat>) {
    && b.source.Keys <= start.source.Keys
    && (forall u :: u in b.source ==> b.source[u].body == start.source[u].body)
    && (forall u :: u in Present(start, uids) ==>
          b.copies[u] >= start.copies[u] && (u in b.source || b.copies[u] > start.copies[u]))
    && (forall u :: u in start.source && u !in uids && !start.source[u].deleted ==>
          u in b.source && b.source[u] == start.source[u])
    && (forall u :: u !in uids && u in b.source ==> b.source[u] == start.source[u])
    && (forall u :: u !in Present(start, uids) ==> b.copies[u] == start.copies[u])
  }

  /** The expunge at the end of the fallback is reached. */
  predicate Falls(server: Server) {
    server.move == NO && server.copy == OK && server.store == OK
  }

  /** Everything that may be expunged is safe to expunge. */
  ghost predicate Copied(start: Boxes, b: Boxes, uids: set<nat>) {
    forall u :: u in Present(start, uids) ==> b.copies[u] > start.copies[u]
  }

  lemma MoveIsSafe(b: Boxes, uids: set<nat>, server: Server)
    ensures Safe(b, AfterMove(b, uids, server), uids)
    ensures server.move == OK ==> Copied(b, AfterMove(b, uids, server), uids)
    ensures server.move == OK ==> Present(AfterMove(b, uids, server), uids) == {}
  {
  }

  lemma CopyIsSafe(start: Boxes, b: Boxes, uids: set<nat>, server: Server)
    requires Safe(start, b, uids)
    ensures Safe(start, AfterCopy(b, uids, server), uids)
    ensures server.copy == OK ==> Copied(start, AfterCopy(b, uids, server), uids)
  {
  }

  lemma StoreIsSafe(start: Boxes, b: Boxes, uids: set<nat>, server: Server)
    requires Safe(start, b, uids) && Copied(start, b, uids)
    ensures Safe(start, AfterStore(b, uids, server), uids) && Copied(start, AfterStore(b, uids, server), uids)
    ensures server.store == OK ==> Present(AfterStore(b, uids, server), uids) <= Deleted(AfterStore(b, uids, server))
  {
  }

  lemma ExpungeIsSafe(start: Boxes, b: Boxes, uids: set<nat>, server: Server)
    requires Safe(start, b, uids) && Copied(start, b, uids)
    ensures Safe(start, AfterExpunge(b, server), uids) && Copied(start, AfterExpunge(b, server), uids)
  {
  }

  // ---------------------------------------------------------------- MOVE with its fallback

  /** The folders after each command of the fallback. */
  function FallbackInstants(b: Boxes, uids: set<nat>, server: Server): seq<Boxes> {
    var copied := AfterCopy(b, uids, server);
    var stored := AfterStore(copied, uids, server);
    if server.copy != OK then [copied]
    else if server.store != OK then [copied, stored]
    else [copied, stored, AfterExpunge(stored, server)]
  }

  /** The folders after each command that is issued. */
  function Instants(b: Boxes, uids: set<nat>, server: Server): seq<Boxes> {
    var moved := AfterMove(b, uids, server);
    if server.move != NO then [moved] else [moved] + FallbackInstants(moved, uids, server)
  }

  function Transferred(b: Boxes, uids: set<nat>, server: Server): Boxes {
    var instants := Instants(b, uids, server);
    instants[|instants| - 1]
  }

  function Verdict(server: Server): Outcome {
    if server.move == OK || (Falls(server) && server.expunge != Cut) then Moved
    else if server.move == Cut || server.copy == Cut || (server.copy == OK && server.store != NO) then Raised
    else NotMoved
  }

  lemma FallbackIsSafe(start: Boxes, b: Boxes, uids: set<nat>, server: Server)
    requires Safe(start, b, uids)
    ensures forall k :: 0 <= k < |FallbackInstants(b, uids, server)| ==>
              Safe(start, FallbackInstants(b, uids, server)[k], uids)
  {
    hide Safe, AfterCopy, AfterStore, AfterExpunge;
    CopyIsSafe(start, b, uids, server);
    if server.copy == OK {
      var copied := AfterCopy(b, uids, server);
      StoreIsSafe(start, copied, uids, server);
      if server.store == OK {
        ExpungeIsSafe(start, AfterStore(copied, uids, server), uids, server);
      }
    }
  }

  lemma FallbackArrives(start: Boxes, b: Boxes, uids: set<nat>, server: Server)
    requires Safe(start, b, uids) && server.copy == OK && server.store == OK
    ensures var end := AfterExpunge(AfterStore(AfterCopy(b, uids, server), uids, server), server);
            Copied(start, end, uids) && Present(end, uids) <= Deleted(end)
  {
    CopyIsSafe(start, b, uids, server);
    var copied := AfterCopy(b, uids, server);
    StoreIsSafe(start, copied, uids, server);
    ExpungeIsSafe(start, AfterStore(copied, uids, server), uids, server);
  }

  /** Whatever the server does, nothing is lost after any command. */
  lemma NothingIsLost(b: Boxes, uids: set<nat>, server: Server, k: nat)
    requires k < |Instants(b, uids, server)|
    ensures Safe(b, Instants(b, uids, server)[k], uids)
  {
    MoveIsSafe(b, uids, server);
    if k > 0 {
      FallbackIsSafe(b, AfterMove(b, uids, server), uids, server);
    }
  }

  /** Success means arrived, and gone or flagged at home. */
  lemma MovedMeansArrived(b: Boxes, uids: set<nat>, server: Server)
    requires Verdict(server) == Moved
    ensures Copied(b, Transferred(b, uids, server), uids)
    ensures Present(Transferred(b, uids, server), uids) <= Deleted(Transferred(b, uids, server))
  {
    MoveIsSafe(b, uids, server);
    if server.move != OK {
      FallbackArrives(b, AfterMove(b, uids, server), uids, server);
    }
  }

  /** How often a moved message arrives: once, and twice exactly when the failed MOVE had
      already copied it without removing it. */
  lemma MovedArrivesOnceUnless(b: Boxes, uids: set<nat>, server: Server, u: nat)
    requires Verdict(server) == Moved && u in Present(b, uids)
    ensures Transferred(b, uids, server).copies[u] == b.copies[u]
            + (if server.move == NO && u in server.duplicated && u !in server.moved then 2 else 1)
  {
    var moved := AfterMove(b, uids, server);
    if server.move != OK {
      var copied := AfterCopy(moved, uids, server);
      assert Transferred(b, uids, server) == AfterExpunge(AfterStore(copied, uids, server), server);
    }
  }

  /** The one way for a message that was not selected to disappear: somebody had flagged it
      \Deleted before, and the fallback got as far as a working EXPUNGE. */
  lemma OthersDisappearExactlyWhen(b: Boxes, uids: set<nat>, server: Server, u: nat)
    requires u in b.source && u !in uids
    ensures u !in Transferred(b, uids, server).source
            <==> b.source[u].deleted && Falls(server) && (server.expunge == OK || u in server.expunged)
  {
    var moved := AfterMove(b, uids, server);
    var copied := AfterCopy(moved, uids, server);
    var stored := AfterStore(copied, uids, server);
    assert u in stored.source && stored.source[u] == b.source[u];
    if Falls(server) {
      assert Transferred(b, uids, server) == AfterExpunge(stored, server);
    }
  }

  /** The UIDs that a FETCH lists: those present if it succeeds, some of them if it does not,
      and none at all if it raises. */
  function Listed(b: Boxes, uids: set<nat>, server: Server): set<nat> {
    match server.fetch
    case OK => Present(b, uids)
    case NO => Present(b, uids) * server.listed
    case Cut => {}
  }

  /** What a bulk move returns: a number of messages, or None for an exception. */
  function Reported(b: Boxes, uids: set<nat>, server: Server): Option<nat> {
    if Listed(b, uids, server) == {} then Some(0)
    else match Verdict(server)
         case Moved => Some(|Listed(b, uids, server)|)
         case NotMoved => Some(0)
         case Raised => None
  }

  /** The folders after a bulk move; without a listed message no command is issued. */
  function BulkMoved(b: Boxes, uids: set<nat>, server: Server): Boxes {
    if Listed(b, uids, server) == {} then b else Transferred(b, uids, server)
  }

  /** The selected messages of which a copy has arrived. */
  function Arrived(start: Boxes, b: Boxes, uids: set<nat>): set<nat> {
    set u | u in Present(start, uids) && b.copies[u] > start.copies[u]
  }

  /** Those of them that are also gone from the source, or flagged there. */
  function Completed(start: Boxes, b: Boxes, uids: set<nat>): set<nat> {
    Arrived(start, b, uids) - (b.source.Keys - Deleted(b))
  }

  lemma PartOf<T>(part: set<T>, whole: set<T>)
    requires part <= whole
    ensures |part| <= |whole| && (|part| == |whole| <==> part == whole)
  {
    assert |whole - part| == |whole| - |part|;
    if |part| == |whole| {
      assert whole - part == {};
    }
  }

  /** How far a move has got whose COPY was refused: as far as the failed MOVE. */
  lemma StoppedAtCopy(b: Boxes, uids: set<nat>, server: Server)
    requires server.move == NO && server.copy == NO
    ensures var end, present := Transferred(b, uids, server), Present(b, uids);
            && Arrived(b, end, uids) == (server.moved + server.duplicated) * present
            && Completed(b, end, uids) == server.moved * present + server.duplicated * present * Deleted(b)
  {
    assert Transferred(b, uids, server) == AfterMove(b, uids, server);
    MoveRefused(b, uids, server);
  }

  lemma MoveRefused(b: Boxes, uids: set<nat>, server: Server)
    requires server.move == NO
    ensures var end, present := AfterMove(b, uids, server), Present(b, uids);
            && Arrived(b, end, uids) == (server.moved + server.duplicated) * present
            && Completed(b, end, uids) == server.moved * present + server.duplicated * present * Deleted(b)
  {
  }

  /** And one whose STORE was refused: everything has a copy, and some may be flagged. */
  lemma StoppedAtStore(b: Boxes, uids: set<nat>, server: Server)
    requires server.move == NO && server.copy == OK && server.store == NO
    ensures var end, present := Transferred(b, uids, server), Present(b, uids);
            && Arrived(b, end, uids) == present
            && Completed(b, end, uids) == (server.moved + Deleted(b) + server.flagged) * present
  {
    var copied := AfterCopy(AfterMove(b, uids, server), uids, server);
    assert Transferred(b, uids, server) == AfterStore(copied, uids, server);
    CopiedAfterMove(b, uids, server);
    FlaggedAfterCopy(b, copied, uids, server);
  }

  lemma CopiedAfterMove(b: Boxes, uids: set<nat>, server: Server)
    requires server.move == NO && server.copy == OK
    ensures var copied := AfterCopy(AfterMove(b, uids, server), uids, server);
            && copied.source == b.source - server.moved * Present(b, uids)
            && Arrived(b, copied, uids) == Present(b, uids)
  {
  }

  lemma FlaggedAfterCopy(b: Boxes, copied: Boxes, uids: set<nat>, server: Server)
    requires copied.source == b.source - server.moved * Present(b, uids) && server.store == NO
    requires Arrived(b, copied, uids) == Present(b, uids)
    ensures Arrived(b, AfterStore(copied, uids, server), uids) == Present(b, uids)
    ensures Completed(b, AfterStore(copied, uids, server), uids) == (server.moved + Deleted(b) + server.flagged) * Present(b, uids)
  {
    assert AfterStore(copied, uids, server).copies == copied.copies;
  }

  lemma MovedCompletely(b: Boxes, uids: set<nat>, server: Server)
    requires Verdict(server) == Moved
    ensures Arrived(b, Transferred(b, uids, server), uids) == Present(b, uids)
    ensures Completed(b, Transferred(b, uids, server), uids) == Present(b, uids)
  {
    MovedMeansArrived(b, uids, server);
    NothingIsLost(b, uids, server, |Instants(b, uids, server)| - 1);
    var end := Transferred(b, uids, server);
    forall u | u in Present(b, uids) && u in end.source
      ensures u in Deleted(end)
    {
      assert u in Present(end, uids);
    }
  }

  /** The number that a bulk move reports is at most the number of messages that arrived, and
      equal exactly when nothing was listed, or all went well and everything there was listed, or
      MOVE and COPY were both refused and MOVE had not got anywhere. */
  lemma ReportsArrivalsExactlyWhen(b: Boxes, uids: set<nat>, server: Server)
    requires Reported(b, uids, server).Some?
    ensures Reported(b, uids, server).value <= |Arrived(b, BulkMoved(b, uids, server), uids)|
    ensures Reported(b, uids, server).value == |Arrived(b, BulkMoved(b, uids, server), uids)|
            <==> || Listed(b, uids, server) == {}
                 || (Verdict(server) == Moved && Listed(b, uids, server) == Present(b, uids))
                 || (server.move == NO && server.copy == NO && (server.moved + server.duplicated) * Present(b, uids) == {})
  {
    hide AfterMove, AfterCopy, AfterStore, AfterExpunge, Transferred;
    if Listed(b, uids, server) == {} {
      assert Arrived(b, b, uids) == {};
    } else if Verdict(server) == Moved {
      MovedCompletely(b, uids, server);
      PartOf(Listed(b, uids, server), Present(b, uids));
    } else if server.copy == NO {
      StoppedAtCopy(b, uids, server);
    } else {
      StoppedAtStore(b, uids, server);
    }
  }

  lemma NothingCompleted(b: Boxes, uids: set<nat>)
    ensures Completed(b, b, uids) == {}
  {
  }

  /** And it is the number of messages that were moved, so that they arrived and are gone or
      flagged at home, exactly when nothing was listed, or all went well and everything was
      listed, or the command that stopped it, and those before, had completed nothing. */
  lemma ReportsMovesExactlyWhen(b: Boxes, uids: set<nat>, server: Server)
    requires Reported(b, uids, server).Some?
    ensures Reported(b, uids, server).value <= |Completed(b, BulkMoved(b, uids, server), uids)|
    ensures Reported(b, uids, server).value == |Completed(b, BulkMoved(b, uids, server), uids)|
            <==> || Listed(b, uids, server) == {}
                 || (Verdict(server) == Moved && Listed(b, uids, server) == Present(b, uids))
                 || (server.move == NO && server.copy == NO
                     && server.moved * Present(b, uids) + server.duplicated * Present(b, uids) * Deleted(b) == {})
                 || (server.move == NO && server.copy == OK && server.store == NO
                     && (server.moved + Deleted(b) + server.flagged) * Present(b, uids) == {})
  {
    hide AfterMove, AfterCopy, AfterStore, AfterExpunge, Transferred, Completed, Deleted;
    if Listed(b, uids, server) == {} {
      NothingCompleted(b, uids);
    } else if Verdict(server) == Moved {
      MovedCompletely(b, uids, server);
      PartOf(Listed(b, uids, server), Present(b, uids));
    } else if server.copy == NO {
      StoppedAtCopy(b, uids, server);
    } else {
      StoppedAtStore(b, uids, server);
    }
  }

  // ---------------------------------------------------------------- the session

  class Connection {
    var boxes: Boxes
    ghost var trace: seq<Boxes>

    constructor (b: Boxes)
      ensures boxes == b && trace == [b]
    {
      boxes, trace := b, [b];
    }

    method Move(uids: set<nat>, server: Server) returns (status: Reply)
      modifies this
      ensures status == server.move && boxes == AfterMove(old(boxes), uids, server)
      ensures trace == old(trace) + [boxes]
    {
      boxes, status := AfterMove(boxes, uids, server), server.move;
      trace := trace + [boxes];
    }

    method Copy(uids: set<nat>, server: Server) returns (status: Reply)
      modifies this
      ensures status == server.copy && boxes == AfterCopy(old(boxes), uids, server)
      ensures trace == old(trace) + [boxes]
    {
      boxes, status := AfterCopy(boxes, uids, server), server.copy;
      trace := trace + [boxes];
    }

    method Store(uids: set<nat>, server: Server) returns (status: Reply)
      modifies this
      ensures status == server.store && boxes == AfterStore(old(boxes), uids, server)
      ensures trace == old(trace) + [boxes]
    {
      boxes, status := AfterStore(boxes, uids, server), server.store;
      trace := trace + [boxes];
    }

    method Expunge(server: Server) returns (status: Reply)
      modifies this
      ensures status == server.expunge && boxes == AfterExpunge(old(boxes), server)
      ensures trace == old(trace) + [boxes]
    {
      boxes, status := AfterExpunge(boxes, server), server.expunge;
      trace := trace + [boxes];
    }

    /** MOVE with its fallback, as both callers do it. */
    method Transfer(uids: set<nat>, server: Server) returns (outcome: Outcome)
      modifies this
      ensures trace == old(trace) + Instants(old(boxes), uids, server)
      ensures boxes == Transferred(old(boxes), uids, server) && outcome == Verdict(server)
    {
      hide AfterMove, AfterCopy, AfterStore, AfterExpunge;
      var status := Move(uids, server);
      if status == OK {
        return Moved;
      }
      if status == Cut {
        return Raised;
      }
      outcome := FallBack(uids, server);
    }

    method FallBack(uids: set<nat>, server: Server) returns (outcome: Outcome)
      requires server.move == NO
      modifies this
      ensures trace == old(trace) + FallbackInstants(old(boxes), uids, server)
      ensures boxes == trace[|trace| - 1] && outcome == Verdict(server)
    {
      hide AfterMove, AfterCopy, AfterStore, AfterExpunge;
      ghost var start := trace;
      var status := Copy(uids, server);
      if status != OK {
        return if status == NO then NotMoved else Raised;
      }
      ghost var copied := boxes;
      status := Store(uids, server);
      assert trace == start + [copied, boxes];
      if status != OK {
        return if status == NO then NotMoved else Raised;
      }
      ghost var stored := boxes;
      status := Expunge(server);
      assert trace == start + [copied, stored, boxes];
      outcome := if status == Cut then Raised else Moved;
    }

    /** `_move_message`: true, false, or an exception. */
    method MoveMessage(uid: nat, server: Server) returns (outcome: Outcome)
      modifies this
      ensures var found := server.fetch == OK && uid in old(boxes).source;
              && outcome == (if found then Verdict(server) else NotMoved)
              && trace == old(trace) + (if found then Instants(old(boxes), {uid}, server) else [])
              && boxes == (if found then Transferred(old(boxes), {uid}, server) else old(boxes))
    {
      if server.fetch == Cut {
        return NotMoved;
      }
      var existing := Listed(boxes, {uid}, server);
      if server.fetch != OK || existing == {} {
        assert uid !in Present(boxes, {uid}) || server.fetch != OK;
        return NotMoved;
      }
      assert uid in existing;
      outcome := Transfer({uid}, server);
    }

    /** `_bulk_move`: the number of messages reported as moved, or None for an exception. The
        status of the FETCH is not looked at, only what it listed. */
    method BulkMove(uids: set<nat>, server: Server) returns (reported: Option<nat>)
      modifies this
      ensures reported == Reported(old(boxes), uids, server) && boxes == BulkMoved(old(boxes), uids, server)
      ensures trace == old(trace) + (if Listed(old(boxes), uids, server) == {} then [] else Instants(old(boxes), uids, server))
    {
      if uids == {} {
        return Some(0);
      }
      if server.fetch == Cut {
        return Some(0);
      }
      var existing := Listed(boxes, uids, server);
      if existing == {} {
        return Some(0);
      }
      var outcome := Transfer(uids, server);
      match outcome
      case Moved => reported := Some(|existing|);
      case NotMoved => reported := Some(0);
      case Raised => reported := None;
    }
  }
}
