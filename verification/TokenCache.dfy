/** API tokens: an in-memory map from token prefix to candidate rows that must let in whoever a
    scan of all token rows would, and the flag that says when to rebuild it. */
module TokenCache {
  import opened Common

  datatype Row = Row(id: string, prefix: string, hash: string, owner: string, active: bool)

  datatype Entry = Entry(id: string, hash: string, owner: string)

  /** `hash` is the password hash with its salt, `check` its verification; `known` turns a
      stored owner into the name of an existing user. */
  datatype World = World(
    hash: (string, nat) -> string, check: (string, string) -> bool, known: string -> Option<string>)

  /** A hash accepts the text it was made from and no other. */
  ghost predicate Sound(w: World) {
    forall raw: string, made: string, salt: nat :: w.check(raw, w.hash(made, salt)) <==> raw == made
  }

  function Prefix(raw: string): string {
    if |raw| <= 8 then raw else raw[..8]
  }

  /** The length check in front of the lookup. */
  predicate Plausible(raw: string) {
    12 <= |raw| <= 100
  }

  function Minted(w: World, id: string, raw: string, salt: nat, owner: string): Row {
    Row(id, Prefix(raw), w.hash(raw, salt), owner, true)
  }

  // ---------------------------------------------------------------- the simple thing

  predicate Eligible(w: World, row: Row) {
    row.active && w.known(row.owner).Some?
  }

  function EntryOf(w: World, row: Row): Entry {
    Entry(row.id, row.hash, w.known(row.owner).GetOr(""))
  }

  /** Go through all active rows with a known owner. */
  function Scan(w: World, rows: seq<Row>, raw: string): Option<Entry> {
    if rows == [] then None
    else
      var before := Scan(w, rows[..|rows| - 1], raw);
      var last := rows[|rows| - 1];
      if before.Some? then before
      else if Eligible(w, last) && w.check(raw, last.hash) then Some(EntryOf(w, last))
      else None
  }

  // ---------------------------------------------------------------- the fast thing

  type Cache = map<string, seq<Entry>>

  function Candidates(cache: Cache, prefix: string): seq<Entry> {
    if prefix in cache then cache[prefix] else []
  }

  function Filed(w: World, cache: Cache, row: Row): Cache {
    if Eligible(w, row) then cache[row.prefix := Candidates(cache, row.prefix) + [EntryOf(w, row)]] else cache
  }

  function Build(w: World, rows: seq<Row>): Cache {
    if rows == [] then map[] else Filed(w, Build(w, rows[..|rows| - 1]), rows[|rows| - 1])
  }

  function FirstAccepting(w: World, entries: seq<Entry>, raw: string): Option<Entry> {
    if entries == [] then None
    else
      var before := FirstAccepting(w, entries[..|entries| - 1], raw);
      if before.Some? then before
      else if w.check(raw, entries[|entries| - 1].hash) then Some(entries[|entries| - 1])
      else None
  }

  function Lookup(w: World, cache: Cache, raw: string): Option<Entry> {
    FirstAccepting(w, Candidates(cache, Prefix(raw)), raw)
  }

  /** The row accepts no token with another prefix. */
  ghost predicate Filable(w: World, row: Row) {
    forall raw: string :: w.check(raw, row.hash) ==> Prefix(raw) == row.prefix
  }

  lemma MintedIsFilable(w: World, id: string, raw: string, salt: nat, owner: string)
    requires Sound(w)
    ensures Filable(w, Minted(w, id, raw, salt, owner))
  {
  }

  lemma AcceptingAppend(w: World, entries: seq<Entry>, e: Entry, raw: string)
    ensures FirstAccepting(w, entries + [e], raw)
            == if FirstAccepting(w, entries, raw).Some? then FirstAccepting(w, entries, raw)
               else if w.check(raw, e.hash) then Some(e) else None
  {
    assert (entries + [e])[..|entries|] == entries;
  }

  /** Looking among the candidates of the prefix gives what scanning every row gives: the same
      row, and the same owner. */
  lemma {:induction false} LookupIsScan(w: World, rows: seq<Row>, raw: string)
    requires forall i :: 0 <= i < |rows| ==> Filable(w, rows[i])
    ensures Lookup(w, Build(w, rows), raw) == Scan(w, rows, raw)
    decreases |rows|
  {
    if rows != [] {
      var init, last := rows[..|rows| - 1], rows[|rows| - 1];
      LookupIsScan(w, init, raw);
      AcceptingAppend(w, Candidates(Build(w, init), last.prefix), EntryOf(w, last), raw);
      assert w.check(raw, last.hash) ==> Prefix(raw) == last.prefix;
    }
  }

  // ---------------------------------------------------------------- the program

  class TokenGate {
    const world: World
    var rows: seq<Row>
    var cache: Cache
    var dirty: bool

    ghost predicate Valid()
      reads this
    {
      && Sound(world)
      && (forall i :: 0 <= i < |rows| ==> Filable(world, rows[i]))
      && (!dirty ==> cache == Build(world, rows))
    }

    constructor (world: World)
      requires Sound(world)
      ensures Valid() && rows == [] && this.world == world
    {
      this.world, rows, cache, dirty := world, [], map[], true;
    }

    /** Insert the row, then raise the flag: `mint_pairing_token`. */
    method MintPairingToken(id: string, raw: string, salt: nat, owner: string)
      requires Valid()
      modifies this
      ensures Valid() && rows == old(rows) + [Minted(world, id, raw, salt, owner)] && dirty
    {
      MintedIsFilable(world, id, raw, salt, owner);
      rows := rows + [Minted(world, id, raw, salt, owner)];
      dirty := true;
    }

    /** Take a row out of use, then raise the flag. The program deletes it, which a scan cannot tell
        from a row that is not active. */
    method Revoke(i: nat)
      requires Valid() && i < |rows|
      modifies this
      ensures Valid() && rows == old(rows)[i := old(rows)[i].(active := false)] && dirty
    {
      rows := rows[i := rows[i].(active := false)];
      dirty := true;
    }

    method RefreshTokenCache()
      requires Valid()
      modifies this
      ensures Valid() && !dirty && rows == old(rows)
    {
      var newMap: Cache := map[];
      for i := 0 to |rows|
        invariant newMap == Build(world, rows[..i])
      {
        assert rows[..i + 1][..i] == rows[..i];
        if rows[i].active && world.known(rows[i].owner).Some? {
          var entry := Entry(rows[i].id, rows[i].hash, world.known(rows[i].owner).value);
          newMap := newMap[rows[i].prefix := Candidates(newMap, rows[i].prefix) + [entry]];
        }
      }
      assert rows[..|rows|] == rows;
      cache := newMap;
      dirty := false;
    }

    /** A request with a bearer token gets the entry that a scan of the table would find. */
    method Authenticate(raw: string) returns (matched: Option<Entry>)
      requires Valid()
      modifies this
      ensures Valid() && rows == old(rows)
      ensures matched == if Plausible(raw) then Scan(world, rows, raw) else None
    {
      if |raw| < 12 || |raw| > 100 {
        return None;
      }
      if dirty {
        RefreshTokenCache();
      }
      var candidates := Candidates(cache, Prefix(raw));
      matched := None;
      var i := 0;
      while i < |candidates| && matched.None?
        invariant 0 <= i <= |candidates|
        invariant matched == FirstAccepting(world, candidates[..i], raw)
        decreases |candidates| - i
      {
        assert candidates[..i + 1][..i] == candidates[..i];
        if world.check(raw, candidates[i].hash) {
          matched := Some(candidates[i]);
        }
        i := i + 1;
      }
      FirstAcceptingOfPrefix(world, candidates, i, raw);
      LookupIsScan(world, rows, raw);
    }
  }

  lemma {:induction false} FirstAcceptingOfPrefix(w: World, entries: seq<Entry>, n: nat, raw: string)
    requires n <= |entries| && (n == |entries| || FirstAccepting(w, entries[..n], raw).Some?)
    ensures FirstAccepting(w, entries, raw) == FirstAccepting(w, entries[..n], raw)
    decreases |entries|
  {
    if n == |entries| {
      assert entries[..n] == entries;
    } else {
      assert entries[..|entries| - 1][..n] == entries[..n];
      FirstAcceptingOfPrefix(w, entries[..|entries| - 1], n, raw);
    }
  }

  // ---------------------------------------------------------------- steps one by one

  /** The gate between single steps. `read` is what a refresh under way has read; `untold` says
      that rows have changed and that the change has not been announced yet. */
  datatype Gate = Gate(rows: seq<Row>, cache: Cache, dirty: bool, read: Option<seq<Row>>, untold: bool)

  /** A refresh runs in a thread of its own: it reads the rows, and later swaps the cache and
      lowers the flag. `Refresh` is both with nothing in between. */
  datatype Step =
    | Refresh
    | StartRefresh
    | FinishRefresh
    | Mint(id: string, raw: string, salt: nat, owner: string)
    | Deactivate(index: nat)
    | Invalidate

  function After(w: World, g: Gate, step: Step): Gate {
    match step
    case Refresh => if g.dirty then g.(cache := Build(w, g.rows), dirty := false, untold := false) else g
    case StartRefresh => if g.dirty && g.read.None? then g.(read := Some(g.rows)) else g
    case FinishRefresh =>
      if g.read.None? then g else g.(cache := Build(w, g.read.value), dirty := false, read := None)
    case Mint(id, raw, salt, owner) => g.(rows := g.rows + [Minted(w, id, raw, salt, owner)], untold := true)
    case Deactivate(i) =>
      if i < |g.rows| then g.(rows := g.rows[i := g.rows[i].(active := false)], untold := true) else g
    case Invalidate => g.(dirty := true, untold := false)
  }

  function AfterAll(w: World, g: Gate, steps: seq<Step>): Gate
    decreases |steps|
  {
    if steps == [] then g else AfterAll(w, After(w, g, steps[0]), steps[1..])
  }

  /** The step changes what a scan can find. */
  predicate Tells(w: World, g: Gate, step: Step) {
    match step
    case Mint(_, _, _, owner) => w.known(owner).Some?
    case Deactivate(i) => i < |g.rows| && Eligible(w, g.rows[i])
    case _ => false
  }

  /** No such step falls between the two halves of a refresh. */
  predicate Quiet(w: World, g: Gate, steps: seq<Step>)
    decreases |steps|
  {
    steps != [] ==>
      (g.read.Some? ==> !Tells(w, g, steps[0])) && Quiet(w, After(w, g, steps[0]), steps[1..])
  }

  ghost predicate GateOk(w: World, g: Gate) {
    && (forall i :: 0 <= i < |g.rows| ==> Filable(w, g.rows[i]))
    && (g.read.Some? ==> Build(w, g.read.value) == Build(w, g.rows))
    && (!g.dirty && !g.untold ==> g.cache == Build(w, g.rows))
  }

  lemma BuildAppend(w: World, rows: seq<Row>, row: Row)
    ensures Build(w, rows + [row]) == Filed(w, Build(w, rows), row)
  {
    assert (rows + [row])[..|rows|] == rows;
  }

  /** An inactive row, or one of an unknown owner, leaves no trace in the cache. */
  lemma {:induction false} BuildIgnores(w: World, rows: seq<Row>, i: nat, row: Row)
    requires i < |rows| && !Eligible(w, rows[i]) && !Eligible(w, row)
    ensures Build(w, rows[i := row]) == Build(w, rows)
    decreases |rows|
  {
    var init, last := rows[..|rows| - 1], rows[|rows| - 1];
    if i == |init| {
      assert rows[i := row][..|init|] == init;
    } else {
      BuildIgnores(w, init, i, row);
      assert rows[i := row][..|init|] == init[i := row];
    }
  }

  lemma QuietMintKeepsGateOk(w: World, g: Gate, id: string, raw: string, salt: nat, owner: string)
    requires Sound(w) && GateOk(w, g) && (g.read.Some? ==> w.known(owner).None?)
    ensures GateOk(w, After(w, g, Mint(id, raw, salt, owner)))
  {
    hide Sound, Filable, Build;
    var row := Minted(w, id, raw, salt, owner);
    MintedIsFilable(w, id, raw, salt, owner);
    BuildAppend(w, g.rows, row);
    assert forall i :: 0 <= i < |g.rows + [row]| ==> (g.rows + [row])[i] == if i < |g.rows| then g.rows[i] else row;
  }

  lemma QuietDeactivationKeepsGateOk(w: World, g: Gate, i: nat)
    requires GateOk(w, g) && i < |g.rows| && (g.read.Some? ==> !Eligible(w, g.rows[i]))
    ensures GateOk(w, After(w, g, Deactivate(i)))
  {
    hide Build, Eligible;
    var row := g.rows[i].(active := false);
    assert Filable(w, row);
    if !Eligible(w, g.rows[i]) {
      InactiveIsIgnored(w, row);
      BuildIgnores(w, g.rows, i, row);
    }
  }

  lemma InactiveIsIgnored(w: World, row: Row)
    requires !row.active
    ensures !Eligible(w, row)
  {
  }

  lemma QuietStepKeepsGateOk(w: World, g: Gate, step: Step)
    requires Sound(w) && GateOk(w, g) && (g.read.Some? ==> !Tells(w, g, step))
    ensures GateOk(w, After(w, g, step))
  {
    hide Sound, Filable, Build;
    match step
    case Mint(id, raw, salt, owner) => QuietMintKeepsGateOk(w, g, id, raw, salt, owner);
    case Deactivate(i) =>
      if i < |g.rows| {
        QuietDeactivationKeepsGateOk(w, g, i);
      }
    case _ =>
  }

  lemma {:induction false} StepsKeepGateOk(w: World, g: Gate, steps: seq<Step>)
    requires Sound(w) && GateOk(w, g) && Quiet(w, g, steps)
    ensures GateOk(w, AfterAll(w, g, steps))
    decreases |steps|
  {
    if steps != [] {
      QuietStepKeepsGateOk(w, g, steps[0]);
      StepsKeepGateOk(w, After(w, g, steps[0]), steps[1..]);
    }
  }

  /** In every run of mints, revocations, announcements and refreshes, split into their halves
      as they come, in which no token of a known owner is minted or revoked between two halves:
      while the flag is clean and nothing is still to be announced, every token is answered as
      the scan of all rows would answer it. */
  lemma CleanFlagAnswersLikeScan(w: World, g: Gate, steps: seq<Step>, raw: string)
    requires Sound(w) && GateOk(w, g) && Quiet(w, g, steps)
    ensures var end := AfterAll(w, g, steps);
            !end.dirty && !end.untold ==> Lookup(w, end.cache, raw) == Scan(w, end.rows, raw)
  {
    StepsKeepGateOk(w, g, steps);
    LookupIsScan(w, AfterAll(w, g, steps).rows, raw);
  }

  // ---------------------------------------------------------------- a refresh that is interrupted

  /** What mints and revocations make of the rows: some are switched off, others added. */
  predicate GrownFrom(rows: seq<Row>, read: seq<Row>) {
    && |read| <= |rows|
    && forall i :: 0 <= i < |read| ==> rows[i] == read[i] || rows[i] == read[i].(active := false)
  }

  lemma {:induction false} StepsGrow(w: World, g: Gate, steps: seq<Step>)
    requires g.read.Some? && GrownFrom(g.rows, g.read.value)
    requires forall i :: 0 <= i < |steps| ==> !steps[i].Refresh? && !steps[i].FinishRefresh?
    ensures AfterAll(w, g, steps).read == g.read && GrownFrom(AfterAll(w, g, steps).rows, g.read.value)
    decreases |steps|
  {
    if steps != [] {
      assert After(w, g, steps[0]).read == g.read && GrownFrom(After(w, g, steps[0]).rows, g.read.value);
      StepsGrow(w, After(w, g, steps[0]), steps[1..]);
    }
  }

  /** Each row accepts its own token and no other; tokens are never minted twice. */
  ghost predicate OwnTokens(w: World, rows: seq<Row>, raws: seq<string>) {
    && |raws| == |rows|
    && (forall i :: 0 <= i < |rows| ==> rows[i].prefix == Prefix(raws[i]))
    && (forall i, raw: string :: 0 <= i < |rows| ==> (w.check(raw, rows[i].hash) <==> raw == raws[i]))
    && (forall i, j :: 0 <= i < j < |raws| ==> raws[i] != raws[j])
  }

  lemma {:induction false} ScanFindsOwnRow(w: World, rows: seq<Row>, raws: seq<string>, i: nat)
    requires OwnTokens(w, rows, raws) && i < |rows|
    ensures Scan(w, rows, raws[i]) == if Eligible(w, rows[i]) then Some(EntryOf(w, rows[i])) else None
    decreases |rows|
  {
    var n := |rows| - 1;
    if i < n {
      ScanFindsOwnRow(w, rows[..n], raws[..n], i);
    } else {
      ScanFindsNothing(w, rows[..n], raws[..n], raws[n]);
    }
  }

  lemma {:induction false} ScanFindsNothing(w: World, rows: seq<Row>, raws: seq<string>, raw: string)
    requires OwnTokens(w, rows, raws) && raw !in raws
    ensures Scan(w, rows, raw) == None
    decreases |rows|
  {
    if rows != [] {
      var n := |rows| - 1;
      ScanFindsNothing(w, rows[..n], raws[..n], raw);
      assert raws[n] in raws;
    }
  }

  /** Since the rows were read, no row of a known owner was switched off, and no active one was
      added. */
  predicate NothingTold(w: World, rows: seq<Row>, read: seq<Row>)
    requires |read| <= |rows|
  {
    && (forall i :: 0 <= i < |read| && Eligible(w, read[i]) ==> rows[i] == read[i])
    && (forall i :: |read| <= i < |rows| ==> !Eligible(w, rows[i]))
  }

  lemma OwnTokensOfRead(w: World, rows: seq<Row>, raws: seq<string>, read: seq<Row>)
    requires OwnTokens(w, rows, raws) && GrownFrom(rows, read)
    ensures OwnTokens(w, read, raws[..|read|])
  {
    forall i | 0 <= i < |read|
      ensures read[i].hash == rows[i].hash && read[i].prefix == rows[i].prefix
    {
    }
  }

  lemma NothingToldScansAlike(w: World, rows: seq<Row>, raws: seq<string>, read: seq<Row>, raw: string)
    requires OwnTokens(w, rows, raws) && GrownFrom(rows, read) && NothingTold(w, rows, read)
    ensures Scan(w, read, raw) == Scan(w, rows, raw)
  {
    OwnTokensOfRead(w, rows, raws, read);
    if raw in raws {
      var i :| 0 <= i < |raws| && raws[i] == raw;
      ScanFindsOwnRow(w, rows, raws, i);
      if i < |read| {
        ScanFindsOwnRow(w, read, raws[..|read|], i);
      } else {
        ScanFindsNothing(w, read, raws[..|read|], raw);
      }
    } else {
      ScanFindsNothing(w, rows, raws, raw);
      ScanFindsNothing(w, read, raws[..|read|], raw);
    }
  }

  /** When the refresh finishes the flag is clean, whatever was announced meanwhile; and every
      token is answered rightly exactly when, since the rows were read, no row of a known owner
      was switched off and no active one was added. */
  lemma FinishedRefreshIsRightExactlyWhen(w: World, g: Gate, raws: seq<string>)
    requires g.read.Some? && GrownFrom(g.rows, g.read.value) && OwnTokens(w, g.rows, raws)
    ensures var g' := After(w, g, FinishRefresh);
            && !g'.dirty
            && ((forall raw :: Lookup(w, g'.cache, raw) == Scan(w, g'.rows, raw)) <==> NothingTold(w, g.rows, g.read.value))
  {
    var read := g.read.value;
    OwnTokensOfRead(w, g.rows, raws, read);
    forall raw
      ensures Lookup(w, Build(w, read), raw) == Scan(w, read, raw)
    {
      LookupIsScan(w, read, raw);
    }
    if NothingTold(w, g.rows, read) {
      forall raw
        ensures Scan(w, read, raw) == Scan(w, g.rows, raw)
      {
        NothingToldScansAlike(w, g.rows, raws, read, raw);
      }
    } else {
      var i := SomethingTold(w, g.rows, raws, read);
      assert Scan(w, read, raws[i]) != Scan(w, g.rows, raws[i]);
    }
  }

  lemma SomethingTold(w: World, rows: seq<Row>, raws: seq<string>, read: seq<Row>) returns (i: nat)
    requires OwnTokens(w, rows, raws) && GrownFrom(rows, read) && !NothingTold(w, rows, read)
    ensures i < |raws| && Scan(w, read, raws[i]) != Scan(w, rows, raws[i])
  {
    OwnTokensOfRead(w, rows, raws, read);
    if k :| 0 <= k < |read| && Eligible(w, read[k]) && rows[k] != read[k] {
      i := k;
      ScanFindsOwnRow(w, rows, raws, i);
      ScanFindsOwnRow(w, read, raws[..|read|], i);
    } else {
      i :| |read| <= i < |rows| && Eligible(w, rows[i]);
      ScanFindsOwnRow(w, rows, raws, i);
      ScanFindsNothing(w, read, raws[..|read|], raws[i]);
    }
  }

  /** From the start of a refresh to its end, whatever is minted, revoked and announced in between:
      the flag is clean, and every token is answered rightly exactly when, since the rows were
      read, no row of a known owner was switched off and no active one was added. */
  lemma InterruptedRefreshIsRightExactlyWhen(w: World, g: Gate, steps: seq<Step>, raws: seq<string>)
    requires g.dirty && g.read.None?
    requires forall i :: 0 <= i < |steps| ==> !steps[i].Refresh? && !steps[i].FinishRefresh?
    requires OwnTokens(w, AfterAll(w, After(w, g, StartRefresh), steps).rows, raws)
    ensures var before := AfterAll(w, After(w, g, StartRefresh), steps);
            var end := After(w, before, FinishRefresh);
            && |g.rows| <= |before.rows| && !end.dirty
            && ((forall raw :: Lookup(w, end.cache, raw) == Scan(w, end.rows, raw)) <==> NothingTold(w, before.rows, g.rows))
  {
    StepsGrow(w, After(w, g, StartRefresh), steps);
    FinishedRefreshIsRightExactlyWhen(w, AfterAll(w, After(w, g, StartRefresh), steps), raws);
  }

  lemma ScanOfAppended(w: World, rows: seq<Row>, row: Row, raw: string)
    ensures Scan(w, rows + [row], raw)
            == if Scan(w, rows, raw).Some? then Scan(w, rows, raw)
               else if Eligible(w, row) && w.check(raw, row.hash) then Some(EntryOf(w, row)) else None
  {
    assert (rows + [row])[..|rows|] == rows;
  }

  /** So a token minted and announced while the rows were being read stays unknown behind a
      clean flag. */
  lemma AnnouncementCanGetLost(w: World, rows: seq<Row>, cache: Cache, id: string, raw: string, salt: nat, owner: string)
    requires Sound(w) && w.known(owner).Some? && Scan(w, rows, raw).None?
    requires forall i :: 0 <= i < |rows| ==> Filable(w, rows[i])
    ensures var read := After(w, Gate(rows, cache, true, None, false), StartRefresh);
            var told := After(w, After(w, read, Mint(id, raw, salt, owner)), Invalidate);
            var end := After(w, told, FinishRefresh);
            !end.dirty && Lookup(w, end.cache, raw).None? && Scan(w, end.rows, raw).Some?
  {
    LookupIsScan(w, rows, raw);
    ScanOfAppended(w, rows, Minted(w, id, raw, salt, owner), raw);
  }
}
