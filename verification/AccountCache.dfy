/** Which mail account a tool call acts on: the accounts an owner may see, the one a selector
    picks out of them, and a cache in front of both. The account table does not change. */
module AccountCache {
  import opened Common
  import opened PyText

  /** Missing text fields are empty. */
  datatype Account = Account(
    id: string, name: string, imapUser: string, fromAddress: string, owner: string, isDefault: bool)

  /** The configuration of an account, or the one without an account, from environment and
      settings; everything else in it follows from the row. */
  datatype Answer = Config(account: Option<Account>) | Refused

  /** The table, and the standard library's closest match of a text among candidates. */
  datatype World = World(rows: seq<Account>, close: (string, seq<string>) -> Option<string>)

  // ---------------------------------------------------------------- visibility

  function OwnerOf(row: Account): string {
    Strip(row.owner)
  }

  predicate VisibleTo(row: Account, owner: string) {
    if OwnerOf(row) == owner then true
    else if OwnerOf(row) != "" then false
    else Lower(owner) == Normalize(row.imapUser) || Lower(owner) == Normalize(row.fromAddress)
  }

  predicate AnyScoped(rows: seq<Account>) {
    exists i :: 0 <= i < |rows| && OwnerOf(rows[i]) != ""
  }

  function OnlyVisible(rows: seq<Account>, owner: string): seq<Account> {
    if rows == [] then []
    else (if VisibleTo(rows[0], owner) then [rows[0]] else []) + OnlyVisible(rows[1..], owner)
  }

  function ForOwner(rows: seq<Account>, owner: string): seq<Account> {
    if owner != "" then OnlyVisible(rows, owner)
    else if AnyScoped(rows) then []
    else rows
  }

  // ---------------------------------------------------------------- selection

  function FirstDefault(rows: seq<Account>): Option<Account> {
    if rows == [] then None else if rows[0].isDefault then Some(rows[0]) else FirstDefault(rows[1..])
  }

  function FirstWithId(rows: seq<Account>, id: string): Option<Account> {
    if rows == [] then None else if rows[0].id == id then Some(rows[0]) else FirstWithId(rows[1..], id)
  }

  predicate Mentions(row: Account, sel: string) {
    || Find(Lower(row.name), sel).Some?
    || Find(Lower(row.imapUser), sel).Some?
    || Find(Lower(row.fromAddress), sel).Some?
  }

  function FirstMentioning(rows: seq<Account>, sel: string): Option<Account> {
    if rows == [] then None else if Mentions(rows[0], sel) then Some(rows[0]) else FirstMentioning(rows[1..], sel)
  }

  function Fields(row: Account): seq<string> {
    (if row.name != "" then [Lower(row.name)] else [])
    + (if row.imapUser != "" then [Lower(row.imapUser)] else [])
    + (if row.fromAddress != "" then [Lower(row.fromAddress)] else [])
  }

  function Candidates(rows: seq<Account>): seq<string> {
    if rows == [] then [] else Fields(rows[0]) + Candidates(rows[1..])
  }

  /** The last row with the candidate among its fields. */
  function LastWithField(rows: seq<Account>, field: string): Option<Account> {
    if rows == [] then None
    else
      var later := LastWithField(rows[1..], field);
      if later.Some? then later else if field in Fields(rows[0]) then Some(rows[0]) else None
  }

  /** `_resolve_account_from_rows`; an empty selector counts as none. */
  function Resolve(w: World, rows: seq<Account>, selector: Option<string>): Option<Account> {
    if rows == [] then None
    else if selector.GetOr("") == "" then
      if FirstDefault(rows).Some? then FirstDefault(rows) else Some(rows[0])
    else
      var sel := Normalize(selector.value);
      if FirstWithId(rows, selector.value).Some? then FirstWithId(rows, selector.value)
      else if FirstMentioning(rows, sel).Some? then FirstMentioning(rows, sel)
      else
        var close := w.close(sel, Candidates(rows));
        if close.Some? then LastWithField(rows, close.value) else None
  }

  /** `_load_config` without its cache. */
  function Uncached(w: World, owner: string, selector: Option<string>): Answer {
    var rows := ForOwner(w.rows, owner);
    var row := Resolve(w, rows, selector);
    if owner == "" && AnyScoped(w.rows) then Refused
    else if owner != "" && w.rows != [] && rows == [] then Refused
    else if selector.GetOr("") != "" && rows != [] && row.None? then Refused
    else Config(row)
  }

  // ---------------------------------------------------------------- the cache

  function Key(selector: Option<string>): string {
    var key := Normalize(selector.GetOr(""));
    if key == "" then "__default__" else key
  }

  type Cache = map<(string, string), Option<Account>>

  datatype Call = Call(owner: string, selector: Option<string>)

  function Load(w: World, cache: Cache, call: Call): (Answer, Cache) {
    var key := (call.owner, Key(call.selector));
    if key in cache then (Config(cache[key]), cache)
    else
      var answer := Uncached(w, call.owner, call.selector);
      if answer.Refused? then (answer, cache) else (answer, cache[key := answer.account])
  }

  /** The process-wide cache as the program has it: filled on success, never emptied. */
  class Loader {
    const world: World
    var cache: Cache

    constructor (world: World)
      ensures this.world == world && cache == map[]
    {
      this.world, cache := world, map[];
    }

    method LoadConfig(owner: string, selector: Option<string>) returns (answer: Answer)
      modifies this
      ensures (answer, cache) == Load(world, old(cache), Call(owner, selector))
    {
      var cacheKey := (owner, Key(selector));
      if cacheKey in cache {
        return Config(cache[cacheKey]);
      }
      if owner == "" && AnyScoped(world.rows) {
        return Refused;
      }
      var rows := ForOwner(world.rows, owner);
      var row := Resolve(world, rows, selector);
      if owner != "" && world.rows != [] && rows == [] {
        return Refused;
      }
      if selector.GetOr("") != "" && rows != [] && row.None? {
        return Refused;
      }
      cache := cache[cacheKey := row];
      answer := Config(row);
    }
  }

  function CacheAfter(w: World, calls: seq<Call>): Cache {
    if calls == [] then map[] else Load(w, CacheAfter(w, calls[..|calls| - 1]), calls[|calls| - 1]).1
  }

  /** The answer to one more call after a run of calls. */
  function AnswerAfter(w: World, calls: seq<Call>, call: Call): Answer {
    Load(w, CacheAfter(w, calls), call).0
  }

  // ---------------------------------------------------------------- scope

  lemma {:induction false} OnlyVisibleMembers(rows: seq<Account>, owner: string)
    ensures forall r :: r in OnlyVisible(rows, owner) <==> r in rows && VisibleTo(r, owner)
  {
    if rows != [] {
      OnlyVisibleMembers(rows[1..], owner);
      assert rows == [rows[0]] + rows[1..];
    }
  }

  lemma {:induction false} ResolveMember(w: World, rows: seq<Account>, selector: Option<string>)
    ensures Resolve(w, rows, selector).Some? ==> Resolve(w, rows, selector).value in rows
  {
    SearchMembers(rows, selector.GetOr(""), Normalize(selector.GetOr("")));
    if selector.Some? {
      LastWithFieldMember(rows, w.close(Normalize(selector.value), Candidates(rows)).GetOr(""));
    }
  }

  lemma {:induction false} SearchMembers(rows: seq<Account>, id: string, sel: string)
    ensures FirstDefault(rows).Some? ==> FirstDefault(rows).value in rows
    ensures FirstWithId(rows, id).Some? ==> FirstWithId(rows, id).value in rows
    ensures FirstMentioning(rows, sel).Some? ==> FirstMentioning(rows, sel).value in rows
  {
    if rows != [] {
      SearchMembers(rows[1..], id, sel);
    }
  }

  lemma {:induction false} LastWithFieldMember(rows: seq<Account>, field: string)
    ensures LastWithField(rows, field).Some? ==> LastWithField(rows, field).value in rows
  {
    if rows != [] {
      LastWithFieldMember(rows[1..], field);
    }
  }

  /** What a caller may be given: an account of the table that it may see; and without an
      owner, only if no account has one. */
  ghost predicate InScope(w: World, owner: string, account: Option<Account>) {
    account.Some? ==>
      && account.value in w.rows
      && (if owner != "" then VisibleTo(account.value, owner) else !AnyScoped(w.rows))
  }

  lemma UncachedInScope(w: World, owner: string, selector: Option<string>)
    ensures Uncached(w, owner, selector).Config? ==> InScope(w, owner, Uncached(w, owner, selector).account)
  {
    ResolveMember(w, ForOwner(w.rows, owner), selector);
    OnlyVisibleMembers(w.rows, owner);
  }

  /** An account that the owner may see is found by its id, whatever the names and addresses
      of other accounts contain. */
  lemma {:induction false} IdFindsItsRow(rows: seq<Account>, row: Account)
    requires row in rows && forall r :: r in rows && r.id == row.id ==> r == row
    ensures FirstWithId(rows, row.id) == Some(row)
  {
    if rows[0].id != row.id {
      IdFindsItsRow(rows[1..], row);
    }
  }

  lemma IdSelectsItsAccount(w: World, owner: string, row: Account)
    requires row in ForOwner(w.rows, owner) && row.id != ""
    requires forall r :: r in w.rows && r.id == row.id ==> r == row
    ensures Uncached(w, owner, Some(row.id)) == Config(Some(row))
  {
    OnlyVisibleMembers(w.rows, owner);
    IdFindsItsRow(ForOwner(w.rows, owner), row);
  }

  /** Where a cache entry comes from: a call of the run by the same owner, with a selector of
      the same key, answered without the cache. */
  ghost predicate HasOrigin(w: World, calls: seq<Call>, owner: string, key: string, account: Option<Account>) {
    exists i :: 0 <= i < |calls| && calls[i].owner == owner && Key(calls[i].selector) == key
                && Uncached(w, owner, calls[i].selector) == Config(account)
  }

  lemma EntryIsOldOrNew(w: World, cache: Cache, call: Call, k: (string, string))
    requires k in Load(w, cache, call).1
    ensures k in cache ==> Load(w, cache, call).1[k] == cache[k]
    ensures k !in cache ==>
              k == (call.owner, Key(call.selector))
              && Uncached(w, call.owner, call.selector) == Config(Load(w, cache, call).1[k])
  {
  }

  lemma {:induction false} CacheHasOrigins(w: World, calls: seq<Call>, owner: string, key: string)
    requires (owner, key) in CacheAfter(w, calls)
    ensures HasOrigin(w, calls, owner, key, CacheAfter(w, calls)[(owner, key)])
    decreases |calls|
  {
    var init := calls[..|calls| - 1];
    EntryIsOldOrNew(w, CacheAfter(w, init), calls[|calls| - 1], (owner, key));
    if (owner, key) in CacheAfter(w, init) {
      CacheHasOrigins(w, init, owner, key);
      OriginStays(w, calls, owner, key, CacheAfter(w, init)[(owner, key)]);
    }
  }

  lemma OriginStays(w: World, calls: seq<Call>, owner: string, key: string, account: Option<Account>)
    requires calls != [] && HasOrigin(w, calls[..|calls| - 1], owner, key, account)
    ensures HasOrigin(w, calls, owner, key, account)
  {
    var init := calls[..|calls| - 1];
    var i :| 0 <= i < |init| && init[i].owner == owner && Key(init[i].selector) == key
             && Uncached(w, owner, init[i].selector) == Config(account);
    assert calls[i] == init[i];
  }

  /** Whatever was asked before by whomever, nobody is given an account out of scope. */
  lemma AnswersStayInScope(w: World, calls: seq<Call>, call: Call)
    ensures AnswerAfter(w, calls, call).Config? ==> InScope(w, call.owner, AnswerAfter(w, calls, call).account)
  {
    var key := Key(call.selector);
    if (call.owner, key) in CacheAfter(w, calls) {
      CacheHasOrigins(w, calls, call.owner, key);
      var account := CacheAfter(w, calls)[(call.owner, key)];
      var i :| 0 <= i < |calls| && calls[i].owner == call.owner && Key(calls[i].selector) == key
               && Uncached(w, call.owner, calls[i].selector) == Config(account);
      UncachedInScope(w, call.owner, calls[i].selector);
    } else {
      UncachedInScope(w, call.owner, call.selector);
    }
  }

  // ---------------------------------------------------------------- agreement

  /** No selector, or one already trimmed and lower-cased, but not the word that the cache
      uses for none. */
  predicate Canonical(selector: Option<string>) {
    var s := selector.GetOr("");
    Normalize(s) == s && s != "__default__"
  }

  /** For such selectors the cached answer is the answer without the cache. */
  lemma CachedIsUncached(w: World, calls: seq<Call>, call: Call)
    requires Canonical(call.selector) && forall i :: 0 <= i < |calls| ==> Canonical(calls[i].selector)
    ensures AnswerAfter(w, calls, call) == Uncached(w, call.owner, call.selector)
  {
    var key := Key(call.selector);
    if (call.owner, key) in CacheAfter(w, calls) {
      CacheHasOrigins(w, calls, call.owner, key);
      var account := CacheAfter(w, calls)[(call.owner, key)];
      var i :| 0 <= i < |calls| && calls[i].owner == call.owner && Key(calls[i].selector) == key
               && Uncached(w, call.owner, calls[i].selector) == Config(account);
      assert calls[i].selector.GetOr("") == call.selector.GetOr("");
      SameText(w, call.owner, calls[i].selector, call.selector);
    }
  }

  lemma SameText(w: World, owner: string, a: Option<string>, b: Option<string>)
    requires a.GetOr("") == b.GetOr("")
    ensures Uncached(w, owner, a) == Uncached(w, owner, b)
  {
  }

  // ---------------------------------------------------------------- selectors that share a key

  /** The account with exactly this id; an empty text is no id. */
  function IdMatch(rows: seq<Account>, selector: string): Option<Account> {
    if selector == "" then None else FirstWithId(rows, selector)
  }

  /** The account that the text finds by what accounts contain, or by likeness. */
  function TextMatch(w: World, rows: seq<Account>, text: string): Option<Account> {
    if FirstMentioning(rows, text).Some? then FirstMentioning(rows, text)
    else
      var close := w.close(text, Candidates(rows));
      if close.Some? then LastWithField(rows, close.value) else None
  }

  /** The account for a selector that is no id: the default one for no selector, the first one
      for a blank text, which every account contains, and otherwise the one the text finds. */
  function NoIdMatch(w: World, rows: seq<Account>, selector: string): Option<Account>
    requires rows != []
  {
    if selector == "" then if FirstDefault(rows).Some? then FirstDefault(rows) else Some(rows[0])
    else if Normalize(selector) == "" then Some(rows[0])
    else TextMatch(w, rows, Normalize(selector))
  }

  lemma BlankIsEverywhere(text: string)
    ensures Find(text, "").Some?
  {
    assert OccursAt(text, "", 0);
    assert Occurs(text, "");
  }

  lemma ResolvedBySort(w: World, rows: seq<Account>, selector: Option<string>)
    requires rows != []
    ensures var s := selector.GetOr("");
            Resolve(w, rows, selector) == if IdMatch(rows, s).Some? then IdMatch(rows, s) else NoIdMatch(w, rows, s)
  {
    BlankIsEverywhere(Lower(rows[0].name));
  }

  /** Some account has exactly this id. */
  predicate IsId(rows: seq<Account>, selector: string) {
    selector != "" && FirstWithId(rows, selector).Some?
  }

  lemma {:induction false} FirstWithIdHasId(rows: seq<Account>, id: string)
    ensures FirstWithId(rows, id).Some? ==> FirstWithId(rows, id).value.id == id
  {
    if rows != [] && rows[0].id != id {
      FirstWithIdHasId(rows[1..], id);
    }
  }

  predicate Blank(selector: string) {
    selector != "" && Normalize(selector) == ""
  }

  /** The first account marked as default, or else the first account. */
  function Default(rows: seq<Account>): Account
    requires rows != []
  {
    FirstDefault(rows).GetOr(rows[0])
  }

  /** The account for a selector that is no id is this one: the default one for no selector, the
      first one for a blank text, and otherwise the one that the text finds. */
  predicate Leads(w: World, rows: seq<Account>, selector: string, row: Account)
    requires rows != []
  {
    if selector == "" then row == Default(rows)
    else if Blank(selector) then row == rows[0]
    else TextMatch(w, rows, Normalize(selector)) == Some(row)
  }

  /** When two different selectors of one cache key are safe for given accounts: not if both are ids;
      if one is, exactly if the other leads to its account; and if neither is, two blank texts are,
      two proper texts are, a blank text and none are exactly if no account or the first one is
      the default, and the default word is exactly if it finds the account of the other. */
  predicate SafePair(w: World, rows: seq<Account>, a: string, b: string)
    requires rows != []
  {
    if IsId(rows, a) && IsId(rows, b) then false
    else if IsId(rows, a) then Leads(w, rows, b, FirstWithId(rows, a).value)
    else if IsId(rows, b) then Leads(w, rows, a, FirstWithId(rows, b).value)
    else if Blank(a) && Blank(b) then true
    else if Normalize(a) != "" && Normalize(b) != "" then true
    else if Normalize(a) == "" && Normalize(b) == "" then FirstDefault(rows).None? || rows[0].isDefault
    else
      var word, other := if Normalize(a) != "" then a else b, if Normalize(a) != "" then b else a;
      TextMatch(w, rows, Normalize(word)) == Some(if other == "" then Default(rows) else rows[0])
  }

  lemma {:induction false} FirstDefaultIsDefault(rows: seq<Account>)
    ensures FirstDefault(rows).Some? ==> FirstDefault(rows).value.isDefault
  {
    if rows != [] && !rows[0].isDefault {
      FirstDefaultIsDefault(rows[1..]);
    }
  }

  lemma StripOfNone()
    ensures Normalize("") == ""
  {
    assert Strip("") == "";
  }

  lemma NoIdMatchLeads(w: World, rows: seq<Account>, selector: string, row: Account)
    requires rows != []
    ensures NoIdMatch(w, rows, selector) == Some(row) <==> Leads(w, rows, selector, row)
  {
    StripOfNone();
  }

  lemma SafePairPicksAlike(w: World, rows: seq<Account>, a: Option<string>, b: Option<string>)
    requires rows != [] && Key(a) == Key(b) && a.GetOr("") != b.GetOr("")
    ensures Resolve(w, rows, a) == Resolve(w, rows, b) <==> SafePair(w, rows, a.GetOr(""), b.GetOr(""))
  {
    hide TextMatch, Normalize, Resolve, FirstWithId;
    var s, t := a.GetOr(""), b.GetOr("");
    ResolvedBySort(w, rows, a);
    ResolvedBySort(w, rows, b);
    FirstWithIdHasId(rows, s);
    FirstWithIdHasId(rows, t);
    FirstDefaultIsDefault(rows);
    StripOfNone();
    if IsId(rows, s) {
      NoIdMatchLeads(w, rows, t, FirstWithId(rows, s).value);
    } else if IsId(rows, t) {
      NoIdMatchLeads(w, rows, s, FirstWithId(rows, t).value);
    }
  }

  /** For two selectors of one key, the first of them answered: without the cache they are answered
      alike exactly when there is no account to choose from, or they are one text, or a safe pair. */
  predicate Safe(w: World, owner: string, a: string, b: string) {
    ForOwner(w.rows, owner) == [] || a == b || SafePair(w, ForOwner(w.rows, owner), a, b)
  }

  lemma AnswersAlikeExactlyWhen(w: World, owner: string, a: Option<string>, b: Option<string>)
    requires Uncached(w, owner, a).Config? && Key(a) == Key(b)
    ensures Uncached(w, owner, a) == Uncached(w, owner, b) <==> Safe(w, owner, a.GetOr(""), b.GetOr(""))
  {
    hide SafePair, Key;
    var rows := ForOwner(w.rows, owner);
    if a.GetOr("") == b.GetOr("") {
      SameText(w, owner, a, b);
    } else if rows != [] {
      SafePairPicksAlike(w, rows, a, b);
    }
  }

  // ---------------------------------------------------------------- any run of calls

  /** The call that filled the cache for an owner and a key: the first one with them that is
      answered. */
  function FirstFill(w: World, calls: seq<Call>, owner: string, key: string): (r: Option<nat>)
    ensures r.Some? ==> r.value < |calls| && calls[r.value].owner == owner && Key(calls[r.value].selector) == key
    ensures r.Some? ==> Uncached(w, owner, calls[r.value].selector).Config?
  {
    if calls == [] then None
    else
      var init, last := calls[..|calls| - 1], calls[|calls| - 1];
      var earlier := FirstFill(w, init, owner, key);
      if earlier.Some? then earlier
      else if last.owner == owner && Key(last.selector) == key && Uncached(w, owner, last.selector).Config? then Some(|calls| - 1)
      else None
  }

  lemma {:induction false} CacheIsFirstFill(w: World, calls: seq<Call>, owner: string, key: string)
    ensures var fill := FirstFill(w, calls, owner, key);
            && ((owner, key) in CacheAfter(w, calls) <==> fill.Some?)
            && (fill.Some? ==> Config(CacheAfter(w, calls)[(owner, key)]) == Uncached(w, owner, calls[fill.value].selector))
    decreases |calls|
  {
    hide Uncached, Key;
    if calls != [] {
      CacheIsFirstFill(w, calls[..|calls| - 1], owner, key);
    }
  }

  /** Over every run of calls, by whomever: a call is answered as it would be without the cache exactly
      when nobody's call of the same owner and key was answered before, or its selector and the
      first such one are safe. */
  lemma AnswerIsRightExactlyWhen(w: World, calls: seq<Call>, call: Call)
    ensures var fill := FirstFill(w, calls, call.owner, Key(call.selector));
            AnswerAfter(w, calls, call) == Uncached(w, call.owner, call.selector)
            <==> fill.None? || Safe(w, call.owner, calls[fill.value].selector.GetOr(""), call.selector.GetOr(""))
  {
    hide Uncached, Key, Safe;
    CacheIsFirstFill(w, calls, call.owner, Key(call.selector));
    var fill := FirstFill(w, calls, call.owner, Key(call.selector));
    if fill.Some? {
      AnswersAlikeExactlyWhen(w, call.owner, calls[fill.value].selector, call.selector);
    }
  }

  /** A world in which two different texts pick different accounts. */
  function Apart(a: string, b: string): World {
    World([Account(a + b + "!", "", "", "", "", true), Account(if a != "" then a else b, "", "", "", "", false)],
          (text, candidates) => None)
  }

  lemma ApartTellsApart(a: Option<string>, b: Option<string>)
    requires Key(a) == Key(b) && a.GetOr("") != b.GetOr("")
    ensures Uncached(Apart(a.GetOr(""), b.GetOr("")), "", a).Config?
    ensures Uncached(Apart(a.GetOr(""), b.GetOr("")), "", a) != Uncached(Apart(a.GetOr(""), b.GetOr("")), "", b)
  {
    var s, t := a.GetOr(""), b.GetOr("");
    var w := Apart(s, t);
    var x, y := w.rows[0], w.rows[1];
    assert |x.id| == |s| + |t| + 1;
    assert Strip("") == "";
    assert !AnyScoped(w.rows) && ForOwner(w.rows, "") == w.rows == [x, y];
    FirstOfTwo(x, y, s);
    FirstOfTwo(x, y, t);
    ResolvedBySort(w, w.rows, a);
    ResolvedBySort(w, w.rows, b);
    if t != "" && Normalize(t) != "" {
      FindsOnlyById(s, t, t);
    }
  }

  lemma FirstOfTwo(x: Account, y: Account, id: string)
    ensures FirstWithId([x, y], id) == if x.id == id then Some(x) else if y.id == id then Some(y) else None
  {
    assert [x, y][1..] == [y];
    assert FirstWithId([y], id) == if y.id == id then Some(y) else None;
  }

  lemma {:induction false} NamelessMentionNothing(rows: seq<Account>, text: string)
    requires text != "" && forall r :: r in rows ==> r.name == "" && r.imapUser == "" && r.fromAddress == ""
    ensures FirstMentioning(rows, text).None?
  {
    if rows != [] {
      assert rows[0] in rows;
      assert Lower("") == "";
      assert !Occurs("", text);
      NamelessMentionNothing(rows[1..], text);
    }
  }

  /** In such a world a text finds an account by its id only. */
  lemma FindsOnlyById(a: string, b: string, text: string)
    requires text != "" && Normalize(text) != ""
    ensures NoIdMatch(Apart(a, b), Apart(a, b).rows, text) == None
  {
    NamelessMentionNothing(Apart(a, b).rows, Normalize(text));
  }

  /** So the cache can be trusted with two texts of one key, whatever accounts there are, exactly
      when they are one text. */
  lemma CacheIsSafeForTextsExactlyWhen(a: Option<string>, b: Option<string>)
    requires Key(a) == Key(b)
    ensures (forall w: World, owner: string :: Uncached(w, owner, a).Config? ==>
               AnswerAfter(w, [Call(owner, a)], Call(owner, b)) == Uncached(w, owner, b))
            <==> a.GetOr("") == b.GetOr("")
  {
    forall w: World, owner: string | Uncached(w, owner, a).Config?
      ensures AnswerAfter(w, [Call(owner, a)], Call(owner, b)) == Uncached(w, owner, a)
    {
      assert [Call(owner, a)][..0] == [];
      assert CacheAfter(w, [Call(owner, a)]) == Load(w, map[], Call(owner, a)).1;
    }
    forall w: World, owner: string | a.GetOr("") == b.GetOr("")
      ensures Uncached(w, owner, a) == Uncached(w, owner, b)
    {
      SameText(w, owner, a, b);
    }
    if a.GetOr("") != b.GetOr("") {
      ApartTellsApart(a, b);
      var w := Apart(a.GetOr(""), b.GetOr(""));
      assert AnswerAfter(w, [Call("", a)], Call("", b)) != Uncached(w, "", b);
    }
  }

  /** The word for none is a selector too: after a call without a selector it is answered with
      the default account, although nothing matches it. */
  lemma DefaultWordIsTaken(w: World, owner: string)
    requires Uncached(w, owner, None).Config? && Uncached(w, owner, Some("__default__")).Refused?
    ensures AnswerAfter(w, [Call(owner, None)], Call(owner, Some("__default__"))) == Uncached(w, owner, None)
            != Uncached(w, owner, Some("__default__"))
  {
    DefaultWordIsNormal();
    assert [Call(owner, None)][..0] == [];
    assert CacheAfter(w, [Call(owner, None)]) == Load(w, map[], Call(owner, None)).1;
  }

  lemma DefaultWordIsNormal()
    ensures Key(Some("__default__")) == "__default__" == Key(None)
  {
    StripOfTrimmed("__default__");
    assert Lower("__default__") == "__default__";
  }
}
