/** The account table without the privilege stash: each name has an admin flag and
    the map it has when it is not an admin. The stored rows refine this table. */
module PlainAccounts {
  import opened Common
  import opened Privileges
  import opened PyText
  import opened Accounts

  datatype Plain = Plain(isAdmin: bool, own: PrivMap, source: Source)

  type Table = map<string, Plain>

  /** The promise made to callers: admins may do everything, others what their own map says. */
  function Allowed(table: Table, name: string): PrivMap {
    if name !in table then DEFAULT_PRIVILEGES
    else if table[name].isAdmin then AdminPrivileges()
    else table[name].own
  }

  predicate TableAdmin(table: Table, name: string) {
    name in table && table[name].isAdmin
  }

  /** One step on the stash-free table. Promotion and
      demotion only flip the flag, and nothing but `set_privileges` and a new or synced row
      touches a map. */
  function PlainStep(table: Table, op: Op): Table {
    match op
    case OpCreate(n, a, _) => PlainCreate(table, Normalize(n), a)
    case OpSetup(n, _) => if table != map[] then table else PlainCreate(table, Normalize(n), true)
    case OpDelete(n, r, up) =>
      if Normalize(n) in table && Normalize(n) != r && TableAdmin(table, r) && up then table - {Normalize(n)}
      else table
    case OpRename(n, m, r) =>
      var from, to := Normalize(n), Normalize(m);
      if from != "" && Usable(to) && from in table && to !in table && TableAdmin(table, Normalize(r)) then
        (table - {from})[to := table[from]]
      else table
    case OpSetPrivileges(n, u) =>
      var name := Normalize(n);
      if name in table && !table[name].isAdmin then
        table[name := table[name].(own := table[name].own + KnownUpdates(u))]
      else table
    case OpSetAdmin(n, a, r) =>
      var name := Normalize(n);
      if && name in table && TableAdmin(table, Normalize(r))
         && (a || exists other :: other in table && other != name && table[other].isAdmin)
      then table[name := table[name].(isAdmin := a)]
      else table
    case OpSso(n, role, _) =>
      var name := Normalize(n);
      if && Usable(name) && role in {"ADMIN", "ENGINEER", "GUEST"}
         && (name in table ==> table[name].source == FiiSso)
      then table[name := Plain(role == "ADMIN", DEFAULT_PRIVILEGES, FiiSso)]
      else table
    case _ => table
  }

  function PlainCreate(table: Table, name: string, isAdmin: bool): Table {
    if Usable(name) && name !in table then table[name := Plain(isAdmin, DEFAULT_PRIVILEGES, Native)]
    else table
  }

  // ---------------------------------------------------------------- the refinement

  /** The map a row falls back to when it is not an admin. */
  function OwnMap(row: Row): PrivMap {
    WithDefaults(if row.isAdmin then row.stash.GetOr(map[]) else row.privileges)
  }

  function PlainRow(row: Row): Plain {
    Plain(row.isAdmin, OwnMap(row), row.source)
  }

  function PlainTable(users: Users): Table {
    map n | n in users :: PlainRow(users[n])
  }

  lemma DefaultsAreComplete()
    ensures WithDefaults(map[]) == DEFAULT_PRIVILEGES
    ensures WithDefaults(DEFAULT_PRIVILEGES) == DEFAULT_PRIVILEGES
  {
    WithDefaultsFacts(map[]);
  }

  lemma StartingRowIsPlain(account: nat, now: int, isAdmin: bool, source: Source)
    ensures PlainRow(Row(account, now, isAdmin, StartingPrivileges(isAdmin), None, source))
            == Plain(isAdmin, DEFAULT_PRIVILEGES, source)
  {
    DefaultsAreComplete();
  }

  lemma PromotionKeepsOwnMap(row: Row)
    requires !row.isAdmin
    ensures PlainRow(Promoted(row)) == PlainRow(row).(isAdmin := true)
  {
    WithDefaultsFacts(row.privileges);
  }

  lemma DemotionRestoresOwnMap(row: Row)
    requires row.isAdmin
    ensures PlainRow(Demoted(row)) == PlainRow(row).(isAdmin := false)
  {
    WithDefaultsFacts(row.stash.GetOr(map[]));
  }

  lemma UpdateExtendsOwnMap(row: Row, updates: PrivMap)
    requires !row.isAdmin
    ensures PlainRow(row.(privileges := WithDefaults(row.privileges) + KnownUpdates(updates)))
            == PlainRow(row).(own := PlainRow(row).own + KnownUpdates(updates))
  {
    var own, known := WithDefaults(row.privileges), KnownUpdates(updates);
    assert WithDefaults(own + known) == own + known;
  }

  lemma PutRefines(users: Users, name: string, row: Row)
    ensures PlainTable(Apply(users, Put(name, row))) == PlainTable(users)[name := PlainRow(row)]
  {
  }

  /** `admin_count <= 1` is the question whether anybody else is an admin. */
  lemma OnlyAdmin(users: Users, name: string)
    requires IsAdmin(users, name)
    ensures |AdminNames(users)| <= 1 <==> !exists other :: other in users && other != name && users[other].isAdmin
  {
    var admins := AdminNames(users);
    if other :| other in users && other != name && users[other].isAdmin {
      assert {name, other} <= admins;
      assert |admins - {name, other}| + 2 == |admins|;
    } else {
      assert admins == {name};
    }
  }

  lemma SetAdminRefines(s: AuthState, op: Op)
    requires op.OpSetAdmin?
    ensures PlainTable(Apply(s.users, ChangeOf(s, op))) == PlainStep(PlainTable(s.users), op)
  {
    hide WithDefaults, OwnMap, Promoted, Demoted, Normalize;
    var users, table := s.users, PlainTable(s.users);
    var name := Normalize(op.name);
    if name in users {
      var row := users[name];
      if row.isAdmin {
        OnlyAdmin(users, name);
        DemotionRestoresOwnMap(row);
        PutRefines(users, name, Demoted(row));
        assert forall other :: other in users ==> table[other].isAdmin == users[other].isAdmin;
      } else {
        PromotionKeepsOwnMap(row);
        PutRefines(users, name, Promoted(row));
      }
      assert table[name := table[name]] == table;
      assert row.isAdmin == op.isAdmin ==> table[name].(isAdmin := op.isAdmin) == table[name];
    }
  }

  lemma StartingPutRefines(users: Users, name: string, row: Row)
    requires row.privileges == StartingPrivileges(row.isAdmin) && row.stash == None
    ensures PlainTable(Apply(users, Put(name, row)))
            == PlainTable(users)[name := Plain(row.isAdmin, DEFAULT_PRIVILEGES, row.source)]
  {
    StartingRowIsPlain(row.account, row.created, row.isAdmin, row.source);
    PutRefines(users, name, row);
  }

  lemma CreateRefines(s: AuthState, rawName: string, isAdmin: bool, now: int)
    ensures PlainTable(Apply(s.users, CreateChange(s, rawName, isAdmin, now)))
            == PlainCreate(PlainTable(s.users), Normalize(rawName), isAdmin)
  {
    var name := Normalize(rawName);
    StartingPutRefines(s.users, name, Row(s.nextAccount, now, isAdmin, StartingPrivileges(isAdmin), None, Native));
  }

  lemma SetupRefines(s: AuthState, op: Op)
    requires op.OpSetup?
    ensures PlainTable(Apply(s.users, ChangeOf(s, op))) == PlainStep(PlainTable(s.users), op)
  {
    CreateRefines(s, op.name, true, op.now);
    assert PlainTable(s.users).Keys == s.users.Keys;
    assert |s.users| > 0 <==> s.users.Keys != {};
  }

  lemma SsoRefines(s: AuthState, op: Op)
    requires op.OpSso?
    ensures PlainTable(Apply(s.users, ChangeOf(s, op))) == PlainStep(PlainTable(s.users), op)
  {
    var c := ChangeOf(s, op);
    if c.Put? {
      StartingPutRefines(s.users, c.name, c.row);
    }
  }

  lemma OtherStepRefines(s: AuthState, op: Op)
    requires !op.OpSetAdmin? && !op.OpCreate? && !op.OpSetup? && !op.OpSso?
    ensures PlainTable(Apply(s.users, ChangeOf(s, op))) == PlainStep(PlainTable(s.users), op)
  {
    if op.OpSetPrivileges? && ChangeOf(s, op).Put? {
      var name := Normalize(op.name);
      UpdateExtendsOwnMap(s.users[name], op.updates);
      PutRefines(s.users, name, ChangeOf(s, op).row);
    }
  }

  /** Every operation on the stored rows is the operation on the stash-free table. */
  lemma StepRefines(s: AuthState, op: Op)
    ensures PlainTable(Step(s, op).users) == PlainStep(PlainTable(s.users), op)
  {
    match op
    case OpSetAdmin(_, _, _) => SetAdminRefines(s, op);
    case OpCreate(n, a, now) => CreateRefines(s, n, a, now);
    case OpSetup(_, _) => SetupRefines(s, op);
    case OpSso(_, _, _) => SsoRefines(s, op);
    case _ => OtherStepRefines(s, op);
  }

  /** `get_privileges` answers what the stash-free table allows. */
  lemma PrivilegesRefine(users: Users, name: string)
    ensures GetPrivileges(users, name) == Allowed(PlainTable(users), name)
  {
    DefaultsAreComplete();
  }

  function PlainRun(table: Table, ops: seq<Op>): Table
    decreases |ops|
  {
    if ops == [] then table else PlainRun(PlainStep(table, ops[0]), ops[1..])
  }

  /** Over every run, what a name may do is what the stash-free table says. */
  lemma {:induction false} RunRefines(s: AuthState, ops: seq<Op>, name: string)
    ensures PlainTable(Run(s, ops).users) == PlainRun(PlainTable(s.users), ops)
    ensures GetPrivileges(Run(s, ops).users, name) == Allowed(PlainRun(PlainTable(s.users), ops), name)
    decreases |ops|
  {
    PrivilegesRefine(Run(s, ops).users, name);
    if ops != [] {
      StepRefines(s, ops[0]);
      RunRefines(Step(s, ops[0]), ops[1..], name);
    }
  }
}
