/** The account table and the session table as values, with one function per
    operation of the auth manager. The class in AuthManager.dfy is proved to
    compute these functions; AuthTheorems.dfy proves what they are for. */
module Accounts {
  import opened Common
  import opened Privileges
  import opened PyText

  datatype Source = Native | FiiSso

  /** One entry of the user table. `account` is an identity given at creation that the
      program does not store: it exists to say which account a row still is after renames. */
  datatype Row = Row(
    account: nat, created: int, isAdmin: bool,
    privileges: PrivMap, stash: Option<PrivMap>, source: Source)

  type Users = map<string, Row>

  datatype Session = Session(username: string, expiry: int)

  /** Tokens are numbered in the order in which they are drawn, which says that the
      random generator never repeats one; `issued[t]` is the account that token `t`
      was issued for. */
  datatype AuthState = AuthState(
    users: Users, sessions: map<nat, Session>, nextAccount: nat, issued: seq<nat>)

  const TOKEN_TTL := 604800

  const RESERVED_USERNAMES := {"internal-tool", "api", "demo", "system"}

  datatype SetAdminResult = Ok | UserNotFound | NotAuthorized | LastAdmin

  predicate Usable(name: string) {
    name != "" && name !in RESERVED_USERNAMES
  }

  predicate IsAdmin(users: Users, name: string) {
    name in users && users[name].isAdmin
  }

  function AdminNames(users: Users): set<string> {
    set n | n in users && users[n].isAdmin
  }

  function StartingPrivileges(isAdmin: bool): PrivMap {
    if isAdmin then AdminPrivileges() else DEFAULT_PRIVILEGES
  }

  /** `get_privileges`: what a name may do. */
  function GetPrivileges(users: Users, name: string): PrivMap {
    if name !in users then WithDefaults(map[])
    else if users[name].isAdmin then AdminPrivileges()
    else WithDefaults(users[name].privileges)
  }

  // ---------------------------------------------------------------- changes to the table

  /** What one operation does to the user table, decided before anything is written. */
  datatype Change =
    | Keep
    | Put(name: string, row: Row)
    | Remove(name: string)
    | Move(from: string, to: string)

  function Apply(users: Users, c: Change): Users {
    match c
    case Keep => users
    case Put(name, row) => users[name := row]
    case Remove(name) => users - {name}
    case Move(from, to) => if from in users then (users - {from})[to := users[from]] else users
  }

  function CreateChange(s: AuthState, rawName: string, isAdmin: bool, now: int): Change {
    var name := Normalize(rawName);
    if !Usable(name) || name in s.users then Keep
    else Put(name, Row(s.nextAccount, now, isAdmin, StartingPrivileges(isAdmin), None, Native))
  }

  /** `storeUp` says whether the API-token store could be reached. */
  function DeleteChange(s: AuthState, rawName: string, requester: string, storeUp: bool): Change {
    var name := Normalize(rawName);
    if name !in s.users || name == requester || !IsAdmin(s.users, requester) || !storeUp then Keep
    else Remove(name)
  }

  function RenameChange(s: AuthState, rawOld: string, rawNew: string, rawRequester: string): Change {
    var from, to := Normalize(rawOld), Normalize(rawNew);
    if from == "" || !Usable(to) || from !in s.users || to in s.users || !IsAdmin(s.users, Normalize(rawRequester))
    then Keep
    else Move(from, to)
  }

  function PrivilegesChange(s: AuthState, rawName: string, updates: PrivMap): Change {
    var name := Normalize(rawName);
    if name !in s.users || s.users[name].isAdmin then Keep
    else Put(name, s.users[name].(privileges := GetPrivileges(s.users, name) + KnownUpdates(updates)))
  }

  function Promoted(row: Row): Row {
    row.(isAdmin := true, stash := Some(OrDefaults(row.privileges)), privileges := AdminPrivileges())
  }

  function Demoted(row: Row): Row {
    row.(isAdmin := false, stash := None, privileges := OrDefaults(row.stash.GetOr(map[])))
  }

  /** The checks of `set_admin`, in order. */
  function SetAdminVerdict(s: AuthState, rawName: string, flag: bool, rawRequester: string): SetAdminResult {
    var name := Normalize(rawName);
    if name !in s.users then UserNotFound
    else if !IsAdmin(s.users, Normalize(rawRequester)) then NotAuthorized
    else if s.users[name].isAdmin && !flag && |AdminNames(s.users)| <= 1 then LastAdmin
    else Ok
  }

  function SetAdminChange(s: AuthState, rawName: string, flag: bool, rawRequester: string): Change {
    var name := Normalize(rawName);
    if SetAdminVerdict(s, rawName, flag, rawRequester) != Ok || s.users[name].isAdmin == flag then Keep
    else Put(name, if flag then Promoted(s.users[name]) else Demoted(s.users[name]))
  }

  /** `ensure_fii_sso_user`: overwrite, or create, the shadow row of a single-sign-on user. */
  function SsoChange(s: AuthState, rawName: string, role: string, now: int): Change {
    var name := Normalize(rawName);
    if !Usable(name) || role !in {"ADMIN", "ENGINEER", "GUEST"} then Keep
    else if name in s.users && s.users[name].source != FiiSso then Keep
    else
      var known := name in s.users;
      var isAdmin := role == "ADMIN";
      Put(name, Row(
        if known then s.users[name].account else s.nextAccount,
        if known then s.users[name].created else now,
        isAdmin, StartingPrivileges(isAdmin), None, FiiSso))
  }

  /** Write the decided change. */
  function Commit(s: AuthState, c: Change): AuthState {
    s.(users := Apply(s.users, c),
       nextAccount := if c.Put? && c.row.account == s.nextAccount then s.nextAccount + 1 else s.nextAccount)
  }

  // ---------------------------------------------------------------- sessions

  /** The tokens of a user, except the one to keep. */
  function TokensOf(sessions: map<nat, Session>, name: string, keep: Option<nat>): set<nat> {
    set t | t in sessions && sessions[t].username == name && keep != Some(t)
  }

  function DropSessionsOf(sessions: map<nat, Session>, name: string, keep: Option<nat>): map<nat, Session> {
    sessions - TokensOf(sessions, name, keep)
  }

  function RenamedSession(session: Session, from: string, to: string): Session {
    if Normalize(session.username) == from then session.(username := to) else session
  }

  function RenameSessions(sessions: map<nat, Session>, from: string, to: string): map<nat, Session> {
    map t | t in sessions :: RenamedSession(sessions[t], from, to)
  }

  /** What `get_username_for_token` answers; `validate_token` says whether there is an answer. */
  function TokenUser(s: AuthState, token: Option<nat>, now: int): Option<string> {
    if token.None? || token.value !in s.sessions then None
    else
      var session := s.sessions[token.value];
      if now > session.expiry || session.username !in s.users then None else Some(session.username)
  }

  // ---------------------------------------------------------------- operations

  /** The public operations of the manager. `OpUse` is a token check, by
      `validate_token` or `get_username_for_token`; `OpReload` is a process restart. */
  datatype Op =
    | OpCreate(name: string, isAdmin: bool, now: int)
    | OpSetup(name: string, now: int)
    | OpDelete(name: string, requester: string, storeUp: bool)
    | OpRename(name: string, newName: string, requester: string)
    | OpSetPrivileges(name: string, updates: PrivMap)
    | OpSetAdmin(name: string, isAdmin: bool, requester: string)
    | OpSso(name: string, role: string, now: int)
    | OpIssue(name: string, now: int)
    | OpUse(token: Option<nat>, now: int)
    | OpRevoke(tok: nat)
    | OpRevokeAll(name: string, keep: Option<nat>)
    | OpReload(now: int)

  function ChangeOf(s: AuthState, op: Op): Change {
    match op
    case OpCreate(n, a, now) => CreateChange(s, n, a, now)
    case OpSetup(n, now) => if |s.users| > 0 then Keep else CreateChange(s, n, true, now)
    case OpDelete(n, r, up) => DeleteChange(s, n, r, up)
    case OpRename(n, m, r) => RenameChange(s, n, m, r)
    case OpSetPrivileges(n, u) => PrivilegesChange(s, n, u)
    case OpSetAdmin(n, a, r) => SetAdminChange(s, n, a, r)
    case OpSso(n, role, now) => SsoChange(s, n, role, now)
    case _ => Keep
  }

  /** The session table afterwards. A deletion purges and a rename follows; a token check
      drops an expired or orphaned session; a restart reads back the unexpired ones. */
  function SessionsOf(s: AuthState, op: Op): map<nat, Session> {
    match op
    case OpDelete(n, _, _) =>
      if ChangeOf(s, op).Remove? then DropSessionsOf(s.sessions, Normalize(n), None) else s.sessions
    case OpRename(n, m, _) =>
      if ChangeOf(s, op).Move? then RenameSessions(s.sessions, Normalize(n), Normalize(m)) else s.sessions
    case OpIssue(n, now) =>
      if Normalize(n) in s.users then s.sessions[|s.issued| := Session(Normalize(n), now + TOKEN_TTL)]
      else s.sessions
    case OpUse(t, now) =>
      if t.Some? && TokenUser(s, t, now).None? then s.sessions - {t.value} else s.sessions
    case OpRevoke(t) => s.sessions - {t}
    case OpRevokeAll(n, keep) => DropSessionsOf(s.sessions, Normalize(n), keep)
    case OpReload(now) => map t | t in s.sessions && s.sessions[t].expiry > now :: s.sessions[t]
    case _ => s.sessions
  }

  function IssuedOf(s: AuthState, op: Op): seq<nat> {
    if op.OpIssue? && Normalize(op.name) in s.users then s.issued + [s.users[Normalize(op.name)].account]
    else s.issued
  }

  function Step(s: AuthState, op: Op): AuthState {
    Commit(s, ChangeOf(s, op)).(sessions := SessionsOf(s, op), issued := IssuedOf(s, op))
  }

  function Run(s: AuthState, ops: seq<Op>): AuthState
    decreases |ops|
  {
    if ops == [] then s else Run(Step(s, ops[0]), ops[1..])
  }

  const INITIAL := AuthState(map[], map[], 0, [])
}
