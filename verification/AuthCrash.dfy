/** Deleting a user writes two files, one after the other. What a crash in between, or a
    power loss, leaves behind, and whom the next process lets in. */
module AuthCrash {
  import opened Common
  import opened PyText
  import opened Accounts
  import opened AuthTheorems
  import opened AtomicFiles

  const AUTH := "auth.json"
  const SESSIONS := "sessions.json"

  function TmpName(path: string, pid: string): string {
    path + ".tmp." + pid
  }

  /** The JSON library: it reads back what it wrote. */
  datatype Codec = Codec(
    dumpUsers: Users -> string, parseUsers: string -> Users,
    dumpSessions: map<nat, Session> -> string, parseSessions: string -> map<nat, Session>)

  ghost predicate Faithful(c: Codec) {
    && (forall u: Users :: c.parseUsers(c.dumpUsers(u)) == u)
    && (forall s: map<nat, Session> :: c.parseSessions(c.dumpSessions(s)) == s)
  }

  function AuthText(c: Codec, s: AuthState): Option<string> {
    Some(c.dumpUsers(s.users))
  }

  function SessionsText(c: Codec, s: AuthState): Option<string> {
    Some(c.dumpSessions(s.sessions))
  }

  function UsersOf(c: Codec, auth: Option<string>): Users {
    if auth.Some? then c.parseUsers(auth.value) else map[]
  }

  function SavedSessions(c: Codec, sessions: Option<string>): map<nat, Session> {
    if sessions.Some? then c.parseSessions(sessions.value) else map[]
  }

  /** A new process: it takes what the two files hold and leaves out expired sessions. */
  function Restarted(c: Codec, s: AuthState, auth: Option<string>, sessions: Option<string>, now: int): AuthState {
    var saved := SavedSessions(c, sessions);
    s.(users := UsersOf(c, auth), sessions := map t | t in saved && saved[t].expiry > now :: saved[t])
  }

  /** The files read as the tables, and nobody else uses the temporary files. What older versions a
      power loss may bring back is left open. */
  ghost predicate Ready(d: Disk, c: Codec, s: AuthState, pid: string) {
    && WellFormed(d)
    && Read(d, AUTH) == AuthText(c, s) && Read(d, SESSIONS) == SessionsText(c, s)
    && Private(d, TmpName(AUTH, pid)) && Private(d, TmpName(SESSIONS, pid))
  }

  /** What a kill leaves of a deletion or a rename: of each file the old or the new version, and
      the new session table only if the user table is new. */
  ghost predicate Alive(d: Disk, c: Codec, s: AuthState, s': AuthState) {
    && (Read(d, AUTH) == AuthText(c, s) || Read(d, AUTH) == AuthText(c, s'))
    && (Read(d, SESSIONS) == SessionsText(c, s)
        || (Read(d, SESSIONS) == SessionsText(c, s') && Read(d, AUTH) == AuthText(c, s')))
  }

  /** A power loss brings back what it could bring back before, and perhaps the new text. */
  ghost predicate MayAdd(start: Disk, d: Disk, path: string, text: Option<string>) {
    && (forall found :: CanRecover(d, path, found) ==> CanRecover(start, path, found) || found == text)
    && (forall found :: CanRecover(start, path, found) ==> CanRecover(d, path, found))
  }

  /** One instant of the two writes. */
  ghost predicate Instant(start: Disk, d: Disk, c: Codec, s: AuthState, s': AuthState) {
    && Alive(d, c, s, s')
    && MayAdd(start, d, AUTH, AuthText(c, s')) && MayAdd(start, d, SESSIONS, SessionsText(c, s'))
  }

  lemma NamesAreDistinct(pid: string)
    ensures TmpName(AUTH, pid) != AUTH && TmpName(AUTH, pid) != SESSIONS
    ensures TmpName(SESSIONS, pid) != AUTH && TmpName(SESSIONS, pid) != SESSIONS
    ensures TmpName(AUTH, pid) != TmpName(SESSIONS, pid)
  {
    assert TmpName(AUTH, pid)[0] == 'a' && TmpName(SESSIONS, pid)[0] == 's';
    assert |TmpName(AUTH, pid)| > |AUTH| && |TmpName(SESSIONS, pid)| > |SESSIONS|;
  }

  lemma FirstWriteInstant(d: Disk, d': Disk, c: Codec, s: AuthState, s': AuthState, pid: string)
    requires Read(d, AUTH) == AuthText(c, s) && Read(d, SESSIONS) == SessionsText(c, s)
    requires OldOrNew(d, d', TmpName(AUTH, pid), AUTH, c.dumpUsers(s'.users))
    ensures Instant(d, d', c, s, s')
    ensures Read(d', SESSIONS) == SessionsText(c, s)
  {
    hide CanRecover;
    NamesAreDistinct(pid);
  }

  lemma SecondWriteInstant(start: Disk, d: Disk, d': Disk, c: Codec, s: AuthState, s': AuthState, pid: string)
    requires Instant(start, d, c, s, s') && Read(d, AUTH) == AuthText(c, s')
    requires OldOrNew(d, d', TmpName(SESSIONS, pid), SESSIONS, c.dumpSessions(s'.sessions))
    ensures Instant(start, d', c, s, s') && Read(d', AUTH) == AuthText(c, s')
    ensures CanRecover(d, AUTH, AuthText(c, s')) ==> CanRecover(d', AUTH, AuthText(c, s'))
  {
    hide CanRecover;
    NamesAreDistinct(pid);
  }

  /** The writes of a deletion or a rename: the user table, then, if any session was
      touched, the session table, with a crash point after each effect; and the files are ready
      for the next one. */
  method SaveBoth(m: Machine, c: Codec, ghost s: AuthState, s': AuthState, touched: bool,
                  pid: string, authChunks: seq<string>, sessionChunks: seq<string>)
    requires touched || s'.sessions == s.sessions
    requires Concat(authChunks) == c.dumpUsers(s'.users) && Concat(sessionChunks) == c.dumpSessions(s'.sessions)
    requires Ready(m.disk, c, s, pid)
    modifies m
    ensures old(m.trace) < m.trace && m.trace[|m.trace| - 1] == m.disk
    ensures forall k :: old(|m.trace|) <= k < |m.trace| ==> Instant(old(m.disk), m.trace[k], c, s, s')
    ensures Ready(m.disk, c, s', pid) && CanRecover(m.disk, AUTH, AuthText(c, s'))
  {
    hide OldOrNew, CanRecover, Private, Instant, WellFormed;
    ghost var start, since := m.disk, |m.trace|;
    NamesAreDistinct(pid);
    m.AtomicWrite(AUTH, TmpName(AUTH, pid), authChunks);
    ghost var between, turn := m.disk, |m.trace|;
    forall k | since <= k < turn
      ensures Instant(start, m.trace[k], c, s, s')
    {
      FirstWriteInstant(start, m.trace[k], c, s, s', pid);
    }
    FirstWriteInstant(start, between, c, s, s', pid);
    NoTemporaryIsPrivate(between, TmpName(AUTH, pid));
    if touched {
      m.AtomicWrite(SESSIONS, TmpName(SESSIONS, pid), sessionChunks);
      NoTemporaryIsPrivate(m.disk, TmpName(SESSIONS, pid));
      forall k | turn <= k < |m.trace|
        ensures Instant(start, m.trace[k], c, s, s')
      {
        SecondWriteInstant(start, between, m.trace[k], c, s, s', pid);
      }
      SecondWriteInstant(start, between, m.disk, c, s, s', pid);
    }
  }

  lemma NoTemporaryIsPrivate(d: Disk, tmp: string)
    requires tmp !in d.entry
    ensures Private(d, tmp)
  {
  }

  // ---------------------------------------------------------------- whom the next process lets in

  /** A session that the deletion of `op` is to end. */
  ghost predicate Doomed(s: AuthState, op: Op, token: nat) {
    && op.OpDelete? && ChangeOf(s, op).Remove?
    && token in s.sessions && s.sessions[token].username == Normalize(op.name)
  }

  predicate Unexpired(session: Session, boot: int, now: int) {
    boot < session.expiry && now <= session.expiry
  }

  lemma VersionsDiffer(c: Codec, s: AuthState, op: Op)
    requires Faithful(c) && op.OpDelete? && ChangeOf(s, op).Remove?
    ensures AuthText(c, s) != AuthText(c, Step(s, op))
    ensures c.parseUsers(AuthText(c, s).value) == s.users
    ensures c.parseUsers(AuthText(c, Step(s, op)).value) == s.users - {Normalize(op.name)}
    ensures c.parseSessions(SessionsText(c, s).value) == s.sessions
    ensures c.parseSessions(SessionsText(c, Step(s, op)).value) == DropSessionsOf(s.sessions, Normalize(op.name), None)
  {
    assert Normalize(op.name) in s.users;
  }

  /** Each file holds its old or its new version: a token of the deleted user is accepted
      exactly when both are the old ones. */
  lemma EitherVersionDecides(c: Codec, s: AuthState, op: Op, auth: Option<string>, sessions: Option<string>,
                             token: nat, boot: int, now: int)
    requires Faithful(c) && Doomed(s, op, token)
    requires auth == AuthText(c, s) || auth == AuthText(c, Step(s, op))
    requires sessions == SessionsText(c, s) || sessions == SessionsText(c, Step(s, op))
    ensures TokenUser(Restarted(c, s, auth, sessions, boot), Some(token), now).Some?
            <==> auth == AuthText(c, s) && sessions == SessionsText(c, s) && Unexpired(s.sessions[token], boot, now)
  {
    VersionsDiffer(c, s, op);
  }

  /** After a power loss at any instant, whatever versions of the two files come back: the token is
      accepted exactly when sessions.json is a version from before that has its session, unexpired,
      and auth.json is a version from before that has the session's user name, or the new one and
      the user name is another one, which the session bore in that version and somebody has now. */
  lemma AfterPowerLoss(start: Disk, d: Disk, c: Codec, s: AuthState, op: Op, auth: Option<string>, sessions: Option<string>,
                       token: nat, boot: int, now: int)
    requires Faithful(c) && Doomed(s, op, token) && Instant(start, d, c, s, Step(s, op))
    requires CanRecover(d, AUTH, auth) && CanRecover(d, SESSIONS, sessions)
    ensures TokenUser(Restarted(c, s, auth, sessions, boot), Some(token), now).Some?
            <==> && CanRecover(start, SESSIONS, sessions) && sessions != SessionsText(c, Step(s, op))
                 && token in SavedSessions(c, sessions) && Unexpired(SavedSessions(c, sessions)[token], boot, now)
                 && NamedIn(start, c, s, op, auth, SavedSessions(c, sessions)[token].username)
  {
    hide Step, CanRecover;
    VersionsDiffer(c, s, op);
  }

  /** The version of auth.json has the name: an older version, or the new one and another name. */
  ghost predicate NamedIn(start: Disk, c: Codec, s: AuthState, op: Op, auth: Option<string>, name: string)
    requires op.OpDelete?
  {
    if auth == AuthText(c, Step(s, op)) then name in s.users && name != Normalize(op.name)
    else CanRecover(start, AUTH, auth) && name in UsersOf(c, auth)
  }

  /** So once the user table is written, a power loss can let the token in exactly when some older
      version of sessions.json has its session, unexpired, under a name that another user has, or
      that some older version of auth.json has. */
  lemma PowerLossAdmitsExactlyWhen(start: Disk, d: Disk, c: Codec, s: AuthState, op: Op, token: nat, boot: int, now: int)
    requires Faithful(c) && Doomed(s, op, token) && Instant(start, d, c, s, Step(s, op))
    requires CanRecover(d, AUTH, AuthText(c, Step(s, op)))
    ensures (exists auth, sessions :: CanRecover(d, AUTH, auth) && CanRecover(d, SESSIONS, sessions)
               && TokenUser(Restarted(c, s, auth, sessions, boot), Some(token), now).Some?)
            <==> exists auth, sessions ::
                   && CanRecover(start, SESSIONS, sessions) && sessions != SessionsText(c, Step(s, op))
                   && token in SavedSessions(c, sessions) && Unexpired(SavedSessions(c, sessions)[token], boot, now)
                   && NamedIn(start, c, s, op, auth, SavedSessions(c, sessions)[token].username)
  {
    hide Step, CanRecover, Restarted, TokenUser;
    if auth, sessions :| CanRecover(d, AUTH, auth) && CanRecover(d, SESSIONS, sessions)
                         && TokenUser(Restarted(c, s, auth, sessions, boot), Some(token), now).Some? {
      AfterPowerLoss(start, d, c, s, op, auth, sessions, token, boot, now);
    }
    if auth, sessions :| && CanRecover(start, SESSIONS, sessions) && sessions != SessionsText(c, Step(s, op))
                         && token in SavedSessions(c, sessions) && Unexpired(SavedSessions(c, sessions)[token], boot, now)
                         && NamedIn(start, c, s, op, auth, SavedSessions(c, sessions)[token].username) {
      assert CanRecover(d, AUTH, auth) && CanRecover(d, SESSIONS, sessions);
      AfterPowerLoss(start, d, c, s, op, auth, sessions, token, boot, now);
    }
  }

  /** If nothing older than the last versions can come back, that is exactly when both files are the
      old ones. */
  lemma AfterFirstPowerLoss(start: Disk, d: Disk, c: Codec, s: AuthState, op: Op, auth: Option<string>, sessions: Option<string>,
                            token: nat, boot: int, now: int)
    requires Faithful(c) && Doomed(s, op, token) && Instant(start, d, c, s, Step(s, op))
    requires forall found :: CanRecover(start, AUTH, found) ==> found == AuthText(c, s)
    requires forall found :: CanRecover(start, SESSIONS, found) ==> found == SessionsText(c, s)
    requires CanRecover(d, AUTH, auth) && CanRecover(d, SESSIONS, sessions)
    ensures TokenUser(Restarted(c, s, auth, sessions, boot), Some(token), now).Some?
            <==> auth == AuthText(c, s) && sessions == SessionsText(c, s) && Unexpired(s.sessions[token], boot, now)
  {
    hide CanRecover, Step;
    EitherVersionDecides(c, s, op, auth, sessions, token, boot, now);
  }

  /** After a kill at any instant, whatever a power loss could bring back, the token is accepted
      exactly when the new auth.json had not been swapped in yet: whether sessions.json was written
      makes no difference. */
  lemma AfterKill(d: Disk, c: Codec, s: AuthState, op: Op, token: nat, boot: int, now: int)
    requires Faithful(c) && Doomed(s, op, token) && Alive(d, c, s, Step(s, op))
    ensures TokenUser(Restarted(c, s, Read(d, AUTH), Read(d, SESSIONS), boot), Some(token), now).Some?
            <==> Read(d, AUTH) == AuthText(c, s) && Unexpired(s.sessions[token], boot, now)
  {
    EitherVersionDecides(c, s, op, Read(d, AUTH), Read(d, SESSIONS), token, boot, now);
    VersionsDiffer(c, s, op);
  }

  /** Nobody else is logged out by the crash. */
  lemma OthersKeepTheirSessions(c: Codec, s: AuthState, op: Op, auth: Option<string>, sessions: Option<string>,
                                token: nat, boot: int, now: int)
    requires Faithful(c) && Inv(s) && op.OpDelete? && ChangeOf(s, op).Remove?
    requires auth == AuthText(c, s) || auth == AuthText(c, Step(s, op))
    requires sessions == SessionsText(c, s) || sessions == SessionsText(c, Step(s, op))
    requires token in s.sessions && s.sessions[token].username != Normalize(op.name)
    ensures TokenUser(Restarted(c, s, auth, sessions, boot), Some(token), now)
            == if Unexpired(s.sessions[token], boot, now) then Some(s.sessions[token].username) else None
  {
    VersionsDiffer(c, s, op);
    assert SessionBound(s, token);
  }

  /** The session left behind by a crash between the two renames is not forgotten: the next
      account created under the same name takes it over, unless sessions.json made it. */
  lemma OrphanIsAdoptedExactlyWhen(c: Codec, s: AuthState, op: Op, sessions: Option<string>, token: nat,
                                   rawName: string, isAdmin: bool, boot: int, now: int)
    requires Faithful(c) && Inv(s) && Doomed(s, op, token) && Normalize(rawName) == Normalize(op.name)
    requires sessions == SessionsText(c, s) || sessions == SessionsText(c, Step(s, op))
    ensures var next := Restarted(c, s, AuthText(c, Step(s, op)), sessions, boot);
            var later := Step(next, OpCreate(rawName, isAdmin, boot));
            TokenUser(later, Some(token), now) == Some(Normalize(op.name))
            <==> sessions == SessionsText(c, s) && Unexpired(s.sessions[token], boot, now)
  {
    VersionsDiffer(c, s, op);
    var next := Restarted(c, s, AuthText(c, Step(s, op)), sessions, boot);
    assert Usable(Normalize(rawName)) && Normalize(rawName) !in next.users;
    assert Step(next, OpCreate(rawName, isAdmin, boot)).sessions == next.sessions;
  }

  // ---------------------------------------------------------------- a crash during a rename

  lemma RenamedVersionsDiffer(c: Codec, s: AuthState, op: Op, token: nat)
    requires Faithful(c) && op.OpRename? && ChangeOf(s, op).Move?
    requires token in s.sessions && s.sessions[token].username == Normalize(op.name)
    ensures var from, to := Normalize(op.name), Normalize(op.newName);
            && from in s.users && to !in s.users
            && c.parseUsers(AuthText(c, s).value) == s.users && c.parseSessions(SessionsText(c, s).value) == s.sessions
            && c.parseUsers(AuthText(c, Step(s, op)).value) == (s.users - {from})[to := s.users[from]]
            && c.parseSessions(SessionsText(c, Step(s, op)).value) == RenameSessions(s.sessions, from, to)
            && AuthText(c, s) != AuthText(c, Step(s, op))
            && SessionsText(c, s) != SessionsText(c, Step(s, op))
  {
    hide Normalize, Usable, IsAdmin;
    var from, to := Normalize(op.name), Normalize(op.newName);
    assert ChangeOf(s, op) == Move(from, to);
    assert from !in Step(s, op).users;
    NormalizeIdempotent(op.name);
    assert Step(s, op).sessions[token].username == to;
  }

  /** A crash, or a power loss, between the two files of a rename: a token of that user is
      accepted under the old name exactly when both files are old, under the new name exactly
      when both are new, and refused in between. */
  lemma AfterInterruptedRename(c: Codec, s: AuthState, op: Op, auth: Option<string>, sessions: Option<string>,
                               token: nat, boot: int, now: int)
    requires Faithful(c) && op.OpRename? && ChangeOf(s, op).Move?
    requires token in s.sessions && s.sessions[token].username == Normalize(op.name)
    requires auth == AuthText(c, s) || auth == AuthText(c, Step(s, op))
    requires sessions == SessionsText(c, s) || sessions == SessionsText(c, Step(s, op))
    ensures TokenUser(Restarted(c, s, auth, sessions, boot), Some(token), now)
            == if !Unexpired(s.sessions[token], boot, now) then None
               else if auth == AuthText(c, s) && sessions == SessionsText(c, s) then Some(Normalize(op.name))
               else if auth == AuthText(c, Step(s, op)) && sessions == SessionsText(c, Step(s, op)) then Some(Normalize(op.newName))
               else None
  {
    hide Step, ChangeOf, Normalize;
    RenamedVersionsDiffer(c, s, op, token);
    NormalizeIdempotent(op.name);
  }

  /** If only auth.json made it, the session still bears the old name, and a new account of
      that name takes it over until it expires. */
  lemma InterruptedRenameIsAdopted(c: Codec, s: AuthState, op: Op, token: nat, rawName: string, isAdmin: bool, boot: int, now: int)
    requires Faithful(c) && Inv(s) && op.OpRename? && ChangeOf(s, op).Move? && Normalize(rawName) == Normalize(op.name)
    requires token in s.sessions && s.sessions[token].username == Normalize(op.name)
    ensures var next := Restarted(c, s, AuthText(c, Step(s, op)), SessionsText(c, s), boot);
            TokenUser(Step(next, OpCreate(rawName, isAdmin, boot)), Some(token), now) == Some(Normalize(op.name))
            <==> Unexpired(s.sessions[token], boot, now)
  {
    hide Normalize, IsAdmin;
    RenamedVersionsDiffer(c, s, op, token);
    var next := Restarted(c, s, AuthText(c, Step(s, op)), SessionsText(c, s), boot);
    assert Usable(Normalize(rawName)) && Normalize(rawName) !in next.users;
    assert Step(next, OpCreate(rawName, isAdmin, boot)).sessions == next.sessions;
  }
}
