/** The auth manager as the program writes it: tables updated in place, loops over the
    session table, and a save after every change. Each method is proved to perform the
    step of Accounts.dfy that bears its name, so the run theorems apply to it. */
module AuthManagers {
  import opened Common
  import opened Privileges
  import opened PyText
  import opened Accounts

  class AuthManager {
    var users: Users
    var sessions: map<nat, Session>
    // What auth.json and sessions.json hold after the last successful save.
    var usersFile: Users
    var sessionsFile: map<nat, Session>
    // The next account identity and the next token of the random generator.
    var nextAccount: nat
    var nextToken: nat
    ghost var issued: seq<nat>

    ghost predicate Valid()
      reads this
    {
      && nextToken == |issued|
      && usersFile == users
      && sessionsFile == sessions
      && (forall n :: n in users ==> users[n].account < nextAccount)
    }

    ghost function State(): AuthState
      reads this
    {
      AuthState(users, sessions, nextAccount, issued)
    }

    constructor ()
      ensures Valid() && State() == INITIAL
    {
      users, sessions, usersFile, sessionsFile := map[], map[], map[], map[];
      nextAccount, nextToken, issued := 0, 0, [];
    }

    method Save()
      modifies this`usersFile
      ensures usersFile == users
    {
      usersFile := users;
    }

    method SaveSessions()
      modifies this`sessionsFile
      ensures sessionsFile == sessions
    {
      sessionsFile := sessions;
    }

    method NewAccount() returns (account: nat)
      modifies this`nextAccount
      ensures account == old(nextAccount) && nextAccount == account + 1
    {
      account := nextAccount;
      nextAccount := nextAccount + 1;
    }

    method CreateUser(rawName: string, isAdmin: bool, now: int) returns (ok: bool)
      requires Valid()
      modifies this
      ensures Valid() && State() == Step(old(State()), OpCreate(rawName, isAdmin, now))
      ensures ok == ChangeOf(old(State()), OpCreate(rawName, isAdmin, now)).Put?
    {
      var name := Normalize(rawName);
      if name == "" || name in RESERVED_USERNAMES {
        return false;
      }
      if name in users {
        return false;
      }
      var account := NewAccount();
      users := users[name := Row(account, now, isAdmin, StartingPrivileges(isAdmin), None, Native)];
      Save();
      ok := true;
    }

    method Setup(rawName: string, now: int) returns (ok: bool)
      requires Valid()
      modifies this
      ensures Valid() && State() == Step(old(State()), OpSetup(rawName, now))
      ensures ok == ChangeOf(old(State()), OpSetup(rawName, now)).Put?
    {
      if |users| > 0 {
        return false;
      }
      ok := CreateUser(rawName, true, now);
    }

    /** Pop the listed tokens, one at a time. */
    method PopAll(tokens: set<nat>) returns (popped: nat)
      requires tokens <= sessions.Keys
      modifies this`sessions
      ensures sessions == old(sessions) - tokens && popped == |tokens|
    {
      var left := tokens;
      popped := 0;
      while left != {}
        invariant left <= tokens
        invariant sessions == old(sessions) - (tokens - left)
        invariant popped + |left| == |tokens|
        decreases left
      {
        var t :| t in left;
        assert tokens - (left - {t}) == (tokens - left) + {t};
        sessions := sessions - {t};
        popped := popped + 1;
        left := left - {t};
      }
      assert tokens - left == tokens;
    }

    /** Pop every session of `name` except `keep`. */
    method PopSessionsOf(name: string, keep: Option<nat>) returns (revoked: nat)
      modifies this`sessions
      ensures sessions == DropSessionsOf(old(sessions), name, keep)
      ensures revoked == |TokensOf(old(sessions), name, keep)|
      ensures revoked == 0 ==> sessions == old(sessions)
    {
      revoked := PopAll(TokensOf(sessions, name, keep));
    }

    method DeleteUser(rawName: string, requester: string, storeUp: bool) returns (ok: bool)
      requires Valid()
      modifies this
      ensures Valid() && State() == Step(old(State()), OpDelete(rawName, requester, storeUp))
      ensures ok == ChangeOf(old(State()), OpDelete(rawName, requester, storeUp)).Remove?
    {
      var name := Normalize(rawName);
      if name !in users || name == requester || !IsAdmin(users, requester) {
        return false;
      }
      if !storeUp {
        return false;
      }
      users := users - {name};
      Save();
      var revoked := PopSessionsOf(name, None);
      if revoked > 0 {
        SaveSessions();
      }
      ok := true;
    }

    method RenameUser(rawOld: string, rawNew: string, rawRequester: string) returns (ok: bool)
      requires Valid()
      modifies this
      ensures Valid() && State() == Step(old(State()), OpRename(rawOld, rawNew, rawRequester))
      ensures ok == ChangeOf(old(State()), OpRename(rawOld, rawNew, rawRequester)).Move?
    {
      hide Normalize, IsAdmin, RenameSessions;
      var from, to := Normalize(rawOld), Normalize(rawNew);
      if from == "" || to == "" || to in RESERVED_USERNAMES {
        return false;
      }
      if from !in users || to in users || !IsAdmin(users, Normalize(rawRequester)) {
        return false;
      }
      var row := users[from];
      users := users - {from};
      users := users[to := row];
      Save();
      var renamed := FollowRename(from, to);
      if renamed > 0 {
        SaveSessions();
      }
      ok := true;
    }

    /** Point every session of `from` at `to`. */
    method FollowRename(from: string, to: string) returns (renamed: nat)
      modifies this`sessions
      ensures sessions == RenameSessions(old(sessions), from, to)
      ensures renamed == 0 ==> sessions == old(sessions)
    {
      var left := sessions.Keys;
      renamed := 0;
      while left != {}
        invariant left <= old(sessions).Keys == sessions.Keys
        invariant forall t :: t in sessions ==>
          sessions[t] == if t in left then old(sessions)[t] else RenamedSession(old(sessions)[t], from, to)
        invariant renamed == 0 ==> sessions == old(sessions)
        decreases left
      {
        var t :| t in left;
        if Normalize(sessions[t].username) == from {
          sessions := sessions[t := sessions[t].(username := to)];
          renamed := renamed + 1;
        }
        left := left - {t};
      }
    }

    static lemma OverlayStep(start: PrivMap, known: PrivMap, left: set<Key>, k: Key)
      requires k in left
      ensures start + (known - (left - {k}))
              == if k in known then (start + (known - left))[k := known[k]] else start + (known - left)
    {
    }

    /** Copy the known keys of `updates` over `start`. */
    method Overlay(start: PrivMap, updates: PrivMap) returns (current: PrivMap)
      ensures current == start + KnownUpdates(updates)
    {
      current := start;
      var left := updates.Keys;
      ghost var known := KnownUpdates(updates);
      while left != {}
        invariant left <= updates.Keys
        invariant current == start + (known - left)
        decreases left
      {
        var k :| k in left;
        OverlayStep(start, known, left, k);
        if k in DEFAULT_PRIVILEGES {
          current := current[k := updates[k]];
        }
        left := left - {k};
      }
    }

    method SetPrivileges(rawName: string, updates: PrivMap) returns (ok: bool)
      requires Valid()
      modifies this
      ensures Valid() && State() == Step(old(State()), OpSetPrivileges(rawName, updates))
      ensures ok == ChangeOf(old(State()), OpSetPrivileges(rawName, updates)).Put?
    {
      var name := Normalize(rawName);
      if name !in users || users[name].isAdmin {
        return false;
      }
      var current := Overlay(GetPrivileges(users, name), updates);
      users := users[name := users[name].(privileges := current)];
      Save();
      ok := true;
    }

    /** The flag, the stash and the map are written in the order that lock-free readers need;
        AuthInterleaving.dfy is about what they see in between. */
    method SetAdmin(rawName: string, flag: bool, rawRequester: string) returns (r: SetAdminResult)
      requires Valid()
      modifies this
      ensures Valid() && State() == Step(old(State()), OpSetAdmin(rawName, flag, rawRequester))
      ensures r == SetAdminVerdict(old(State()), rawName, flag, rawRequester)
    {
      var name := Normalize(rawName);
      if name !in users {
        return UserNotFound;
      }
      if !IsAdmin(users, Normalize(rawRequester)) {
        return NotAuthorized;
      }
      var target := users[name];
      if target.isAdmin == flag {
        return Ok;
      }
      if target.isAdmin && |AdminNames(users)| <= 1 {
        return LastAdmin;
      }
      if flag {
        target := target.(isAdmin := true);
        target := target.(stash := Some(OrDefaults(target.privileges)));
        target := target.(privileges := AdminPrivileges());
      } else {
        var stashed := target.stash.GetOr(map[]);
        target := target.(stash := None);
        target := target.(privileges := OrDefaults(stashed));
        target := target.(isAdmin := false);
      }
      users := users[name := target];
      Save();
      r := Ok;
    }

    method EnsureFiiSsoUser(rawName: string, role: string, now: int) returns (ok: bool)
      requires Valid()
      modifies this
      ensures Valid() && State() == Step(old(State()), OpSso(rawName, role, now))
      ensures ok == ChangeOf(old(State()), OpSso(rawName, role, now)).Put?
    {
      hide Normalize, StartingPrivileges;
      var name := Normalize(rawName);
      if !Usable(name) || role !in {"ADMIN", "ENGINEER", "GUEST"} {
        return false;
      }
      var isAdmin := role == "ADMIN";
      if name in users {
        var existing := users[name];
        if existing.source != FiiSso {
          return false;
        }
        var shadow := Row(existing.account, existing.created, isAdmin, StartingPrivileges(isAdmin), None, FiiSso);
        if existing == shadow {
          assert users[name := shadow] == users;
          return true;
        }
        users := users[name := shadow];
      } else {
        var account := NewAccount();
        users := users[name := Row(account, now, isAdmin, StartingPrivileges(isAdmin), None, FiiSso)];
      }
      Save();
      ok := true;
    }

    method CreateSessionTrusted(rawName: string, now: int) returns (token: Option<nat>)
      requires Valid()
      modifies this
      ensures Valid() && State() == Step(old(State()), OpIssue(rawName, now))
      ensures token == if Normalize(rawName) in old(users) then Some(old(nextToken)) else None
    {
      var name := Normalize(rawName);
      if name !in users {
        return None;
      }
      token := Some(nextToken);
      sessions := sessions[nextToken := Session(name, now + TOKEN_TTL)];
      issued := issued + [users[name].account];
      nextToken := nextToken + 1;
      SaveSessions();
    }

    method GetUsernameForToken(token: Option<nat>, now: int) returns (name: Option<string>)
      requires Valid()
      modifies this
      ensures Valid() && State() == Step(old(State()), OpUse(token, now))
      ensures name == TokenUser(old(State()), token, now)
    {
      hide CreateChange, DeleteChange, RenameChange, PrivilegesChange, SetAdminChange, SsoChange, Normalize;
      if token.None? {
        return None;
      }
      if token.value !in sessions {
        assert sessions - {token.value} == sessions;
        return None;
      }
      var session := sessions[token.value];
      if now > session.expiry || session.username !in users {
        sessions := sessions - {token.value};
        SaveSessions();
        return None;
      }
      name := Some(session.username);
    }

    method ValidateToken(token: Option<nat>, now: int) returns (ok: bool)
      requires Valid()
      modifies this
      ensures Valid() && State() == Step(old(State()), OpUse(token, now))
      ensures ok == TokenUser(old(State()), token, now).Some?
    {
      var name := GetUsernameForToken(token, now);
      ok := name.Some?;
    }

    method RevokeToken(token: nat)
      requires Valid()
      modifies this
      ensures Valid() && State() == Step(old(State()), OpRevoke(token))
    {
      sessions := sessions - {token};
      SaveSessions();
    }

    method RevokeUserSessions(rawName: string, keep: Option<nat>) returns (revoked: nat)
      requires Valid()
      modifies this
      ensures Valid() && State() == Step(old(State()), OpRevokeAll(rawName, keep))
      ensures revoked == |TokensOf(old(sessions), Normalize(rawName), keep)|
    {
      var name := Normalize(rawName);
      revoked := PopSessionsOf(name, keep);
      assert sessions == SessionsOf(old(State()), OpRevokeAll(rawName, keep));
      if revoked > 0 {
        SaveSessions();
      }
    }

    /** A restart: both tables come back from disk, expired sessions left out. */
    method Reload(now: int)
      requires Valid()
      modifies this
      ensures Valid() && State() == Step(old(State()), OpReload(now))
    {
      users := usersFile;
      sessions := map t | t in sessionsFile && sessionsFile[t].expiry > now :: sessionsFile[t];
      if |sessionsFile| > |sessions| {
        SaveSessions();
      } else {
        KeptAll(sessionsFile, sessions);
      }
    }

    static lemma KeptAll(before: map<nat, Session>, after: map<nat, Session>)
      requires after.Keys <= before.Keys && |before| <= |after|
      requires forall t :: t in after ==> after[t] == before[t]
      ensures after == before
    {
      assert |before.Keys - after.Keys| == |before.Keys| - |after.Keys|;
      assert before.Keys - after.Keys == {};
    }
  }
}
