/** How a token comes to be accepted for another account than its own, or comes back after it was
    dropped: each window with the sections that open it. */
module SessionWindows {
  import opened Common
  import opened PyText
  import opened Accounts
  import opened AuthTheorems
  import opened SessionRaces

  /** The row is gone and its sessions are still to be purged. */
  function Doomed(r: Racing, name: string): Racing {
    r.(s := r.s.(users := r.s.users - {name}), purging := r.purging + {name})
  }

  /** A new account bears the name. */
  function Bearing(r: Racing, name: string, row: Row): Racing {
    r.(s := r.s.(users := r.s.users[name := row], nextAccount := r.s.nextAccount + 1))
  }

  lemma DeletionSection(r: Racing, op: Op)
    requires ChangeOf(r.s, op).Remove?
    ensures op.OpDelete? && Perform(r, First(op)) == Doomed(r, Normalize(op.name))
  {
    hide Normalize, IsAdmin;
    assert ChangeOf(r.s, op) == Remove(Normalize(op.name));
  }

  function NewRow(r: Racing, isAdmin: bool, now: int): Row {
    Row(r.s.nextAccount, now, isAdmin, StartingPrivileges(isAdmin), None, Native)
  }

  lemma CreationSection(r: Racing, rawName: string, isAdmin: bool, now: int)
    requires Usable(Normalize(rawName)) && Normalize(rawName) !in r.s.users
    ensures Perform(r, First(OpCreate(rawName, isAdmin, now))) == Bearing(r, Normalize(rawName), NewRow(r, isAdmin, now))
  {
    hide Normalize, Usable;
  }

  /** A name that is created again before the purge lends itself to every unexpired token of
      the deleted account, until the purge; and the purge then ends every session of that
      name, those of the new account included. */
  lemma ReopenedNameIsReachableUntilPurge(s: AuthState, deletion: Op, rawName: string, isAdmin: bool, now: int)
    requires Inv(s) && deletion.OpDelete? && ChangeOf(s, deletion).Remove?
    requires Normalize(rawName) == Normalize(deletion.name)
    ensures var name := Normalize(rawName);
            var open := Perform(Perform(AtRest(s), First(deletion)), First(OpCreate(rawName, isAdmin, now)));
            && name in s.users && name in open.s.users && open.s.users[name].account != s.users[name].account
            && (forall t, later :: t in s.sessions && s.sessions[t].username == name ==>
                  TokenUser(open.s, Some(t), later) == if later <= s.sessions[t].expiry then Some(name) else None)
            && (forall t, later :: TokenUser(Perform(open, FinishPurge(name)).s, Some(t), later) != Some(name))
  {
    hide Normalize;
    var r, name := AtRest(s), Normalize(rawName);
    DeletionSection(r, deletion);
    assert Usable(name);
    CreationSection(Doomed(r, name), rawName, isAdmin, now);
  }

  lemma RenameSection(r: Racing, op: Op)
    requires ChangeOf(r.s, op).Move?
    ensures op.OpRename?
    ensures var from, to := Normalize(op.name), Normalize(op.newName);
            && ChangeOf(r.s, op) == Move(from, to) && from in r.s.users && to !in r.s.users && from != to && Usable(to)
            && Perform(r, First(op)) == r.(s := Commit(r.s, Move(from, to)), following := r.following[from := to])
  {
    hide Normalize, IsAdmin, Usable;
  }

  /** The sessions of a user whose rename has been overtaken by the deletion of the new name. */
  lemma OvertakenRename(s: AuthState, rename: Op, deletion: Op)
    requires Inv(s) && rename.OpRename? && deletion.OpDelete?
    requires ChangeOf(s, rename).Move? && ChangeOf(Commit(s, ChangeOf(s, rename)), deletion).Remove?
    requires Normalize(deletion.name) == Normalize(rename.newName)
    ensures var from, to := Normalize(rename.name), Normalize(rename.newName);
            var moved := Perform(Perform(AtRest(s), First(rename)), First(deletion));
            var end := Perform(Perform(moved, FinishPurge(to)), FinishFollow(from));
            && from in s.users && Usable(to) && to !in end.s.users && end.s.nextAccount == s.nextAccount
            && end.s.sessions == RenameSessions(s.sessions, from, to) && end.purging == {} && end.following == map[]
  {
    hide Normalize, Usable, TableOk, SessionsBound, ChangeOf, DropSessionsOf, RenameSessions;
    var from, to := Normalize(rename.name), Normalize(rename.newName);
    var r := AtRest(s);
    RenameSection(r, rename);
    DeletionSection(Perform(r, First(rename)), deletion);
    NobodyToPurge(s, to);
  }

  lemma NobodyToPurge(s: AuthState, name: string)
    requires Inv(s) && name !in s.users
    ensures DropSessionsOf(s.sessions, name, None) == s.sessions
  {
    hide TableOk;
    forall t | t in s.sessions
      ensures s.sessions[t].username != name
    {
      assert SessionBound(s, t);
    }
    assert TokensOf(s.sessions, name, None) == {};
  }

  /** And a window that no purge closes: a rename from a to b is followed by a deletion of b,
      and the purge runs before the sessions have followed. They then bear the name b, with
      nothing left to do, and whoever is created as b is open to them until they expire. */
  lemma OvertakenRenameLeavesSessionsForGood(s: AuthState, rename: Op, deletion: Op, rawName: string, isAdmin: bool, now: int)
    requires Inv(s) && rename.OpRename? && deletion.OpDelete?
    requires ChangeOf(s, rename).Move? && ChangeOf(Commit(s, ChangeOf(s, rename)), deletion).Remove?
    requires Normalize(deletion.name) == Normalize(rename.newName) == Normalize(rawName)
    ensures var from, to := Normalize(rename.name), Normalize(rename.newName);
            var moved := Perform(Perform(AtRest(s), First(rename)), First(deletion));
            var done := Perform(Perform(moved, FinishPurge(to)), FinishFollow(from));
            var end := Perform(done, First(OpCreate(rawName, isAdmin, now)));
            && end.purging == {} && end.following == map[]
            && from in s.users && to in end.s.users && end.s.users[to].account != s.users[from].account
            && (forall t, later :: t in s.sessions && s.sessions[t].username == from ==>
                  TokenUser(end.s, Some(t), later) == if later <= s.sessions[t].expiry then Some(to) else None)
  {
    hide IsAdmin, Usable, Perform, Normalize;
    var from, to := Normalize(rename.name), Normalize(rename.newName);
    OvertakenRename(s, rename, deletion);
    var moved := Perform(Perform(AtRest(s), First(rename)), First(deletion));
    var done := Perform(Perform(moved, FinishPurge(to)), FinishFollow(from));
    CreationSection(done, rawName, isAdmin, now);
    assert Normalize(from) == from;
  }

  // An old copy of the session table is written last.

  /** Issuing a token: it goes into the table. */
  function Issued(r: Racing, name: string, now: int): Racing
    requires name in r.s.users
  {
    r.(s := r.s.(sessions := r.s.sessions[|r.s.issued| := Session(name, now + TOKEN_TTL)],
                 issued := r.s.issued + [r.s.users[name].account]))
  }

  lemma IssueSection(r: Racing, rawName: string, now: int)
    requires Normalize(rawName) in r.s.users
    ensures Perform(r, First(OpIssue(rawName, now))) == Issued(r, Normalize(rawName), now)
  {
    hide Normalize;
  }

  /** Somebody logs in and takes his copy for the file; a user is deleted, purged and saved; and
      then the copy of the login is written. */
  function LoginOvertaken(s: AuthState, login: string, at: int, deletion: Op): Racing
    requires deletion.OpDelete?
  {
    var copied := Perform(Perform(AtRest(s), First(OpIssue(login, at))), Snapshot(0));
    var purged := Perform(Perform(copied, First(deletion)), FinishPurge(Normalize(deletion.name)));
    Perform(Perform(Perform(purged, Snapshot(1)), Write(1, true)), Write(0, true))
  }

  lemma LoginOvertakenShape(s: AuthState, login: string, at: int, deletion: Op)
    requires Inv(s) && Normalize(login) in s.users && deletion.OpDelete? && ChangeOf(s, deletion).Remove?
    ensures var r, name := LoginOvertaken(s, login, at, deletion), Normalize(deletion.name);
            && name in s.users && r.s.users == s.users - {name} && r.s.nextAccount == s.nextAccount
            && r.file == s.sessions[|s.issued| := Session(Normalize(login), at + TOKEN_TTL)]
            && r.s.sessions == DropSessionsOf(r.file, name, None)
  {
    hide Normalize, IsAdmin, TableOk, SessionsBound;
    var r0 := AtRest(s);
    IssueSection(r0, login, at);
    var copied := Perform(Perform(r0, First(OpIssue(login, at))), Snapshot(0));
    assert ChangeOf(copied.s, deletion) == ChangeOf(s, deletion);
    DeletionSection(copied, deletion);
  }

  lemma NamesAreUsable(s: AuthState, name: string)
    requires TableOk(s) && name in s.users
    ensures Usable(name)
  {
  }

  lemma AccountsAreBelow(s: AuthState, name: string)
    requires TableOk(s) && name in s.users
    ensures s.users[name].account < s.nextAccount
  {
  }

  /** So a restart brings back sessions that were dropped and whose dropping was saved: the token
      of the deleted account is accepted again for whoever is created under its name. */
  lemma StaleSaveRevivesPurgedToken(s: AuthState, login: string, at: int, deletion: Op, boot: int,
                                    rawName: string, isAdmin: bool, now: int, t: nat, later: int)
    requires Inv(s) && Normalize(login) in s.users && deletion.OpDelete? && ChangeOf(s, deletion).Remove?
    requires Normalize(rawName) == Normalize(deletion.name)
    requires t in s.sessions && s.sessions[t].username == Normalize(deletion.name)
    ensures var name, r := Normalize(deletion.name), LoginOvertaken(s, login, at, deletion);
            var end := Perform(Perform(r, First(OpReload(boot))), First(OpCreate(rawName, isAdmin, now)));
            && t !in r.s.sessions
            && name in s.users && name in end.s.users && end.s.users[name].account != s.users[name].account
            && TokenUser(end.s, Some(t), later)
               == if boot < s.sessions[t].expiry && later <= s.sessions[t].expiry then Some(name) else None
  {
    hide Normalize, Usable, LoginOvertaken, TableOk;
    var name, r := Normalize(deletion.name), LoginOvertaken(s, login, at, deletion);
    LoginOvertakenShape(s, login, at, deletion);
    assert SessionBound(s, t);
    NamesAreUsable(s, name);
    var booted := Perform(r, First(OpReload(boot)));
    assert booted == Restarted(r, boot);
    CreationSection(booted, rawName, isAdmin, now);
    assert s.users[name].account < s.nextAccount by { AccountsAreBelow(s, name); }
  }
}
