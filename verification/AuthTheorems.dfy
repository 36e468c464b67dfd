/** What the account operations keep over every run. */
module AuthTheorems {
  import opened Common
  import opened Privileges
  import opened PyText
  import opened Accounts

  // ---------------------------------------------------------------- the invariant

  ghost predicate NamesOk(users: Users) {
    forall n :: n in users ==> Normalize(n) == n && Usable(n)
  }

  /** No two names carry the same account, and account numbers are never reused. */
  ghost predicate AccountsDistinct(s: AuthState) {
    && (forall n :: n in s.users ==> s.users[n].account < s.nextAccount)
    && (forall n, m :: n in s.users && m in s.users && s.users[n].account == s.users[m].account ==> n == m)
  }

  /** A live session names an existing row, and it is the row of the account that its
      token was issued for. */
  ghost predicate SessionBound(s: AuthState, token: nat)
    requires token in s.sessions
  {
    var name := s.sessions[token].username;
    && token < |s.issued|
    && name in s.users
    && s.users[name].account == s.issued[token]
  }

  ghost predicate SessionsBound(s: AuthState) {
    && (forall t :: t in s.sessions ==> SessionBound(s, t))
    && (forall t :: 0 <= t < |s.issued| ==> s.issued[t] < s.nextAccount)
  }

  ghost predicate StashOnlyWhileAdmin(users: Users) {
    forall n :: n in users && users[n].stash.Some? ==> users[n].isAdmin
  }

  ghost predicate TableOk(s: AuthState) {
    NamesOk(s.users) && AccountsDistinct(s) && StashOnlyWhileAdmin(s.users)
  }

  ghost predicate Inv(s: AuthState) {
    TableOk(s) && SessionsBound(s)
  }

  /** The changes that the operations decide on. */
  ghost predicate Allowed(s: AuthState, c: Change) {
    match c
    case Keep => true
    case Put(name, row) =>
      && Normalize(name) == name && Usable(name)
      && row.account == (if name in s.users then s.users[name].account else s.nextAccount)
      && (row.stash.Some? ==> row.isAdmin)
    case Remove(name) => name in s.users
    case Move(from, to) => from in s.users && to !in s.users && Normalize(to) == to && Usable(to)
  }

  lemma ChangeIsAllowed(s: AuthState, op: Op)
    requires TableOk(s)
    ensures Allowed(s, ChangeOf(s, op))
  {
    hide Normalize, IsAdmin;
    match op
    case OpCreate(n, _, _) => NormalizeIdempotent(n);
    case OpSetup(n, _) => NormalizeIdempotent(n);
    case OpRename(_, m, _) => NormalizeIdempotent(m);
    case OpSso(n, _, _) => NormalizeIdempotent(n);
    case _ =>
  }

  lemma CommitKeepsTableOk(s: AuthState, c: Change)
    requires TableOk(s) && Allowed(s, c)
    ensures TableOk(Commit(s, c))
  {
    hide Normalize, Usable;
  }

  lemma NamesAreNormal(s: AuthState, name: string)
    requires TableOk(s) && name in s.users
    ensures Normalize(name) == name
  {
  }

  /** Only a deletion removes a row, and only a rename moves one. */
  lemma ChangeKinds(s: AuthState, op: Op)
    ensures ChangeOf(s, op).Remove? ==> op.OpDelete? && ChangeOf(s, op).name == Normalize(op.name)
    ensures ChangeOf(s, op).Move? ==>
              op.OpRename? && ChangeOf(s, op).from == Normalize(op.name) && ChangeOf(s, op).to == Normalize(op.newName)
  {
    hide Normalize, IsAdmin, Usable, GetPrivileges;
  }

  /** A session that outlives a step follows the rename of its user and is gone with a
      deleted one. */
  lemma SessionFollowsUser(s: AuthState, op: Op, t: nat)
    requires Inv(s) && t in s.sessions && t in SessionsOf(s, op)
    ensures var c := ChangeOf(s, op);
            var before, after := s.sessions[t].username, SessionsOf(s, op)[t].username;
            && after == (if c.Move? && before == c.from then c.to else before)
            && !(c.Remove? && before == c.name)
  {
    hide TableOk, ChangeOf, Normalize;
    ChangeKinds(s, op);
    assert SessionBound(s, t);
    assert Normalize(s.sessions[t].username) == s.sessions[t].username by {
      NamesAreNormal(s, s.sessions[t].username);
    }
  }

  /** Where the row of a name is found after a change, unless the change removed it. */
  lemma RowFollowsChange(s: AuthState, c: Change, name: string)
    requires Allowed(s, c) && name in s.users && !(c.Remove? && name == c.name)
    ensures var after := if c.Move? && name == c.from then c.to else name;
            after in Apply(s.users, c) && Apply(s.users, c)[after].account == s.users[name].account
  {
  }

  lemma NewSessionIsBound(s: AuthState, op: Op, t: nat)
    requires Inv(s) && t !in s.sessions && t in SessionsOf(s, op)
    ensures SessionBound(Step(s, op), t)
  {
  }

  lemma StepKeepsBinding(s: AuthState, op: Op, t: nat)
    requires Inv(s) && t in SessionsOf(s, op)
    ensures SessionBound(Step(s, op), t)
  {
    hide TableOk, Normalize, ChangeOf, Allowed;
    if t in s.sessions {
      assert SessionBound(s, t);
      ChangeIsAllowed(s, op);
      SessionFollowsUser(s, op, t);
      RowFollowsChange(s, ChangeOf(s, op), s.sessions[t].username);
    } else {
      NewSessionIsBound(s, op, t);
    }
  }

  lemma StepKeepsTableOk(s: AuthState, op: Op)
    requires TableOk(s)
    ensures TableOk(Step(s, op))
  {
    ChangeIsAllowed(s, op);
    CommitKeepsTableOk(s, ChangeOf(s, op));
  }

  lemma StepKeepsIssuedBelow(s: AuthState, op: Op, t: nat)
    requires Inv(s) && t < |IssuedOf(s, op)|
    ensures IssuedOf(s, op)[t] < Commit(s, ChangeOf(s, op)).nextAccount
  {
  }

  lemma StepKeepsSessionsBound(s: AuthState, op: Op)
    requires Inv(s)
    ensures SessionsBound(Step(s, op))
  {
    var s' := Step(s, op);
    forall t | t in s'.sessions
      ensures SessionBound(s', t)
    {
      StepKeepsBinding(s, op, t);
    }
    forall t | 0 <= t < |s'.issued|
      ensures s'.issued[t] < s'.nextAccount
    {
      StepKeepsIssuedBelow(s, op, t);
    }
  }

  lemma StepKeepsInv(s: AuthState, op: Op)
    requires Inv(s)
    ensures Inv(Step(s, op))
  {
    StepKeepsTableOk(s, op);
    StepKeepsSessionsBound(s, op);
  }

  lemma {:induction false} RunKeepsInv(s: AuthState, ops: seq<Op>)
    requires Inv(s)
    ensures Inv(Run(s, ops))
    decreases |ops|
  {
    if ops != [] {
      StepKeepsInv(s, ops[0]);
      RunKeepsInv(Step(s, ops[0]), ops[1..]);
    }
  }

  // ---------------------------------------------------------------- tokens and accounts

  lemma {:induction false} RunKeepsIssued(s: AuthState, ops: seq<Op>)
    ensures s.issued <= Run(s, ops).issued && s.nextAccount <= Run(s, ops).nextAccount
    decreases |ops|
  {
    if ops != [] {
      RunKeepsIssued(Step(s, ops[0]), ops[1..]);
    }
  }

  /** A token that is accepted at the end of any run names the row of the account that
      the token was issued for, whatever that account is called by then. */
  lemma ValidTokenNamesItsAccount(s: AuthState, ops: seq<Op>, token: nat, now: int)
    requires Inv(s)
    ensures var end := Run(s, ops);
            var name := TokenUser(end, Some(token), now);
            name.Some? ==>
              && token < |end.issued|
              && name.value in end.users
              && end.users[name.value].account == end.issued[token]
    ensures s.issued <= Run(s, ops).issued
  {
    RunKeepsInv(s, ops);
    RunKeepsIssued(s, ops);
    var end := Run(s, ops);
    if token in end.sessions {
      assert SessionBound(end, token);
    }
  }

  ghost predicate HasAccount(users: Users, account: nat) {
    exists n :: n in users && users[n].account == account
  }

  lemma StepNeverRevives(s: AuthState, op: Op, account: nat)
    requires TableOk(s) && account < s.nextAccount && !HasAccount(s.users, account)
    ensures !HasAccount(Step(s, op).users, account)
  {
    hide TableOk, Normalize, Usable, CreateChange, RenameChange, DeleteChange, SetAdminChange, SsoChange, PrivilegesChange;
    ChangeIsAllowed(s, op);
    var c := ChangeOf(s, op);
    var users' := Apply(s.users, c);
    forall n | n in users'
      ensures users'[n].account != account
    {
      if c.Move? && n == c.to {
        assert c.from in s.users;
      }
    }
  }

  lemma {:induction false} RunNeverRevives(s: AuthState, ops: seq<Op>, account: nat)
    requires Inv(s) && account < s.nextAccount && !HasAccount(s.users, account)
    ensures !HasAccount(Run(s, ops).users, account)
    decreases |ops|
  {
    if ops != [] {
      StepKeepsInv(s, ops[0]);
      StepNeverRevives(s, ops[0], account);
      RunNeverRevives(Step(s, ops[0]), ops[1..], account);
    }
  }

  /** An account that is gone: no token issued for it is ever accepted again. */
  lemma GoneAccountNeverAuthenticates(s: AuthState, account: nat, ops: seq<Op>, token: nat, now: int)
    requires Inv(s) && account < s.nextAccount && !HasAccount(s.users, account)
    ensures var end := Run(s, ops);
            token < |end.issued| && end.issued[token] == account ==> TokenUser(end, Some(token), now).None?
  {
    RunNeverRevives(s, ops, account);
    ValidTokenNamesItsAccount(s, ops, token, now);
  }

  /** So once an account is deleted no token of it is ever accepted, whatever happens later,
      creating an account of the same name included. */
  lemma DeletedAccountNeverAuthenticates(s: AuthState, deletion: Op, ops: seq<Op>, token: nat, now: int)
    requires Inv(s) && deletion.OpDelete? && ChangeOf(s, deletion).Remove?
    ensures var account := s.users[Normalize(deletion.name)].account;
            var end := Run(Step(s, deletion), ops);
            token < |end.issued| && end.issued[token] == account ==>
              TokenUser(end, Some(token), now).None?
  {
    StepKeepsInv(s, deletion);
    var account := s.users[Normalize(deletion.name)].account;
    assert !HasAccount(Step(s, deletion).users, account);
    GoneAccountNeverAuthenticates(Step(s, deletion), account, ops, token, now);
  }

  /** The operations that end the session of `token`. */
  predicate Ends(s: AuthState, op: Op, token: nat)
    requires token in s.sessions
  {
    var session := s.sessions[token];
    match op
    case OpDelete(n, r, up) => ChangeOf(s, op).Remove? && Normalize(n) == session.username
    case OpUse(t, now) => t == Some(token) && now > session.expiry
    case OpRevoke(t) => t == token
    case OpRevokeAll(n, keep) => Normalize(n) == session.username && keep != Some(token)
    case OpReload(now) => now >= session.expiry
    case _ => false
  }

  /** A session outlives an atomic step exactly when the step is not one that ends it, and it
      keeps its expiry. Promotion and the like log nobody out; for a rename, whose two halves
      other threads may see, SessionEnds.RenameIsOutlivedExactlyWhen says when it does not. */
  lemma SessionSurvives(s: AuthState, op: Op, token: nat)
    requires Inv(s) && token in s.sessions
    ensures token in Step(s, op).sessions <==> !Ends(s, op, token)
    ensures token in Step(s, op).sessions ==>
              Step(s, op).sessions[token].expiry == s.sessions[token].expiry
  {
    hide TableOk, CreateChange, PrivilegesChange, SetAdminChange, SsoChange, Apply, Normalize;
    assert SessionBound(s, token);
  }

  /** The run contains nothing that ends the session of `token`. */
  predicate NeverEnds(s: AuthState, ops: seq<Op>, token: nat)
    decreases |ops|
  {
    && token in s.sessions
    && (ops != [] ==> !Ends(s, ops[0], token) && NeverEnds(Step(s, ops[0]), ops[1..], token))
  }

  /** The converse of safety: a session that nothing ends is accepted until it expires and
      not a second longer, over every run. */
  lemma {:induction false} SessionLivesUntilEnded(s: AuthState, ops: seq<Op>, token: nat, now: int)
    requires Inv(s) && NeverEnds(s, ops, token)
    ensures TokenUser(Run(s, ops), Some(token), now).Some? <==> now <= s.sessions[token].expiry
    decreases |ops|
  {
    if ops == [] {
      assert SessionBound(s, token);
    } else {
      SessionSurvives(s, ops[0], token);
      StepKeepsInv(s, ops[0]);
      SessionLivesUntilEnded(Step(s, ops[0]), ops[1..], token, now);
    }
  }

  /** A new token is accepted for its user for exactly the time to live. */
  lemma NewTokenLivesForItsTime(s: AuthState, name: string, issued: int, now: int)
    requires Normalize(name) in s.users
    ensures TokenUser(Step(s, OpIssue(name, issued)), Some(|s.issued|), now)
            == if now <= issued + TOKEN_TTL then Some(Normalize(name)) else None
  {
  }

  // ---------------------------------------------------------------- who may change what

  /** An administrative request by somebody who is not an admin. */
  predicate RequestOfNonAdmin(users: Users, op: Op) {
    match op
    case OpDelete(_, requester, _) => !IsAdmin(users, requester)
    case OpRename(_, _, requester) => !IsAdmin(users, Normalize(requester))
    case OpSetAdmin(_, _, requester) => !IsAdmin(users, Normalize(requester))
    case _ => false
  }

  /** However often they ask, requests of non-admins change nothing: nobody is deleted or
      renamed, nobody makes himself an admin, no session is touched. */
  lemma {:induction false} NonAdminsChangeNothing(s: AuthState, ops: seq<Op>)
    requires forall i :: 0 <= i < |ops| ==> RequestOfNonAdmin(s.users, ops[i])
    ensures Run(s, ops) == s
    decreases |ops|
  {
    if ops != [] {
      assert ChangeOf(s, ops[0]) == Keep;
      NonAdminsChangeNothing(s, ops[1..]);
    }
  }

  // ---------------------------------------------------------------- no lock-out

  /** The changes that leave some admin in place. */
  ghost predicate SparesAnAdmin(users: Users, c: Change) {
    match c
    case Keep => true
    case Put(name, row) => row.isAdmin || AdminNames(users) - {name} != {}
    case Remove(name) => AdminNames(users) - {name} != {}
    case Move(from, to) => true
  }

  lemma SparingChangeKeepsAnAdmin(s: AuthState, c: Change)
    requires Allowed(s, c) && AdminNames(s.users) != {}
    ensures AdminNames(Apply(s.users, c)) != {} <==> SparesAnAdmin(s.users, c)
  {
    var users' := Apply(s.users, c);
    var a :| a in AdminNames(s.users);
    match c
    case Keep =>
    case Put(name, row) =>
      assert AdminNames(users') == if row.isAdmin then AdminNames(s.users) + {name} else AdminNames(s.users) - {name};
    case Remove(name) =>
      assert AdminNames(users') == AdminNames(s.users) - {name};
    case Move(from, to) =>
      if a == from {
        assert to in AdminNames(users');
      } else {
        assert a in AdminNames(users');
      }
  }

  lemma SecondMember<T>(xs: set<T>, x: T)
    requires |xs| > 1
    ensures xs - {x} != {}
  {
    var rest := xs - {x};
    assert xs == rest || xs == rest + {x};
  }

  lemma DeletionSparesAnAdmin(s: AuthState, name: string, requester: string, storeUp: bool)
    ensures SparesAnAdmin(s.users, DeleteChange(s, name, requester, storeUp))
  {
    if DeleteChange(s, name, requester, storeUp).Remove? {
      assert requester in AdminNames(s.users) - {Normalize(name)};
    }
  }

  lemma SetAdminSparesAnAdmin(s: AuthState, name: string, flag: bool, requester: string)
    ensures SparesAnAdmin(s.users, SetAdminChange(s, name, flag, requester))
  {
    if |AdminNames(s.users)| > 1 {
      SecondMember(AdminNames(s.users), Normalize(name));
    }
  }

  /** Writing the row of somebody who is no admin leaves the admins alone. */
  lemma OtherRowSparesAnAdmin(users: Users, name: string, row: Row)
    requires AdminNames(users) != {} && name !in AdminNames(users)
    ensures SparesAnAdmin(users, Put(name, row))
  {
    assert AdminNames(users) - {name} == AdminNames(users);
  }

  lemma ChangeSparesAnAdmin(s: AuthState, op: Op)
    requires AdminNames(s.users) != {} && !op.OpSso?
    ensures SparesAnAdmin(s.users, ChangeOf(s, op))
  {
    var c := ChangeOf(s, op);
    if op.OpDelete? {
      DeletionSparesAnAdmin(s, op.name, op.requester, op.storeUp);
    } else if op.OpSetAdmin? {
      SetAdminSparesAnAdmin(s, op.name, op.isAdmin, op.requester);
    } else if c.Put? {
      OtherRowSparesAnAdmin(s.users, c.name, c.row);
    }
  }

  /** From a state with an admin, no run without a single-sign-on sync loses the last one. */
  lemma {:induction false} RunKeepsAnAdmin(s: AuthState, ops: seq<Op>)
    requires Inv(s) && AdminNames(s.users) != {}
    requires forall i :: 0 <= i < |ops| ==> !ops[i].OpSso?
    ensures AdminNames(Run(s, ops).users) != {}
    decreases |ops|
  {
    if ops != [] {
      ChangeIsAllowed(s, ops[0]);
      ChangeSparesAnAdmin(s, ops[0]);
      SparingChangeKeepsAnAdmin(s, ChangeOf(s, ops[0]));
      StepKeepsInv(s, ops[0]);
      RunKeepsAnAdmin(Step(s, ops[0]), ops[1..]);
    }
  }

  /** The single-sign-on sync leaves no admin exactly when it downgrades the only one. */
  lemma SsoLocksOutExactlyWhen(s: AuthState, name: string, role: string, now: int)
    requires Inv(s) && AdminNames(s.users) != {}
    ensures AdminNames(Step(s, OpSso(name, role, now)).users) == {} <==>
              && role in {"ENGINEER", "GUEST"}
              && AdminNames(s.users) == {Normalize(name)}
              && s.users[Normalize(name)].source == FiiSso
  {
    var op := OpSso(name, role, now);
    ChangeIsAllowed(s, op);
    SparingChangeKeepsAnAdmin(s, ChangeOf(s, op));
    var admins := AdminNames(s.users);
    assert admins - {Normalize(name)} == {} <==> admins == {Normalize(name)};
  }
}
