/** Deleting and renaming at the level of critical sections: the user table changes under
    the config lock first, the session table follows under the sessions lock later, its file
    later still, and other threads, or a restart, may come in between. */
module SessionRaces {
  import opened Common
  import opened PyText
  import opened Accounts
  import opened AuthTheorems

  /** `purging` are the deleted names whose sessions have still to be dropped, `following`
      maps the old name of a rename to the new one while the sessions have still to follow.
      `file` is what sessions.json holds, and `saves` are the copies of the session table that
      threads have taken under the lock and have still to write, outside of it. */
  datatype Racing = Racing(
    s: AuthState, purging: set<string>, following: map<string, string>,
    file: map<nat, Session>, saves: map<nat, map<nat, Session>>)

  /** Nothing is under way and everything is saved. */
  function AtRest(s: AuthState): Racing {
    Racing(s, {}, map[], s.sessions, map[])
  }

  /** One critical section: an operation, or the first half of a deletion or a rename, or the
      second half of one that is under way, or a copy taken for the file; or the copy is
      written, unless that fails. `First(OpReload)` is a restart at that moment. */
  datatype Section =
    | First(op: Op)
    | FinishPurge(name: string)
    | FinishFollow(from: string)
    | Snapshot(save: nat)
    | Write(save: nat, ok: bool)

  function Unexpired(sessions: map<nat, Session>, now: int): map<nat, Session> {
    map t | t in sessions && sessions[t].expiry > now :: sessions[t]
  }

  /** The process ends, with whatever it had under way, and the next one reads the file. */
  function Restarted(r: Racing, now: int): Racing {
    AtRest(r.s.(sessions := Unexpired(r.file, now)))
  }

  /** A copy is shallow: its entries are the objects of the table as long as they are in it, so
      renaming those renames the entries too. */
  function Refreshed(copy: map<nat, Session>, sessions: map<nat, Session>): map<nat, Session> {
    map t | t in copy :: if t in sessions then sessions[t] else copy[t]
  }

  function Followed(r: Racing, from: string, to: string): Racing {
    var sessions := RenameSessions(r.s.sessions, from, to);
    r.(s := r.s.(sessions := sessions), following := r.following - {from},
       saves := map k | k in r.saves :: Refreshed(r.saves[k], sessions))
  }

  function Perform(r: Racing, section: Section): Racing {
    match section
    case First(op) =>
      var c := ChangeOf(r.s, op);
      if op.OpReload? then Restarted(r, op.now)
      else if c.Remove? then r.(s := Commit(r.s, c), purging := r.purging + {c.name})
      else if c.Move? then r.(s := Commit(r.s, c), following := r.following[c.from := c.to])
      else r.(s := Step(r.s, op))
    case FinishPurge(name) =>
      if name !in r.purging then r
      else r.(s := r.s.(sessions := DropSessionsOf(r.s.sessions, name, None)), purging := r.purging - {name})
    case FinishFollow(from) =>
      if from !in r.following then r else Followed(r, from, r.following[from])
    case Snapshot(k) =>
      if k in r.saves then r else r.(saves := r.saves[k := r.s.sessions])
    case Write(k, ok) =>
      if k !in r.saves then r
      else r.(saves := r.saves - {k}, file := if ok then r.saves[k] else r.file)
  }

  function RunSections(r: Racing, sections: seq<Section>): Racing
    decreases |sections|
  {
    if sections == [] then r else RunSections(Perform(r, sections[0]), sections[1..])
  }

  /** Nobody in between: the two halves of a deletion and its save are the atomic deletion. */
  lemma HalvesAreTheDeletion(s: AuthState, op: Op, k: nat)
    requires op.OpDelete? && ChangeOf(s, op).Remove?
    ensures Perform(Perform(Perform(Perform(AtRest(s), First(op)), FinishPurge(Normalize(op.name))), Snapshot(k)), Write(k, true))
            == AtRest(Step(s, op))
  {
    hide Normalize, IsAdmin;
    var halfway := Perform(AtRest(s), First(op));
    var done := Perform(halfway, FinishPurge(Normalize(op.name)));
    assert done.s == Step(s, op) && done.purging == {} && done.following == map[];
    SavedIsAtRest(done, k);
  }

  /** Nobody in between: the two halves of a rename and its save are the atomic rename. */
  lemma HalvesAreTheRename(s: AuthState, op: Op, k: nat)
    requires op.OpRename? && ChangeOf(s, op).Move?
    ensures Perform(Perform(Perform(Perform(AtRest(s), First(op)), FinishFollow(Normalize(op.name))), Snapshot(k)), Write(k, true))
            == AtRest(Step(s, op))
  {
    hide Normalize, IsAdmin, Usable;
    var halfway := Perform(AtRest(s), First(op));
    var done := Perform(halfway, FinishFollow(Normalize(op.name)));
    assert done.s == Step(s, op) && done.purging == {} && done.following == map[];
    assert done.saves == map[];
    SavedIsAtRest(done, k);
  }

  lemma SavedIsAtRest(r: Racing, k: nat)
    requires r.purging == {} && r.following == map[] && r.saves == map[]
    ensures Perform(Perform(r, Snapshot(k)), Write(k, true)) == AtRest(r.s)
  {
  }

  // ---------------------------------------------------------------- what no section breaks

  ghost predicate Known(issued: seq<nat>, sessions: map<nat, Session>) {
    forall t :: t in sessions ==> t < |issued| && Normalize(sessions[t].username) == sessions[t].username
  }

  /** Tokens in use, or in a copy, were issued, for accounts that exist or existed, and names are
      normal. */
  ghost predicate Shape(r: Racing) {
    && TableOk(r.s)
    && Known(r.s.issued, r.s.sessions) && Known(r.s.issued, r.file)
    && (forall k :: k in r.saves ==> Known(r.s.issued, r.saves[k]))
    && (forall t :: 0 <= t < |r.s.issued| ==> r.s.issued[t] < r.s.nextAccount)
    && (forall n :: n in r.following ==> Normalize(r.following[n]) == r.following[n])
  }

  lemma AtRestHasShape(s: AuthState)
    requires Inv(s)
    ensures Shape(AtRest(s))
  {
    forall t | t in s.sessions
      ensures t < |s.issued| && Normalize(s.sessions[t].username) == s.sessions[t].username
    {
      assert SessionBound(s, t);
    }
  }

  lemma KnownLater(issued: seq<nat>, issued': seq<nat>, sessions: map<nat, Session>)
    requires Known(issued, sessions) && issued <= issued'
    ensures Known(issued', sessions)
  {
  }

  lemma StepKeepsKnown(s: AuthState, op: Op)
    requires Known(s.issued, s.sessions) && !ChangeOf(s, op).Move?
    ensures Known(Step(s, op).issued, Step(s, op).sessions) && s.issued <= Step(s, op).issued
  {
    hide CreateChange, DeleteChange, RenameChange, PrivilegesChange, SetAdminChange, SsoChange, Apply;
    if op.OpIssue? {
      NormalizeIdempotent(op.name);
    }
  }

  lemma StepKeepsIssuedBounded(s: AuthState, op: Op)
    requires TableOk(s) && forall t :: 0 <= t < |s.issued| ==> s.issued[t] < s.nextAccount
    ensures forall t :: 0 <= t < |Step(s, op).issued| ==> Step(s, op).issued[t] < Step(s, op).nextAccount
  {
  }

  lemma StepKeepsShape(r: Racing, op: Op)
    requires Shape(r) && !op.OpReload? && !ChangeOf(r.s, op).Remove? && !ChangeOf(r.s, op).Move?
    ensures Shape(Perform(r, First(op)))
  {
    hide TableOk, Known, Step, ChangeOf;
    StepKeepsTableOk(r.s, op);
    StepKeepsKnown(r.s, op);
    StepKeepsIssuedBounded(r.s, op);
    var r' := r.(s := Step(r.s, op));
    KnownLater(r.s.issued, r'.s.issued, r.file);
    forall k | k in r.saves
      ensures Known(r'.s.issued, r.saves[k])
    {
      KnownLater(r.s.issued, r'.s.issued, r.saves[k]);
    }
  }

  lemma SameTableOk(s: AuthState, s': AuthState)
    requires TableOk(s) && s'.users == s.users && s'.nextAccount == s.nextAccount
    ensures TableOk(s')
  {
  }

  lemma FollowKeepsShape(r: Racing, from: string)
    requires Shape(r) && from in r.following
    ensures Shape(Followed(r, from, r.following[from]))
  {
    hide TableOk, Normalize;
    SameTableOk(r.s, Followed(r, from, r.following[from]).s);
  }

  lemma RestartKeepsShape(r: Racing, now: int)
    requires Shape(r)
    ensures Shape(Restarted(r, now))
  {
    hide TableOk, Normalize;
    SameTableOk(r.s, Restarted(r, now).s);
  }

  lemma PurgeKeepsShape(r: Racing, name: string)
    requires Shape(r)
    ensures Shape(Perform(r, FinishPurge(name)))
  {
    hide TableOk, Normalize;
    SameTableOk(r.s, Perform(r, FinishPurge(name)).s);
  }

  lemma CommitKeepsShape(r: Racing, op: Op)
    requires Shape(r) && (ChangeOf(r.s, op).Remove? || ChangeOf(r.s, op).Move?) && !op.OpReload?
    ensures Shape(Perform(r, First(op)))
  {
    hide TableOk, Normalize, Known, ChangeOf;
    ChangeIsAllowed(r.s, op);
    CommitKeepsTableOk(r.s, ChangeOf(r.s, op));
  }

  lemma SectionKeepsShape(r: Racing, section: Section)
    requires Shape(r)
    ensures Shape(Perform(r, section))
  {
    hide TableOk, Known, Followed, Restarted, DropSessionsOf, Step, ChangeOf;
    match section
    case First(op) =>
      if op.OpReload? {
        RestartKeepsShape(r, op.now);
      } else if ChangeOf(r.s, op).Remove? || ChangeOf(r.s, op).Move? {
        CommitKeepsShape(r, op);
      } else {
        StepKeepsShape(r, op);
      }
    case FinishPurge(name) => PurgeKeepsShape(r, name);
    case FinishFollow(from) =>
      if from in r.following {
        FollowKeepsShape(r, from);
      }
    case _ =>
  }

  // ---------------------------------------------------------------- one token, one section

  /** If the token is accepted at all, it is for the account that it was issued for. */
  ghost predicate Rightful(s: AuthState, t: nat) {
    t in s.sessions && s.sessions[t].username in s.users ==>
      t < |s.issued| && s.users[s.sessions[t].username].account == s.issued[t]
  }

  lemma RightfulMeansAccepted(s: AuthState, t: nat)
    ensures Rightful(s, t) <==>
              forall now :: TokenUser(s, Some(t), now).Some? ==>
                t < |s.issued| && s.users[TokenUser(s, Some(t), now).value].account == s.issued[t]
  {
    if t in s.sessions && s.sessions[t].username in s.users {
      assert TokenUser(s, Some(t), s.sessions[t].expiry) == Some(s.sessions[t].username);
    }
  }

  /** What a section must not do to a session: create a name that the session still bears, or
      bring the row of another account under such a name, or the session under the name of
      another account; and a restart must not find it in the file under such a name. */
  predicate CleanFor(r: Racing, section: Section, t: nat) {
    if section.First? && section.op.OpReload? then
      t in r.file && section.op.now < r.file[t].expiry && r.file[t].username in r.s.users ==>
        t < |r.s.issued| && r.s.users[r.file[t].username].account == r.s.issued[t]
    else
      t in r.s.sessions && t < |r.s.issued| ==>
      var name := r.s.sessions[t].username;
      match section
      case FinishPurge(_) => true
      case Snapshot(_) => true
      case Write(_, _) => true
      case FinishFollow(from) =>
        from in r.following && r.following[from] in r.s.users && name == from ==>
          r.s.users[r.following[from]].account == r.s.issued[t]
      case First(op) =>
        match ChangeOf(r.s, op)
        case Put(n, _) => n in r.s.users || name != n
        case Move(from, to) => from in r.s.users && name == to ==> r.s.users[from].account == r.s.issued[t]
        case _ => true
  }

  lemma RowChangeIsClean(r: Racing, op: Op, t: nat)
    requires Shape(r) && Rightful(r.s, t) && !op.OpReload? && (ChangeOf(r.s, op).Put? || ChangeOf(r.s, op).Keep?)
    ensures Rightful(Perform(r, First(op)).s, t) <==> CleanFor(r, First(op), t)
  {
    hide Normalize, Usable;
    ChangeIsAllowed(r.s, op);
  }

  lemma HalfIsClean(r: Racing, op: Op, t: nat)
    requires Shape(r) && Rightful(r.s, t) && (ChangeOf(r.s, op).Remove? || ChangeOf(r.s, op).Move?)
    ensures Rightful(Perform(r, First(op)).s, t) <==> CleanFor(r, First(op), t)
  {
    hide Normalize, Usable;
    ChangeIsAllowed(r.s, op);
  }

  /** A token that is right stays right exactly when the section is clean for it. */
  lemma SectionIsRightExactlyWhen(r: Racing, section: Section, t: nat)
    requires Shape(r) && Rightful(r.s, t)
    ensures Rightful(Perform(r, section).s, t) <==> CleanFor(r, section, t)
  {
    match section
    case First(op) =>
      if op.OpReload? {
      } else if ChangeOf(r.s, op).Put? || ChangeOf(r.s, op).Keep? {
        RowChangeIsClean(r, op, t);
      } else {
        HalfIsClean(r, op, t);
      }
    case _ =>
  }

  // ---------------------------------------------------------------- one token, any run of sections

  ghost predicate AlwaysRightful(r: Racing, sections: seq<Section>, t: nat)
    decreases |sections|
  {
    && Rightful(r.s, t)
    && (sections != [] ==> AlwaysRightful(Perform(r, sections[0]), sections[1..], t))
  }

  predicate AllCleanFor(r: Racing, sections: seq<Section>, t: nat)
    decreases |sections|
  {
    sections != [] ==> CleanFor(r, sections[0], t) && AllCleanFor(Perform(r, sections[0]), sections[1..], t)
  }

  /** Over every interleaving of critical sections, saves and restarts, whatever is in flight: a token is right at
      every instant exactly when each section is clean for it when it comes. */
  lemma {:induction false} TokenIsRightExactlyWhen(r: Racing, sections: seq<Section>, t: nat)
    requires Shape(r) && Rightful(r.s, t)
    ensures AlwaysRightful(r, sections, t) <==> AllCleanFor(r, sections, t)
    decreases |sections|
  {
    hide Perform, CleanFor, Shape, Rightful;
    if sections != [] {
      SectionIsRightExactlyWhen(r, sections[0], t);
      SectionKeepsShape(r, sections[0]);
      if CleanFor(r, sections[0], t) {
        TokenIsRightExactlyWhen(Perform(r, sections[0]), sections[1..], t);
      }
    }
  }

  lemma SectionNeverRevives(r: Racing, section: Section, account: nat)
    requires Shape(r) && account < r.s.nextAccount && !HasAccount(r.s.users, account)
    ensures !HasAccount(Perform(r, section).s.users, account)
    ensures account < Perform(r, section).s.nextAccount
  {
    hide Known, Normalize, Usable, HasAccount, TableOk, ChangeOf;
    if section.First? && !section.op.OpReload? {
      StepNeverRevives(r.s, section.op, account);
    }
  }

  lemma SectionKeepsIssued(r: Racing, section: Section)
    ensures r.s.issued <= Perform(r, section).s.issued
  {
    hide ChangeOf, SessionsOf, RenameSessions, DropSessionsOf, Normalize, Refreshed;
  }

  ghost predicate Refused(s: AuthState, t: nat) {
    forall now :: TokenUser(s, Some(t), now).None?
  }

  lemma GoneIsRefused(s: AuthState, t: nat)
    requires t < |s.issued| && !HasAccount(s.users, s.issued[t])
    ensures Refused(s, t) <==> Rightful(s, t)
  {
    RightfulMeansAccepted(s, t);
    if t in s.sessions && s.sessions[t].username in s.users {
      assert TokenUser(s, Some(t), s.sessions[t].expiry) == Some(s.sessions[t].username);
    }
  }

  ghost predicate AlwaysRefused(r: Racing, sections: seq<Section>, t: nat)
    decreases |sections|
  {
    && Refused(r.s, t)
    && (sections != [] ==> AlwaysRefused(Perform(r, sections[0]), sections[1..], t))
  }

  lemma {:induction false} GoneStaysRefused(r: Racing, sections: seq<Section>, t: nat)
    requires Shape(r) && t < |r.s.issued| && !HasAccount(r.s.users, r.s.issued[t])
    ensures AlwaysRefused(r, sections, t) <==> AlwaysRightful(r, sections, t)
    decreases |sections|
  {
    hide Perform, Rightful, Refused, HasAccount;
    GoneIsRefused(r.s, t);
    if sections != [] {
      SectionKeepsShape(r, sections[0]);
      SectionNeverRevives(r, sections[0], r.s.issued[t]);
      SectionKeepsIssued(r, sections[0]);
      GoneStaysRefused(Perform(r, sections[0]), sections[1..], t);
    }
  }

  /** From the moment the row is gone, before its sessions are purged and whatever other threads
      do, over restarts too: a token of the deleted account is refused at every instant exactly
      when no section gives a name back that the session still bears, and no restart finds it
      in the file under a name that is taken. */
  lemma DeletionLocksOutExactlyWhen(r: Racing, deletion: Op, sections: seq<Section>, t: nat)
    requires Shape(r) && ChangeOf(r.s, deletion).Remove? && Rightful(r.s, t)
    requires t < |r.s.issued| && r.s.issued[t] == r.s.users[Normalize(deletion.name)].account
    ensures var gone := Perform(r, First(deletion));
            AlwaysRefused(gone, sections, t) <==> AllCleanFor(gone, sections, t)
  {
    var gone := Perform(r, First(deletion));
    SectionKeepsShape(r, First(deletion));
    SectionIsRightExactlyWhen(r, First(deletion), t);
    assert !HasAccount(gone.s.users, r.s.issued[t]);
    GoneStaysRefused(gone, sections, t);
    TokenIsRightExactlyWhen(gone, sections, t);
  }
}
