/** Which names are safe to create, delete or rename while second halves, saves and restarts are
    still to come: those that are not in flight and that no copy of the session table bears. */
module NamesInFlight {
  import opened Common
  import opened PyText
  import opened Accounts
  import opened AuthTheorems
  import opened SessionRaces

  predicate InFlight(r: Racing, name: string) {
    name in r.purging || name in r.following || name in r.following.Values
  }

  predicate Names(sessions: map<nat, Session>, name: string) {
    exists t :: t in sessions && sessions[t].username == name
  }

  /** A session in the table, in the file or in a copy still to be written bears the name. */
  predicate Borne(r: Racing, name: string) {
    || Names(r.s.sessions, name) || Names(r.file, name)
    || exists k :: k in r.saves && Names(r.saves[k], name)
  }

  /** The section creates, deletes or renames no name that is in flight, and gives nobody a name
      that some session bears. */
  predicate Undisturbed(r: Racing, section: Section) {
    section.First? ==>
      match ChangeOf(r.s, section.op)
      case Keep => true
      case Put(name, _) => name in r.s.users || (!InFlight(r, name) && !Borne(r, name))
      case Remove(name) => !InFlight(r, name)
      case Move(from, to) => !InFlight(r, from) && !InFlight(r, to) && !Borne(r, to)
  }

  /** The account behind a session's user name, looking through a rename that has not
      reached the session yet. */
  function Owner(r: Racing, name: string): Option<nat> {
    if name in r.s.users then Some(r.s.users[name].account)
    else if name in r.following && r.following[name] in r.s.users then
      Some(r.s.users[r.following[name]].account)
    else None
  }

  /** Every session belongs to its account, directly or through a rename, or to nobody. */
  ghost predicate SafeIn(r: Racing, sessions: map<nat, Session>) {
    forall t :: t in sessions && Owner(r, sessions[t].username).Some? ==>
      t < |r.s.issued| && Owner(r, sessions[t].username) == Some(r.s.issued[t])
  }

  ghost predicate FlightsOk(r: Racing) {
    && (forall n :: n in r.purging ==> n !in r.s.users && n !in r.following)
    && (forall n :: n in r.following ==> n !in r.s.users && r.following[n] in r.s.users)
  }

  ghost predicate RaceInv(r: Racing) {
    && Shape(r)
    && FlightsOk(r)
    && SafeIn(r, r.s.sessions) && SafeIn(r, r.file)
    && (forall k :: k in r.saves ==> SafeIn(r, r.saves[k]))
  }

  lemma AtRestIsSafe(s: AuthState)
    requires Inv(s)
    ensures RaceInv(AtRest(s))
  {
    hide TableOk, Shape;
    AtRestHasShape(s);
    forall t | t in s.sessions
      ensures Owner(AtRest(s), s.sessions[t].username) == Some(s.issued[t])
    {
      assert SessionBound(s, t);
    }
  }

  /** Names of sessions belong to the same account as before, or to nobody any more. */
  ghost predicate Milder(r: Racing, r': Racing, sessions: map<nat, Session>) {
    && r.s.issued <= r'.s.issued
    && forall t :: t in sessions ==>
         Owner(r', sessions[t].username).None? || Owner(r', sessions[t].username) == Owner(r, sessions[t].username)
  }

  lemma MilderIsSafe(r: Racing, r': Racing, sessions: map<nat, Session>)
    requires SafeIn(r, sessions) && Milder(r, r', sessions)
    ensures SafeIn(r', sessions)
  {
    hide Owner;
  }

  // ---------------------------------------------------------------- what each section does to owners

  lemma RemovedOwner(r: Racing, c: Change, name: string)
    requires FlightsOk(r) && c.Remove? && !InFlight(r, c.name)
    ensures var r' := r.(s := Commit(r.s, c), purging := r.purging + {c.name});
            Owner(r', name).None? || Owner(r', name) == Owner(r, name)
  {
  }

  lemma RemovedFlights(r: Racing, c: Change)
    requires FlightsOk(r) && c.Remove? && !InFlight(r, c.name)
    ensures FlightsOk(r.(s := Commit(r.s, c), purging := r.purging + {c.name}))
  {
    forall n | n in r.following
      ensures r.following[n] != c.name
    {
      assert r.following[n] in r.following.Values;
    }
  }

  lemma MovedOwner(r: Racing, c: Change, name: string)
    requires FlightsOk(r) && c.Move? && Allowed(r.s, c) && !InFlight(r, c.from) && !InFlight(r, c.to) && name != c.to
    ensures Owner(r.(s := Commit(r.s, c), following := r.following[c.from := c.to]), name) == Owner(r, name)
  {
    if name in r.following {
      assert r.following[name] in r.following.Values;
    }
  }

  lemma MovedFlights(r: Racing, c: Change)
    requires FlightsOk(r) && c.Move? && Allowed(r.s, c) && !InFlight(r, c.from) && !InFlight(r, c.to)
    ensures FlightsOk(r.(s := Commit(r.s, c), following := r.following[c.from := c.to]))
  {
    forall n | n in r.following
      ensures r.following[n] != c.from
    {
      assert r.following[n] in r.following.Values;
    }
  }

  /** Neither a row put under its own name nor one under a new name changes whose another name is. */
  lemma PutOwner(r: Racing, c: Change, name: string)
    requires FlightsOk(r) && (c.Put? || c.Keep?) && Allowed(r.s, c)
    requires c.Put? ==> c.name in r.s.users || (!InFlight(r, c.name) && name != c.name)
    ensures Owner(r.(s := Commit(r.s, c)), name) == Owner(r, name)
  {
  }

  lemma PutFlights(r: Racing, c: Change)
    requires FlightsOk(r) && (c.Put? || c.Keep?)
    requires c.Put? ==> c.name in r.s.users || !InFlight(r, c.name)
    ensures FlightsOk(r.(s := Commit(r.s, c)))
  {
  }

  /** The tables of sessions that a state holds. */
  ghost predicate Held(r: Racing, sessions: map<nat, Session>) {
    sessions == r.s.sessions || sessions == r.file || exists k :: k in r.saves && r.saves[k] == sessions
  }

  lemma NotBorne(r: Racing, name: string, sessions: map<nat, Session>, t: nat)
    requires !Borne(r, name) && t in sessions
    requires Held(r, sessions)
    ensures sessions[t].username != name
  {
    if sessions[t].username == name {
      assert Names(sessions, name);
    }
  }

  /** An undisturbed first section leaves all sessions with their accounts, or with nobody. */
  lemma FirstIsMilder(r: Racing, op: Op, sessions: map<nat, Session>)
    requires RaceInv(r) && Undisturbed(r, First(op)) && !op.OpReload? && Held(r, sessions)
    ensures Milder(r, Perform(r, First(op)), sessions)
  {
    hide TableOk, Shape, SafeIn, Owner, FlightsOk, InFlight, Borne, ChangeOf, SessionsOf;
    var r', c := Perform(r, First(op)), ChangeOf(r.s, op);
    SafeHasTable(r);
    ChangeIsAllowed(r.s, op);
    SectionKeepsIssued(r, First(op));
    forall t | t in sessions
      ensures Owner(r', sessions[t].username).None? || Owner(r', sessions[t].username) == Owner(r, sessions[t].username)
    {
      var name := sessions[t].username;
      if c.Remove? {
        RemovedOwner(r, c, name);
      } else if c.Move? {
        NotBorne(r, c.to, sessions, t);
        MovedOwner(r, c, name);
      } else {
        if c.Put? && c.name !in r.s.users {
          NotBorne(r, c.name, sessions, t);
        }
        PutOwner(r, c, name);
        SameOwner(r', r.(s := Commit(r.s, c)), name);
      }
    }
  }

  lemma SameOwner(r: Racing, r': Racing, name: string)
    requires r'.s.users == r.s.users && r'.following == r.following
    ensures Owner(r', name) == Owner(r, name)
  {
  }

  lemma SafeHasTable(r: Racing)
    requires RaceInv(r)
    ensures Shape(r) && TableOk(r.s) && FlightsOk(r)
  {
  }

  lemma FirstKeepsFlights(r: Racing, op: Op)
    requires RaceInv(r) && Undisturbed(r, First(op)) && !op.OpReload?
    ensures FlightsOk(Perform(r, First(op)))
  {
    hide TableOk, Shape, SafeIn, InFlight, Borne, ChangeOf, SessionsOf;
    var c := ChangeOf(r.s, op);
    SafeHasTable(r);
    ChangeIsAllowed(r.s, op);
    if c.Remove? {
      RemovedFlights(r, c);
    } else if c.Move? {
      MovedFlights(r, c);
    } else {
      PutFlights(r, c);
    }
  }

  /** What an operation leaves in the table was there, or is a new session of its account. */
  lemma SessionIsOldOrNew(r: Racing, op: Op, t: nat)
    requires Shape(r) && !op.OpReload? && t in Perform(r, First(op)).s.sessions
    ensures var r' := Perform(r, First(op));
            || (t in r.s.sessions && r'.s.sessions[t] == r.s.sessions[t])
            || (t < |r'.s.issued| && r'.s.sessions[t].username in r'.s.users
                && r'.s.users[r'.s.sessions[t].username].account == r'.s.issued[t])
  {
    hide CreateChange, DeleteChange, RenameChange, PrivilegesChange, SetAdminChange, SsoChange, Normalize, TableOk;
  }

  lemma FirstIsSafe(r: Racing, op: Op)
    requires RaceInv(r) && Undisturbed(r, First(op)) && !op.OpReload?
    ensures RaceInv(Perform(r, First(op)))
  {
    hide TableOk, Shape, FlightsOk, Undisturbed, Milder, Perform, Owner;
    var r' := Perform(r, First(op));
    SectionKeepsShape(r, First(op));
    FirstKeepsFlights(r, op);
    FirstKeepsCopies(r, op);
    FirstIsMilder(r, op, r.s.sessions);
    MilderIsSafe(r, r', r.s.sessions);
    FirstIsMilder(r, op, r.file);
    MilderIsSafe(r, r', r.file);
    forall k | k in r.saves
      ensures SafeIn(r', r.saves[k])
    {
      FirstIsMilder(r, op, r.saves[k]);
      MilderIsSafe(r, r', r.saves[k]);
    }
    forall t | t in r'.s.sessions && Owner(r', r'.s.sessions[t].username).Some?
      ensures t < |r'.s.issued| && Owner(r', r'.s.sessions[t].username) == Some(r'.s.issued[t])
    {
      SessionIsOldOrNew(r, op, t);
      if r'.s.sessions[t].username in r'.s.users {
        OwnerOfRow(r', r'.s.sessions[t].username);
      }
    }
  }

  lemma OwnerOfRow(r: Racing, name: string)
    requires name in r.s.users
    ensures Owner(r, name) == Some(r.s.users[name].account)
  {
  }

  lemma FirstKeepsCopies(r: Racing, op: Op)
    requires !op.OpReload?
    ensures Perform(r, First(op)).file == r.file && Perform(r, First(op)).saves == r.saves
  {
  }

  lemma RestartIsSafe(r: Racing, now: int)
    requires RaceInv(r)
    ensures RaceInv(Restarted(r, now))
  {
    hide TableOk, Shape;
    assert Restarted(r, now) == Perform(r, First(OpReload(now)));
    SectionKeepsShape(r, First(OpReload(now)));
  }

  lemma PurgeIsSafe(r: Racing, name: string)
    requires RaceInv(r) && name in r.purging
    ensures RaceInv(Perform(r, FinishPurge(name)))
  {
    hide TableOk, Shape, Owner, Normalize;
    var r' := Perform(r, FinishPurge(name));
    SectionKeepsShape(r, FinishPurge(name));
    forall n: string
      ensures Owner(r', n) == Owner(r, n)
    {
      SameOwner(r, r', n);
    }
  }

  lemma FollowedOwner(r: Racing, from: string, name: string)
    requires FlightsOk(r) && from in r.following
    ensures var r' := Followed(r, from, r.following[from]);
            && Owner(r', r.following[from]) == Owner(r, from)
            && (name != from ==> Owner(r', name) == Owner(r, name))
            && Owner(r', from).None?
  {
  }

  /** Renaming the sessions does not change whose they are. */
  lemma FollowedTableIsSafe(r: Racing, from: string)
    requires RaceInv(r) && from in r.following
    ensures SafeIn(Followed(r, from, r.following[from]), Followed(r, from, r.following[from]).s.sessions)
  {
    hide TableOk, Owner;
    var r' := Followed(r, from, r.following[from]);
    forall t | t in r'.s.sessions && Owner(r', r'.s.sessions[t].username).Some?
      ensures t < |r'.s.issued| && Owner(r', r'.s.sessions[t].username) == Some(r'.s.issued[t])
    {
      FollowedOwner(r, from, r.s.sessions[t].username);
    }
  }

  lemma FollowedCopyIsSafe(r: Racing, from: string, copy: map<nat, Session>)
    requires FlightsOk(r) && from in r.following && SafeIn(r, copy)
    ensures SafeIn(Followed(r, from, r.following[from]), copy)
  {
    hide Owner, FlightsOk;
    var r' := Followed(r, from, r.following[from]);
    forall t | t in copy && Owner(r', copy[t].username).Some?
      ensures Owner(r', copy[t].username) == Owner(r, copy[t].username)
    {
      FollowedOwner(r, from, copy[t].username);
    }
  }

  lemma RefreshedIsSafe(r: Racing, copy: map<nat, Session>, sessions: map<nat, Session>)
    requires SafeIn(r, copy) && SafeIn(r, sessions)
    ensures SafeIn(r, Refreshed(copy, sessions))
  {
    hide Owner;
  }

  lemma FollowIsSafe(r: Racing, from: string)
    requires RaceInv(r) && from in r.following
    ensures RaceInv(Followed(r, from, r.following[from]))
  {
    hide Shape, Owner, SafeIn, Refreshed, RenameSessions;
    var r' := Followed(r, from, r.following[from]);
    FollowedTableIsSafe(r, from);
    FollowedCopyIsSafe(r, from, r.file);
    SectionKeepsShape(r, FinishFollow(from));
    forall k | k in r'.saves
      ensures SafeIn(r', r'.saves[k])
    {
      FollowedCopyIsSafe(r, from, r.saves[k]);
      RefreshedIsSafe(r', r.saves[k], r'.s.sessions);
    }
  }

  lemma SameOwnersSameSafe(r: Racing, r': Racing, sessions: map<nat, Session>)
    requires SafeIn(r, sessions) && r'.s == r.s && r'.following == r.following
    ensures SafeIn(r', sessions)
  {
  }

  lemma SaveIsSafe(r: Racing, section: Section)
    requires RaceInv(r) && (section.Snapshot? || section.Write?)
    ensures RaceInv(Perform(r, section))
  {
    hide Shape, TableOk, SafeIn;
    var r' := Perform(r, section);
    SectionKeepsShape(r, section);
    SameOwnersSameSafe(r, r', r.s.sessions);
    SameOwnersSameSafe(r, r', r.file);
    forall k | k in r.saves
      ensures SafeIn(r', r.saves[k])
    {
      SameOwnersSameSafe(r, r', r.saves[k]);
    }
  }

  lemma SectionIsSafe(r: Racing, section: Section)
    requires RaceInv(r) && Undisturbed(r, section)
    ensures RaceInv(Perform(r, section))
  {
    hide RaceInv, Undisturbed, Restarted, Followed;
    match section
    case First(op) =>
      if op.OpReload? {
        RestartIsSafe(r, op.now);
      } else {
        FirstIsSafe(r, op);
      }
    case FinishPurge(name) =>
      if name in r.purging {
        PurgeIsSafe(r, name);
      }
    case FinishFollow(from) =>
      if from in r.following {
        FollowIsSafe(r, from);
      }
    case _ => SaveIsSafe(r, section);
  }

  // ---------------------------------------------------------------- runs that leave them alone

  lemma SafeIsRightful(r: Racing, t: nat)
    requires RaceInv(r)
    ensures Rightful(r.s, t)
  {
    hide Shape, FlightsOk;
  }

  /** No section of the run touches a name that is in flight, or gives out one that a session
      bears, when it comes. */
  predicate NeverDisturbed(r: Racing, sections: seq<Section>)
    decreases |sections|
  {
    sections != [] ==>
      Undisturbed(r, sections[0]) && NeverDisturbed(Perform(r, sections[0]), sections[1..])
  }

  /** So it is enough to leave those names alone: then every section is clean, for every token,
      saves and restarts included, and at the end of the run the next undisturbed one is again. */
  lemma {:induction false} UndisturbedRunIsClean(r: Racing, sections: seq<Section>, t: nat)
    requires RaceInv(r) && NeverDisturbed(r, sections)
    ensures AllCleanFor(r, sections, t) && RaceInv(RunSections(r, sections))
    decreases |sections|
  {
    hide RaceInv, Undisturbed, CleanFor, Rightful, Perform;
    if sections != [] {
      SectionIsSafe(r, sections[0]);
      SafeIsRightful(r, t);
      SafeIsRightful(Perform(r, sections[0]), t);
      SafeHasTable(r);
      SectionIsRightExactlyWhen(r, sections[0], t);
      UndisturbedRunIsClean(Perform(r, sections[0]), sections[1..], t);
    }
  }

  /** With second halves and saves outstanding an accepted token still names its own account. */
  lemma RacingTokenNamesItsAccount(r: Racing, token: nat, now: int)
    requires RaceInv(r)
    ensures var name := TokenUser(r.s, Some(token), now);
            name.Some? ==>
              && token < |r.s.issued|
              && name.value in r.s.users
              && r.s.users[name.value].account == r.s.issued[token]
  {
    hide RaceInv;
    SafeIsRightful(r, token);
  }

  /** And a deleted account stays locked out from the moment its row is gone, over restarts too,
      if no other thread touches a name in flight or gives out one that a session bears. */
  lemma RacingDeletionLocksOut(r: Racing, deletion: Op, sections: seq<Section>, t: nat)
    requires RaceInv(r) && ChangeOf(r.s, deletion).Remove?
    requires NeverDisturbed(r, [First(deletion)] + sections)
    requires t < |r.s.issued| && r.s.issued[t] == r.s.users[Normalize(deletion.name)].account
    ensures AlwaysRefused(Perform(r, First(deletion)), sections, t)
  {
    hide RaceInv, Normalize, CleanFor, Undisturbed, Perform, ChangeOf;
    var gone := Perform(r, First(deletion));
    assert ([First(deletion)] + sections)[1..] == sections;
    SafeHasTable(r);
    SafeIsRightful(r, t);
    SectionIsSafe(r, First(deletion));
    UndisturbedRunIsClean(gone, sections, t);
    DeletionLocksOutExactlyWhen(r, deletion, sections, t);
  }
}
