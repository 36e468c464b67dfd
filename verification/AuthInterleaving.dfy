/** The account table at the level of single dictionary writes. Writers hold the config
    lock for a whole operation but publish it one write at a time; `get_privileges` takes
    no lock and reads three times: the row object, its admin flag, its privilege map.
    LinearizableReads.dfy is about the readers, SerializedWriters.dfy about the writers. */
module AuthInterleaving {
  import opened Common
  import opened Privileges
  import opened PyText
  import opened Accounts

  /** What the lock holder has still to write, named after the next write. A row is an
      object shared by reference, so it is addressed by its identity, not by its name. */
  datatype Pending =
    | Free
    | PromoteFlag(id: nat)
    | PromoteStash(id: nat)
    | PromoteMap(id: nat)
    | DemotePop(id: nat)
    | DemoteMap(id: nat, restored: PrivMap)
    | DemoteFlag(id: nat)
    | SetMap(id: nat, current: PrivMap)
    | Insert(name: string, row: Row)
    | Delete(name: string)
    | RenamePop(from: string, to: string)
    | RenamePush(to: string, id: nat)

  datatype Shared = Shared(
    users: map<string, nat>, rows: map<nat, Row>, nextId: nat, nextAccount: nat, pending: Pending)

  /** The table that a reader of names sees. */
  function TableOf(s: Shared): Users {
    map n | n in s.users && s.users[n] in s.rows :: s.rows[s.users[n]]
  }

  function AsState(s: Shared): AuthState {
    AuthState(TableOf(s), map[], s.nextAccount, [])
  }

  /** The writes that carry out a decided change. */
  function PlanFor(s: Shared, op: Op, c: Change): Pending {
    match c
    case Keep => Free
    case Remove(name) => Delete(name)
    case Move(from, to) => RenamePop(from, to)
    case Put(name, row) =>
      if op.OpSetPrivileges? && name in s.users then SetMap(s.users[name], row.privileges)
      else if op.OpSetAdmin? && name in s.users then
        if op.isAdmin then PromoteFlag(s.users[name]) else DemotePop(s.users[name])
      else Insert(name, row)
  }

  /** Take the lock: the decision is made on the table as it is, and nothing is written yet. */
  function Begin(s: Shared, op: Op): Shared {
    s.(pending := PlanFor(s, op, ChangeOf(AsState(s), op)))
  }

  function Update(s: Shared, id: nat, row: Row, then': Pending): Shared {
    s.(rows := s.rows[id := row], pending := then')
  }

  /** The next single write of the lock holder. */
  function Write(s: Shared): Shared
    requires Coherent(s)
  {
    match s.pending
    case Free => s
    case PromoteFlag(id) => Update(s, id, s.rows[id].(isAdmin := true), PromoteStash(id))
    case PromoteStash(id) =>
      Update(s, id, s.rows[id].(stash := Some(OrDefaults(s.rows[id].privileges))), PromoteMap(id))
    case PromoteMap(id) => Update(s, id, s.rows[id].(privileges := AdminPrivileges()), Free)
    case DemotePop(id) =>
      Update(s, id, s.rows[id].(stash := None), DemoteMap(id, OrDefaults(s.rows[id].stash.GetOr(map[]))))
    case DemoteMap(id, m) => Update(s, id, s.rows[id].(privileges := m), DemoteFlag(id))
    case DemoteFlag(id) => Update(s, id, s.rows[id].(isAdmin := false), Free)
    case SetMap(id, m) => Update(s, id, s.rows[id].(privileges := m), Free)
    case Insert(name, row) =>
      Shared(s.users[name := s.nextId], s.rows[s.nextId := row], s.nextId + 1,
             if row.account == s.nextAccount then s.nextAccount + 1 else s.nextAccount, Free)
    case Delete(name) => s.(users := s.users - {name}, pending := Free)
    case RenamePop(from, to) => s.(users := s.users - {from}, pending := RenamePush(to, s.users[from]))
    case RenamePush(to, id) => s.(users := s.users[to := id], pending := Free)
  }

  ghost predicate Linked(users: map<string, nat>, id: nat) {
    exists n :: n in users && users[n] == id
  }

  /** The row object is reachable: under some name, or in the hands of a rename. */
  ghost predicate Live(s: Shared, id: nat) {
    Linked(s.users, id) || (s.pending.RenamePush? && s.pending.id == id)
  }

  ghost predicate PendingOk(s: Shared) {
    match s.pending
    case PromoteFlag(id) => id in s.rows && Linked(s.users, id) && !s.rows[id].isAdmin
    case PromoteStash(id) => id in s.rows && Linked(s.users, id) && s.rows[id].isAdmin
    case PromoteMap(id) =>
      && id in s.rows && Linked(s.users, id) && s.rows[id].isAdmin
      && s.rows[id].stash == Some(OrDefaults(s.rows[id].privileges))
    case DemotePop(id) => id in s.rows && Linked(s.users, id) && s.rows[id].isAdmin
    case DemoteMap(id, m) => id in s.rows && Linked(s.users, id) && s.rows[id].isAdmin
    case DemoteFlag(id) => id in s.rows && Linked(s.users, id) && s.rows[id].isAdmin
    case SetMap(id, m) => id in s.rows && Linked(s.users, id) && !s.rows[id].isAdmin
    case Delete(name) => name in s.users
    case RenamePop(from, to) => from in s.users && to !in s.users && from != to
    case RenamePush(to, id) => id in s.rows && to !in s.users && !Linked(s.users, id)
    case Insert(name, row) => row.account <= s.nextAccount
    case Free => true
  }

  ghost predicate Coherent(s: Shared) {
    && (forall n :: n in s.users ==> s.users[n] in s.rows)
    && (forall id :: id in s.rows ==> id < s.nextId && s.rows[id].account < s.nextAccount)
    && (forall n, m :: n in s.users && m in s.users && s.users[n] == s.users[m] ==> n == m)
    && PendingOk(s)
  }

  /** A thread that takes the lock only plans, and every plan starts at the first write of
      its kind. Which operation it is does not matter to the readers. */
  ghost predicate Plans(s: Shared, s': Shared) {
    && s' == s.(pending := s'.pending)
    && PendingOk(s')
    && match s'.pending
       case Free => true
       case PromoteFlag(_) => true
       case DemotePop(_) => true
       case SetMap(_, _) => true
       case Insert(_, _) => true
       case Delete(_) => true
       case RenamePop(_, _) => true
       case _ => false
  }

  /** What is known of the change that an operation decides on. */
  ghost predicate Fits(s: Shared, op: Op, c: Change) {
    match c
    case Keep => true
    case Remove(name) => name in s.users
    case Move(from, to) => from in s.users && to !in s.users
    case Put(name, row) =>
      if op.OpSetPrivileges? then
        && name in s.users && s.users[name] in s.rows && !s.rows[s.users[name]].isAdmin
        && row == s.rows[s.users[name]].(privileges := row.privileges)
      else if op.OpSetAdmin? then
        && name in s.users && s.users[name] in s.rows && s.rows[s.users[name]].isAdmin == !op.isAdmin
        && row == if op.isAdmin then Promoted(s.rows[s.users[name]]) else Demoted(s.rows[s.users[name]])
      else row.account <= s.nextAccount
  }

  lemma ChangeFits(s: Shared, op: Op)
    requires Coherent(s)
    ensures Fits(s, op, ChangeOf(AsState(s), op))
  {
  }

  lemma FittingPlan(s: Shared, op: Op, c: Change)
    requires Coherent(s) && s.pending.Free? && Fits(s, op, c)
    ensures Plans(s, s.(pending := PlanFor(s, op, c)))
  {
    forall n | n in s.users
      ensures Linked(s.users, s.users[n])
    {
    }
  }

  lemma BeginOnlyPlans(s: Shared, op: Op)
    requires Coherent(s) && s.pending.Free?
    ensures Plans(s, Begin(s, op))
  {
    ChangeFits(s, op);
    FittingPlan(s, op, ChangeOf(AsState(s), op));
  }

  predicate Promoting(p: Pending) { p.PromoteFlag? || p.PromoteStash? || p.PromoteMap? }

  predicate Demoting(p: Pending) { p.DemotePop? || p.DemoteMap? || p.DemoteFlag? }

  lemma RowWriteKeepsCoherent(s: Shared)
    requires Coherent(s) && (Promoting(s.pending) || Demoting(s.pending) || s.pending.SetMap?)
    ensures Coherent(Write(s))
  {
  }

  lemma TableWriteKeepsCoherent(s: Shared)
    requires Coherent(s) && !Promoting(s.pending) && !Demoting(s.pending) && !s.pending.SetMap?
    ensures Coherent(Write(s))
  {
  }

  lemma WriteKeepsCoherent(s: Shared)
    requires Coherent(s)
    ensures Coherent(Write(s))
  {
    if Promoting(s.pending) || Demoting(s.pending) || s.pending.SetMap? {
      RowWriteKeepsCoherent(s);
    } else {
      TableWriteKeepsCoherent(s);
    }
  }

  /** One step of the shared state: nothing (a reader or another thread moved), a thread
      takes the lock, or the lock holder writes. */
  ghost predicate Next(s: Shared, s': Shared)
    requires Coherent(s)
  {
    || s' == s
    || (s.pending.Free? && Plans(s, s'))
    || (!s.pending.Free? && s' == Write(s))
  }

  ghost predicate IsTrace(tr: seq<Shared>) {
    && (forall t {:trigger Coherent(tr[t])} :: 0 <= t < |tr| ==> Coherent(tr[t]))
    && (forall t, t' {:trigger Next(tr[t], tr[t'])} :: 0 <= t < |tr| - 1 && t' == t + 1 ==> Next(tr[t], tr[t']))
  }
}
