/** The config lock serializes the writers: their single writes add up to the operations of
    Accounts.dfy, so what those keep is kept under every interleaving. */
module SerializedWriters {
  import opened Common
  import opened Privileges
  import opened Accounts
  import opened AuthTheorems
  import opened AuthInterleaving

  function Remaining(p: Pending): nat {
    match p
    case Free => 0
    case PromoteFlag(_) => 3
    case PromoteStash(_) => 2
    case PromoteMap(_) => 1
    case DemotePop(_) => 3
    case DemoteMap(_, _) => 2
    case DemoteFlag(_) => 1
    case RenamePop(_, _) => 2
    case _ => 1
  }

  /** Let the lock holder finish. */
  ghost function Settle(s: Shared): Shared
    requires Coherent(s)
    decreases Remaining(s.pending)
  {
    if s.pending.Free? then s else WriteKeepsCoherent(s); Settle(Write(s))
  }

  /** What a write of the lock holder does to the table that name readers see. */
  lemma UpdateShows(s: Shared, name: string, row: Row, then': Pending)
    requires Coherent(s) && name in s.users
    ensures TableOf(Update(s, s.users[name], row, then')) == TableOf(s)[name := row]
    ensures name in TableOf(s) && TableOf(s)[name] == s.rows[s.users[name]]
  {
  }

  lemma SettledPromotion(s: Shared, name: string)
    requires Coherent(s) && name in s.users && s.pending == PromoteFlag(s.users[name])
    ensures var end := Settle(s);
            && end.pending == Free && TableOf(end) == TableOf(s)[name := Promoted(TableOf(s)[name])]
            && end.nextAccount == s.nextAccount
  {
    hide TableOf;
    var id, row := s.users[name], s.rows[s.users[name]];
    var s1 := Write(s);
    WriteKeepsCoherent(s);
    var s2 := Write(s1);
    WriteKeepsCoherent(s1);
    var s3 := Write(s2);
    WriteKeepsCoherent(s2);
    assert s3 == Update(s, id, Promoted(row), Free);
    assert Settle(s) == Settle(s1) == Settle(s2) == Settle(s3) == s3;
    UpdateShows(s, name, Promoted(row), Free);
  }

  lemma SettledDemotion(s: Shared, name: string)
    requires Coherent(s) && name in s.users && s.pending == DemotePop(s.users[name])
    ensures var end := Settle(s);
            && end.pending == Free && TableOf(end) == TableOf(s)[name := Demoted(TableOf(s)[name])]
            && end.nextAccount == s.nextAccount
  {
    hide TableOf;
    var id, row := s.users[name], s.rows[s.users[name]];
    var s1 := Write(s);
    WriteKeepsCoherent(s);
    var s2 := Write(s1);
    WriteKeepsCoherent(s1);
    var s3 := Write(s2);
    WriteKeepsCoherent(s2);
    assert s3 == Update(s, id, Demoted(row), Free);
    assert Settle(s) == Settle(s1) == Settle(s2) == Settle(s3) == s3;
    UpdateShows(s, name, Demoted(row), Free);
  }

  lemma SettledRename(s: Shared, from: string, to: string)
    requires Coherent(s) && s.pending == RenamePop(from, to)
    ensures var end := Settle(s);
            && end.pending == Free && TableOf(end) == Apply(TableOf(s), Move(from, to))
            && end.nextAccount == s.nextAccount
  {
    hide TableOf, Apply;
    var s1 := Write(s);
    WriteKeepsCoherent(s);
    var s2 := Write(s1);
    WriteKeepsCoherent(s1);
    assert Settle(s) == Settle(s1) == Settle(s2) == s2;
    RenameShows(s, from, to);
  }

  lemma RenameShows(s: Shared, from: string, to: string)
    requires Coherent(s) && from in s.users
    ensures TableOf(s.(users := (s.users - {from})[to := s.users[from]], pending := Free)) == Apply(TableOf(s), Move(from, to))
  {
  }

  lemma SettledSetMap(s: Shared, name: string, m: PrivMap)
    requires Coherent(s) && name in s.users && s.pending == SetMap(s.users[name], m)
    ensures var end := Settle(s);
            && end.pending == Free && TableOf(end) == TableOf(s)[name := TableOf(s)[name].(privileges := m)]
            && end.nextAccount == s.nextAccount
  {
    WriteKeepsCoherent(s);
    assert Settle(s) == Settle(Write(s)) == Write(s);
    UpdateShows(s, name, s.rows[s.users[name]].(privileges := m), Free);
  }

  lemma SettledInsert(s: Shared, name: string, row: Row)
    requires Coherent(s) && s.pending == Insert(name, row)
    ensures var end := Settle(s);
            && end.pending == Free && TableOf(end) == TableOf(s)[name := row]
            && end.nextAccount == (if row.account == s.nextAccount then s.nextAccount + 1 else s.nextAccount)
  {
    hide PendingOk;
    WriteKeepsCoherent(s);
    var s' := Write(s);
    assert Settle(s) == Settle(s') == s';
    forall n | n in s.users
      ensures s.users[n] in s'.rows && s'.rows[s.users[n]] == s.rows[s.users[n]]
    {
      assert s.users[n] < s.nextId;
    }
  }

  lemma SettledDelete(s: Shared, name: string)
    requires Coherent(s) && s.pending == Delete(name)
    ensures var end := Settle(s);
            && end.pending == Free && TableOf(end) == TableOf(s) - {name} && end.nextAccount == s.nextAccount
  {
    WriteKeepsCoherent(s);
    assert Settle(s) == Settle(Write(s)) == Write(s);
  }

  lemma PlanIsCoherent(s: Shared, op: Op, c: Change)
    requires Coherent(s) && s.pending.Free? && Fits(s, op, c)
    ensures Coherent(s.(pending := PlanFor(s, op, c)))
  {
    FittingPlan(s, op, c);
  }

  lemma PlanIsTheChange(s: Shared, op: Op, c: Change)
    requires Coherent(s) && s.pending.Free? && Fits(s, op, c)
    ensures var s' := s.(pending := PlanFor(s, op, c));
            && Coherent(s') && Settle(s').pending == Free
            && AsState(Settle(s')) == Commit(AsState(s), c)
  {
    hide PendingOk, OrDefaults, AdminPrivileges;
    var s' := s.(pending := PlanFor(s, op, c));
    PlanIsCoherent(s, op, c);
    assert TableOf(s') == TableOf(s);
    match s'.pending
    case PromoteFlag(_) => SettledPromotion(s', c.name);
    case DemotePop(_) => SettledDemotion(s', c.name);
    case RenamePop(from, to) => SettledRename(s', from, to);
    case SetMap(id, m) => SettledSetMap(s', c.name, m);
    case Insert(_, _) => SettledInsert(s', c.name, c.row);
    case Delete(_) => SettledDelete(s', c.name);
    case Free =>
  }

  /** Run without interruption, the single writes of an operation are the operation. */
  lemma WritesAreTheOperation(s: Shared, op: Op)
    requires Coherent(s) && s.pending.Free?
    ensures Coherent(Begin(s, op))
    ensures Settle(Begin(s, op)).pending == Free
    ensures AsState(Settle(Begin(s, op))) == Commit(AsState(s), ChangeOf(AsState(s), op))
  {
    ChangeFits(s, op);
    PlanIsTheChange(s, op, ChangeOf(AsState(s), op));
  }

  /** A step of native operations only, with nothing assumed about their order. */
  ghost predicate NativeNext(s: Shared, s': Shared) {
    && Coherent(s)
    && (|| s' == s
        || (s.pending.Free? && exists op: Op :: !op.OpSso? && s' == Begin(s, op))
        || (!s.pending.Free? && s' == Write(s)))
  }

  ghost predicate IsNativeTrace(tr: seq<Shared>) {
    forall t, t' {:trigger NativeNext(tr[t], tr[t'])} :: 0 <= t < |tr| - 1 && t' == t + 1 ==> NativeNext(tr[t], tr[t'])
  }

  ghost predicate HasAdminOnceSettled(s: Shared) {
    && Coherent(s)
    && Inv(AsState(Settle(s)))
    && AdminNames(TableOf(Settle(s))) != {}
  }

  lemma NativeStepKeepsAnAdmin(s: Shared, s': Shared)
    requires HasAdminOnceSettled(s) && NativeNext(s, s')
    ensures HasAdminOnceSettled(s')
  {
    if s' != s && s.pending.Free? {
      var op: Op :| !op.OpSso? && s' == Begin(s, op);
      var st := AsState(s);
      WritesAreTheOperation(s, op);
      ChangeIsAllowed(st, op);
      ChangeSparesAnAdmin(st, op);
      SparingChangeKeepsAnAdmin(st, ChangeOf(st, op));
      CommitKeepsTableOk(st, ChangeOf(st, op));
    } else if s' != s {
      WriteKeepsCoherent(s);
    }
  }

  lemma NativeTraceStep(tr: seq<Shared>, t: nat)
    requires t + 1 < |tr| && IsNativeTrace(tr) && HasAdminOnceSettled(tr[t])
    ensures HasAdminOnceSettled(tr[t + 1])
  {
    assert NativeNext(tr[t], tr[t + 1]);
    NativeStepKeepsAnAdmin(tr[t], tr[t + 1]);
  }

  lemma NativeTraceKeepsAnAdmin(tr: seq<Shared>, t: nat)
    requires t < |tr| && IsNativeTrace(tr) && HasAdminOnceSettled(tr[0])
    ensures HasAdminOnceSettled(tr[t])
  {
    forall u | 0 <= u < |tr| - 1 && HasAdminOnceSettled(tr[u])
      ensures HasAdminOnceSettled(tr[u + 1])
    {
      NativeTraceStep(tr, u);
    }
    HoldsThroughout((s: Shared) => HasAdminOnceSettled(s), tr, t);
  }

  /** No lock-out under any interleaving: whenever the config lock is free, some account
      is an admin. Between the two writes of a rename there may be none to be seen. */
  lemma InterleavingKeepsAnAdmin(tr: seq<Shared>, t: nat)
    requires t < |tr| && IsNativeTrace(tr) && tr[t].pending.Free?
    requires Coherent(tr[0]) && tr[0].pending.Free? && Inv(AsState(tr[0])) && AdminNames(TableOf(tr[0])) != {}
    ensures AdminNames(TableOf(tr[t])) != {}
  {
    NativeTraceKeepsAnAdmin(tr, t);
  }
}
