/** What lock-free readers of the account table are told. */
module LinearizableReads {
  import opened Common
  import opened Privileges
  import opened Accounts
  import opened PlainAccounts
  import opened LockFreeReads
  import opened AuthInterleaving

  /** The map that a row has, or will get back when its demotion is done. */
  function Retained(s: Shared, id: nat): PrivMap
    requires id in s.rows
  {
    var row := s.rows[id];
    match s.pending
    case PromoteStash(p) => if p == id then WithDefaults(row.privileges) else OwnMap(row)
    case DemoteMap(p, m) => if p == id then WithDefaults(m) else OwnMap(row)
    case DemoteFlag(p) => if p == id then WithDefaults(row.privileges) else OwnMap(row)
    case _ => OwnMap(row)
  }

  ghost function ViewOf(s: Shared, id: nat): View<PrivMap>
    requires id in s.rows
  {
    View(Live(s, id), s.rows[id].isAdmin, WithDefaults(s.rows[id].privileges), Retained(s, id))
  }

  lemma PromotionMoves(s: Shared, id: nat)
    requires Coherent(s) && Promoting(s.pending) && id in s.rows
    ensures Moves(ViewOf(s, id), ViewOf(Write(s), id), AdminPrivileges())
  {
    hide WithDefaults;
    AdminMapIsComplete();
    WithDefaultsFacts(s.rows[id].privileges);
  }

  lemma DemotionMoves(s: Shared, id: nat)
    requires Coherent(s) && Demoting(s.pending) && id in s.rows
    ensures Moves(ViewOf(s, id), ViewOf(Write(s), id), AdminPrivileges())
  {
    hide WithDefaults, AdminPrivileges;
    WithDefaultsFacts(s.rows[id].stash.GetOr(map[]));
  }

  lemma LivenessOnlyEnds(s: Shared, id: nat)
    requires Coherent(s) && !Promoting(s.pending) && !Demoting(s.pending) && id in s.rows
    ensures Live(Write(s), id) ==> Live(s, id)
    ensures s.pending.SetMap? && s.pending.id == id ==> Live(Write(s), id)
  {
    var s' := Write(s);
    if Linked(s'.users, id) {
      var n :| n in s'.users && s'.users[n] == id;
      assert n in s.users ==> Linked(s.users, s.users[n]);
    }
  }

  lemma TableWriteMoves(s: Shared, id: nat)
    requires Coherent(s) && !Promoting(s.pending) && !Demoting(s.pending) && id in s.rows
    ensures id in Write(s).rows && Moves(ViewOf(s, id), ViewOf(Write(s), id), AdminPrivileges())
  {
    hide WithDefaults, AdminPrivileges, Live;
    LivenessOnlyEnds(s, id);
  }

  /** What one step of any thread does to a row object is a move of its view. */
  lemma StepMovesView(s: Shared, s': Shared, id: nat)
    requires Coherent(s) && Next(s, s') && id in s.rows
    ensures id in s'.rows && Moves(ViewOf(s, id), ViewOf(s', id), AdminPrivileges())
  {
    if !s.pending.Free? && s' != s {
      if Promoting(s.pending) {
        PromotionMoves(s, id);
      } else if Demoting(s.pending) {
        DemotionMoves(s, id);
      } else {
        TableWriteMoves(s, id);
      }
    }
  }

  lemma TraceMovesView(tr: seq<Shared>, t: nat, id: nat)
    requires IsTrace(tr) && t + 1 < |tr| && id in tr[t].rows
    ensures id in tr[t + 1].rows
    ensures Moves(ViewOf(tr[t], id), ViewOf(tr[t + 1], id), AdminPrivileges())
  {
    assert Coherent(tr[t]) && Next(tr[t], tr[t + 1]);
    StepMovesView(tr[t], tr[t + 1], id);
  }

  lemma LoweredFlagRetains(tr: seq<Shared>, t: nat, id: nat)
    requires IsTrace(tr) && t < |tr| && id in tr[t].rows && !tr[t].rows[id].isAdmin
    ensures Retained(tr[t], id) == WithDefaults(tr[t].rows[id].privileges)
  {
    assert Coherent(tr[t]);
  }

  lemma {:induction false} RowsStay(tr: seq<Shared>, i: nat, t: nat, id: nat)
    requires IsTrace(tr) && i <= t < |tr| && id in tr[i].rows
    ensures id in tr[t].rows
    decreases t
  {
    if i < t {
      RowsStay(tr, i, t - 1, id);
      TraceMovesView(tr, t - 1, id);
    }
  }

  /** The views of a row object from instant i on. */
  ghost function Views(tr: seq<Shared>, i: nat, id: nat): (vs: seq<View<PrivMap>>)
    requires i <= |tr| && forall t :: i <= t < |tr| ==> id in tr[t].rows
    ensures |vs| == |tr| - i
    decreases |tr| - i
  {
    if i == |tr| then [] else [ViewOf(tr[i], id)] + Views(tr, i + 1, id)
  }

  lemma {:induction false} ViewsAt(tr: seq<Shared>, i: nat, id: nat, t: nat)
    requires i <= t < |tr| && forall t' :: i <= t' < |tr| ==> id in tr[t'].rows
    ensures Views(tr, i, id)[t - i] == ViewOf(tr[t], id)
    decreases t - i
  {
    if i < t {
      ViewsAt(tr, i + 1, id, t);
    }
  }

  lemma ViewsAreHistory(tr: seq<Shared>, i: nat, id: nat)
    requires IsTrace(tr) && i < |tr| && forall t :: i <= t < |tr| ==> id in tr[t].rows
    ensures History(Views(tr, i, id), AdminPrivileges())
  {
    var vs := Views(tr, i, id);
    forall t | 0 <= t < |vs| - 1
      ensures Moves(vs[t], vs[t + 1], AdminPrivileges())
    {
      ViewsAt(tr, i, id, i + t);
      ViewsAt(tr, i, id, i + t + 1);
      TraceMovesView(tr, i + t, id);
    }
    forall t | 0 <= t < |vs| && !vs[t].raised
      ensures vs[t].retained == vs[t].stored
    {
      ViewsAt(tr, i, id, i + t);
      LoweredFlagRetains(tr, i + t, id);
    }
  }

  /** What a row object allows at one instant. */
  function Effective(row: Row): PrivMap {
    if row.isAdmin then AdminPrivileges() else WithDefaults(row.privileges)
  }

  /** The row object found under a name stays readable for the rest of the call. */
  lemma RowIsReadable(tr: seq<Shared>, i: nat, name: string)
    requires IsTrace(tr) && i < |tr| && name in tr[i].users
    ensures Live(tr[i], tr[i].users[name])
    ensures forall t :: i <= t < |tr| ==> tr[i].users[name] in tr[t].rows
  {
    var id := tr[i].users[name];
    assert Coherent(tr[i]);
    assert Linked(tr[i].users, id);
    forall t | i <= t < |tr|
      ensures id in tr[t].rows
    {
      RowsStay(tr, i, t, id);
    }
  }

  /** The answer of a reader who finds the flag of `first` and then the map of `second`. */
  function FlagThenMap(first: Row, second: Row): PrivMap {
    if first.isAdmin then AdminPrivileges() else WithDefaults(second.privileges)
  }

  /** `get_privileges` with its three reads at the instants i, j and k. */
  function ReadPrivileges(tr: seq<Shared>, i: nat, j: nat, k: nat, name: string): PrivMap
    requires i <= j <= k < |tr| && IsTrace(tr)
  {
    if name !in tr[i].users then WithDefaults(map[])
    else
      var id := tr[i].users[name];
      RowIsReadable(tr, i, name);
      FlagThenMap(tr[j].rows[id], tr[k].rows[id])
  }

  /** The account behind `id` existed at instant u and allowed `m`. */
  ghost predicate AllowedAt(tr: seq<Shared>, u: int, id: nat, m: PrivMap) {
    0 <= u < |tr| && id in tr[u].rows && Live(tr[u], id) && Effective(tr[u].rows[id]) == m
  }

  /** The flag of a row at j and its map at k, in terms of the row's views from i on. */
  lemma ViewsAreReads(tr: seq<Shared>, i: nat, j: nat, k: nat, u: nat, id: nat)
    requires i <= j <= k < |tr| && i <= u <= k && forall t :: i <= t < |tr| ==> id in tr[t].rows
    ensures var vs := Views(tr, i, id);
            && vs[u - i].live
            && InForce(vs[u - i], AdminPrivileges()) == (if vs[j - i].raised then AdminPrivileges() else vs[k - i].stored)
            ==> AllowedAt(tr, u, id, FlagThenMap(tr[j].rows[id], tr[k].rows[id]))
  {
    ViewsAt(tr, i, id, u);
    ViewsAt(tr, i, id, j);
    ViewsAt(tr, i, id, k);
  }

  /** Lock-free reads are linearizable: under every interleaving the returned map is what
      the account allowed at some instant of the call at which it existed, or what an
      unknown name is allowed when the name was unknown at the first read. */
  lemma ReadIsLinearizable(tr: seq<Shared>, i: nat, j: nat, k: nat, name: string)
    requires IsTrace(tr) && i <= j <= k < |tr|
    ensures name !in tr[i].users ==> ReadPrivileges(tr, i, j, k, name) == GetPrivileges(TableOf(tr[i]), name)
    ensures name in tr[i].users ==>
              exists u :: i <= u <= k && AllowedAt(tr, u, tr[i].users[name], ReadPrivileges(tr, i, j, k, name))
  {
    if name in tr[i].users {
      var id := tr[i].users[name];
      RowIsReadable(tr, i, name);
      ViewsAreHistory(tr, i, id);
      var u := TwoReadsSeeValueInForce(Views(tr, i, id), AdminPrivileges(), j - i, k - i);
      ViewsAreReads(tr, i, j, k, i + u, id);
      assert AllowedAt(tr, i + u, id, ReadPrivileges(tr, i, j, k, name));
    }
  }

  /** By name: if the account keeps its name for as long as it exists during the call, the
      returned map is what that name allowed at some instant of the call. */
  lemma ReadIsLinearizableByName(tr: seq<Shared>, i: nat, j: nat, k: nat, name: string)
    requires IsTrace(tr) && i <= j <= k < |tr| && name in tr[i].users
    requires forall u :: i <= u <= k && Live(tr[u], tr[i].users[name]) ==>
               name in tr[u].users && tr[u].users[name] == tr[i].users[name]
    ensures exists u :: i <= u <= k && ReadPrivileges(tr, i, j, k, name) == GetPrivileges(TableOf(tr[u]), name)
  {
    ReadIsLinearizable(tr, i, j, k, name);
    var id, m := tr[i].users[name], ReadPrivileges(tr, i, j, k, name);
    var u :| i <= u <= k && AllowedAt(tr, u, id, m);
    assert name in tr[u].users && tr[u].users[name] == id;
    assert m == GetPrivileges(TableOf(tr[u]), name);
  }
}
