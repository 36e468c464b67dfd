/** Why reads are linearizable by account and not by name. The account "a" is renamed to
    "b" and then given another map while a reader that looked "a" up before the rename
    has yet to read the map. */
module RenameRace {
  import opened Common
  import opened Privileges
  import opened PyText
  import opened Accounts
  import opened AuthInterleaving
  import opened LinearizableReads

  function Before(pending: Pending, row: Row, root: Row): Shared {
    Shared(map["a" := 0, "r" := 1], map[0 := row, 1 := root], 2, 2, pending)
  }

  function Midway(row: Row, root: Row): Shared {
    Shared(map["r" := 1], map[0 := row, 1 := root], 2, 2, RenamePush("b", 0))
  }

  function After(pending: Pending, row: Row, root: Row): Shared {
    Shared(map["b" := 0, "r" := 1], map[0 := row, 1 := root], 2, 2, pending)
  }

  function RenameThenSet(row: Row, root: Row, m: PrivMap): seq<Shared> {
    [ Before(Free, row, root),
      Before(RenamePop("a", "b"), row, root),
      Midway(row, root),
      After(Free, row, root),
      After(SetMap(0, m), row, root),
      After(Free, row.(privileges := m), root) ]
  }

  predicate Sample(row: Row, root: Row) {
    row.account == 0 && !row.isAdmin && root.account == 1 && root.isAdmin
  }

  lemma BeforeIsCoherent(row: Row, root: Row, pending: Pending)
    requires Sample(row, root) && (pending == Free || pending == RenamePop("a", "b"))
    ensures Coherent(Before(pending, row, root))
  {
  }

  lemma BeforePops(row: Row, root: Row)
    requires Sample(row, root) && Coherent(Before(RenamePop("a", "b"), row, root))
    ensures Write(Before(RenamePop("a", "b"), row, root)) == Midway(row, root)
  {
    hide Coherent;
    assert Before(RenamePop("a", "b"), row, root).users - {"a"} == map["r" := 1];
  }

  lemma BeforeSteps(row: Row, root: Row)
    requires Sample(row, root)
    ensures Coherent(Before(Free, row, root)) && Coherent(Before(RenamePop("a", "b"), row, root))
    ensures Next(Before(Free, row, root), Before(RenamePop("a", "b"), row, root))
    ensures Next(Before(RenamePop("a", "b"), row, root), Midway(row, root))
  {
    BeforeIsCoherent(row, root, Free);
    BeforeIsCoherent(row, root, RenamePop("a", "b"));
    BeforePops(row, root);
  }

  lemma MidwayStep(row: Row, root: Row)
    requires Sample(row, root)
    ensures Coherent(Midway(row, root)) && Next(Midway(row, root), After(Free, row, root))
  {
    var s := Midway(row, root);
    assert s.users["b" := 0] == map["b" := 0, "r" := 1];
  }

  lemma AfterIsCoherent(row: Row, root: Row, pending: Pending)
    requires Sample(row, root) && (pending == Free || (pending.SetMap? && pending.id == 0))
    ensures Coherent(After(pending, row, root))
  {
    var s := After(pending, row, root);
    assert s.users["b"] == 0 && Linked(s.users, 0);
  }

  lemma AfterSets(row: Row, root: Row, m: PrivMap)
    requires Sample(row, root) && Coherent(After(SetMap(0, m), row, root))
    ensures Write(After(SetMap(0, m), row, root)) == After(Free, row.(privileges := m), root)
  {
    hide Coherent;
    var s := After(SetMap(0, m), row, root);
    assert s.rows[0 := row.(privileges := m)] == map[0 := row.(privileges := m), 1 := root];
  }

  lemma AfterSteps(row: Row, root: Row, m: PrivMap)
    requires Sample(row, root)
    ensures Coherent(After(Free, row, root)) && Coherent(After(SetMap(0, m), row, root))
    ensures Next(After(Free, row, root), After(SetMap(0, m), row, root))
    ensures Next(After(SetMap(0, m), row, root), After(Free, row.(privileges := m), root))
  {
    AfterIsCoherent(row, root, Free);
    AfterIsCoherent(row, root, SetMap(0, m));
    AfterSets(row, root, m);
  }

  lemma TraceExtends(tr: seq<Shared>, s: Shared)
    requires IsTrace(tr) && tr != [] && Coherent(tr[|tr| - 1]) && Coherent(s) && Next(tr[|tr| - 1], s)
    ensures IsTrace(tr + [s])
  {
    var tr' := tr + [s];
    forall t | 0 <= t < |tr'|
      ensures Coherent(tr'[t])
    {
      assert t < |tr| ==> Coherent(tr[t]);
    }
    forall t, t' {:trigger Next(tr'[t], tr'[t'])} | 0 <= t < |tr'| - 1 && t' == t + 1
      ensures Next(tr'[t], tr'[t'])
    {
      assert t' < |tr| ==> Next(tr[t], tr[t']);
    }
  }

  lemma ThreeStatesAreTrace(s0: Shared, s1: Shared, s2: Shared)
    requires Coherent(s0) && Coherent(s1) && Coherent(s2) && Next(s0, s1) && Next(s1, s2)
    ensures IsTrace([s0, s1, s2])
  {
    TraceExtends([s0], s1);
    TraceExtends([s0, s1], s2);
  }

  lemma SixStatesAreTrace(s0: Shared, s1: Shared, s2: Shared, s3: Shared, s4: Shared, s5: Shared)
    requires IsTrace([s0, s1, s2])
    requires Coherent(s2) && Coherent(s3) && Coherent(s4) && Coherent(s5)
    requires Next(s2, s3) && Next(s3, s4) && Next(s4, s5)
    ensures IsTrace([s0, s1, s2, s3, s4, s5])
  {
    hide Next, Coherent;
    TraceExtends([s0, s1, s2], s3);
    TraceExtends([s0, s1, s2, s3], s4);
    TraceExtends([s0, s1, s2, s3, s4], s5);
  }

  lemma RenameThenSetIsTrace(row: Row, root: Row, m: PrivMap)
    requires Sample(row, root)
    ensures IsTrace(RenameThenSet(row, root, m))
  {
    var row' := row.(privileges := m);
    BeforeSteps(row, root);
    MidwayStep(row, root);
    AfterSteps(row, root, m);
    AfterSteps(row', root, m);
    ThreeStatesAreTrace(Before(Free, row, root), Before(RenamePop("a", "b"), row, root), Midway(row, root));
    SixStatesAreTrace(
      Before(Free, row, root), Before(RenamePop("a", "b"), row, root), Midway(row, root),
      After(Free, row, root), After(SetMap(0, m), row, root), After(Free, row', root));
  }

  lemma NameDuringSample(row: Row, root: Row, pending: Pending)
    requires Sample(row, root)
    ensures GetPrivileges(TableOf(Before(pending, row, root)), "a") == WithDefaults(row.privileges)
    ensures GetPrivileges(TableOf(Midway(row, root)), "a") == WithDefaults(map[])
    ensures GetPrivileges(TableOf(After(pending, row, root)), "a") == WithDefaults(map[])
  {
    assert TableOf(Before(pending, row, root))["a"] == row;
    assert "a" !in TableOf(Midway(row, root)) && "a" !in TableOf(After(pending, row, root));
  }

  lemma NamesDuringSample(row: Row, root: Row, m: PrivMap, u: nat)
    requires Sample(row, root) && u < 6
    ensures GetPrivileges(TableOf(RenameThenSet(row, root, m)[u]), "a") in {WithDefaults(row.privileges), WithDefaults(map[])}
  {
    hide GetPrivileges, WithDefaults, TableOf;
    NameDuringSample(row, root, Free);
    NameDuringSample(row, root, RenamePop("a", "b"));
    NameDuringSample(row, root, SetMap(0, m));
    NameDuringSample(row.(privileges := m), root, Free);
  }

  /** Without that proviso reads by name are not linearizable: the reader of "a" is told what
      "a" was allowed at no instant of the call exactly when the new map allows something else
      than the old one and than the defaults. */
  lemma ReadByNameMissesExactlyWhen(row: Row, root: Row, m: PrivMap)
    requires Sample(row, root)
    ensures var tr := RenameThenSet(row, root, m);
            && IsTrace(tr)
            && ((forall u :: 0 <= u < |tr| ==> ReadPrivileges(tr, 0, 5, 5, "a") != GetPrivileges(TableOf(tr[u]), "a"))
                <==> WithDefaults(m) != WithDefaults(row.privileges) && WithDefaults(m) != WithDefaults(map[]))
  {
    hide Coherent, IsTrace, GetPrivileges, WithDefaults, TableOf, ReadPrivileges;
    RenameThenSetIsTrace(row, root, m);
    var tr := RenameThenSet(row, root, m);
    SampleReadsTheNewMap(row, root, m);
    NameDuringSample(row, root, Free);
    assert GetPrivileges(TableOf(tr[0]), "a") == WithDefaults(row.privileges);
    assert GetPrivileges(TableOf(tr[2]), "a") == WithDefaults(map[]);
    forall u | 0 <= u < |tr|
      ensures GetPrivileges(TableOf(tr[u]), "a") in {WithDefaults(row.privileges), WithDefaults(map[])}
    {
      NamesDuringSample(row, root, m, u);
    }
  }

  lemma SampleReadsTheNewMap(row: Row, root: Row, m: PrivMap)
    requires Sample(row, root) && IsTrace(RenameThenSet(row, root, m))
    ensures ReadPrivileges(RenameThenSet(row, root, m), 0, 5, 5, "a") == WithDefaults(m)
  {
    hide IsTrace, Coherent, WithDefaults;
  }

  lemma NormalNames()
    ensures Normalize("a") == "a" && Normalize("b") == "b" && Normalize("r") == "r"
  {
    StripOfTrimmed("a");
    StripOfTrimmed("b");
    StripOfTrimmed("r");
    assert Lower("a") == "a" && Lower("b") == "b" && Lower("r") == "r";
  }

  /** The rename of that trace is a `rename_user` call by the admin "r". */
  lemma SampleRenameIsReal(row: Row, root: Row)
    requires Sample(row, root)
    ensures Begin(Before(Free, row, root), OpRename("a", "b", "r")) == Before(RenamePop("a", "b"), row, root)
  {
    hide Normalize, Coherent, WithDefaults;
    NormalNames();
    var s := Before(Free, row, root);
    assert "a" in TableOf(s) && "b" !in TableOf(s) && IsAdmin(TableOf(s), "r");
    assert ChangeOf(AsState(s), OpRename("a", "b", "r")) == Move("a", "b");
  }

  /** And the write is a `set_privileges` call for "b". */
  lemma SampleUpdateIsReal(row: Row, root: Row, updates: PrivMap)
    requires Sample(row, root)
    ensures Begin(After(Free, row, root), OpSetPrivileges("b", updates))
            == After(SetMap(0, WithDefaults(row.privileges) + KnownUpdates(updates)), row, root)
  {
    hide Normalize, Coherent;
    NormalNames();
    var s := After(Free, row, root);
    assert "b" in TableOf(s) && TableOf(s)["b"] == row;
    assert ChangeOf(AsState(s), OpSetPrivileges("b", updates))
           == Put("b", row.(privileges := WithDefaults(row.privileges) + KnownUpdates(updates)));
  }
}
