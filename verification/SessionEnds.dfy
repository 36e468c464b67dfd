/** Who is logged out, and for how long: which sections end a session, what a rename does to it,
    what a restart finds, and when a session that was dropped comes back. */
module SessionEnds {
  import opened Common
  import opened PyText
  import opened Accounts
  import opened AuthTheorems
  import opened SessionRaces
  import opened NamesInFlight
  import opened SessionWindows

  /** The sections that end the session of `t`: a check of the token when it has expired or its
      user name is not in the table, a revocation, the purge, and a restart that does not find
      it, unexpired, in the file. */
  predicate SectionEnds(r: Racing, section: Section, t: nat)
    requires t in r.s.sessions
  {
    var session := r.s.sessions[t];
    match section
    case FinishFollow(_) => false
    case FinishPurge(name) => name in r.purging && session.username == name
    case First(OpUse(token, now)) => token == Some(t) && (now > session.expiry || session.username !in r.s.users)
    case First(OpRevoke(token)) => token == t
    case First(OpRevokeAll(name, keep)) => session.username == Normalize(name) && keep != Some(t)
    case First(OpReload(now)) => !(t in r.file && now < r.file[t].expiry)
    case First(_) => false
    case _ => false
  }

  function NameAfter(r: Racing, section: Section, name: string): string {
    if section.FinishFollow? && section.from == name && name in r.following then r.following[name] else name
  }

  predicate IsRestart(section: Section) {
    section.First? && section.op.OpReload?
  }

  lemma SessionOutlivesOperation(r: Racing, op: Op, t: nat)
    requires Shape(r) && t in r.s.sessions && !op.OpReload?
    ensures var after := Perform(r, First(op)).s.sessions;
            && (t in after <==> !SectionEnds(r, First(op), t))
            && (t in after ==> after[t] == r.s.sessions[t])
  {
    hide TableOk, CreateChange, DeleteChange, RenameChange, PrivilegesChange, SetAdminChange, SsoChange, Apply, Normalize;
    ChangeKinds(r.s, op);
  }

  /** A session outlives a section exactly when the section is not one of those, whatever is in
      flight; it keeps its expiry, and its user name unless it follows a rename, and after a
      restart it is what the file says. */
  lemma SessionOutlivesSectionExactlyWhen(r: Racing, section: Section, t: nat)
    requires Shape(r) && t in r.s.sessions
    ensures var before, after := r.s.sessions[t], Perform(r, section).s.sessions;
            && (t in after <==> !SectionEnds(r, section, t))
            && (t in after ==> after[t] == if IsRestart(section) then r.file[t]
                                           else Session(NameAfter(r, section, before.username), before.expiry))
  {
    hide TableOk, Commit, Step, Normalize;
    if section.FinishFollow? {
      assert Normalize(r.s.sessions[t].username) == r.s.sessions[t].username;
    }
    if section.First? && !section.op.OpReload? {
      SessionOutlivesOperation(r, section.op, t);
    }
  }

  /** Sections that do not end the session of `t` for a reason of their own: no revocation of
      it, no look at it after its expiry, no restart, and not the end of the rename itself. */
  predicate Bystander(section: Section, name: string, expiry: int, t: nat) {
    match section
    case FinishFollow(from) => from != name
    case FinishPurge(_) => true
    case First(OpUse(token, now)) => token == Some(t) ==> now <= expiry
    case First(OpRevoke(token)) => token != t
    case First(OpRevokeAll(n, keep)) => Normalize(n) != name || keep == Some(t)
    case First(OpReload(_)) => false
    case First(_) => true
    case _ => true
  }

  predicate Checks(section: Section, t: nat) {
    section.First? && section.op.OpUse? && section.op.token == Some(t)
  }

  /** The rename is under way and the session has not followed it yet. */
  ghost predicate Waiting(r: Racing, from: string, to: string, t: nat, expiry: int) {
    && RaceInv(r) && from in r.following && r.following[from] == to
    && t in r.s.sessions && t < |r.s.issued| && r.s.sessions[t] == Session(from, expiry)
  }

  lemma WaitingMeans(r: Racing, from: string, to: string, t: nat, expiry: int)
    requires Waiting(r, from, to, t, expiry)
    ensures from !in r.s.users && to in r.s.users && from !in r.purging && t < |r.s.issued| && Shape(r)
  {
    hide Shape;
  }

  lemma UndisturbedKeepsFollowing(r: Racing, section: Section, from: string)
    requires from in r.following && Undisturbed(r, section) && section != FinishFollow(from) && !IsRestart(section)
    ensures from in Perform(r, section).following && Perform(r, section).following[from] == r.following[from]
  {
  }

  lemma BystanderLeavesItWaiting(r: Racing, section: Section, from: string, to: string, t: nat, expiry: int)
    requires Waiting(r, from, to, t, expiry)
    requires Undisturbed(r, section) && Bystander(section, from, expiry, t)
    ensures if Checks(section, t) then t !in Perform(r, section).s.sessions
            else Waiting(Perform(r, section), from, to, t, expiry)
  {
    hide Perform, Undisturbed, RaceInv, Shape;
    WaitingMeans(r, from, to, t, expiry);
    SectionIsSafe(r, section);
    SessionOutlivesSectionExactlyWhen(r, section, t);
    UndisturbedKeepsFollowing(r, section, from);
    SectionKeepsIssued(r, section);
  }

  lemma {:induction false} EndedStaysEnded(r: Racing, sections: seq<Section>, t: nat)
    requires t < |r.s.issued| && t !in r.s.sessions && forall i :: 0 <= i < |sections| ==> !IsRestart(sections[i])
    ensures t !in RunSections(r, sections).s.sessions
    decreases |sections|
  {
    if sections != [] {
      EndedStaysEndedOnce(r, sections[0], t);
      EndedStaysEnded(Perform(r, sections[0]), sections[1..], t);
    }
  }

  lemma EndedStaysEndedOnce(r: Racing, section: Section, t: nat)
    requires t < |r.s.issued| && t !in r.s.sessions && !IsRestart(section)
    ensures t < |Perform(r, section).s.issued| && t !in Perform(r, section).s.sessions
  {
    hide CreateChange, DeleteChange, RenameChange, PrivilegesChange, SetAdminChange, SsoChange, Apply, Normalize;
  }

  lemma BystandersDoNotRestart(between: seq<Section>, from: string, expiry: int, t: nat)
    requires forall i :: 0 <= i < |between| ==> Bystander(between[i], from, expiry, t)
    ensures forall i :: 0 <= i < |between| ==> !IsRestart(between[i])
  {
    forall i | 0 <= i < |between|
      ensures !IsRestart(between[i])
    {
      assert Bystander(between[i], from, expiry, t);
    }
  }

  lemma {:induction false} WaitsThrough(r: Racing, between: seq<Section>, from: string, to: string, t: nat, expiry: int)
    requires Waiting(r, from, to, t, expiry) && NeverDisturbed(r, between)
    requires forall i :: 0 <= i < |between| ==> Bystander(between[i], from, expiry, t)
    ensures if exists i :: 0 <= i < |between| && Checks(between[i], t) then t !in RunSections(r, between).s.sessions
            else Waiting(RunSections(r, between), from, to, t, expiry)
    decreases |between|
  {
    hide Perform, Undisturbed, Waiting, Checks, Bystander;
    if between != [] {
      var next := Perform(r, between[0]);
      BystanderLeavesItWaiting(r, between[0], from, to, t, expiry);
      if Checks(between[0], t) {
        WaitingMeans(r, from, to, t, expiry);
        SectionKeepsIssued(r, between[0]);
        BystandersDoNotRestart(between, from, expiry, t);
        EndedStaysEnded(next, between[1..], t);
      } else {
        WaitsThrough(next, between[1..], from, to, t, expiry);
        forall i | 0 <= i < |between| && Checks(between[i], t)
          ensures exists j :: 0 <= j < |between[1..]| && Checks(between[1..][j], t)
        {
          assert between[1..][i - 1] == between[i];
        }
        forall j | 0 <= j < |between[1..]| && Checks(between[1..][j], t)
          ensures exists i :: 0 <= i < |between| && Checks(between[i], t)
        {
          assert between[j + 1] == between[1..][j];
        }
      }
    }
  }

  lemma FollowEndsTheWait(r: Racing, from: string, to: string, t: nat, expiry: int)
    requires Waiting(r, from, to, t, expiry)
    ensures var end := Perform(r, FinishFollow(from)).s;
            t in end.sessions && end.sessions[t] == Session(to, expiry) && to in end.users
  {
    hide TableOk, Owner, Refreshed;
    assert Normalize(from) == from by { assert t in r.s.sessions; }
  }

  /** Renaming somebody logs him out exactly if his token is checked between the two halves of
      the rename; otherwise the token is accepted under the new name until it expires. What
      else runs in between may be anything that neither touches the names in flight nor ends
      the session for a reason of its own; a restart in between is RestartCutsRenameShort. */
  lemma RenameIsOutlivedExactlyWhen(s: AuthState, rename: Op, between: seq<Section>, t: nat, now: int)
    requires Inv(s) && rename.OpRename? && ChangeOf(s, rename).Move?
    requires t in s.sessions && s.sessions[t].username == Normalize(rename.name)
    requires NeverDisturbed(Perform(AtRest(s), First(rename)), between)
    requires forall i :: 0 <= i < |between| ==> Bystander(between[i], Normalize(rename.name), s.sessions[t].expiry, t)
    ensures var from, to := Normalize(rename.name), Normalize(rename.newName);
            var end := Perform(RunSections(Perform(AtRest(s), First(rename)), between), FinishFollow(from)).s;
            && (t in end.sessions <==> !exists i :: 0 <= i < |between| && Checks(between[i], t))
            && (t in end.sessions ==> TokenUser(end, Some(t), now) == if now <= s.sessions[t].expiry then Some(to) else None)
  {
    hide Perform, Undisturbed, Waiting, Checks, Bystander, Normalize;
    var from, to := Normalize(rename.name), Normalize(rename.newName);
    var expiry := s.sessions[t].expiry;
    var r := AtRest(s);
    RenameStartsTheWait(s, rename, t);
    WaitsThrough(Perform(r, First(rename)), between, from, to, t, expiry);
    var end := RunSections(Perform(r, First(rename)), between);
    if exists i :: 0 <= i < |between| && Checks(between[i], t) {
      FollowAddsNone(end, from, t);
    } else {
      FollowEndsTheWait(end, from, to, t, expiry);
    }
  }

  lemma FollowAddsNone(r: Racing, from: string, t: nat)
    requires t !in r.s.sessions
    ensures t !in Perform(r, FinishFollow(from)).s.sessions
  {
  }

  lemma RenameStartsTheWait(s: AuthState, rename: Op, t: nat)
    requires Inv(s) && rename.OpRename? && ChangeOf(s, rename).Move?
    requires t in s.sessions && s.sessions[t].username == Normalize(rename.name)
    ensures Waiting(Perform(AtRest(s), First(rename)),
                    Normalize(rename.name), Normalize(rename.newName), t, s.sessions[t].expiry)
  {
    hide RaceInv, Normalize, TableOk, Borne;
    var r := AtRest(s);
    AtRestIsSafe(s);
    assert SessionBound(s, t);
    NewNameIsNotBorne(s, rename);
    RenameSection(r, rename);
    assert Undisturbed(r, First(rename));
    SectionIsSafe(r, First(rename));
  }

  lemma NewNameIsNotBorne(s: AuthState, rename: Op)
    requires Inv(s) && rename.OpRename? && ChangeOf(s, rename).Move?
    ensures !Borne(AtRest(s), Normalize(rename.newName))
  {
    hide Normalize, IsAdmin, TableOk;
    var r := AtRest(s);
    forall t | t in s.sessions
      ensures s.sessions[t].username != Normalize(rename.newName)
    {
      assert SessionBound(s, t);
    }
  }

  /** A restart between the halves of a rename: the second half never runs, and the session is
      refused under the old name for as long as nobody has it. */
  lemma RestartCutsRenameShort(s: AuthState, rename: Op, t: nat, boot: int)
    requires Inv(s) && rename.OpRename? && ChangeOf(s, rename).Move?
    requires t in s.sessions && s.sessions[t].username == Normalize(rename.name)
    ensures var end := Perform(Perform(AtRest(s), First(rename)), First(OpReload(boot)));
            && end.following == map[] && Refused(end.s, t)
            && (t in end.s.sessions <==> boot < s.sessions[t].expiry)
            && (t in end.s.sessions ==> end.s.sessions[t] == s.sessions[t])
            && Perform(end, FinishFollow(Normalize(rename.name))) == end
  {
    hide Normalize, IsAdmin, Usable, TableOk, SessionsBound;
    RenameSection(AtRest(s), rename);
  }

  // ---------------------------------------------------------------- what a restart finds

  /** Neither a restart nor a write that succeeds. */
  predicate LeavesFile(section: Section) {
    !IsRestart(section) && !(section.Write? && section.ok)
  }

  predicate LeavesCopy(section: Section, k: nat) {
    !IsRestart(section) && !(section.Write? && section.save == k)
  }

  lemma FileIsLeft(r: Racing, section: Section)
    requires LeavesFile(section)
    ensures Perform(r, section).file == r.file
  {
  }

  lemma CopyIsLeft(r: Racing, section: Section, k: nat)
    requires k in r.saves && LeavesCopy(section, k)
    ensures k in Perform(r, section).saves && Perform(r, section).saves[k].Keys == r.saves[k].Keys
  {
    hide ChangeOf, Commit, Step, RenameSessions;
  }

  lemma {:induction false} FileIsLeftBy(r: Racing, sections: seq<Section>)
    requires forall i :: 0 <= i < |sections| ==> LeavesFile(sections[i])
    ensures RunSections(r, sections).file == r.file
    decreases |sections|
  {
    hide Perform, LeavesFile;
    if sections != [] {
      FileIsLeft(r, sections[0]);
      FileIsLeftBy(Perform(r, sections[0]), sections[1..]);
    }
  }

  lemma {:induction false} CopyIsLeftBy(r: Racing, sections: seq<Section>, k: nat)
    requires k in r.saves && forall i :: 0 <= i < |sections| ==> LeavesCopy(sections[i], k)
    ensures k in RunSections(r, sections).saves && RunSections(r, sections).saves[k].Keys == r.saves[k].Keys
    decreases |sections|
  {
    hide Perform, LeavesCopy;
    if sections != [] {
      CopyIsLeft(r, sections[0], k);
      CopyIsLeftBy(Perform(r, sections[0]), sections[1..], k);
    }
  }

  /** What a restart finds: the sessions that were in the table when the copy that was written last
      was taken, however the table has changed since, without the expired ones. */
  lemma RestartFindsLastCopy(r: Racing, k: nat, between: seq<Section>, after: seq<Section>, boot: int, t: nat)
    requires k !in r.saves
    requires forall i :: 0 <= i < |between| ==> LeavesCopy(between[i], k)
    requires forall i :: 0 <= i < |after| ==> LeavesFile(after[i])
    ensures var written := Perform(RunSections(Perform(r, Snapshot(k)), between), Write(k, true));
            var end := RunSections(written, after);
            && end.file == written.file && (t in end.file <==> t in r.s.sessions)
            && (t in Perform(end, First(OpReload(boot))).s.sessions
                <==> t in r.s.sessions && boot < written.file[t].expiry)
  {
    hide LeavesCopy, LeavesFile;
    var written := Perform(RunSections(Perform(r, Snapshot(k)), between), Write(k, true));
    CopyIsLeftBy(Perform(r, Snapshot(k)), between, k);
    FileIsLeftBy(written, after);
  }

  // ---------------------------------------------------------------- a dropped session

  /** Where a dropped session is left, with its expiry: in copies taken before the drop, and in the
      file. `since` are the copies taken since that are still to be written. */
  datatype Remains = Remains(before: map<nat, int>, since: set<nat>, file: Option<int>)

  function RemainsOf(r: Racing, t: nat): Remains {
    Remains(map k | k in r.saves && t in r.saves[k] :: r.saves[k][t].expiry,
            set k | k in r.saves && t !in r.saves[k],
            if t in r.file then Some(r.file[t].expiry) else None)
  }

  /** The file holds what was written last; and a restart leaves nothing to be written. */
  function RemainsAfter(m: Remains, section: Section): Remains {
    match section
    case Snapshot(k) => if k in m.before || k in m.since then m else m.(since := m.since + {k})
    case Write(k, ok) =>
      if k in m.before then Remains(m.before - {k}, m.since, if ok then Some(m.before[k]) else m.file)
      else if k in m.since then Remains(m.before, m.since - {k}, if ok then None else m.file)
      else m
    case First(op) => if op.OpReload? then Remains(map[], {}, None) else m
    case _ => m
  }

  /** No restart comes, before the session expires, while the copy that was written last is one
      from before the drop. */
  predicate NoStaleRestart(m: Remains, sections: seq<Section>)
    decreases |sections|
  {
    sections != [] ==>
      && (IsRestart(sections[0]) && m.file.Some? ==> m.file.value <= sections[0].op.now)
      && NoStaleRestart(RemainsAfter(m, sections[0]), sections[1..])
  }

  ghost predicate StaysOut(r: Racing, sections: seq<Section>, t: nat)
    decreases |sections|
  {
    t !in r.s.sessions && (sections != [] ==> StaysOut(Perform(r, sections[0]), sections[1..], t))
  }

  lemma RemainsAfterSnapshot(r: Racing, k: nat, t: nat)
    requires t !in r.s.sessions
    ensures RemainsOf(Perform(r, Snapshot(k)), t) == RemainsAfter(RemainsOf(r, t), Snapshot(k))
  {
  }

  lemma RemainsAfterWrite(r: Racing, k: nat, ok: bool, t: nat)
    ensures RemainsOf(Perform(r, Write(k, ok)), t) == RemainsAfter(RemainsOf(r, t), Write(k, ok))
  {
    if k in r.saves {
      var r' := Perform(r, Write(k, ok));
      assert r'.saves == r.saves - {k};
    }
  }

  lemma RemainsAfterFollow(r: Racing, from: string, t: nat)
    requires t !in r.s.sessions
    ensures RemainsOf(Perform(r, FinishFollow(from)), t) == RemainsOf(r, t)
  {
  }

  lemma RemainsAfterOther(r: Racing, section: Section, t: nat)
    requires t !in r.s.sessions && (section.First? || section.FinishPurge?) && !IsRestart(section)
    ensures RemainsOf(Perform(r, section), t) == RemainsOf(r, t)
  {
    hide ChangeOf, Commit, Step, DropSessionsOf;
  }

  lemma RemainsAfterSection(r: Racing, section: Section, t: nat)
    requires t < |r.s.issued| && t !in r.s.sessions
    ensures t < |Perform(r, section).s.issued|
    ensures t !in Perform(r, section).s.sessions
            <==> !(IsRestart(section) && RemainsOf(r, t).file.Some? && section.op.now < RemainsOf(r, t).file.value)
    ensures t !in Perform(r, section).s.sessions ==>
              RemainsOf(Perform(r, section), t) == RemainsAfter(RemainsOf(r, t), section)
  {
    hide ChangeOf, Commit, Step;
    SectionKeepsIssued(r, section);
    if !IsRestart(section) {
      EndedStaysEndedOnce(r, section, t);
      match section
      case First(_) => RemainsAfterOther(r, section, t);
      case FinishPurge(_) => RemainsAfterOther(r, section, t);
      case FinishFollow(from) => RemainsAfterFollow(r, from, t);
      case Snapshot(k) => RemainsAfterSnapshot(r, k, t);
      case Write(k, ok) => RemainsAfterWrite(r, k, ok, t);
    }
  }

  /** A session that was dropped, by a revocation, a purge or a check, stays out of the table at every
      instant, over every run of sections, saves and restarts, exactly when no restart comes while
      the copy written last is one from before the drop. */
  lemma {:induction false} DroppedStaysOutExactlyWhen(r: Racing, sections: seq<Section>, t: nat)
    requires t < |r.s.issued| && t !in r.s.sessions
    ensures StaysOut(r, sections, t) <==> NoStaleRestart(RemainsOf(r, t), sections)
    decreases |sections|
  {
    hide Perform, RemainsOf, RemainsAfter;
    if sections != [] {
      RemainsAfterSection(r, sections[0], t);
      if t !in Perform(r, sections[0]).s.sessions {
        DroppedStaysOutExactlyWhen(Perform(r, sections[0]), sections[1..], t);
      }
    }
  }

  /** In particular, once the drop is saved, it stays out if no copy from before it is written. */
  lemma {:induction false} UnwrittenRemainsStayOut(m: Remains, sections: seq<Section>)
    requires m.file.None? && forall i :: 0 <= i < |sections| ==> !(sections[i].Write? && sections[i].ok && sections[i].save in m.before)
    ensures NoStaleRestart(m, sections)
    decreases |sections|
  {
    if sections != [] {
      UnwrittenRemainsStayOut(RemainsAfter(m, sections[0]), sections[1..]);
    }
  }

  /** And as long as it is out of the table its token is refused, whoever is created meanwhile. */
  lemma DroppedTokenIsRefused(r: Racing, sections: seq<Section>, t: nat)
    requires t < |r.s.issued| && t !in r.s.sessions && NoStaleRestart(RemainsOf(r, t), sections)
    ensures AlwaysRefused(r, sections, t)
  {
    DroppedStaysOutExactlyWhen(r, sections, t);
    OutIsRefused(r, sections, t);
  }

  lemma {:induction false} OutIsRefused(r: Racing, sections: seq<Section>, t: nat)
    requires StaysOut(r, sections, t)
    ensures AlwaysRefused(r, sections, t)
    decreases |sections|
  {
    hide Perform;
    if sections != [] {
      OutIsRefused(Perform(r, sections[0]), sections[1..], t);
    }
  }
}
