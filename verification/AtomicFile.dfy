/** Replacing a file through a temporary sibling, one file-system effect at a time, with a
    crash possible between any two effects. */
module AtomicFiles {
  import opened Common

  /** `synced` says that stable storage holds exactly `text`. */
  datatype Inode = Inode(text: string, synced: bool)

  /** `entry` is the directory as the running system shows it. Renames reach stable storage
      in their own time: `maybe` lists what a name may show after a power loss. */
  datatype Disk = Disk(inodes: seq<Inode>, entry: map<string, nat>, maybe: map<string, set<Option<nat>>>)

  function Maybe(maybe: map<string, set<Option<nat>>>, path: string): set<Option<nat>> {
    if path in maybe then maybe[path] else {None}
  }

  ghost predicate WellFormed(d: Disk) {
    && (forall q :: q in d.entry ==> d.entry[q] < |d.inodes|)
    && (forall q, c :: c in Maybe(d.maybe, q) ==> c.None? || c.value < |d.inodes|)
  }

  /** No other name leads, or may lead, to the file that the temporary name leads to. */
  ghost predicate Private(d: Disk, tmp: string) {
    tmp in d.entry ==>
      forall q :: q != tmp ==> Some(d.entry[tmp]) !in Maybe(d.maybe, q) && (q in d.entry ==> d.entry[q] != d.entry[tmp])
  }

  /** What the running system reads, and what the next process reads if this one is killed. */
  function Read(d: Disk, path: string): Option<string> {
    if path in d.entry && d.entry[path] < |d.inodes| then Some(d.inodes[d.entry[path]].text) else None
  }

  /** What may be read after a power loss. A file that was not synced may hold anything. */
  ghost predicate CanRecover(d: Disk, path: string, found: Option<string>) {
    exists c :: c in Maybe(d.maybe, path) && Holds(d, c, found)
  }

  predicate Holds(d: Disk, c: Option<nat>, found: Option<string>) {
    match c
    case None => found.None?
    case Some(i) => i < |d.inodes| && found.Some? && (d.inodes[i].synced ==> found.value == d.inodes[i].text)
  }

  // ---------------------------------------------------------------- effects

  function Truncated(d: Disk, tmp: string): Disk {
    if tmp in d.entry && d.entry[tmp] < |d.inodes| then d.(inodes := d.inodes[d.entry[tmp] := Inode("", false)])
    else Disk(d.inodes + [Inode("", false)], d.entry[tmp := |d.inodes|],
              d.maybe[tmp := Maybe(d.maybe, tmp) + {Some(|d.inodes|)}])
  }

  function Appended(d: Disk, tmp: string, text: string): Disk
    requires tmp in d.entry && d.entry[tmp] < |d.inodes|
  {
    d.(inodes := d.inodes[d.entry[tmp] := Inode(d.inodes[d.entry[tmp]].text + text, false)])
  }

  function Synced(d: Disk, tmp: string): Disk
    requires tmp in d.entry && d.entry[tmp] < |d.inodes|
  {
    d.(inodes := d.inodes[d.entry[tmp] := d.inodes[d.entry[tmp]].(synced := true)])
  }

  function Renamed(d: Disk, tmp: string, path: string): Disk
    requires tmp in d.entry
  {
    Disk(d.inodes, (d.entry - {tmp})[path := d.entry[tmp]],
         d.maybe[tmp := Maybe(d.maybe, tmp) + {None}][path := Maybe(d.maybe, path) + {Some(d.entry[tmp])}])
  }

  // ---------------------------------------------------------------- what others can see

  /** Nothing can be told apart through a name other than the temporary one. */
  ghost predicate Unseen(d: Disk, d': Disk, tmp: string) {
    && (forall q :: q != tmp ==> Read(d', q) == Read(d, q))
    && (forall q, found :: q != tmp ==> (CanRecover(d', q, found) <==> CanRecover(d, q, found)))
  }

  /** Every name other than the temporary one shows what it did, except that `path` may show
      the complete new text, alive or after a power loss. */
  ghost predicate OldOrNew(d: Disk, d': Disk, tmp: string, path: string, text: string) {
    && (forall q :: q != tmp ==> Read(d', q) == Read(d, q) || (q == path && Read(d', q) == Some(text)))
    && (forall q, found :: q != tmp && CanRecover(d', q, found) ==>
          CanRecover(d, q, found) || (q == path && found == Some(text)))
    && (forall q, found :: q != tmp && CanRecover(d, q, found) ==> CanRecover(d', q, found))
  }

  /** Other names lead, and may lead, where they did; the temporary one may lead to a new file. */
  ghost predicate SameLinks(d: Disk, d': Disk, tmp: string) {
    && |d.inodes| <= |d'.inodes|
    && (forall q :: q != tmp ==> Maybe(d'.maybe, q) == Maybe(d.maybe, q) && (q in d'.entry <==> q in d.entry))
    && (forall q :: q != tmp && q in d.entry ==> d'.entry[q] == d.entry[q])
    && (forall c :: c in Maybe(d'.maybe, tmp) ==> c in Maybe(d.maybe, tmp) || (c.Some? && c.value >= |d.inodes|))
    && (tmp in d'.entry ==> (tmp in d.entry && d'.entry[tmp] == d.entry[tmp]) || d'.entry[tmp] >= |d.inodes|)
  }

  /** So every other temporary name keeps its file to itself. */
  lemma RenameKeepsOthersPrivate(d: Disk, d': Disk, tmp: string, path: string)
    requires WellFormed(d) && SameLinks(d, d', tmp) && tmp in d'.entry && tmp != path && Private(d, tmp)
    ensures forall other :: other != tmp && other != path && Private(d, other) ==> Private(Renamed(d', tmp, path), other)
  {
    hide Private;
    forall other | other != tmp && other != path && Private(d, other)
      ensures Private(Renamed(d', tmp, path), other)
    {
      RenameKeepsPrivate(d, d', tmp, path, other);
    }
  }

  lemma RenameKeepsPrivate(d: Disk, d': Disk, tmp: string, path: string, other: string)
    requires WellFormed(d) && SameLinks(d, d', tmp) && tmp in d'.entry && tmp != path
    requires Private(d, tmp) && Private(d, other) && other != tmp && other != path
    ensures Private(Renamed(d', tmp, path), other)
  {
    var d2 := Renamed(d', tmp, path);
    if other in d2.entry {
      var i := d2.entry[other];
      assert other in d.entry && d.entry[other] == i < |d.inodes|;
      assert d'.entry[tmp] != i;
      forall q | q != other
        ensures Some(i) !in Maybe(d2.maybe, q) && (q in d2.entry ==> d2.entry[q] != i)
      {
        assert Some(i) !in Maybe(d.maybe, q) && (q in d.entry ==> d.entry[q] != i);
      }
    }
  }

  /** An effect on the temporary file alone is not seen. */
  lemma OnlyTheTemporaryChanged(d: Disk, d': Disk, tmp: string)
    requires WellFormed(d) && WellFormed(d') && Private(d', tmp) && tmp in d'.entry
    requires |d.inodes| <= |d'.inodes|
    requires forall i :: 0 <= i < |d.inodes| && i != d'.entry[tmp] ==> d'.inodes[i] == d.inodes[i]
    requires forall q :: q != tmp ==> Maybe(d'.maybe, q) == Maybe(d.maybe, q) && (q in d'.entry <==> q in d.entry)
    requires forall q :: q != tmp && q in d.entry ==> d'.entry[q] == d.entry[q]
    ensures Unseen(d, d', tmp)
  {
    forall q, found | q != tmp
      ensures CanRecover(d', q, found) <==> CanRecover(d, q, found)
    {
      assert forall c :: c in Maybe(d.maybe, q) ==> (Holds(d', c, found) <==> Holds(d, c, found));
    }
  }

  /** Nor is whatever is done next to the file that the temporary name leads to. */
  lemma AppendingIsUnseen(start: Disk, d: Disk, tmp: string, inode: Inode)
    requires WellFormed(d) && Private(d, tmp) && tmp in d.entry && Unseen(start, d, tmp) && SameLinks(start, d, tmp)
    ensures var d' := d.(inodes := d.inodes[d.entry[tmp] := inode]);
            WellFormed(d') && Private(d', tmp) && Unseen(start, d', tmp) && SameLinks(start, d', tmp)
  {
    OnlyTheTemporaryChanged(d, d.(inodes := d.inodes[d.entry[tmp] := inode]), tmp);
  }

  lemma TruncationIsPrivate(d: Disk, tmp: string)
    requires WellFormed(d) && Private(d, tmp)
    ensures var d' := Truncated(d, tmp);
            WellFormed(d') && tmp in d'.entry && Private(d', tmp) && Unseen(d, d', tmp) && SameLinks(d, d', tmp)
  {
    var d' := Truncated(d, tmp);
    forall q | q != tmp
      ensures Maybe(d'.maybe, q) == Maybe(d.maybe, q) && Some(d'.entry[tmp]) !in Maybe(d.maybe, q)
    {
    }
    OnlyTheTemporaryChanged(d, d', tmp);
  }

  lemma RenameIsWellFormed(d: Disk, tmp: string, path: string)
    requires WellFormed(d) && tmp in d.entry && tmp != path
    ensures WellFormed(Renamed(d, tmp, path))
    ensures Read(Renamed(d, tmp, path), path) == Read(d, tmp)
  {
    var d' := Renamed(d, tmp, path);
    forall q, c | c in Maybe(d'.maybe, q)
      ensures c.None? || c.value < |d.inodes|
    {
      assert c in Maybe(d.maybe, q) || c == None || c == Some(d.entry[tmp]);
    }
  }

  /** Without a sync before it the new name may come back with anything at all. */
  lemma WithoutSyncAnythingComesBack(d: Disk, tmp: string, path: string, garbage: string)
    requires WellFormed(d) && tmp in d.entry && tmp != path && !d.inodes[d.entry[tmp]].synced
    ensures CanRecover(Renamed(d, tmp, path), path, Some(garbage))
  {
    var d' := Renamed(d, tmp, path);
    assert Some(d.entry[tmp]) in Maybe(d'.maybe, path) && Holds(d', Some(d.entry[tmp]), Some(garbage));
  }

  /** What a rename may bring back is what was there before, or the text of the renamed file. */
  lemma RenamedRecovers(d: Disk, tmp: string, path: string, q: string, found: Option<string>)
    requires WellFormed(d) && tmp in d.entry && tmp != path && q != tmp
    ensures CanRecover(Renamed(d, tmp, path), q, found)
            <==> CanRecover(d, q, found) || (q == path && Holds(d, Some(d.entry[tmp]), found))
  {
    var d', i := Renamed(d, tmp, path), d.entry[tmp];
    assert forall c :: Holds(d', c, found) <==> Holds(d, c, found);
    if CanRecover(d, q, found) {
      var c :| c in Maybe(d.maybe, q) && Holds(d, c, found);
      assert c in Maybe(d'.maybe, q) && Holds(d', c, found);
    }
    if q == path && Holds(d, Some(i), found) {
      assert Some(i) in Maybe(d'.maybe, path) && Holds(d', Some(i), found);
    }
    if CanRecover(d', q, found) {
      var c :| c in Maybe(d'.maybe, q) && Holds(d', c, found);
      assert c in Maybe(d.maybe, q) || (q == path && c == Some(i));
      assert Holds(d, c, found);
    }
  }

  /** The rename shows the old or the complete new text exactly when the file has been synced,
      unless the name might have come back with anything already. */
  lemma RenameShowsOldOrNewExactlyWhen(d: Disk, tmp: string, path: string)
    requires WellFormed(d) && tmp in d.entry && tmp != path
    ensures var text := d.inodes[d.entry[tmp]].text;
            OldOrNew(d, Renamed(d, tmp, path), tmp, path, text)
            <==> d.inodes[d.entry[tmp]].synced || forall g :: g != text ==> CanRecover(d, path, Some(g))
  {
    hide CanRecover;
    var d', inode := Renamed(d, tmp, path), d.inodes[d.entry[tmp]];
    forall q, found | q != tmp
      ensures CanRecover(d', q, found) <==> CanRecover(d, q, found) || (q == path && Holds(d, Some(d.entry[tmp]), found))
    {
      RenamedRecovers(d, tmp, path, q, found);
    }
    if OldOrNew(d, d', tmp, path, inode.text) && !inode.synced {
      forall g | g != inode.text
        ensures CanRecover(d, path, Some(g))
      {
        WithoutSyncAnythingComesBack(d, tmp, path, g);
      }
    }
  }

  lemma UnseenIsOld(d: Disk, d': Disk, tmp: string, path: string, text: string)
    requires Unseen(d, d', tmp)
    ensures OldOrNew(d, d', tmp, path, text)
  {
  }

  lemma UnseenThenOldOrNew(d0: Disk, d: Disk, d': Disk, tmp: string, path: string, text: string)
    requires Unseen(d0, d, tmp) && OldOrNew(d, d', tmp, path, text)
    ensures OldOrNew(d0, d', tmp, path, text)
  {
  }

  // ---------------------------------------------------------------- the write

  function Concat(chunks: seq<string>): string {
    if chunks == [] then "" else Concat(chunks[..|chunks| - 1]) + chunks[|chunks| - 1]
  }

  /** A process writing files. `buffer` is what the open file has not handed to the system
      yet; `trace` records the disk after every effect. */
  class Machine {
    var disk: Disk
    var buffer: string
    ghost var trace: seq<Disk>

    constructor (d: Disk)
      ensures disk == d && buffer == "" && trace == [d]
    {
      disk, buffer, trace := d, "", [d];
    }

    ghost predicate Writing(start: Disk, tmp: string)
      reads this
    {
      WellFormed(disk) && Private(disk, tmp) && tmp in disk.entry && Unseen(start, disk, tmp) && SameLinks(start, disk, tmp)
    }

    ghost predicate NothingSeen(start: Disk, since: nat, tmp: string)
      reads this
    {
      forall k :: since <= k < |trace| ==> Unseen(start, trace[k], tmp)
    }

    function Pending(tmp: string): string
      requires tmp in disk.entry && disk.entry[tmp] < |disk.inodes|
      reads this
    {
      disk.inodes[disk.entry[tmp]].text + buffer
    }

    method OpenForWriting(tmp: string)
      requires WellFormed(disk) && Private(disk, tmp)
      modifies this
      ensures Writing(old(disk), tmp) && trace == old(trace) + [disk]
      ensures buffer == "" && Pending(tmp) == ""
    {
      TruncationIsPrivate(disk, tmp);
      disk := Truncated(disk, tmp);
      buffer := "";
      trace := trace + [disk];
    }

    /** Buffered: any part of the text may reach the system now, the rest later. */
    method Write(ghost start: Disk, tmp: string, chunk: string)
      requires Writing(start, tmp)
      modifies this
      ensures Writing(start, tmp) && trace == old(trace) + [disk]
      ensures Pending(tmp) == old(Pending(tmp)) + chunk
    {
      hide Unseen, Private, SameLinks;
      ghost var before := disk;
      buffer := buffer + chunk;
      var n: nat :| n <= |buffer|;
      disk := Appended(disk, tmp, buffer[..n]);
      assert buffer == buffer[..n] + buffer[n..];
      buffer := buffer[n..];
      trace := trace + [disk];
      AppendingIsUnseen(start, before, tmp, disk.inodes[disk.entry[tmp]]);
    }

    method Flush(ghost start: Disk, tmp: string)
      requires Writing(start, tmp)
      modifies this
      ensures Writing(start, tmp) && trace == old(trace) + [disk]
      ensures disk.inodes[disk.entry[tmp]].text == old(Pending(tmp))
    {
      ghost var before := disk;
      disk := Appended(disk, tmp, buffer);
      buffer := "";
      trace := trace + [disk];
      AppendingIsUnseen(start, before, tmp, disk.inodes[disk.entry[tmp]]);
    }

    method Fsync(ghost start: Disk, tmp: string)
      requires Writing(start, tmp)
      modifies this
      ensures Writing(start, tmp) && trace == old(trace) + [disk]
      ensures disk.inodes[disk.entry[tmp]] == Inode(old(disk.inodes[disk.entry[tmp]].text), true)
    {
      ghost var before := disk;
      disk := Synced(disk, tmp);
      trace := trace + [disk];
      AppendingIsUnseen(start, before, tmp, disk.inodes[disk.entry[tmp]]);
    }

    method Replace(tmp: string, path: string)
      requires WellFormed(disk) && Private(disk, tmp) && tmp in disk.entry && tmp != path
      requires disk.inodes[disk.entry[tmp]].synced
      modifies this
      ensures disk == Renamed(old(disk), tmp, path) && trace == old(trace) + [disk]
      ensures WellFormed(disk) && tmp !in disk.entry
      ensures Read(disk, path) == Some(old(disk.inodes[disk.entry[tmp]].text))
      ensures OldOrNew(old(disk), disk, tmp, path, old(disk.inodes[disk.entry[tmp]].text))
      ensures CanRecover(disk, path, Some(old(disk.inodes[disk.entry[tmp]].text)))
    {
      RenameIsWellFormed(disk, tmp, path);
      RenameShowsOldOrNewExactlyWhen(disk, tmp, path);
      RenamedRecovers(disk, tmp, path, path, Some(disk.inodes[disk.entry[tmp]].text));
      disk := Renamed(disk, tmp, path);
      trace := trace + [disk];
    }

    /** The text is in the temporary file and on stable storage, and nothing has been seen of it. */
    method WriteTemporary(tmp: string, chunks: seq<string>)
      requires WellFormed(disk) && Private(disk, tmp)
      modifies this
      ensures Writing(old(disk), tmp) && NothingSeen(old(disk), old(|trace|), tmp)
      ensures old(trace) < trace
      ensures disk.inodes[disk.entry[tmp]] == Inode(Concat(chunks), true)
    {
      hide Unseen, Private, SameLinks;
      ghost var start, since := disk, |trace|;
      OpenForWriting(tmp);
      var i := 0;
      while i < |chunks|
        invariant 0 <= i <= |chunks|
        invariant Writing(start, tmp) && NothingSeen(start, since, tmp)
        invariant old(trace) < trace && since == old(|trace|)
        invariant Pending(tmp) == Concat(chunks[..i])
      {
        Write(start, tmp, chunks[i]);
        i := i + 1;
        assert chunks[..i][..i - 1] == chunks[..i - 1];
      }
      assert chunks[..i] == chunks;
      Flush(start, tmp);
      Fsync(start, tmp);
    }

    /** Wherever it is interrupted, by a kill or by a power loss, every other file is what it
        was and `path` holds one complete version; and at the end it reads as the new one. */
    method AtomicWrite(path: string, tmp: string, chunks: seq<string>)
      requires WellFormed(disk) && Private(disk, tmp) && tmp != path
      modifies this
      ensures WellFormed(disk) && tmp !in disk.entry
      ensures old(trace) < trace && trace[|trace| - 1] == disk
      ensures Read(disk, path) == Some(Concat(chunks))
      ensures forall k :: old(|trace|) <= k < |trace| ==> OldOrNew(old(disk), trace[k], tmp, path, Concat(chunks))
      ensures CanRecover(disk, path, Some(Concat(chunks)))
      ensures forall other :: other != tmp && other != path && Private(old(disk), other) ==> Private(disk, other)
    {
      hide Unseen, OldOrNew, Private, SameLinks, CanRecover;
      ghost var start, since := disk, |trace|;
      WriteTemporary(tmp, chunks);
      ghost var before := disk;
      RenameKeepsOthersPrivate(start, before, tmp, path);
      Replace(tmp, path);
      UnseenThenOldOrNew(start, before, disk, tmp, path, Concat(chunks));
      forall k | since <= k < |trace|
        ensures OldOrNew(start, trace[k], tmp, path, Concat(chunks))
      {
        if k < |trace| - 1 {
          UnseenIsOld(start, trace[k], tmp, path, Concat(chunks));
        }
      }
    }
  }
}
