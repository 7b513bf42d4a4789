/** What each request and event leads to, entry by entry and path by path: in fields of the
    table, bytes of paths, records and disks, without the functions that compute it. */
module Outcomes {
  import opened Types
  import opened PathMaps
  import opened PathLists
  import opened LookupCache
  import PathIndex
  import opened Cluster
  import opened Replication
  import opened Backups
  import opened Mirrors
  import opened Coherence
  import Records
  import ServerTables

  // ----- the table

  /** The entry at an address, as there is one at most. */
  lemma EntryAt(t: seq<Server>, i: nat, e: Endpoint)
    requires DistinctAddresses(t) && i < |t| && t[i].ip == e.ip && t[i].portClient == e.port
    ensures Known(t, e) && IndexOf(t, e) == i && ServerAt(t, e) == t[i]
    ensures Active(t, e) <==> t[i].isActive
    ensures Reachable(t, e) <==> t[i].isActive && t[i].portNm != -1
  {
    IndexOfUnique(t, i);
  }

  lemma NoEntryAt(t: seq<Server>, e: Endpoint)
    requires forall i | 0 <= i < |t| :: t[i].ip != e.ip || t[i].portClient != e.port
    ensures !Known(t, e) && !Active(t, e) && !Reachable(t, e)
  {
  }

  /** Two lookups in turn. */
  function FoundTwo(ix: PathIndex.Index, p: Path, q: Path): PathIndex.Index {
    PathIndex.AfterFind(PathIndex.AfterFind(ix, p), q)
  }

  /** Nothing changes but that these paths are looked up, which concerns the cache only. */
  ghost predicate OnlyLooked(st: State, next: State, found: PathIndex.Index) {
    next == st.(index := found) && found.trie == st.index.trie
  }

  // ----- loss and return

  /** A server whose heartbeat stops is inactive, and nothing else changes. */
  lemma LostOutcome(st: State, r: Registration, i: nat)
    requires Inv(st) && i < |st.servers|
    requires
      var s := st.servers[i];
      s.ip == r.ip && s.portNm == r.portNm && s.portClient == r.portClient && s.ssPort == r.ssPort
    ensures
      var next := Next(st, Lost(r));
      && next.servers == st.servers[i := st.servers[i].(isActive := false)]
      && next.disks == st.disks && next.index == st.index
      && !Active(next.servers, Endpoint(r.ip, r.portClient))
      && forall e :: e != Endpoint(r.ip, r.portClient) ==> (Active(next.servers, e) <==> Active(st.servers, e))
  {
    var t := st.servers;
    assert forall j | 0 <= j < i :: At(t[j]) != At(t[i]);
    assert Identified(t, r) == i;
    EntryChanged(t, i, t[i].(isActive := false));
  }

  lemma LostUnknown(st: State, r: Registration)
    requires
      forall i | 0 <= i < |st.servers| :: var s := st.servers[i];
        s.ip != r.ip || s.portNm != r.portNm || s.portClient != r.portClient || s.ssPort != r.ssPort
    ensures Next(st, Lost(r)) == st
  {
  }

  /** A server that comes back is active, its disk holds what it missed, in the order of its log,
      and the log is empty; nothing else changes. */
  lemma ReturnOutcome(st: State, r: Registration, disk: set<Path>, i: nat)
    requires Inv(st) && i < |st.servers| && !st.servers[i].isActive
    requires
      var s := st.servers[i];
      s.ip == r.ip && s.portNm == r.portNm && s.portClient == r.portClient && s.ssPort == r.ssPort
    ensures
      var next, e := Next(st, Register(r, disk)), Endpoint(r.ip, r.portClient);
      && next.servers == st.servers[i := st.servers[i].(isActive := true, commands := [])]
      && next.disks == st.disks[e := ApplyAll(Disk(st, e), st.servers[i].commands)]
      && next.index == st.index
      && Active(next.servers, e) && Pending(next.servers, e) == [] && Disk(next, e) == WouldBe(st, e)
  {
    var t := st.servers;
    assert forall j | 0 <= j < i :: At(t[j]) != At(t[i]);
    assert Returning(t, r) == i;
    ReplayedOne(Disk(st, At(t[i])), t, i);
    EntryChanged(t, i, t[i].(isActive := true, commands := []));
  }

  // ----- commands on a disk

  /** Creating makes the path and the directories above it; deleting takes the path and what
      lies below it; neither does anything else. */
  lemma CommandOutcome(disk: set<Path>, d: Path, f: Path, p: Path, ps: set<Path>, q: Path)
    ensures q in Apply(disk, Create(d, f)) <==>
      q in disk || q == d + [47] + f || exists k :: 0 < k < |d + [47] + f| && (d + [47] + f)[k] == 47 && q == (d + [47] + f)[..k]
    ensures q in Apply(disk, Command.Delete(p)) <==> q in disk && q != p && !(p + [47] <= q)
    ensures q in Apply(disk, Unpack(ps)) <==> q in disk || q in ps
  {
    assert Slashed(d, f) == d + [47] + f;
  }

  /** No command goes to a backup field without an ip, or with port 0 or -1, or to an address
      that is not in the table. */
  lemma NobodyTold(st: State, e: Endpoint, c: Command)
    requires e.port == 0 || e.port == -1 || e.ip == [] ||
      forall k | 0 <= k < |st.servers| :: st.servers[k].ip != e.ip || st.servers[k].portClient != e.port
    ensures Forwarded(st, e, c) == st
  {
    hide Apply, Prefixed;
    if forall k | 0 <= k < |st.servers| :: st.servers[k].ip != e.ip || st.servers[k].portClient != e.port {
      NoEntryAt(st.servers, e);
    }
  }

  /** What a server of the table gets of a command that is forwarded for another. */
  lemma ForwardedOutcome(st: State, e: Endpoint, c: Command, j: nat)
    requires DistinctAddresses(st.servers) && j < |st.servers|
    requires st.servers[j].portClient != 0 && st.servers[j].portClient != -1 && st.servers[j].ip != []
    ensures
      var next, s := Forwarded(st, e, c), st.servers[j];
      && |next.servers| == |st.servers| && next.index == st.index
      && Disk(next, At(s)) == (if At(s) == e && s.isActive then Apply(Disk(st, At(s)), Prefixed(s.root, c)) else Disk(st, At(s)))
      && next.servers[j] == (if At(s) == e && !s.isActive then s.(commands := s.commands + [Prefixed(s.root, c)]) else s)
  {
    hide Apply, Prefixed;
    IndexOfUnique(st.servers, j);
  }

  /** The command that a backup with this root gets. */
  lemma PrefixedOutcome(root: Path, d: Path, f: Path, p: Path)
    ensures Prefixed(root, Create(d, f)) == Create(root + [47] + d, f)
    ensures Prefixed(root, Command.Delete(p)) == Command.Delete(root + [47] + p)
  {
  }

  /** Entry `j` names a backup of entry `i`. */
  predicate BackupOf(t: seq<Server>, i: nat, j: nat)
    requires i < |t| && j < |t|
  {
    var b := Endpoint(t[j].ip, t[j].portClient);
    t[i].backup1 == b || t[i].backup2 == b
  }

  /** What forwarding a command for entry `i` means for entry `j`: an active backup executes it
      and an inactive one keeps it, once for each time it is a backup; others hear nothing. */
  ghost predicate ToldAsBackup(st: State, next: State, i: nat, j: nat, c: Command)
    requires i < |st.servers| && j < |st.servers|
  {
    var s := st.servers[j];
    var e := Endpoint(s.ip, s.portClient);
    && |next.servers| == |st.servers|
    && (BackupOf(st.servers, i, j) && s.isActive ==>
          next.servers[j] == s && forall q :: q in Disk(next, e) <==> q in Apply(Disk(st, e), c))
    && (BackupOf(st.servers, i, j) && !s.isActive ==>
          && Disk(next, e) == Disk(st, e)
          && (next.servers[j] == s.(commands := s.commands + [c]) || next.servers[j] == s.(commands := s.commands + [c, c])))
    && (!BackupOf(st.servers, i, j) ==> next.servers[j] == s && Disk(next, e) == Disk(st, e))
  }

  lemma BothOutcome(st: State, i: nat, j: nat, c: Command)
    requires DistinctAddresses(st.servers) && i < |st.servers| && j < |st.servers| && Somebody(At(st.servers[j]))
    ensures
      var next := ForwardedToBoth(st, st.servers[i], c);
      next.index == st.index && ToldAsBackup(st, next, i, j, Prefixed(st.servers[j].root, c))
  {
    hide Apply, Prefixed, Forwarded;
    var s, b1, b2 := st.servers[j], st.servers[i].backup1, st.servers[i].backup2;
    var c' := Prefixed(s.root, c);
    var st1 := Forwarded(st, b1, c);
    ForwardedOutcome(st, b1, c, j);
    ForwardedDistinct(st, b1, c);
    ForwardedOutcome(st1, b2, c, j);
    forall q ensures q in Apply(Apply(Disk(st, At(s)), c'), c') <==> q in Apply(Disk(st, At(s)), c') {
      ApplyAt(Disk(st, At(s)), c', q);
      ApplyAt(Apply(Disk(st, At(s)), c'), c', q);
    }
    assert s.commands + [c'] + [c'] == s.commands + [c', c'];
  }

  lemma ForwardedDistinct(st: State, e: Endpoint, c: Command)
    requires DistinctAddresses(st.servers)
    ensures DistinctAddresses(Forwarded(st, e, c).servers)
  {
    if Known(st.servers, e) && !Active(st.servers, e) { LoggedTable(st.servers, e, Prefixed(ServerAt(st.servers, e).root, c)); }
  }

  /** A command for entry `i` that only its backups get, and one that it executes first. */
  lemma SentOutcome(st: State, i: nat, j: nat, c: Command)
    requires Inv(st) && i < |st.servers| && j < |st.servers|
    ensures
      var s := st.servers[i];
      var refused, executed := ForwardedToBoth(st, s, c), ForwardedToBoth(OnDisk(st, At(s), c), s, c);
      && |refused.servers| == |executed.servers| == |st.servers| && refused.index == executed.index == st.index
      && refused.servers[i] == s && Disk(refused, At(s)) == Disk(st, At(s))
      && executed.servers[i] == s && Disk(executed, At(s)) == Apply(Disk(st, At(s)), c)
      && (j != i ==>
            && ToldAsBackup(st, refused, i, j, Prefixed(st.servers[j].root, c))
            && ToldAsBackup(st, executed, i, j, Prefixed(st.servers[j].root, c)))
  {
    hide Apply, Prefixed, ForwardedToBoth;
    var s := st.servers[i];
    assert Somebody(At(s)) && Somebody(At(st.servers[j]));
    NotOwnBackup(st, i);
    BothOutcome(st, i, i, c);
    BothOutcome(st, i, j, c);
    BothOutcome(OnDisk(st, At(s), c), i, i, c);
    BothOutcome(OnDisk(st, At(s), c), i, j, c);
    if j != i { OtherAddress(st.servers, i, j); }
  }

  lemma OtherAddress(t: seq<Server>, i: nat, j: nat)
    requires DistinctAddresses(t) && i < |t| && j < |t| && i != j
    ensures At(t[i]) != At(t[j])
  {
  }

  lemma NotOwnBackup(st: State, i: nat)
    requires Inv(st) && i < |st.servers|
    ensures !BackupOf(st.servers, i, i)
  {
    assert BothBack(st.servers, i);
    assert Somebody(At(st.servers[i]));
  }

  // ----- CREATE

  /** `f` has a dot after its first byte. */
  predicate FileName(f: Path) {
    exists k :: 0 < k < |f| && f[k] == 46
  }

  /** CREATE that reaches the owner, entry `i`. The path is on its disk afterwards, with the
      directories above; its record is stored, and so answered, exactly if the name is that of
      a directory or the file was not there; every backup gets the command, below its root. */
  lemma CreateOutcome(st: State, d: Path, f: Path, info: FileInfo, i: nat, j: nat)
    requires Inv(st) && PathIndex.Answer(st.index, d) == Some(info)
    requires PathIndex.Answer(PathIndex.AfterFind(st.index, d), d + [47] + f) == None
    requires i < |st.servers| && st.servers[i].ip == info.ip && st.servers[i].portClient == info.port
    requires st.servers[i].isActive && st.servers[i].portNm != -1
    requires j < |st.servers|
    ensures
      var full, next, e := d + [47] + f, Next(st, CreateFile(d, f)), Endpoint(info.ip, info.port);
      && PathIndex.Answer(next.index, full) ==
           (if FileName(f) && full in Disk(st, e) then None else Some(FileInfo(info.ip, info.port, full)))
      && |next.servers| == |st.servers| && next.servers[i] == st.servers[i]
      && (forall q :: q in Disk(next, e) <==> q in Disk(st, e) || q == full || exists k :: 0 < k < |full| && full[k] == 47 && q == full[..k])
      && next.index.cache == FoundTwo(st.index, d, full).cache
      && (j != i ==> ToldAsBackup(st, next, i, j, Create(st.servers[j].root + [47] + d, f)))
  {
    hide Inv, Apply, ForwardedToBoth, ToldAsBackup, IndexOf, PathIndex.AfterFind, PathIndex.AfterStore, PathIndex.Answer;
    var full, e := d + [47] + f, Endpoint(info.ip, info.port);
    assert Slashed(d, f) == full && Slashed(st.servers[j].root, d) == st.servers[j].root + [47] + d;
    OwnerEntry(st, e, i);
    CreatedParts(st, d, f, i);
    SentOutcome(st, i, j, Create(d, f));
    forall q { CommandOutcome(Disk(st, e), d, f, [], {}, q); }
    CreatedInherits(st, d, f, full);
    CreatedIndex(st, d, f);
    StoreOutcome(AfterLookups(st, d, full).index, e.ip, e.port, full, full);
    PrefixedOutcome(st.servers[j].root, d, f, []);
    var plain := ForwardedToBoth(OnDisk(st, e, Create(d, f)), st.servers[i], Create(d, f));
    if j != i { ToldSame(st, plain, Next(st, CreateFile(d, f)), i, j, Create(st.servers[j].root + [47] + d, f)); }
  }

  lemma ToldSame(st: State, a: State, b: State, i: nat, j: nat, c: Command)
    requires i < |st.servers| && j < |st.servers| && ToldAsBackup(st, a, i, j, c)
    requires a.servers == b.servers && a.disks == b.disks
    ensures ToldAsBackup(st, b, i, j, c)
  {
  }

  lemma OwnerEntry(st: State, e: Endpoint, i: nat)
    requires Inv(st) && i < |st.servers| && st.servers[i].ip == e.ip && st.servers[i].portClient == e.port
    ensures Known(st.servers, e) && ServerAt(st.servers, e) == st.servers[i] && At(st.servers[i]) == e
    ensures Active(st.servers, e) <==> st.servers[i].isActive
    ensures Reachable(st.servers, e) <==> st.servers[i].isActive && st.servers[i].portNm != -1
  {
    EntryAt(st.servers, i, e);
  }

  /** The index apart, creation is the command for the owner. */
  lemma CreatedParts(st: State, d: Path, f: Path, i: nat)
    requires CreateSent(st, d, f) && i < |st.servers|
    requires
      var e := Owner(PathIndex.Answer(st.index, d).value);
      At(st.servers[i]) == e && ServerAt(st.servers, e) == st.servers[i]
    ensures
      var next, e := AfterCreate(st, d, f), Owner(PathIndex.Answer(st.index, d).value);
      var plain := ForwardedToBoth(OnDisk(st, e, Create(d, f)), st.servers[i], Create(d, f));
      next.servers == plain.servers && next.disks == plain.disks
  {
    hide Apply, Prefixed, PathIndex.AfterFind, PathIndex.AfterStore;
    var e := Owner(PathIndex.Answer(st.index, d).value);
    var looked := AfterLookups(st, d, Slashed(d, f)).index;
    var ix := if Succeeds(Disk(st, e), d, f) then PathIndex.AfterStore(looked, e.ip, e.port, Slashed(d, f)) else looked;
    BothIndexless(OnDisk(st, e, Create(d, f)), ix, st.servers[i], Create(d, f));
  }

  lemma Indexless(st: State, ix: PathIndex.Index, e: Endpoint, c: Command)
    ensures Forwarded(st.(index := ix), e, c) == Forwarded(st, e, c).(index := ix)
  {
    hide Apply, Prefixed, IndexOf;
  }

  lemma BothIndexless(st: State, ix: PathIndex.Index, s: Server, c: Command)
    ensures ForwardedToBoth(st.(index := ix), s, c) == ForwardedToBoth(st, s, c).(index := ix)
  {
    hide Forwarded;
    Indexless(st, ix, s.backup1, c);
    Indexless(Forwarded(st, s.backup1, c), ix, s.backup2, c);
  }

  /** CREATE that gets no further than its lookups: the directory is unknown, or the path is
      known, or the owner is not in the table, has no naming port or is inactive. */
  lemma CreateNowhere(st: State, d: Path, f: Path)
    requires Inv(st)
    requires
      || PathIndex.Answer(st.index, d).None?
      || PathIndex.Answer(PathIndex.AfterFind(st.index, d), d + [47] + f).Some?
      || var info := PathIndex.Answer(st.index, d).value;
         forall i | 0 <= i < |st.servers| && st.servers[i].ip == info.ip && st.servers[i].portClient == info.port ::
           !st.servers[i].isActive || st.servers[i].portNm == -1
    ensures OnlyLooked(st, Next(st, CreateFile(d, f)), FoundTwo(st.index, d, d + [47] + f))
  {
    assert Slashed(d, f) == d + [47] + f;
    assert !CreateSent(st, d, f);
  }

  // ----- DELETE

  /** DELETE that reaches the owner, entry `i`: of its disk go the path and what is below it,
      unless it refuses; every backup gets the command, below its root, in any case; and the
      index changes as its own deletion says. */
  lemma DeleteOutcome(st: State, p: Path, refused: bool, info: FileInfo, i: nat, j: nat)
    requires Inv(st) && PathIndex.Answer(st.index, p) == Some(info) && 46 in p
    requires i < |st.servers| && st.servers[i].ip == info.ip && st.servers[i].portClient == info.port
    requires st.servers[i].isActive && st.servers[i].portNm != -1
    requires j < |st.servers|
    ensures
      var next, e := Next(st, if refused then DeleteRefused(p) else DeleteFile(p)), Endpoint(info.ip, info.port);
      && next.index == PathIndex.Next(st.index, PathIndex.Delete(p))
      && |next.servers| == |st.servers| && next.servers[i] == st.servers[i]
      && (refused ==> Disk(next, e) == Disk(st, e))
      && (!refused ==> forall q :: q in Disk(next, e) <==> q in Disk(st, e) && q != p && !(p + [47] <= q))
      && (j != i ==> ToldAsBackup(st, next, i, j, Command.Delete(st.servers[j].root + [47] + p)))
  {
    hide Inv, Apply, ForwardedToBoth, ToldAsBackup, IndexOf, PathIndex.AfterDelete, PathIndex.Answer;
    hide AfterDeleteRequest, AfterRefusedDelete;
    var e, c := Endpoint(info.ip, info.port), Command.Delete(p);
    OwnerEntry(st, e, i);
    assert DeleteSent(st, p);
    DeletedParts(st, p, i);
    SentOutcome(st, i, j, c);
    forall q { CommandOutcome(Disk(st, e), [], [], p, {}, q); }
    PrefixedOutcome(st.servers[j].root, [], [], p);
    var plain := ForwardedToBoth(if refused then st else OnDisk(st, e, c), st.servers[i], c);
    var next := Next(st, if refused then DeleteRefused(p) else DeleteFile(p));
    if j != i { ToldSame(st, plain, next, i, j, Command.Delete(st.servers[j].root + [47] + p)); }
  }

  lemma DeletedParts(st: State, p: Path, i: nat)
    requires DeleteSent(st, p) && i < |st.servers|
    requires ServerAt(st.servers, Owner(PathIndex.Answer(st.index, p).value)) == st.servers[i]
    ensures
      var e, c, ix := Owner(PathIndex.Answer(st.index, p).value), Command.Delete(p), PathIndex.AfterDelete(st.index, p);
      && AfterRefusedDelete(st, p) == ForwardedToBoth(st, st.servers[i], c).(index := ix)
      && AfterDeleteRequest(st, p) == ForwardedToBoth(OnDisk(st, e, c), st.servers[i], c).(index := ix)
  {
    hide Apply, ForwardedToBoth, IndexOf, PathIndex.AfterDelete, PathIndex.Answer;
    var e, c, ix := Owner(PathIndex.Answer(st.index, p).value), Command.Delete(p), PathIndex.AfterDelete(st.index, p);
    BothIndexless(st, ix, st.servers[i], c);
    BothIndexless(OnDisk(st, e, c), ix, st.servers[i], c);
  }

  lemma DeleteNowhere(st: State, p: Path, refused: bool)
    requires Inv(st)
    requires
      || 46 !in p
      || PathIndex.Answer(st.index, p).None?
      || var info := PathIndex.Answer(st.index, p).value;
         forall i | 0 <= i < |st.servers| && st.servers[i].ip == info.ip && st.servers[i].portClient == info.port ::
           !st.servers[i].isActive || st.servers[i].portNm == -1
    ensures
      var next := Next(st, if refused then DeleteRefused(p) else DeleteFile(p));
      if 46 in p then OnlyLooked(st, next, PathIndex.AfterFind(st.index, p)) else next == st
  {
  }

  // ----- READ

  /** READ of an unknown path finds nothing; of a known one, the owner if it is active, else its
      first active backup, with the root of the backup before the path. */
  lemma ReadUnknown(st: State, p: Path)
    ensures PathIndex.Answer(st.index, p) == None ==> Read(st, p) == NotFound
    ensures OnlyLooked(st, Next(st, ReadFile(p)), PathIndex.AfterFind(st.index, p))
    ensures OnlyLooked(st, Next(st, LookUp(p)), PathIndex.AfterFind(st.index, p))
  {
  }

  lemma ReadOutcome(st: State, p: Path, info: FileInfo, i: nat)
    requires Inv(st) && PathIndex.Answer(st.index, p) == Some(info)
    requires i < |st.servers| && st.servers[i].ip == info.ip && st.servers[i].portClient == info.port
    ensures st.servers[i].isActive ==> Read(st, p) == Served(Endpoint(info.ip, info.port), info.filePath)
    ensures !st.servers[i].isActive && InactiveAt(st.servers, st.servers[i].backup1) && InactiveAt(st.servers, st.servers[i].backup2) ==>
      Read(st, p) == NotFound
  {
    EntryAt(st.servers, i, Owner(info));
    InactiveMeaning(st.servers, st.servers[i].backup1);
    InactiveMeaning(st.servers, st.servers[i].backup2);
  }

  /** A record of a server that is not in the table is handed out as it is. */
  lemma ReadUnowned(st: State, p: Path, info: FileInfo)
    requires PathIndex.Answer(st.index, p) == Some(info)
    requires forall k | 0 <= k < |st.servers| :: st.servers[k].ip != info.ip || st.servers[k].portClient != info.port
    ensures Read(st, p) == Served(Endpoint(info.ip, info.port), info.filePath)
  {
    NoEntryAt(st.servers, Owner(info));
  }

  predicate InactiveAt(t: seq<Server>, e: Endpoint) {
    forall k | 0 <= k < |t| && t[k].ip == e.ip && t[k].portClient == e.port :: !t[k].isActive
  }

  lemma InactiveMeaning(t: seq<Server>, e: Endpoint)
    requires DistinctAddresses(t)
    ensures InactiveAt(t, e) <==> !Active(t, e)
  {
    if k :| 0 <= k < |t| && t[k].ip == e.ip && t[k].portClient == e.port && t[k].isActive { EntryAt(t, k, e); }
  }

  /** The owner is inactive, and entry `k` is its first backup, or its second while the first is
      inactive. */
  lemma ReadFailsOver(st: State, p: Path, info: FileInfo, i: nat, k: nat)
    requires Inv(st) && PathIndex.Answer(st.index, p) == Some(info)
    requires i < |st.servers| && st.servers[i].ip == info.ip && st.servers[i].portClient == info.port
    requires !st.servers[i].isActive && k < |st.servers| && st.servers[k].isActive
    requires
      var b := Endpoint(st.servers[k].ip, st.servers[k].portClient);
      st.servers[i].backup1 == b || (st.servers[i].backup2 == b && InactiveAt(st.servers, st.servers[i].backup1))
    ensures Read(st, p) == Served(Endpoint(st.servers[k].ip, st.servers[k].portClient), st.servers[k].root + [47] + p)
  {
    EntryAt(st.servers, i, Owner(info));
    EntryAt(st.servers, k, At(st.servers[k]));
    InactiveMeaning(st.servers, st.servers[i].backup1);
  }

  // ----- COPY

  /** A directory copy with both paths answered and both owners active: below the destination
      is answered what was below the source, elsewhere what was there. */
  lemma CopyOutcome(st: State, src: Path, dst: Path, a: FileInfo, b: FileInfo, i: nat, j: nat, q: Path)
    requires Inv(st) && PathIndex.Answer(st.index, src) == Some(a) && src in st.index.trie.nodes
    requires PathIndex.Answer(PathIndex.AfterFind(st.index, src), dst) == Some(b)
    requires i < |st.servers| && st.servers[i].ip == a.ip && st.servers[i].portClient == a.port && st.servers[i].isActive
    requires j < |st.servers| && st.servers[j].ip == b.ip && st.servers[j].portClient == b.port && st.servers[j].isActive
    ensures
      var next, files := Next(st, CopyDir(src, dst)), st.index.trie.files;
      && next.servers == st.servers && next.disks == st.disks
      && next.index.cache == FoundTwo(st.index, src, dst).cache
      && (forall s :: Lookup(next.index.trie.files, dst + s) == Lookup(files, src + s))
      && (!(dst <= q) ==> Lookup(next.index.trie.files, q) == Lookup(files, q))
  {
    hide PathIndex.AfterFind, Copied, IndexOf;
    EntryAt(st.servers, i, Owner(a));
    EntryAt(st.servers, j, Owner(b));
    forall s ensures Lookup(Copied(st.index.trie, src, dst).files, dst + s) == Lookup(st.index.trie.files, src + s) {
      CopyMeaning(st.index.trie, src, dst, dst + s);
      assert (dst + s)[|dst|..] == s;
    }
    CopyMeaning(st.index.trie, src, dst, q);
    FindsKeep(st.index, src, dst);
  }

  lemma FindsKeep(ix: PathIndex.Index, p: Path, q: Path)
    ensures PathIndex.AfterFind(PathIndex.AfterFind(ix, p), q).trie == ix.trie
  {
  }

  /** The source is answered by an active server, so that the destination is looked up, too. */
  predicate SourceServed(st: State, src: Path) {
    && PathIndex.Answer(st.index, src).Some?
    && !InactiveAt(st.servers, Owner(PathIndex.Answer(st.index, src).value))
  }

  function CopyLookups(st: State, src: Path, dst: Path): PathIndex.Index {
    if SourceServed(st, src) then FoundTwo(st.index, src, dst) else PathIndex.AfterFind(st.index, src)
  }

  /** Otherwise, also when the source is cached but has no node, and for a file: nothing but
      lookups. */
  lemma CopyNowhere(st: State, src: Path, dst: Path)
    requires DistinctAddresses(st.servers)
    requires
      || !SourceServed(st, src)
      || PathIndex.Answer(PathIndex.AfterFind(st.index, src), dst).None?
      || InactiveAt(st.servers, Owner(PathIndex.Answer(PathIndex.AfterFind(st.index, src), dst).value))
      || src !in st.index.trie.nodes
    ensures OnlyLooked(st, Next(st, CopyDir(src, dst)), CopyLookups(st, src, dst))
  {
    hide IndexOf;
    if PathIndex.Answer(st.index, src).Some? {
      InactiveMeaning(st.servers, Owner(PathIndex.Answer(st.index, src).value));
      var dest := PathIndex.Answer(PathIndex.AfterFind(st.index, src), dst);
      if dest.Some? { InactiveMeaning(st.servers, Owner(dest.value)); }
    }
  }

  lemma FileCopyOutcome(st: State, src: Path, dst: Path)
    requires DistinctAddresses(st.servers)
    ensures OnlyLooked(st, Next(st, CopyFile(src, dst)), CopyLookups(st, src, dst))
  {
    hide IndexOf;
    if PathIndex.Answer(st.index, src).Some? {
      InactiveMeaning(st.servers, Owner(PathIndex.Answer(st.index, src).value));
    }
  }

  lemma TransferOutcome(st: State, e: Endpoint, ps: set<Path>)
    ensures
      var next := Next(st, Transfer(e, ps));
      && next.servers == st.servers && next.index == st.index
      && Disk(next, e) == Disk(st, e) + ps
      && forall x :: x != e ==> Disk(next, x) == Disk(st, x)
  {
  }

  // ----- registration

  /** No inactive entry has this ip and these three ports. */
  predicate Newcomer(t: seq<Server>, r: Registration) {
    forall k | 0 <= k < |t| ::
      t[k].isActive || t[k].ip != r.ip || t[k].portNm != r.portNm || t[k].portClient != r.portClient || t[k].ssPort != r.ssPort
  }

  lemma NewcomerMeaning(t: seq<Server>, r: Registration)
    ensures Newcomer(t, r) <==> Returning(t, r) == |t|
  {
  }

  /** A new server with room in the table: its entry, its disk and the records of its paths,
      which overwrite others; all earlier entries stay, but for the backups that the third
      server brings to the first two. */
  lemma RegisterOutcome(st: State, r: Registration, disk: set<Path>, i: nat)
    requires PathIndex.WellFormed(st.index) && |st.servers| < 10
    requires Newcomer(st.servers, r)
    requires i < |st.servers| + 1
    ensures
      var next, n := Next(st, Register(r, disk)), |st.servers|;
      && |next.servers| == n + 1 && next.disks == st.disks[Endpoint(r.ip, r.portClient) := disk]
      && (i < n && n != 2 ==> next.servers[i] == st.servers[i])
      && (i < n ==> next.servers[i] == st.servers[i].(backup1 := next.servers[i].backup1, backup2 := next.servers[i].backup2))
      && (var s := next.servers[n];
          && s.ip == r.ip && s.portNm == r.portNm && s.portClient == r.portClient && s.ssPort == r.ssPort
          && s.isActive && s.commands == [] && s.root == FirstToken(r.accessible).GetOr([])
          && (n < 2 ==> s.backup1 == s.backup2 == Endpoint([], 0)))
      && forall q :: Lookup(next.index.trie.files, q) ==
           if q in Tokens(r.accessible) then Some(FileInfo(r.ip, r.portClient, q)) else Lookup(st.index.trie.files, q)
  {
    hide Tokens, FirstToken, Highest, Returning, Newcomer;
    NewcomerMeaning(st.servers, r);
    var t1 := Grown(st.servers, r);
    assert Arrives(st, r);
    RegisteredTable(st, r, disk);
    WithBackupsRebacked(t1);
    if |t1| > 3 { LastBackupsOnly(t1); LastOnly(t1, i); }
    assert At(NewServer(r)) == Endpoint(r.ip, r.portClient);
    TrieOfRegistration(st, r, disk);
  }

  lemma LastOnly(t: seq<Server>, i: nat)
    requires |t| > 3 && i < |t|
    ensures |WithBackups(t)| == |t| && (i < |t| - 1 ==> WithBackups(t)[i] == t[i])
  {
  }

  lemma TrieOfRegistration(st: State, r: Registration, disk: set<Path>)
    requires PathIndex.WellFormed(st.index) && Arrives(st, r)
    ensures forall q :: Lookup(AfterRegister(st, r, disk).index.trie.files, q) ==
              if q in Tokens(r.accessible) then Some(FileInfo(r.ip, r.portClient, q)) else Lookup(st.index.trie.files, q)
  {
    hide AfterRegister, Tokens, Recorded;
    BackedUp(st, r, disk);
    forall q ensures Lookup(Recorded(st, r).trie.files, q) ==
      if q in Tokens(r.accessible) then Some(FileInfo(r.ip, r.portClient, q)) else Lookup(st.index.trie.files, q)
    {
      RecordedLookups(st, r, q);
    }
  }

  /** A table without room: no entry, no disk, no record; at most the last entry has other
      backups. */
  lemma RegisterFull(st: State, r: Registration, disk: set<Path>, i: nat)
    requires PathIndex.WellFormed(st.index) && |st.servers| == 10 && i < 10
    requires Newcomer(st.servers, r)
    ensures
      var next := Next(st, Register(r, disk));
      && |next.servers| == 10 && next.disks == st.disks && next.index.trie == st.index.trie
      && (i < 9 ==> next.servers[i] == st.servers[i])
      && (i == 9 ==> next.servers[i] == st.servers[i].(backup1 := next.servers[i].backup1, backup2 := next.servers[i].backup2))
  {
    hide Highest, AfterRegister, Returning, Newcomer;
    NewcomerMeaning(st.servers, r);
    RegisteredTable(st, r, disk);
    LastOnly(st.servers, i);
    WithBackupsRebacked(st.servers);
    BackedUp(st, r, disk);
    assert AfterRegister(st, r, disk).disks == st.disks by { FullDisks(st, r, disk); }
  }

  lemma FullDisks(st: State, r: Registration, disk: set<Path>)
    requires |st.servers| == 10 && Returning(st.servers, r) == 10
    ensures AfterRegister(st, r, disk).disks == st.disks
  {
  }

  /** The backups when the third server arrives. */
  lemma ThirdOutcome(st: State, r: Registration, disk: set<Path>)
    requires |st.servers| == 2
    requires Newcomer(st.servers, r)
    ensures
      var a, b, next := st.servers[0], st.servers[1], Next(st, Register(r, disk));
      var ea, eb, ec := Endpoint(a.ip, a.portClient), Endpoint(b.ip, b.portClient), Endpoint(r.ip, r.portClient);
      && |next.servers| == 3
      && next.servers[0].backup1 == (if b.isActive then eb else a.backup1) && next.servers[0].backup2 == ec
      && next.servers[1].backup1 == (if a.isActive then ea else b.backup1) && next.servers[1].backup2 == ec
      && next.servers[2].backup1 == (if b.isActive then eb else if a.isActive then ea else Endpoint([], 0))
      && next.servers[2].backup2 == (if a.isActive && b.isActive then ea else Endpoint([], 0))
  {
    hide Returning, Newcomer;
    NewcomerMeaning(st.servers, r);
    RegisteredTable(st, r, disk);
    ThreeBackups(Grown(st.servers, r));
  }

  lemma ThreeBackups(t: seq<Server>)
    requires |t| == 3 && t[2].isActive && t[2].backup1 == t[2].backup2 == NOBODY
    ensures
      var t' := WithBackups(t);
      && |t'| == 3
      && t'[0].backup1 == (if t[1].isActive then At(t[1]) else t[0].backup1) && t'[0].backup2 == At(t[2])
      && t'[1].backup1 == (if t[0].isActive then At(t[0]) else t[1].backup1) && t'[1].backup2 == At(t[2])
      && t'[2].backup1 == (if t[1].isActive then At(t[1]) else if t[0].isActive then At(t[0]) else NOBODY)
      && t'[2].backup2 == (if t[0].isActive && t[1].isActive then At(t[0]) else NOBODY)
  {
    var t1 := WithFirstBackups(t);
    assert |t1| == 3 && forall k | 0 <= k < 3 :: t1[k].isActive == t[k].isActive && At(t1[k]) == At(t[k]);
    var top := if t[1].isActive then 1 else if t[0].isActive then 0 else -1;
    assert Highest(t1, 2) == top;
    assert Highest(t1, top) == if t[0].isActive && t[1].isActive then 0 else -1;
  }

  /** Later ones are backed by the last two active servers before them, `i` and then `j`, or by
      the only one, or by nobody (-1). */
  lemma LaterOutcome(st: State, r: Registration, disk: set<Path>, i: int, j: int)
    requires 3 <= |st.servers| < 10 && -1 <= j <= i < |st.servers| && (j == i ==> i == -1)
    requires (i >= 0 ==> st.servers[i].isActive) && (j >= 0 ==> st.servers[j].isActive)
    requires forall k | 0 <= k < |st.servers| && j < k && k != i :: !st.servers[k].isActive
    requires Newcomer(st.servers, r)
    ensures
      var next, n := Next(st, Register(r, disk)), |st.servers|;
      && |next.servers| == n + 1
      && next.servers[n].backup1 ==
           (if i < 0 then Endpoint([], 0) else Endpoint(st.servers[i].ip, st.servers[i].portClient))
      && next.servers[n].backup2 ==
           (if j < 0 then Endpoint([], 0) else Endpoint(st.servers[j].ip, st.servers[j].portClient))
  {
    hide Highest, WithBackups, Returning, Newcomer;
    NewcomerMeaning(st.servers, r);
    RegisteredTable(st, r, disk);
    TopTwo(st.servers, NewServer(r), i, j);
    LastBacked(Grown(st.servers, r), i, j);
  }

  lemma TopTwo(t: seq<Server>, s: Server, i: int, j: int)
    requires -1 <= j <= i < |t| && (j == i ==> i == -1)
    requires (i >= 0 ==> t[i].isActive) && (j >= 0 ==> t[j].isActive)
    requires forall k | 0 <= k < |t| && j < k && k != i :: !t[k].isActive
    ensures Highest(t + [s], |t|) == i && Highest(t + [s], i) == j
  {
    hide Highest;
    ServerTables.HighestIs(t + [s], |t|, i);
    ServerTables.HighestIs(t + [s], i, j);
  }

  lemma LastBacked(t: seq<Server>, i: int, j: int)
    requires |t| > 3 && -1 <= j < |t| - 1 && -1 <= i < |t| - 1
    requires (i >= 0 ==> t[i].isActive) && (j >= 0 ==> t[j].isActive && i != j)
    requires Highest(t, |t| - 1) == i && Highest(t, i) == j
    requires t[|t| - 1].backup1 == t[|t| - 1].backup2 == NOBODY
    ensures |WithBackups(t)| == |t|
    ensures WithBackups(t)[|t| - 1].backup1 == if i < 0 then NOBODY else At(t[i])
    ensures WithBackups(t)[|t| - 1].backup2 == if j < 0 then NOBODY else At(t[j])
  {
    hide Highest;
  }

  // ----- the lookups of backup()

  ghost function FoundAll(ix: PathIndex.Index, ps: seq<Path>): PathIndex.Index
    decreases |ps|
  {
    if ps == [] then ix else FoundAll(PathIndex.AfterFind(ix, ps[0]), ps[1..])
  }

  /** The index after a registration: the paths are stored, and then looked up. With less than
      three servers nothing is. */
  lemma RegisterLookups(st: State, r: Registration, disk: set<Path>)
    requires Arrives(st, r)
    ensures Next(st, Register(r, disk)).index == AllBackupLookups(Recorded(st, r), Grown(st.servers, r))
    ensures |st.servers| < 2 ==> Next(st, Register(r, disk)).index == Recorded(st, r)
  {
  }

  /** With all roots known and all servers active, the third registration looks up each root with
      that of the backup it gets, in this order. */
  lemma ThirdLookups(ix: PathIndex.Index, t: seq<Server>)
    requires |t| == 3 && AllActive(t) && forall s <- t :: s.root in ix.trie.files
    ensures
      var a, b, c := t[0].root, t[1].root, t[2].root;
      AllBackupLookups(ix, t) == FoundAll(ix, [a, b, a, c, b, a, b, c, c, b, c, a])
  {
    hide PathIndex.AfterFind;
    assert t[0] in t && t[1] in t && t[2] in t;
    assert Highest(t, 2) == 1 && Highest(t, 1) == 0;
    var x1 := FoundPair(ix, t, 0, 1);
    var x2 := FoundPair(x1, t, 0, 2);
    var x3 := FoundPair(x2, t, 1, 0);
    var x4 := FoundPair(x3, t, 1, 2);
    var x5 := FoundPair(x4, t, 2, 1);
    var x6 := FoundPair(x5, t, 2, 0);
    var a, b, c := t[0].root, t[1].root, t[2].root;
    FoundNext(ix, a, b, [a, c, b, a, b, c, c, b, c, a]);
    FoundNext(x1, a, c, [b, a, b, c, c, b, c, a]);
    FoundNext(x2, b, a, [b, c, c, b, c, a]);
    FoundNext(x3, b, c, [c, b, c, a]);
    FoundNext(x4, c, b, [c, a]);
    FoundNext(x5, c, a, []);
  }

  /** A later one looks up the root of the newcomer with those of its two backups. */
  lemma LaterLookups(ix: PathIndex.Index, t: seq<Server>, i: nat, j: nat)
    requires |t| > 3 && j < i < |t| - 1 && t[i].isActive && t[j].isActive && t[|t| - 1].root in ix.trie.files
    requires forall k | j < k < |t| - 1 && k != i :: !t[k].isActive
    ensures
      var n := |t| - 1;
      AllBackupLookups(ix, t) == FoundAll(ix, [t[n].root, t[i].root, t[n].root, t[j].root])
  {
    hide PathIndex.AfterFind, Highest;
    var n := |t| - 1;
    ServerTables.HighestIs(t, n, i);
    ServerTables.HighestIs(t, i, j);
    var x1 := FoundPair(ix, t, n, i);
    var x2 := FoundPair(x1, t, n, j);
    var a, b, c := t[n].root, t[i].root, t[j].root;
    FoundNext(ix, a, b, [a, c]);
    FoundNext(x1, a, c, []);
    assert [a, b] + [a, c] == [a, b, a, c] && [a, c] + [] == [a, c];
  }

  /** Two lookups for one backup; both roots stay known. */
  lemma FoundPair(ix: PathIndex.Index, t: seq<Server>, i: nat, j: nat) returns (next: PathIndex.Index)
    requires i < |t| && j < |t| && t[j].isActive && t[i].root in ix.trie.files
    ensures next == BackupLookups(ix, t, i, j) == FoundTwo(ix, t[i].root, t[j].root)
    ensures next.trie == ix.trie
  {
    next := BackupLookups(ix, t, i, j);
  }

  lemma FoundNext(ix: PathIndex.Index, p: Path, q: Path, rest: seq<Path>)
    ensures FoundAll(ix, [p, q] + rest) == FoundAll(FoundTwo(ix, p, q), rest)
  {
    var ps := [p, q] + rest;
    assert ps[1..][1..] == rest && ps[0] == p && ps[1..][0] == q;
  }

  // ----- the index

  /** A lookup: the first entry with the path answers and moves to the front; without one a
      record answers and is put in front, the last of eight entries going; else nothing. */
  lemma FindOutcome(ix: PathIndex.Index, p: Path, k: nat)
    requires PathIndex.WellFormed(ix) && k <= |ix.cache|
    requires if k < |ix.cache| then ix.cache[k].key == p else forall m | 0 <= m < |ix.cache| :: ix.cache[m].key != p
    ensures
      var c, next := ix.cache, PathIndex.AfterFind(ix, p);
      && next.trie == ix.trie
      && (k < |c| ==> PathIndex.Answer(ix, p) == Some(c[k].info) && next.cache == [c[k]] + c[..k] + c[k + 1..])
      && (k == |c| && p in ix.trie.files ==>
            && PathIndex.Answer(ix, p) == Some(ix.trie.files[p])
            && next.cache == [Entry(p, ix.trie.files[p])] + if |c| < 8 then c else c[..7])
      && (k == |c| && p !in ix.trie.files ==> PathIndex.Answer(ix, p) == None && next == ix)
  {
    PathIndex.KeysHave(ix.cache, p);
    if k < |ix.cache| {
      PathIndex.EntryAt(ix.cache, ix.cache[k]);
      assert Keys(ix.cache)[k] == p && Keys(ix.cache)[Place(ix.cache, p)] == p;
    }
  }

  lemma StoreOutcome(ix: PathIndex.Index, ip: Text, port: int, p: Path, q: Path)
    ensures
      var next := PathIndex.AfterStore(ix, ip, port, p);
      && next.cache == ix.cache
      && next.trie.files == ix.trie.files[p := FileInfo(ip, port, p)]
      && (q in next.trie.nodes <==> q in ix.trie.nodes || q <= p)
  {
    PrefixesMeaning(p);
  }

  /** A deletion of a known path whose record names `name`: that key leaves the cache, and the
      record that goes is that of `name` too, unless the path is cached, first of several after
      its lookup, and named by its own record: then it is what the next entry names. */
  lemma DeleteIndexOutcome(ix: PathIndex.Index, p: Path, name: Path, k: nat)
    requires PathIndex.WellFormed(ix) && k <= |ix.cache|
    requires if k < |ix.cache| then ix.cache[k].key == p else forall m | 0 <= m < |ix.cache| :: ix.cache[m].key != p
    requires PathIndex.Answer(ix, p).Some? && PathIndex.Answer(ix, p).value.filePath == name
    ensures
      var c, next := ix.cache, PathIndex.Next(ix, PathIndex.Delete(p));
      && next.trie.nodes == ix.trie.nodes
      && next.trie.files == ix.trie.files - {
           if k < |c| && |c| >= 2 && name == p then (if k == 0 then c[1] else c[0]).info.filePath else name}
      && forall x :: x in next.cache <==> x.key != name && x in PathIndex.AfterFind(ix, p).cache
  {
    hide PathIndex.AfterFind, PathIndex.KeyDeleted;
    FindOutcome(ix, p, k);
    Records.TakenKeyMeaning(ix, p);
    TakenOutcome(ix, p, k);
    PathIndex.FindWellFormed(ix, p);
    PathIndex.DroppedEntries(PathIndex.AfterFind(ix, p).cache, name);
  }

  lemma TakenOutcome(ix: PathIndex.Index, p: Path, k: nat)
    requires PathIndex.WellFormed(ix) && k <= |ix.cache| && PathIndex.Answer(ix, p).Some?
    requires if k < |ix.cache| then ix.cache[k].key == p else forall m | 0 <= m < |ix.cache| :: ix.cache[m].key != p
    ensures
      var c, name := ix.cache, PathIndex.Answer(ix, p).value.filePath;
      Records.TakenKey(ix, p) == if k < |c| && |c| >= 2 && name == p then (if k == 0 then c[1] else c[0]).info.filePath else name
  {
    FindOutcome(ix, p, k);
    PathIndex.KeysHave(ix.cache, p);
    if k < |ix.cache| {
      assert Keys(ix.cache)[k] == p && Keys(ix.cache)[Place(ix.cache, p)] == p;
    }
  }
}
