/** The handlers of the naming server (naming_server.c), on the path index and the server
    table in memory: each does what a step of Cluster says. */
module NamingServers {
  import opened Types
  import opened PathMaps
  import opened PathLists
  import opened PathIndex
  import opened NameIndexes
  import opened ServerTables
  import Cluster
  import opened Replies
  import TrieShape
  import TrieIndex

  type State = Cluster.State
  type Registration = Cluster.Registration

  // ----- CREATE and DELETE, once the owner is known

  ghost function CreateOn(st: State, e: Endpoint, d: Path, f: Path): State
    requires Cluster.Known(st.servers, e)
  {
    var stored := if Cluster.Succeeds(Cluster.Disk(st, e), d, f)
                  then st.(index := AfterStore(st.index, e.ip, e.port, Slashed(d, f)))
                  else st;
    Cluster.ForwardedToBoth(Cluster.OnDisk(stored, e, Cluster.Create(d, f)), Cluster.ServerAt(st.servers, e), Cluster.Create(d, f))
  }

  ghost function DeleteOn(st: State, e: Endpoint, index: Index, p: Path, refused: bool): State
    requires Cluster.Known(st.servers, e)
  {
    var c, removed := Cluster.Command.Delete(p), st.(index := index);
    Cluster.ForwardedToBoth(if refused then removed else Cluster.OnDisk(removed, e, c), Cluster.ServerAt(st.servers, e), c)
  }

  lemma CreateParts(st: State, d: Path, f: Path)
    requires Cluster.CreateSent(st, d, f)
    ensures Cluster.AfterCreate(st, d, f) ==
      CreateOn(Cluster.AfterLookups(st, d, Slashed(d, f)), Owner(Answer(st.index, d).value), d, f)
  {
  }

  lemma DeleteParts(st: State, p: Path, refused: bool)
    requires Cluster.DeleteSent(st, p)
    ensures Cluster.Next(st, DeleteStep(p, refused)) ==
      DeleteOn(st.(index := AfterFind(st.index, p)), Owner(Answer(st.index, p).value),
               DeletedThrough(AfterFind(st.index, p), p in LookupCache.Keys(st.index.cache), Answer(st.index, p).value.filePath),
               p, refused)
  {
    DeleteThroughPointer(st.index, p);
  }

  /** COPY, from the lookup of the destination on. */
  ghost function CopiedTo(st: State, src: Path, dst: Path, dir: bool): State {
    var both := st.(index := AfterFind(st.index, dst));
    if !dir || Answer(st.index, dst).None? || !Cluster.Active(st.servers, Owner(Answer(st.index, dst).value)) then both
    else both.(index := both.index.(trie := Copied(both.index.trie, src, dst)))
  }

  // ----- registration

  ghost function Assigned1(st: State, i: nat, j: int): State
    requires i < |st.servers| && j < |st.servers|
  {
    Cluster.State(Cluster.BackupLookups(st.index, st.servers, i, j), Cluster.WithBackup1(st.servers, i, j), st.disks)
  }

  ghost function Assigned2(st: State, i: nat, j: int): State
    requires i < |st.servers| && j < |st.servers|
  {
    Cluster.State(Cluster.BackupLookups(st.index, st.servers, i, j), Cluster.WithBackup2(st.servers, i, j), st.disks)
  }

  lemma TokensStep(s: Text)
    ensures FirstToken(s).Some? ==> Tokens(s) == [FirstToken(s).value] + Tokens(AfterToken(s))
    ensures FirstToken(s).None? ==> Tokens(s) == []
  {
  }

  lemma StoredNone(ix: Index, r: Registration)
    ensures Cluster.StoredAll(ix, r, []) == ix
  {
  }

  lemma StoredNext(ix: Index, r: Registration, done: seq<Path>, p: Path)
    ensures Cluster.StoredAll(ix, r, done + [p]) == AfterStore(Cluster.StoredAll(ix, r, done), r.ip, r.portClient, p)
  {
    assert (done + [p])[..|done|] == done;
  }

  /** Same servers, but for their backups. */
  ghost predicate SameButBackups(t: seq<Cluster.Server>, t': seq<Cluster.Server>) {
    |t| == |t'| && forall i | 0 <= i < |t| :: t'[i].root == t[i].root && t'[i].isActive == t[i].isActive
  }

  lemma LookupsSame(ix: Index, t: seq<Cluster.Server>, t': seq<Cluster.Server>, i: nat, j: int)
    requires SameButBackups(t, t') && i < |t| && j < |t|
    ensures Cluster.BackupLookups(ix, t', i, j) == Cluster.BackupLookups(ix, t, i, j)
  {
  }

  lemma HighestSame(t: seq<Cluster.Server>, t': seq<Cluster.Server>, n: int)
    requires SameButBackups(t, t') && n <= |t|
    ensures Cluster.Highest(t', n) == Cluster.Highest(t, n)
  {
    HighestIs(t', n, Cluster.Highest(t, n));
  }

  ghost function AssignedFirst(st: State): State
    requires |st.servers| == 3
  {
    Assigned2(Assigned1(Assigned2(Assigned1(st, 0, 1), 0, 2), 1, 0), 1, 2)
  }

  ghost function AssignedLast(st: State): State
    requires |st.servers| >= 3
  {
    var n := |st.servers| - 1;
    var i := Cluster.Highest(st.servers, n);
    Assigned2(Assigned1(st, n, i), n, Cluster.Highest(st.servers, i))
  }

  /** Both backups of one server. */
  lemma PairMeaning(st: State, i: nat, j: int, k: int)
    requires i < |st.servers| && j < |st.servers| && k < |st.servers|
    ensures
      var ix, t := st.index, st.servers;
      Assigned2(Assigned1(st, i, j), i, k) ==
        Cluster.State(Cluster.BackupLookups(Cluster.BackupLookups(ix, t, i, j), t, i, k),
                      Cluster.WithBackup2(Cluster.WithBackup1(t, i, j), i, k), st.disks)
    ensures SameButBackups(st.servers, Assigned2(Assigned1(st, i, j), i, k).servers)
  {
    hide Cluster.BackupLookups;
    LookupsSame(Assigned1(st, i, j).index, st.servers, Assigned1(st, i, j).servers, i, k);
  }

  lemma FirstMeaning(st: State)
    requires |st.servers| == 3
    ensures |AssignedFirst(st).servers| == 3
    ensures
      var ix, t := st.index, st.servers;
      var ix' := Cluster.BackupLookups(Cluster.BackupLookups(Cluster.BackupLookups(Cluster.BackupLookups(ix, t, 0, 1), t, 0, 2), t, 1, 0), t, 1, 2);
      AssignedFirst(st) == Cluster.State(ix', Cluster.WithFirstBackups(t), st.disks)
    ensures SameButBackups(st.servers, AssignedFirst(st).servers)
  {
    hide Cluster.BackupLookups;
    var b := Assigned2(Assigned1(st, 0, 1), 0, 2);
    PairMeaning(st, 0, 1, 2);
    PairMeaning(b, 1, 0, 2);
    LookupsSame(b.index, st.servers, b.servers, 1, 0);
    LookupsSame(Cluster.BackupLookups(b.index, st.servers, 1, 0), st.servers, b.servers, 1, 2);
  }

  lemma LastMeaning(st: State)
    requires |st.servers| >= 3
    ensures
      var ix, t, n := st.index, st.servers, |st.servers| - 1;
      var i := Cluster.Highest(t, n);
      var ix' := Cluster.BackupLookups(Cluster.BackupLookups(ix, t, n, i), t, n, Cluster.Highest(t, i));
      AssignedLast(st) == Cluster.State(ix', Cluster.WithLastBackups(t), st.disks)
  {
    var n := |st.servers| - 1;
    var i := Cluster.Highest(st.servers, n);
    PairMeaning(st, n, i, Cluster.Highest(st.servers, i));
  }

  ghost function AssignedAll(st: State): State {
    if |st.servers| < 3 then st
    else AssignedLast(if |st.servers| == 3 then AssignedFirst(st) else st)
  }

  lemma ThreeMeaning(st: State)
    requires |st.servers| == 3
    ensures AssignedLast(AssignedFirst(st)) ==
      Cluster.State(Cluster.AllBackupLookups(st.index, st.servers), Cluster.WithBackups(st.servers), st.disks)
  {
    hide AssignedFirst, AssignedLast, Cluster.BackupLookups, Cluster.WithFirstBackups, Cluster.WithLastBackups, Cluster.Highest;
    hide SameButBackups;
    var first, t := AssignedFirst(st), st.servers;
    FirstMeaning(st);
    LastMeaning(first);
    HighestSame(t, first.servers, 2);
    var i := Cluster.Highest(t, 2);
    HighestSame(t, first.servers, i);
    LookupsSame(first.index, t, first.servers, 2, i);
    LookupsSame(Cluster.BackupLookups(first.index, t, 2, i), t, first.servers, 2, Cluster.Highest(t, i));
  }

  lemma AllMeaning(st: State)
    ensures AssignedAll(st) ==
      Cluster.State(Cluster.AllBackupLookups(st.index, st.servers), Cluster.WithBackups(st.servers), st.disks)
  {
    hide AssignedFirst, AssignedLast, Cluster.BackupLookups, Cluster.WithFirstBackups, Cluster.WithLastBackups;
    if |st.servers| == 3 {
      ThreeMeaning(st);
    } else if |st.servers| > 3 {
      LastMeaning(st);
    }
  }

  class NamingServer {
    const index: NameIndex
    const fleet: Fleet

    /** The two parts share no object. */
    ghost predicate Apart()
      reads this, index, index.trie, index.trie.repr, index.cache, fleet, fleet.table, fleet.storage
    {
      && fleet.table !in index.trie.repr && fleet.table.slots !in index.trie.repr && fleet.storage !in index.trie.repr
      && fleet.table.slots as object != index.cache.entries
    }

    ghost predicate Valid()
      reads this, index, index.trie, index.trie.repr, index.cache, fleet, fleet.table, fleet.table.slots, fleet.storage
    {
      index.Valid() && fleet.Valid() && Apart()
    }

    ghost function Value(): State
      requires Valid()
      reads this, index, index.trie, index.trie.repr, index.cache, index.cache.entries
      reads fleet, fleet.table, fleet.table.slots, fleet.storage
    {
      fleet.With(index.Value())
    }

    constructor ()
      ensures Valid() && Value() == Cluster.EMPTY_STATE
    {
      index := new NameIndex();
      fleet := new Fleet();
    }

    /** handle_command_create. Without an entry for the owner the client hears nothing. */
    method HandleCreate(dir: Path, name: Path) returns (reply: Reply)
      requires Valid()
      modifies index.trie.repr, index.cache, index.cache.entries, fleet.table.slots, fleet.storage
      ensures Valid() && Value() == Cluster.Next(old(Value()), Cluster.CreateFile(dir, name))
      ensures reply == CreateReply(old(Value()), dir, name)
    {
      hide NamingServer.Valid, NamingServer.Value, CreateOn, OwnerReply, Cluster.IndexOf, AfterFind, Answer;
      ghost var st := Value();
      var directory, taken := FindBoth(dir, Slashed(dir, name));
      if taken {
        return AlreadyExists;
      }
      if directory == None {
        return DirectoryNotFound;
      }
      reply := Create(directory.value, dir, name);
      if Cluster.Reachable(st.servers, Owner(directory.value)) { CreateParts(st, dir, name); }
    }

    /** Its two lookups. The pointer from the first is followed after the second. */
    method FindBoth(dir: Path, full: Path) returns (directory: Option<FileInfo>, taken: bool)
      requires Valid()
      modifies index.cache, index.cache.entries
      ensures Valid() && Value() == Cluster.AfterLookups(old(Value()), dir, full)
      ensures taken <==> Answer(AfterFind(old(Value()).index, dir), full).Some?
      ensures !taken ==> directory == Answer(old(Value()).index, dir)
    {
      hide TrieShape.Linked, TrieIndex.Reflects, AfterFind, Answer;
      var dirRef := index.FindFileInfo(dir);
      ghost var info := if dirRef != Null then index.Deref(dirRef) else FileInfo([], 0, []);
      var fileRef := index.FindKeeping(full, dirRef, info);
      taken := fileRef != Null;
      directory := if dirRef == Null || taken then None else Some(index.Deref(dirRef));
    }

    /** From the address of the directory on. */
    method Create(info: FileInfo, dir: Path, name: Path) returns (reply: Reply)
      requires Valid()
      modifies index.trie.repr, fleet.table.slots, fleet.storage
      ensures Valid()
      ensures Value() == if Cluster.Reachable(old(Value()).servers, Owner(info))
                         then CreateOn(old(Value()), Owner(info), dir, name) else old(Value())
      ensures reply == OwnerReply(old(Value()).servers, Cluster.Disk(old(Value()), Owner(info)), Owner(info), dir, name)
    {
      hide NamingServer.Valid, NamingServer.Value, CreateOn;
      var owner := FindOwner(Owner(info));
      if owner == None {
        return NoServer;
      }
      if !owner.value.isActive {
        return NotActive;
      }
      var success := CreateAt(info, dir, name, owner.value.backup1, owner.value.backup2);
      reply := Sent(success);
    }

    method CreateAt(info: FileInfo, dir: Path, name: Path, backup1: Endpoint, backup2: Endpoint) returns (success: bool)
      requires Valid() && Cluster.Known(Value().servers, Owner(info))
      requires backup1 == Cluster.ServerAt(Value().servers, Owner(info)).backup1
      requires backup2 == Cluster.ServerAt(Value().servers, Owner(info)).backup2
      modifies index.trie.repr, fleet.table.slots, fleet.storage
      ensures Valid() && Value() == CreateOn(old(Value()), Owner(info), dir, name)
      ensures success == Cluster.Succeeds(Cluster.Disk(old(Value()), Owner(info)), dir, name)
    {
      hide TrieShape.Linked, TrieIndex.Reflects;
      var c := Cluster.Create(dir, name);
      success := fleet.Send(Owner(info), c, index.Value());
      if success {
        Store(info.ip, info.port, Slashed(dir, name));
      }
      ForwardBoth(backup1, backup2, c);
    }

    method ForwardBoth(backup1: Endpoint, backup2: Endpoint, c: Cluster.Command)
      requires Valid()
      modifies fleet.table.slots, fleet.storage
      ensures Valid() && Value() == Cluster.Forwarded(Cluster.Forwarded(old(Value()), backup1, c), backup2, c)
    {
      hide TrieShape.Linked, TrieIndex.Reflects;
      fleet.Forward(backup1, c, index.Value());
      fleet.Forward(backup2, c, index.Value());
    }

    /** handle_command_delete. A storage server that refuses says so, and nothing else
        changes for it. */
    method HandleDelete(path: Path, refused: bool) returns (reply: Reply)
      requires Valid()
      modifies index.trie.repr, index.cache, index.cache.entries, fleet.table.slots, fleet.storage
      ensures Valid() && Value() == Cluster.Next(old(Value()), DeleteStep(path, refused))
      ensures reply == DeleteReply(old(Value()), path, refused)
    {
      hide NamingServer.Valid, NamingServer.Value, DeleteOn, DeletedThrough, PointerReply, Cluster.IndexOf, AfterFind, Answer;
      if DOT !in path {
        return Ignored;
      }
      ghost var st := Value();
      var ref, info := FindPointer(path);
      if ref == Null {
        return FileNotFound;
      }
      reply := Delete(ref, info, path, refused);
      if Cluster.Reachable(st.servers, Owner(info)) { DeleteParts(st, path, refused); }
    }

    /** The pointer that a lookup gives, and what is behind it. */
    ghost predicate Points(ref: InfoRef, info: FileInfo)
      requires Valid()
      reads this, index, index.trie, index.trie.repr, index.cache, index.cache.entries
      reads fleet, fleet.table, fleet.table.slots, fleet.storage
    {
      ref != Null && (ref.InTrie? ==> ref.record in index.trie.repr) && index.Deref(ref) == info
    }

    method FindPointer(path: Path) returns (ref: InfoRef, info: FileInfo)
      requires Valid()
      modifies index.cache, index.cache.entries
      ensures Valid() && Value() == old(Value()).(index := AfterFind(old(Value()).index, path))
      ensures ref == Null <==> Answer(old(Value()).index, path).None?
      ensures ref != Null ==> Points(ref, info) && Answer(old(Value()).index, path) == Some(info)
      ensures ref.CacheFront? <==> path in LookupCache.Keys(old(Value()).index.cache)
    {
      hide TrieShape.Linked, TrieIndex.Reflects, AfterFind, Answer;
      ref := index.FindFileInfo(path);
      info := if ref == Null then FileInfo([], 0, []) else index.Deref(ref);
    }

    /** From the pointer on. */
    method Delete(ref: InfoRef, info: FileInfo, path: Path, refused: bool) returns (reply: Reply)
      requires Valid() && Points(ref, info)
      modifies index.trie.repr, index.cache, index.cache.entries, fleet.table.slots, fleet.storage
      ensures Valid()
      ensures
        Value() == if Cluster.Reachable(old(Value()).servers, Owner(info))
                   then DeleteOn(old(Value()), Owner(info), DeletedThrough(old(Value()).index, ref.CacheFront?, info.filePath), path, refused)
                   else old(Value())
      ensures reply == PointerReply(old(Value()).servers, Cluster.Disk(old(Value()), Owner(info)), Owner(info), path, refused)
    {
      hide NamingServer.Valid, NamingServer.Value, Points, DeleteOn, DeletedThrough;
      var active := CheckActive(Owner(info));
      if !active {
        return NotActive;
      }
      var owner := FindOwner(Owner(info));
      if owner == None {
        return NoServer;
      }
      reply := DeleteAt(Owner(info), ref, info, path, refused, owner.value.backup1, owner.value.backup2);
    }

    method DeleteAt(e: Endpoint, ref: InfoRef, info: FileInfo, path: Path, refused: bool, backup1: Endpoint, backup2: Endpoint)
      returns (reply: Reply)
      requires Valid() && Points(ref, info) && Cluster.Known(Value().servers, e)
      requires backup1 == Cluster.ServerAt(Value().servers, e).backup1
      requires backup2 == Cluster.ServerAt(Value().servers, e).backup2
      modifies index.trie.repr, index.cache, index.cache.entries, fleet.table.slots, fleet.storage
      ensures Valid()
      ensures Value() == DeleteOn(old(Value()), e, DeletedThrough(old(Value()).index, ref.CacheFront?, info.filePath), path, refused)
      ensures reply == DeletedReply(Cluster.Disk(old(Value()), e), path, refused)
    {
      hide TrieShape.Linked, TrieIndex.Reflects, DeletedThrough;
      var c := Cluster.Command.Delete(path);
      if refused {
        reply := Sent(false);
      } else {
        var success := fleet.Send(e, c, index.Value());
        reply := if success then Sent(true) else Nothing;
      }
      index.DeleteThrough(ref);
      ForwardBoth(backup1, backup2, c);
    }

    /** The loop that finds the entry of the owner: nothing when
        there is none, or when it has no naming port. */
    method FindOwner(e: Endpoint) returns (owner: Option<Slot>)
      requires Valid()
      ensures owner.Some? <==> Cluster.Known(Value().servers, e) && Cluster.ServerAt(Value().servers, e).portNm != -1
      ensures owner.Some? ==> Meaning(owner.value) == Cluster.ServerAt(Value().servers, e)
    {
      hide TrieShape.Linked, TrieIndex.Reflects;
      var i := fleet.table.IndexOfServer(e);
      if i == fleet.table.count || fleet.table.slots[i].portNm == -1 {
        return None;
      }
      owner := Some(fleet.table.slots[i]);
    }

    /** handle_command_read */
    method HandleRead(path: Path) returns (reply: Cluster.ReadReply)
      requires Valid()
      modifies index.cache, index.cache.entries, fleet.table.slots
      ensures Valid() && Value() == Cluster.Next(old(Value()), Cluster.ReadFile(path))
      ensures reply == Cluster.Read(old(Value()), path)
    {
      hide NamingServer.Valid, NamingServer.Value, Cluster.Located, AfterFind, Answer;
      var info := LookUp(path);
      if info == None {
        return Cluster.NotFound;
      }
      reply := Locate(info.value, path);
    }

    method Locate(info: FileInfo, path: Path) returns (reply: Cluster.ReadReply)
      requires Valid()
      modifies fleet.table.slots
      ensures Valid() && Value() == old(Value())
      ensures reply == Cluster.Located(Value().servers, info, path)
    {
      hide TrieShape.Linked, TrieIndex.Reflects, Cluster.Located;
      reply := fleet.Locate(info, path);
    }

    /** The lookup of all handlers, and with the reply of WRITE, which sends the record even
        if its server is inactive. */
    method LookUp(path: Path) returns (info: Option<FileInfo>)
      requires Valid()
      modifies index.cache, index.cache.entries
      ensures Valid() && Value() == Cluster.Next(old(Value()), Cluster.LookUp(path))
      ensures info == Answer(old(Value()).index, path)
    {
      hide TrieShape.Linked, TrieIndex.Reflects;
      var ref := index.FindFileInfo(path);
      if ref == Null {
        return None;
      }
      info := Some(index.Deref(ref));
    }

    /** handle_command_info and handle_command_stream */
    method HandleInfo(path: Path) returns (reply: InfoReply)
      requires Valid()
      modifies index.cache, index.cache.entries
      ensures Valid() && Value() == Cluster.Next(old(Value()), Cluster.LookUp(path))
      ensures reply == InfoAnswer(old(Value()), path)
    {
      hide NamingServer.Valid, NamingServer.Value, AfterFind, Answer;
      var info := LookUp(path);
      if info == None {
        return Unknown;
      }
      var active := CheckActive(Owner(info.value));
      reply := if active then Found(info.value) else Inactive;
    }

    /** handle_command_copy. `srcKind` and `dstKind` are what its two calls of stat say. */
    method HandleCopy(src: Path, dst: Path, srcKind: Kind, dstKind: Kind) returns (reply: Reply)
      requires Valid()
      modifies index.trie.repr, index.cache, index.cache.entries
      ensures Valid()
      ensures Value() == Copying(old(Value()), src, dst, srcKind, dstKind)
      ensures reply == CopyReply(old(Value()), src, dst, srcKind, dstKind)
    {
      hide NamingServer.Valid, NamingServer.Value, AfterFind, Answer, Copied, DestReply;
      if srcKind == Missing || dstKind == Missing {
        return Ignored;
      }
      if srcKind == Folder && dstKind == Regular {
        return DestIsFile;
      }
      var dir := srcKind == Folder;
      var source := LookUp(src);
      if source == None {
        return SourceNotFound;
      }
      var active := CheckActive(Owner(source.value));
      if !active {
        return if dir then NotActive else SourceNotActive;
      }
      reply := CopyTo(src, dst, dir);
    }

    method CheckActive(e: Endpoint) returns (active: bool)
      requires Valid()
      ensures active == Cluster.Active(Value().servers, e)
    {
      hide TrieShape.Linked, TrieIndex.Reflects;
      active := fleet.table.CheckActiveServer(e);
    }

    method CopyTo(src: Path, dst: Path, dir: bool) returns (reply: Reply)
      requires Valid()
      modifies index.trie.repr, index.cache, index.cache.entries
      ensures Valid() && Value() == CopiedTo(old(Value()), src, dst, dir)
      ensures reply == DestReply(old(Value()), dst, dir)
    {
      hide TrieShape.Linked, TrieIndex.Reflects, AfterFind, Answer, Copied;
      var dest := LookUp(dst);
      if dest == None {
        return DestNotFound;
      }
      var active := CheckActive(Owner(dest.value));
      if !active {
        return if dir then NotActive else DestNotActive;
      }
      if !dir {
        return Done;
      }
      index.CopyDirectory(src, dst);
      reply := Relayed;
    }

    /** The REGISTER branch of handle_storage_server. The list of paths names one at least,
        else strtok would give NULL. */
    method HandleRegister(r: Registration, disk: set<Path>)
      requires Valid() && FirstToken(r.accessible).Some?
      modifies index.trie.repr, index.cache, index.cache.entries, fleet.table, fleet.table.slots, fleet.storage
      ensures Valid() && Value() == Cluster.Next(old(Value()), Cluster.Register(r, disk))
    {
      hide NamingServer.Valid, NamingServer.Value, AssignedAll, Cluster.StoredAll, Cluster.Replayed, Cluster.AllBackupLookups;
      hide Cluster.WithBackups, Tokens;
      var back := Reconnected(r);
      if !back {
        var room := HasRoom();
        if room {
          RegisterNew(r, disk);
        }
        AllMeaning(Value());
        AssignBackups();
      }
    }

    /** A server that was inactive and comes back. */
    method Reconnected(r: Registration) returns (back: bool)
      requires Valid()
      modifies fleet.table.slots, fleet.storage
      ensures Valid()
      ensures
        var st, i := old(Value()), Cluster.Returning(old(Value()).servers, r);
        && (back <==> i < |st.servers|)
        && (!back ==> Value() == st)
        && (back ==>
              var e := Cluster.At(st.servers[i]);
              Value() == Cluster.State(st.index,
                                       st.servers[i := st.servers[i].(isActive := true, commands := [])],
                                       st.disks[e := Cluster.Replayed(Cluster.Disk(st, e), st.servers, e)]))
    {
      hide TrieShape.Linked, TrieIndex.Reflects, Cluster.Replayed;
      var i := fleet.table.FindReturning(r);
      back := i < fleet.table.count;
      if back {
        fleet.Reconnect(i);
      }
    }

    method HasRoom() returns (room: bool)
      requires Valid()
      ensures room <==> |Value().servers| < Cluster.MAX_CONNECTIONS
    {
      hide TrieShape.Linked, TrieIndex.Reflects;
      room := fleet.table.count < Cluster.MAX_CONNECTIONS;
    }

    method RegisterNew(r: Registration, disk: set<Path>)
      requires Valid() && FirstToken(r.accessible).Some? && |Value().servers| < Cluster.MAX_CONNECTIONS
      modifies index.trie.repr, fleet.table, fleet.table.slots, fleet.storage
      ensures Valid() && fresh(index.trie.repr - old(index.trie.repr))
      ensures Value() == Cluster.State(Cluster.StoredAll(old(Value()).index, r, Tokens(r.accessible)),
                                       old(Value()).servers + [Cluster.NewServer(r)],
                                       old(Value()).disks[Cluster.At(Cluster.NewServer(r)) := disk])
    {
      hide TrieShape.Linked, TrieIndex.Reflects, Cluster.StoredAll, Tokens;
      fleet.Join(r, disk);
      StoreTokens(r);
    }

    /** The strtok loop over the paths of the new server. */
    method StoreTokens(r: Registration)
      requires Valid()
      modifies index.trie.repr
      ensures Valid() && old(index.trie.repr) <= index.trie.repr && fresh(index.trie.repr - old(index.trie.repr))
      ensures Value() == old(Value()).(index := Cluster.StoredAll(old(Value()).index, r, Tokens(r.accessible)))
    {
      hide NamingServer.Valid, NamingServer.Value, Cluster.StoredAll, AfterStore, Tokens, FirstToken, AfterToken;
      ghost var st, all := Value(), Tokens(r.accessible);
      ghost var done: seq<Path> := [];
      StoredNone(st.index, r);
      TokensStep(r.accessible);
      var token, rest := Strtok(r.accessible);
      while token.Some?
        invariant Valid() && old(index.trie.repr) <= index.trie.repr && fresh(index.trie.repr - old(index.trie.repr))
        invariant Value() == st.(index := Cluster.StoredAll(st.index, r, done))
        invariant token.Some? ==> done + [token.value] + Tokens(rest) == all
        invariant token.None? ==> done == all
        decreases token.Some?, |rest|
      {
        Store(r.ip, r.portClient, token.value);
        StoredNext(st.index, r, done, token.value);
        done := done + [token.value];
        TokensStep(rest);
        token, rest := Strtok(rest);
      }
    }

    method Store(ip: Text, port: int, path: Path)
      requires Valid()
      modifies index.trie.repr
      ensures Valid() && old(index.trie.repr) <= index.trie.repr && fresh(index.trie.repr - old(index.trie.repr))
      ensures Value() == old(Value()).(index := AfterStore(old(Value()).index, ip, port, path))
    {
      hide TrieShape.Linked, TrieIndex.Reflects;
      index.UpdateFileInfo(ip, port, path);
    }

    /** The table and its meaning have the same length and activity. */
    lemma Entries()
      requires Valid()
      ensures |Value().servers| == fleet.table.count <= fleet.table.slots.Length
      ensures forall j | 0 <= j < fleet.table.count :: Value().servers[j].isActive == fleet.table.slots[j].isActive
    {
      hide TrieShape.Linked, TrieIndex.Reflects;
    }

    /** Backups for the first two servers when the third is there, and for the last. */
    method AssignBackups()
      requires Valid()
      modifies index.cache, index.cache.entries, fleet.table.slots
      ensures Valid() && Value() == AssignedAll(old(Value()))
    {
      hide NamingServer.Valid, NamingServer.Value, AssignedFirst, AssignedLast;
      Entries();
      if fleet.table.count == 3 {
        AssignFirst();
        Entries();
      }
      if fleet.table.count >= 3 {
        AssignLast();
      }
    }

    method AssignFirst()
      requires Valid() && |Value().servers| == 3
      modifies index.cache, index.cache.entries, fleet.table.slots
      ensures Valid() && Value() == AssignedFirst(old(Value()))
    {
      hide NamingServer.Valid, NamingServer.Value;
      AssignBackup1(0, 1);
      AssignBackup2(0, 2);
      AssignBackup1(1, 0);
      AssignBackup2(1, 2);
    }

    method AssignLast()
      requires Valid() && |Value().servers| >= 3
      modifies index.cache, index.cache.entries, fleet.table.slots
      ensures Valid() && Value() == AssignedLast(old(Value()))
    {
      hide NamingServer.Valid, NamingServer.Value;
      Entries();
      var n := fleet.table.count - 1;
      var i, j := HighestTwo(n);
      AssignBackup1(n, i);
      AssignBackup2(n, j);
    }

    method HighestTwo(n: nat) returns (i: int, j: int)
      requires Valid() && n < |Value().servers|
      ensures i == Cluster.Highest(Value().servers, n) && j == Cluster.Highest(Value().servers, i)
    {
      hide TrieShape.Linked, TrieIndex.Reflects;
      i, j := fleet.table.HighestTwo(n);
    }

    method AssignBackup1(i: nat, j: int)
      requires Valid() && i < |Value().servers| && j < |Value().servers|
      modifies index.cache, index.cache.entries, fleet.table.slots
      ensures Valid() && Value() == Assigned1(old(Value()), i, j)
    {
      hide NamingServer.Valid, NamingServer.Value;
      Entries();
      if j >= 0 && fleet.table.slots[j].isActive {
        SetBackup1(i, j);
        LookupsSame(old(Value()).index, old(Value()).servers, Value().servers, i, j);
        Backup(i, j);
      }
    }

    method AssignBackup2(i: nat, j: int)
      requires Valid() && i < |Value().servers| && j < |Value().servers|
      modifies index.cache, index.cache.entries, fleet.table.slots
      ensures Valid() && Value() == Assigned2(old(Value()), i, j)
    {
      hide NamingServer.Valid, NamingServer.Value;
      Entries();
      if j >= 0 && fleet.table.slots[j].isActive {
        SetBackup2(i, j);
        LookupsSame(old(Value()).index, old(Value()).servers, Value().servers, i, j);
        Backup(i, j);
      }
    }

    method SetBackup1(i: nat, j: nat)
      requires Valid() && i < |Value().servers| && j < |Value().servers| && Value().servers[j].isActive
      modifies fleet.table.slots
      ensures Valid() && Value() == old(Value()).(servers := Cluster.WithBackup1(old(Value()).servers, i, j))
    {
      hide TrieShape.Linked, TrieIndex.Reflects;
      fleet.SetBackup1(i, j);
    }

    method SetBackup2(i: nat, j: nat)
      requires Valid() && i < |Value().servers| && j < |Value().servers| && Value().servers[j].isActive
      modifies fleet.table.slots
      ensures Valid() && Value() == old(Value()).(servers := Cluster.WithBackup2(old(Value()).servers, i, j))
    {
      hide TrieShape.Linked, TrieIndex.Reflects;
      fleet.SetBackup2(i, j);
    }

    /** backup(), up to the transfer of the folder. */
    method Backup(i: nat, j: nat)
      requires Valid() && i < |Value().servers| && j < |Value().servers| && Value().servers[j].isActive
      modifies index.cache, index.cache.entries, fleet.table.slots
      ensures Valid()
      ensures Value() == old(Value()).(index := Cluster.BackupLookups(old(Value()).index, old(Value()).servers, i, j))
    {
      hide NamingServer.Valid, NamingServer.Value;
      var source := Root(i);
      var dest := Root(j);
      var found := LookUp(source);
      if found == None {
        return;
      }
      found := LookUp(dest);
    }

    method Root(i: nat) returns (root: Path)
      requires Valid() && i < |Value().servers|
      modifies fleet.table.slots
      ensures Valid() && Value() == old(Value()) && root == Value().servers[i].root
    {
      hide TrieShape.Linked, TrieIndex.Reflects;
      root := fleet.table.Root(i);
    }

    /** The end of handle_storage_server. */
    method HandleLost(r: Registration)
      requires Valid()
      modifies fleet.table.slots
      ensures Valid() && Value() == Cluster.Next(old(Value()), Cluster.Lost(r))
    {
      hide TrieShape.Linked, TrieIndex.Reflects;
      fleet.MarkLost(r, index.Value());
    }
  }
}
