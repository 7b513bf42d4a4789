/** The server table of the naming server as an array changed in place, and the storage
    servers that it sends commands to (naming_server.c). */
module ServerTables {
  import opened Types
  import opened PathLists
  import PathIndex
  import opened Cluster

  /** A StorageServerInfo. `accessible` is the buffer that strtok cuts off. */
  datatype Slot = Slot(ip: Text, portNm: int, portClient: int, ssPort: int, accessible: Text, isActive: bool,
                       backup1: Endpoint, backup2: Endpoint, commands: seq<Command>)

  function Meaning(s: Slot): Server {
    Server(s.ip, s.portNm, s.portClient, s.ssPort, FirstToken(s.accessible).GetOr([]), s.isActive,
           s.backup1, s.backup2, s.commands)
  }

  function Meanings(s: seq<Slot>): (t: seq<Server>)
    ensures |t| == |s| && forall i | 0 <= i < |s| :: t[i] == Meaning(s[i])
  {
    seq(|s|, i requires 0 <= i < |s| => Meaning(s[i]))
  }

  lemma IndexOfIs(t: seq<Server>, e: Endpoint, i: nat)
    requires i <= |t| && (i < |t| ==> At(t[i]) == e) && forall j | 0 <= j < i :: At(t[j]) != e
    ensures IndexOf(t, e) == i
  {
  }

  lemma ReturningIs(t: seq<Server>, r: Registration, i: nat)
    requires i <= |t| && (i < |t| ==> !t[i].isActive && SameIdentity(t[i], r))
    requires forall j | 0 <= j < i :: t[j].isActive || !SameIdentity(t[j], r)
    ensures Returning(t, r) == i
  {
  }

  lemma IdentifiedIs(t: seq<Server>, r: Registration, i: nat)
    requires i <= |t| && (i < |t| ==> SameIdentity(t[i], r)) && forall j | 0 <= j < i :: !SameIdentity(t[j], r)
    ensures Identified(t, r) == i
  {
  }

  lemma HighestIs(t: seq<Server>, n: int, i: int)
    requires n <= |t| && -1 <= i && (i >= 0 ==> i < n && t[i].isActive)
    requires forall j | i < j < n && 0 <= j :: !t[j].isActive
    ensures Highest(t, n) == i
  {
  }

  lemma ReplayedStart(disk: set<Path>, t: seq<Server>, e: Endpoint)
    ensures Replayed(disk, t[..0], e) == disk
  {
  }

  lemma ReplayedNext(disk: set<Path>, t: seq<Server>, i: nat, e: Endpoint)
    requires i < |t|
    ensures Replayed(disk, t[..i + 1], e) ==
      if At(t[i]) == e then ApplyAll(Replayed(disk, t[..i], e), t[i].commands) else Replayed(disk, t[..i], e)
  {
    assert t[..i + 1][..i] == t[..i] && t[..i + 1][i] == t[i];
  }

  class ServerTable {
    const slots: array<Slot>
    var count: nat

    /** Every entry came with at least one path: strtok never gives NULL. */
    ghost predicate Valid()
      reads this, slots
    {
      && slots.Length == MAX_CONNECTIONS && count <= MAX_CONNECTIONS
      && forall i | 0 <= i < count :: FirstToken(slots[i].accessible).Some?
    }

    ghost function Servers(): seq<Server>
      requires Valid()
      reads this, slots
    {
      Meanings(slots[..count])
    }

    constructor ()
      ensures Valid() && fresh(slots) && Servers() == []
    {
      slots := new Slot[MAX_CONNECTIONS](_ => Slot([], 0, 0, 0, [], false, NOBODY, NOBODY, []));
      count := 0;
    }

    /** One entry is assigned. */
    method Assign(i: nat, s: Slot)
      requires Valid() && i < count && FirstToken(s.accessible).Some?
      modifies slots
      ensures Valid() && Servers() == old(Servers())[i := Meaning(s)]
      ensures slots[i] == s
    {
      slots[i] := s;
      assert slots[..count] == old(slots[..count])[i := s];
    }

    method SetBackup1(i: nat, j: nat)
      requires Valid() && i < count && j < count
      modifies slots
      ensures Valid() && Servers() == old(Servers())[i := old(Servers())[i].(backup1 := At(old(Servers())[j]))]
    {
      Assign(i, slots[i].(backup1 := Endpoint(slots[j].ip, slots[j].portClient)));
    }

    method SetBackup2(i: nat, j: nat)
      requires Valid() && i < count && j < count
      modifies slots
      ensures Valid() && Servers() == old(Servers())[i := old(Servers())[i].(backup2 := At(old(Servers())[j]))]
    {
      Assign(i, slots[i].(backup2 := Endpoint(slots[j].ip, slots[j].portClient)));
    }

    /** The loop `for (i = 0; i < server_count; i++)` that compares ip and client port. */
    method IndexOfServer(e: Endpoint) returns (i: nat)
      requires Valid()
      ensures i == IndexOf(Servers(), e)
    {
      i := 0;
      while i < count && !(slots[i].ip == e.ip && slots[i].portClient == e.port)
        invariant 0 <= i <= count
        invariant forall j | 0 <= j < i :: At(Servers()[j]) != e
      {
        i := i + 1;
      }
      IndexOfIs(Servers(), e, i);
    }

    /** check_active_server */
    method CheckActiveServer(e: Endpoint) returns (active: bool)
      requires Valid()
      ensures active == Active(Servers(), e)
    {
      var i := IndexOfServer(e);
      active := i < count && slots[i].isActive;
    }

    /** addcommand */
    method AddCommand(e: Endpoint, c: Command)
      requires Valid()
      modifies slots
      ensures Valid() && Servers() == Logged(old(Servers()), e, c)
    {
      var i := IndexOfServer(e);
      if i < count {
        Assign(i, slots[i].(commands := slots[i].commands + [c]));
      }
    }

    /** `strtok(storage_servers[i].accessible_paths, ",")`, which cuts the buffer off but
        leaves what the entry means alone. */
    method Root(i: nat) returns (root: Path)
      requires Valid() && i < count
      modifies slots
      ensures Valid() && Servers() == old(Servers()) && root == Servers()[i].root
    {
      var s := slots[i];
      var token, rest := Strtok(s.accessible);
      root := token.value;
      FirstTokenStable(s.accessible);
      var cut := Truncated(s.accessible);
      Assign(i, s.(accessible := cut));
      assert Servers() == old(Servers());
    }

    /** The loop that counts down from the last entry but one to two active ones. */
    method CountDown(n: nat) returns (i: int, j: int)
      requires n <= slots.Length
      ensures -1 <= i < n && (i >= 0 ==> slots[i].isActive) && forall x | i < x < n && 0 <= x :: !slots[x].isActive
      ensures i < 0 ==> j < 0
      ensures i >= 0 ==> -1 <= j < i && (j >= 0 ==> slots[j].isActive) && forall x | j < x < i && 0 <= x :: !slots[x].isActive
      ensures -1 <= j
    {
      i, j := -1, -1;
      var k := n - 1;
      while k >= 0 && j < 0
        invariant -1 <= k < n && -1 <= i < n && -1 <= j < n
        invariant i < 0 ==> j < 0 && forall x | k < x < n :: !slots[x].isActive
        invariant i >= 0 ==> k < i && slots[i].isActive && forall x | i < x < n :: !slots[x].isActive
        invariant i >= 0 && j < 0 ==> forall x | k < x < i :: !slots[x].isActive
        invariant j >= 0 ==> j < i && slots[j].isActive && forall x | j < x < i :: !slots[x].isActive
        decreases k
      {
        if slots[k].isActive {
          if i < 0 {
            i := k;
          } else {
            j := k;
          }
        }
        k := k - 1;
      }
    }

    method HighestTwo(n: nat) returns (i: int, j: int)
      requires Valid() && n < count
      ensures i == Highest(Servers(), n) && j == Highest(Servers(), i)
    {
      i, j := CountDown(n);
      HighestIs(Servers(), n, i);
      HighestIs(Servers(), i, j);
    }

    /** The scan for an inactive entry with the identity of the server that registers. */
    method FindReturning(r: Registration) returns (i: nat)
      requires Valid()
      ensures i == Returning(Servers(), r)
    {
      i := 0;
      while i < count && !(!slots[i].isActive && slots[i].ip == r.ip && slots[i].portNm == r.portNm
                           && slots[i].portClient == r.portClient && slots[i].ssPort == r.ssPort)
        invariant 0 <= i <= count
        invariant forall j | 0 <= j < i :: Servers()[j].isActive || !SameIdentity(Servers()[j], r)
      {
        i := i + 1;
      }
      ReturningIs(Servers(), r, i);
    }

    /** The loop after the heartbeats stopped: mark the entry inactive. */
    method MarkLost(r: Registration)
      requires Valid()
      modifies slots
      ensures Valid()
      ensures
        var i := Identified(old(Servers()), r);
        Servers() == if i < |old(Servers())| then old(Servers())[i := old(Servers())[i].(isActive := false)] else old(Servers())
    {
      var i := 0;
      while i < count && !(slots[i].ip == r.ip && slots[i].portNm == r.portNm
                           && slots[i].portClient == r.portClient && slots[i].ssPort == r.ssPort)
        invariant 0 <= i <= count
        invariant forall j | 0 <= j < i :: !SameIdentity(Servers()[j], r)
      {
        i := i + 1;
      }
      IdentifiedIs(Servers(), r, i);
      if i < count {
        Assign(i, slots[i].(isActive := false));
      }
    }

    /** `storage_servers[server_count++] = ss_info`, and the fields set after it. */
    method Append(r: Registration)
      requires Valid() && count < MAX_CONNECTIONS && FirstToken(r.accessible).Some?
      modifies this, slots
      ensures Valid() && Servers() == old(Servers()) + [NewServer(r)]
    {
      slots[count] := Slot(r.ip, r.portNm, r.portClient, r.ssPort, r.accessible, true, NOBODY, NOBODY, []);
      count := count + 1;
      assert slots[..count] == old(slots[..count]) + [slots[count - 1]];
    }
  }

  /** The storage server confirms a command: a file that was created was not there before, and
      what is deleted was. Of a path that does not exist it says nothing. */
  predicate Confirmed(disk: set<Path>, c: Command) {
    match c
    case Create(d, f) => Succeeds(disk, d, f)
    case Delete(p) => p in disk
    case Unpack(_) => true
  }

  /** A disk has the directories above each of its paths. */
  ghost predicate Closed(disk: set<Path>) {
    forall p <- disk :: Above(p) <= disk
  }

  /** Commands keep it so, and then a deletion that is not confirmed changes nothing. */
  lemma AppliedClosed(disk: set<Path>, c: Command)
    requires Closed(disk) && (c.Unpack? ==> Closed(c.paths)) && (c.Delete? ==> c.path != [])
    ensures Closed(Apply(disk, c))
    ensures c.Delete? && !Confirmed(disk, c) ==> Apply(disk, c) == disk
  {
    match c
    case Create(d, f) => forall p <- Above(Slashed(d, f)) { AboveAbove(Slashed(d, f), p); }
    case Delete(p) =>
      forall q <- disk ensures Under(p, q) && q != p ==> p in Above(q) {
        if Under(p, q) && q != p { assert q[..|p|] == p && q[|p|] == SLASH; }
      }
      forall q <- disk, a <- Above(q) ensures Under(p, a) ==> Under(p, q) { UnderAbove(p, q, a); }
    case Unpack(_) =>
  }

  lemma AboveAbove(q: Path, p: Path)
    requires p in Above(q)
    ensures Above(p) <= Above(q)
  {
    forall a <- Above(p) ensures a in Above(q) {
      var i :| 0 < i < |p| && p[i] == SLASH && a == p[..i];
      assert q[i] == SLASH && q[..i] == a;
    }
  }

  lemma UnderAbove(p: Path, q: Path, a: Path)
    requires a in Above(q)
    ensures Under(p, a) ==> Under(p, q)
  {
    var i :| 0 < i < |q| && q[i] == SLASH && a == q[..i];
    if a == p { assert p + [SLASH] == q[..i + 1]; }
  }

  /** The storage servers, as far as commands change what is on their disks. */
  class Storage {
    var disks: map<Endpoint, set<Path>>

    constructor ()
      ensures disks == map[]
    {
      disks := map[];
    }

    /** A command sent and answered: create_file, delete_file_or_directory. */
    method Execute(e: Endpoint, c: Command) returns (success: bool)
      modifies this
      ensures disks == old(disks)[e := Apply(if e in old(disks) then old(disks)[e] else {}, c)]
      ensures success == Confirmed(if e in old(disks) then old(disks)[e] else {}, c)
    {
      var disk := if e in disks then disks[e] else {};
      success := Confirmed(disk, c);
      disks := disks[e := Apply(disk, c)];
    }
  }

  /** Whoever is in `t` has a disk. */
  ghost predicate HasDisks(t: seq<Server>, disks: map<Endpoint, set<Path>>) {
    forall i | 0 <= i < |t| :: At(t[i]) in disks
  }

  lemma ReplayedSame(disk: set<Path>, t: seq<Server>, t': seq<Server>, e: Endpoint)
    requires |t| == |t'| && forall i | 0 <= i < |t| :: At(t'[i]) == At(t[i]) && t'[i].commands == t[i].commands
    ensures Replayed(disk, t', e) == Replayed(disk, t, e)
  {
    if t != [] { ReplayedSame(disk, t[..|t| - 1], t'[..|t| - 1], e); }
  }

  /** The table and the storage servers together, without the path index. */
  class Fleet {
    const table: ServerTable
    const storage: Storage

    /** Every server of the table has a disk. */
    ghost predicate Valid()
      reads this, table, table.slots, storage
    {
      table.Valid() && HasDisks(table.Servers(), storage.disks)
    }

    /** The state of the cluster with path index `ix`. */
    ghost function With(ix: PathIndex.Index): State
      requires Valid()
      reads this, table, table.slots, storage
    {
      State(ix, table.Servers(), storage.disks)
    }

    constructor ()
      ensures Valid() && With(PathIndex.EMPTY_INDEX) == EMPTY_STATE
      ensures fresh(table) && fresh(table.slots) && fresh(storage)
    {
      table := new ServerTable();
      storage := new Storage();
    }

    /** A command sent to one server. */
    method Send(e: Endpoint, c: Command, ghost ix: PathIndex.Index) returns (success: bool)
      requires Valid()
      modifies storage
      ensures Valid() && With(ix) == OnDisk(old(With(ix)), e, c)
      ensures success == Confirmed(Disk(old(With(ix)), e), c)
    {
      success := storage.Execute(e, c);
    }

    /** The part of CREATE and DELETE for one backup. */
    method Forward(e: Endpoint, c: Command, ghost ix: PathIndex.Index)
      requires Valid()
      modifies table.slots, storage
      ensures Valid() && With(ix) == Forwarded(old(With(ix)), e, c)
    {
      hide Prefixed, Apply, IndexOf;
      if e.port != 0 && e.port != -1 && e.ip != [] {
        var active := table.CheckActiveServer(e);
        var i := table.IndexOfServer(e);
        if i < table.count {
          var root := table.Root(i);
          Tell(e, active, Prefixed(root, c), ix);
        }
      }
    }

    /** A command for a backup: sent, or kept until it comes back. */
    method Tell(e: Endpoint, active: bool, c: Command, ghost ix: PathIndex.Index)
      requires Valid() && active == Active(table.Servers(), e)
      modifies table.slots, storage
      ensures Valid()
      ensures With(ix) == if active then OnDisk(old(With(ix)), e, c)
                          else old(With(ix)).(servers := Logged(old(table.Servers()), e, c))
    {
      if !active {
        table.AddCommand(e, c);
      } else {
        var success := Send(e, c, ix);
      }
    }

    /** The part of handle_command_read after the lookup: the owner, or a backup. */
    method Locate(info: FileInfo, path: Path) returns (reply: ReadReply)
      requires Valid()
      modifies table.slots
      ensures Valid() && table.Servers() == old(table.Servers())
      ensures reply == Located(table.Servers(), info, path)
    {
      var i := table.IndexOfServer(Owner(info));
      if i == table.count || table.slots[i].isActive {
        return Served(Owner(info), info.filePath);
      }
      reply := LocateBackup(table.slots[i].backup1, table.slots[i].backup2, path);
    }

    method LocateBackup(backup1: Endpoint, backup2: Endpoint, path: Path) returns (reply: ReadReply)
      requires Valid()
      modifies table.slots
      ensures Valid() && table.Servers() == old(table.Servers())
      ensures reply == LocatedBackup(table.Servers(), backup1, backup2, path)
    {
      var active := table.CheckActiveServer(backup1);
      if active {
        reply := ServeBackup(backup1, path);
        return;
      }
      active := table.CheckActiveServer(backup2);
      if active {
        reply := ServeBackup(backup2, path);
        return;
      }
      reply := NotFound;
    }

    /** getaccesspath, and the path below it. */
    method ServeBackup(backup: Endpoint, path: Path) returns (reply: ReadReply)
      requires Valid() && Known(table.Servers(), backup)
      modifies table.slots
      ensures Valid() && table.Servers() == old(table.Servers())
      ensures reply == Served(backup, Slashed(ServerAt(table.Servers(), backup).root, path))
    {
      var i := table.IndexOfServer(backup);
      var root := table.Root(i);
      reply := Served(backup, Slashed(root, path));
    }

    method MarkLost(r: Registration, ghost ix: PathIndex.Index)
      requires Valid()
      modifies table.slots
      ensures Valid() && With(ix) == AfterLost(old(With(ix)), r)
    {
      table.MarkLost(r);
    }

    method SetBackup1(i: nat, j: nat)
      requires Valid() && i < table.count && j < table.count && table.slots[j].isActive
      modifies table.slots
      ensures Valid() && table.Servers() == WithBackup1(old(table.Servers()), i, j)
    {
      table.SetBackup1(i, j);
    }

    method SetBackup2(i: nat, j: nat)
      requires Valid() && i < table.count && j < table.count && table.slots[j].isActive
      modifies table.slots
      ensures Valid() && table.Servers() == WithBackup2(old(table.Servers()), i, j)
    {
      table.SetBackup2(i, j);
    }

    /** The entry of a new server, which brings its disk. */
    method Join(r: Registration, disk: set<Path>)
      requires Valid() && table.count < MAX_CONNECTIONS && FirstToken(r.accessible).Some?
      modifies table, table.slots, storage
      ensures Valid() && table.Servers() == old(table.Servers()) + [NewServer(r)]
      ensures storage.disks == old(storage.disks)[At(NewServer(r)) := disk]
    {
      table.Append(r);
      storage.disks := storage.disks[Endpoint(r.ip, r.portClient) := disk];
    }

    /** A server that was inactive comes back: mark it, replay its log, empty the log. */
    method Reconnect(i: nat)
      requires Valid() && i < table.count
      modifies table.slots, storage
      ensures Valid()
      ensures table.Servers() == old(table.Servers())[i := old(table.Servers())[i].(isActive := true, commands := [])]
      ensures
        var e := At(old(table.Servers())[i]);
        && e in old(storage.disks)
        && storage.disks == old(storage.disks)[e := Replayed(old(storage.disks)[e], old(table.Servers()), e)]
    {
      hide Replayed;
      ghost var t := table.Servers();
      table.Assign(i, table.slots[i].(isActive := true));
      var e := Endpoint(table.slots[i].ip, table.slots[i].portClient);
      ReplayedSame(storage.disks[e], t, table.Servers(), e);
      ReplayCommands(e);
      table.Assign(i, table.slots[i].(commands := []));
    }

    /** replay_commands, whose loop goes over all entries at the address. */
    method ReplayCommands(e: Endpoint)
      requires Valid() && e in storage.disks
      modifies storage
      ensures Valid()
      ensures storage.disks == old(storage.disks)[e := Replayed(old(storage.disks)[e], table.Servers(), e)]
    {
      hide Replayed, ApplyAll;
      ghost var disks, t := storage.disks, table.Servers();
      var i := 0;
      ReplayedStart(disks[e], t, e);
      while i < table.count
        invariant 0 <= i <= table.count
        invariant storage.disks == disks[e := Replayed(disks[e], t[..i], e)]
      {
        ReplayedNext(disks[e], t, i, e);
        if table.slots[i].portClient == e.port && table.slots[i].ip == e.ip {
          ReplayEntry(i, e);
        }
        i := i + 1;
      }
      assert t[..i] == t;
    }

    /** Its inner loop. */
    method ReplayEntry(i: nat, e: Endpoint)
      requires table.Valid() && i < table.count && e in storage.disks
      modifies storage
      ensures storage.disks == old(storage.disks)[e := ApplyAll(old(storage.disks)[e], table.Servers()[i].commands)]
    {
      var cs := table.slots[i].commands;
      var j := 0;
      assert cs[..0] == [];
      while j < |cs|
        invariant 0 <= j <= |cs|
        invariant storage.disks == old(storage.disks)[e := ApplyAll(old(storage.disks)[e], cs[..j])]
      {
        assert cs[..j + 1][..j] == cs[..j] && cs[..j + 1][j] == cs[j];
        var success := storage.Execute(e, cs[j]);
        j := j + 1;
      }
      assert cs[..j] == cs;
    }
  }
}
