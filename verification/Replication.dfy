/** Deferred commands and mirrors, over all runs of the cluster. */
module Replication {
  import opened Types
  import opened PathLists
  import PathIndex
  import opened Cluster

  // ----- the table keeps its shape

  ghost predicate DistinctAddresses(t: seq<Server>) {
    forall i, j | 0 <= i < j < |t| :: At(t[i]) != At(t[j])
  }

  ghost predicate SameAddresses(t: seq<Server>, t': seq<Server>) {
    |t| == |t'| && forall i | 0 <= i < |t| :: At(t[i]) == At(t'[i])
  }

  lemma IndexOfUnique(t: seq<Server>, i: nat)
    requires DistinctAddresses(t) && i < |t|
    ensures IndexOf(t, At(t[i])) == i
  {
  }

  lemma {:induction false} IndexOfSame(t: seq<Server>, t': seq<Server>, e: Endpoint)
    requires SameAddresses(t, t')
    ensures IndexOf(t, e) == IndexOf(t', e)
  {
    if t != [] && At(t[0]) != e { IndexOfSame(t[1..], t'[1..], e); }
  }

  lemma {:induction false} IndexOfLonger(t: seq<Server>, s: Server, e: Endpoint)
    ensures IndexOf(t + [s], e) == if Known(t, e) then IndexOf(t, e) else if At(s) == e then |t| else |t| + 1
  {
    if t != [] {
      assert (t + [s])[1..] == t[1..] + [s];
      if At(t[0]) != e { IndexOfLonger(t[1..], s, e); }
    } else {
      assert (t + [s])[1..] == [];
    }
  }

  ghost predicate Backs(t: seq<Server>, i: nat, e: Endpoint)
    requires i < |t|
  {
    e == NOBODY || (Known(t, e) && e != At(t[i]))
  }

  ghost predicate BothBack(t: seq<Server>, i: nat)
    requires i < |t|
  {
    Backs(t, i, t[i].backup1) && Backs(t, i, t[i].backup2)
  }

  /** Addresses are distinct and real, an active server has no pending commands, backups
      are other servers of the table, and only servers of the table have disks. */
  ghost predicate Inv(st: State) {
    var t := st.servers;
    && DistinctAddresses(t)
    && (forall i | 0 <= i < |t| :: Somebody(At(t[i])))
    && (forall i | 0 <= i < |t| && t[i].isActive :: t[i].commands == [])
    && (forall i | 0 <= i < |t| :: BothBack(t, i))
    && (forall e <- st.disks :: Known(t, e))
  }

  /** Only what may change while servers stay put: activity, logs and disks. */
  lemma InvSameTable(st: State, st': State)
    requires Inv(st) && SameAddresses(st.servers, st'.servers)
    requires forall i | 0 <= i < |st.servers| ::
      st'.servers[i].backup1 == st.servers[i].backup1 && st'.servers[i].backup2 == st.servers[i].backup2
    requires forall i | 0 <= i < |st.servers| && st'.servers[i].isActive :: st'.servers[i].commands == []
    requires forall e <- st'.disks :: e in st.disks || Known(st.servers, e)
    ensures Inv(st')
  {
    forall e ensures Known(st'.servers, e) <==> Known(st.servers, e) {
      IndexOfSame(st.servers, st'.servers, e);
    }
    forall i | 0 <= i < |st.servers| ensures BothBack(st'.servers, i) {
      assert BothBack(st.servers, i);
    }
  }

  // ----- what a server would hold

  ghost function Pending(t: seq<Server>, e: Endpoint): seq<Command> {
    if Known(t, e) then ServerAt(t, e).commands else []
  }

  /** The namespace of a server once its pending commands are applied. */
  ghost function WouldBe(st: State, e: Endpoint): set<Path> {
    ApplyAll(Disk(st, e), Pending(st.servers, e))
  }

  datatype Delivery = Delivery(to: Endpoint, origin: Endpoint, op: Command)

  /** A command forwarded to a backup, on behalf of the server `origin`. */
  ghost function Forwards(t: seq<Server>, e: Endpoint, origin: Endpoint, c: Command): seq<Delivery> {
    if Somebody(e) && Known(t, e) then [Delivery(e, origin, Prefixed(ServerAt(t, e).root, c))] else []
  }

  ghost function ToAll(t: seq<Server>, e: Endpoint, c: Command): seq<Delivery>
    requires Known(t, e)
  {
    [Delivery(e, e, c)]
      + Forwards(t, ServerAt(t, e).backup1, e, c)
      + Forwards(t, ServerAt(t, e).backup2, e, c)
  }

  /** A deletion that the owner refused still goes to its backups. It is nobody's: what the
      owner holds does not follow it. */
  ghost function ToBackups(t: seq<Server>, e: Endpoint, c: Command): seq<Delivery>
    requires Known(t, e)
  {
    Forwards(t, ServerAt(t, e).backup1, NOBODY, c) + Forwards(t, ServerAt(t, e).backup2, NOBODY, c)
  }

  /** The commands that a step directs to storage servers, whether or not they are active
      now, in order of issue. */
  ghost function Deliveries(st: State, s: Step): seq<Delivery> {
    match s
    case CreateFile(d, f) =>
      if CreateSent(st, d, f) then ToAll(st.servers, Owner(PathIndex.Answer(st.index, d).value), Create(d, f)) else []
    case DeleteFile(p) =>
      if DeleteSent(st, p) then ToAll(st.servers, Owner(PathIndex.Answer(st.index, p).value), Command.Delete(p)) else []
    case DeleteRefused(p) =>
      if DeleteSent(st, p) then ToBackups(st.servers, Owner(PathIndex.Answer(st.index, p).value), Command.Delete(p)) else []
    case Register(r, disk) =>
      if Returning(st.servers, r) == |st.servers| < MAX_CONNECTIONS
      then [Delivery(At(NewServer(r)), NOBODY, Unpack(disk))] else []
    case Transfer(e, paths) => [Delivery(e, NOBODY, Unpack(paths))]
    case _ => []
  }

  ghost function Log(st: State, steps: seq<Step>): seq<Delivery> {
    if steps == [] then []
    else Log(st, steps[..|steps| - 1]) + Deliveries(Run(st, steps[..|steps| - 1]), steps[|steps| - 1])
  }

  /** The commands of a log that are directed to `e`. */
  ghost function ToServer(log: seq<Delivery>, e: Endpoint): seq<Command> {
    if log == [] then []
    else ToServer(log[..|log| - 1], e) + if log[|log| - 1].to == e then [log[|log| - 1].op] else []
  }

  lemma {:induction false} ToServerConcat(a: seq<Delivery>, b: seq<Delivery>, e: Endpoint)
    ensures ToServer(a + b, e) == ToServer(a, e) + ToServer(b, e)
  {
    if b == [] {
      assert a + b == a;
    } else {
      var n := |b| - 1;
      assert (a + b)[..|a + b| - 1] == a + b[..n] && (a + b)[|a + b| - 1] == b[n];
      ToServerConcat(a, b[..n], e);
    }
  }

  lemma {:induction false} ApplyAllConcat(disk: set<Path>, a: seq<Command>, b: seq<Command>)
    ensures ApplyAll(disk, a + b) == ApplyAll(ApplyAll(disk, a), b)
  {
    if b == [] {
      assert a + b == a;
    } else {
      var n := |b| - 1;
      assert (a + b)[..|a + b| - 1] == a + b[..n] && (a + b)[|a + b| - 1] == b[n];
      ApplyAllConcat(disk, a, b[..n]);
    }
  }

  lemma ToServerOne(d: Delivery, e: Endpoint)
    ensures ToServer([d], e) == if d.to == e then [d.op] else []
  {
    assert [d][..0] == [];
  }

  lemma ApplyAllOne(disk: set<Path>, c: Command)
    ensures ApplyAll(disk, [c]) == Apply(disk, c)
  {
    assert [c][..0] == [];
  }

  // ----- one step of the deferred log

  /** What a change of the state means for every server, as commands directed to it. */
  ghost predicate Directed(st: State, st': State, log: seq<Delivery>) {
    forall e :: WouldBe(st', e) == ApplyAll(WouldBe(st, e), ToServer(log, e))
  }

  lemma DirectedAt(st: State, st': State, log: seq<Delivery>, e: Endpoint)
    requires Directed(st, st', log)
    ensures WouldBe(st', e) == ApplyAll(WouldBe(st, e), ToServer(log, e))
  {
  }

  lemma DirectedNothing(st: State, st': State)
    requires forall e :: WouldBe(st', e) == WouldBe(st, e)
    ensures Directed(st, st', [])
  {
  }

  lemma DirectedThen(st: State, st1: State, st2: State, a: seq<Delivery>, b: seq<Delivery>)
    requires Directed(st, st1, a) && Directed(st1, st2, b)
    ensures Directed(st, st2, a + b)
  {
    forall e ensures WouldBe(st2, e) == ApplyAll(WouldBe(st, e), ToServer(a + b, e)) {
      assert WouldBe(st1, e) == ApplyAll(WouldBe(st, e), ToServer(a, e));
      assert WouldBe(st2, e) == ApplyAll(WouldBe(st1, e), ToServer(b, e));
      ToServerConcat(a, b, e);
      ApplyAllConcat(WouldBe(st, e), ToServer(a, e), ToServer(b, e));
    }
  }

  /** A command applied on the disk of a server without pending commands. */
  lemma OnDiskDirected(st: State, e: Endpoint, origin: Endpoint, c: Command)
    requires Inv(st) && Active(st.servers, e)
    ensures Inv(OnDisk(st, e, c)) && Directed(st, OnDisk(st, e, c), [Delivery(e, origin, c)])
  {
    var st' := OnDisk(st, e, c);
    InvSameTable(st, st');
    forall x ensures WouldBe(st', x) == ApplyAll(WouldBe(st, x), ToServer([Delivery(e, origin, c)], x)) {
      ToServerOne(Delivery(e, origin, c), x);
      ApplyAllOne(WouldBe(st, x), c);
    }
  }

  lemma LoggedTable(t: seq<Server>, e: Endpoint, c: Command)
    requires Known(t, e)
    ensures SameAddresses(t, Logged(t, e, c))
    ensures forall x :: Known(Logged(t, e, c), x) <==> Known(t, x)
    ensures forall x | Known(t, x) ::
      ServerAt(Logged(t, e, c), x) ==
        if x == e then ServerAt(t, x).(commands := ServerAt(t, x).commands + [c]) else ServerAt(t, x)
  {
    var t' := Logged(t, e, c);
    forall x ensures IndexOf(t', x) == IndexOf(t, x) {
      IndexOfSame(t, t', x);
    }
    assert forall x | Known(t, x) && x != e :: IndexOf(t, x) != IndexOf(t, e);
  }

  /** A command logged for an inactive server. */
  lemma LoggedDirected(st: State, e: Endpoint, origin: Endpoint, c: Command)
    requires Inv(st) && Known(st.servers, e) && !Active(st.servers, e)
    ensures Inv(st.(servers := Logged(st.servers, e, c)))
    ensures Directed(st, st.(servers := Logged(st.servers, e, c)), [Delivery(e, origin, c)])
  {
    hide IndexOf, Apply;
    var st' := st.(servers := Logged(st.servers, e, c));
    LoggedTable(st.servers, e, c);
    InvSameTable(st, st');
    forall x ensures WouldBe(st', x) == ApplyAll(WouldBe(st, x), ToServer([Delivery(e, origin, c)], x)) {
      ToServerOne(Delivery(e, origin, c), x);
      ApplyAllOne(WouldBe(st, x), c);
      if x == e { ApplyAllConcat(Disk(st, e), Pending(st.servers, e), [c]); }
    }
  }

  lemma ForwardedDirected(st: State, e: Endpoint, origin: Endpoint, c: Command)
    requires Inv(st)
    ensures Inv(Forwarded(st, e, c))
    ensures Directed(st, Forwarded(st, e, c), Forwards(st.servers, e, origin, c))
    ensures SameRoots(st.servers, Forwarded(st, e, c).servers)
  {
    if Somebody(e) && Known(st.servers, e) {
      var c' := Prefixed(ServerAt(st.servers, e).root, c);
      if Active(st.servers, e) {
        OnDiskDirected(st, e, origin, c');
      } else {
        LoggedDirected(st, e, origin, c');
        LoggedTable(st.servers, e, c');
      }
    } else {
      DirectedNothing(st, st);
    }
  }

  ghost predicate SameRoots(t: seq<Server>, t': seq<Server>) {
    && (forall x :: Known(t', x) <==> Known(t, x))
    && (forall x | Known(t, x) :: ServerAt(t', x).root == ServerAt(t, x).root)
  }

  lemma ToAllDirected(st: State, e: Endpoint, c: Command)
    requires Inv(st) && Active(st.servers, e)
    ensures
      var st' := ForwardedToBoth(OnDisk(st, e, c), ServerAt(st.servers, e), c);
      Inv(st') && Directed(st, st', ToAll(st.servers, e, c))
  {
    var s := ServerAt(st.servers, e);
    var st1 := OnDisk(st, e, c);
    var st2 := Forwarded(st1, s.backup1, c);
    var st3 := Forwarded(st2, s.backup2, c);
    OnDiskDirected(st, e, e, c);
    ForwardedDirected(st1, s.backup1, e, c);
    ForwardedDirected(st2, s.backup2, e, c);
    var d1, d2 := Forwards(st.servers, s.backup1, e, c), Forwards(st.servers, s.backup2, e, c);
    assert Forwards(st1.servers, s.backup1, e, c) == d1;
    assert Forwards(st2.servers, s.backup2, e, c) == d2;
    DirectedThen(st, st1, st2, [Delivery(e, e, c)], d1);
    DirectedThen(st, st2, st3, [Delivery(e, e, c)] + d1, d2);
  }

  lemma ToBackupsDirected(st: State, e: Endpoint, c: Command)
    requires Inv(st) && Known(st.servers, e)
    ensures
      var st' := ForwardedToBoth(st, ServerAt(st.servers, e), c);
      Inv(st') && Directed(st, st', ToBackups(st.servers, e, c))
  {
    hide Inv, Directed;
    var s := ServerAt(st.servers, e);
    var st1 := Forwarded(st, s.backup1, c);
    var st2 := Forwarded(st1, s.backup2, c);
    ForwardedDirected(st, s.backup1, NOBODY, c);
    ForwardedDirected(st1, s.backup2, NOBODY, c);
    var d1, d2 := Forwards(st.servers, s.backup1, NOBODY, c), Forwards(st.servers, s.backup2, NOBODY, c);
    assert Forwards(st1.servers, s.backup2, NOBODY, c) == d2;
    DirectedThen(st, st1, st2, d1, d2);
  }

  /** The path index plays no part in what disks hold. */
  lemma IndexIrrelevant(st: State, ix: PathIndex.Index)
    requires Inv(st)
    ensures Inv(st.(index := ix)) && Directed(st, st.(index := ix), [])
    ensures forall e :: WouldBe(st.(index := ix), e) == WouldBe(st, e)
  {
    InvSameTable(st, st.(index := ix));
    DirectedNothing(st, st.(index := ix));
  }

  // ----- registration, return and loss of a server

  lemma {:induction false} ReplayedOne(disk: set<Path>, t: seq<Server>, i: nat)
    requires DistinctAddresses(t) && i < |t|
    ensures Replayed(disk, t, At(t[i])) == ApplyAll(disk, t[i].commands)
  {
    var n := |t| - 1;
    if i == n {
      ReplayedNone(disk, t[..n], At(t[i]));
    } else {
      assert At(t[n]) != At(t[i]) && t[..n][i] == t[i];
      ReplayedOne(disk, t[..n], i);
    }
  }

  lemma {:induction false} ReplayedNone(disk: set<Path>, t: seq<Server>, e: Endpoint)
    requires forall j | 0 <= j < |t| :: At(t[j]) != e
    ensures Replayed(disk, t, e) == disk
  {
    if t != [] { ReplayedNone(disk, t[..|t| - 1], e); }
  }

  /** A change of one entry that keeps its address. */
  lemma EntryChanged(t: seq<Server>, i: nat, s: Server)
    requires DistinctAddresses(t) && i < |t| && At(s) == At(t[i])
    ensures SameAddresses(t, t[i := s])
    ensures forall x :: Known(t[i := s], x) <==> Known(t, x)
    ensures forall x | Known(t, x) :: ServerAt(t[i := s], x) == if x == At(s) then s else ServerAt(t, x)
    ensures Known(t, At(s)) && ServerAt(t, At(s)) == t[i]
  {
    forall x ensures IndexOf(t[i := s], x) == IndexOf(t, x) {
      IndexOfSame(t, t[i := s], x);
    }
    IndexOfUnique(t, i);
    assert forall x | Known(t, x) && x != At(s) :: IndexOf(t, x) != i;
  }

  /** Coming back: the replay makes true on the disk what the log promised. */
  lemma ReturnDirected(st: State, r: Registration, disk: set<Path>)
    requires Inv(st) && Returning(st.servers, r) < |st.servers|
    ensures Inv(AfterRegister(st, r, disk)) && Directed(st, AfterRegister(st, r, disk), [])
  {
    hide IndexOf;
    var t := st.servers;
    var i := Returning(t, r);
    var s := t[i].(isActive := true, commands := []);
    var st' := AfterRegister(st, r, disk);
    EntryChanged(t, i, s);
    ReplayedOne(Disk(st, At(s)), t, i);
    InvSameTable(st, st');
    forall x ensures WouldBe(st', x) == WouldBe(st, x) {
      if x == At(s) {
        assert Pending(st'.servers, x) == [];
      } else {
        assert Disk(st', x) == Disk(st, x);
      }
    }
    DirectedNothing(st, st');
  }

  lemma LostDirected(st: State, r: Registration)
    requires Inv(st)
    ensures Inv(AfterLost(st, r)) && Directed(st, AfterLost(st, r), [])
  {
    hide IndexOf;
    var t := st.servers;
    var i := Identified(t, r);
    if i < |t| {
      EntryChanged(t, i, t[i].(isActive := false));
      InvSameTable(st, AfterLost(st, r));
    } else {
      DirectedNothing(st, st);
    }
  }

  lemma NewServerTable(t: seq<Server>, s: Server)
    requires DistinctAddresses(t) && !Known(t, At(s))
    ensures DistinctAddresses(t + [s])
    ensures forall x :: Known(t + [s], x) <==> Known(t, x) || x == At(s)
    ensures forall x | Known(t, x) :: ServerAt(t + [s], x) == ServerAt(t, x)
    ensures ServerAt(t + [s], At(s)) == s
  {
    forall x ensures IndexOf(t + [s], x) == if Known(t, x) then IndexOf(t, x) else if At(s) == x then |t| else |t| + 1 {
      IndexOfLonger(t, s, x);
    }
  }

  lemma NewServerDirected(st: State, r: Registration, disk: set<Path>, st1: State)
    requires Inv(st) && !Known(st.servers, At(NewServer(r))) && Somebody(At(NewServer(r)))
    requires st1.servers == st.servers + [NewServer(r)] && st1.disks == st.disks[At(NewServer(r)) := disk]
    ensures Inv(st1) && Directed(st, st1, [Delivery(At(NewServer(r)), NOBODY, Unpack(disk))])
  {
    var s, t := NewServer(r), st.servers;
    NewServerTable(t, s);
    forall i | 0 <= i < |st1.servers|
      ensures BothBack(st1.servers, i)
    {
      if i < |t| { assert st1.servers[i] == t[i] && BothBack(t, i); }
    }
    forall x ensures WouldBe(st1, x) == ApplyAll(WouldBe(st, x), ToServer([Delivery(At(s), NOBODY, Unpack(disk))], x)) {
      ToServerOne(Delivery(At(s), NOBODY, Unpack(disk)), x);
      ApplyAllOne(WouldBe(st, x), Unpack(disk));
      if x == At(s) { assert x !in st.disks; }
    }
  }

  /** Only backup fields differ, and the new ones name other servers of the table. */
  ghost predicate Rebacked(t: seq<Server>, t': seq<Server>) {
    && SameAddresses(t, t')
    && (forall i | 0 <= i < |t| :: t'[i] == t[i].(backup1 := t'[i].backup1, backup2 := t'[i].backup2))
    && (forall i | 0 <= i < |t| :: t'[i].backup1 == t[i].backup1 || Assigned(t, i, t'[i].backup1))
    && (forall i | 0 <= i < |t| :: t'[i].backup2 == t[i].backup2 || Assigned(t, i, t'[i].backup2))
  }

  ghost predicate Assigned(t: seq<Server>, i: nat, e: Endpoint) {
    exists j | 0 <= j < |t| :: j != i && At(t[j]) == e
  }

  lemma WithBackupRebacked(t: seq<Server>, i: nat, j: int)
    requires i < |t| && j < |t| && j != i
    ensures Rebacked(t, WithBackup1(t, i, j)) && Rebacked(t, WithBackup2(t, i, j))
  {
    if j >= 0 { assert Assigned(t, i, At(t[j])); }
  }

  lemma RebackedThen(t: seq<Server>, t1: seq<Server>, t2: seq<Server>)
    requires Rebacked(t, t1) && Rebacked(t1, t2)
    ensures Rebacked(t, t2)
  {
    assert forall i, e | 0 <= i < |t| && Assigned(t1, i, e) :: Assigned(t, i, e);
  }

  lemma FirstRebacked(t: seq<Server>)
    requires |t| == 3
    ensures Rebacked(t, WithFirstBackups(t))
  {
    var a := WithBackup1(t, 0, 1);
    var b := WithBackup2(a, 0, 2);
    var c := WithBackup1(b, 1, 0);
    WithBackupRebacked(t, 0, 1);
    WithBackupRebacked(a, 0, 2);
    WithBackupRebacked(b, 1, 0);
    WithBackupRebacked(c, 1, 2);
    RebackedThen(t, a, b);
    RebackedThen(t, b, c);
    RebackedThen(t, c, WithFirstBackups(t));
  }

  lemma LastRebacked(t: seq<Server>)
    requires |t| >= 3
    ensures Rebacked(t, WithLastBackups(t))
  {
    var n := |t| - 1;
    var i := Highest(t, n);
    var a := WithBackup1(t, n, i);
    WithBackupRebacked(t, n, i);
    WithBackupRebacked(a, n, Highest(t, i));
    RebackedThen(t, a, WithLastBackups(t));
  }

  lemma WithBackupsRebacked(t: seq<Server>)
    ensures Rebacked(t, WithBackups(t))
  {
    if |t| == 3 {
      FirstRebacked(t);
      LastRebacked(WithFirstBackups(t));
      RebackedThen(t, WithFirstBackups(t), WithBackups(t));
    } else if |t| > 3 {
      LastRebacked(t);
    }
  }

  /** A change of backup fields, to other servers of the table, is not seen by the disks
      and logs. */
  lemma RebackedTable(t: seq<Server>, t': seq<Server>)
    requires Rebacked(t, t')
    ensures forall x :: Known(t', x) <==> Known(t, x)
    ensures forall x :: Pending(t', x) == Pending(t, x)
  {
    forall x ensures IndexOf(t', x) == IndexOf(t, x) { IndexOfSame(t, t', x); }
  }

  lemma RebackedBacks(t: seq<Server>, t': seq<Server>, i: nat)
    requires DistinctAddresses(t) && Rebacked(t, t') && i < |t|
    requires BothBack(t, i)
    ensures BothBack(t', i)
  {
    RebackedTable(t, t');
    AssignedBacks(t, i, t'[i].backup1);
    AssignedBacks(t, i, t'[i].backup2);
  }

  lemma RebackedDirected(st: State, ix: PathIndex.Index, t': seq<Server>)
    requires Inv(st) && Rebacked(st.servers, t')
    ensures Inv(State(ix, t', st.disks)) && Directed(st, State(ix, t', st.disks), [])
  {
    var t, st' := st.servers, State(ix, t', st.disks);
    RebackedTable(t, t');
    forall i | 0 <= i < |t| ensures BothBack(t', i) {
      RebackedBacks(t, t', i);
    }
    DirectedNothing(st, st');
  }

  lemma AssignedBacks(t: seq<Server>, i: nat, e: Endpoint)
    requires DistinctAddresses(t) && i < |t|
    ensures Assigned(t, i, e) ==> Known(t, e) && e != At(t[i])
  {
    if Assigned(t, i, e) {
      var j :| 0 <= j < |t| && j != i && At(t[j]) == e;
      IndexOfUnique(t, j);
    }
  }

  lemma RegisterDirected(st: State, r: Registration, disk: set<Path>)
    requires Inv(st) && Enabled(st, Register(r, disk))
    ensures Inv(AfterRegister(st, r, disk))
    ensures Directed(st, AfterRegister(st, r, disk), Deliveries(st, Register(r, disk)))
  {
    if Returning(st.servers, r) < |st.servers| {
      ReturnDirected(st, r, disk);
    } else {
      var st1 := st;
      if |st.servers| < MAX_CONNECTIONS {
        st1 := State(StoredAll(st.index, r, Tokens(r.accessible)), st.servers + [NewServer(r)],
                     st.disks[At(NewServer(r)) := disk]);
        NewServerDirected(st, r, disk, st1);
      } else {
        DirectedNothing(st, st);
      }
      WithBackupsRebacked(st1.servers);
      RebackedDirected(st1, AllBackupLookups(st1.index, st1.servers), WithBackups(st1.servers));
      var log := Deliveries(st, Register(r, disk));
      DirectedThen(st, st1, AfterRegister(st, r, disk), log, []);
      assert log + [] == log;
    }
  }

  // ----- the deferred log, over all runs

  lemma StepDirected(st: State, s: Step)
    requires Inv(st) && Enabled(st, s)
    ensures Inv(Next(st, s)) && Directed(st, Next(st, s), Deliveries(st, s))
  {
    match s
    case Register(r, disk) => RegisterDirected(st, r, disk);
    case Lost(r) => LostDirected(st, r);
    case CreateFile(d, f) => CreateDirected(st, d, f);
    case DeleteFile(p) => DeleteDirected(st, p);
    case DeleteRefused(p) => RefusedDirected(st, p);
    case Transfer(e, paths) => OnDiskDirected(st, e, NOBODY, Unpack(paths));
    case _ => IndexIrrelevant(st, Next(st, s).index);
  }

  lemma CreateDirected(st: State, d: Path, f: Path)
    requires Inv(st)
    ensures Inv(AfterCreate(st, d, f)) && Directed(st, AfterCreate(st, d, f), Deliveries(st, CreateFile(d, f)))
  {
    hide Inv, Directed, ToAll;
    if CreateSent(st, d, f) {
      var e := Owner(PathIndex.Answer(st.index, d).value);
      var looked := AfterLookups(st, d, Slashed(d, f));
      var stored := if Succeeds(Disk(st, e), d, f)
                    then looked.(index := PathIndex.AfterStore(looked.index, e.ip, e.port, Slashed(d, f)))
                    else looked;
      IndexIrrelevant(st, stored.index);
      ToAllDirected(stored, e, Create(d, f));
      DirectedThen(st, stored, AfterCreate(st, d, f), [], ToAll(st.servers, e, Create(d, f)));
      assert [] + ToAll(st.servers, e, Create(d, f)) == ToAll(st.servers, e, Create(d, f));
    } else {
      IndexIrrelevant(st, AfterCreate(st, d, f).index);
    }
  }

  lemma DeleteDirected(st: State, p: Path)
    requires Inv(st)
    ensures Inv(AfterDeleteRequest(st, p))
    ensures Directed(st, AfterDeleteRequest(st, p), Deliveries(st, DeleteFile(p)))
  {
    hide Inv, Directed;
    if DeleteSent(st, p) {
      var e, c := Owner(PathIndex.Answer(st.index, p).value), Command.Delete(p);
      var removed := st.(index := PathIndex.AfterDelete(st.index, p));
      IndexIrrelevant(st, removed.index);
      ToAllDirected(removed, e, c);
      DirectedThen(st, removed, AfterDeleteRequest(st, p), [], ToAll(st.servers, e, c));
      assert [] + ToAll(st.servers, e, c) == ToAll(st.servers, e, c);
    } else {
      IndexIrrelevant(st, AfterDeleteRequest(st, p).index);
    }
  }

  lemma RefusedDirected(st: State, p: Path)
    requires Inv(st)
    ensures Inv(AfterRefusedDelete(st, p))
    ensures Directed(st, AfterRefusedDelete(st, p), Deliveries(st, DeleteRefused(p)))
  {
    hide Inv, Directed;
    if DeleteSent(st, p) {
      var e, c := Owner(PathIndex.Answer(st.index, p).value), Command.Delete(p);
      var removed := st.(index := PathIndex.AfterDelete(st.index, p));
      IndexIrrelevant(st, removed.index);
      ToBackupsDirected(removed, e, c);
      DirectedThen(st, removed, AfterRefusedDelete(st, p), [], ToBackups(st.servers, e, c));
      assert [] + ToBackups(st.servers, e, c) == ToBackups(st.servers, e, c);
    } else {
      IndexIrrelevant(st, AfterRefusedDelete(st, p).index);
    }
  }

  /** In every run: the disk of a server with its pending commands applied is what the
      disk would be had every command directed to the server been applied at once, in
      order of issue. */
  lemma {:induction false} DeferredLog(st: State, steps: seq<Step>)
    requires Inv(st) && Possible(st, steps)
    ensures Inv(Run(st, steps)) && Directed(st, Run(st, steps), Log(st, steps))
  {
    if steps == [] {
      DirectedNothing(st, st);
    } else {
      var before, s := steps[..|steps| - 1], steps[|steps| - 1];
      DeferredLog(st, before);
      StepDirected(Run(st, before), s);
      DirectedThen(st, Run(st, before), Run(st, steps), Log(st, before), Deliveries(Run(st, before), s));
    }
  }

  /** So an active server, one that never failed or one that came back, holds exactly
      what it was told from its registration on. */
  lemma CaughtUp(steps: seq<Step>, e: Endpoint)
    requires Possible(EMPTY_STATE, steps) && Active(Run(EMPTY_STATE, steps).servers, e)
    ensures Disk(Run(EMPTY_STATE, steps), e) == ApplyAll({}, ToServer(Log(EMPTY_STATE, steps), e))
  {
    DeferredLog(EMPTY_STATE, steps);
    var st := Run(EMPTY_STATE, steps);
    assert WouldBe(st, e) == ApplyAll(WouldBe(EMPTY_STATE, e), ToServer(Log(EMPTY_STATE, steps), e));
  }
}
