/** Who serves what, over all runs of the cluster: every record names a server of the
    table, and READ finds an active one in spite of failures. */
module Ownership {
  import opened Types
  import opened PathMaps
  import opened PathLists
  import opened LookupCache
  import PathIndex
  import opened IndexRuns
  import opened Cluster
  import opened Replication
  import Backups

  // ----- a run of the cluster is, for the path index, a run of its operations

  ghost function RunFrom(ix: PathIndex.Index, steps: seq<PathIndex.Step>): PathIndex.Index {
    if steps == [] then ix else PathIndex.Next(RunFrom(ix, steps[..|steps| - 1]), steps[|steps| - 1])
  }

  lemma RunFromOne(ix: PathIndex.Index, s: PathIndex.Step)
    ensures RunFrom(ix, [s]) == PathIndex.Next(ix, s)
  {
    assert [s][..0] == [];
  }

  lemma {:induction false} RunFromConcat(ix: PathIndex.Index, a: seq<PathIndex.Step>, b: seq<PathIndex.Step>)
    ensures RunFrom(ix, a + b) == RunFrom(RunFrom(ix, a), b)
  {
    if b == [] {
      assert a + b == a;
    } else {
      var n := |b| - 1;
      assert (a + b)[..|a + b| - 1] == a + b[..n] && (a + b)[|a + b| - 1] == b[n];
      RunFromConcat(ix, a, b[..n]);
    }
  }

  lemma {:induction false} RunFromEmpty(steps: seq<PathIndex.Step>)
    ensures RunFrom(PathIndex.EMPTY_INDEX, steps) == PathIndex.Run(steps)
  {
    if steps != [] { RunFromEmpty(steps[..|steps| - 1]); }
  }

  /** Records are stored for servers of the table only. */
  ghost predicate StoresFor(run: seq<PathIndex.Step>, t: seq<Server>) {
    forall s <- run :: s.Store? ==> Known(t, Endpoint(s.ip, s.port))
  }

  lemma FindTwo(ix: PathIndex.Index, p: Path, q: Path)
    ensures RunFrom(ix, [PathIndex.Find(p), PathIndex.Find(q)]) == PathIndex.AfterFind(PathIndex.AfterFind(ix, p), q)
  {
    var a, b := [PathIndex.Find(p)], [PathIndex.Find(q)];
    assert a + b == [PathIndex.Find(p), PathIndex.Find(q)];
    RunFromConcat(ix, a, b);
    RunFromOne(ix, PathIndex.Find(p));
    RunFromOne(PathIndex.AfterFind(ix, p), PathIndex.Find(q));
  }

  lemma ForwardedIndex(st: State, s: Server, c: Command)
    ensures ForwardedToBoth(st, s, c).index == st.index
  {
  }

  lemma CreateIndexRun(st: State, d: Path, f: Path) returns (run: seq<PathIndex.Step>)
    ensures AfterCreate(st, d, f).index == RunFrom(st.index, run) && StoresFor(run, st.servers)
  {
    var full := Slashed(d, f);
    run := [PathIndex.Find(d), PathIndex.Find(full)];
    FindTwo(st.index, d, full);
    if CreateSent(st, d, f) {
      var e := Owner(PathIndex.Answer(st.index, d).value);
      var looked := AfterLookups(st, d, full);
      if Succeeds(Disk(st, e), d, f) {
        var store := PathIndex.Store(e.ip, e.port, full);
        RunFromConcat(st.index, run, [store]);
        RunFromOne(RunFrom(st.index, run), store);
        var stored := looked.(index := PathIndex.AfterStore(looked.index, e.ip, e.port, full));
        ForwardedIndex(OnDisk(stored, e, Create(d, f)), ServerAt(st.servers, e), Create(d, f));
        run := run + [store];
      } else {
        ForwardedIndex(OnDisk(looked, e, Create(d, f)), ServerAt(st.servers, e), Create(d, f));
      }
    }
  }

  lemma DeleteIndexRun(st: State, p: Path) returns (run: seq<PathIndex.Step>)
    ensures AfterDeleteRequest(st, p).index == RunFrom(st.index, run) && StoresFor(run, st.servers)
    ensures AfterRefusedDelete(st, p).index == RunFrom(st.index, run)
  {
    run := [];
    if DeleteSent(st, p) {
      run := [PathIndex.Delete(p)];
      RunFromOne(st.index, PathIndex.Delete(p));
      var e := Owner(PathIndex.Answer(st.index, p).value);
      var removed := st.(index := PathIndex.AfterDelete(st.index, p));
      ForwardedIndex(OnDisk(removed, e, Command.Delete(p)), ServerAt(st.servers, e), Command.Delete(p));
      ForwardedIndex(removed, ServerAt(st.servers, e), Command.Delete(p));
    } else if DOT in p {
      run := [PathIndex.Find(p)];
      RunFromOne(st.index, PathIndex.Find(p));
    }
  }

  lemma FileCopyIndexRun(st: State, src: Path, dst: Path) returns (run: seq<PathIndex.Step>)
    ensures AfterFileCopy(st, src, dst).index == RunFrom(st.index, run) && StoresFor(run, st.servers)
  {
    RunFromOne(st.index, PathIndex.Find(src));
    FindTwo(st.index, src, dst);
    run := if AfterFileCopy(st, src, dst) == AfterLookups(st, src, dst)
           then [PathIndex.Find(src), PathIndex.Find(dst)] else [PathIndex.Find(src)];
  }

  lemma CopyIndexRun(st: State, src: Path, dst: Path) returns (run: seq<PathIndex.Step>)
    ensures AfterCopyRequest(st, src, dst).index == RunFrom(st.index, run) && StoresFor(run, st.servers)
  {
    var next := AfterCopyRequest(st, src, dst).index;
    RunFromOne(st.index, PathIndex.Find(src));
    FindTwo(st.index, src, dst);
    RunFromOne(st.index, PathIndex.Copy(src, dst));
    if next == PathIndex.AfterFind(st.index, src) {
      run := [PathIndex.Find(src)];
    } else if next == AfterLookups(st, src, dst).index {
      run := [PathIndex.Find(src), PathIndex.Find(dst)];
    } else {
      run := [PathIndex.Copy(src, dst)];
    }
  }

  lemma BackupIndexRun(ix: PathIndex.Index, t: seq<Server>, i: nat, j: int) returns (run: seq<PathIndex.Step>)
    requires i < |t| && j < |t|
    ensures BackupLookups(ix, t, i, j) == RunFrom(ix, run) && forall s <- run :: s.Find?
  {
    run := [];
    if j >= 0 && t[j].isActive && PathIndex.Answer(ix, t[i].root).Some? {
      run := [PathIndex.Find(t[i].root), PathIndex.Find(t[j].root)];
      FindTwo(ix, t[i].root, t[j].root);
    }
  }

  lemma TwoBackupRuns(ix: PathIndex.Index, t: seq<Server>, i: nat, j: int, k: nat, l: int) returns (run: seq<PathIndex.Step>)
    requires i < |t| && j < |t| && k < |t| && l < |t|
    ensures BackupLookups(BackupLookups(ix, t, i, j), t, k, l) == RunFrom(ix, run) && forall s <- run :: s.Find?
  {
    var a := BackupIndexRun(ix, t, i, j);
    var b := BackupIndexRun(RunFrom(ix, a), t, k, l);
    RunFromConcat(ix, a, b);
    run := a + b;
  }

  lemma AllBackupsIndexRun(ix: PathIndex.Index, t: seq<Server>) returns (run: seq<PathIndex.Step>)
    ensures AllBackupLookups(ix, t) == RunFrom(ix, run) && forall s <- run :: s.Find?
  {
    run := [];
    if |t| == 3 {
      var a := TwoBackupRuns(ix, t, 0, 1, 0, 2);
      var b := TwoBackupRuns(RunFrom(ix, a), t, 1, 0, 1, 2);
      RunFromConcat(ix, a, b);
      run := a + b;
    }
    if |t| >= 3 {
      var n := |t| - 1;
      var i := Highest(t, n);
      var c := TwoBackupRuns(RunFrom(ix, run), t, n, i, n, Highest(t, i));
      RunFromConcat(ix, run, c);
      run := run + c;
    }
  }

  lemma {:induction false} StoredAllIndexRun(ix: PathIndex.Index, r: Registration, paths: seq<Path>)
    returns (run: seq<PathIndex.Step>)
    ensures StoredAll(ix, r, paths) == RunFrom(ix, run)
    ensures forall s <- run :: s.Store? ==> s.ip == r.ip && s.port == r.portClient
  {
    run := [];
    if paths != [] {
      run := StoredAllIndexRun(ix, r, paths[..|paths| - 1]);
      var store := PathIndex.Store(r.ip, r.portClient, paths[|paths| - 1]);
      RunFromConcat(ix, run, [store]);
      RunFromOne(RunFrom(ix, run), store);
      run := run + [store];
    }
  }

  lemma RegisteredKnown(t: seq<Server>, r: Registration)
    requires DistinctAddresses(t) && !Known(t, At(NewServer(r)))
    ensures forall e :: Known(WithBackups(Backups.Grown(t, r)), e) <==>
      Known(t, e) || (|t| < MAX_CONNECTIONS && e == At(NewServer(r)))
  {
    var t1 := Backups.Grown(t, r);
    NewServerTable(t, NewServer(r));
    WithBackupsRebacked(t1);
    RebackedTable(t1, WithBackups(t1));
  }

  lemma RegisterIndexRun(st: State, r: Registration, disk: set<Path>) returns (run: seq<PathIndex.Step>)
    ensures AfterRegister(st, r, disk).index == RunFrom(st.index, run)
    ensures forall s <- run :: s.Store? ==>
      Endpoint(s.ip, s.port) == At(NewServer(r)) && Returning(st.servers, r) == |st.servers| < MAX_CONNECTIONS
  {
    run := [];
    if Returning(st.servers, r) == |st.servers| {
      if |st.servers| < MAX_CONNECTIONS {
        run := StoredAllIndexRun(st.index, r, Tokens(r.accessible));
      }
      var finds := AllBackupsIndexRun(RunFrom(st.index, run), Backups.Grown(st.servers, r));
      RunFromConcat(st.index, run, finds);
      run := run + finds;
    }
  }

  lemma RegisterStores(st: State, r: Registration, disk: set<Path>)
    requires Inv(st) && Enabled(st, Register(r, disk)) && Returning(st.servers, r) == |st.servers| < MAX_CONNECTIONS
    ensures Known(AfterRegister(st, r, disk).servers, At(NewServer(r)))
  {
    RegisteredKnown(st.servers, r);
    Backups.RegisteredTable(st, r, disk);
  }

  lemma StepIndexRun(st: State, s: Step) returns (run: seq<PathIndex.Step>)
    requires Inv(st) && Enabled(st, s)
    ensures Next(st, s).index == RunFrom(st.index, run) && StoresFor(run, Next(st, s).servers)
  {
    StepKeepsKnown(st, s);
    match s
    case Register(r, disk) =>
      run := RegisterIndexRun(st, r, disk);
      if Returning(st.servers, r) == |st.servers| < MAX_CONNECTIONS { RegisterStores(st, r, disk); }
    case Lost(r) => run := [];
    case CreateFile(d, f) => run := CreateIndexRun(st, d, f);
    case DeleteFile(p) => run := DeleteIndexRun(st, p);
    case DeleteRefused(p) => run := DeleteIndexRun(st, p);
    case ReadFile(p) => run := [PathIndex.Find(p)]; RunFromOne(st.index, PathIndex.Find(p));
    case LookUp(p) => run := [PathIndex.Find(p)]; RunFromOne(st.index, PathIndex.Find(p));
    case CopyDir(src, dst) => run := CopyIndexRun(st, src, dst);
    case CopyFile(src, dst) => run := FileCopyIndexRun(st, src, dst);
    case Transfer(e, paths) => run := [];
  }

  /** A server once in the table stays there. */
  lemma StepKeepsKnown(st: State, s: Step)
    requires Inv(st) && Enabled(st, s)
    ensures forall e :: Known(st.servers, e) ==> Known(Next(st, s).servers, e)
  {
    var t := st.servers;
    if Backups.Registers(st, s) {
      RegisteredKnown(t, s.r);
      Backups.RegisteredTable(st, s.r, s.disk);
    } else {
      Backups.StepKept(st, s);
      forall e | Known(t, e) ensures Known(Next(st, s).servers, e) {
        Backups.KeptServer(t, Next(st, s).servers, e);
      }
    }
  }


  /** The path index of every reachable state is that of a run of its own operations, so
      what IndexRuns proves of those runs holds of it. */
  lemma {:induction false} ClusterIndexRun(steps: seq<Step>) returns (run: seq<PathIndex.Step>)
    requires Possible(EMPTY_STATE, steps)
    ensures Run(EMPTY_STATE, steps).index == PathIndex.Run(run)
    ensures StoresFor(run, Run(EMPTY_STATE, steps).servers)
    ensures PathIndex.WellFormed(Run(EMPTY_STATE, steps).index)
  {
    run := [];
    if steps != [] {
      var before, s := steps[..|steps| - 1], steps[|steps| - 1];
      run := ClusterIndexRun(before);
      DeferredLog(EMPTY_STATE, before);
      var more := StepIndexRun(Run(EMPTY_STATE, before), s);
      StepKeepsKnown(Run(EMPTY_STATE, before), s);
      RunFromEmpty(run);
      RunFromConcat(PathIndex.EMPTY_INDEX, run, more);
      run := run + more;
      RunFromEmpty(run);
    }
    RunWellFormed(run);
  }

  // ----- every record names a server of the table

  /** What lookups can answer. */
  ghost function Infos(ix: PathIndex.Index): set<FileInfo> {
    ix.trie.files.Values + set x | x in ix.cache :: x.info
  }

  lemma FindInfos(ix: PathIndex.Index, p: Path)
    requires PathIndex.WellFormed(ix)
    ensures Infos(PathIndex.AfterFind(ix, p)) <= Infos(ix)
    ensures PathIndex.Answer(ix, p).Some? ==> PathIndex.Answer(ix, p).value in Infos(ix)
  {
    if p in Keys(ix.cache) {
      PathIndex.FrontedEntries(ix.cache, p);
      assert ix.cache[Place(ix.cache, p)] in ix.cache;
    } else if p in ix.trie.files {
      PathIndex.AddedEntries(ix.cache, Entry(p, ix.trie.files[p]));
    }
  }

  lemma CopyInfos(m: PathMap, src: Path, dst: Path)
    ensures Copied(m, src, dst).files.Values <= m.files.Values
  {
    if src in m.nodes {
      forall p <- Copied(m, src, dst).files ensures Copied(m, src, dst).files[p] in m.files.Values {
        CopyMeaning(m, src, dst, p);
        assert Lookup(Copied(m, src, dst).files, p).Some?;
      }
    }
  }

  /** Nothing but a store brings a new answer. */
  lemma StepInfos(ix: PathIndex.Index, s: PathIndex.Step)
    requires PathIndex.WellFormed(ix)
    ensures Infos(PathIndex.Next(ix, s)) <= Infos(ix) + if s.Store? then {FileInfo(s.ip, s.port, s.token)} else {}
  {
    match s
    case Store(_, _, _) =>
    case Find(p) => FindInfos(ix, p);
    case Delete(p) =>
      if PathIndex.Answer(ix, p).Some? {
        FindInfos(ix, p);
        PathIndex.FindWellFormed(ix, p);
        PathIndex.DroppedEntries(PathIndex.AfterFind(ix, p).cache, PathIndex.Answer(ix, p).value.filePath);
      }
    case Copy(src, dst) =>
      FindInfos(ix, src);
      PathIndex.FindWellFormed(ix, src);
      FindInfos(PathIndex.AfterFind(ix, src), dst);
      CopyInfos(ix.trie, src, dst);
  }

  /** What both structures say about owners. */
  ghost predicate OwnedBy(ix: PathIndex.Index, known: set<Endpoint>) {
    forall info <- Infos(ix) :: Owner(info) in known
  }

  lemma {:induction false} RunOwned(run: seq<PathIndex.Step>, known: set<Endpoint>)
    requires forall s <- run :: s.Store? ==> Endpoint(s.ip, s.port) in known
    ensures OwnedBy(PathIndex.Run(run), known)
  {
    if run != [] {
      var before := run[..|run| - 1];
      RunOwned(before, known);
      RunWellFormed(before);
      StepInfos(PathIndex.Run(before), run[|run| - 1]);
    }
  }

  function Addresses(t: seq<Server>): set<Endpoint> {
    set s | s in t :: At(s)
  }

  lemma KnownAddress(t: seq<Server>, e: Endpoint)
    ensures e in Addresses(t) <==> Known(t, e)
  {
    if e in Addresses(t) {
      var i :| 0 <= i < |t| && At(t[i]) == e;
    }
    if Known(t, e) { assert t[IndexOf(t, e)] in t; }
  }

  /** In every reachable state, each record of the trie and each entry of the cache names a
      server of the table. */
  lemma OwnersAreServers(steps: seq<Step>)
    requires Possible(EMPTY_STATE, steps)
    ensures OwnedBy(Run(EMPTY_STATE, steps).index, Addresses(Run(EMPTY_STATE, steps).servers))
  {
    var t := Run(EMPTY_STATE, steps).servers;
    var run := ClusterIndexRun(steps);
    forall s <- run | s.Store? ensures Endpoint(s.ip, s.port) in Addresses(t) {
      KnownAddress(t, Endpoint(s.ip, s.port));
    }
    RunOwned(run, Addresses(t));
  }

  /** So whatever a lookup answers is served by a server of the table. */
  lemma AnswerIsServed(steps: seq<Step>, p: Path)
    requires Possible(EMPTY_STATE, steps) && PathIndex.Answer(Run(EMPTY_STATE, steps).index, p).Some?
    ensures
      var st := Run(EMPTY_STATE, steps);
      Known(st.servers, Owner(PathIndex.Answer(st.index, p).value))
  {
    var st := Run(EMPTY_STATE, steps);
    OwnersAreServers(steps);
    var run := ClusterIndexRun(steps);
    FindInfos(st.index, p);
    KnownAddress(st.servers, Owner(PathIndex.Answer(st.index, p).value));
  }

  // ----- READ in spite of failures

  /** READ names a server exactly when the owner or one of its backups is active, and then
      the first active one in that order. */
  lemma ReadExact(st: State, p: Path)
    requires PathIndex.Answer(st.index, p).Some? && Known(st.servers, Owner(PathIndex.Answer(st.index, p).value))
    ensures
      var e := Owner(PathIndex.Answer(st.index, p).value);
      var s := ServerAt(st.servers, e);
      && (Read(st, p).Served? <==> Active(st.servers, e) || Active(st.servers, s.backup1) || Active(st.servers, s.backup2))
      && (Read(st, p).Served? ==>
            && Active(st.servers, Read(st, p).at)
            && (Active(st.servers, e) ==> Read(st, p).at == e)
            && (Read(st, p).at == s.backup2 != s.backup1 && s.backup2 != e ==> !Active(st.servers, s.backup1)))
  {
  }

  predicate ActiveBut(t: seq<Server>, a: int, b: int) {
    forall i | 0 <= i < |t| && i != a && i != b :: t[i].isActive
  }

  ghost predicate AtMostTwoInactive(t: seq<Server>) {
    exists a, b :: ActiveBut(t, a, b)
  }

  /** With two backups for everyone and at most two servers inactive, READ of a path of any
      server names an active one. */
  lemma ReadWithTwoInactive(st: State, p: Path)
    requires Backups.WellBacked(st.servers) && AtMostTwoInactive(st.servers)
    requires PathIndex.Answer(st.index, p).Some? && Known(st.servers, Owner(PathIndex.Answer(st.index, p).value))
    ensures Read(st, p).Served? && Active(st.servers, Read(st, p).at)
  {
    var t := st.servers;
    ReadExact(st, p);
    var i := IndexOf(t, Owner(PathIndex.Answer(st.index, p).value));
    assert Backups.TwoBackups(t, i);
    var j, k := IndexOf(t, t[i].backup1), IndexOf(t, t[i].backup2);
    assert i != j && i != k && j != k;
    var a, b :| ActiveBut(t, a, b);
  }

  /** In every run in which each server from the third on finds two active ones when it
      registers: as long as at most two servers are inactive, READ of a known path
      names an active server. */
  lemma ReadSurvivesTwoFailures(steps: seq<Step>, p: Path)
    requires Possible(EMPTY_STATE, steps) && Backups.CoveredRun(EMPTY_STATE, steps)
    requires |Run(EMPTY_STATE, steps).servers| >= 3 && AtMostTwoInactive(Run(EMPTY_STATE, steps).servers)
    requires PathIndex.Answer(Run(EMPTY_STATE, steps).index, p).Some?
    ensures
      var st := Run(EMPTY_STATE, steps);
      Read(st, p).Served? && Active(st.servers, Read(st, p).at)
  {
    Backups.AlwaysTwoBackups(steps);
    AnswerIsServed(steps, p);
    ReadWithTwoInactive(Run(EMPTY_STATE, steps), p);
  }
}
