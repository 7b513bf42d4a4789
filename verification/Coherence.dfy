/** What lookups answer, over all runs of the cluster: exactly which requests and events
    can make the cache contradict the trie, and what registration and creation change in
    the answers. */
module Coherence {
  import opened Types
  import opened PathMaps
  import opened PathLists
  import opened LookupCache
  import PathIndex
  import opened IndexRuns
  import Scan
  import opened Cluster
  import Backups
  import opened Ownership

  // ----- the guards

  /** A new server is put into the table. */
  predicate Arrives(st: State, r: Registration) {
    Returning(st.servers, r) == |st.servers| < MAX_CONNECTIONS
  }

  /** No registered path is cached, or only with the record that registration gives it. */
  ghost predicate Unseen(ix: PathIndex.Index, r: Registration) {
    forall e <- ix.cache | e.key in Tokens(r.accessible) :: e.info == FileInfo(r.ip, r.portClient, e.key)
  }

  /** Only registrations, deletions and directory copies can go wrong. */
  ghost predicate StepGuard(st: State, s: Step) {
    match s
    case Register(r, _) => Arrives(st, r) ==> Unseen(st.index, r)
    case DeleteFile(p) => DeleteSent(st, p) ==> DeleteGuard(st.index, p)
    case DeleteRefused(p) => DeleteSent(st, p) ==> DeleteGuard(st.index, p)
    case CopyDir(src, dst) => CopySent(st, src, dst) ==> CopyGuard(st.index, src, dst)
    case _ => true
  }

  // ----- one step

  ghost predicate Sound(ix: PathIndex.Index) {
    PathIndex.WellFormed(ix) && PathIndex.Coherent(ix)
  }

  lemma FindSound(ix: PathIndex.Index, p: Path)
    requires Sound(ix)
    ensures Sound(PathIndex.AfterFind(ix, p)) && PathIndex.AfterFind(ix, p).trie == ix.trie
    ensures forall q :: PathIndex.Answer(PathIndex.AfterFind(ix, p), q) == PathIndex.Answer(ix, q)
  {
    var next := PathIndex.AfterFind(ix, p);
    PathIndex.FindWellFormed(ix, p);
    PathIndex.FindCoherent(ix, p);
    PathIndex.TransparentIsCoherent(ix);
    PathIndex.TransparentIsCoherent(next);
    assert forall q :: PathIndex.Answer(next, q) == Lookup(ix.trie.files, q);
  }

  lemma CreateSound(st: State, d: Path, f: Path)
    requires Sound(st.index)
    ensures Sound(AfterCreate(st, d, f).index)
  {
    var full := Slashed(d, f);
    var looked := AfterLookups(st, d, full).index;
    FindSound(st.index, d);
    FindSound(PathIndex.AfterFind(st.index, d), full);
    if CreateSent(st, d, f) {
      CreatedIndex(st, d, f);
      var e := Owner(PathIndex.Answer(st.index, d).value);
      StoreExact(looked, e.ip, e.port, full);
    }
  }

  /** What creation leaves of the index: the path was not cached, and is stored or not. */
  lemma CreatedIndex(st: State, d: Path, f: Path)
    requires CreateSent(st, d, f)
    ensures
      var e, full := Owner(PathIndex.Answer(st.index, d).value), Slashed(d, f);
      var looked := AfterLookups(st, d, full).index;
      && full !in Keys(looked.cache)
      && AfterCreate(st, d, f).index ==
           if Succeeds(Disk(st, e), d, f) then PathIndex.AfterStore(looked, e.ip, e.port, full) else looked
  {
    var e := Owner(PathIndex.Answer(st.index, d).value);
    var looked := AfterLookups(st, d, Slashed(d, f));
    var stored := if Succeeds(Disk(st, e), d, f)
                  then looked.(index := PathIndex.AfterStore(looked.index, e.ip, e.port, Slashed(d, f)))
                  else looked;
    ForwardedIndex(OnDisk(stored, e, Create(d, f)), ServerAt(st.servers, e), Create(d, f));
  }

  lemma DeletedIndex(st: State, p: Path)
    requires DeleteSent(st, p)
    ensures AfterDeleteRequest(st, p).index == AfterRefusedDelete(st, p).index == PathIndex.AfterDelete(st.index, p)
  {
    var e, c := Owner(PathIndex.Answer(st.index, p).value), Command.Delete(p);
    var removed := st.(index := PathIndex.AfterDelete(st.index, p));
    ForwardedIndex(OnDisk(removed, e, c), ServerAt(st.servers, e), c);
    ForwardedIndex(removed, ServerAt(st.servers, e), c);
  }

  lemma DeleteSound(st: State, p: Path)
    requires Sound(st.index)
    ensures Sound(AfterDeleteRequest(st, p).index) <==> (DeleteSent(st, p) ==> DeleteGuard(st.index, p))
    ensures AfterRefusedDelete(st, p).index == AfterDeleteRequest(st, p).index
  {
    if DeleteSent(st, p) {
      DeletedIndex(st, p);
      DeleteExact(st.index, p);
      PathIndex.NextWellFormed(st.index, PathIndex.Delete(p));
    } else {
      FindSound(st.index, p);
    }
  }

  lemma CopySound(st: State, src: Path, dst: Path)
    requires Sound(st.index)
    ensures Sound(AfterFileCopy(st, src, dst).index)
    ensures Sound(AfterCopyRequest(st, src, dst).index) <==> (CopySent(st, src, dst) ==> CopyGuard(st.index, src, dst))
  {
    FindSound(st.index, src);
    FindSound(PathIndex.AfterFind(st.index, src), dst);
    CopyExact(st.index, src, dst);
    PathIndex.NextWellFormed(st.index, PathIndex.Copy(src, dst));
  }

  lemma {:induction false} StoredAllLookups(ix: PathIndex.Index, r: Registration, paths: seq<Path>, q: Path)
    ensures Lookup(StoredAll(ix, r, paths).trie.files, q) ==
      if q in paths then Some(FileInfo(r.ip, r.portClient, q)) else Lookup(ix.trie.files, q)
  {
    if paths != [] {
      var n := |paths| - 1;
      StoredAllLookups(ix, r, paths[..n], q);
      assert paths == paths[..n] + [paths[n]];
    }
  }

  lemma {:induction false} StoredAllCache(ix: PathIndex.Index, r: Registration, paths: seq<Path>)
    ensures StoredAll(ix, r, paths).cache == ix.cache
  {
    if paths != [] { StoredAllCache(ix, r, paths[..|paths| - 1]); }
  }

  /** What is cached after lookups was cached before or repeats its record. */
  ghost predicate OldOrRight(ix: PathIndex.Index, e: Entry) {
    e in ix.cache || Lookup(ix.trie.files, e.key) == Some(e.info)
  }

  lemma FindEntries(ix: PathIndex.Index, p: Path)
    requires PathIndex.WellFormed(ix)
    ensures forall e <- PathIndex.AfterFind(ix, p).cache :: OldOrRight(ix, e)
  {
    if p in Keys(ix.cache) {
      PathIndex.FrontedEntries(ix.cache, p);
    } else if p in ix.trie.files {
      PathIndex.AddedEntries(ix.cache, Entry(p, ix.trie.files[p]));
    }
  }

  lemma {:induction false} FindsEntries(ix: PathIndex.Index, run: seq<PathIndex.Step>)
    requires PathIndex.WellFormed(ix) && forall s <- run :: s.Find?
    ensures PathIndex.WellFormed(RunFrom(ix, run)) && RunFrom(ix, run).trie == ix.trie
    ensures forall e <- RunFrom(ix, run).cache :: OldOrRight(ix, e)
  {
    if run != [] {
      var before, s := run[..|run| - 1], run[|run| - 1];
      assert s in run;
      FindsEntries(ix, before);
      FindEntries(RunFrom(ix, before), s.path);
      PathIndex.FindWellFormed(RunFrom(ix, before), s.path);
    }
  }

  lemma BackupLookupsEntries(ix: PathIndex.Index, t: seq<Server>)
    requires PathIndex.WellFormed(ix)
    ensures PathIndex.WellFormed(AllBackupLookups(ix, t)) && AllBackupLookups(ix, t).trie == ix.trie
    ensures forall e <- AllBackupLookups(ix, t).cache :: OldOrRight(ix, e)
  {
    var run := AllBackupsIndexRun(ix, t);
    FindsEntries(ix, run);
  }

  /** The index of a registration between its strtok loop and the lookups of backup(). */
  ghost function Recorded(st: State, r: Registration): PathIndex.Index {
    if Arrives(st, r) then StoredAll(st.index, r, Tokens(r.accessible)) else st.index
  }

  lemma RecordedLookups(st: State, r: Registration, q: Path)
    requires Arrives(st, r)
    ensures Lookup(Recorded(st, r).trie.files, q) ==
      if q in Tokens(r.accessible) then Some(FileInfo(r.ip, r.portClient, q)) else Lookup(st.index.trie.files, q)
  {
    StoredAllLookups(st.index, r, Tokens(r.accessible), q);
  }

  /** Storing the paths makes an entry wrong exactly when it is for one of them and says
      something else. */
  lemma RecordedSound(st: State, r: Registration)
    requires Sound(st.index)
    ensures Sound(Recorded(st, r)) <==> (Arrives(st, r) ==> Unseen(st.index, r))
  {
    if Arrives(st, r) {
      StoredAllCache(st.index, r, Tokens(r.accessible));
      forall e <- st.index.cache { RecordedLookups(st, r, e.key); }
    }
  }

  /** The index after a registration: the lookups of backup() bring nothing wrong. */
  lemma BackedUp(st: State, r: Registration, disk: set<Path>)
    requires PathIndex.WellFormed(st.index)
    ensures PathIndex.WellFormed(Recorded(st, r)) && AfterRegister(st, r, disk).index.trie == Recorded(st, r).trie
    ensures forall e <- AfterRegister(st, r, disk).index.cache :: OldOrRight(Recorded(st, r), e)
    ensures Sound(Recorded(st, r)) ==> Sound(AfterRegister(st, r, disk).index)
  {
    StoredAllCache(st.index, r, Tokens(r.accessible));
    if Returning(st.servers, r) == |st.servers| {
      BackupLookupsEntries(Recorded(st, r), Backups.Grown(st.servers, r));
    }
  }

  /** A step leads only through trustworthy states: to its end, and for a registration also
      to the moment before the backups are assigned. */
  ghost predicate SoundThrough(st: State, s: Step) {
    Sound(Next(st, s).index) && (s.Register? ==> Sound(Recorded(st, s.r)))
  }

  /** Without that moment a wrong entry can get by: here the lookups of backup() push it out
      of a full cache. */
  lemma PushedOut(st: State, r: Registration, disk: set<Path>)
    requires Sound(st.index) && Arrives(st, r) && |st.servers| == 2 && st.servers[1].isActive
    requires |st.index.cache| == CACHE_SIZE && st.servers[0].root in st.index.trie.files
    requires st.servers[0].root !in Keys(st.index.cache) && st.servers[0].root !in Tokens(r.accessible)
    requires
      var last := st.index.cache[CACHE_SIZE - 1];
      && last.key in Tokens(r.accessible) && last.info != FileInfo(r.ip, r.portClient, last.key)
    requires forall e <- st.index.cache[..CACHE_SIZE - 1] :: e.key !in Tokens(r.accessible)
    ensures !Unseen(st.index, r) && Sound(AfterRegister(st, r, disk).index)
  {
    hide IndexOf, Tokens, Highest, WithBackups;
    var ix, t, root := Recorded(st, r), Backups.Grown(st.servers, r), st.servers[0].root;
    StoredAllCache(st.index, r, Tokens(r.accessible));
    RecordedLookups(st, r, root);
    assert root in ix.trie.files by { assert Lookup(ix.trie.files, root).Some?; }
    FoundSound(st, r, root);
    LookupsAfterFirst(ix, t);
    assert st.index.cache[CACHE_SIZE - 1] in st.index.cache;
  }

  lemma LookupsSound(ix: PathIndex.Index, t: seq<Server>, i: nat, j: int)
    requires Sound(ix) && i < |t| && j < |t|
    ensures Sound(BackupLookups(ix, t, i, j))
  {
    if j >= 0 {
      FindSound(ix, t[i].root);
      FindSound(PathIndex.AfterFind(ix, t[i].root), t[j].root);
    }
  }

  lemma LookupsAfterFirst(ix: PathIndex.Index, t: seq<Server>)
    requires |t| == 3 && t[1].isActive && PathIndex.Answer(ix, t[0].root).Some?
    requires Sound(PathIndex.AfterFind(ix, t[0].root))
    ensures Sound(AllBackupLookups(ix, t))
  {
    hide Sound, Highest, PathIndex.AfterFind;
    FindSound(PathIndex.AfterFind(ix, t[0].root), t[1].root);
    var a := BackupLookups(ix, t, 0, 1);
    assert a == PathIndex.AfterFind(PathIndex.AfterFind(ix, t[0].root), t[1].root);
    hide BackupLookups;
    LookupsSound(a, t, 0, 2);
    var b := BackupLookups(a, t, 0, 2);
    LookupsSound(b, t, 1, 0);
    var c := BackupLookups(b, t, 1, 0);
    LookupsSound(c, t, 1, 2);
    var d := BackupLookups(c, t, 1, 2);
    var i := Highest(t, 2);
    LookupsSound(d, t, 2, i);
    LookupsSound(BackupLookups(d, t, 2, i), t, 2, Highest(t, i));
  }

  lemma FoundSound(st: State, r: Registration, root: Path)
    requires Sound(st.index) && Arrives(st, r) && |st.index.cache| == CACHE_SIZE
    requires Recorded(st, r).cache == st.index.cache && root !in Keys(st.index.cache)
    requires root in Recorded(st, r).trie.files
    requires forall e <- st.index.cache[..CACHE_SIZE - 1] :: e.key !in Tokens(r.accessible)
    ensures Sound(PathIndex.AfterFind(Recorded(st, r), root))
  {
    PathIndex.FindWellFormed(Recorded(st, r), root);
    forall e <- st.index.cache[..CACHE_SIZE - 1] ensures Lookup(Recorded(st, r).trie.files, e.key) == Some(e.info) {
      RecordedLookups(st, r, e.key);
    }
  }

  /** From a state in which lookups agree with the trie, a request or event leads through
      such states only exactly when its guard holds; creation, reading, loss and return
      always do. */
  lemma StepSoundExact(st: State, s: Step)
    requires Sound(st.index)
    ensures SoundThrough(st, s) <==> StepGuard(st, s)
  {
    match s
    case Register(r, disk) =>
      RecordedSound(st, r);
      BackedUp(st, r, disk);
    case CreateFile(d, f) => CreateSound(st, d, f);
    case DeleteFile(p) => DeleteSound(st, p);
    case DeleteRefused(p) => DeleteSound(st, p);
    case ReadFile(p) => FindSound(st.index, p);
    case LookUp(p) => FindSound(st.index, p);
    case CopyDir(src, dst) => CopySound(st, src, dst);
    case CopyFile(src, dst) => CopySound(st, src, dst);
    case _ =>
  }

  // ----- whole runs

  ghost predicate GuardedRun(steps: seq<Step>) {
    steps == [] ||
    (GuardedRun(steps[..|steps| - 1]) && StepGuard(Run(EMPTY_STATE, steps[..|steps| - 1]), steps[|steps| - 1]))
  }

  /** Lookups agree with the trie at every moment of the run, those between the strtok loop of
      a registration and its backups included. */
  ghost predicate AlwaysTrusted(steps: seq<Step>) {
    && PathIndex.Transparent(Run(EMPTY_STATE, steps).index)
    && (steps != [] ==>
          var before, s := steps[..|steps| - 1], steps[|steps| - 1];
          && AlwaysTrusted(before)
          && (s.Register? ==> PathIndex.Transparent(Recorded(Run(EMPTY_STATE, before), s.r))))
  }

  /** Over any run of the cluster from its start: lookups agree with the trie at every moment
      if and only if every registration, deletion and directory copy met its guard. */
  lemma {:induction false} TrustExact(steps: seq<Step>)
    requires Possible(EMPTY_STATE, steps)
    ensures AlwaysTrusted(steps) <==> GuardedRun(steps)
  {
    var run := ClusterIndexRun(steps);
    PathIndex.TransparentIsCoherent(Run(EMPTY_STATE, steps).index);
    if steps != [] {
      var before, s := steps[..|steps| - 1], steps[|steps| - 1];
      TrustExact(before);
      if GuardedRun(before) {
        var st := Run(EMPTY_STATE, before);
        var runBefore := ClusterIndexRun(before);
        PathIndex.TransparentIsCoherent(st.index);
        StepSoundExact(st, s);
        if s.Register? {
          BackedUp(st, s.r, s.disk);
          PathIndex.TransparentIsCoherent(Recorded(st, s.r));
        }
      }
    }
  }

  // ----- a run that ends wrong

  lemma {:induction false} StoredAllNodes(ix: PathIndex.Index, r: Registration, paths: seq<Path>, q: Path)
    requires q in paths
    ensures q in StoredAll(ix, r, paths).trie.nodes
  {
    var n := |paths| - 1;
    PrefixesMeaning(paths[n]);
    assert paths == paths[..n] + [paths[n]];
    if q != paths[n] { StoredAllNodes(ix, r, paths[..n], q); }
  }

  /** The state after one server registered. */
  lemma OneServer(r: Registration, disk: set<Path>, paths: seq<Path>)
    requires Sendable(paths) && r.accessible == Joined(paths)
    ensures
      var st := AfterRegister(EMPTY_STATE, r, disk);
      && st.servers == [NewServer(r)] && st.disks == map[At(NewServer(r)) := disk] && st.index.cache == []
      && (forall q :: Lookup(st.index.trie.files, q) == if q in paths then Some(FileInfo(r.ip, r.portClient, q)) else None)
      && (forall q <- paths :: q in st.index.trie.nodes && q in st.index.trie.files)
  {
    TokensOfJoined(paths);
    var ix := StoredAll(PathIndex.EMPTY_INDEX, r, paths);
    StoredAllCache(PathIndex.EMPTY_INDEX, r, paths);
    forall q ensures Lookup(ix.trie.files, q) == if q in paths then Some(FileInfo(r.ip, r.portClient, q)) else None {
      StoredAllLookups(PathIndex.EMPTY_INDEX, r, paths, q);
    }
    forall q <- paths ensures q in ix.trie.nodes && q in ix.trie.files {
      StoredAllNodes(PathIndex.EMPTY_INDEX, r, paths, q);
      assert Lookup(ix.trie.files, q).Some?;
    }
  }

  lemma TwoLookUps(ix: PathIndex.Index, a: Path, b: Path)
    requires a != b && ix.cache == [] && a in ix.trie.files && b in ix.trie.files
    ensures PathIndex.AfterFind(PathIndex.AfterFind(ix, a), b) ==
      ix.(cache := [Entry(b, ix.trie.files[b]), Entry(a, ix.trie.files[a])])
  {
    var ea := Entry(a, ix.trie.files[a]);
    assert Keys([]) == [] && Keys([ea]) == [a];
  }

  /** DELETE of a file with the address at hand: what goes where. */
  lemma DeleteOfSecond(st: State, e: Endpoint, a: Path, b: Path)
    requires a != b && DOT in b && Reachable(st.servers, e)
    requires ServerAt(st.servers, e).backup1 == NOBODY && ServerAt(st.servers, e).backup2 == NOBODY
    requires st.index.cache == [Entry(b, FileInfo(e.ip, e.port, b)), Entry(a, FileInfo(e.ip, e.port, a))]
    ensures
      var next := AfterDeleteRequest(st, b);
      && next.index.trie == Deleted(st.index.trie, a)
      && next.disks == st.disks[e := Apply(Disk(st, e), Command.Delete(b))]
  {
    hide IndexOf, Apply, Forwarded, ForwardedToBoth, PathIndex.AfterDelete, PathIndex.Answer;
    var ea, eb := Entry(a, FileInfo(e.ip, e.port, a)), Entry(b, FileInfo(e.ip, e.port, b));
    assert PathIndex.Answer(st.index, b) == Some(eb.info) by { FirstAnswers(st.index, eb, [ea]); }
    DeleteOfFirstOfTwo(st.index, ea, eb);
    NobodyToldAgain(st.(index := PathIndex.AfterDelete(st.index, b)), e, Command.Delete(b));
  }

  lemma FirstAnswers(ix: PathIndex.Index, first: Entry, rest: seq<Entry>)
    requires ix.cache == [first] + rest
    ensures PathIndex.Answer(ix, first.key) == Some(first.info)
  {
    assert Keys(ix.cache)[0] == first.key && Place(ix.cache, first.key) == 0;
  }

  lemma NobodyToldAgain(st: State, e: Endpoint, c: Command)
    requires Known(st.servers, e) && ServerAt(st.servers, e).backup1 == NOBODY && ServerAt(st.servers, e).backup2 == NOBODY
    ensures ForwardedToBoth(OnDisk(st, e, c), ServerAt(st.servers, e), c) == OnDisk(st, e, c)
  {
  }

  /** A server registers two files, a client looks up both, and DELETE of the second takes
      the record of the first: the deleted file is still answered, though its disk has it no
      more, and the other one, still on the disk, has no record. */
  lemma DeleteTakesAnother(r: Registration, disk: set<Path>, a: Path, b: Path)
    requires Sendable([a, b]) && r.accessible == Joined([a, b]) && Somebody(At(NewServer(r))) && r.portNm != -1
    requires !Under(b, a) && DOT in b && a in disk && b in disk
    ensures
      var before := [Register(r, disk), LookUp(a), LookUp(b)];
      var steps := before + [DeleteFile(b)];
      var st := Run(EMPTY_STATE, steps);
      && Possible(EMPTY_STATE, steps) && AlwaysTrusted(before) && !GuardedRun(steps)
      && Lookup(st.index.trie.files, b) == Some(FileInfo(r.ip, r.portClient, b)) && b !in Disk(st, At(NewServer(r)))
      && a !in st.index.trie.files && a in Disk(st, At(NewServer(r)))
  {
    hide Next, Enabled, StepGuard;
    var s1, s2, s3, s4 := Register(r, disk), LookUp(a), LookUp(b), DeleteFile(b);
    RunOfFour(s1, s2, s3, s4);
    ReadyToDelete(r, disk, a, b);
    DeletedWrong(Run(EMPTY_STATE, [s1, s2, s3]), r, disk, a, b);
    TrustExact([s1, s2, s3]);
  }

  lemma RunOfFour(s1: Step, s2: Step, s3: Step, s4: Step)
    ensures
      var st1 := Next(EMPTY_STATE, s1);
      var st2 := Next(st1, s2);
      var st3 := Next(st2, s3);
      && Run(EMPTY_STATE, [s1, s2, s3]) == st3 && Run(EMPTY_STATE, [s1, s2, s3] + [s4]) == Next(st3, s4)
      && (Enabled(EMPTY_STATE, s1) && Enabled(st1, s2) && Enabled(st2, s3) ==> Possible(EMPTY_STATE, [s1, s2, s3]))
      && (Possible(EMPTY_STATE, [s1, s2, s3]) && Enabled(st3, s4) ==> Possible(EMPTY_STATE, [s1, s2, s3] + [s4]))
      && (StepGuard(EMPTY_STATE, s1) && StepGuard(st1, s2) && StepGuard(st2, s3) ==> GuardedRun([s1, s2, s3]))
      && (!StepGuard(st3, s4) ==> !GuardedRun([s1, s2, s3] + [s4]))
  {
    hide Next, Enabled, StepGuard;
    assert ([s1, s2, s3] + [s4])[..3] == [s1, s2, s3];
    assert [s1, s2, s3][..2] == [s1, s2] && [s1, s2][..1] == [s1] && [s1][..0] == [];
    assert Run(EMPTY_STATE, []) == EMPTY_STATE;
    assert Run(EMPTY_STATE, [s1]) == Next(EMPTY_STATE, s1);
    assert Run(EMPTY_STATE, [s1, s2]) == Next(Run(EMPTY_STATE, [s1]), s2);
    assert Enabled(EMPTY_STATE, s1) ==> Possible(EMPTY_STATE, [s1]);
    assert StepGuard(EMPTY_STATE, s1) ==> GuardedRun([s1]);
  }

  lemma ReadyToDelete(r: Registration, disk: set<Path>, a: Path, b: Path)
    requires Sendable([a, b]) && r.accessible == Joined([a, b]) && Somebody(At(NewServer(r))) && a != b
    ensures
      var st1 := Next(EMPTY_STATE, Register(r, disk));
      var st2 := Next(st1, LookUp(a));
      var st := Next(st2, LookUp(b));
      && st.servers == [NewServer(r)] && st.disks == map[At(NewServer(r)) := disk]
      && st.index.cache == [Entry(b, FileInfo(r.ip, r.portClient, b)), Entry(a, FileInfo(r.ip, r.portClient, a))]
      && a in st.index.trie.files && Lookup(st.index.trie.files, b) == Some(FileInfo(r.ip, r.portClient, b))
      && Enabled(EMPTY_STATE, Register(r, disk)) && Enabled(st1, LookUp(a)) && Enabled(st2, LookUp(b))
      && StepGuard(EMPTY_STATE, Register(r, disk)) && StepGuard(st1, LookUp(a)) && StepGuard(st2, LookUp(b))
  {
    var st1 := Next(EMPTY_STATE, Register(r, disk));
    OneServer(r, disk, [a, b]);
    TwoLookUps(st1.index, a, b);
    JoinedHead([a, b]);
    assert Lookup(st1.index.trie.files, a) == Some(FileInfo(r.ip, r.portClient, a));
    assert Lookup(st1.index.trie.files, b) == Some(FileInfo(r.ip, r.portClient, b));
  }

  lemma DeletedWrong(st: State, r: Registration, disk: set<Path>, a: Path, b: Path)
    requires st.servers == [NewServer(r)] && st.disks == map[At(NewServer(r)) := disk]
    requires st.index.cache == [Entry(b, FileInfo(r.ip, r.portClient, b)), Entry(a, FileInfo(r.ip, r.portClient, a))]
    requires a in st.index.trie.files && a in disk
    requires Lookup(st.index.trie.files, b) == Some(FileInfo(r.ip, r.portClient, b))
    requires !Under(b, a) && DOT in b && r.portNm != -1
    ensures
      var next := Next(st, DeleteFile(b));
      && Enabled(st, DeleteFile(b)) && !StepGuard(st, DeleteFile(b))
      && Lookup(next.index.trie.files, b) == Some(FileInfo(r.ip, r.portClient, b)) && b !in Disk(next, At(NewServer(r)))
      && a !in next.index.trie.files && a in Disk(next, At(NewServer(r)))
  {
    var ea, eb := Entry(a, FileInfo(r.ip, r.portClient, a)), Entry(b, FileInfo(r.ip, r.portClient, b));
    DeleteOfSecond(st, At(NewServer(r)), a, b);
    assert Keys([eb, ea]) == [b, a] && Keys([ea]) == [a];
  }

  // ----- what registration and creation change in the answers

  /** From the disk of a new storage server to the answers of the naming server: after it
      scanned its tree and registered, exactly the directory itself and the files and
      directories below it are answered with its address; every other path is answered as
      before. */
  lemma RegistrationAnswers(st: State, r: Registration, disk: set<Path>, home: Path, d: Scan.Dirent, q: Path)
    requires Sound(st.index) && Arrives(st, r) && Unseen(st.index, r)
    requires d.Directory? && home != [] && CommaFree(home) && Scan.CommaFreeNames(d.entries)
    requires r.accessible == Joined(Scan.Scanned(home, d))
    ensures PathIndex.Answer(AfterRegister(st, r, disk).index, q) ==
      if q == home || (d.readable && Scan.Node(home, d.entries, q))
      then Some(FileInfo(r.ip, r.portClient, q)) else PathIndex.Answer(st.index, q)
    ensures NewServer(r).root == home
  {
    Scan.ScanArrives(home, d);
    Scan.ScanComplete(home, d);
    RecordedSound(st, r);
    RecordedLookups(st, r, q);
    BackedUp(st, r, disk);
    PathIndex.TransparentIsCoherent(st.index);
    PathIndex.TransparentIsCoherent(AfterRegister(st, r, disk).index);
    assert PathIndex.Answer(st.index, q) == Lookup(st.index.trie.files, q);
  }

  /** A created path is answered with the server of its directory, in every state; where
      lookups agree with the trie, no other answer changes. */
  lemma CreatedInherits(st: State, d: Path, f: Path, q: Path)
    requires CreateSent(st, d, f)
    ensures
      var e, full := Owner(PathIndex.Answer(st.index, d).value), Slashed(d, f);
      var next := AfterCreate(st, d, f).index;
      && PathIndex.Answer(next, full) == (if Succeeds(Disk(st, e), d, f) then Some(FileInfo(e.ip, e.port, full)) else None)
      && (Sound(st.index) && q != full ==> PathIndex.Answer(next, q) == PathIndex.Answer(st.index, q))
  {
    CreatedIndex(st, d, f);
    if Sound(st.index) {
      FindSound(st.index, d);
      FindSound(PathIndex.AfterFind(st.index, d), Slashed(d, f));
    }
  }
}
