/** Records and disks together, over all runs of the cluster: exactly which requests and
    events leave a record, or a cached one, for a file that its server does not have. */
module Records {
  import opened Types
  import opened PathMaps
  import opened PathLists
  import opened LookupCache
  import PathIndex
  import opened IndexRuns
  import opened Cluster
  import opened Replication
  import Backups
  import opened Mirrors
  import opened Ownership
  import opened Coherence

  /** The server of the record has the file, or will once its pending commands are applied. */
  ghost predicate Present(st: State, info: FileInfo) {
    info.filePath in WouldBe(st, Owner(info))
  }

  /** Whatever a lookup can answer is there. */
  ghost predicate Honest(st: State) {
    forall info <- Infos(st.index) :: Present(st, info)
  }

  // ----- what commands leave on a disk

  lemma {:induction false} Remains(disk: set<Path>, cs: seq<Command>, q: Path)
    requires q in disk && forall c <- cs :: c.Delete? ==> !Touches(c, q)
    ensures q in ApplyAll(disk, cs)
  {
    if cs != [] {
      var n := |cs| - 1;
      assert cs[n] in cs;
      Remains(disk, cs[..n], q);
      ApplyAt(ApplyAll(disk, cs[..n]), cs[n], q);
    }
  }

  lemma {:induction false} Appears(disk: set<Path>, cs: seq<Command>, c: Command, q: Path)
    requires c in cs && Touches(c, q) && forall x <- cs :: !x.Delete?
    ensures q in ApplyAll(disk, cs)
  {
    var n := |cs| - 1;
    assert cs[n] in cs;
    ApplyAt(ApplyAll(disk, cs[..n]), cs[n], q);
    if cs[n] != c { Appears(disk, cs[..n], c, q); }
  }

  lemma {:induction false} Disappears(disk: set<Path>, cs: seq<Command>, c: Command, q: Path)
    requires c in cs && Touches(c, q) && forall x <- cs :: x.Delete?
    ensures q !in ApplyAll(disk, cs)
  {
    var n := |cs| - 1;
    assert cs[n] in cs;
    ApplyAt(ApplyAll(disk, cs[..n]), cs[n], q);
    if cs[n] != c { Disappears(disk, cs[..n], c, q); }
  }

  lemma {:induction false} ToServerKeeps(log: seq<Delivery>, d: Delivery)
    requires d in log
    ensures d.op in ToServer(log, d.to)
  {
    var n := |log| - 1;
    if log[n] != d { ToServerKeeps(log[..n], d); }
  }

  /** No deletion of the log takes the file of the record away. */
  ghost predicate Spared(log: seq<Delivery>, info: FileInfo) {
    forall d <- log | d.to == Owner(info) && d.op.Delete? :: !Under(d.op.path, info.filePath)
  }

  lemma SparedStays(st: State, st': State, log: seq<Delivery>, info: FileInfo)
    requires Directed(st, st', log) && Present(st, info) && Spared(log, info)
    ensures Present(st', info)
  {
    var e := Owner(info);
    var cs := ToServer(log, e);
    forall c <- cs | c.Delete? ensures !Touches(c, info.filePath) { ToServerHas(log, e, c); }
    Remains(WouldBe(st, e), cs, info.filePath);
    assert WouldBe(st', e) == ApplyAll(WouldBe(st, e), cs);
  }

  lemma NotSparedGoes(st: State, st': State, log: seq<Delivery>, info: FileInfo)
    requires Directed(st, st', log) && !Spared(log, info) && forall d <- log :: d.op.Delete?
    ensures !Present(st', info)
  {
    var e := Owner(info);
    var cs := ToServer(log, e);
    var d :| d in log && d.to == e && d.op.Delete? && Under(d.op.path, info.filePath);
    ToServerKeeps(log, d);
    forall c <- cs ensures c.Delete? { ToServerHas(log, e, c); }
    Disappears(WouldBe(st, e), cs, d.op, info.filePath);
    assert WouldBe(st', e) == ApplyAll(WouldBe(st, e), cs);
  }

  // ----- the guards

  /** The record that a deletion of a known path takes out of the trie: its own, unless the
      path is cached with others, when it is that of the entry next in the cache, or the
      record names another path. */
  function TakenKey(ix: PathIndex.Index, p: Path): Path
    requires PathIndex.Answer(ix, p).Some?
  {
    var named := PathIndex.Answer(ix, p).value.filePath;
    if p in Keys(ix.cache) && |ix.cache| >= 2 && named == p then Fronted(ix.cache, p)[1].info.filePath else named
  }

  /** The entries that the lookup of `p` leaves: a miss in a full cache costs the last. */
  function StillCached(ix: PathIndex.Index, p: Path): seq<Entry> {
    if p in Keys(ix.cache) || |ix.cache| < CACHE_SIZE then ix.cache else ix.cache[..CACHE_SIZE - 1]
  }

  /** What a deletion of a known path leaves to be answered, of what is there before it. */
  ghost function Remaining(ix: PathIndex.Index, p: Path): set<FileInfo>
    requires PathIndex.Answer(ix, p).Some?
  {
    (set x | x in ix.trie.files && x != TakenKey(ix, p) :: ix.trie.files[x])
      + set x | x in StillCached(ix, p) && x.key != PathIndex.Answer(ix, p).value.filePath :: x.info
  }

  /** The server of the record loses its file to a deletion of `p`: as the owner of `p`,
      unless it refuses, or as a backup of the owner, which holds a copy below its root. */
  predicate Loses(t: seq<Server>, e: Endpoint, p: Path, refused: bool, info: FileInfo)
    requires Known(t, e)
  {
    || (!refused && Owner(info) == e && Under(p, info.filePath))
    || LosesCopy(t, ServerAt(t, e).backup1, p, info)
    || LosesCopy(t, ServerAt(t, e).backup2, p, info)
  }

  predicate LosesCopy(t: seq<Server>, b: Endpoint, p: Path, info: FileInfo) {
    Somebody(b) && Known(t, b) && Owner(info) == b && Under(Slashed(ServerAt(t, b).root, p), info.filePath)
  }

  /** Nothing that remains is lost. */
  ghost predicate DeleteSpares(st: State, p: Path, refused: bool)
    requires DeleteSent(st, p)
  {
    var e := Owner(PathIndex.Answer(st.index, p).value);
    forall info <- Remaining(st.index, p) :: !Loses(st.servers, e, p, refused, info)
  }

  /** A new server has what it registers, and a deletion leaves no record behind for what it
      removes. */
  ghost predicate HonestGuard(st: State, s: Step) {
    match s
    case Register(r, disk) => Arrives(st, r) ==> forall p <- Tokens(r.accessible) :: p in disk
    case DeleteFile(p) => DeleteSent(st, p) ==> DeleteSpares(st, p, false)
    case DeleteRefused(p) => DeleteSent(st, p) ==> DeleteSpares(st, p, true)
    case _ => true
  }

  // ----- what a deletion leaves

  lemma TakenKeyMeaning(ix: PathIndex.Index, p: Path)
    requires PathIndex.WellFormed(ix) && PathIndex.Answer(ix, p).Some?
    ensures PathIndex.KeyDeleted(ix, p) == TakenKey(ix, p)
  {
    var c, k := PathIndex.AfterFind(ix, p).cache, PathIndex.Answer(ix, p).value.filePath;
    if p in Keys(ix.cache) {
      PathIndex.FrontedEntries(ix.cache, p);
      if k == p {
        assert Place(c, k) == 0 && Dropped(c, k) == c[1..];
      } else {
        assert Place(c, k) > 0 && Dropped(c, k)[0] == c[0];
      }
    }
  }

  /** The entries after the lookup are those still cached and one for the path. */
  lemma LookedEntries(ix: PathIndex.Index, p: Path, x: Entry)
    requires PathIndex.WellFormed(ix) && PathIndex.Answer(ix, p).Some?
    ensures x in PathIndex.AfterFind(ix, p).cache <==>
      x in StillCached(ix, p) || (p !in Keys(ix.cache) && x == Entry(p, PathIndex.Answer(ix, p).value))
  {
    if p in Keys(ix.cache) { PathIndex.FrontedEntries(ix.cache, p); }
  }

  predicate EntryLeft(ix: PathIndex.Index, p: Path, x: Entry)
    requires PathIndex.Answer(ix, p).Some?
  {
    && x.key != PathIndex.Answer(ix, p).value.filePath
    && (x in StillCached(ix, p) || (p !in Keys(ix.cache) && x == Entry(p, PathIndex.Answer(ix, p).value)))
  }

  /** Remaining is what the deletion leaves. */
  lemma RemainingMeaning(ix: PathIndex.Index, p: Path)
    requires PathIndex.WellFormed(ix) && PathIndex.Answer(ix, p).Some?
    ensures Infos(PathIndex.AfterDelete(ix, p)) == Remaining(ix, p)
  {
    hide PathIndex.AfterFind;
    var c, named := PathIndex.AfterFind(ix, p).cache, PathIndex.Answer(ix, p).value.filePath;
    TakenKeyMeaning(ix, p);
    PathIndex.FindWellFormed(ix, p);
    PathIndex.DroppedEntries(c, named);
    forall x ensures x in PathIndex.CacheAfterDelete(ix, p) <==> EntryLeft(ix, p, x) {
      LookedEntries(ix, p, x);
    }
    RemainingInfos(ix, p);
  }

  lemma RemainingInfos(ix: PathIndex.Index, p: Path)
    requires PathIndex.Answer(ix, p).Some? && PathIndex.KeyDeleted(ix, p) == TakenKey(ix, p)
    requires forall x :: x in PathIndex.CacheAfterDelete(ix, p) <==> EntryLeft(ix, p, x)
    ensures Infos(PathIndex.AfterDelete(ix, p)) == Remaining(ix, p)
  {
    hide PathIndex.CacheAfterDelete, StillCached, PathIndex.KeyDeleted;
    var ix', named := PathIndex.AfterDelete(ix, p), PathIndex.Answer(ix, p).value.filePath;
    forall info <- Infos(ix') ensures info in Remaining(ix, p) {
      if info !in ix'.trie.files.Values {
        var x: Entry :| x in ix'.cache && x.info == info;
        if x !in StillCached(ix, p) { assert ix.trie.files[p] == info && p != TakenKey(ix, p); }
      }
    }
    forall info <- Remaining(ix, p) ensures info in Infos(ix') {
      if x :| x in ix.trie.files && x != TakenKey(ix, p) && ix.trie.files[x] == info {
        assert ix'.trie.files[x] == info;
      } else {
        var x: Entry :| x in StillCached(ix, p) && x.key != named && x.info == info;
        assert x in ix'.cache;
      }
    }
  }

  // ----- one step

  /** Steps that neither delete nor bring answers. */
  lemma StaysHonest(st: State, s: Step)
    requires Inv(st) && Enabled(st, s) && Honest(st)
    requires Infos(Next(st, s).index) <= Infos(st.index) && forall d <- Deliveries(st, s) :: !d.op.Delete?
    ensures Honest(Next(st, s))
  {
    StepDirected(st, s);
    forall info <- Infos(Next(st, s).index) ensures Present(Next(st, s), info) {
      SparedStays(st, Next(st, s), Deliveries(st, s), info);
    }
  }

  lemma LookupInfos(st: State, p: Path, q: Path)
    requires PathIndex.WellFormed(st.index)
    ensures Infos(PathIndex.AfterFind(st.index, p)) <= Infos(st.index)
    ensures Infos(AfterLookups(st, p, q).index) <= Infos(st.index)
  {
    FindInfos(st.index, p);
    PathIndex.FindWellFormed(st.index, p);
    FindInfos(PathIndex.AfterFind(st.index, p), q);
  }

  lemma CopyHonest(st: State, src: Path, dst: Path)
    requires PathIndex.WellFormed(st.index) && Inv(st) && Honest(st)
    ensures Honest(AfterCopyRequest(st, src, dst)) && Honest(AfterFileCopy(st, src, dst))
  {
    hide Inv, Honest, PathIndex.AfterFind, PathIndex.AfterCopy, IndexOf;
    LookupInfos(st, src, dst);
    StepInfos(st.index, PathIndex.Copy(src, dst));
    StaysHonest(st, CopyDir(src, dst));
    StaysHonest(st, CopyFile(src, dst));
  }

  lemma UnsentHonest(st: State, d: Path, f: Path)
    requires PathIndex.WellFormed(st.index) && Inv(st) && Honest(st) && !CreateSent(st, d, f)
    ensures Honest(AfterCreate(st, d, f))
  {
    LookupInfos(st, d, Slashed(d, f));
    StaysHonest(st, CreateFile(d, f));
  }

  lemma NotDeletedHonest(st: State, s: Step, p: Path)
    requires PathIndex.WellFormed(st.index) && Inv(st) && Honest(st) && !DeleteSent(st, p)
    requires s == DeleteFile(p) || s == DeleteRefused(p)
    ensures Honest(Next(st, s))
  {
    LookupInfos(st, p, p);
    StaysHonest(st, s);
  }

  lemma SameKind(t: seq<Server>, e: Endpoint, c: Command)
    requires Known(t, e)
    ensures forall d <- ToAll(t, e, c) :: d.op.Delete? <==> c.Delete?
    ensures forall d <- ToBackups(t, e, c) :: d.op.Delete? <==> c.Delete?
  {
  }

  lemma CreateHonest(st: State, d: Path, f: Path)
    requires PathIndex.WellFormed(st.index) && Inv(st) && Honest(st)
    ensures Honest(AfterCreate(st, d, f))
  {
    hide Inv, Directed, WouldBe, ToAll, AfterLookups, AfterCreate, Succeeds, IndexOf, Present;
    LookupInfos(st, d, Slashed(d, f));
    if CreateSent(st, d, f) {
      CreatedIndex(st, d, f);
      var s, e, full := CreateFile(d, f), Owner(PathIndex.Answer(st.index, d).value), Slashed(d, f);
      var st', log, created := Next(st, s), Deliveries(st, s), FileInfo(e.ip, e.port, full);
      assert Infos(st'.index) <= Infos(st.index) + {created};
      StepDirected(st, s);
      SameKind(st.servers, e, Create(d, f));
      forall info <- Infos(st'.index) ensures Present(st', info) {
        if info == created { CreatedPresent(st, st', created, d, f); } else { SparedStays(st, st', log, info); }
      }
    } else {
      UnsentHonest(st, d, f);
    }
  }

  lemma CreatedPresent(st: State, st': State, info: FileInfo, d: Path, f: Path)
    requires Known(st.servers, Owner(info)) && Directed(st, st', ToAll(st.servers, Owner(info), Create(d, f)))
    requires info.filePath == Slashed(d, f)
    ensures Present(st', info)
  {
    var e, c := Owner(info), Create(d, f);
    var log := ToAll(st.servers, e, c);
    assert log[0] == Delivery(e, e, c);
    ToServerKeeps(log, log[0]);
    forall x <- ToServer(log, e) ensures !x.Delete? { ToServerHas(log, e, x); }
    Appears(WouldBe(st, e), ToServer(log, e), c, Slashed(d, f));
    assert WouldBe(st', e) == ApplyAll(WouldBe(st, e), ToServer(log, e));
  }

  lemma SparedConcat(a: seq<Delivery>, b: seq<Delivery>, info: FileInfo)
    ensures Spared(a + b, info) <==> Spared(a, info) && Spared(b, info)
  {
    assert forall d :: d in a + b <==> d in a || d in b;
  }

  lemma SparedForward(t: seq<Server>, b: Endpoint, origin: Endpoint, p: Path, info: FileInfo)
    ensures Spared(Forwards(t, b, origin, Command.Delete(p)), info) <==> !LosesCopy(t, b, p, info)
  {
    var log := Forwards(t, b, origin, Command.Delete(p));
    if Somebody(b) && Known(t, b) { assert log[0] in log; }
  }

  lemma SparedByBackups(t: seq<Server>, e: Endpoint, origin: Endpoint, p: Path, info: FileInfo)
    requires Known(t, e)
    ensures Spared(BothForwards(t, e, origin, Command.Delete(p)), info) <==>
      !LosesCopy(t, ServerAt(t, e).backup1, p, info) && !LosesCopy(t, ServerAt(t, e).backup2, p, info)
  {
    hide Spared, LosesCopy;
    var c, s := Command.Delete(p), ServerAt(t, e);
    SparedConcat(Forwards(t, s.backup1, origin, c), Forwards(t, s.backup2, origin, c), info);
    SparedForward(t, s.backup1, origin, p, info);
    SparedForward(t, s.backup2, origin, p, info);
  }

  /** A deletion, executed or refused, as the commands that it directs. */
  lemma LosesMeaning(t: seq<Server>, e: Endpoint, p: Path, info: FileInfo)
    requires Known(t, e)
    ensures Spared(ToAll(t, e, Command.Delete(p)), info) <==> !Loses(t, e, p, false, info)
    ensures Spared(ToBackups(t, e, Command.Delete(p)), info) <==> !Loses(t, e, p, true, info)
  {
    hide Under, IndexOf, LosesCopy, Forwards;
    var a := [Delivery(e, e, Command.Delete(p))];
    assert ToAll(t, e, Command.Delete(p)) == a + BothForwards(t, e, e, Command.Delete(p));
    assert ToBackups(t, e, Command.Delete(p)) == BothForwards(t, e, NOBODY, Command.Delete(p));
    SparedConcat(a, BothForwards(t, e, e, Command.Delete(p)), info);
    SparedByBackups(t, e, e, p, info);
    SparedByBackups(t, e, NOBODY, p, info);
    assert a[0] in a;
  }

  lemma DeleteHonest(st: State, p: Path, refused: bool)
    requires PathIndex.WellFormed(st.index) && Inv(st) && Honest(st)
    ensures
      var s := if refused then DeleteRefused(p) else DeleteFile(p);
      Honest(Next(st, s)) <==> HonestGuard(st, s)
  {
    hide Inv, Directed, WouldBe, ToAll, ToBackups, AfterDeleteRequest, AfterRefusedDelete, PathIndex.AfterDelete, IndexOf, Present;
    hide Spared, Loses, Remaining;
    var s := if refused then DeleteRefused(p) else DeleteFile(p);
    if DeleteSent(st, p) {
      var st', log, e := Next(st, s), Deliveries(st, s), Owner(PathIndex.Answer(st.index, p).value);
      DeletedIndex(st, p);
      RemainingMeaning(st.index, p);
      StepInfos(st.index, PathIndex.Delete(p));
      StepDirected(st, s);
      SameKind(st.servers, e, Command.Delete(p));
      forall info <- Infos(st'.index) ensures Present(st', info) <==> !Loses(st.servers, e, p, refused, info) {
        LosesMeaning(st.servers, e, p, info);
        if Spared(log, info) { SparedStays(st, st', log, info); } else { NotSparedGoes(st, st', log, info); }
      }
    } else {
      NotDeletedHonest(st, s, p);
    }
  }

  /** The records that a new server brings. */
  ghost function Brought(r: Registration): set<FileInfo> {
    set p | p in Tokens(r.accessible) :: FileInfo(r.ip, r.portClient, p)
  }

  lemma BroughtInfos(st: State, r: Registration, disk: set<Path>)
    requires PathIndex.WellFormed(st.index) && Arrives(st, r)
    ensures Brought(r) <= Infos(AfterRegister(st, r, disk).index) <= Infos(st.index) + Brought(r)
  {
    var paths := Tokens(r.accessible);
    var ix := StoredAll(st.index, r, paths);
    var next := AllBackupLookups(ix, Backups.Grown(st.servers, r));
    StoredAllCache(st.index, r, paths);
    BackupLookupsEntries(ix, Backups.Grown(st.servers, r));
    forall q ensures Lookup(ix.trie.files, q) ==
      if q in paths then Some(FileInfo(r.ip, r.portClient, q)) else Lookup(st.index.trie.files, q)
    {
      StoredAllLookups(st.index, r, paths, q);
    }
    StoredInfos(st.index, ix, r);
    forall info <- Infos(next) ensures info in Infos(ix) {
      if x: Entry :| x in next.cache && x.info == info { assert OldOrRight(ix, x); }
    }
  }

  lemma StoredInfos(ix: PathIndex.Index, ix': PathIndex.Index, r: Registration)
    requires ix'.cache == ix.cache
    requires forall q :: Lookup(ix'.trie.files, q) ==
               if q in Tokens(r.accessible) then Some(FileInfo(r.ip, r.portClient, q)) else Lookup(ix.trie.files, q)
    ensures ix'.trie.files.Values <= ix.trie.files.Values + Brought(r) && Brought(r) <= ix'.trie.files.Values
  {
    forall q <- ix'.trie.files ensures ix'.trie.files[q] in ix.trie.files.Values + Brought(r) {
      assert Lookup(ix'.trie.files, q) == Some(ix'.trie.files[q]);
    }
    forall q <- Tokens(r.accessible) ensures FileInfo(r.ip, r.portClient, q) in ix'.trie.files.Values {
      assert Lookup(ix'.trie.files, q) == Some(FileInfo(r.ip, r.portClient, q));
    }
  }

  lemma ArrivalHonest(st: State, r: Registration, disk: set<Path>)
    requires PathIndex.WellFormed(st.index) && Inv(st) && Enabled(st, Register(r, disk)) && Honest(st) && Arrives(st, r)
    ensures Honest(AfterRegister(st, r, disk)) <==> HonestGuard(st, Register(r, disk))
  {
    hide Inv, WouldBe, AfterRegister, Directed, IndexOf, Tokens, Touches, Infos;
    var s := Register(r, disk);
    var st', log := Next(st, s), Deliveries(st, s);
    StepDirected(st, s);
    BroughtInfos(st, r, disk);
    forall info <- Infos(st.index) ensures Present(st', info) { SparedStays(st, st', log, info); }
    ArrivedDisk(st, st', r, disk);
    forall p <- Tokens(r.accessible) ensures FileInfo(r.ip, r.portClient, p) in Infos(st'.index) {
      assert FileInfo(r.ip, r.portClient, p) in Brought(r);
    }
  }

  lemma ArrivedDisk(st: State, st': State, r: Registration, disk: set<Path>)
    requires Inv(st) && !Known(st.servers, At(NewServer(r)))
    requires Directed(st, st', [Delivery(At(NewServer(r)), NOBODY, Unpack(disk))])
    ensures WouldBe(st', Endpoint(r.ip, r.portClient)) == disk
  {
    hide Directed, IndexOf;
    var e := At(NewServer(r));
    ToServerOne(Delivery(e, NOBODY, Unpack(disk)), e);
    ApplyAllOne(WouldBe(st, e), Unpack(disk));
    DirectedAt(st, st', [Delivery(e, NOBODY, Unpack(disk))], e);
  }

  lemma RegisterHonest(st: State, r: Registration, disk: set<Path>)
    requires PathIndex.WellFormed(st.index) && Inv(st) && Enabled(st, Register(r, disk)) && Honest(st)
    ensures Honest(AfterRegister(st, r, disk)) <==> HonestGuard(st, Register(r, disk))
  {
    if Arrives(st, r) {
      ArrivalHonest(st, r, disk);
    } else {
      if Returning(st.servers, r) == |st.servers| {
        BackupLookupsEntries(st.index, st.servers);
        OnlyFoundInfos(st.index, AllBackupLookups(st.index, st.servers));
      }
      StaysHonest(st, Register(r, disk));
    }
  }

  lemma OnlyFoundInfos(ix: PathIndex.Index, ix': PathIndex.Index)
    requires ix'.trie == ix.trie && forall x <- ix'.cache :: OldOrRight(ix, x)
    ensures Infos(ix') <= Infos(ix)
  {
    forall x <- ix'.cache ensures x.info in Infos(ix) { assert OldOrRight(ix, x); }
  }

  /** From a state in which every answer has its file, a request or event leads to such a
      state exactly when its guard holds: only registration of paths that the server does
      not have, and deletions, can break it. */
  lemma StepHonestExact(st: State, s: Step)
    requires PathIndex.WellFormed(st.index) && Inv(st) && Enabled(st, s) && Honest(st)
    ensures Honest(Next(st, s)) <==> HonestGuard(st, s)
  {
    hide Inv, Honest, Enabled, AfterRegister, AfterCreate, AfterDeleteRequest, AfterRefusedDelete, AfterCopyRequest, AfterFileCopy;
    match s
    case Register(r, disk) => RegisterHonest(st, r, disk);
    case CreateFile(d, f) => CreateHonest(st, d, f);
    case DeleteFile(p) => DeleteHonest(st, p, false);
    case DeleteRefused(p) => DeleteHonest(st, p, true);
    case CopyDir(src, dst) => CopyHonest(st, src, dst);
    case CopyFile(src, dst) => CopyHonest(st, src, dst);
    case _ => OthersHonest(st, s);
  }

  lemma OthersHonest(st: State, s: Step)
    requires PathIndex.WellFormed(st.index) && Inv(st) && Enabled(st, s) && Honest(st)
    requires s.ReadFile? || s.LookUp? || s.Lost? || s.Transfer?
    ensures Honest(Next(st, s))
  {
    hide Inv, Honest, PathIndex.AfterFind;
    if s.ReadFile? || s.LookUp? { LookupInfos(st, s.path, s.path); }
    StaysHonest(st, s);
  }

  // ----- whole runs

  ghost predicate HonestlyRun(steps: seq<Step>) {
    steps == [] ||
    (HonestlyRun(steps[..|steps| - 1]) && HonestGuard(Run(EMPTY_STATE, steps[..|steps| - 1]), steps[|steps| - 1]))
  }

  ghost predicate AlwaysHonest(steps: seq<Step>) {
    (steps == [] || AlwaysHonest(steps[..|steps| - 1])) && Honest(Run(EMPTY_STATE, steps))
  }

  /** Over any run of the cluster from its start: at every moment each answer names a server
      that has the file, up to pending commands, if and only if every registration and every
      deletion met its guard. */
  lemma {:induction false} HonestyExact(steps: seq<Step>)
    requires Possible(EMPTY_STATE, steps)
    ensures AlwaysHonest(steps) <==> HonestlyRun(steps)
  {
    if steps != [] {
      var before, s := steps[..|steps| - 1], steps[|steps| - 1];
      HonestyExact(before);
      if HonestlyRun(before) {
        var run := ClusterIndexRun(before);
        DeferredLog(EMPTY_STATE, before);
        StepHonestExact(Run(EMPTY_STATE, before), s);
      }
    }
  }

  // ----- what breaks it, and what it is good for

  /** Where cache and records agree, the guard of a deletion is about records alone: the one
      that goes counts only if it stays cached. */
  lemma SoundDelete(st: State, p: Path, refused: bool)
    requires Sound(st.index) && DeleteSent(st, p)
    ensures
      var e := Owner(PathIndex.Answer(st.index, p).value);
      DeleteSpares(st, p, refused) <==>
        forall x <- st.index.trie.files | x != TakenKey(st.index, p) || !DeleteGuard(st.index, p) ::
          !Loses(st.servers, e, p, refused, st.index.trie.files[x])
  {
    hide Loses;
    var ix := st.index;
    RemainingMeaning(ix, p);
    TakenKeyMeaning(ix, p);
    RemainingRecords(ix, p);
  }

  lemma RemainingRecords(ix: PathIndex.Index, p: Path)
    requires Sound(ix) && PathIndex.Answer(ix, p).Some?
    ensures forall info :: info in Remaining(ix, p) <==>
              exists x :: x in ix.trie.files && (x != TakenKey(ix, p) || !DeleteGuard(ix, p)) && ix.trie.files[x] == info
  {
    var k, c := TakenKey(ix, p), PathIndex.CacheAfterDelete(ix, p);
    RemainingMeaning(ix, p);
    TakenKeyMeaning(ix, p);
    DeletedKeyStaysCached(ix, p);
    EntriesAreRecords(ix, p);
    PathIndex.KeysHave(c, k);
    DeletedInfos(ix, p);
    SameInfos(ix.trie.files, k, c, !DeleteGuard(ix, p), Remaining(ix, p));
    hide PathIndex.AfterDelete, PathIndex.CacheAfterDelete, PathIndex.KeyDeleted, DeleteGuard, Remaining, TakenKey;
  }

  lemma DeletedInfos(ix: PathIndex.Index, p: Path)
    requires PathIndex.Answer(ix, p).Some?
    ensures Infos(PathIndex.AfterDelete(ix, p)) ==
      (ix.trie.files - {PathIndex.KeyDeleted(ix, p)}).Values + set x | x in PathIndex.CacheAfterDelete(ix, p) :: x.info
  {
    hide PathIndex.KeyDeleted, PathIndex.CacheAfterDelete;
  }

  /** Entries that repeat records add at most that of the key taken out. */
  lemma SameInfos(files: map<Path, FileInfo>, k: Path, c: seq<Entry>, stays: bool, infos: set<FileInfo>)
    requires infos == (files - {k}).Values + set x | x in c :: x.info
    requires forall x <- c :: Lookup(files, x.key) == Some(x.info)
    requires stays <==> exists e :: e in c && e.key == k
    ensures forall info :: info in infos <==>
              exists x :: x in files && (x != k || stays) && files[x] == info
  {
    forall info | info in infos
      ensures exists x :: x in files && (x != k || stays) && files[x] == info
    {
      if info in (files - {k}).Values {
        var x :| x in files - {k} && (files - {k})[x] == info;
        assert x in files && x != k && files[x] == info;
      } else {
        var e: Entry :| e in c && e.info == info;
        assert Lookup(files, e.key) == Some(info);
        assert e.key in files && (e.key != k || stays) && files[e.key] == info;
      }
    }
    forall x | x in files && (x != k || stays)
      ensures files[x] in infos
    {
      if x != k {
        assert (files - {k})[x] == files[x];
      } else {
        var e: Entry :| e in c && e.key == k;
        assert Lookup(files, e.key) == Some(e.info);
      }
    }
  }

  lemma EntriesAreRecords(ix: PathIndex.Index, p: Path)
    requires Sound(ix) && PathIndex.Answer(ix, p).Some?
    ensures forall x <- PathIndex.CacheAfterDelete(ix, p) :: Lookup(ix.trie.files, x.key) == Some(x.info)
  {
    PathIndex.FindCoherent(ix, p);
    PathIndex.FindWellFormed(ix, p);
    PathIndex.DroppedEntries(PathIndex.AfterFind(ix, p).cache, PathIndex.Answer(ix, p).value.filePath);
  }
  /** Where, besides, all records name their own paths: an executed deletion must find its path
      uncached or cached alone, with no other record of the owner at or below it; one that is
      refused is about the backups only. */
  lemma SelfNamedSpares(st: State, p: Path)
    requires Sound(st.index) && PathIndex.SelfNamed(st.index) && DeleteSent(st, p) && Inv(st)
    ensures
      var ix, t, e := st.index, st.servers, Owner(PathIndex.Answer(st.index, p).value);
      && (DeleteSpares(st, p, false) <==>
            && (p in Keys(ix.cache) ==> |ix.cache| == 1)
            && forall x <- ix.trie.files | x != p :: !Loses(t, e, p, false, ix.trie.files[x]))
      && (DeleteSpares(st, p, true) <==> forall x <- ix.trie.files :: !Loses(t, e, p, true, ix.trie.files[x]))
  {
    hide LosesCopy, IndexOf, Inv;
    var ix, t, e := st.index, st.servers, Owner(PathIndex.Answer(st.index, p).value);
    SoundDelete(st, p, false);
    SoundDelete(st, p, true);
    PathIndex.FindCoherent(ix, p);
    SelfNamedDelete(ix, p);
    KeyDeletedExact(ix, p);
    TakenKeyMeaning(ix, p);
    OwnerKeeps(st, e, p, ix.trie.files[p]);
  }

  /** A server backs up others only. */
  lemma OwnerKeeps(st: State, e: Endpoint, p: Path, info: FileInfo)
    requires Inv(st) && Known(st.servers, e) && Owner(info) == e
    ensures !Loses(st.servers, e, p, true, info)
  {
    assert BothBack(st.servers, IndexOf(st.servers, e));
  }

  /** Three ways in which a deletion leaves a record for a file that its owner removes: it
      takes another record than that of its path; it removes a directory with recorded paths
      below; a copy has put the record of the file, with its path, elsewhere as well. By
      SoundDelete there are no others but what backups lose. */
  lemma DeletionsThatBreak(st: State, p: Path, x: Path)
    requires PathIndex.WellFormed(st.index) && DeleteSent(st, p) && x in st.index.trie.files
    requires Owner(st.index.trie.files[x]) == Owner(PathIndex.Answer(st.index, p).value)
    requires
      var name, own := st.index.trie.files[x].filePath, DeletesItself(st.index, p);
      (x == p == name && !own) || (x == name != p && Under(p, x) && own) || (x != p == name && own)
    ensures !HonestGuard(st, DeleteFile(p))
  {
    KeyDeletedExact(st.index, p);
    TakenKeyMeaning(st.index, p);
    assert st.index.trie.files[x] in Remaining(st.index, p);
  }

  // ----- runs that break it

  /** The index and disk of one server, nothing cached for `p`: a deletion of `p` there. */
  lemma UncachedDelete(st: State, r: Registration, p: Path)
    requires st.servers == [NewServer(r)] && PathIndex.WellFormed(st.index)
    requires p !in Keys(st.index.cache) && p in st.index.trie.files && DOT in p && r.portNm != -1
    requires st.index.trie.files[p] == FileInfo(r.ip, r.portClient, p)
    ensures
      var next, e := AfterDeleteRequest(st, p), At(NewServer(r));
      && DeleteSent(st, p) && Owner(PathIndex.Answer(st.index, p).value) == e && DeletesItself(st.index, p)
      && next.index.trie.files == st.index.trie.files - {p}
      && next.disks == st.disks[e := Apply(Disk(st, e), Command.Delete(p))]
  {
    KeyDeletedExact(st.index, p);
    NobodyToldAgain(st.(index := PathIndex.AfterDelete(st.index, p)), At(NewServer(r)), Command.Delete(p));
  }

  /** The first server arrives with the paths that it has. */
  lemma FirstArrives(r: Registration, disk: set<Path>, paths: seq<Path>)
    requires Sendable(paths) && paths != [] && r.accessible == Joined(paths) && Somebody(At(NewServer(r)))
    requires forall p <- paths :: p in disk
    ensures
      var st := Next(EMPTY_STATE, Register(r, disk));
      && st.servers == [NewServer(r)] && Disk(st, At(NewServer(r))) == disk && PathIndex.WellFormed(st.index)
      && st.index.cache == [] && Keys(st.index.cache) == []
      && (forall q :: Lookup(st.index.trie.files, q) == if q in paths then Some(FileInfo(r.ip, r.portClient, q)) else None)
      && (forall q <- paths :: q in st.index.trie.nodes && q in st.index.trie.files)
      && Enabled(EMPTY_STATE, Register(r, disk)) && HonestGuard(EMPTY_STATE, Register(r, disk))
  {
    OneServer(r, disk, paths);
    TokensOfJoined(paths);
    JoinedHead(paths);
  }

  lemma RunOfTwo(s1: Step, s2: Step)
    ensures
      var st1 := Next(EMPTY_STATE, s1);
      && Run(EMPTY_STATE, [s1]) == st1 && Run(EMPTY_STATE, [s1] + [s2]) == Next(st1, s2)
      && (Possible(EMPTY_STATE, [s1]) <==> Enabled(EMPTY_STATE, s1))
      && (Possible(EMPTY_STATE, [s1] + [s2]) <==> Enabled(EMPTY_STATE, s1) && Enabled(st1, s2))
      && (HonestlyRun([s1]) <==> HonestGuard(EMPTY_STATE, s1))
      && (HonestlyRun([s1] + [s2]) <==> HonestGuard(EMPTY_STATE, s1) && HonestGuard(st1, s2))
  {
    hide Next, Enabled, HonestGuard;
    assert ([s1] + [s2])[..1] == [s1] && [s1][..0] == [];
    assert Run(EMPTY_STATE, []) == EMPTY_STATE;
    assert Run(EMPTY_STATE, [s1]) == Next(EMPTY_STATE, s1);
  }

  lemma RunOneMore(before: seq<Step>, s: Step)
    ensures Run(EMPTY_STATE, before + [s]) == Next(Run(EMPTY_STATE, before), s)
    ensures Possible(EMPTY_STATE, before + [s]) <==>
      Possible(EMPTY_STATE, before) && Enabled(Run(EMPTY_STATE, before), s)
    ensures HonestlyRun(before + [s]) <==> HonestlyRun(before) && HonestGuard(Run(EMPTY_STATE, before), s)
  {
    assert (before + [s])[..|before|] == before;
  }

  /** The run of Coherence.DeleteTakesAnother: DELETE of the file looked up last takes the
      record of the one looked up before it. */
  lemma DeleteOfAnother(r: Registration, disk: set<Path>, a: Path, b: Path)
    requires Sendable([a, b]) && r.accessible == Joined([a, b]) && Somebody(At(NewServer(r))) && r.portNm != -1
    requires a != b && DOT in b && a in disk && b in disk
    ensures
      var before := [Register(r, disk)] + [LookUp(a)] + [LookUp(b)];
      Possible(EMPTY_STATE, before) && AlwaysHonest(before) && !HonestlyRun(before + [DeleteFile(b)])
  {
    var s1, s2, s3, s4 := Register(r, disk), LookUp(a), LookUp(b), DeleteFile(b);
    var st1 := Next(EMPTY_STATE, s1);
    var st := Next(Next(st1, s2), s3);
    assert HonestGuard(st1, s2) && HonestGuard(Next(st1, s2), s3);
    hide Next, Enabled, HonestGuard, Honest, StepGuard;
    RunOfTwo(s1, s2);
    RunOneMore([s1] + [s2], s3);
    RunOneMore([s1] + [s2] + [s3], s4);
    FirstArrives(r, disk, [a, b]);
    ReadyToDelete(r, disk, a, b);
    AnotherTaken(st, r, a, b);
    HonestyExact([s1] + [s2] + [s3]);
  }

  lemma AnotherTaken(st: State, r: Registration, a: Path, b: Path)
    requires st.servers == [NewServer(r)] && a != b && DOT in b && r.portNm != -1
    requires st.index.cache == [Entry(b, FileInfo(r.ip, r.portClient, b)), Entry(a, FileInfo(r.ip, r.portClient, a))]
    requires Lookup(st.index.trie.files, b) == Some(FileInfo(r.ip, r.portClient, b))
    ensures !HonestGuard(st, DeleteFile(b))
  {
    var ea, eb := Entry(a, FileInfo(r.ip, r.portClient, a)), Entry(b, FileInfo(r.ip, r.portClient, b));
    assert Keys([eb, ea]) == [b, a];
    assert Fronted([eb, ea], b) == [eb, ea];
    FirstAnswers(st.index, eb, [ea]);
    DeletionsThatBreak(st, b, b);
  }

  /** A server registers a directory and a file below it: DELETE of the directory leaves the
      record of the file. */
  lemma DeleteOfDirectory(r: Registration, disk: set<Path>, a: Path, b: Path)
    requires Sendable([a, b]) && r.accessible == Joined([a, b]) && Somebody(At(NewServer(r))) && r.portNm != -1
    requires a != b && Under(a, b) && DOT in a && a in disk && b in disk
    ensures
      var before := [Register(r, disk)];
      var steps := before + [DeleteFile(a)];
      var st := Run(EMPTY_STATE, steps);
      && Possible(EMPTY_STATE, steps) && AlwaysHonest(before) && !HonestlyRun(steps)
      && st.index.trie.files.Keys == {b} && b !in Disk(st, At(NewServer(r)))
  {
    hide Next, Under, Enabled, HonestGuard, Infos, DeleteSent;
    RunOfTwo(Register(r, disk), DeleteFile(a));
    FirstArrives(r, disk, [a, b]);
    DirectoryGone(Next(EMPTY_STATE, Register(r, disk)), r, a, b);
    HonestyExact([Register(r, disk)]);
  }

  lemma DirectoryGone(st: State, r: Registration, a: Path, b: Path)
    requires st.servers == [NewServer(r)] && st.index.cache == [] && Keys(st.index.cache) == []
    requires forall q :: Lookup(st.index.trie.files, q) == if q in [a, b] then Some(FileInfo(r.ip, r.portClient, q)) else None
    requires a != b && Under(a, b) && DOT in a && r.portNm != -1
    ensures
      var next := Next(st, DeleteFile(a));
      && Enabled(st, DeleteFile(a)) && !HonestGuard(st, DeleteFile(a))
      && next.index.trie.files.Keys == {b} && b !in Disk(next, At(NewServer(r)))
  {
    hide DeleteSent, AfterDeleteRequest, HonestGuard, IndexOf, PathIndex.Answer;
    var files := st.index.trie.files;
    forall q ensures q in files <==> q in [a, b] { assert Lookup(files, q).Some? <==> q in [a, b]; }
    assert Lookup(files, a) == Some(files[a]) && Lookup(files, b) == Some(files[b]);
    UncachedDelete(st, r, a);
    DeletionsThatBreak(st, a, b);
  }

  /** The directory with the file is copied: DELETE of the file takes its own record, and
      leaves the one that the copy made, which still names it. */
  lemma DeleteOfCopySource(r: Registration, disk: set<Path>, src: Path, dst: Path, below: Path)
    requires Sendable([src, src + below, dst]) && r.accessible == Joined([src, src + below, dst])
    requires Somebody(At(NewServer(r))) && r.portNm != -1 && DOT in src + below
    requires !(src <= dst) && !(dst <= src) && below != [] && src in disk && src + below in disk && dst in disk
    ensures
      var before := [Register(r, disk)] + [CopyDir(src, dst)];
      var steps := before + [DeleteFile(src + below)];
      var st := Run(EMPTY_STATE, steps);
      && Possible(EMPTY_STATE, steps) && AlwaysHonest(before) && !HonestlyRun(steps)
      && src + below !in st.index.trie.files
      && PathIndex.Answer(st.index, dst + below) == Some(FileInfo(r.ip, r.portClient, src + below))
      && src + below !in Disk(st, At(NewServer(r)))
  {
    var s1, s2, s3, p := Register(r, disk), CopyDir(src, dst), DeleteFile(src + below), src + below;
    var st1 := Next(EMPTY_STATE, s1);
    var st2 := Next(st1, s2);
    RunOfTwo(s1, s2);
    RunOneMore([s1] + [s2], s3);
    FirstArrives(r, disk, [src, p, dst]);
    CopyRequested(st1, r, src, dst, below);
    assert Enabled(st1, s2) && HonestGuard(st1, s2) && Enabled(st2, s3);
    UncachedDelete(st2, r, p);
    DeletionsThatBreak(st2, p, dst + below);
    CopyLeft(st2, r, p, dst + below);
    HonestyExact([s1] + [s2]);
  }

  lemma CopyRequested(st: State, r: Registration, src: Path, dst: Path, below: Path)
    requires !(src <= dst) && !(dst <= src) && below != []
    requires st.servers == [NewServer(r)] && st.index.cache == [] && Keys(st.index.cache) == []
    requires src in st.index.trie.nodes && src in st.index.trie.files && dst in st.index.trie.files
    requires
      forall q <- [src, src + below, dst] :: Lookup(st.index.trie.files, q) == Some(FileInfo(r.ip, r.portClient, q))
    ensures
      var next := Next(st, CopyDir(src, dst));
      && next.servers == st.servers && next.disks == st.disks && PathIndex.WellFormed(next.index)
      && Keys(next.index.cache) == [dst, src] && src + below !in [dst, src] && dst + below !in [dst, src]
      && Lookup(next.index.trie.files, src + below) == Some(FileInfo(r.ip, r.portClient, src + below))
      && Lookup(next.index.trie.files, dst + below) == Some(FileInfo(r.ip, r.portClient, src + below))
      && src + below in next.index.trie.files && dst + below in next.index.trie.files && dst + below != src + below
  {
    hide CopySent, PathIndex.AfterCopy, IndexOf, Next, PathIndex.WellFormed;
    assert src in [src, src + below, dst] && src + below in [src, src + below, dst] && dst in [src, src + below, dst];
    BothServed(st, r, src, dst);
    CopiedIndex(st.index, FileInfo(r.ip, r.portClient, src + below), src, dst, below);
    CopiedState(st, src, dst);
  }

  lemma CopiedState(st: State, src: Path, dst: Path)
    requires CopySent(st, src, dst)
    ensures Next(st, CopyDir(src, dst)) == st.(index := PathIndex.AfterCopy(st.index, src, dst))
  {
  }

  lemma CopiedIndex(ix: PathIndex.Index, info: FileInfo, src: Path, dst: Path, below: Path)
    requires !(src <= dst) && !(dst <= src) && below != [] && ix.cache == []
    requires src in ix.trie.nodes && src in ix.trie.files && dst in ix.trie.files
    requires Lookup(ix.trie.files, src + below) == Some(info)
    ensures
      var next := PathIndex.AfterCopy(ix, src, dst);
      && PathIndex.WellFormed(next)
      && Keys(next.cache) == [dst, src] && src + below !in [dst, src] && dst + below !in [dst, src]
      && Lookup(next.trie.files, src + below) == Some(info) && Lookup(next.trie.files, dst + below) == Some(info)
      && src + below in next.trie.files && dst + below in next.trie.files && dst + below != src + below
  {
    hide PathIndex.AfterCopy, Copied;
    CopyKeys(ix, src, dst);
    PathIndex.NextWellFormed(ix, PathIndex.Copy(src, dst));
    assert src + below in ix.trie.files by { assert Lookup(ix.trie.files, src + below).Some?; }
    CopiedBelow(ix.trie, src, dst, below);
    CopyMeaning(ix.trie, src, dst, src + below);
    assert (src + below)[..|src|] == src && (dst + below)[..|dst|] == dst;
    CopiedTrie(ix, src, dst);
    assert Lookup(Copied(ix.trie, src, dst).files, dst + below).Some?;
  }

  lemma CopiedTrie(ix: PathIndex.Index, src: Path, dst: Path)
    ensures PathIndex.AfterCopy(ix, src, dst).trie == Copied(ix.trie, src, dst)
  {
  }

  lemma BothServed(st: State, r: Registration, src: Path, dst: Path)
    requires st.servers == [NewServer(r)] && st.index.cache == [] && Keys(st.index.cache) == []
    requires src != dst && src in st.index.trie.files && dst in st.index.trie.files
    requires forall q <- [src, dst] :: Lookup(st.index.trie.files, q) == Some(FileInfo(r.ip, r.portClient, q))
    ensures CopySent(st, src, dst)
  {
    assert src in [src, dst] && dst in [src, dst];
    assert Keys([Entry(src, st.index.trie.files[src])]) == [src];
  }

  lemma CopyLeft(st: State, r: Registration, p: Path, x: Path)
    requires st.servers == [NewServer(r)] && PathIndex.WellFormed(st.index) && x != p
    requires p !in Keys(st.index.cache) && p in st.index.trie.files && DOT in p && r.portNm != -1
    requires st.index.trie.files[p] == FileInfo(r.ip, r.portClient, p)
    requires x !in Keys(st.index.cache) && Lookup(st.index.trie.files, x) == Some(FileInfo(r.ip, r.portClient, p))
    ensures
      var next := AfterDeleteRequest(st, p);
      && PathIndex.Answer(next.index, x) == Some(FileInfo(r.ip, r.portClient, p))
      && p !in Disk(next, At(NewServer(r)))
  {
    UncachedDelete(st, r, p);
    DeletedIndex(st, p);
    var c, c' := PathIndex.AfterFind(st.index, p).cache, PathIndex.CacheAfterDelete(st.index, p);
    PathIndex.FindWellFormed(st.index, p);
    PathIndex.AddedEntries(st.index.cache, Entry(p, st.index.trie.files[p]));
    PathIndex.DroppedEntries(c, p);
    PathIndex.KeysHave(c', x);
    PathIndex.KeysHave(st.index.cache, x);
  }

  /** In honest runs, a READ that is sent to the owner names a file on its disk. */
  lemma ReadFindsFile(steps: seq<Step>, p: Path)
    requires Possible(EMPTY_STATE, steps) && HonestlyRun(steps)
    requires
      var st := Run(EMPTY_STATE, steps);
      PathIndex.Answer(st.index, p).Some? && Active(st.servers, Owner(PathIndex.Answer(st.index, p).value))
    ensures
      var st := Run(EMPTY_STATE, steps);
      && Read(st, p).Served? && Read(st, p).at == Owner(PathIndex.Answer(st.index, p).value)
      && Read(st, p).path in Disk(st, Read(st, p).at)
  {
    var st := Run(EMPTY_STATE, steps);
    HonestyExact(steps);
    DeferredLog(EMPTY_STATE, steps);
    var run := ClusterIndexRun(steps);
    FindInfos(st.index, p);
    assert Present(st, PathIndex.Answer(st.index, p).value);
    CaughtUpDisk(st, Owner(PathIndex.Answer(st.index, p).value));
  }

  /** And one that is sent to a backup finds the copy there, under the conditions of
      MirrorConvergence since the backup was assigned. */
  lemma ReadFindsCopy(before: seq<Step>, steps: seq<Step>, q: Path, e: Endpoint, b: Endpoint)
    requires Possible(EMPTY_STATE, before + steps) && HonestlyRun(before + steps) && q != []
    requires
      var st := Run(EMPTY_STATE, before);
      && |st.servers| >= 3 && Mirrored(st.servers, e, b) && SteadyRun(st, steps)
      && Apart(Log(st, steps), e, q, b, CopyOf(st.servers, b, q))
      && (Agree(st, e, q, b, CopyOf(st.servers, b, q)) || Touched(Log(st, steps), e, q))
    requires
      var now := Run(EMPTY_STATE, before + steps);
      && PathIndex.Answer(now.index, q) == Some(FileInfo(e.ip, e.port, q))
      && Read(now, q).Served? && Read(now, q).at == b
    ensures
      var now := Run(EMPTY_STATE, before + steps);
      Read(now, q).path in Disk(now, b)
  {
    RunThen(EMPTY_STATE, before, steps);
    HonestyExact(before + steps);
    DeferredLog(EMPTY_STATE, before);
    var now := Run(EMPTY_STATE, before + steps);
    var run := ClusterIndexRun(before + steps);
    FindInfos(now.index, q);
    assert Present(now, FileInfo(e.ip, e.port, q));
    ReadFromMirror(Run(EMPTY_STATE, before), steps, q, e, b);
  }

  lemma {:induction false} RunThen(st: State, before: seq<Step>, steps: seq<Step>)
    ensures Run(st, before + steps) == Run(Run(st, before), steps)
    ensures Possible(st, before + steps) <==> Possible(st, before) && Possible(Run(st, before), steps)
  {
    hide Next, Enabled;
    if steps == [] {
      assert before + steps == before;
    } else {
      var n := |steps| - 1;
      assert (before + steps)[..|before + steps| - 1] == before + steps[..n] && (before + steps)[|before + steps| - 1] == steps[n];
      RunThen(st, before, steps[..n]);
    }
  }
}
