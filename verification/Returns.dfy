/** A server that is lost and comes back: what is answered while it is away, and that it has
    what it missed. */
module Returns {
  import opened Types
  import opened PathMaps
  import opened PathLists
  import opened LookupCache
  import PathIndex
  import opened Cluster
  import opened Replication
  import Backups
  import opened Mirrors
  import opened Coherence
  import Records
  import Refusals
  import opened Outcomes

  /** The only server is lost: its files are answered no more. */
  lemma LostAlone(r: Registration, disk: set<Path>, p: Path)
    requires p != [] && CommaFree(p) && r.accessible == p && Somebody(At(NewServer(r))) && p in disk
    ensures
      var steps := [Register(r, disk)] + [Lost(r)];
      var before, now, e := Run(EMPTY_STATE, [Register(r, disk)]), Run(EMPTY_STATE, steps), Endpoint(r.ip, r.portClient);
      && Possible(EMPTY_STATE, steps)
      && Active(before.servers, e) && Read(before, p) == Served(e, p)
      && !Active(now.servers, e) && Read(now, p) == NotFound && Disk(now, e) == disk
  {
    hide Next, Inv, IndexOf;
    var s1, s2 := Register(r, disk), Lost(r);
    Records.RunOfTwo(s1, s2);
    assert Joined([p]) == p;
    Records.FirstArrives(r, disk, [p]);
    Refusals.StartsWell();
    StepDirected(EMPTY_STATE, s1);
    LostOnly(Next(EMPTY_STATE, s1), r, p);
  }

  lemma LostOnly(st: State, r: Registration, p: Path)
    requires Inv(st) && st.servers == [NewServer(r)] && Keys(st.index.cache) == []
    requires Lookup(st.index.trie.files, p) == Some(FileInfo(r.ip, r.portClient, p))
    ensures
      var now, e := Next(st, Lost(r)), Endpoint(r.ip, r.portClient);
      && Enabled(st, Lost(r))
      && Active(st.servers, e) && Read(st, p) == Served(e, p)
      && !Active(now.servers, e) && Read(now, p) == NotFound && Disk(now, e) == Disk(st, e)
  {
    hide Inv, AfterLost;
    var now, info := Next(st, Lost(r)), FileInfo(r.ip, r.portClient, p);
    LostOutcome(st, r, 0);
    StepDirected(st, Lost(r));
    EntryAt(st.servers, 0, Endpoint(r.ip, r.portClient)) by { assert DistinctAddresses(st.servers); }
    ReadOutcome(st, p, info, 0);
    ReadOutcome(now, p, info, 0);
    assert NOBODY != At(NewServer(r)) by { RealServer(st, At(NewServer(r))); }
  }

  /** A backup, entry `j`, is lost, a file is created on the server that it backs, entry `i`, and
      it comes back: away, its disk stays as it was; back, it is active with an empty log and
      has its copy of the file, with the directories above. */
  lemma MissedCreate(st: State, d: Path, f: Path, info: FileInfo, i: nat, j: nat, r: Registration, disk: set<Path>)
    requires Inv(st) && PathIndex.Answer(st.index, d) == Some(info)
    requires PathIndex.Answer(PathIndex.AfterFind(st.index, d), d + [47] + f) == None
    requires i < |st.servers| && st.servers[i].ip == info.ip && st.servers[i].portClient == info.port
    requires st.servers[i].isActive && st.servers[i].portNm != -1
    requires j < |st.servers| && i != j && BackupOf(st.servers, i, j) && st.servers[j].isActive
    requires
      var s := st.servers[j];
      s.ip == r.ip && s.portNm == r.portNm && s.portClient == r.portClient && s.ssPort == r.ssPort
    ensures
      var away := Next(Next(st, Lost(r)), CreateFile(d, f));
      var back, e, copy := Next(away, Register(r, disk)), Endpoint(r.ip, r.portClient), st.servers[j].root + [47] + d + [47] + f;
      && !Active(away.servers, e) && Disk(away, e) == Disk(st, e)
      && Active(back.servers, e) && Pending(back.servers, e) == []
      && forall q :: q in Disk(back, e) <==> q in Disk(st, e) || q == copy || exists k :: 0 < k < |copy| && copy[k] == 47 && q == copy[..k]
  {
    hide Inv, Apply, ApplyAll, IndexOf, Next, PathIndex.AfterFind, PathIndex.Answer;
    var lost := Next(st, Lost(r));
    var away := Next(lost, CreateFile(d, f));
    var e, root := Endpoint(r.ip, r.portClient), st.servers[j].root;
    LostOutcome(st, r, j);
    AlwaysPossible(st, r, d, f);
    StepDirected(st, Lost(r));
    StepDirected(lost, CreateFile(d, f));
    CreateOutcome(lost, d, f, info, i, j);
    AwayLog(st, j);
    ReturnOutcome(away, r, disk, j);
    EntryAt(away.servers, j, e) by { assert DistinctAddresses(away.servers) by { InvDistinct(away); } }
    var c := Create(root + [47] + d, f);
    forall q ensures q in ApplyAll(Disk(st, e), away.servers[j].commands) <==> q in Apply(Disk(st, e), c) {
      OnceOrTwice(Disk(st, e), c, away.servers[j].commands, q);
    }
    forall q { CommandOutcome(Disk(st, e), root + [47] + d, f, [], {}, q); }
  }

  lemma InvDistinct(st: State)
    requires Inv(st)
    ensures DistinctAddresses(st.servers)
  {
  }

  lemma AwayLog(st: State, j: nat)
    requires Inv(st) && j < |st.servers| && st.servers[j].isActive
    ensures st.servers[j].commands == []
  {
  }

  lemma AlwaysPossible(st: State, r: Registration, d: Path, f: Path)
    ensures Enabled(st, Lost(r)) && Enabled(Next(st, Lost(r)), CreateFile(d, f))
  {
  }

  /** A run from the start: three servers register, the second, which backs the first, is lost, a
      file is created in the directory of the first, and the second comes back with its copy. */
  lemma MissedAndCaughtUp(r1: Registration, d1: set<Path>, r2: Registration, d2: set<Path>, r3: Registration, d3: set<Path>,
                          f: Path, disk: set<Path>)
    requires Refusals.Three(r1, d1, r2, d2, r3)
    requires
      var full := r1.accessible + [47] + f;
      full != r2.accessible && full != r3.accessible && r2.accessible + [47] + full !in d2
    ensures
      var steps := [Register(r1, d1), Register(r2, d2), Register(r3, d3)] + [Lost(r2)]
                     + [CreateFile(r1.accessible, f)] + [Register(r2, disk)];
      var away, now := Run(EMPTY_STATE, steps[..5]), Run(EMPTY_STATE, steps);
      var e, copy := Endpoint(r2.ip, r2.portClient), r2.accessible + [47] + r1.accessible + [47] + f;
      && Possible(EMPTY_STATE, steps)
      && !Active(away.servers, e) && copy !in Disk(away, e)
      && Active(now.servers, e) && copy in Disk(now, e) && Pending(now.servers, e) == []
  {
    hide Next, Inv, IndexOf, Enabled, StepGuard, Run, Possible, Active, Disk, Pending, ThreeRegistered;
    var s1, s2, s3 := Register(r1, d1), Register(r2, d2), Register(r3, d3);
    var s4, s5, s6 := Lost(r2), CreateFile(r1.accessible, f), Register(r2, disk);
    Registered(r1, d1, r2, d2, r3, d3);
    RunThree([s1, s2, s3], s4, s5, s6);
    assert ([s1, s2, s3] + [s4] + [s5] + [s6])[..5] == [s1, s2, s3] + [s4] + [s5];
    MissedFrom(Run(EMPTY_STATE, [s1, s2, s3]), r1, r2, d2, r3, f, disk);
  }

  lemma RunThree(first: seq<Step>, a: Step, b: Step, c: Step)
    requires Possible(EMPTY_STATE, first)
    ensures
      var st := Run(EMPTY_STATE, first);
      && Run(EMPTY_STATE, first + [a] + [b]) == Next(Next(st, a), b)
      && Run(EMPTY_STATE, first + [a] + [b] + [c]) == Next(Next(Next(st, a), b), c)
      && (Enabled(st, a) && Enabled(Next(st, a), b) && Enabled(Next(Next(st, a), b), c) ==>
            Possible(EMPTY_STATE, first + [a] + [b] + [c]))
  {
    hide Next, Enabled, Records.HonestGuard;
    Records.RunOneMore(first, a);
    Records.RunOneMore(first + [a], b);
    Records.RunOneMore(first + [a] + [b], c);
  }

  /** The state after the three registered. */
  lemma Registered(r1: Registration, d1: set<Path>, r2: Registration, d2: set<Path>, r3: Registration, d3: set<Path>)
    requires Refusals.Three(r1, d1, r2, d2, r3)
    ensures
      var first := [Register(r1, d1), Register(r2, d2), Register(r3, d3)];
      var st := Run(EMPTY_STATE, first);
      Possible(EMPTY_STATE, first) && ThreeRegistered(st, r1, r2, r3) && Disk(st, Endpoint(r2.ip, r2.portClient)) == d2
  {
    hide Next, Inv, IndexOf, Enabled, StepGuard;
    var s1, s2, s3 := Register(r1, d1), Register(r2, d2), Register(r3, d3);
    RunOfFour(s1, s2, s3, Lost(r2));
    Refusals.ThreeArrive(r1, d1, r2, d2, r3, d3);
    Refusals.StartsWell();
    DeferredLog(EMPTY_STATE, [s1, s2, s3]);
  }

  lemma MissedFrom(st: State, r1: Registration, r2: Registration, d2: set<Path>, r3: Registration, f: Path, disk: set<Path>)
    requires ThreeRegistered(st, r1, r2, r3) && Disk(st, Endpoint(r2.ip, r2.portClient)) == d2
    requires r1.accessible + [47] + f != r2.accessible && r1.accessible + [47] + f != r3.accessible
    requires r2.accessible + [47] + (r1.accessible + [47] + f) !in d2
    requires r2.accessible != [] && CommaFree(r2.accessible) && Somebody(At(NewServer(r2)))
    ensures
      var lost := Next(st, Lost(r2));
      var away := Next(lost, CreateFile(r1.accessible, f));
      var now, e := Next(away, Register(r2, disk)), Endpoint(r2.ip, r2.portClient);
      var copy := r2.accessible + [47] + r1.accessible + [47] + f;
      && Enabled(st, Lost(r2)) && Enabled(lost, CreateFile(r1.accessible, f)) && Enabled(away, Register(r2, disk))
      && !Active(away.servers, e) && copy !in Disk(away, e)
      && Active(now.servers, e) && copy in Disk(now, e) && Pending(now.servers, e) == []
  {
    hide Next, Inv, IndexOf, Enabled;
    ReadyToMiss(st, r1, r2, r3, f);
    AlwaysPossible(st, r2, r1.accessible, f);
    MayReturn(st, r1, r2, r3, f, disk);
    MissedCreate(st, r1.accessible, f, FileInfo(r1.ip, r1.portClient, r1.accessible), 0, 1, r2, disk);
    assert r2.accessible + [47] + (r1.accessible + [47] + f) == r2.accessible + [47] + r1.accessible + [47] + f;
  }

  ghost predicate ThreeRegistered(st: State, r1: Registration, r2: Registration, r3: Registration) {
    && Inv(st) && Sound(st.index)
    && st.servers == WithBackups([NewServer(r1), NewServer(r2), NewServer(r3)])
    && NewServer(r2).root == r2.accessible && r1.portNm != -1
    && r1.accessible != r2.accessible && r1.accessible != r3.accessible
    && forall x :: Lookup(st.index.trie.files, x) ==
         if x == r3.accessible then Some(FileInfo(r3.ip, r3.portClient, x))
         else if x == r2.accessible then Some(FileInfo(r2.ip, r2.portClient, x))
         else if x == r1.accessible then Some(FileInfo(r1.ip, r1.portClient, x)) else None
  }

  /** What MissedCreate asks for. */
  lemma ReadyToMiss(st: State, r1: Registration, r2: Registration, r3: Registration, f: Path)
    requires ThreeRegistered(st, r1, r2, r3)
    requires r1.accessible + [47] + f != r2.accessible && r1.accessible + [47] + f != r3.accessible
    ensures PathIndex.Answer(st.index, r1.accessible) == Some(FileInfo(r1.ip, r1.portClient, r1.accessible))
    ensures PathIndex.Answer(PathIndex.AfterFind(st.index, r1.accessible), r1.accessible + [47] + f) == None
    ensures |st.servers| == 3 && BackupOf(st.servers, 0, 1)
    ensures st.servers[0] == NewServer(r1).(backup1 := st.servers[0].backup1, backup2 := st.servers[0].backup2)
    ensures st.servers[1] == NewServer(r2).(backup1 := st.servers[1].backup1, backup2 := st.servers[1].backup2)
  {
    hide WithBackups, Inv, PathIndex.AfterFind, Sound;
    Refusals.SoundParts(st.index);
    FindSound(st.index, r1.accessible);
    Backups.FirstBackups([NewServer(r1), NewServer(r2), NewServer(r3)]);
    assert PathIndex.Answer(st.index, r1.accessible) == Lookup(st.index.trie.files, r1.accessible);
    var full := r1.accessible + [47] + f;
    assert |full| > |r1.accessible|;
    assert PathIndex.Answer(st.index, full) == Lookup(st.index.trie.files, full);
  }

  lemma MayReturn(st: State, r1: Registration, r2: Registration, r3: Registration, f: Path, disk: set<Path>)
    requires ThreeRegistered(st, r1, r2, r3)
    requires r1.accessible + [47] + f != r2.accessible && r1.accessible + [47] + f != r3.accessible
    requires r2.accessible != [] && CommaFree(r2.accessible) && Somebody(At(NewServer(r2)))
    ensures Enabled(Next(Next(st, Lost(r2)), CreateFile(r1.accessible, f)), Register(r2, disk))
  {
    hide Inv, Next, Apply, IndexOf, PathIndex.AfterFind, PathIndex.Answer;
    ReadyToMiss(st, r1, r2, r3, f);
    var lost := Next(st, Lost(r2));
    LostOutcome(st, r2, 1);
    AlwaysPossible(st, r2, r1.accessible, f);
    StepDirected(st, Lost(r2));
    assert Joined([r2.accessible]) == r2.accessible;
    JoinedHead([r2.accessible]);
    CreateOutcome(lost, r1.accessible, f, FileInfo(r1.ip, r1.portClient, r1.accessible), 0, 1);
    var away := Next(lost, CreateFile(r1.accessible, f));
    assert SameIdentity(away.servers[1], r2) && !away.servers[1].isActive;
    assert Returning(away.servers, r2) <= 1;
  }
}
