/** Mirrors when deletions are refused: a storage server refuses to delete what a client
    reads or writes, but the naming server tells its backups all the same. When exactly that
    parts a server from its backup, over all runs of the cluster. */
module Refusals {
  import opened Types
  import opened PathMaps
  import opened PathLists
  import PathIndex
  import opened Cluster
  import opened Replication
  import opened Backups
  import opened Mirrors
  import opened Coherence

  // ----- one step

  /** The step is a deletion that `e` refuses. */
  ghost predicate RefusedBy(st: State, s: Step, e: Endpoint) {
    s.DeleteRefused? && DeleteSent(st, s.path) && Owner(PathIndex.Answer(st.index, s.path).value) == e
  }

  /** A command that only the backups of `e` get. */
  lemma OnBackupOnly(st: State, st': State, e: Endpoint, b: Endpoint, c: Command, q: Path)
    requires Inv(st) && Mirrored(st.servers, e, b) && q != [] && c.Delete?
    requires Directed(st, st', ToBackups(st.servers, e, c))
    ensures q in WouldBe(st', e) <==> q in WouldBe(st, e)
    ensures CopyOf(st.servers, b, q) in WouldBe(st', b) <==> CopyOf(st.servers, b, q) in WouldBe(st, b) && !Touches(c, q)
  {
    hide Inv, WouldBe, Apply, Forwards, IndexOf, Touches;
    var root, log := ServerAt(st.servers, b).root, ToBackups(st.servers, e, c);
    ForwardsToBackup(st, e, b, NOBODY, c);
    TouchesMirrored(root, c, q);
    OnceOrTwice(WouldBe(st, b), Prefixed(root, c), ToServer(log, b), Slashed(root, q));
    ApplyAt(WouldBe(st, b), Prefixed(root, c), Slashed(root, q));
    assert WouldBe(st', e) == ApplyAll(WouldBe(st, e), ToServer(log, e));
    assert WouldBe(st', b) == ApplyAll(WouldBe(st, b), ToServer(log, b));
  }

  /** After a deletion that the owner refuses, a path and its copy agree exactly when the path
      is elsewhere and they agreed before, or is at or below the deleted one and the owner does
      not have it: what it has it keeps, and its backup loses. */
  lemma RefusalExact(st: State, p: Path, e: Endpoint, b: Endpoint, q: Path)
    requires Inv(st) && Mirrored(st.servers, e, b) && RefusedBy(st, DeleteRefused(p), e) && q != []
    ensures
      var next, copy := Next(st, DeleteRefused(p)), CopyOf(st.servers, b, q);
      && (q in WouldBe(next, e) <==> q in WouldBe(st, e))
      && (copy in WouldBe(next, b) <==> copy in WouldBe(st, b) && !Under(p, q))
      && (Agree(next, e, q, b, copy) <==> if Under(p, q) then q !in WouldBe(st, e) else Agree(st, e, q, b, copy))
  {
    hide Inv, Directed, WouldBe, AfterRefusedDelete, IndexOf;
    RefusedDirected(st, p);
    OnBackupOnly(st, Next(st, DeleteRefused(p)), e, b, Command.Delete(p), q);
  }

  /** A step that touches neither the path nor the copy. */
  lemma StepUntouched(st: State, s: Step, e: Endpoint, b: Endpoint, q: Path)
    requires Inv(st) && Enabled(st, s) && Mirrored(st.servers, e, b) && q != []
    requires Apart(Deliveries(st, s), e, q, b, CopyOf(st.servers, b, q)) && !Touched(Deliveries(st, s), e, q)
    ensures Agree(Next(st, s), e, q, b, CopyOf(st.servers, b, q)) <==> Agree(st, e, q, b, CopyOf(st.servers, b, q))
  {
    hide Inv, Enabled, WouldBe, Directed, Prefixed, IndexOf, Touches, Next, Deliveries;
    var st', log, copy, root := Next(st, s), Deliveries(st, s), CopyOf(st.servers, b, q), ServerAt(st.servers, b).root;
    StepDirected(st, s);
    TargetMeaning(st, s);
    DirectedAt(st, st', log, e);
    DirectedAt(st, st', log, b);
    if Target(st, s).Some? && Target(st, s).value.0 == e {
      var c := Target(st, s).value.1;
      assert !Touches(c, q) by { assert log[0] == Delivery(e, e, c) && log[0] in log; }
      BothServers(st, e, b, c);
      TouchesMirrored(root, c, q);
      OnceOrTwice(WouldBe(st, e), c, ToServer(log, e), q);
      OnceOrTwice(WouldBe(st, b), Prefixed(root, c), ToServer(log, b), copy);
      ApplyAt(WouldBe(st, e), c, q);
      ApplyAt(WouldBe(st, b), Prefixed(root, c), copy);
    } else {
      RealServer(st, e);
      OthersUntouched(WouldBe(st, e), log, e, q);
      OthersUntouched(WouldBe(st, b), log, b, copy);
    }
  }

  /** Nobody but `e` touches the path or the copy; deletions that `e` refuses count as its own. */
  ghost predicate ApartStep(st: State, s: Step, e: Endpoint, q: Path, b: Endpoint, copy: Path) {
    RefusedBy(st, s, e) || Apart(Deliveries(st, s), e, q, b, copy)
  }

  /** What a step makes of the agreement on a path. */
  lemma StepMirrorExact(st: State, s: Step, e: Endpoint, b: Endpoint, q: Path)
    requires Inv(st) && Enabled(st, s) && Mirrored(st.servers, e, b) && q != []
    requires ApartStep(st, s, e, q, b, CopyOf(st.servers, b, q))
    ensures Agree(Next(st, s), e, q, b, CopyOf(st.servers, b, q)) <==>
      if RefusedBy(st, s, e) && Under(s.path, q) then q !in WouldBe(st, e)
      else Touched(Deliveries(st, s), e, q) || Agree(st, e, q, b, CopyOf(st.servers, b, q))
  {
    hide Inv, Enabled, Agree, Apart, Next, WouldBe, IndexOf;
    if RefusedBy(st, s, e) {
      RefusalExact(st, s.path, e, b, q);
      RefusalTouchesNothing(st, s.path, e, q);
    } else if Touched(Deliveries(st, s), e, q) {
      StepMirrored(st, s, e, b, q);
    } else {
      StepUntouched(st, s, e, b, q);
    }
  }

  lemma RefusalTouchesNothing(st: State, p: Path, e: Endpoint, q: Path)
    requires Inv(st) && DeleteSent(st, p) && Known(st.servers, e)
    ensures !Touched(Deliveries(st, DeleteRefused(p)), e, q)
  {
    RealServer(st, e);
  }

  // ----- whole runs

  ghost predicate ApartRun(st: State, steps: seq<Step>, e: Endpoint, q: Path, b: Endpoint, copy: Path) {
    steps == [] ||
    (ApartRun(st, steps[..|steps| - 1], e, q, b, copy)
     && ApartStep(Run(st, steps[..|steps| - 1]), steps[|steps| - 1], e, q, b, copy))
  }

  /** The last thing that happened to the path is a refused deletion of what `e` has, or
      nothing since a start without agreement. */
  ghost predicate Parted(st: State, steps: seq<Step>, e: Endpoint, q: Path, b: Endpoint, copy: Path) {
    if steps == [] then !Agree(st, e, q, b, copy)
    else
      var before, s := Run(st, steps[..|steps| - 1]), steps[|steps| - 1];
      if RefusedBy(before, s, e) && Under(s.path, q) then q in WouldBe(before, e)
      else !Touched(Deliveries(before, s), e, q) && Parted(st, steps[..|steps| - 1], e, q, b, copy)
  }

  lemma StillMirrored(st: State, steps: seq<Step>, e: Endpoint, b: Endpoint, q: Path)
    requires Inv(st) && |st.servers| >= 3 && Mirrored(st.servers, e, b) && Possible(st, steps) && SteadyRun(st, steps)
    ensures
      var now := Run(st, steps);
      Inv(now) && Mirrored(now.servers, e, b) && CopyOf(now.servers, b, q) == CopyOf(st.servers, b, q)
  {
    RunKeepsRoles(st, steps);
    MirroredKept(st.servers, Run(st, steps).servers, e, b);
    DeferredLog(st, steps);
  }

  /** Over any steady run, refused deletions included: a path and its copy agree in the end if
      and only if they are not parted. */
  lemma {:induction false} MirrorExact(st: State, steps: seq<Step>, e: Endpoint, b: Endpoint, q: Path)
    requires Inv(st) && |st.servers| >= 3 && Mirrored(st.servers, e, b) && q != []
    requires Possible(st, steps) && SteadyRun(st, steps) && ApartRun(st, steps, e, q, b, CopyOf(st.servers, b, q))
    ensures Agree(Run(st, steps), e, q, b, CopyOf(st.servers, b, q)) <==> !Parted(st, steps, e, q, b, CopyOf(st.servers, b, q))
  {
    hide Inv, Enabled, Agree, ApartStep, Next, WouldBe, Mirrored, RefusedBy, Touched, Steady, CopyOf;
    if steps != [] {
      var before := steps[..|steps| - 1];
      MirrorExact(st, before, e, b, q);
      StillMirrored(st, before, e, b, q);
      StepMirrorExact(Run(st, before), steps[|steps| - 1], e, b, q);
    }
  }

  ghost predicate AlwaysAgree(st: State, steps: seq<Step>, e: Endpoint, q: Path, b: Endpoint, copy: Path) {
    Agree(Run(st, steps), e, q, b, copy) && (steps != [] ==> AlwaysAgree(st, steps[..|steps| - 1], e, q, b, copy))
  }

  /** No refused deletion meets the path, at or below its own, while `e` has it. */
  ghost predicate NoneParts(st: State, steps: seq<Step>, e: Endpoint, q: Path) {
    steps == [] ||
    (NoneParts(st, steps[..|steps| - 1], e, q) &&
     var before, s := Run(st, steps[..|steps| - 1]), steps[|steps| - 1];
     RefusedBy(before, s, e) && Under(s.path, q) ==> q !in WouldBe(before, e))
  }

  /** And they agree at every moment if and only if they did at the start and no refused
      deletion meets what the owner has. */
  lemma {:induction false} MirrorAlways(st: State, steps: seq<Step>, e: Endpoint, b: Endpoint, q: Path)
    requires Inv(st) && |st.servers| >= 3 && Mirrored(st.servers, e, b) && q != []
    requires Possible(st, steps) && SteadyRun(st, steps) && ApartRun(st, steps, e, q, b, CopyOf(st.servers, b, q))
    ensures AlwaysAgree(st, steps, e, q, b, CopyOf(st.servers, b, q)) <==>
      Agree(st, e, q, b, CopyOf(st.servers, b, q)) && NoneParts(st, steps, e, q)
  {
    var copy := CopyOf(st.servers, b, q);
    hide Inv, Enabled, Agree, ApartStep, Next, WouldBe, Mirrored, RefusedBy, Touched, Steady, CopyOf;
    if steps != [] {
      var before := steps[..|steps| - 1];
      MirrorAlways(st, before, e, b, q);
      StillMirrored(st, before, e, b, q);
      StepMirrorExact(Run(st, before), steps[|steps| - 1], e, b, q);
      AgreeNow(st, before, e, q, b, copy);
    }
  }

  lemma AgreeNow(st: State, steps: seq<Step>, e: Endpoint, q: Path, b: Endpoint, copy: Path)
    ensures AlwaysAgree(st, steps, e, q, b, copy) ==> Agree(Run(st, steps), e, q, b, copy)
  {
  }

  // ----- a run that parts a server from its backup

  /** A server arrives while all others are active and nothing is cached. */
  lemma Arrived(st: State, r: Registration, disk: set<Path>)
    requires Sound(st.index) && st.index.cache == [] && AllActive(st.servers) && |st.servers| <= 2
    requires r.accessible != [] && CommaFree(r.accessible)
    requires Somebody(At(NewServer(r))) && !Known(st.servers, At(NewServer(r)))
    ensures
      var next := Next(st, Register(r, disk));
      && Enabled(st, Register(r, disk)) && Sound(next.index)
      && next.servers == WithBackups(st.servers + [NewServer(r)]) && NewServer(r).root == r.accessible
      && next.disks == st.disks[At(NewServer(r)) := disk]
      && (|st.servers| < 2 ==> next.index.cache == [])
      && forall x :: Lookup(next.index.trie.files, x) ==
           if x == r.accessible then Some(FileInfo(r.ip, r.portClient, x)) else Lookup(st.index.trie.files, x)
  {
    hide IndexOf, WithBackups, Sound;
    assert Joined([r.accessible]) == r.accessible;
    TokensOfJoined([r.accessible]);
    JoinedHead([r.accessible]);
    assert Arrives(st, r);
    StepSoundExact(st, Register(r, disk));
    StoredAllCache(st.index, r, Tokens(r.accessible));
    assert PathIndex.WellFormed(st.index) by { SoundParts(st.index); }
    BackedUp(st, r, disk);
    forall x { RecordedLookups(st, r, x); }
  }

  lemma SoundParts(ix: PathIndex.Index)
    requires Sound(ix)
    ensures PathIndex.WellFormed(ix) && PathIndex.Transparent(ix)
  {
    PathIndex.TransparentIsCoherent(ix);
  }

  /** Three servers, of which the second has a copy of the first one's directory. */
  ghost predicate Three(r1: Registration, d1: set<Path>, r2: Registration, d2: set<Path>, r3: Registration) {
    && (forall r <- [r1, r2, r3] :: r.accessible != [] && CommaFree(r.accessible) && Somebody(At(NewServer(r))))
    && At(NewServer(r1)) != At(NewServer(r2)) && At(NewServer(r1)) != At(NewServer(r3)) && At(NewServer(r2)) != At(NewServer(r3))
    && r1.accessible != r2.accessible && r1.accessible != r3.accessible
    && r1.accessible in d1 && Slashed(r2.accessible, r1.accessible) in d2
    && DOT in r1.accessible && r1.portNm != -1
  }

  lemma UnknownTo(t: seq<Server>, e: Endpoint)
    requires forall i | 0 <= i < |t| :: At(t[i]) != e
    ensures !Known(t, e)
  {
  }

  /** The table and the disks after two of them registered. */
  lemma TwoArrive(r1: Registration, d1: set<Path>, r2: Registration, d2: set<Path>)
    requires forall r <- [r1, r2] :: r.accessible != [] && CommaFree(r.accessible) && Somebody(At(NewServer(r)))
    requires At(NewServer(r1)) != At(NewServer(r2)) && r1.accessible != r2.accessible
    ensures
      var s1, s2 := Register(r1, d1), Register(r2, d2);
      var st1 := Next(EMPTY_STATE, s1);
      var st := Next(st1, s2);
      && Enabled(EMPTY_STATE, s1) && Enabled(st1, s2) && Sound(st.index) && st.index.cache == []
      && st.servers == [NewServer(r1), NewServer(r2)]
      && NewServer(r1).root == r1.accessible && NewServer(r2).root == r2.accessible
      && st.disks == map[At(NewServer(r1)) := d1, At(NewServer(r2)) := d2]
      && forall x :: Lookup(st.index.trie.files, x) ==
           if x == r2.accessible then Some(FileInfo(r2.ip, r2.portClient, x))
           else if x == r1.accessible then Some(FileInfo(r1.ip, r1.portClient, x)) else None
  {
    hide Next, Enabled, IndexOf, Somebody, WithBackups, Sound;
    var a, b := NewServer(r1), NewServer(r2);
    assert r1 in [r1, r2] && r2 in [r1, r2];
    assert Sound(EMPTY_STATE.index) by { SoundStart(); }
    UnknownTo([], At(a));
    Arrived(EMPTY_STATE, r1, d1);
    assert [] + [a] == [a] && [a] + [b] == [a, b];
    FewBackups([a]);
    UnknownTo([a], At(b));
    Arrived(Next(EMPTY_STATE, Register(r1, d1)), r2, d2);
    FewBackups([a, b]);
  }

  lemma SoundStart()
    ensures Sound(EMPTY_STATE.index)
  {
  }

  /** The table and the disks after the three registered. */
  lemma ThreeArrive(r1: Registration, d1: set<Path>, r2: Registration, d2: set<Path>, r3: Registration, d3: set<Path>)
    requires Three(r1, d1, r2, d2, r3)
    ensures
      var s1, s2, s3 := Register(r1, d1), Register(r2, d2), Register(r3, d3);
      var st1 := Next(EMPTY_STATE, s1);
      var st2 := Next(st1, s2);
      var st := Next(st2, s3);
      && Enabled(EMPTY_STATE, s1) && Enabled(st1, s2) && Enabled(st2, s3) && Sound(st.index)
      && st.servers == WithBackups([NewServer(r1), NewServer(r2), NewServer(r3)])
      && NewServer(r1).root == r1.accessible && NewServer(r2).root == r2.accessible
      && Disk(st, At(NewServer(r1))) == d1 && Disk(st, At(NewServer(r2))) == d2
      && forall x :: Lookup(st.index.trie.files, x) ==
           if x == r3.accessible then Some(FileInfo(r3.ip, r3.portClient, x))
           else if x == r2.accessible then Some(FileInfo(r2.ip, r2.portClient, x))
           else if x == r1.accessible then Some(FileInfo(r1.ip, r1.portClient, x)) else None
  {
    hide Next, Enabled, IndexOf, Somebody, WithBackups, Sound;
    var a, b, c := NewServer(r1), NewServer(r2), NewServer(r3);
    var st2 := Next(Next(EMPTY_STATE, Register(r1, d1)), Register(r2, d2));
    assert r1 in [r1, r2, r3] && r2 in [r1, r2, r3] && r3 in [r1, r2, r3];
    TwoArrive(r1, d1, r2, d2);
    assert [a, b] + [c] == [a, b, c];
    UnknownTo([a, b], At(c));
    Arrived(st2, r3, d3);
  }

  /** Their backups, and the deletion that the first refuses. */
  lemma ThreeBacked(st: State, r1: Registration, r2: Registration, r3: Registration)
    requires st.servers == WithBackups([NewServer(r1), NewServer(r2), NewServer(r3)]) && Sound(st.index)
    requires At(NewServer(r1)) != At(NewServer(r2)) && DOT in r1.accessible && r1.portNm != -1
    requires Lookup(st.index.trie.files, r1.accessible) == Some(FileInfo(r1.ip, r1.portClient, r1.accessible))
    ensures
      var e, b := At(NewServer(r1)), At(NewServer(r2));
      && Mirrored(st.servers, e, b) && RefusedBy(st, DeleteRefused(r1.accessible), e)
      && CopyOf(st.servers, b, r1.accessible) == Slashed(NewServer(r2).root, r1.accessible)
      && WouldBe(st, e) == Disk(st, e) && WouldBe(st, b) == Disk(st, b)
  {
    hide WithBackups;
    var t := [NewServer(r1), NewServer(r2), NewServer(r3)];
    FirstBackups(t);
    SoundParts(st.index);
    assert PathIndex.Answer(st.index, r1.accessible) == Lookup(st.index.trie.files, r1.accessible);
    var t' := st.servers;
    assert At(t'[0]) == At(t[0]) && At(t'[1]) == At(t[1]);
    FirstAt(t', 0);
    FirstAt(t', 1);
  }

  lemma FirstAt(t: seq<Server>, i: nat)
    requires i < |t| && forall j | 0 <= j < i :: At(t[j]) != At(t[i])
    ensures IndexOf(t, At(t[i])) == i
  {
  }

  /** Three servers register, the second with a copy of the file of the first, which it backs.
      A deletion of the file is refused: the first has it still, and its backup lost the copy. */
  lemma RefusalParts(r1: Registration, d1: set<Path>, r2: Registration, d2: set<Path>, r3: Registration, d3: set<Path>)
    requires Three(r1, d1, r2, d2, r3)
    ensures
      var before := [Register(r1, d1), Register(r2, d2), Register(r3, d3)];
      var steps := before + [DeleteRefused(r1.accessible)];
      var st, now, e, b := Run(EMPTY_STATE, before), Run(EMPTY_STATE, steps), At(NewServer(r1)), At(NewServer(r2));
      && Possible(EMPTY_STATE, steps) && Mirrored(st.servers, e, b)
      && Agree(st, e, r1.accessible, b, CopyOf(st.servers, b, r1.accessible))
      && r1.accessible in WouldBe(now, e) && CopyOf(st.servers, b, r1.accessible) !in WouldBe(now, b)
  {
    hide Next, Enabled, Inv, WouldBe, Mirrored, StepGuard;
    var s1, s2, s3, s4 := Register(r1, d1), Register(r2, d2), Register(r3, d3), DeleteRefused(r1.accessible);
    RunOfFour(s1, s2, s3, s4);
    ThreeArrive(r1, d1, r2, d2, r3, d3);
    var st := Run(EMPTY_STATE, [s1, s2, s3]);
    ThreeBacked(st, r1, r2, r3);
    AlwaysEnabled(st, r1.accessible);
    StartsWell();
    DeferredLog(EMPTY_STATE, [s1, s2, s3]);
    RefusalExact(st, r1.accessible, At(NewServer(r1)), At(NewServer(r2)), r1.accessible);
  }

  lemma AlwaysEnabled(st: State, p: Path)
    ensures Enabled(st, DeleteRefused(p))
  {
  }

  lemma StartsWell()
    ensures Inv(EMPTY_STATE)
  {
  }
}
