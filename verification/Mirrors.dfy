/** Backups as mirrors: what is created and deleted on a server through the naming server
    is created and deleted in the copies of its tree, over all runs of the cluster. */
module Mirrors {
  import opened Types
  import PathIndex
  import opened Cluster
  import opened Replication
  import opened Backups

  /** `b` is a backup of `e`. */
  ghost predicate Mirrored(t: seq<Server>, e: Endpoint, b: Endpoint) {
    && Known(t, e) && Known(t, b) && b != e
    && (ServerAt(t, e).backup1 == b || ServerAt(t, e).backup2 == b)
  }

  /** The address on the backup of the copy of `q`. */
  ghost function CopyOf(t: seq<Server>, b: Endpoint, q: Path): Path
    requires Known(t, b)
  {
    Slashed(ServerAt(t, b).root, q)
  }

  // ----- one command

  /** The paths that a command makes exist, or makes not exist. */
  ghost predicate Touches(c: Command, q: Path) {
    match c
    case Create(d, f) => q == Slashed(d, f) || q in Above(Slashed(d, f))
    case Delete(p) => Under(p, q)
    case Unpack(ps) => q in ps
  }

  /** The outcome of a command for a path: what it says if it touches the path, else what
      was there. */
  lemma ApplyAt(disk: set<Path>, c: Command, q: Path)
    ensures q in Apply(disk, c) <==> if Touches(c, q) then !c.Delete? else q in disk
  {
  }

  lemma {:induction false} UntouchedByAll(disk: set<Path>, cs: seq<Command>, q: Path)
    requires forall c <- cs :: !Touches(c, q)
    ensures q in ApplyAll(disk, cs) <==> q in disk
  {
    if cs != [] {
      var n := |cs| - 1;
      assert cs[n] in cs;
      ApplyAt(ApplyAll(disk, cs[..n]), cs[n], q);
      UntouchedByAll(disk, cs[..n], q);
    }
  }

  lemma AboveMirrored(root: Path, x: Path, q: Path)
    requires q != []
    ensures Slashed(root, q) in Above(Slashed(root, x)) <==> q in Above(x)
  {
    var k, y := |root| + 1, Slashed(root, x);
    if q in Above(x) {
      var i :| 0 < i < |x| && x[i] == SLASH && q == x[..i];
      assert y[k + i] == SLASH && y[..k + i] == Slashed(root, q);
    }
    if Slashed(root, q) in Above(y) {
      var j :| 0 < j < |y| && y[j] == SLASH && Slashed(root, q) == y[..j];
      assert j == k + |q|;
      assert q == y[..j][k..] == x[..j - k];
      assert x[j - k] == SLASH;
    }
  }

  lemma UnderMirrored(root: Path, p: Path, q: Path)
    ensures Under(Slashed(root, p), Slashed(root, q)) <==> Under(p, q)
  {
    var k := |root| + 1;
    assert Slashed(root, p)[k..] == p && Slashed(root, q)[k..] == q;
    assert Slashed(root, p) + [SLASH] == Slashed(root, p + [SLASH]);
    if Slashed(root, p + [SLASH]) <= Slashed(root, q) {
      assert Slashed(root, q)[..|p| + 1 + k][k..] == Slashed(root, p + [SLASH])[k..] == p + [SLASH];
      assert q[..|p| + 1] == p + [SLASH];
    }
    if p + [SLASH] <= q {
      assert q == p + [SLASH] + q[|p| + 1..];
      assert Slashed(root, q) == Slashed(root, p + [SLASH]) + q[|p| + 1..];
    }
  }

  /** A command touches a path exactly when the forwarded one touches its copy. */
  lemma TouchesMirrored(root: Path, c: Command, q: Path)
    requires q != [] && !c.Unpack?
    ensures Touches(Prefixed(root, c), Slashed(root, q)) <==> Touches(c, q)
  {
    match c
    case Create(d, f) =>
      var x := Slashed(d, f);
      assert Slashed(Slashed(root, d), f) == Slashed(root, x);
      AboveMirrored(root, x, q);
      assert Slashed(root, q)[|root| + 1..] == q && Slashed(root, x)[|root| + 1..] == x;
    case Delete(p) => UnderMirrored(root, p, q);
  }

  // ----- one step

  /** Nobody but `e` itself touches `q` on `e`, and nobody on behalf of another server
      touches the copy of `q` on `b`. */
  ghost predicate Apart(log: seq<Delivery>, e: Endpoint, q: Path, b: Endpoint, copy: Path) {
    forall d <- log :: d.origin != e ==> (d.to == e ==> !Touches(d.op, q)) && (d.to == b ==> !Touches(d.op, copy))
  }

  /** A command to `e` itself touches `q`. */
  ghost predicate Touched(log: seq<Delivery>, e: Endpoint, q: Path) {
    exists d <- log :: d.to == e && d.origin == e && Touches(d.op, q)
  }

  ghost predicate Agree(st: State, e: Endpoint, q: Path, b: Endpoint, copy: Path) {
    q in WouldBe(st, e) <==> copy in WouldBe(st, b)
  }

  lemma {:induction false} ToServerHas(log: seq<Delivery>, e: Endpoint, c: Command)
    requires c in ToServer(log, e)
    ensures exists d <- log :: d.to == e && d.op == c
  {
    var n := |log| - 1;
    if log[n].to == e && log[n].op == c {
      assert log[n] in log;
    } else {
      ToServerHas(log[..n], e, c);
    }
  }

  /** What a step of others leaves alone. */
  lemma OthersUntouched(disk: set<Path>, log: seq<Delivery>, to: Endpoint, q: Path)
    requires forall d <- log :: d.to == to ==> !Touches(d.op, q)
    ensures q in ApplyAll(disk, ToServer(log, to)) <==> q in disk
  {
    forall c <- ToServer(log, to) ensures !Touches(c, q) { ToServerHas(log, to, c); }
    UntouchedByAll(disk, ToServer(log, to), q);
  }

  lemma ToServerOfOptional(t: seq<Server>, b: Endpoint, e: Endpoint, c: Command, x: Endpoint)
    ensures ToServer(Forwards(t, b, e, c), x) ==
      if b == x && Somebody(b) && Known(t, b) then [Prefixed(ServerAt(t, b).root, c)] else []
  {
    if Somebody(b) && Known(t, b) { ToServerOne(Delivery(b, e, Prefixed(ServerAt(t, b).root, c)), x); }
  }

  ghost function BothForwards(t: seq<Server>, e: Endpoint, origin: Endpoint, c: Command): seq<Delivery>
    requires Known(t, e)
  {
    Forwards(t, ServerAt(t, e).backup1, origin, c) + Forwards(t, ServerAt(t, e).backup2, origin, c)
  }

  /** What is forwarded for `e` goes to its backup `b`, once or twice, and not to `e`. */
  lemma ForwardsToBackup(st: State, e: Endpoint, b: Endpoint, origin: Endpoint, c: Command)
    requires Inv(st) && Mirrored(st.servers, e, b)
    ensures ToServer(BothForwards(st.servers, e, origin, c), e) == []
    ensures
      var c' := Prefixed(ServerAt(st.servers, b).root, c);
      var cs := ToServer(BothForwards(st.servers, e, origin, c), b);
      cs == [c'] || cs == [c', c']
  {
    hide Inv, Prefixed, IndexOf, Forwards;
    var t := st.servers;
    var s := ServerAt(t, e);
    BackupsAreOthers(st, e);
    assert Somebody(b) by { RealServer(st, b); }
    ToServerConcat(Forwards(t, s.backup1, origin, c), Forwards(t, s.backup2, origin, c), e);
    ToServerConcat(Forwards(t, s.backup1, origin, c), Forwards(t, s.backup2, origin, c), b);
    ToServerOfOptional(t, s.backup1, origin, c, e);
    ToServerOfOptional(t, s.backup2, origin, c, e);
    ToServerOfOptional(t, s.backup1, origin, c, b);
    ToServerOfOptional(t, s.backup2, origin, c, b);
  }

  lemma BackupsAreOthers(st: State, e: Endpoint)
    requires Inv(st) && Known(st.servers, e)
    ensures ServerAt(st.servers, e).backup1 != e && ServerAt(st.servers, e).backup2 != e
  {
    RealServer(st, e);
    assert BothBack(st.servers, IndexOf(st.servers, e));
  }

  lemma RealServer(st: State, e: Endpoint)
    requires Inv(st) && Known(st.servers, e)
    ensures Somebody(e) && e != NOBODY
  {
    assert Somebody(At(st.servers[IndexOf(st.servers, e)]));
  }

  /** What one command, once or twice, makes of a path. */
  lemma OnceOrTwice(disk: set<Path>, c: Command, cs: seq<Command>, q: Path)
    requires cs == [c] || cs == [c, c]
    ensures q in ApplyAll(disk, cs) <==> q in Apply(disk, c)
  {
    ApplyAllOne(disk, c);
    if cs == [c, c] {
      assert cs == [c] + [c];
      ApplyAllConcat(disk, [c], [c]);
      ApplyAllOne(ApplyAll(disk, [c]), c);
      ApplyAt(disk, c, q);
      ApplyAt(Apply(disk, c), c, q);
    }
  }

  /** The commands that a step on `e` directs to `e` and to its backup `b`. */
  lemma BothServers(st: State, e: Endpoint, b: Endpoint, c: Command)
    requires Inv(st) && Mirrored(st.servers, e, b)
    ensures ToServer(ToAll(st.servers, e, c), e) == [c]
    ensures
      var c' := Prefixed(ServerAt(st.servers, b).root, c);
      ToServer(ToAll(st.servers, e, c), b) == [c'] || ToServer(ToAll(st.servers, e, c), b) == [c', c']
  {
    hide Inv, Forwards, Prefixed, IndexOf;
    var d, f := [Delivery(e, e, c)], BothForwards(st.servers, e, e, c);
    assert ToAll(st.servers, e, c) == d + f;
    ForwardsToBackup(st, e, b, e, c);
    ToServerConcat(d, f, e);
    ToServerConcat(d, f, b);
    ToServerOne(Delivery(e, e, c), e);
    ToServerOne(Delivery(e, e, c), b);
  }

  /** A command on the primary keeps the agreement, and makes it for what it touches. */
  lemma CommandMirrored(st: State, st': State, e: Endpoint, b: Endpoint, c: Command, q: Path)
    requires Inv(st) && Mirrored(st.servers, e, b) && q != [] && !c.Unpack?
    requires Directed(st, st', ToAll(st.servers, e, c))
    requires Agree(st, e, q, b, CopyOf(st.servers, b, q)) || Touches(c, q)
    ensures Agree(st', e, q, b, CopyOf(st.servers, b, q))
  {
    var root := ServerAt(st.servers, b).root;
    var log := ToAll(st.servers, e, c);
    BothServers(st, e, b, c);
    TouchesMirrored(root, c, q);
    OnceOrTwice(WouldBe(st, e), c, ToServer(log, e), q);
    OnceOrTwice(WouldBe(st, b), Prefixed(root, c), ToServer(log, b), Slashed(root, q));
    ApplyAt(WouldBe(st, e), c, q);
    ApplyAt(WouldBe(st, b), Prefixed(root, c), Slashed(root, q));
    assert WouldBe(st', e) == ApplyAll(WouldBe(st, e), ToServer(log, e));
    assert WouldBe(st', b) == ApplyAll(WouldBe(st, b), ToServer(log, b));
  }

  /** The server on which a step runs its command. */
  ghost function Target(st: State, s: Step): Option<(Endpoint, Command)> {
    match s
    case CreateFile(d, f) =>
      if CreateSent(st, d, f) then Some((Owner(PathIndex.Answer(st.index, d).value), Create(d, f))) else None
    case DeleteFile(p) =>
      if DeleteSent(st, p) then Some((Owner(PathIndex.Answer(st.index, p).value), Command.Delete(p))) else None
    case _ => None
  }

  lemma TargetMeaning(st: State, s: Step)
    ensures Target(st, s).Some? ==>
      && Known(st.servers, Target(st, s).value.0) && !Target(st, s).value.1.Unpack?
      && Deliveries(st, s) == ToAll(st.servers, Target(st, s).value.0, Target(st, s).value.1)
    ensures Target(st, s).None? ==> forall d <- Deliveries(st, s) :: d.origin == NOBODY
    ensures forall d <- Deliveries(st, s) :: d.origin != NOBODY ==> Target(st, s).Some? && d.origin == Target(st, s).value.0
  {
  }

  lemma StepMirrored(st: State, s: Step, e: Endpoint, b: Endpoint, q: Path)
    requires Inv(st) && Enabled(st, s) && Mirrored(st.servers, e, b) && q != []
    requires Apart(Deliveries(st, s), e, q, b, CopyOf(st.servers, b, q))
    requires Agree(st, e, q, b, CopyOf(st.servers, b, q)) || Touched(Deliveries(st, s), e, q)
    ensures Agree(Next(st, s), e, q, b, CopyOf(st.servers, b, q))
  {
    var st', log, copy := Next(st, s), Deliveries(st, s), CopyOf(st.servers, b, q);
    StepDirected(st, s);
    TargetMeaning(st, s);
    assert Somebody(At(st.servers[IndexOf(st.servers, e)]));
    if Target(st, s).Some? && Target(st, s).value.0 == e {
      var c := Target(st, s).value.1;
      if Touched(log, e, q) { TouchedByCommand(st, e, b, c, q); }
      CommandMirrored(st, st', e, b, c, q);
    } else {
      OthersUntouched(WouldBe(st, e), log, e, q);
      OthersUntouched(WouldBe(st, b), log, b, copy);
      assert WouldBe(st', e) == ApplyAll(WouldBe(st, e), ToServer(log, e));
      assert WouldBe(st', b) == ApplyAll(WouldBe(st, b), ToServer(log, b));
    }
  }

  /** A command that reaches `e` is nobody else's, and so brings what it touches and the copies
      into agreement, without conditions on others. */
  lemma OwnCommandMirrored(st: State, s: Step, e: Endpoint, b: Endpoint, q: Path)
    requires Inv(st) && Enabled(st, s) && Mirrored(st.servers, e, b) && q != []
    requires Target(st, s).Some? && Target(st, s).value.0 == e && Touches(Target(st, s).value.1, q)
    ensures Apart(Deliveries(st, s), e, q, b, CopyOf(st.servers, b, q))
    ensures Agree(Next(st, s), e, q, b, CopyOf(st.servers, b, q))
  {
    hide Inv, Enabled, Agree, Touches, Next, IndexOf;
    TargetMeaning(st, s);
    var c := Target(st, s).value.1;
    assert forall d <- ToAll(st.servers, e, c) :: d.origin == e;
    assert Deliveries(st, s)[0] == Delivery(e, e, c) && Deliveries(st, s)[0] in Deliveries(st, s);
    StepMirrored(st, s, e, b, q);
  }

  lemma TouchedByCommand(st: State, e: Endpoint, b: Endpoint, c: Command, q: Path)
    requires Inv(st) && Mirrored(st.servers, e, b) && Touched(ToAll(st.servers, e, c), e, q)
    ensures Touches(c, q)
  {
    var t := st.servers;
    assert BothBack(t, IndexOf(t, e));
  }

  // ----- whole runs

  /** A registration that a full table refuses assigns backups to the last server anew; this
      says that they are the ones it has. */
  predicate LastKeepsBackups(t: seq<Server>)
    requires |t| >= 3
  {
    var n := |t| - 1;
    var i := Highest(t, n);
    var j := Highest(t, i);
    (i >= 0 ==> t[n].backup1 == At(t[i])) && (j >= 0 ==> t[n].backup2 == At(t[j]))
  }

  /** A new server finds room, or what a full table does instead changes nothing. */
  predicate Steady(st: State, s: Step) {
    Registers(st, s) && |st.servers| >= MAX_CONNECTIONS ==> LastKeepsBackups(st.servers)
  }

  ghost predicate SteadyRun(st: State, steps: seq<Step>) {
    steps == [] ||
    (SteadyRun(st, steps[..|steps| - 1]) && Steady(Run(st, steps[..|steps| - 1]), steps[|steps| - 1]))
  }

  lemma LastKeptExact(t: seq<Server>)
    requires |t| > 3
    ensures Kept(t, WithBackups(t)) <==> LastKeepsBackups(t)
  {
    var n, t' := |t| - 1, WithBackups(t);
    var i := Highest(t, n);
    var j := Highest(t, i);
    assert t'[n] == t[n].(backup1 := if i >= 0 then At(t[i]) else t[n].backup1,
                          backup2 := if j >= 0 then At(t[j]) else t[n].backup2);
    assert forall x | 0 <= x < n :: t'[x] == t[x];
    assert Kept(t, t') ==> SameRole(t[n], t'[n]);
  }

  /** From three servers on, a step leaves all backups as they are exactly when it is steady. */
  lemma StepKeepsRoles(st: State, s: Step)
    requires |st.servers| >= 3
    ensures Kept(st.servers, Next(st, s).servers) <==> Steady(st, s)
  {
    if Registers(st, s) {
      RegisteredTable(st, s.r, s.disk);
      if |st.servers| < MAX_CONNECTIONS {
        LastBackupsOnly(Grown(st.servers, s.r));
        assert Grown(st.servers, s.r)[..|st.servers|] == st.servers;
      } else {
        LastKeptExact(st.servers);
      }
    } else {
      StepKept(st, s);
    }
  }

  /** From three servers on, assignments of backups last through steady runs. */
  lemma {:induction false} RunKeepsRoles(st: State, steps: seq<Step>)
    requires |st.servers| >= 3 && SteadyRun(st, steps)
    ensures Kept(st.servers, Run(st, steps).servers)
  {
    if steps != [] {
      var before := steps[..|steps| - 1];
      RunKeepsRoles(st, before);
      StepKeepsRoles(Run(st, before), steps[|steps| - 1]);
      KeptThen(st.servers, Run(st, before).servers, Run(st, steps).servers);
    }
  }

  lemma MirroredKept(t: seq<Server>, t': seq<Server>, e: Endpoint, b: Endpoint)
    requires Kept(t, t') && Mirrored(t, e, b)
    ensures Mirrored(t', e, b) && ServerAt(t', b).root == ServerAt(t, b).root
  {
    KeptServer(t, t', e);
    KeptServer(t, t', b);
  }

  lemma LogAfter(st: State, steps: seq<Step>, e: Endpoint, q: Path, b: Endpoint, copy: Path)
    requires steps != [] && Apart(Log(st, steps), e, q, b, copy)
    ensures
      var before, s := steps[..|steps| - 1], steps[|steps| - 1];
      && Apart(Log(st, before), e, q, b, copy) && Apart(Deliveries(Run(st, before), s), e, q, b, copy)
      && (Touched(Log(st, steps), e, q) ==>
            Touched(Log(st, before), e, q) || Touched(Deliveries(Run(st, before), s), e, q))
  {
    var before, s := steps[..|steps| - 1], steps[|steps| - 1];
    assert forall d <- Log(st, before) :: d in Log(st, steps);
    assert forall d <- Deliveries(Run(st, before), s) :: d in Log(st, steps);
  }

  /** Over any run of commands, failures, returns and registrations: a path on which a
      server and its backup agreed at the start, or which a command to the server touched
      since, exists on the server exactly when its copy exists on the backup, up to the
      commands still pending for either; provided nothing else writes the path there or
      the copy here. */
  lemma {:induction false} MirrorConvergence(st: State, steps: seq<Step>, e: Endpoint, b: Endpoint, q: Path)
    requires Inv(st) && |st.servers| >= 3 && Mirrored(st.servers, e, b) && q != []
    requires Possible(st, steps) && SteadyRun(st, steps)
    requires Apart(Log(st, steps), e, q, b, CopyOf(st.servers, b, q))
    requires Agree(st, e, q, b, CopyOf(st.servers, b, q)) || Touched(Log(st, steps), e, q)
    ensures Agree(Run(st, steps), e, q, b, CopyOf(st.servers, b, q))
  {
    if steps == [] {
    } else {
      var before, s := steps[..|steps| - 1], steps[|steps| - 1];
      var st1, copy := Run(st, before), CopyOf(st.servers, b, q);
      LogAfter(st, steps, e, q, b, copy);
      RunKeepsRoles(st, before);
      MirroredKept(st.servers, st1.servers, e, b);
      DeferredLog(st, before);
      if Agree(st, e, q, b, copy) || Touched(Log(st, before), e, q) {
        MirrorConvergence(st, before, e, b, q);
      }
      StepMirrored(st1, s, e, b, q);
    }
  }

  lemma CaughtUpDisk(st: State, e: Endpoint)
    requires Inv(st) && Active(st.servers, e)
    ensures WouldBe(st, e) == Disk(st, e)
  {
  }

  /** On the disks themselves, once both are active. */
  lemma MirrorOnDisk(st: State, steps: seq<Step>, e: Endpoint, b: Endpoint, q: Path)
    requires Inv(st) && |st.servers| >= 3 && Mirrored(st.servers, e, b) && q != []
    requires Possible(st, steps) && SteadyRun(st, steps)
    requires Apart(Log(st, steps), e, q, b, CopyOf(st.servers, b, q))
    requires Agree(st, e, q, b, CopyOf(st.servers, b, q)) || Touched(Log(st, steps), e, q)
    requires Active(Run(st, steps).servers, e) && Active(Run(st, steps).servers, b)
    ensures q in Disk(Run(st, steps), e) <==> CopyOf(st.servers, b, q) in Disk(Run(st, steps), b)
  {
    MirrorConvergence(st, steps, e, b, q);
    DeferredLog(st, steps);
    CaughtUpDisk(Run(st, steps), e);
    CaughtUpDisk(Run(st, steps), b);
  }

  /** And so a READ that is sent to a backup finds the copy there exactly when the owner,
      with its own pending commands applied, has the file. */
  lemma ReadFromMirror(st: State, steps: seq<Step>, q: Path, e: Endpoint, b: Endpoint)
    requires Inv(st) && |st.servers| >= 3 && Mirrored(st.servers, e, b) && q != []
    requires Possible(st, steps) && SteadyRun(st, steps)
    requires Apart(Log(st, steps), e, q, b, CopyOf(st.servers, b, q))
    requires Agree(st, e, q, b, CopyOf(st.servers, b, q)) || Touched(Log(st, steps), e, q)
    requires
      var now := Run(st, steps);
      && PathIndex.Answer(now.index, q).Some? && Owner(PathIndex.Answer(now.index, q).value) == e
      && Read(now, q).Served? && Read(now, q).at == b
    ensures
      var now := Run(st, steps);
      Read(now, q).path in Disk(now, b) <==> q in WouldBe(now, e)
  {
    var now := Run(st, steps);
    MirrorConvergence(st, steps, e, b, q);
    DeferredLog(st, steps);
    RunKeepsRoles(st, steps);
    MirroredKept(st.servers, now.servers, e, b);
    CaughtUpDisk(now, b);
  }
}
