/** The backup assignments, over all runs of the cluster: which servers back which, and
    how long an assignment lasts. */
module Backups {
  import opened Types
  import PathIndex
  import opened Cluster
  import opened Replication

  // ----- what the table keeps

  ghost predicate SameRole(s: Server, s': Server) {
    At(s) == At(s') && s.root == s'.root && s.backup1 == s'.backup1 && s.backup2 == s'.backup2
  }

  /** Every entry of `t` is in `t'`, in its place, with the same backups. */
  ghost predicate Kept(t: seq<Server>, t': seq<Server>) {
    |t| <= |t'| && forall i | 0 <= i < |t| :: SameRole(t[i], t'[i])
  }

  lemma KeptServer(t: seq<Server>, t': seq<Server>, e: Endpoint)
    requires Kept(t, t') && Known(t, e)
    ensures IndexOf(t', e) == IndexOf(t, e) && SameRole(ServerAt(t, e), ServerAt(t', e))
  {
    var i := IndexOf(t, e);
    assert SameRole(t[i], t'[i]);
    assert forall j | 0 <= j < i :: SameRole(t[j], t'[j]);
  }

  lemma KeptThen(t: seq<Server>, t1: seq<Server>, t2: seq<Server>)
    requires Kept(t, t1) && Kept(t1, t2)
    ensures Kept(t, t2)
  {
    forall i | 0 <= i < |t| ensures SameRole(t[i], t2[i]) {
      assert SameRole(t[i], t1[i]) && SameRole(t1[i], t2[i]);
    }
  }

  lemma ForwardedKept(st: State, e: Endpoint, c: Command)
    ensures Kept(st.servers, Forwarded(st, e, c).servers) && |Forwarded(st, e, c).servers| == |st.servers|
  {
  }

  lemma ForwardedToBothKept(st: State, s: Server, c: Command)
    ensures Kept(st.servers, ForwardedToBoth(st, s, c).servers)
    ensures |ForwardedToBoth(st, s, c).servers| == |st.servers|
  {
    ForwardedKept(st, s.backup1, c);
    ForwardedKept(Forwarded(st, s.backup1, c), s.backup2, c);
    KeptThen(st.servers, Forwarded(st, s.backup1, c).servers, ForwardedToBoth(st, s, c).servers);
  }

  predicate Registers(st: State, s: Step) {
    s.Register? && Returning(st.servers, s.r) == |st.servers|
  }

  /** Whatever is not a registration of a new server leaves roles alone. */
  lemma StepKept(st: State, s: Step)
    requires !Registers(st, s)
    ensures Kept(st.servers, Next(st, s).servers) && |Next(st, s).servers| == |st.servers|
  {
    match s
    case CreateFile(d, f) =>
      if CreateSent(st, d, f) {
        var e := Owner(PathIndex.Answer(st.index, d).value);
        var looked := AfterLookups(st, d, Slashed(d, f));
        var stored := if Succeeds(Disk(st, e), d, f)
                      then looked.(index := PathIndex.AfterStore(looked.index, e.ip, e.port, Slashed(d, f)))
                      else looked;
        ForwardedToBothKept(OnDisk(stored, e, Create(d, f)), ServerAt(st.servers, e), Create(d, f));
      }
    case DeleteFile(p) =>
      if DeleteSent(st, p) {
        var e := Owner(PathIndex.Answer(st.index, p).value);
        var removed := st.(index := PathIndex.AfterDelete(st.index, p));
        ForwardedToBothKept(OnDisk(removed, e, Command.Delete(p)), ServerAt(st.servers, e), Command.Delete(p));
      }
    case DeleteRefused(p) =>
      if DeleteSent(st, p) {
        var e := Owner(PathIndex.Answer(st.index, p).value);
        ForwardedToBothKept(st.(index := PathIndex.AfterDelete(st.index, p)), ServerAt(st.servers, e), Command.Delete(p));
      }
    case _ =>
  }

  /** The table at a registration, before backups are assigned. */
  function Grown(t: seq<Server>, r: Registration): seq<Server> {
    if |t| < MAX_CONNECTIONS then t + [NewServer(r)] else t
  }

  lemma RegisteredTable(st: State, r: Registration, disk: set<Path>)
    requires Returning(st.servers, r) == |st.servers|
    ensures AfterRegister(st, r, disk).servers == WithBackups(Grown(st.servers, r))
  {
  }

  /** Of more than three servers, only the last gets new backups. */
  lemma LastBackupsOnly(t: seq<Server>)
    requires |t| > 3
    ensures |WithBackups(t)| == |t| && Kept(t[..|t| - 1], WithBackups(t))
    ensures At(WithBackups(t)[|t| - 1]) == At(t[|t| - 1])
  {
  }

  // ----- two backups for everyone

  ghost predicate TwoBackups(t: seq<Server>, i: nat)
    requires i < |t|
  {
    && Known(t, t[i].backup1) && Known(t, t[i].backup2)
    && t[i].backup1 != t[i].backup2 && t[i].backup1 != At(t[i]) && t[i].backup2 != At(t[i])
  }

  ghost predicate WellBacked(t: seq<Server>) {
    |t| >= 3 && forall i | 0 <= i < |t| :: TwoBackups(t, i)
  }

  ghost predicate AllActive(t: seq<Server>) {
    forall i | 0 <= i < |t| :: t[i].isActive
  }

  predicate TwoActive(t: seq<Server>) {
    exists i, j | 0 <= i < j < |t| :: t[i].isActive && t[j].isActive
  }

  /** A server that registers as the third or later finds two active ones before it. */
  predicate Covered(st: State, s: Step) {
    Registers(st, s) && |Grown(st.servers, s.r)| >= 3 ==>
      TwoActive(Grown(st.servers, s.r)[..|Grown(st.servers, s.r)| - 1])
  }

  lemma HighestTwo(t: seq<Server>)
    requires |t| >= 3 && TwoActive(t[..|t| - 1])
    ensures 0 <= Highest(t, Highest(t, |t| - 1)) < Highest(t, |t| - 1) < |t| - 1
  {
    var n := |t| - 1;
    var a, b :| 0 <= a < b < n && t[..n][a].isActive && t[..n][b].isActive;
    assert t[a].isActive && t[b].isActive;
    assert b <= Highest(t, n);
    assert a <= Highest(t, Highest(t, n));
  }

  lemma LastIsBacked(t: seq<Server>)
    requires |t| >= 3 && TwoActive(t[..|t| - 1]) && DistinctAddresses(t)
    ensures
      var n := |t| - 1;
      var i := Highest(t, n);
      var j := Highest(t, i);
      && 0 <= j < i < n
      && WithLastBackups(t) == t[n := t[n].(backup1 := At(t[i]), backup2 := At(t[j]))]
      && t[i].isActive && t[j].isActive
      && TwoBackups(WithLastBackups(t), n)
  {
    hide TwoActive, Highest;
    HighestTwo(t);
    var n := |t| - 1;
    var i := Highest(t, n);
    BackedByTwo(t, i, Highest(t, i));
  }

  lemma BackedByTwo(t: seq<Server>, i: nat, j: nat)
    requires j < i < |t| - 1 && DistinctAddresses(t)
    ensures TwoBackups(t[|t| - 1 := t[|t| - 1].(backup1 := At(t[i]), backup2 := At(t[j]))], |t| - 1)
  {
    hide IndexOf;
    var n := |t| - 1;
    var t' := t[n := t[n].(backup1 := At(t[i]), backup2 := At(t[j]))];
    assert t'[i] == t[i] && t'[j] == t[j];
    KnownAt(t', i);
    KnownAt(t', j);
  }

  lemma KnownAt(t: seq<Server>, i: nat)
    requires i < |t|
    ensures Known(t, At(t[i]))
  {
  }

  lemma TwoBackupsKept(t: seq<Server>, t': seq<Server>, i: nat)
    requires Kept(t, t') && i < |t| && TwoBackups(t, i)
    ensures TwoBackups(t', i)
  {
    assert SameRole(t[i], t'[i]);
    KeptServer(t, t', t[i].backup1);
    KeptServer(t, t', t[i].backup2);
  }

  /** The assignments when the third server arrives. */
  lemma FirstBackups(t: seq<Server>)
    requires |t| == 3 && t[0].isActive && t[1].isActive && t[2].isActive
    ensures WithBackups(t) == [t[0].(backup1 := At(t[1]), backup2 := At(t[2])),
                               t[1].(backup1 := At(t[0]), backup2 := At(t[2])),
                               t[2].(backup1 := At(t[1]), backup2 := At(t[0]))]
  {
  }

  lemma ThirdBacks(t: seq<Server>)
    requires |t| == 3 && AllActive(t) && DistinctAddresses(t)
    ensures WellBacked(WithBackups(t))
  {
    FirstBackups(t);
    var t' := WithBackups(t);
    forall i | 0 <= i < 3 ensures Known(t', At(t[i])) {
      assert At(t'[i]) == At(t[i]);
      KnownAt(t', i);
    }
  }

  lemma StillKnown(t: seq<Server>, t': seq<Server>, e: Endpoint)
    requires Known(t, e) && |t| <= |t'| && forall i | 0 <= i < |t| :: At(t'[i]) == At(t[i])
    ensures Known(t', e)
  {
    KnownAt(t', IndexOf(t, e));
  }

  lemma StillBacked(t: seq<Server>, t': seq<Server>, i: nat)
    requires i < |t| <= |t'| && t'[i] == t[i] && TwoBackups(t, i)
    requires forall j | 0 <= j < |t| :: At(t'[j]) == At(t[j])
    ensures TwoBackups(t', i)
  {
    StillKnown(t, t', t[i].backup1);
    StillKnown(t, t', t[i].backup2);
  }

  lemma LastReplaced(t: seq<Server>, s: Server)
    requires |t| >= 3 && At(s) == At(t[|t| - 1])
    requires forall i | 0 <= i < |t| - 1 :: TwoBackups(t, i)
    requires TwoBackups(t[|t| - 1 := s], |t| - 1)
    ensures WellBacked(t[|t| - 1 := s])
  {
    var t' := t[|t| - 1 := s];
    forall i | 0 <= i < |t'| ensures TwoBackups(t', i) {
      if i < |t| - 1 { StillBacked(t, t', i); }
    }
  }

  lemma LaterBacks(t: seq<Server>)
    requires |t| > 3 && TwoActive(t[..|t| - 1]) && DistinctAddresses(t)
    requires forall i | 0 <= i < |t| - 1 :: TwoBackups(t, i)
    ensures WellBacked(WithBackups(t))
  {
    LastIsBacked(t);
    LastReplaced(t, WithLastBackups(t)[|t| - 1]);
  }

  lemma GrownBacked(t: seq<Server>, r: Registration)
    requires WellBacked(t)
    ensures forall i | 0 <= i < |Grown(t, r)| - 1 :: TwoBackups(Grown(t, r), i)
  {
    forall i | 0 <= i < |Grown(t, r)| - 1 ensures TwoBackups(Grown(t, r), i) {
      StillBacked(t, Grown(t, r), i);
    }
  }

  lemma RegistrationBacks(t: seq<Server>, r: Registration)
    requires |t| == 2 || (WellBacked(t) && |Grown(t, r)| > 3)
    requires |t| == 2 ==> AllActive(t)
    requires TwoActive(Grown(t, r)[..|Grown(t, r)| - 1]) && DistinctAddresses(Grown(t, r))
    ensures WellBacked(WithBackups(Grown(t, r)))
  {
    if |t| == 2 {
      ThirdBacks(Grown(t, r));
    } else {
      GrownBacked(t, r);
      LaterBacks(Grown(t, r));
    }
  }

  /** The last server of a table without two active ones before it gets no second backup. */
  lemma LastUncovered(t: seq<Server>)
    requires |t| >= 3 && !TwoActive(t[..|t| - 1])
    ensures WithLastBackups(t)[|t| - 1].backup2 == t[|t| - 1].backup2
  {
    var n := |t| - 1;
    assert forall x | 0 <= x < n :: t[..n][x].isActive == t[x].isActive;
  }

  lemma NobodyUnknown(t: seq<Server>)
    requires forall i | 0 <= i < |t| :: Somebody(At(t[i]))
    ensures !Known(t, NOBODY)
  {
  }

  /** A registration into a table with room leaves everyone, the newcomer included, with two
      backups exactly when two of the servers before it are active. */
  lemma RegistrationBacksExact(t: seq<Server>, r: Registration)
    requires 2 <= |t| < MAX_CONNECTIONS && DistinctAddresses(t + [NewServer(r)])
    requires forall i | 0 <= i <= |t| :: Somebody(At((t + [NewServer(r)])[i]))
    requires |t| >= 3 ==> WellBacked(t)
    ensures WellBacked(WithBackups(Grown(t, r))) <==> TwoActive(t)
  {
    hide WithBackups, IndexOf;
    assert Grown(t, r)[..|t|] == t;
    if TwoActive(t) {
      RegistrationBacks(t, r);
    } else {
      UncoveredLast(t, r);
      NobodyUnknown(Grown(t, r));
      WithBackupsRebacked(Grown(t, r));
      RebackedTable(Grown(t, r), WithBackups(Grown(t, r)));
      assert !TwoBackups(WithBackups(Grown(t, r)), |t|);
    }
  }

  lemma UncoveredLast(t: seq<Server>, r: Registration)
    requires 2 <= |t| < MAX_CONNECTIONS && !TwoActive(t)
    ensures |WithBackups(Grown(t, r))| == |t| + 1 && WithBackups(Grown(t, r))[|t|].backup2 == NOBODY
  {
    hide TwoActive, WithFirstBackups, Highest;
    FirstKeeps(t, r);
    LastUncovered(if |t| == 2 then WithFirstBackups(Grown(t, r)) else Grown(t, r));
  }

  lemma FirstKeeps(t: seq<Server>, r: Registration)
    requires 2 <= |t| < MAX_CONNECTIONS && !TwoActive(t)
    ensures
      var t1 := Grown(t, r);
      var t2 := if |t1| == 3 then WithFirstBackups(t1) else t1;
      |t2| == |t1| && t2[|t|].backup2 == NOBODY && !TwoActive(t2[..|t|])
  {
    var t1 := Grown(t, r);
    var t2 := if |t1| == 3 then WithFirstBackups(t1) else t1;
    assert forall i | 0 <= i < |t| :: t2[..|t|][i].isActive == t[i].isActive;
  }

  /** The condition on registrations, with room in the table, is exact. */
  lemma CoveredExact(st: State, s: Step)
    requires Inv(st) && Enabled(st, s) && Registers(st, s) && 2 <= |st.servers| < MAX_CONNECTIONS
    requires |st.servers| >= 3 ==> WellBacked(st.servers)
    ensures Covered(st, s) <==> WellBacked(Next(st, s).servers)
  {
    hide WithBackups, WellBacked, IndexOf;
    NewServerTable(st.servers, NewServer(s.r));
    RegisteredTable(st, s.r, s.disk);
    assert Grown(st.servers, s.r)[..|st.servers|] == st.servers;
    RegistrationBacksExact(st.servers, s.r);
  }

  ghost predicate CoveredRun(st: State, steps: seq<Step>) {
    steps == [] ||
    (CoveredRun(st, steps[..|steps| - 1]) && Covered(Run(st, steps[..|steps| - 1]), steps[|steps| - 1]))
  }

  lemma RegisterBacked(st: State, s: Step)
    requires Inv(st) && Enabled(st, s) && Covered(st, s) && Registers(st, s)
    requires |st.servers| >= 3 ==> WellBacked(st.servers)
    ensures |WithBackups(Grown(st.servers, s.r))| >= 3 ==> WellBacked(WithBackups(Grown(st.servers, s.r)))
  {
    if |st.servers| >= 2 {
      GrownDistinct(st, s);
      RegistrationBacks(st.servers, s.r);
    }
  }

  lemma KeptBacked(t: seq<Server>, t': seq<Server>)
    requires WellBacked(t) && Kept(t, t') && |t| == |t'|
    ensures WellBacked(t')
  {
    forall i | 0 <= i < |t| ensures TwoBackups(t', i) { TwoBackupsKept(t, t', i); }
  }

  lemma StepBacked(st: State, s: Step)
    requires Inv(st) && Enabled(st, s) && Covered(st, s)
    requires |st.servers| >= 3 ==> WellBacked(st.servers)
    ensures |Next(st, s).servers| >= 3 ==> WellBacked(Next(st, s).servers)
  {
    if Registers(st, s) {
      RegisteredTable(st, s.r, s.disk);
      RegisterBacked(st, s);
    } else {
      StepKept(st, s);
      if |st.servers| >= 3 { KeptBacked(st.servers, Next(st, s).servers); }
    }
  }

  lemma GrownDistinct(st: State, s: Step)
    requires Inv(st) && Enabled(st, s) && Registers(st, s)
    ensures DistinctAddresses(Grown(st.servers, s.r))
    ensures |st.servers| == 2 && Covered(st, s) ==> AllActive(st.servers)
  {
    NewServerTable(st.servers, NewServer(s.r));
    if |st.servers| == 2 {
      assert Grown(st.servers, s.r)[..2] == st.servers;
    }
  }

  /** Once three servers are there, every server has two backups, different from it and
      from each other. */
  lemma {:induction false} AlwaysTwoBackups(steps: seq<Step>)
    requires Possible(EMPTY_STATE, steps) && CoveredRun(EMPTY_STATE, steps)
    ensures |Run(EMPTY_STATE, steps).servers| >= 3 ==> WellBacked(Run(EMPTY_STATE, steps).servers)
  {
    if steps != [] {
      var before := steps[..|steps| - 1];
      AlwaysTwoBackups(before);
      DeferredLog(EMPTY_STATE, before);
      StepBacked(Run(EMPTY_STATE, before), steps[|steps| - 1]);
    }
  }

  // ----- the layout

  /** 0 -> (1, 2), 1 -> (0, 2), i -> (i - 1, i - 2). */
  ghost predicate Layout(t: seq<Server>) {
    |t| >= 3 ==>
      && t[0].backup1 == At(t[1]) && t[0].backup2 == At(t[2])
      && t[1].backup1 == At(t[0]) && t[1].backup2 == At(t[2])
      && forall i | 2 <= i < |t| :: t[i].backup1 == At(t[i - 1]) && t[i].backup2 == At(t[i - 2])
  }

  ghost predicate CalmRun(st: State, steps: seq<Step>) {
    steps == [] ||
    (CalmRun(st, steps[..|steps| - 1]) &&
     (Registers(Run(st, steps[..|steps| - 1]), steps[|steps| - 1]) ==> AllActive(Run(st, steps[..|steps| - 1]).servers)))
  }

  lemma LayoutRegistered(t: seq<Server>, r: Registration)
    requires Layout(t) && AllActive(t)
    ensures Layout(WithBackups(Grown(t, r)))
  {
    hide WithBackups;
    var t1 := Grown(t, r);
    if |t1| == 3 {
      FirstBackups(t1);
    } else if |t1| > 3 {
      LastOfActive(t1);
    } else {
      FewBackups(t1);
    }
  }

  lemma FewBackups(t: seq<Server>)
    requires |t| < 3
    ensures WithBackups(t) == t
  {
  }

  lemma LastOfActive(t: seq<Server>)
    requires |t| > 3 && AllActive(t)
    ensures
      var n := |t| - 1;
      WithBackups(t) == t[n := t[n].(backup1 := At(t[n - 1]), backup2 := At(t[n - 2]))]
  {
    var n := |t| - 1;
    assert Highest(t, n) == n - 1 && Highest(t, n - 1) == n - 2;
  }

  lemma LayoutKept(t: seq<Server>, t': seq<Server>)
    requires Layout(t) && Kept(t, t') && |t| == |t'|
    ensures Layout(t')
  {
    assert forall i | 0 <= i < |t| :: SameRole(t[i], t'[i]);
  }

  /** When every server registers while all earlier ones are active, the layout of backups
      is fixed by the order of registration, whatever happens in between and after. */
  lemma {:induction false} LayoutOfBackups(steps: seq<Step>)
    requires CalmRun(EMPTY_STATE, steps)
    ensures Layout(Run(EMPTY_STATE, steps).servers)
  {
    if steps != [] {
      var before, s := steps[..|steps| - 1], steps[|steps| - 1];
      var st := Run(EMPTY_STATE, before);
      LayoutOfBackups(before);
      if Registers(st, s) {
        RegisteredTable(st, s.r, s.disk);
        LayoutRegistered(st.servers, s.r);
      } else {
        StepKept(st, s);
        LayoutKept(st.servers, Next(st, s).servers);
      }
    }
  }
}
