/** The tables of files being read and written on a storage server, at the granularity of
    their two locks (file_manager.c): a request is a thread that goes through critical
    sections one by one, in any interleaving with others. */
module InFlight {
  import opened Types
  import Lru

  const MAX_PATHS := 4026

  /** The text " --sync". */
  const SYNC: Path := [32, 45, 45, 115, 121, 110, 99]

  datatype Kind = Reading | Writing | Deleting

  /** Started: before the first lock. Checked: the check passed, not yet registered (for a
      deletion: between its two scans). Busy: reading, writing, deleting. Failed: returned
      early, leaving its entry behind. */
  datatype Phase = Started | Checked | Busy | Failed | Done | Refused

  /** `checked` and `registered` are the moments of the first and the second critical
      section. No code reads them. */
  datatype Request = Request(kind: Kind, path: Path, phase: Phase, checked: nat, registered: nat)

  datatype State = State(readers: seq<Path>, writers: seq<Path>, requests: seq<Request>, now: nat)

  const IDLE := State([], [], [], 1)

  // ----- the tables

  /** add_accessible_path: a full table drops the path. */
  function Appended(t: seq<Path>, p: Path): seq<Path> {
    if |t| < MAX_PATHS then t + [p] else t
  }

  /** delete_accessible_path: the first occurrence goes, the rest moves up. */
  function Removed(t: seq<Path>, p: Path): seq<Path> {
    Lru.Without(t, p)
  }

  /** The scan of delete_file_or_directory, with is_prefix. */
  predicate SomeBelow(t: seq<Path>, p: Path) {
    exists q <- t :: p <= q
  }

  /** The place of the first " --sync", or |p|. */
  function SyncPlace(p: Path): (i: nat)
    ensures i <= |p| && (i < |p| ==> SYNC <= p[i..])
    ensures forall j | 0 <= j < i :: !(SYNC <= p[j..])
  {
    if p == [] || SYNC <= p then 0
    else
      var i := SyncPlace(p[1..]);
      assert forall j | 0 < j <= |p| :: p[j..] == p[1..][j - 1..];
      1 + i
  }

  /** The name under which write_file opens the file and takes it out of the table. */
  function Stripped(p: Path): Path {
    p[..SyncPlace(p)]
  }

  // ----- steps

  datatype Step =
    | Arrive(kind: Kind, path: Path)
    | Advance(i: nat)     // the next critical section of a request
    | Fail(i: nat)        // an error return between registration and removal

  function With(st: State, i: nat, r: Request): State
    requires i < |st.requests|
  {
    st.(requests := st.requests[i := r], now := st.now + 1)
  }

  /** The check that stands before registration. */
  predicate Conflict(st: State, r: Request) {
    match r.kind
    case Reading => r.path in st.writers
    case Writing => r.path in st.readers
    case Deleting => SomeBelow(st.writers, r.path)
  }

  function Registered(st: State, i: nat): State
    requires i < |st.requests|
  {
    var r := st.requests[i];
    var st' := With(st, i, r.(phase := Busy, registered := st.now));
    match r.kind
    case Reading => st'.(readers := Appended(st.readers, r.path))
    case Writing => st'.(writers := Appended(st.writers, r.path))
    case Deleting =>
      if SomeBelow(st.readers, r.path) then With(st, i, r.(phase := Refused)) else st'
  }

  function Finished(st: State, i: nat): State
    requires i < |st.requests|
  {
    var r := st.requests[i];
    var st' := With(st, i, r.(phase := Done));
    match r.kind
    case Reading => st'.(readers := Removed(st.readers, r.path))
    case Writing => st'.(writers := Removed(st.writers, Stripped(r.path)))
    case Deleting => st'
  }

  function Next(st: State, s: Step): State {
    match s
    case Arrive(k, p) => st.(requests := st.requests + [Request(k, p, Started, 0, 0)], now := st.now + 1)
    case Advance(i) =>
      if i >= |st.requests| then st
      else
        var r := st.requests[i];
        (match r.phase
         case Started => With(st, i, if Conflict(st, r) then r.(phase := Refused) else r.(phase := Checked, checked := st.now))
         case Checked => Registered(st, i)
         case Busy => Finished(st, i)
         case _ => st)
    case Fail(i) =>
      if i < |st.requests| && st.requests[i].phase == Busy then With(st, i, st.requests[i].(phase := Failed)) else st
  }

  function Run(st: State, steps: seq<Step>): State {
    if steps == [] then st else Next(Run(st, steps[..|steps| - 1]), steps[|steps| - 1])
  }

  // ----- accounting

  predicate Is(r: Request, k: Kind, ph: Phase, p: Path) {
    r.kind == k && r.phase == ph && r.path == p
  }

  /** The number of requests of one kind for one path that are in one phase. */
  ghost function Count(rs: seq<Request>, k: Kind, ph: Phase, p: Path): nat {
    if rs == [] then 0 else Count(rs[..|rs| - 1], k, ph, p) + if Is(rs[|rs| - 1], k, ph, p) then 1 else 0
  }

  lemma {:induction false} CountUpdate(rs: seq<Request>, i: nat, r: Request, k: Kind, ph: Phase, p: Path)
    requires i < |rs|
    ensures Count(rs[i := r], k, ph, p) ==
      Count(rs, k, ph, p) - (if Is(rs[i], k, ph, p) then 1 else 0) + (if Is(r, k, ph, p) then 1 else 0)
  {
    var n := |rs| - 1;
    if i == n {
      assert rs[i := r][..n] == rs[..n];
    } else {
      assert rs[i := r][..n] == rs[..n][i := r];
      CountUpdate(rs[..n], i, r, k, ph, p);
    }
  }

  lemma {:induction false} CountHas(rs: seq<Request>, i: nat)
    requires i < |rs|
    ensures Count(rs, rs[i].kind, rs[i].phase, rs[i].path) > 0
  {
    var n := |rs| - 1;
    if i < n {
      assert rs[..n][i] == rs[i];
      CountHas(rs[..n], i);
    }
  }

  lemma {:induction false} NoneCounted(rs: seq<Request>, k: Kind, ph: Phase, p: Path)
    ensures Count(rs, k, ph, p) == 0 <==> forall i | 0 <= i < |rs| :: !Is(rs[i], k, ph, p)
  {
    if rs != [] {
      var n := |rs| - 1;
      NoneCounted(rs[..n], k, ph, p);
      assert forall i | 0 <= i < n :: rs[..n][i] == rs[i];
    }
  }

  /** The entries for `p` that a table should hold: one for each request in flight, and one
      for each that failed. */
  ghost function Due(rs: seq<Request>, k: Kind, p: Path): nat {
    Count(rs, k, Busy, p) + Count(rs, k, Failed, p)
  }

  predicate Holds(r: Request, k: Kind, p: Path) {
    Is(r, k, Busy, p) || Is(r, k, Failed, p)
  }

  lemma DueUpdate(rs: seq<Request>, i: nat, r: Request, k: Kind, p: Path)
    requires i < |rs|
    ensures Due(rs[i := r], k, p) ==
      Due(rs, k, p) - (if Holds(rs[i], k, p) then 1 else 0) + (if Holds(r, k, p) then 1 else 0)
  {
    CountUpdate(rs, i, r, k, Busy, p);
    CountUpdate(rs, i, r, k, Failed, p);
  }

  function Table(st: State, k: Kind): seq<Path> {
    if k == Reading then st.readers else st.writers
  }

  /** Occurrence by occurrence, a table holds what it should. */
  ghost predicate Balanced(st: State, k: Kind) {
    forall p :: multiset(Table(st, k))[p] == Due(st.requests, k, p)
  }

  ghost predicate Accounted(st: State) {
    Balanced(st, Reading) && Balanced(st, Writing)
  }

  /** A normal completion takes out one occurrence and keeps the order of the rest. */
  lemma RemovedMeaning(t: seq<Path>, p: Path)
    ensures p !in t ==> Removed(t, p) == t
    ensures p in t ==> multiset(Removed(t, p)) == multiset(t) - multiset{p}
    ensures p in t ==> exists k | 0 <= k < |t| :: t[k] == p && p !in t[..k] && Removed(t, p) == t[..k] + t[k + 1..]
  {
    var k := Lru.Position(t, p);
    if k < |t| {
      assert t == t[..k] + [p] + t[k + 1..];
    }
  }

  lemma RemovedCount(t: seq<Path>, p: Path, q: Path)
    ensures multiset(Removed(t, p))[q] == multiset(t)[q] - if q == p && p in t then 1 else 0
  {
    RemovedMeaning(t, p);
    assert p in t <==> multiset(t)[p] > 0;
  }

  lemma AppendedCount(t: seq<Path>, p: Path, q: Path)
    ensures multiset(Appended(t, p))[q] == multiset(t)[q] + if q == p && |t| < MAX_PATHS then 1 else 0
  {
  }

  /** The table that a request enters has room, and no write with the suffix ends. */
  predicate Guard(st: State, s: Step) {
    s.Advance? && s.i < |st.requests| ==>
      var r := st.requests[s.i];
      && (r.phase == Checked && r.kind != Deleting ==> |Table(st, r.kind)| < MAX_PATHS)
      && (r.phase == Busy && r.kind == Writing ==> Stripped(r.path) == r.path)
  }

  lemma HeldIsThere(st: State, i: nat)
    requires Accounted(st) && i < |st.requests| && st.requests[i].kind != Deleting
    requires st.requests[i].phase == Busy || st.requests[i].phase == Failed
    ensures st.requests[i].path in Table(st, st.requests[i].kind)
  {
    var r := st.requests[i];
    CountHas(st.requests, i);
    assert Balanced(st, r.kind);
    assert multiset(Table(st, r.kind))[r.path] > 0;
  }

  /** A step that leaves a table and what is due from it alone. */
  lemma Unaffected(st: State, i: nat, r: Request, st': State, k: Kind)
    requires i < |st.requests| && st'.requests == st.requests[i := r]
    requires Table(st', k) == Table(st, k)
    requires forall p :: Holds(r, k, p) <==> Holds(st.requests[i], k, p)
    ensures Balanced(st', k) <==> Balanced(st, k)
  {
    forall p ensures Due(st'.requests, k, p) == Due(st.requests, k, p) {
      DueUpdate(st.requests, i, r, k, p);
    }
  }

  /** How far a table is off at `p`. */
  ghost function Off(st: State, k: Kind, p: Path): int {
    multiset(Table(st, k))[p] - Due(st.requests, k, p)
  }

  lemma BalancedOff(st: State, k: Kind)
    ensures Balanced(st, k) <==> forall p :: Off(st, k, p) == 0
  {
    if !Balanced(st, k) {
      var p :| multiset(Table(st, k))[p] != Due(st.requests, k, p);
      assert Off(st, k, p) != 0;
    }
    if Balanced(st, k) {
      forall p ensures Off(st, k, p) == 0 { assert multiset(Table(st, k))[p] == Due(st.requests, k, p); }
    }
  }

  lemma RegisterOff(st: State, i: nat, p: Path)
    requires i < |st.requests| && st.requests[i].phase == Checked && st.requests[i].kind != Deleting
    ensures
      var r := st.requests[i];
      Off(Registered(st, i), r.kind, p) ==
        Off(st, r.kind, p) - if p == r.path && |Table(st, r.kind)| >= MAX_PATHS then 1 else 0
  {
    hide Due;
    var r, st' := st.requests[i], Registered(st, i);
    DueUpdate(st.requests, i, st'.requests[i], r.kind, p);
    AppendedCount(Table(st, r.kind), r.path, p);
  }

  lemma RegisterBalanced(st: State, i: nat)
    requires Accounted(st) && i < |st.requests| && st.requests[i].phase == Checked && st.requests[i].kind != Deleting
    ensures Balanced(Registered(st, i), st.requests[i].kind) <==> |Table(st, st.requests[i].kind)| < MAX_PATHS
  {
    var r := st.requests[i];
    BalancedOff(st, r.kind);
    BalancedOff(Registered(st, i), r.kind);
    forall p ensures Off(Registered(st, i), r.kind, p) ==
      if p == r.path && |Table(st, r.kind)| >= MAX_PATHS then -1 else 0
    {
      RegisterOff(st, i, p);
    }
    assert Off(Registered(st, i), r.kind, r.path) <= 0;
  }

  lemma RegisterAccounted(st: State, i: nat)
    requires Accounted(st) && i < |st.requests| && st.requests[i].phase == Checked
    ensures Accounted(Registered(st, i)) <==> Guard(st, Advance(i))
  {
    var r, st' := st.requests[i], Registered(st, i);
    if r.kind != Deleting { RegisterBalanced(st, i); }
    if r.kind != Reading { Unaffected(st, i, st'.requests[i], st', Reading); }
    if r.kind != Writing { Unaffected(st, i, st'.requests[i], st', Writing); }
  }

  /** What a request takes out of its table when it ends. */
  function TakesOut(r: Request): Path {
    if r.kind == Writing then Stripped(r.path) else r.path
  }

  lemma FinishOff(st: State, i: nat, p: Path)
    requires i < |st.requests| && st.requests[i].phase == Busy && st.requests[i].kind != Deleting
    ensures
      var r := st.requests[i];
      Off(Finished(st, i), r.kind, p) ==
        Off(st, r.kind, p) + (if p == r.path then 1 else 0)
        - (if p == TakesOut(r) && TakesOut(r) in Table(st, r.kind) then 1 else 0)
  {
    hide Due, Removed, Stripped;
    var r, st' := st.requests[i], Finished(st, i);
    DueUpdate(st.requests, i, st'.requests[i], r.kind, p);
    RemovedCount(Table(st, r.kind), TakesOut(r), p);
  }

  lemma FinishBalanced(st: State, i: nat)
    requires Accounted(st) && i < |st.requests| && st.requests[i].phase == Busy && st.requests[i].kind != Deleting
    ensures Balanced(Finished(st, i), st.requests[i].kind) <==> Guard(st, Advance(i))
  {
    var r := st.requests[i];
    HeldIsThere(st, i);
    BalancedOff(st, r.kind);
    BalancedOff(Finished(st, i), r.kind);
    forall p ensures Off(Finished(st, i), r.kind, p) ==
      (if p == r.path then 1 else 0) - (if p == TakesOut(r) && TakesOut(r) in Table(st, r.kind) then 1 else 0)
    {
      FinishOff(st, i, p);
    }
    assert Off(Finished(st, i), r.kind, r.path) >= 0;
  }

  lemma FinishAccounted(st: State, i: nat)
    requires Accounted(st) && i < |st.requests| && st.requests[i].phase == Busy
    ensures Accounted(Finished(st, i)) <==> Guard(st, Advance(i))
  {
    var r, st' := st.requests[i], Finished(st, i);
    if r.kind != Deleting { FinishBalanced(st, i); }
    if r.kind != Reading { Unaffected(st, i, st'.requests[i], st', Reading); }
    if r.kind != Writing { Unaffected(st, i, st'.requests[i], st', Writing); }
  }

  lemma ArriveAccounted(st: State, k: Kind, p: Path)
    requires Accounted(st)
    ensures Accounted(Next(st, Arrive(k, p)))
  {
    var st' := Next(st, Arrive(k, p));
    assert st'.requests[..|st.requests|] == st.requests;
    forall k', q ensures Due(st'.requests, k', q) == Due(st.requests, k', q) {
    }
  }

  /** From accounted tables, a step leaves accounted tables exactly when its guard holds. */
  lemma StepAccounted(st: State, s: Step)
    requires Accounted(st)
    ensures Accounted(Next(st, s)) <==> Guard(st, s)
  {
    var st' := Next(st, s);
    match s
    case Arrive(k, p) => ArriveAccounted(st, k, p);
    case Advance(i) =>
      if i < |st.requests| {
        match st.requests[i].phase
        case Checked => RegisterAccounted(st, i);
        case Busy => FinishAccounted(st, i);
        case Started =>
          Unaffected(st, i, st'.requests[i], st', Reading);
          Unaffected(st, i, st'.requests[i], st', Writing);
        case _ =>
      }
    case Fail(i) =>
      if i < |st.requests| && st.requests[i].phase == Busy {
        Unaffected(st, i, st'.requests[i], st', Reading);
        Unaffected(st, i, st'.requests[i], st', Writing);
      }
  }

  ghost predicate Guarded(st: State, steps: seq<Step>) {
    steps == [] ||
    (Guarded(st, steps[..|steps| - 1]) && Guard(Run(st, steps[..|steps| - 1]), steps[|steps| - 1]))
  }

  ghost predicate AlwaysAccounted(st: State, steps: seq<Step>) {
    Accounted(Run(st, steps)) && (steps != [] ==> AlwaysAccounted(st, steps[..|steps| - 1]))
  }

  /** Over any run, with early error returns at any moment: the tables are accounted for
      all the time if and only if no table was full when a request entered it and no
      write with the suffix came to its end. */
  lemma {:induction false} AccountingExact(st: State, steps: seq<Step>)
    requires Accounted(st)
    ensures AlwaysAccounted(st, steps) <==> Guarded(st, steps)
  {
    if steps != [] {
      var before := steps[..|steps| - 1];
      AccountingExact(st, before);
      if AlwaysAccounted(st, before) {
        StepAccounted(Run(st, before), steps[|steps| - 1]);
      }
    }
  }

  /** So the tables never miss a request in flight. */
  lemma TablesOverApproximate(steps: seq<Step>, k: Kind, p: Path)
    requires Guarded(IDLE, steps) && k != Deleting
    ensures Count(Run(IDLE, steps).requests, k, Busy, p) <= multiset(Table(Run(IDLE, steps), k))[p]
  {
    AccountingExact(IDLE, steps);
    assert Balanced(Run(IDLE, steps), k);
  }

  /** A write with the suffix, run alone, leaves its entry in the table for good. */
  lemma SuffixedWriteLeaks(p: Path)
    requires Stripped(p) != p
    ensures
      var st := Run(IDLE, [Arrive(Writing, p), Advance(0), Advance(0), Advance(0)]);
      |st.requests| == 1 && st.requests[0].phase == Done && st.writers == [p]
  {
    RunFour(IDLE, Arrive(Writing, p), Advance(0), Advance(0), Advance(0));
    RemovedMeaning([p], Stripped(p));
  }

  lemma RunFour(st: State, a: Step, b: Step, c: Step, d: Step)
    ensures Run(st, [a, b, c, d]) == Next(Next(Next(Next(st, a), b), c), d)
  {
    RunAfter(st, [], a);
    RunAfter(st, [a], b);
    RunAfter(st, [a, b], c);
    RunAfter(st, [a, b, c], d);
    assert [] + [a] == [a] && [a] + [b] == [a, b] && [a, b] + [c] == [a, b, c] && [a, b, c] + [d] == [a, b, c, d];
  }

  lemma RunAfter(st: State, steps: seq<Step>, s: Step)
    ensures Run(st, steps + [s]) == Next(Run(st, steps), s)
  {
    assert (steps + [s])[..|steps|] == steps;
  }

  // ----- what each critical section does

  /** The name is cut at the first " --sync", in bytes. */
  lemma StrippedOutcome(p: Path, i: nat)
    requires i <= |p| && (i < |p| ==> [32, 45, 45, 115, 121, 110, 99] <= p[i..])
    requires forall j | 0 <= j < i :: !([32, 45, 45, 115, 121, 110, 99] <= p[j..])
    ensures Stripped(p) == p[..i]
  {
    assert SYNC == [32, 45, 45, 115, 121, 110, 99];
    assert !(SyncPlace(p) < i) && !(i < SyncPlace(p));
  }

  /** A request arrives, is checked, enters its table unless that holds 4026 paths, and in the end
      takes the first occurrence of its name out, at `k`; or fails and leaves it. No section
      touches the other table or another request. */
  lemma SectionOutcome(st: State, i: nat, k: nat)
    requires i < |st.requests|
    requires
      var r := st.requests[i];
      r.phase == Busy && r.kind != Deleting ==>
        var t, name := Table(st, r.kind), if r.kind == Writing then Stripped(r.path) else r.path;
        k <= |t| && name !in t[..k] && (k < |t| ==> t[k] == name)
    ensures
      var r, next := st.requests[i], Next(st, Advance(i));
      && |next.requests| == |st.requests|
      && (forall j | 0 <= j < |st.requests| && j != i :: next.requests[j] == st.requests[j])
      && next.requests[i].kind == r.kind && next.requests[i].path == r.path
      && (r.phase == Started ==> next.requests[i].phase in {Checked, Refused} && next.readers == st.readers && next.writers == st.writers)
      && (r.phase == Checked && r.kind == Reading ==>
            && next.requests[i].phase == Busy && next.writers == st.writers
            && next.readers == if |st.readers| < 4026 then st.readers + [r.path] else st.readers)
      && (r.phase == Checked && r.kind == Writing ==>
            && next.requests[i].phase == Busy && next.readers == st.readers
            && next.writers == if |st.writers| < 4026 then st.writers + [r.path] else st.writers)
      && (r.phase == Checked && r.kind == Deleting ==>
            next.requests[i].phase in {Busy, Refused} && next.readers == st.readers && next.writers == st.writers)
      && (r.phase == Busy ==> next.requests[i].phase == Done)
      && (r.phase == Busy && r.kind == Reading ==>
            next.writers == st.writers && next.readers == if k < |st.readers| then st.readers[..k] + st.readers[k + 1..] else st.readers)
      && (r.phase == Busy && r.kind == Writing ==>
            next.readers == st.readers && next.writers == if k < |st.writers| then st.writers[..k] + st.writers[k + 1..] else st.writers)
      && (r.phase in {Failed, Done, Refused} || (r.phase == Busy && r.kind == Deleting) ==>
            next.readers == st.readers && next.writers == st.writers)
  {
    hide Stripped;
    var r := st.requests[i];
    if r.phase == Busy && r.kind != Deleting {
      FirstPlace(Table(st, r.kind), if r.kind == Writing then Stripped(r.path) else r.path, k);
    }
  }

  lemma FirstPlace(t: seq<Path>, p: Path, k: nat)
    requires k <= |t| && p !in t[..k] && (k < |t| ==> t[k] == p)
    ensures Removed(t, p) == if k < |t| then t[..k] + t[k + 1..] else t
  {
    assert forall j | 0 <= j < k :: t[j] == t[..k][j];
    assert !(Lru.Position(t, p) < k);
    assert forall j | 0 <= j < Lru.Position(t, p) :: t[j] == t[..Lru.Position(t, p)][j];
    assert !(k < Lru.Position(t, p));
  }

  lemma ArrivalAndFailure(st: State, kind: Kind, p: Path, i: nat)
    ensures
      var next := Next(st, Arrive(kind, p));
      && next.readers == st.readers && next.writers == st.writers
      && |next.requests| == |st.requests| + 1 && next.requests[..|st.requests|] == st.requests
      && var r := next.requests[|st.requests|];
      r.kind == kind && r.path == p && r.phase == Started
    ensures
      var next := Next(st, Fail(i));
      && next.readers == st.readers && next.writers == st.writers
      && (i < |st.requests| && st.requests[i].phase == Busy ==> next.requests == st.requests[i := st.requests[i].(phase := Failed)])
      && (!(i < |st.requests| && st.requests[i].phase == Busy) ==> next == st)
  {
  }

  // ----- whom a check refuses

  /** What the first critical section of `r` looks for, and the second of a deletion. */
  predicate FirstLooksFor(r: Request, x: Request) {
    match r.kind
    case Reading => x.kind == Writing && x.path == r.path
    case Writing => x.kind == Reading && x.path == r.path
    case Deleting => x.kind == Writing && r.path <= x.path
  }

  predicate SecondLooksFor(r: Request, x: Request) {
    r.kind == Deleting && x.kind == Reading && r.path <= x.path
  }

  predicate Stays(x: Request) {
    x.phase == Busy || x.phase == Failed
  }

  /** An entry stands for a request that is in flight or failed. */
  lemma EntryMeaning(st: State, k: Kind, p: Path)
    requires Accounted(st) && k != Deleting
    ensures p in Table(st, k) <==> exists i :: 0 <= i < |st.requests| && Holds(st.requests[i], k, p)
  {
    assert Balanced(st, k);
    assert p in Table(st, k) <==> multiset(Table(st, k))[p] > 0;
    NoneCounted(st.requests, k, Busy, p);
    NoneCounted(st.requests, k, Failed, p);
  }

  /** The first check of a request refuses it exactly when one of those that it looks for is in
      flight or failed, whether or not the other has checked. */
  lemma FirstCheckExact(st: State, j: nat)
    requires Accounted(st) && j < |st.requests| && st.requests[j].phase == Started
    ensures Next(st, Advance(j)).requests[j].phase == Refused <==>
      exists i :: 0 <= i < |st.requests| && Stays(st.requests[i]) && FirstLooksFor(st.requests[j], st.requests[i])
  {
    var r := st.requests[j];
    match r.kind
    case Reading => EntryMeaning(st, Writing, r.path);
    case Writing => EntryMeaning(st, Reading, r.path);
    case Deleting => BelowMeaning(st, Writing, r.path);
  }

  lemma BelowMeaning(st: State, k: Kind, p: Path)
    requires Accounted(st) && k != Deleting
    ensures SomeBelow(Table(st, k), p) <==>
      exists i :: 0 <= i < |st.requests| && Stays(st.requests[i]) && st.requests[i].kind == k && p <= st.requests[i].path
  {
    if SomeBelow(Table(st, k), p) {
      var q :| q in Table(st, k) && p <= q;
      EntryMeaning(st, k, q);
      var i :| 0 <= i < |st.requests| && Holds(st.requests[i], k, q);
      assert Stays(st.requests[i]);
    }
    if i :| 0 <= i < |st.requests| && Stays(st.requests[i]) && st.requests[i].kind == k && p <= st.requests[i].path {
      HeldIsThere(st, i);
    }
  }

  /** And so does the second scan of a deletion. */
  lemma SecondScanExact(st: State, j: nat)
    requires Accounted(st) && j < |st.requests| && st.requests[j].phase == Checked && st.requests[j].kind == Deleting
    ensures Next(st, Advance(j)).requests[j].phase == Refused <==>
      exists i :: 0 <= i < |st.requests| && Stays(st.requests[i]) && SecondLooksFor(st.requests[j], st.requests[i])
  {
    BelowMeaning(st, Reading, st.requests[j].path);
  }

  // ----- an error return blocks the file

  lemma {:induction false} FailedStays(st: State, steps: seq<Step>, i: nat)
    requires i < |st.requests| && st.requests[i].phase == Failed
    ensures i < |Run(st, steps).requests| && Run(st, steps).requests[i] == st.requests[i]
  {
    if steps != [] { FailedStays(st, steps[..|steps| - 1], i); }
  }

  /** So after a read that failed, whatever happens, every check of a write to the file
      refuses; after a write that failed, every check of a read; after either, the scans of a
      deletion of the file or of a directory above it. */
  lemma FailureBlocks(st: State, steps: seq<Step>, i: nat, j: nat)
    requires Accounted(st) && Guarded(st, steps)
    requires i < |st.requests| && st.requests[i].phase == Failed
    requires j < |Run(st, steps).requests|
    ensures
      var x, now := st.requests[i], Run(st, steps);
      var r, r' := now.requests[j], Next(now, Advance(j)).requests[j];
      && (r.phase == Started && FirstLooksFor(r, x) ==> r'.phase == Refused)
      && (r.phase == Checked && SecondLooksFor(r, x) ==> r'.phase == Refused)
  {
    AccountingExact(st, steps);
    FailedStays(st, steps, i);
    var now := Run(st, steps);
    assert Stays(now.requests[i]);
    if now.requests[j].phase == Started { FirstCheckExact(now, j); }
    if now.requests[j].phase == Checked && now.requests[j].kind == Deleting { SecondScanExact(now, j); }
  }

  // ----- overlap

  /** Whoever is in flight in spite of `r` registered after `r` had looked. */
  predicate Separate(r: Request, x: Request) {
    x.phase == Busy ==>
      && (FirstLooksFor(r, x) && (r.phase == Checked || r.phase == Busy) ==> r.checked < x.registered)
      && (SecondLooksFor(r, x) && r.phase == Busy ==> r.registered < x.registered)
  }

  ghost predicate Timed(st: State) {
    && (forall i | 0 <= i < |st.requests| :: st.requests[i].checked < st.now && st.requests[i].registered < st.now)
    && (forall i, j | 0 <= i < |st.requests| && 0 <= j < |st.requests| :: Separate(st.requests[i], st.requests[j]))
    && (forall i, j | 0 <= i < j < |st.requests| :: st.requests[i].checked != st.requests[j].checked || st.requests[i].checked == 0)
  }

  /** A change of one request that is separate from the rest, both ways. */
  lemma ChangeTimed(st: State, i: nat, r: Request, st': State)
    requires Timed(st) && i < |st.requests|
    requires st'.requests == st.requests[i := r] && st'.now == st.now + 1
    requires r.checked <= st.now && r.registered <= st.now
    requires r.checked == st.requests[i].checked || r.checked == st.now
    requires forall j | 0 <= j < |st.requests| :: Separate(r, st.requests[j]) && Separate(st.requests[j], r)
    requires Separate(r, r)
    ensures Timed(st')
  {
  }

  lemma NoConflict(st: State, r: Request, j: nat)
    requires Accounted(st) && j < |st.requests| && st.requests[j].phase == Busy
    ensures FirstLooksFor(r, st.requests[j]) ==> Conflict(st, r)
    ensures SecondLooksFor(r, st.requests[j]) ==> SomeBelow(st.readers, r.path)
  {
    if st.requests[j].kind != Deleting { HeldIsThere(st, j); }
  }

  lemma CheckTimed(st: State, i: nat)
    requires Accounted(st) && Timed(st) && i < |st.requests| && st.requests[i].phase == Started
    ensures Timed(Next(st, Advance(i)))
  {
    var r' := Next(st, Advance(i)).requests[i];
    forall j | 0 <= j < |st.requests| ensures Separate(r', st.requests[j]) && Separate(st.requests[j], r') {
      if st.requests[j].phase == Busy { NoConflict(st, st.requests[i], j); }
    }
    ChangeTimed(st, i, r', Next(st, Advance(i)));
  }

  lemma RegisterTimed(st: State, i: nat)
    requires Accounted(st) && Timed(st) && i < |st.requests| && st.requests[i].phase == Checked
    ensures Timed(Next(st, Advance(i)))
  {
    var r, r' := st.requests[i], Next(st, Advance(i)).requests[i];
    forall j | 0 <= j < |st.requests| ensures Separate(r', st.requests[j]) && Separate(st.requests[j], r') {
      assert Separate(r, st.requests[j]) && Separate(st.requests[j], r);
      if st.requests[j].phase == Busy { NoConflict(st, r, j); }
    }
    ChangeTimed(st, i, r', Next(st, Advance(i)));
  }

  /** The end of a request, or an error return. */
  lemma EndTimed(st: State, i: nat, r: Request, st': State)
    requires Timed(st) && i < |st.requests| && st.requests[i].phase == Busy
    requires r == st.requests[i].(phase := r.phase) && (r.phase == Done || r.phase == Failed)
    requires st'.requests == st.requests[i := r] && st'.now == st.now + 1
    ensures Timed(st')
  {
    ChangeTimed(st, i, r, st');
  }

  lemma ArriveTimed(st: State, k: Kind, p: Path)
    requires Timed(st)
    ensures Timed(Next(st, Arrive(k, p)))
  {
  }

  lemma StepTimed(st: State, s: Step)
    requires Accounted(st) && Timed(st)
    ensures Timed(Next(st, s))
  {
    match s
    case Arrive(k, p) => ArriveTimed(st, k, p);
    case Advance(i) =>
      if i < |st.requests| {
        match st.requests[i].phase
        case Started => CheckTimed(st, i);
        case Checked => RegisterTimed(st, i);
        case Busy => EndTimed(st, i, Next(st, s).requests[i], Next(st, s));
        case _ =>
      }
    case Fail(i) =>
      if i < |st.requests| && st.requests[i].phase == Busy {
        EndTimed(st, i, Next(st, s).requests[i], Next(st, s));
      }
  }

  lemma {:induction false} RunTimed(steps: seq<Step>)
    requires Guarded(IDLE, steps)
    ensures Timed(Run(IDLE, steps)) && Accounted(Run(IDLE, steps))
  {
    AccountingExact(IDLE, steps);
    if steps != [] {
      var before := steps[..|steps| - 1];
      RunTimed(before);
      StepTimed(Run(IDLE, before), steps[|steps| - 1]);
    }
  }

  /** A reader and a writer of the same file that are in flight together: each one's check
      came before the other's registration. */
  lemma ReaderMeetsWriter(steps: seq<Step>, i: nat, j: nat)
    requires Guarded(IDLE, steps) && i < |Run(IDLE, steps).requests| && j < |Run(IDLE, steps).requests|
    requires
      var r, w := Run(IDLE, steps).requests[i], Run(IDLE, steps).requests[j];
      r.kind == Reading && w.kind == Writing && r.path == w.path && r.phase == Busy && w.phase == Busy
    ensures
      var r, w := Run(IDLE, steps).requests[i], Run(IDLE, steps).requests[j];
      r.checked < w.registered && w.checked < r.registered
  {
    RunTimed(steps);
    var rs := Run(IDLE, steps).requests;
    assert Separate(rs[i], rs[j]) && Separate(rs[j], rs[i]);
  }

  /** A deletion that passed its scans and a reader or writer at or below its path, in
      flight together: the other one registered after the scan that looks for it. */
  lemma DeletionMeetsUser(steps: seq<Step>, i: nat, j: nat)
    requires Guarded(IDLE, steps) && i < |Run(IDLE, steps).requests| && j < |Run(IDLE, steps).requests|
    requires
      var d, x := Run(IDLE, steps).requests[i], Run(IDLE, steps).requests[j];
      d.kind == Deleting && d.path <= x.path && d.phase == Busy && x.phase == Busy
    ensures
      var d, x := Run(IDLE, steps).requests[i], Run(IDLE, steps).requests[j];
      (x.kind == Writing ==> d.checked < x.registered) && (x.kind == Reading ==> d.registered < x.registered)
  {
    RunTimed(steps);
    var rs := Run(IDLE, steps).requests;
    assert Separate(rs[i], rs[j]);
  }

  /** The overlap does happen: two critical sections, the check and the registration, let
      both pass their checks first. */
  lemma OverlapHappens(p: Path)
    ensures
      var st := Run(IDLE, [Arrive(Reading, p), Arrive(Writing, p), Advance(0), Advance(1), Advance(0), Advance(1)]);
      |st.requests| == 2 && st.requests[0].phase == Busy && st.requests[1].phase == Busy
  {
    var a, b, c, d := Arrive(Reading, p), Arrive(Writing, p), Advance(0), Advance(1);
    var st := Run(IDLE, [a, b, c, d]);
    RunFour(IDLE, a, b, c, d);
    assert st == State([], [], [Request(Reading, p, Checked, 3, 0), Request(Writing, p, Checked, 4, 0)], 5);
    RunAfter(IDLE, [a, b, c, d], c);
    RunAfter(IDLE, [a, b, c, d, c], d);
    assert [a, b, c, d] + [c] == [a, b, c, d, c] && [a, b, c, d, c] + [d] == [a, b, c, d, c, d];
  }

  /** It would not, were each check and registration one section: then no reader and writer
      of a file are ever in flight together. */
  lemma AtomicIsExclusive(steps: seq<Step>, i: nat, j: nat)
    requires Guarded(IDLE, steps) && i < |Run(IDLE, steps).requests| && j < |Run(IDLE, steps).requests|
    requires
      var r, w := Run(IDLE, steps).requests[i], Run(IDLE, steps).requests[j];
      && r.kind == Reading && w.kind == Writing && r.path == w.path
      && r.registered == r.checked + 1 && w.registered == w.checked + 1
    ensures !(Run(IDLE, steps).requests[i].phase == Busy && Run(IDLE, steps).requests[j].phase == Busy)
  {
    var rs := Run(IDLE, steps).requests;
    if rs[i].phase == Busy && rs[j].phase == Busy {
      ReaderMeetsWriter(steps, i, j);
      RunTimed(steps);
      CheckedLater(steps, i);
    }
  }

  /** A request in flight passed its check at a moment after the start. */
  lemma {:induction false} CheckedLater(steps: seq<Step>, i: nat)
    requires i < |Run(IDLE, steps).requests|
    requires Run(IDLE, steps).requests[i].phase == Checked || Run(IDLE, steps).requests[i].phase == Busy
    ensures Run(IDLE, steps).requests[i].checked > 0
  {
    if steps != [] {
      var before := steps[..|steps| - 1];
      ClockRuns(before);
      var st := Run(IDLE, before);
      if i < |st.requests| && (st.requests[i].phase == Checked || st.requests[i].phase == Busy) {
        CheckedLater(before, i);
      }
    }
  }

  lemma {:induction false} ClockRuns(steps: seq<Step>)
    ensures Run(IDLE, steps).now > 0
  {
    if steps != [] { ClockRuns(steps[..|steps| - 1]); }
  }
}
