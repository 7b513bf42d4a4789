/** Who can be in flight together on a storage server: for readers and writers of one file,
    and for deletions and the users of what they delete, exactly the registrations that
    bring them together, over all interleavings. */
module Exclusion {
  import opened Types
  import opened InFlight

  // ----- what a table shows of the requests in flight

  /** The entries for `p` are all leftovers of requests that failed. */
  ghost predicate OnlyLeftovers(st: State, k: Kind, p: Path) {
    multiset(Table(st, k))[p] == Count(st.requests, k, Failed, p)
  }

  /** In accounted tables this means: nobody of that kind is in flight on `p`. */
  lemma LeftoversMeaning(st: State, k: Kind, p: Path)
    requires Accounted(st) && k != Deleting
    ensures OnlyLeftovers(st, k, p) <==> forall i | 0 <= i < |st.requests| :: !Is(st.requests[i], k, Busy, p)
  {
    assert Balanced(st, k);
    NoneCounted(st.requests, k, Busy, p);
  }

  // ----- readers and writers of one file

  predicate Meet(r: Request, w: Request) {
    r.phase == Busy && w.phase == Busy && r.kind == Reading && w.kind == Writing && r.path == w.path
  }

  /** No reader and writer of one file are in flight together. */
  ghost predicate Exclusive(st: State) {
    forall i, j | 0 <= i < |st.requests| && 0 <= j < |st.requests| :: !Meet(st.requests[i], st.requests[j])
  }

  function Opposite(k: Kind): Kind {
    if k == Reading then Writing else Reading
  }

  /** A reader or writer that registers finds nothing for its path in the other table but
      leftovers. */
  ghost predicate FindsNobody(st: State, s: Step) {
    s.Advance? && s.i < |st.requests| && st.requests[s.i].phase == Checked && st.requests[s.i].kind != Deleting ==>
      OnlyLeftovers(st, Opposite(st.requests[s.i].kind), st.requests[s.i].path)
  }

  lemma ChangedMeets(st: State, i: nat, r: Request, st': State)
    requires Exclusive(st) && i < |st.requests| && st'.requests == st.requests[i := r]
    ensures Exclusive(st') <==>
      forall j | 0 <= j < |st.requests| :: j != i ==> !Meet(r, st.requests[j]) && !Meet(st.requests[j], r)
  {
    var rs, rs' := st.requests, st'.requests;
    if Exclusive(st') {
      forall j | 0 <= j < |rs| && j != i ensures !Meet(r, rs[j]) && !Meet(rs[j], r) {
        assert !Meet(rs'[i], rs'[j]) && !Meet(rs'[j], rs'[i]);
      }
    }
  }

  lemma RegisterExclusive(st: State, i: nat)
    requires Accounted(st) && Exclusive(st) && i < |st.requests|
    requires st.requests[i].phase == Checked && st.requests[i].kind != Deleting
    ensures Exclusive(Registered(st, i)) <==> OnlyLeftovers(st, Opposite(st.requests[i].kind), st.requests[i].path)
  {
    var r, r' := st.requests[i], Registered(st, i).requests[i];
    ChangedMeets(st, i, r', Registered(st, i));
    LeftoversMeaning(st, Opposite(r.kind), r.path);
    assert forall j | 0 <= j < |st.requests| ::
      Is(st.requests[j], Opposite(r.kind), Busy, r.path) <==> Meet(r', st.requests[j]) || Meet(st.requests[j], r');
  }

  /** From a state without an overlap, a step leads to one without exactly when whoever
      registers finds nobody. */
  lemma StepExclusive(st: State, s: Step)
    requires Accounted(st) && Exclusive(st)
    ensures Exclusive(Next(st, s)) <==> FindsNobody(st, s)
  {
    if s.Advance? && s.i < |st.requests| && st.requests[s.i].phase == Checked && st.requests[s.i].kind != Deleting {
      RegisterExclusive(st, s.i);
    } else if !s.Arrive? && Next(st, s) != st {
      ChangedMeets(st, s.i, Next(st, s).requests[s.i], Next(st, s));
    }
  }

  ghost predicate AlwaysExclusive(st: State, steps: seq<Step>) {
    Exclusive(Run(st, steps)) && (steps != [] ==> AlwaysExclusive(st, steps[..|steps| - 1]))
  }

  ghost predicate AlwaysFindNobody(st: State, steps: seq<Step>) {
    steps == [] ||
    (AlwaysFindNobody(st, steps[..|steps| - 1]) && FindsNobody(Run(st, steps[..|steps| - 1]), steps[|steps| - 1]))
  }

  /** Over any interleaving: no reader and writer of one file are ever in flight together if
      and only if every reader and writer, when it registers, finds nothing for its path in
      the other table but leftovers of failures. Its own earlier check does not decide. */
  lemma {:induction false} ExclusionExact(st: State, steps: seq<Step>)
    requires Accounted(st) && Exclusive(st) && Guarded(st, steps)
    ensures AlwaysExclusive(st, steps) <==> AlwaysFindNobody(st, steps)
  {
    if steps != [] {
      var before := steps[..|steps| - 1];
      ExclusionExact(st, before);
      AccountingExact(st, before);
      if AlwaysExclusive(st, before) {
        StepExclusive(Run(st, before), steps[|steps| - 1]);
      }
    }
  }

  // ----- deletions and the users of what they delete

  predicate Hits(d: Request, x: Request) {
    d.phase == Busy && x.phase == Busy && d.kind == Deleting && x.kind != Deleting && d.path <= x.path
  }

  /** No deletion is in flight together with a reader or writer at or below its path. */
  ghost predicate Undisturbed(st: State) {
    forall i, j | 0 <= i < |st.requests| && 0 <= j < |st.requests| :: !Hits(st.requests[i], st.requests[j])
  }

  /** A deletion that ends its second scan finds no writer below its path, which only its
      first scan looked for; a user that registers has no deletion in flight above it, which
      no code looks for. */
  ghost predicate FindsNoHit(st: State, s: Step) {
    s.Advance? && s.i < |st.requests| && st.requests[s.i].phase == Checked ==>
      var r := st.requests[s.i];
      if r.kind == Deleting
      then SomeBelow(st.readers, r.path) || forall q: Path | r.path <= q :: OnlyLeftovers(st, Writing, q)
      else forall j | 0 <= j < |st.requests| && st.requests[j].kind == Deleting && st.requests[j].phase == Busy ::
             !(st.requests[j].path <= r.path)
  }

  lemma ChangedHits(st: State, i: nat, r: Request, st': State)
    requires Undisturbed(st) && i < |st.requests| && st'.requests == st.requests[i := r]
    ensures Undisturbed(st') <==>
      forall j | 0 <= j < |st.requests| :: j != i ==> !Hits(r, st.requests[j]) && !Hits(st.requests[j], r)
  {
    var rs, rs' := st.requests, st'.requests;
    if Undisturbed(st') {
      forall j | 0 <= j < |rs| && j != i ensures !Hits(r, rs[j]) && !Hits(rs[j], r) {
        assert !Hits(rs'[i], rs'[j]) && !Hits(rs'[j], rs'[i]);
      }
    }
  }

  /** No busy writer below `p`, as the table shows it. */
  lemma WritersBelow(st: State, p: Path)
    requires Accounted(st)
    ensures (forall q: Path | p <= q :: OnlyLeftovers(st, Writing, q)) <==>
      forall j | 0 <= j < |st.requests| && st.requests[j].kind == Writing && st.requests[j].phase == Busy ::
        !(p <= st.requests[j].path)
  {
    forall q: Path ensures OnlyLeftovers(st, Writing, q) <==>
      forall i | 0 <= i < |st.requests| :: !Is(st.requests[i], Writing, Busy, q)
    {
      LeftoversMeaning(st, Writing, q);
    }
    if forall q: Path | p <= q :: OnlyLeftovers(st, Writing, q) {
      forall j | 0 <= j < |st.requests| && st.requests[j].kind == Writing && st.requests[j].phase == Busy
        ensures !(p <= st.requests[j].path)
      {
        assert OnlyLeftovers(st, Writing, st.requests[j].path) ==> !Is(st.requests[j], Writing, Busy, st.requests[j].path);
      }
    }
  }

  /** No reader in flight below a path without entries below it. */
  lemma NoReadersBelow(st: State, p: Path)
    requires Accounted(st) && !SomeBelow(st.readers, p)
    ensures forall j | 0 <= j < |st.requests| && st.requests[j].kind == Reading && st.requests[j].phase == Busy ::
      !(p <= st.requests[j].path)
  {
    forall j | 0 <= j < |st.requests| && st.requests[j].kind == Reading && st.requests[j].phase == Busy
      ensures st.requests[j].path in st.readers
    {
      HeldIsThere(st, j);
    }
  }

  lemma DeletionEnters(st: State, i: nat)
    requires Accounted(st) && Undisturbed(st) && i < |st.requests|
    requires st.requests[i].phase == Checked && st.requests[i].kind == Deleting
    ensures Undisturbed(Registered(st, i)) <==> FindsNoHit(st, Advance(i))
  {
    var r, r' := st.requests[i], Registered(st, i).requests[i];
    ChangedHits(st, i, r', Registered(st, i));
    if !SomeBelow(st.readers, r.path) {
      NoReadersBelow(st, r.path);
      WritersBelow(st, r.path);
      assert forall j | 0 <= j < |st.requests| && j != i :: !Hits(st.requests[j], r');
    }
  }

  lemma UserEnters(st: State, i: nat)
    requires Undisturbed(st) && i < |st.requests|
    requires st.requests[i].phase == Checked && st.requests[i].kind != Deleting
    ensures Undisturbed(Registered(st, i)) <==> FindsNoHit(st, Advance(i))
  {
    ChangedHits(st, i, Registered(st, i).requests[i], Registered(st, i));
  }

  /** From a state without such an overlap, a step leads to one without exactly when
      whoever enters meets nobody. */
  lemma StepUndisturbed(st: State, s: Step)
    requires Accounted(st) && Undisturbed(st)
    ensures Undisturbed(Next(st, s)) <==> FindsNoHit(st, s)
  {
    if s.Advance? && s.i < |st.requests| && st.requests[s.i].phase == Checked {
      if st.requests[s.i].kind == Deleting { DeletionEnters(st, s.i); } else { UserEnters(st, s.i); }
    } else if !s.Arrive? && Next(st, s) != st {
      ChangedHits(st, s.i, Next(st, s).requests[s.i], Next(st, s));
    }
  }

  ghost predicate AlwaysUndisturbed(st: State, steps: seq<Step>) {
    Undisturbed(Run(st, steps)) && (steps != [] ==> AlwaysUndisturbed(st, steps[..|steps| - 1]))
  }

  ghost predicate AlwaysFindNoHit(st: State, steps: seq<Step>) {
    steps == [] ||
    (AlwaysFindNoHit(st, steps[..|steps| - 1]) && FindsNoHit(Run(st, steps[..|steps| - 1]), steps[|steps| - 1]))
  }

  /** Over any interleaving: no deletion is ever in flight together with a user of what it
      deletes if and only if nobody enters as FindsNoHit rules out. */
  lemma {:induction false} DeletionExact(st: State, steps: seq<Step>)
    requires Accounted(st) && Undisturbed(st) && Guarded(st, steps)
    ensures AlwaysUndisturbed(st, steps) <==> AlwaysFindNoHit(st, steps)
  {
    if steps != [] {
      var before := steps[..|steps| - 1];
      DeletionExact(st, before);
      AccountingExact(st, before);
      if AlwaysUndisturbed(st, before) {
        StepUndisturbed(Run(st, before), steps[|steps| - 1]);
      }
    }
  }

  /** It does happen: a write starts after both scans of a deletion above it. */
  lemma DeletionOverlapHappens(dir: Path, file: Path)
    requires dir <= file
    ensures
      var st := Run(IDLE, [Arrive(Deleting, dir), Arrive(Writing, file), Advance(0), Advance(0), Advance(1), Advance(1)]);
      |st.requests| == 2 && Hits(st.requests[0], st.requests[1])
  {
    var a, b, c, d := Arrive(Deleting, dir), Arrive(Writing, file), Advance(0), Advance(1);
    RunFour(IDLE, a, b, c, c);
    assert Run(IDLE, [a, b, c, c]) ==
      State([], [], [Request(Deleting, dir, Busy, 3, 4), Request(Writing, file, Started, 0, 0)], 5);
    RunAfter(IDLE, [a, b, c, c], d);
    RunAfter(IDLE, [a, b, c, c, d], d);
    assert [a, b, c, c] + [d] == [a, b, c, c, d] && [a, b, c, c, d] + [d] == [a, b, c, c, d, d];
  }
}
