/** The eviction policy of the lookup cache of naming_utils.c, on the keys alone and for
    any capacity, over whole runs. */
module Lru {
  import opened Types

  /** The place of `k` in `c`, or |c| when it is not there. */
  function Position(c: seq<Path>, k: Path): (i: nat)
    ensures i <= |c| && (i < |c| <==> k in c)
    ensures i < |c| ==> c[i] == k && k !in c[..i]
  {
    if c == [] then 0 else if c[0] == k then 0 else
      var i := Position(c[1..], k);
      assert k in c <==> k in c[1..];
      assert i < |c[1..]| ==> c[..i + 1] == [c[0]] + c[1..][..i];
      1 + i
  }

  function Without(c: seq<Path>, k: Path): seq<Path> {
    var i := Position(c, k);
    if i < |c| then c[..i] + c[i + 1..] else c
  }

  /** find_in_cache on a hit, add_to_cache on a miss: `k` comes first; a full cache
      loses its last key to a new one. */
  function Accessed(c: seq<Path>, k: Path, capacity: nat): seq<Path>
    requires capacity > 0
  {
    if k in c then [k] + Without(c, k)
    else if |c| >= capacity then [k] + c[..capacity - 1]
    else [k] + c
  }

  /** What happens to one path: a lookup that is answered, or a removal from the cache. */
  datatype Event = Use(key: Path) | Remove(key: Path)

  /** The keys in the cache after a run. */
  ghost function Cached(run: seq<Event>, capacity: nat): seq<Path>
    requires capacity > 0
  {
    if run == [] then [] else Next(Cached(run[..|run| - 1], capacity), run[|run| - 1], capacity)
  }

  function Next(c: seq<Path>, e: Event, capacity: nat): seq<Path>
    requires capacity > 0
  {
    match e
    case Use(k) => Accessed(c, k, capacity)
    case Remove(k) => Without(c, k)
  }

  ghost predicate Distinct(c: seq<Path>) {
    forall i, j | 0 <= i < j < |c| :: c[i] != c[j]
  }

  lemma WithoutIndex(c: seq<Path>, k: Path)
    requires k in c
    ensures |Without(c, k)| == |c| - 1
    ensures forall i | 0 <= i < |c| - 1 :: Without(c, k)[i] == c[if i < Position(c, k) then i else i + 1]
  {
    var p := Position(c, k);
    assert Without(c, k) == c[..p] + c[p + 1..];
  }

  lemma WithoutMeaning(c: seq<Path>, k: Path)
    requires Distinct(c)
    ensures Distinct(Without(c, k)) && k !in Without(c, k)
    ensures forall x | x != k :: x in c <==> x in Without(c, k)
  {
    if k in c {
      WithoutIndex(c, k);
      var p := Position(c, k);
      forall x | x != k && x in c ensures x in Without(c, k) {
        var j :| 0 <= j < |c| && c[j] == x;
        assert Without(c, k)[if j < p then j else j - 1] == x;
      }
    }
  }

  lemma {:induction false} CachedMeaning(run: seq<Event>, capacity: nat)
    requires capacity > 0
    ensures Distinct(Cached(run, capacity)) && |Cached(run, capacity)| <= capacity
    ensures forall x <- Cached(run, capacity) :: LastUse(run, x) > 0
  {
    if run != [] {
      var before := run[..|run| - 1];
      CachedMeaning(before, capacity);
      WithoutMeaning(Cached(before, capacity), run[|run| - 1].key);
    }
  }

  // ----- stack inclusion

  lemma {:induction false} PositionInPrefix(a: seq<Path>, b: seq<Path>, k: Path)
    requires a <= b && k in a
    ensures Position(b, k) == Position(a, k)
  {
    assert b[0] == a[0];
    if a[0] != k { PositionInPrefix(a[1..], b[1..], k); }
  }

  lemma {:induction false} PositionBeyondPrefix(a: seq<Path>, b: seq<Path>, k: Path)
    requires a <= b && k !in a
    ensures Position(b, k) >= |a|
  {
    if a != [] {
      assert b[0] == a[0] != k;
      PositionBeyondPrefix(a[1..], b[1..], k);
    }
  }

  lemma DropInPrefix(a: seq<Path>, b: seq<Path>, i: nat)
    requires a <= b && i < |a|
    ensures a[..i] + a[i + 1..] <= b[..i] + b[i + 1..]
  {
    assert b[i + 1..] == a[i + 1..] + b[|a|..] && b[..i] == a[..i];
  }

  lemma DropBeyondPrefix(a: seq<Path>, b: seq<Path>, i: nat)
    requires a <= b && |a| <= i < |b|
    ensures a <= b[..i] + b[i + 1..]
  {
    assert a <= b[..i];
  }

  lemma WithoutInclusion(a: seq<Path>, b: seq<Path>, k: Path)
    requires a <= b
    ensures Without(a, k) <= Without(b, k)
  {
    var i := Position(b, k);
    if k in a {
      PositionInPrefix(a, b, k);
      DropInPrefix(a, b, i);
    } else if i < |b| {
      PositionBeyondPrefix(a, b, k);
      DropBeyondPrefix(a, b, i);
    }
  }

  lemma NextInclusion(a: seq<Path>, b: seq<Path>, e: Event, small: nat, large: nat)
    requires 0 < small <= large && a <= b && |a| <= small
    ensures Next(a, e, small) <= Next(b, e, large)
  {
    WithoutInclusion(a, b, e.key);
  }

  /** At every moment of every run the cache is a prefix of the cache that a larger
      capacity would have had: it forgets nothing that its size lets it keep. */
  lemma {:induction false} StackInclusion(run: seq<Event>, small: nat, large: nat)
    requires 0 < small <= large
    ensures Cached(run, small) <= Cached(run, large)
  {
    if run != [] {
      var before := run[..|run| - 1];
      StackInclusion(before, small, large);
      CachedMeaning(before, small);
      NextInclusion(Cached(before, small), Cached(before, large), run[|run| - 1], small, large);
    }
  }

  // ----- position

  /** The moment, counted from 1, of the last use of `k`; 0 when there was none or it was
      removed since. */
  ghost function LastUse(run: seq<Event>, k: Path): nat {
    if run == [] then 0 else
      var before, e := run[..|run| - 1], run[|run| - 1];
      if e == Remove(k) then 0 else if e == Use(k) then |run| else LastUse(before, k)
  }

  ghost function Mentioned(run: seq<Event>): set<Path> {
    set e | e in run :: e.key
  }

  lemma {:induction false} LastUseMeaning(run: seq<Event>, k: Path)
    ensures LastUse(run, k) <= |run|
    ensures LastUse(run, k) > 0 ==> k in Mentioned(run)
  {
    if run != [] {
      LastUseMeaning(run[..|run| - 1], k);
      assert run[|run| - 1] in run;
    }
  }

  /** The keys come most recently used first, and none used later than a cached key is
      missing. */
  ghost predicate ByRecency(c: seq<Path>, run: seq<Event>) {
    && (forall i | 0 <= i < |c| :: LastUse(run, c[i]) > 0)
    && (forall i, j | 0 <= i < j < |c| :: LastUse(run, c[i]) > LastUse(run, c[j]))
    && (forall i, x | 0 <= i < |c| && LastUse(run, x) > LastUse(run, c[i]) :: x in c)
  }

  lemma RecencyIsOrder(c: seq<Path>, run: seq<Event>, use: Path -> nat)
    requires forall x :: use(x) == LastUse(run, x)
    ensures ByRecency(c, run) <==> Ordered(c, use)
  {
  }

  ghost predicate Ordered(c: seq<Path>, use: Path -> nat) {
    && (forall i | 0 <= i < |c| :: use(c[i]) > 0)
    && (forall i, j | 0 <= i < j < |c| :: use(c[i]) > use(c[j]))
    && (forall i, x | 0 <= i < |c| && use(x) > use(c[i]) :: x in c)
  }

  lemma OrderedWithout(c: seq<Path>, k: Path, use: Path -> nat, use': Path -> nat)
    requires Ordered(c, use) && Distinct(c) && use'(k) == 0
    requires forall x | x != k :: use'(x) == use(x)
    ensures Ordered(Without(c, k), use')
  {
    hide Ordered, Distinct;
    var p := Position(c, k);
    if p < |c| {
      OrderedDrop(c, p, use, use');
    } else {
      OrderedAbsent(c, k, use, use');
    }
  }

  lemma OrderedAbsent(c: seq<Path>, k: Path, use: Path -> nat, use': Path -> nat)
    requires Ordered(c, use) && k !in c && use'(k) == 0
    requires forall x | x != k :: use'(x) == use(x)
    ensures Ordered(c, use')
  {
  }

  lemma OrderedDrop(c: seq<Path>, p: nat, use: Path -> nat, use': Path -> nat)
    requires Ordered(c, use) && Distinct(c) && p < |c| && use'(c[p]) == 0
    requires forall x | x != c[p] :: use'(x) == use(x)
    ensures Ordered(c[..p] + c[p + 1..], use')
  {
    var d := c[..p] + c[p + 1..];
    forall i | 0 <= i < |d|
      ensures d[i] == c[if i < p then i else i + 1] && use'(d[i]) == use(c[if i < p then i else i + 1])
    {
    }
    forall i, x | 0 <= i < |d| && use'(x) > use'(d[i]) ensures x in d {
      OrderedStill(c, p, x, if i < p then i else i + 1, use);
    }
  }

  lemma OrderedStill(c: seq<Path>, p: nat, x: Path, i: nat, use: Path -> nat)
    requires Ordered(c, use) && p < |c| && i < |c| && x != c[p] && use(x) > use(c[i])
    ensures x in c[..p] + c[p + 1..]
  {
    var l :| 0 <= l < |c| && c[l] == x;
    assert (c[..p] + c[p + 1..])[if l < p then l else l - 1] == x;
  }

  lemma OrderedAccess(c: seq<Path>, k: Path, capacity: nat, use: Path -> nat, use': Path -> nat)
    requires Ordered(c, use) && Distinct(c) && capacity > 0
    requires use'(k) > 0 && forall x | x != k :: use'(x) == use(x) < use'(k)
    ensures Ordered(Accessed(c, k, capacity), use')
  {
    var mid := x => if x == k then 0 else use(x);
    if k !in c && |c| >= capacity {
      OrderedShorter(c, capacity - 1, use);
      OrderedFirst(c[..capacity - 1], k, use, use');
    } else {
      OrderedWithout(c, k, use, mid);
      WithoutMeaning(c, k);
      OrderedFirst(Without(c, k), k, mid, use');
    }
  }

  lemma OrderedFirst(c: seq<Path>, k: Path, use: Path -> nat, use': Path -> nat)
    requires Ordered(c, use) && k !in c
    requires forall x | x != k :: use'(x) == use(x) < use'(k)
    requires use'(k) > 0
    ensures Ordered([k] + c, use')
  {
    var c' := [k] + c;
    assert forall i | 0 < i < |c'| :: c'[i] == c[i - 1] && use'(c'[i]) == use(c[i - 1]);
    forall i, x | 0 <= i < |c'| && use'(x) > use'(c'[i]) ensures x in c' {
      assert i > 0;
    }
  }

  lemma OrderedShorter(c: seq<Path>, n: nat, use: Path -> nat)
    requires Ordered(c, use) && n <= |c|
    ensures Ordered(c[..n], use)
  {
    forall i, x | 0 <= i < n && use(x) > use(c[..n][i]) ensures x in c[..n] {
      var l :| 0 <= l < |c| && c[l] == x;
      assert l < i && c[..n][l] == x;
    }
  }

  lemma {:induction false} RecencyOrder(run: seq<Event>, capacity: nat)
    requires capacity > 0
    ensures ByRecency(Cached(run, capacity), run)
  {
    if run != [] {
      var before, e := run[..|run| - 1], run[|run| - 1];
      var c := Cached(before, capacity);
      RecencyOrder(before, capacity);
      CachedMeaning(before, capacity);
      assert run == before + [e];
      match e
      case Use(k) => UseKeepsOrder(c, before, k, capacity);
      case Remove(k) => RemovalKeepsOrder(c, before, k);
    }
  }

  lemma UseAfter(before: seq<Event>, e: Event, x: Path)
    ensures LastUse(before + [e], x) == if e.key != x then LastUse(before, x) else if e.Use? then |before| + 1 else 0
  {
    assert (before + [e])[..|before|] == before;
  }

  lemma UseKeepsOrder(c: seq<Path>, before: seq<Event>, k: Path, capacity: nat)
    requires ByRecency(c, before) && Distinct(c) && capacity > 0
    ensures ByRecency(Accessed(c, k, capacity), before + [Use(k)])
  {
    var run := before + [Use(k)];
    var use, use' := x => LastUse(before, x), x => LastUse(run, x);
    forall x ensures use'(x) == if x == k then |before| + 1 else use(x) {
      UseAfter(before, Use(k), x);
    }
    forall x ensures use(x) <= |before| { LastUseMeaning(before, x); }
    RecencyIsOrder(c, before, use);
    OrderedAccess(c, k, capacity, use, use');
    RecencyIsOrder(Accessed(c, k, capacity), run, use');
  }

  lemma RemovalKeepsOrder(c: seq<Path>, before: seq<Event>, k: Path)
    requires ByRecency(c, before) && Distinct(c)
    ensures ByRecency(Without(c, k), before + [Remove(k)])
  {
    var run := before + [Remove(k)];
    forall x ensures LastUse(run, x) == if x == k then 0 else LastUse(before, x) {
      UseAfter(before, Remove(k), x);
    }
    var use, use' := x => LastUse(before, x), x => LastUse(run, x);
    RecencyIsOrder(c, before, use);
    OrderedWithout(c, k, use, use');
    RecencyIsOrder(Without(c, k), run, use');
  }

  lemma {:induction false} SetOfDistinct(c: seq<Path>)
    requires Distinct(c)
    ensures |set x | x in c| == |c|
  {
    if c != [] {
      SetOfDistinct(c[1..]);
      assert (set x | x in c) == (set x | x in c[1..]) + {c[0]};
    }
  }

  /** The place of a cached key is the number of paths used since its own last use (and
      not removed since theirs). */
  lemma PositionIsRecency(run: seq<Event>, capacity: nat, i: nat)
    requires capacity > 0 && i < |Cached(run, capacity)|
    ensures i == |UsedSince(run, Cached(run, capacity)[i])|
    ensures forall x <- UsedSince(run, Cached(run, capacity)[i]) :: x in Cached(run, capacity)
  {
    var c := Cached(run, capacity);
    RecencyOrder(run, capacity);
    CachedMeaning(run, capacity);
    BeforeIsUsedSince(c, run, i);
    SetOfDistinct(c[..i]);
    assert forall x <- c[..i] :: x in c;
  }

  lemma BeforeIsUsedSince(c: seq<Path>, run: seq<Event>, i: nat)
    requires ByRecency(c, run) && i < |c|
    ensures UsedSince(run, c[i]) == set x | x in c[..i]
  {
    forall x <- UsedSince(run, c[i]) ensures x in c[..i] {
      assert x in c;
      var l :| 0 <= l < |c| && c[l] == x;
      assert l < i && c[..i][l] == x;
    }
    forall x <- c[..i] ensures x in UsedSince(run, c[i]) {
      var l :| 0 <= l < i && c[..i][l] == x;
      LastUseMeaning(run, c[l]);
    }
  }

  ghost function UsedSince(run: seq<Event>, k: Path): set<Path> {
    set x | x in Mentioned(run) && LastUse(run, x) > LastUse(run, k)
  }

  // ----- survival

  /** The paths other than `k` that a run uses. */
  ghost function Others(run: seq<Event>, k: Path): set<Path> {
    set e | e in run && e.Use? && e.key != k :: e.key
  }

  lemma SubsetSize(a: set<Path>, b: set<Path>)
    requires a <= b
    ensures |a| <= |b|
  {
    assert b == a + (b - a);
  }

  /** After a use of `k` and a run without its removal, only what the run uses was used later
      than `k`. */
  lemma {:induction false} LaterUses(start: seq<Event>, run: seq<Event>, k: Path, x: Path)
    requires Remove(k) !in run
    ensures LastUse(start + [Use(k)] + run, k) > |start|
    ensures LastUse(start + [Use(k)] + run, x) > |start| && x != k ==> x in Others(run, k)
  {
    var whole := start + [Use(k)] + run;
    if run == [] {
      assert whole == start + [Use(k)];
      UseAfter(start, Use(k), k);
      UseAfter(start, Use(k), x);
      LastUseMeaning(start, x);
    } else {
      var run', e := run[..|run| - 1], run[|run| - 1];
      LaterUses(start, run', k, x);
      assert whole == start + [Use(k)] + run' + [e];
      UseAfter(start + [Use(k)] + run', e, k);
      UseAfter(start + [Use(k)] + run', e, x);
      assert e in run;
    }
  }

  lemma UsedSinceUse(start: seq<Event>, run: seq<Event>, k: Path)
    requires Remove(k) !in run
    ensures UsedSince(start + [Use(k)] + run, k) <= Others(run, k)
  {
    forall x <- UsedSince(start + [Use(k)] + run, k) ensures x in Others(run, k) {
      LaterUses(start, run, k, k);
      LaterUses(start, run, k, x);
    }
  }

  /** Before a use that makes a full cache drop its last key, that key is one that many other
      paths were used since. */
  lemma NotEvicted(before: seq<Event>, e: Event, k: Path, others: set<Path>, capacity: nat)
    requires capacity > 0 && k in Cached(before, capacity) && e != Remove(k)
    requires UsedSince(before, k) <= others && |others| < capacity
    requires e.Use? && e.key != k ==> e.key in others
    ensures k in Next(Cached(before, capacity), e, capacity)
  {
    var c := Cached(before, capacity);
    CachedMeaning(before, capacity);
    WithoutMeaning(c, e.key);
    var i := Position(c, k);
    PositionIsRecency(before, capacity, i);
    if e.Use? && e.key !in c && |c| >= capacity {
      SubsetSize(UsedSince(before, k) + {e.key}, others);
      assert [e.key] + c[..capacity - 1] == Accessed(c, e.key, capacity);
      assert ([e.key] + c[..capacity - 1])[i + 1] == k;
    }
  }

  /** A key that was used and not removed stays cached as long as fewer other paths are used
      than the cache has places. */
  lemma {:induction false} Survives(start: seq<Event>, run: seq<Event>, k: Path, capacity: nat)
    requires capacity > 0 && Remove(k) !in run && |Others(run, k)| < capacity
    ensures k in Cached(start + [Use(k)] + run, capacity)
  {
    if run == [] {
      assert start + [Use(k)] + run == start + [Use(k)];
      CachedAfter(start, Use(k), capacity);
      assert Accessed(Cached(start, capacity), k, capacity)[0] == k;
    } else {
      var run', e := run[..|run| - 1], run[|run| - 1];
      var before := start + [Use(k)] + run';
      assert start + [Use(k)] + run == before + [e];
      assert e in run;
      SubsetSize(Others(run', k), Others(run, k));
      Survives(start, run', k, capacity);
      UsedSinceUse(start, run', k);
      NotEvicted(before, e, k, Others(run, k), capacity);
      CachedAfter(before, e, capacity);
    }
  }

  lemma CachedAfter(before: seq<Event>, e: Event, capacity: nat)
    requires capacity > 0
    ensures Cached(before + [e], capacity) == Next(Cached(before, capacity), e, capacity)
  {
    assert (before + [e])[..|before|] == before;
  }
}
