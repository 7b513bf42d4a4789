/** When the cache can be trusted, over whole runs of the path index: for each operation
    and for runs, exactly the condition under which lookups through the cache and past
    it keep agreeing. */
module IndexRuns {
  import opened Types
  import opened PathMaps
  import opened LookupCache
  import opened PathIndex
  import Lru

  // ----- one step

  /** Storing a record does not touch the cache: an entry for the path must already say
      the same. */
  ghost predicate StoreGuard(ix: Index, ip: Text, port: int, token: Path) {
    token in Keys(ix.cache) ==> Answer(ix, token) == Some(FileInfo(ip, port, token))
  }

  /** Deleting goes wrong when the path is cached together with others: the shift puts
      the second entry where delete_file_info then reads the path to delete. */
  predicate DeleteGuard(ix: Index, p: Path) {
    p in Keys(ix.cache) && |ix.cache| >= 2 ==>
      var c := Fronted(ix.cache, p);
      c[0].info.filePath == p ==> c[1].info.filePath !in Keys(c[1..])
  }

  /** Copying does not touch the cache: an entry at or below the destination must say
      what the copied record says. */
  ghost predicate CopyGuard(ix: Index, src: Path, dst: Path) {
    var found := AfterFind(AfterFind(ix, src), dst);
    src in ix.trie.nodes ==>
      forall e <- found.cache :: dst <= e.key ==> Lookup(ix.trie.files, src + e.key[|dst|..]) == Some(e.info)
  }

  ghost predicate Guard(ix: Index, s: Step) {
    match s
    case Store(ip, port, token) => StoreGuard(ix, ip, port, token)
    case Find(_) => true
    case Delete(p) => DeleteGuard(ix, p)
    case Copy(src, dst) => CopyGuard(ix, src, dst)
  }

  lemma StoreExact(ix: Index, ip: Text, port: int, token: Path)
    requires WellFormed(ix) && Coherent(ix)
    ensures Coherent(AfterStore(ix, ip, port, token)) <==> StoreGuard(ix, ip, port, token)
  {
    var info := FileInfo(ip, port, token);
    if token in Keys(ix.cache) {
      var e := ix.cache[Place(ix.cache, token)];
      assert e in ix.cache && e.key == token;
      forall x | x in ix.cache && x.key == token ensures x == e {
        EntryAt(ix.cache, x);
      }
    } else {
      KeysHave(ix.cache, token);
    }
  }

  /** The key that goes, against the cache that stays. */
  lemma DeletedKeyStaysCached(ix: Index, p: Path)
    requires WellFormed(ix) && Coherent(ix) && Answer(ix, p).Some?
    ensures KeyDeleted(ix, p) in Keys(CacheAfterDelete(ix, p)) <==> !DeleteGuard(ix, p)
  {
    FindCoherent(ix, p);
    FindWellFormed(ix, p);
    var c, k := AfterFind(ix, p).cache, Answer(ix, p).value.filePath;
    DroppedEntries(c, k);
    KeysHave(Dropped(c, k), k);
    if p in Keys(ix.cache) {
      FrontedEntries(ix.cache, p);
      if k == p {
        assert Place(c, k) == 0;
        assert Dropped(c, k) == c[1..];
      } else {
        assert Place(c, k) > 0 && Dropped(c, k)[..1] == c[..1];
      }
    }
  }

  lemma DeleteExact(ix: Index, p: Path)
    requires WellFormed(ix) && Coherent(ix)
    ensures Coherent(Next(ix, Delete(p))) <==> DeleteGuard(ix, p) || Answer(ix, p).None?
  {
    if Answer(ix, p).Some? {
      var c, k := CacheAfterDelete(ix, p), KeyDeleted(ix, p);
      DeletedKeyStaysCached(ix, p);
      FindCoherent(ix, p);
      FindWellFormed(ix, p);
      DroppedEntries(AfterFind(ix, p).cache, Answer(ix, p).value.filePath);
      KeysHave(c, k);
    }
  }

  lemma CopyExact(ix: Index, src: Path, dst: Path)
    requires WellFormed(ix) && Coherent(ix)
    ensures Coherent(AfterCopy(ix, src, dst)) <==> CopyGuard(ix, src, dst)
  {
    FindCoherent(ix, src);
    FindWellFormed(ix, src);
    FindCoherent(AfterFind(ix, src), dst);
    var found := AfterFind(AfterFind(ix, src), dst);
    if src in ix.trie.nodes {
      forall e <- found.cache
        ensures Lookup(Copied(ix.trie, src, dst).files, e.key) ==
          if dst <= e.key then Lookup(ix.trie.files, src + e.key[|dst|..]) else Some(e.info)
      {
        CopyMeaning(ix.trie, src, dst, e.key);
      }
    }
  }

  /** From a trustworthy state, the next one is trustworthy exactly when the guard holds. */
  lemma StepExact(ix: Index, s: Step)
    requires WellFormed(ix) && Transparent(ix)
    ensures Transparent(Next(ix, s)) <==> Guard(ix, s)
  {
    TransparentIsCoherent(ix);
    NextWellFormed(ix, s);
    TransparentIsCoherent(Next(ix, s));
    match s
    case Store(ip, port, token) => StoreExact(ix, ip, port, token);
    case Find(p) => FindCoherent(ix, p);
    case Delete(p) =>
      DeleteExact(ix, p);
      if Answer(ix, p).None? { assert p !in Keys(ix.cache); }
    case Copy(src, dst) => CopyExact(ix, src, dst);
  }

  // ----- whole runs

  ghost predicate Guarded(steps: seq<Step>) {
    steps == [] ||
    (Guarded(steps[..|steps| - 1]) && Guard(Run(steps[..|steps| - 1]), steps[|steps| - 1]))
  }

  ghost predicate AlwaysTransparent(steps: seq<Step>) {
    forall k | 0 <= k <= |steps| :: Transparent(Run(steps[..k]))
  }

  lemma {:induction false} RunWellFormed(steps: seq<Step>)
    ensures WellFormed(Run(steps))
  {
    if steps != [] {
      RunWellFormed(steps[..|steps| - 1]);
      NextWellFormed(Run(steps[..|steps| - 1]), steps[|steps| - 1]);
    }
  }

  lemma AlwaysAfter(before: seq<Step>, s: Step)
    ensures AlwaysTransparent(before + [s]) <==> AlwaysTransparent(before) && Transparent(Run(before + [s]))
  {
    var steps := before + [s];
    assert forall k | 0 <= k <= |before| :: steps[..k] == before[..k];
    assert steps[..|steps|] == steps;
    if AlwaysTransparent(steps) {
      forall k | 0 <= k <= |before| ensures Transparent(Run(before[..k])) {
        assert Transparent(Run(steps[..k]));
      }
      assert Transparent(Run(steps[..|steps|]));
    }
    if AlwaysTransparent(before) && Transparent(Run(steps)) {
      forall k | 0 <= k <= |steps| ensures Transparent(Run(steps[..k])) {
        if k <= |before| { assert Transparent(Run(before[..k])); }
      }
    }
  }

  lemma AlwaysAtEnd(steps: seq<Step>)
    requires AlwaysTransparent(steps)
    ensures Transparent(Run(steps))
  {
    assert steps[..|steps|] == steps;
  }

  /** Over any run of registrations, creations, lookups, deletions and copies: lookups
      through the cache agree with the trie at every moment if and only if every step
      met its guard. */
  lemma {:induction false} TransparencyExact(steps: seq<Step>)
    ensures AlwaysTransparent(steps) <==> Guarded(steps)
  {
    if steps == [] {
      assert forall k | 0 <= k <= 0 :: steps[..k] == [];
    } else {
      var before, s := steps[..|steps| - 1], steps[|steps| - 1];
      assert steps == before + [s];
      TransparencyExact(before);
      AlwaysAfter(before, s);
      RunAfter(before, s);
      if AlwaysTransparent(before) {
        AlwaysAtEnd(before);
        RunWellFormed(before);
        StepExact(Run(before), s);
      }
    }
  }

  // ----- runs without copies: what DELETE does

  ghost predicate Plain(steps: seq<Step>) {
    forall s <- steps :: !s.Copy?
  }

  lemma NextSelfNamed(ix: Index, s: Step)
    requires WellFormed(ix) && SelfNamed(ix) && !s.Copy?
    ensures SelfNamed(Next(ix, s))
  {
    if s.Find? || (s.Delete? && Answer(ix, s.path).Some?) {
      var p := s.path;
      FindWellFormed(ix, p);
      if p in Keys(ix.cache) {
        FrontedEntries(ix.cache, p);
      } else if p in ix.trie.files {
        AddedEntries(ix.cache, Entry(p, ix.trie.files[p]));
      }
      if s.Delete? { DroppedEntries(AfterFind(ix, p).cache, Answer(ix, p).value.filePath); }
    }
  }

  lemma {:induction false} PlainRunSelfNamed(steps: seq<Step>)
    requires Plain(steps)
    ensures SelfNamed(Run(steps))
  {
    if steps != [] {
      var before := steps[..|steps| - 1];
      PlainRunSelfNamed(before);
      RunWellFormed(before);
      NextSelfNamed(Run(before), steps[|steps| - 1]);
    }
  }

  /** What makes the handler delete the path it was asked to delete: the record behind the
      pointer names that path, and so does the entry that the shift may put in its place. */
  predicate DeletesItself(ix: Index, p: Path)
    requires Answer(ix, p).Some?
  {
    && Answer(ix, p).value.filePath == p
    && (p in Keys(ix.cache) && |ix.cache| >= 2 ==> Fronted(ix.cache, p)[1].info.filePath == p)
  }

  lemma KeyDeletedExact(ix: Index, p: Path)
    requires WellFormed(ix) && Answer(ix, p).Some?
    ensures KeyDeleted(ix, p) == p <==> DeletesItself(ix, p)
  {
    var c, k := AfterFind(ix, p).cache, Answer(ix, p).value.filePath;
    if p in Keys(ix.cache) {
      FrontedEntries(ix.cache, p);
      FindWellFormed(ix, p);
      DroppedEntries(c, k);
      if k == p {
        assert Place(c, k) == 0 && Dropped(c, k) == c[1..];
      } else if k in Keys(c) {
        assert Place(c, k) > 0 && Dropped(c, k)[..1] == c[..1];
      }
    }
  }

  /** In every state that a run reaches, after copies or not: DELETE of a known path takes
      exactly that record out of the trie if and only if the record names its own path
      and, when the path is cached with others, the entry next in the cache names it too. */
  lemma DeleteRemovesExactly(ix: Index, p: Path)
    requires WellFormed(ix) && p in ix.trie.files
    ensures Next(ix, Delete(p)).trie.files == ix.trie.files - {p} <==> DeletesItself(ix, p)
  {
    KeyDeletedExact(ix, p);
    var k := KeyDeleted(ix, p);
    if k != p { assert p in ix.trie.files - {k}; }
  }

  /** Where records and entries name their own paths and agree, as in runs without copies,
      that is: the path is not cached, or cached alone. */
  lemma SelfNamedDelete(ix: Index, p: Path)
    requires WellFormed(ix) && Coherent(ix) && SelfNamed(ix) && p in ix.trie.files
    ensures DeletesItself(ix, p) <==> (p in Keys(ix.cache) ==> |ix.cache| == 1)
    ensures DeleteGuard(ix, p) <==> (p in Keys(ix.cache) ==> |ix.cache| == 1)
  {
    FindCoherent(ix, p);
    FindWellFormed(ix, p);
    var c := AfterFind(ix, p).cache;
    if p in Keys(ix.cache) && |ix.cache| >= 2 {
      FrontedEntries(ix.cache, p);
      assert c[1] in ix.cache && Keys(c)[1] != Keys(c)[0];
      assert Keys(c[1..])[0] == c[1].key;
    }
  }

  /** A copied record keeps the path of its source, so DELETE of a path that only a copy
      put there deletes the record of the source: here with nothing cached for it. */
  lemma DeleteOfCopiedPath(src: Path, dst: Path, below: Path, ip: Text, port: int)
    requires !(src <= dst) && !(dst <= src) && below != []
    ensures
      var ix := Run([Store(ip, port, src), Store(ip, port, src + below), Store(ip, port, dst), Copy(src, dst)]);
      var next := Next(ix, Delete(dst + below));
      && dst + below in ix.trie.files && dst + below !in Keys(ix.cache)
      && next.trie.files == ix.trie.files - {src + below} != ix.trie.files - {dst + below}
  {
    hide Run, Next, KeyDeleted;
    var a, b, c := Store(ip, port, src), Store(ip, port, src + below), Store(ip, port, dst);
    ThreeStored(src, dst, below, ip, port);
    RunAfter([a, b, c], Copy(src, dst));
    assert [a, b, c] + [Copy(src, dst)] == [a, b, c, Copy(src, dst)];
    CopyIsNext(Run([a, b, c]), src, dst);
    CopyThenDelete(Run([a, b, c]), src, dst, below);
  }

  lemma CopyIsNext(ix: Index, src: Path, dst: Path)
    ensures Next(ix, Copy(src, dst)) == AfterCopy(ix, src, dst)
  {
  }

  lemma ThreeStored(src: Path, dst: Path, below: Path, ip: Text, port: int)
    requires !(src <= dst) && !(dst <= src) && below != []
    ensures
      var ix := Run([Store(ip, port, src), Store(ip, port, src + below), Store(ip, port, dst)]);
      && ix.cache == [] && src in ix.trie.files && dst in ix.trie.files && src in ix.trie.nodes
      && src + below in ix.trie.files && ix.trie.files[src + below].filePath == src + below
  {
    RunThree(Store(ip, port, src), Store(ip, port, src + below), Store(ip, port, dst));
    assert src + below != dst;
    PrefixesMeaning(src);
    assert src in Prefixes(src);
  }

  lemma CopyThenDelete(ix: Index, src: Path, dst: Path, below: Path)
    requires !(src <= dst) && !(dst <= src) && below != []
    requires ix.cache == [] && src in ix.trie.files && dst in ix.trie.files && src in ix.trie.nodes
    requires src + below in ix.trie.files && ix.trie.files[src + below].filePath == src + below
    ensures
      var ix' := AfterCopy(ix, src, dst);
      && dst + below in ix'.trie.files && dst + below !in Keys(ix'.cache)
      && Next(ix', Delete(dst + below)).trie.files == ix'.trie.files - {src + below} != ix'.trie.files - {dst + below}
  {
    var ix', p := AfterCopy(ix, src, dst), dst + below;
    CopyKeys(ix, src, dst);
    CopiedBelow(ix.trie, src, dst, below);
    assert p !in [dst, src];
    assert Answer(ix', p) == Some(ix.trie.files[src + below]);
    assert KeyDeleted(ix', p) == src + below;
    assert p in ix'.trie.files - {src + below};
  }

  lemma CopiedBelow(m: PathMap, src: Path, dst: Path, below: Path)
    requires !(src <= dst) && !(dst <= src) && src in m.nodes && src + below in m.files
    ensures Lookup(Copied(m, src, dst).files, dst + below) == Some(m.files[src + below])
    ensures src + below in Copied(m, src, dst).files && src + below != dst + below
  {
    CopyMeaning(m, src, dst, dst + below);
    CopyMeaning(m, src, dst, src + below);
    assert (dst + below)[|dst|..] == below;
    assert Lookup(Copied(m, src, dst).files, src + below).Some?;
    assert (src + below)[..|src|] == src && (dst + below)[..|dst|] == dst;
  }

  lemma RunThree(a: Step, b: Step, c: Step)
    ensures Run([a, b, c]) == Next(Next(Next(EMPTY_INDEX, a), b), c)
  {
    RunAfter([], a);
    RunAfter([a], b);
    RunAfter([a, b], c);
    assert [] + [a] == [a] && [a] + [b] == [a, b] && [a, b] + [c] == [a, b, c];
  }

  /** A copy caches its two arguments. */
  lemma CopyKeys(ix: Index, src: Path, dst: Path)
    requires ix.cache == [] && src != dst && src in ix.trie.files && dst in ix.trie.files
    ensures Keys(AfterCopy(ix, src, dst).cache) == [dst, src]
    ensures AfterCopy(ix, src, dst).cache[0] == Entry(dst, ix.trie.files[dst])
  {
    var es := Entry(src, ix.trie.files[src]);
    assert Keys([]) == [] && Keys([es]) == [src];
    assert AfterFind(ix, src).cache == [es];
  }

  /** A run of four requests after two registrations in which DELETE takes the record of
      another file out of the trie, while the deleted one stays. */
  lemma DeleteOfCachedPath(a: Path, b: Path, ip: Text, port: int)
    requires a != b
    ensures
      var ix := Run([Store(ip, port, a), Store(ip, port, b), Find(a), Find(b), Delete(b)]);
      && b in ix.trie.files && a !in ix.trie.files
      && Answer(ix, a).Some? && !Transparent(ix)
  {
    var s2 := [Store(ip, port, a), Store(ip, port, b)];
    var ea, eb := Entry(a, FileInfo(ip, port, a)), Entry(b, FileInfo(ip, port, b));
    RunAfter([], Store(ip, port, a));
    RunAfter([Store(ip, port, a)], Store(ip, port, b));
    assert [] + [Store(ip, port, a)] == [Store(ip, port, a)] && [Store(ip, port, a)] + [Store(ip, port, b)] == s2;
    assert Run(s2).cache == [] && Run(s2).trie.files == map[a := ea.info, b := eb.info];
    RunAfter(s2, Find(a));
    RunAfter(s2 + [Find(a)], Find(b));
    var s4 := s2 + [Find(a)] + [Find(b)];
    assert Keys([]) == [] && Keys([ea]) == [a] && Keys([eb, ea]) == [b, a];
    assert Run(s4).cache == [eb, ea] && Run(s4).trie == Run(s2).trie;
    RunAfter(s4, Delete(b));
    assert s4 + [Delete(b)] == [Store(ip, port, a), Store(ip, port, b), Find(a), Find(b), Delete(b)];
    DeleteOfFirstOfTwo(Run(s4), ea, eb);
  }

  lemma DeleteOfFirstOfTwo(ix: Index, ea: Entry, eb: Entry)
    requires ix.cache == [eb, ea] && ea.key != eb.key && ea.info.filePath == ea.key && eb.info.filePath == eb.key
    ensures Next(ix, Delete(eb.key)) == Index(Deleted(ix.trie, ea.key), [ea])
    ensures Answer(Next(ix, Delete(eb.key)), ea.key) == Some(ea.info)
  {
    assert Keys([eb, ea]) == [eb.key, ea.key] && Keys([ea]) == [ea.key];
    assert Place([eb, ea], eb.key) == 0 && Place([ea], ea.key) == 0;
    assert Fronted([eb, ea], eb.key) == [eb, ea] && Dropped([eb, ea], eb.key) == [ea];
  }

  lemma RunAfter(steps: seq<Step>, s: Step)
    ensures Run(steps + [s]) == Next(Run(steps), s)
  {
    assert (steps + [s])[..|steps|] == steps;
  }

  // ----- directory copies: bounded staleness

  /** After a copy, the paths on which the cache contradicts the trie are exactly the
      cached ones at or below the destination whose record the copy changed. */
  lemma StaleAfterCopy(ix: Index, src: Path, dst: Path, q: Path)
    requires WellFormed(ix) && Coherent(ix) && src in ix.trie.nodes
    ensures
      var next := AfterCopy(ix, src, dst);
      Answer(next, q) != Lookup(next.trie.files, q) <==>
        && dst <= q && q in Keys(next.cache)
        && Lookup(ix.trie.files, src + q[|dst|..]) != Lookup(ix.trie.files, q)
  {
    FindCoherent(ix, src);
    FindWellFormed(ix, src);
    FindCoherent(AfterFind(ix, src), dst);
    FindWellFormed(AfterFind(ix, src), dst);
    var found := AfterFind(AfterFind(ix, src), dst);
    TransparentIsCoherent(found);
    assert Answer(found, q) == Lookup(ix.trie.files, q);
    CopyMeaning(ix.trie, src, dst, q);
  }

  /** A copy onto a directory that has a record always makes that directory itself stale
      when the records differ: looking it up for the copy is what cached it. */
  lemma CopyMakesStale(ix: Index, src: Path, dst: Path)
    requires WellFormed(ix) && Coherent(ix) && src in ix.trie.nodes && dst in ix.trie.files
    requires Lookup(ix.trie.files, src) != Lookup(ix.trie.files, dst)
    ensures
      var next := AfterCopy(ix, src, dst);
      Answer(next, dst) == Lookup(ix.trie.files, dst) != Lookup(next.trie.files, dst)
  {
    FindCoherent(ix, src);
    FindWellFormed(ix, src);
    FindCoherent(AfterFind(ix, src), dst);
    FindWellFormed(AfterFind(ix, src), dst);
    var found := AfterFind(AfterFind(ix, src), dst);
    TransparentIsCoherent(found);
    assert Answer(found, dst) == Lookup(ix.trie.files, dst);
    EntryAt(found.cache, found.cache[0]);
    CopyMeaning(ix.trie, src, dst, dst);
    assert src + dst[|dst|..] == src;
  }

  /** The shortest run that ends stale: two registered directories and a copy. */
  lemma StaleRun(src: Path, dst: Path, ip: Text, port: int)
    requires src != dst
    ensures
      var ix := Run([Store(ip, port, src), Store(ip, port, dst), Copy(src, dst)]);
      Answer(ix, dst) == Some(FileInfo(ip, port, dst)) && Lookup(ix.trie.files, dst) == Some(FileInfo(ip, port, src))
  {
    var a, b := Store(ip, port, src), Store(ip, port, dst);
    RunThree(a, b, Copy(src, dst));
    var ix := Next(Next(EMPTY_INDEX, a), b);
    PrefixesMeaning(src);
    CopyMakesStale(ix, src, dst);
    CopyMeaning(ix.trie, src, dst, dst);
    assert src + dst[|dst|..] == src;
  }

  // ----- the cache keys follow the eviction policy

  /** What a step means for the cache: each lookup that is answered is a use, and a deletion
      removes the key that the record names. */
  function EventsIn(ix: Index, s: Step): seq<Lru.Event> {
    match s
    case Store(_, _, _) => []
    case Find(p) => Uses(ix, p)
    case Delete(p) => if Answer(ix, p).Some? then [Lru.Use(p), Lru.Remove(Answer(ix, p).value.filePath)] else []
    case Copy(src, dst) => Uses(ix, src) + Uses(AfterFind(ix, src), dst)
  }

  function Uses(ix: Index, p: Path): seq<Lru.Event> {
    if Answer(ix, p).Some? then [Lru.Use(p)] else []
  }

  ghost function Events(steps: seq<Step>): seq<Lru.Event> {
    if steps == [] then []
    else Events(steps[..|steps| - 1]) + EventsIn(Run(steps[..|steps| - 1]), steps[|steps| - 1])
  }

  ghost predicate Follows(ix: Index, run: seq<Lru.Event>) {
    Keys(ix.cache) == Lru.Cached(run, CACHE_SIZE)
  }

  lemma FindFollows(ix: Index, run: seq<Lru.Event>, p: Path)
    requires WellFormed(ix) && Follows(ix, run)
    ensures Follows(AfterFind(ix, p), run + Uses(ix, p))
  {
    Lru.CachedAfter(run, Lru.Use(p), CACHE_SIZE);
    assert run + [] == run;
    if p in Keys(ix.cache) {
      FrontedFollowsPolicy(ix.cache, p);
    } else if p in ix.trie.files {
      AddedFollowsPolicy(ix.cache, Entry(p, ix.trie.files[p]));
    }
  }

  lemma StepFollows(ix: Index, run: seq<Lru.Event>, s: Step)
    requires WellFormed(ix) && Follows(ix, run)
    ensures Follows(Next(ix, s), run + EventsIn(ix, s))
  {
    match s
    case Store(_, _, _) => assert run + [] == run;
    case Find(p) => FindFollows(ix, run, p);
    case Delete(p) =>
      if Answer(ix, p).Some? {
        var k := Answer(ix, p).value.filePath;
        FindFollows(ix, run, p);
        Lru.CachedAfter(run + [Lru.Use(p)], Lru.Remove(k), CACHE_SIZE);
        DroppedFollowsPolicy(AfterFind(ix, p).cache, k);
        assert run + [Lru.Use(p)] + [Lru.Remove(k)] == run + [Lru.Use(p), Lru.Remove(k)];
      } else {
        assert run + [] == run;
      }
    case Copy(src, dst) =>
      FindFollows(ix, run, src);
      FindWellFormed(ix, src);
      FindFollows(AfterFind(ix, src), run + Uses(ix, src), dst);
      assert run + Uses(ix, src) + Uses(AfterFind(ix, src), dst) == run + EventsIn(ix, s);
  }

  /** In every run, guarded or not, the cache holds the keys that the eviction policy says, so
      what is proved about the policy holds of it. */
  lemma {:induction false} RunFollowsPolicy(steps: seq<Step>)
    ensures Follows(Run(steps), Events(steps))
  {
    if steps != [] {
      var before, s := steps[..|steps| - 1], steps[|steps| - 1];
      RunFollowsPolicy(before);
      RunWellFormed(before);
      StepFollows(Run(before), Events(before), s);
    }
  }

  /** The events of `steps`, when they come after `before`. */
  ghost function EventsSince(before: seq<Step>, steps: seq<Step>): seq<Lru.Event> {
    if steps == [] then []
    else EventsSince(before, steps[..|steps| - 1]) + EventsIn(Run(before + steps[..|steps| - 1]), steps[|steps| - 1])
  }

  lemma {:induction false} EventsSplit(before: seq<Step>, steps: seq<Step>)
    ensures Events(before + steps) == Events(before) + EventsSince(before, steps)
  {
    hide EventsIn, Run;
    if steps == [] {
      assert before + steps == before;
    } else {
      var n := |steps| - 1;
      assert (before + steps)[..|before + steps| - 1] == before + steps[..n] && (before + steps)[|before + steps| - 1] == steps[n];
      EventsSplit(before, steps[..n]);
    }
  }

  /** So in every run: a path whose lookup was answered stays cached until a deletion removes it
      or eight other paths are answered. */
  lemma StaysCached(before: seq<Step>, p: Path, steps: seq<Step>)
    requires Answer(Run(before), p).Some?
    requires
      var since := EventsSince(before + [Find(p)], steps);
      Lru.Remove(p) !in since && |Lru.Others(since, p)| <= 7
    ensures p in Keys(Run(before + [Find(p)] + steps).cache)
  {
    hide EventsIn, Run, EventsSince, Lru.Cached, Answer;
    EventsSplit(before + [Find(p)], steps);
    UseLast(before, p);
    RunFollowsPolicy(before + [Find(p)] + steps);
    Lru.Survives(Events(before), EventsSince(before + [Find(p)], steps), p, CACHE_SIZE);
  }

  lemma UseLast(before: seq<Step>, p: Path)
    requires Answer(Run(before), p).Some?
    ensures Events(before + [Find(p)]) == Events(before) + [Lru.Use(p)]
  {
    assert (before + [Find(p)])[..|before|] == before;
  }
}
