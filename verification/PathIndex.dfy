/** The path index as values: the trie behind the cache, what the operations of
    naming_utils.c make of the pair, and when the cache can be trusted. */
module PathIndex {
  import opened Types
  import opened PathMaps
  import opened LookupCache
  import Lru

  datatype Index = Index(trie: PathMap, cache: seq<Entry>)

  const EMPTY_INDEX := Index(EMPTY_PATH_MAP, [])

  /** What find_file_info and find_directory_info answer: the cache first. */
  function Answer(ix: Index, p: Path): Option<FileInfo> {
    if p in Keys(ix.cache) then Some(ix.cache[Place(ix.cache, p)].info) else Lookup(ix.trie.files, p)
  }

  /** What they leave behind: the entry at the front, on a hit or on a miss that the trie
      answers. */
  function AfterFind(ix: Index, p: Path): Index {
    if p in Keys(ix.cache) then ix.(cache := Fronted(ix.cache, p))
    else if p in ix.trie.files then ix.(cache := Added(ix.cache, Entry(p, ix.trie.files[p])))
    else ix
  }

  ghost function AfterStore(ix: Index, ip: Text, port: int, token: Path): Index {
    ix.(trie := Updated(ix.trie, ip, port, token))
  }

  /** handle_command_delete, once a record was found: remove_from_cache and then
      delete_file_info, both with the file_path behind the pointer that the lookup gave.
      After a hit that pointer leads to the first place of the cache, where the removal
      may have put another entry before delete_file_info reads it. */
  function AfterDelete(ix: Index, p: Path): Index
    requires Answer(ix, p).Some?
  {
    Index(Deleted(ix.trie, KeyDeleted(ix, p)), CacheAfterDelete(ix, p))
  }

  function CacheAfterDelete(ix: Index, p: Path): seq<Entry>
    requires Answer(ix, p).Some?
  {
    Dropped(AfterFind(ix, p).cache, Answer(ix, p).value.filePath)
  }

  /** The path whose record delete_file_info takes out of the trie. */
  function KeyDeleted(ix: Index, p: Path): Path
    requires Answer(ix, p).Some?
  {
    var c := CacheAfterDelete(ix, p);
    if p in Keys(ix.cache) && |c| > 0 then c[0].info.filePath else Answer(ix, p).value.filePath
  }

  /** The same, by what the pointer is and what it leads to. */
  function DeletedThrough(ix: Index, front: bool, name: Path): Index {
    var c := Dropped(ix.cache, name);
    Index(Deleted(ix.trie, if front && |c| > 0 then c[0].info.filePath else name), c)
  }

  lemma DeleteThroughPointer(ix: Index, p: Path)
    requires Answer(ix, p).Some?
    ensures AfterDelete(ix, p) == DeletedThrough(AfterFind(ix, p), p in Keys(ix.cache), Answer(ix, p).value.filePath)
  {
  }

  /** handle_command_copy for two directories: both are looked up, then the trie copies. */
  ghost function AfterCopy(ix: Index, src: Path, dst: Path): Index {
    var found := AfterFind(AfterFind(ix, src), dst);
    found.(trie := Copied(found.trie, src, dst))
  }

  datatype Step =
    | Store(ip: Text, port: int, token: Path)
    | Find(path: Path)
    | Delete(path: Path)
    | Copy(src: Path, dst: Path)

  ghost function Next(ix: Index, s: Step): Index {
    match s
    case Store(ip, port, token) => AfterStore(ix, ip, port, token)
    case Find(p) => AfterFind(ix, p)
    case Delete(p) => if Answer(ix, p).Some? then AfterDelete(ix, p) else ix
    case Copy(src, dst) => AfterCopy(ix, src, dst)
  }

  ghost function Run(steps: seq<Step>): Index {
    if steps == [] then EMPTY_INDEX else Next(Run(steps[..|steps| - 1]), steps[|steps| - 1])
  }

  // ----- invariants

  ghost predicate WellFormed(ix: Index) {
    |ix.cache| <= CACHE_SIZE && Lru.Distinct(Keys(ix.cache))
  }

  /** Looking through the cache or past it makes no difference. */
  ghost predicate Transparent(ix: Index) {
    forall p :: Answer(ix, p) == Lookup(ix.trie.files, p)
  }

  /** Each entry repeats the record of its key. */
  ghost predicate Coherent(ix: Index) {
    forall e <- ix.cache :: Lookup(ix.trie.files, e.key) == Some(e.info)
  }

  /** Records and entries carry the path under which they are found. */
  ghost predicate SelfNamed(ix: Index) {
    && (forall p <- ix.trie.files :: ix.trie.files[p].filePath == p)
    && (forall e <- ix.cache :: e.info.filePath == e.key)
  }

  lemma KeysHave(c: seq<Entry>, k: Path)
    ensures k in Keys(c) <==> exists e :: e in c && e.key == k
  {
    if k in Keys(c) {
      assert c[Place(c, k)] in c;
    }
    if exists e :: e in c && e.key == k {
      var i :| 0 <= i < |c| && c[i].key == k;
      assert Keys(c)[i] == k;
    }
  }

  lemma EntryAt(c: seq<Entry>, e: Entry)
    requires e in c && Lru.Distinct(Keys(c))
    ensures e.key in Keys(c) && c[Place(c, e.key)] == e
  {
    var i :| 0 <= i < |c| && c[i] == e;
    assert Keys(c)[i] == e.key;
    var j := Place(c, e.key);
    assert Keys(c)[j] == Keys(c)[i];
  }

  lemma TransparentIsCoherent(ix: Index)
    requires WellFormed(ix)
    ensures Transparent(ix) <==> Coherent(ix)
  {
    if Transparent(ix) {
      forall e <- ix.cache ensures Lookup(ix.trie.files, e.key) == Some(e.info) {
        EntryAt(ix.cache, e);
        assert Answer(ix, e.key) == Some(e.info);
      }
    }
    if Coherent(ix) {
      forall p ensures Answer(ix, p) == Lookup(ix.trie.files, p) {
        if p in Keys(ix.cache) { assert ix.cache[Place(ix.cache, p)] in ix.cache; }
      }
    }
  }

  // ----- the cache operations, as changes of its set of entries

  lemma FrontedEntries(c: seq<Entry>, k: Path)
    requires k in Keys(c)
    ensures |Fronted(c, k)| == |c| && Fronted(c, k)[0] == c[Place(c, k)]
    ensures forall e :: e in Fronted(c, k) <==> e in c
  {
    var i := Place(c, k);
    assert c == c[..i] + [c[i]] + c[i + 1..];
  }

  lemma AddedEntries(c: seq<Entry>, e: Entry)
    requires |c| <= CACHE_SIZE
    ensures 0 < |Added(c, e)| <= CACHE_SIZE && Added(c, e)[0] == e
    ensures forall x <- Added(c, e) :: x == e || x in c
  {
  }

  lemma DroppedEntries(c: seq<Entry>, k: Path)
    requires Lru.Distinct(Keys(c))
    ensures |Dropped(c, k)| == if k in Keys(c) then |c| - 1 else |c|
    ensures forall e :: e in Dropped(c, k) <==> e in c && e.key != k
  {
    var i := Place(c, k);
    if i < |c| {
      assert c == c[..i] + [c[i]] + c[i + 1..];
      forall j | 0 <= j < |c| && j != i ensures c[j].key != k {
        assert Keys(c)[j] != Keys(c)[i];
      }
    }
  }

  lemma FindWellFormed(ix: Index, p: Path)
    requires WellFormed(ix)
    ensures WellFormed(AfterFind(ix, p))
  {
    if p in Keys(ix.cache) {
      FrontedFollowsPolicy(ix.cache, p);
      FrontedEntries(ix.cache, p);
      Lru.WithoutMeaning(Keys(ix.cache), p);
    } else if p in ix.trie.files {
      AddedFollowsPolicy(ix.cache, Entry(p, ix.trie.files[p]));
    }
  }

  lemma NextWellFormed(ix: Index, s: Step)
    requires WellFormed(ix)
    ensures WellFormed(Next(ix, s))
  {
    match s
    case Store(_, _, _) =>
    case Find(p) =>
      FindWellFormed(ix, p);
    case Delete(p) =>
      if Answer(ix, p).Some? {
        FindWellFormed(ix, p);
        var c, k := AfterFind(ix, p).cache, Answer(ix, p).value.filePath;
        DroppedFollowsPolicy(c, k);
        DroppedEntries(c, k);
        Lru.WithoutMeaning(Keys(c), k);
      }
    case Copy(src, dst) =>
      FindWellFormed(ix, src);
      FindWellFormed(AfterFind(ix, src), dst);
  }

  lemma FindCoherent(ix: Index, p: Path)
    requires WellFormed(ix) && Coherent(ix)
    ensures Coherent(AfterFind(ix, p))
    ensures Answer(ix, p) == Lookup(ix.trie.files, p)
    ensures Answer(ix, p).Some? ==>
      |AfterFind(ix, p).cache| > 0 && AfterFind(ix, p).cache[0] == Entry(p, Answer(ix, p).value)
  {
    TransparentIsCoherent(ix);
    if p in Keys(ix.cache) {
      FrontedEntries(ix.cache, p);
    } else if p in ix.trie.files {
      AddedEntries(ix.cache, Entry(p, ix.trie.files[p]));
    }
  }
}
