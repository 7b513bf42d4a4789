/** The lookup cache in front of the trie: an array of entries, most recently used
    first, shifted in place (naming_utils.c). */
module LookupCache {
  import opened Types
  import Lru

  const CACHE_SIZE := 8

  datatype Entry = Entry(key: Path, info: FileInfo)

  function Keys(c: seq<Entry>): seq<Path> {
    seq(|c|, i requires 0 <= i < |c| => c[i].key)
  }

  function Place(c: seq<Entry>, k: Path): (i: nat)
    ensures i <= |c|
    ensures i < |c| ==> c[i].key == k
    ensures forall j | 0 <= j < i :: c[j].key != k
    ensures i < |c| <==> k in Keys(c)
  {
    var i := Lru.Position(Keys(c), k);
    assert forall j | 0 <= j < i :: Keys(c)[..i][j] == c[j].key;
    i
  }

  /** find_in_cache, on a hit */
  function Fronted(c: seq<Entry>, k: Path): seq<Entry>
    requires Place(c, k) < |c|
  {
    var i := Place(c, k);
    [c[i]] + c[..i] + c[i + 1..]
  }

  /** add_to_cache */
  function Added(c: seq<Entry>, e: Entry): seq<Entry> {
    [e] + if |c| == CACHE_SIZE then c[..CACHE_SIZE - 1] else c
  }

  /** remove_from_cache */
  function Dropped(c: seq<Entry>, k: Path): seq<Entry> {
    var i := Place(c, k);
    if i < |c| then c[..i] + c[i + 1..] else c
  }

  lemma PlaceIsPosition(c: seq<Entry>, k: Path)
    ensures Place(c, k) == Lru.Position(Keys(c), k)
  {
  }

  lemma KeysWithout(c: seq<Entry>, i: nat)
    requires i < |c|
    ensures Keys(c[..i] + c[i + 1..]) == Keys(c)[..i] + Keys(c)[i + 1..]
  {
  }

  lemma KeysLength(c: seq<Entry>)
    ensures |Keys(c)| == |c|
  {
  }

  /** On the keys, the three operations are those of the eviction policy. */
  lemma FrontedFollowsPolicy(c: seq<Entry>, k: Path)
    requires k in Keys(c)
    ensures Keys(Fronted(c, k)) == Lru.Accessed(Keys(c), k, CACHE_SIZE)
  {
    var i := Place(c, k);
    PlaceIsPosition(c, k);
    KeysWithout(c, i);
    KeysOfFirst(c[i], c[..i] + c[i + 1..]);
    assert Fronted(c, k) == [c[i]] + (c[..i] + c[i + 1..]);
  }

  lemma KeysOfFirst(e: Entry, c: seq<Entry>)
    ensures Keys([e] + c) == [e.key] + Keys(c)
  {
  }

  lemma AddedFollowsPolicy(c: seq<Entry>, e: Entry)
    requires |c| <= CACHE_SIZE && e.key !in Keys(c)
    ensures Keys(Added(c, e)) == Lru.Accessed(Keys(c), e.key, CACHE_SIZE)
  {
    if |c| == CACHE_SIZE {
      assert Keys(c[..CACHE_SIZE - 1]) == Keys(c)[..CACHE_SIZE - 1];
    }
  }

  lemma DroppedFollowsPolicy(c: seq<Entry>, k: Path)
    ensures Keys(Dropped(c, k)) == Lru.Without(Keys(c), k)
  {
    hide Place, Lru.Position, Keys;
    PlaceIsPosition(c, k);
    if Place(c, k) < |c| { KeysWithout(c, Place(c, k)); }
    KeysLength(c);
  }

  class Cache {
    const entries: array<Entry>
    var count: nat

    ghost predicate Valid()
      reads this
    {
      entries.Length == CACHE_SIZE && count <= CACHE_SIZE
    }

    ghost function Contents(): seq<Entry>
      requires Valid()
      reads this, entries
    {
      entries[..count]
    }

    constructor ()
      ensures Valid() && fresh(entries) && Contents() == []
    {
      entries := new Entry[CACHE_SIZE](_ => Entry([], FileInfo([], 0, [])));
      count := 0;
    }

    /** The position of the entry for `path`, or `count`: the scan that find_in_cache and
        remove_from_cache start with. */
    method Scan(path: Path) returns (i: nat)
      requires Valid()
      ensures i == Place(Contents(), path)
    {
      i := 0;
      while i < count
        invariant 0 <= i <= count
        invariant forall j | 0 <= j < i :: entries[j].key != path
      {
        if entries[i].key == path {
          FirstPlace(Contents(), path, i);
          return;
        }
        i := i + 1;
      }
      NoPlace(Contents(), path);
    }

    /** find_in_cache. On a hit the entry is moved to the front; the caller gets a pointer
        to the information in that first place. */
    method Find(path: Path) returns (hit: bool)
      requires Valid()
      modifies entries
      ensures Valid()
      ensures hit <==> path in Keys(old(Contents()))
      ensures Contents() == if hit then Fronted(old(Contents()), path) else old(Contents())
      ensures !hit ==> entries[..] == old(entries[..])
    {
      ghost var c := Contents();
      var i := Scan(path);
      hit := i < count;
      if hit {
        assert c[i] == entries[..][i] && c[..i] == entries[..][..i] && c[i + 1..] == entries[..][i + 1..count];
        MoveToFront(i);
      }
    }

    method MoveToFront(i: nat)
      requires Valid() && i < count
      modifies entries
      ensures Contents() == [old(entries[..])[i]] + old(entries[..])[..i] + old(entries[..])[i + 1..count]
    {
      var temp := entries[i];
      ghost var before := entries[..];
      var j := i;
      while j > 0
        invariant 0 <= j <= i
        invariant forall k | 0 <= k < CACHE_SIZE :: entries[k] == if j < k <= i then old(entries[k - 1]) else old(entries[k])
      {
        entries[j] := entries[j - 1];
        j := j - 1;
      }
      entries[0] := temp;
      assert entries[1..i + 1] == before[..i] && entries[i + 1..] == before[i + 1..];
      Rotated(before, entries[..], i, count);
    }

    /** add_to_cache */
    method Add(path: Path, info: FileInfo)
      requires Valid()
      modifies this, entries
      ensures Valid()
      ensures Contents() == Added(old(Contents()), Entry(path, info))
      ensures entries[0] == Entry(path, info)
    {
      if count == CACHE_SIZE {
        count := count - 1;
      }
      var i := count;
      while i > 0
        invariant count == (if old(count) == CACHE_SIZE then CACHE_SIZE - 1 else old(count)) && 0 <= i <= count
        invariant forall k | 0 <= k < CACHE_SIZE :: entries[k] == if i < k <= count then old(entries[k - 1]) else old(entries[k])
      {
        entries[i] := entries[i - 1];
        i := i - 1;
      }
      entries[0] := Entry(path, info);
      count := count + 1;
    }

    /** remove_from_cache. Only the entries after the removed one move; when it was the
        only one, its contents stay in the first place, beyond `count`. */
    method Remove(path: Path)
      requires Valid()
      modifies this, entries
      ensures Valid()
      ensures Contents() == Dropped(old(Contents()), path)
      ensures count == 0 ==> entries[0] == old(entries[0])
    {
      ghost var c := Contents();
      var i := Scan(path);
      if i < count {
        assert entries[..i] == c[..i] && entries[i + 1..count] == c[i + 1..];
        ShiftLeft(i);
        count := count - 1;
      }
    }

    /** `remove_from_cache(info->file_path)`, and then the `info->file_path` that
        delete_file_info is called with. A pointer to the first place sees what the
        removal put there. */
    method RemoveThrough(front: bool, info: FileInfo) returns (key: Path)
      requires Valid() && (front ==> entries[0].info == info)
      modifies this, entries
      ensures Valid()
      ensures Contents() == Dropped(old(Contents()), info.filePath)
      ensures key == if front && |Contents()| > 0 then Contents()[0].info.filePath else info.filePath
    {
      Remove(info.filePath);
      key := if front then entries[0].info.filePath else info.filePath;
    }

    method ShiftLeft(i: nat)
      requires Valid() && i < count
      modifies entries
      ensures entries[..count - 1] == old(entries[..i]) + old(entries[i + 1..count])
      ensures count == 1 ==> entries[0] == old(entries[0])
    {
      var j := i;
      while j < count - 1
        invariant i <= j <= count - 1
        invariant forall k | 0 <= k < CACHE_SIZE :: entries[k] == if i <= k < j then old(entries[k + 1]) else old(entries[k])
      {
        entries[j] := entries[j + 1];
        j := j + 1;
      }
    }
  }

  lemma Rotated(a: seq<Entry>, b: seq<Entry>, i: nat, n: nat)
    requires |a| == |b| && i < n <= |a| && b[0] == a[i]
    requires b[1..i + 1] == a[..i] && b[i + 1..] == a[i + 1..]
    ensures b[..n] == [a[i]] + a[..i] + a[i + 1..n]
  {
    assert b == [b[0]] + b[1..i + 1] + b[i + 1..];
    assert a[i + 1..][..n - i - 1] == a[i + 1..n];
  }

  lemma FirstPlace(c: seq<Entry>, k: Path, i: nat)
    requires i < |c| && c[i].key == k && forall j | 0 <= j < i :: c[j].key != k
    ensures Place(c, k) == i
  {
    assert Keys(c)[i] == k;
  }

  lemma NoPlace(c: seq<Entry>, k: Path)
    requires forall j | 0 <= j < |c| :: c[j].key != k
    ensures Place(c, k) == |c|
  {
  }
}
