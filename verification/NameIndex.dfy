/** The path index as it stands in memory: trie and cache together, with the pointers
    that lookups hand out. */
module NameIndexes {
  import opened Types
  import opened PathMaps
  import opened TrieShape
  import opened TrieIndex
  import opened LookupCache
  import opened PathIndex

  /** A FILEINFO pointer: NULL, the first place of the cache, or a record of the trie. */
  datatype InfoRef = Null | CacheFront | InTrie(record: FileRecord)

  class NameIndex {
    const trie: Trie
    const cache: Cache

    ghost predicate Valid()
      reads this, trie, trie.repr, cache
    {
      trie.Valid() && cache.Valid() && cache !in trie.repr && cache.entries !in trie.repr
    }

    ghost function Value(): Index
      requires Valid()
      reads this, trie, trie.repr, cache, cache.entries
    {
      Index(trie.Value(), cache.Contents())
    }

    constructor ()
      ensures Valid() && Value() == EMPTY_INDEX
      ensures fresh(trie) && fresh(trie.repr) && fresh(cache) && fresh(cache.entries)
    {
      trie := new Trie();
      cache := new Cache();
    }

    /** The FILEINFO behind a pointer, now. */
    function Deref(ref: InfoRef): FileInfo
      requires Valid() && ref != Null
      requires ref.InTrie? ==> ref.record in trie.repr
      reads this, trie, trie.repr, cache, cache.entries
    {
      if ref.CacheFront? then cache.entries[0].info else ref.record.Value()
    }

    /** find_file_info and find_directory_info */
    method FindFileInfo(path: Path) returns (ref: InfoRef)
      requires Valid()
      modifies cache, cache.entries
      ensures Valid()
      ensures Value() == AfterFind(old(Value()), path)
      ensures ref == Null <==> Answer(old(Value()), path).None?
      ensures ref.InTrie? ==> ref.record in trie.repr
      ensures ref != Null ==> Deref(ref) == Answer(old(Value()), path).value
      ensures ref.CacheFront? <==> path in Keys(old(Value()).cache)
      ensures ref == Null ==> cache.entries[..] == old(cache.entries[..])
    {
      hide Linked, TrieIndex.Reflects;
      var hit := cache.Find(path);
      if hit {
        return CacheFront;
      }
      var info := trie.FindRecord(path);
      if info == null {
        return Null;
      }
      cache.Add(path, FileInfo(info.ip, info.port, info.filePath));
      return InTrie(info);
    }

    /** A lookup while another pointer is held. When it fails it touches neither structure,
        and the other pointer still leads to what it led to. */
    method FindKeeping(path: Path, other: InfoRef, ghost info: FileInfo) returns (ref: InfoRef)
      requires Valid() && (other.InTrie? ==> other.record in trie.repr)
      requires other != Null ==> Deref(other) == info
      modifies cache, cache.entries
      ensures Valid()
      ensures Value() == AfterFind(old(Value()), path)
      ensures ref == Null <==> Answer(old(Value()), path).None?
      ensures other.InTrie? ==> other.record in trie.repr
      ensures ref == Null && other != Null ==> Deref(other) == info
    {
      ghost var front := cache.entries[..][0];
      ref := FindFileInfo(path);
      assert ref == Null ==> cache.entries[..][0] == front;
    }

    /** update_file_info, update_file_info_fromdir */
    method UpdateFileInfo(ip: Text, port: int, token: Path)
      requires Valid()
      modifies trie.repr
      ensures Valid() && old(trie.repr) <= trie.repr && fresh(trie.repr - old(trie.repr))
      ensures Value() == AfterStore(old(Value()), ip, port, token)
    {
      trie.UpdateFileInfo(ip, port, token);
    }

    /** `remove_from_cache(info->file_path); delete_file_info(trie, info->file_path);`
        with the pointer that a lookup has just returned. */
    method DeleteThrough(ref: InfoRef)
      requires Valid() && ref != Null && (ref.InTrie? ==> ref.record in trie.repr)
      modifies trie.repr, cache, cache.entries
      ensures Valid() && trie.repr == old(trie.repr)
      ensures Value() == DeletedThrough(old(Value()), ref.CacheFront?, old(Deref(ref)).filePath)
    {
      hide Linked, TrieIndex.Reflects;
      var info := Deref(ref);
      var key := cache.RemoveThrough(ref.CacheFront?, info);
      trie.DeleteFileInfo(key);
    }

    /** copy_directory_trie */
    method CopyDirectory(src: Path, dst: Path)
      requires Valid()
      modifies trie.repr
      ensures Valid() && old(trie.repr) <= trie.repr && fresh(trie.repr - old(trie.repr))
      ensures Value() == old(Value()).(trie := Copied(old(Value()).trie, src, dst))
    {
      trie.CopyDirectoryTrie(src, dst);
    }
  }
}
