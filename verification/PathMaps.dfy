/** What the trie of naming_utils.c stands for, and what its operations do to it. */
module PathMaps {
  import opened Types

  /** `nodes`: the byte strings that lead to a node. `files`: those whose node holds a
      record, with the contents of the record. Deletion empties nodes and keeps them. */
  datatype PathMap = PathMap(nodes: set<Path>, files: map<Path, FileInfo>)

  const EMPTY_PATH_MAP := PathMap({[]}, map[])

  ghost function Prefixes(t: Path): set<Path> {
    set i | 0 <= i <= |t| :: t[..i]
  }

  lemma PrefixesMeaning(t: Path)
    ensures forall p :: p in Prefixes(t) <==> p <= t
  {
    assert forall p: Path {:trigger p in Prefixes(t)} :: p <= t ==> p == t[..|p|];
  }

  /** update_file_info and update_file_info_fromdir */
  ghost function Updated(m: PathMap, ip: Text, port: int, token: Path): PathMap {
    PathMap(m.nodes + Prefixes(token), m.files[token := FileInfo(ip, port, token)])
  }

  /** delete_file_info */
  function Deleted(m: PathMap, p: Path): PathMap {
    PathMap(m.nodes, m.files - {p})
  }

  /** The paths below `from` in `keys`, moved below `to`; of the paths strictly below
      `from`, only those that go on with a byte smaller than `bound`. */
  ghost function Image(keys: set<Path>, from: Path, to: Path, bound: int): set<Path> {
    set p | p in keys && from <= p && (p == from || p[|from|] < bound) :: Rebased(p, from, to)
  }

  /** copy_directory_trie: everything at or below `dst` is replaced by a copy of what is
      at or below `src`. */
  ghost function Copied(m: PathMap, src: Path, dst: Path): PathMap {
    if src !in m.nodes then m
    else PathMap((set p | p in m.nodes + Prefixes(dst) && !(dst <= p)) + Image(m.nodes, src, dst, 256),
                 Transplanted(m.files, src, dst))
  }

  ghost function Transplanted(files: map<Path, FileInfo>, src: Path, dst: Path): map<Path, FileInfo> {
    Cut(files, dst) + Moved(files, src, dst, 256)
  }

  /** `m` without what is at or below `dst`. */
  function Cut<V>(m: map<Path, V>, dst: Path): map<Path, V> {
    map p | p in m && !(dst <= p) :: m[p]
  }

  /** The copied records. They keep the contents, and so the file_path, of the source. */
  ghost function Moved(files: map<Path, FileInfo>, from: Path, to: Path, bound: int): map<Path, FileInfo> {
    map q | q in Image(files.Keys, from, to, bound) && to <= q && Rebased(q, to, from) in files ::
      files[Rebased(q, to, from)]
  }

  function Lookup(files: map<Path, FileInfo>, p: Path): Option<FileInfo> {
    if p in files then Some(files[p]) else None
  }

  lemma RebasedBack(p: Path, from: Path, to: Path)
    requires from <= p
    ensures to <= Rebased(p, from, to) && Rebased(Rebased(p, from, to), to, from) == p
  {
  }

  lemma ImageMeaning(keys: set<Path>, from: Path, to: Path, q: Path)
    ensures q in Image(keys, from, to, 256) <==> to <= q && Rebased(q, to, from) in keys
  {
    if q in Image(keys, from, to, 256) {
      var p :| p in keys && from <= p && q == Rebased(p, from, to);
      RebasedBack(p, from, to);
    }
    if to <= q {
      RebasedBack(q, to, from);
    }
  }

  /** Whatever the relative position of `src` and `dst`: after the copy, a path at or
      below `dst` answers as its counterpart below `src` did before, any other path as
      it did itself. */
  lemma CopyMeaning(m: PathMap, src: Path, dst: Path, q: Path)
    requires src in m.nodes
    ensures Lookup(Copied(m, src, dst).files, q) ==
      if dst <= q then Lookup(m.files, src + q[|dst|..]) else Lookup(m.files, q)
  {
    ImageMeaning(m.files.Keys, src, dst, q);
  }

  /** The same for nodes; those on the way to `dst` are made. Without a source nothing happens. */
  lemma CopyNodes(m: PathMap, src: Path, dst: Path, q: Path)
    ensures src !in m.nodes ==> Copied(m, src, dst) == m
    ensures src in m.nodes ==>
      (q in Copied(m, src, dst).nodes <==> if dst <= q then src + q[|dst|..] in m.nodes else q in m.nodes || q <= dst)
  {
    ImageMeaning(m.nodes, src, dst, q);
    PrefixesMeaning(dst);
  }

  lemma ImageStep(keys: set<Path>, from: Path, to: Path, b: Byte)
    ensures Image(keys, from, to, b + 1) == Image(keys, from, to, b) + Image(keys, from + [b], to + [b], 256)
    ensures Image(keys, from, to, 0) == Image(keys, from, to, 1)
  {
    var below := Image(keys, from + [b], to + [b], 256);
    forall p | p in keys && from + [b] <= p
      ensures Rebased(p, from + [b], to + [b]) == Rebased(p, from, to)
    {
      assert p == from + [b] + p[|from| + 1..];
    }
    forall p | p in keys && from <= p && p != from && p[|from|] == b
      ensures from + [b] <= p && Rebased(p, from, to) in below
    {
      assert p == from + [b] + p[|from| + 1..];
    }
    assert forall q <- below :: q in Image(keys, from, to, b + 1);
  }

  lemma HeadImage(keys: set<Path>, from: Path, to: Path)
    requires from in keys
    ensures Image(keys, from, to, 0) == {to}
  {
    assert Rebased(from, from, to) == to;
  }

  lemma HeadMoved(files: map<Path, FileInfo>, from: Path, to: Path)
    ensures Moved(files, from, to, 0) == if from in files then map[to := files[from]] else map[]
  {
    assert Rebased(from, from, to) == to && Rebased(to, to, from) == from;
    if from in files { HeadImage(files.Keys, from, to); }
  }

  lemma MovedMeaning(files: map<Path, FileInfo>, from: Path, to: Path, bound: int, q: Path)
    ensures q in Moved(files, from, to, bound) <==> q in Image(files.Keys, from, to, bound)
    ensures q in Moved(files, from, to, bound) ==>
      to <= q && Rebased(q, to, from) in files && Moved(files, from, to, bound)[q] == files[Rebased(q, to, from)]
  {
    if q in Image(files.Keys, from, to, bound) {
      var p :| p in files && from <= p && q == Rebased(p, from, to);
      RebasedBack(p, from, to);
    }
  }

  lemma MovedStepAt(files: map<Path, FileInfo>, from: Path, to: Path, b: Byte, q: Path)
    ensures Lookup(Moved(files, from, to, b + 1), q) ==
            Lookup(Moved(files, from, to, b) + Moved(files, from + [b], to + [b], 256), q)
  {
    hide Image, Moved;
    ImageStep(files.Keys, from, to, b);
    MovedMeaning(files, from, to, b + 1, q);
    MovedMeaning(files, from, to, b, q);
    MovedMeaning(files, from + [b], to + [b], 256, q);
    if to + [b] <= q {
      assert q[|to|..] == [b] + q[|to| + 1..];
      assert Rebased(q, to, from) == Rebased(q, to + [b], from + [b]);
    }
  }

  lemma SameLookups(m: map<Path, FileInfo>, n: map<Path, FileInfo>)
    requires forall q :: Lookup(m, q) == Lookup(n, q)
    ensures m == n
  {
    assert forall q :: Lookup(m, q).Some? <==> q in m;
    assert forall q :: Lookup(n, q).Some? <==> q in n;
    assert forall q <- m :: Lookup(m, q) == Some(m[q]) && Lookup(n, q) == Some(n[q]);
  }

  lemma MovedStep(files: map<Path, FileInfo>, from: Path, to: Path, b: Byte)
    ensures Moved(files, from, to, b + 1) == Moved(files, from, to, b) + Moved(files, from + [b], to + [b], 256)
    ensures Moved(files, from, to, 0) == Moved(files, from, to, 1)
  {
    forall q
      ensures Lookup(Moved(files, from, to, b + 1), q) ==
              Lookup(Moved(files, from, to, b) + Moved(files, from + [b], to + [b], 256), q)
    {
      MovedStepAt(files, from, to, b, q);
    }
    SameLookups(Moved(files, from, to, b + 1), Moved(files, from, to, b) + Moved(files, from + [b], to + [b], 256));
    ImageStep(files.Keys, from, to, b);
  }

  /** A bound on the lengths of the paths in `keys`. */
  ghost function Height(keys: set<Path>): nat {
    if keys == {} then 0
    else
      var p :| p in keys;
      |p| + Height(keys - {p})
  }

  lemma {:induction false} HeightMeaning(keys: set<Path>)
    ensures forall p <- keys :: |p| <= Height(keys)
    decreases keys
  {
    if keys != {} {
      var q :| q in keys && Height(keys) == |q| + Height(keys - {q});
      HeightMeaning(keys - {q});
      assert forall p <- keys :: p == q || p in keys - {q};
    }
  }
}
