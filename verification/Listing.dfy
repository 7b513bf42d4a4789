/** Listing a directory: traverse_trie and list_files of naming_utils.c. */
module Listing {
  import opened Types
  import opened TrieShape
  import opened TrieIndex

  const MAX_FILE_PATH_SIZE := 256

  /** strcmp(a, b) < 0, on unsigned bytes: `a` is a proper prefix of `b`, or holds the
      smaller byte where the two first differ. */
  ghost predicate Less(a: Path, b: Path) {
    exists k: nat :: LessAt(a, b, k)
  }

  ghost predicate LessAt(a: Path, b: Path, k: nat) {
    && k <= |a| && k < |b| && a[..k] == b[..k]
    && (k == |a| || a[k] < b[k])
  }

  ghost predicate Ascending(s: seq<Path>) {
    forall i, j | 0 <= i < j < |s| :: Less(s[i], s[j])
  }

  lemma LessIrreflexive(a: Path)
    ensures !Less(a, a)
  {
  }

  lemma LessAsymmetric(a: Path, b: Path)
    requires Less(a, b)
    ensures !Less(b, a)
  {
    var k: nat :| LessAt(a, b, k);
    forall l: nat ensures !LessAt(b, a, l) {
      if k < l && l <= |a| && l <= |b| { assert a[..l][k] == a[k] && b[..l][k] == b[k]; }
      if l < k { assert a[..k][l] == a[l] && b[..k][l] == b[l]; }
    }
  }

  lemma HasFirst(t: seq<Path>)
    requires |t| > 0
    ensures exists p :: p in t
  {
    assert t[0] in t;
  }

  /** An ascending sequence is determined by its elements: there is one listing only. */
  lemma {:induction false} ListingUnique(s: seq<Path>, t: seq<Path>)
    requires Ascending(s) && Ascending(t)
    requires forall p :: p in s <==> p in t
    ensures s == t
  {
    if s == [] {
      if |t| > 0 { HasFirst(t); }
    } else {
      assert s[0] in t && t[0] in s;
      var i :| 0 <= i < |t| && t[i] == s[0];
      var j :| 0 <= j < |s| && s[j] == t[0];
      if i != 0 { LessAsymmetric(t[0], s[0]); }
      assert s[0] == t[0];
      forall p ensures p in s[1..] <==> p in t[1..] {
        LessIrreflexive(s[0]);
        assert p in s <==> p == s[0] || p in s[1..];
        assert p in t <==> p == t[0] || p in t[1..];
      }
      ListingUnique(s[1..], t[1..]);
    }
  }

  /** `out` lists, in order, the stored paths at or below `at`; of those strictly below,
      the ones that go on with a byte smaller than `bound`. */
  ghost predicate Lists(out: seq<Path>, stored: set<Path>, at: Path, bound: int) {
    && Ascending(out)
    && forall q :: q in out <==> q in stored && at <= q && (q == at || q[|at|] < bound)
  }

  /** Going on to the next byte appends the listing below it. */
  lemma ListsNext(out: seq<Path>, low: seq<Path>, stored: set<Path>, at: Path, b: Byte)
    requires Lists(out, stored, at, b) && Lists(low, stored, at + [b], 256)
    ensures Lists(out + low, stored, at, b + 1)
  {
    forall i, j | 0 <= i < j < |out + low| ensures Less((out + low)[i], (out + low)[j]) {
      if i < |out| && |out| <= j {
        var p, q := out[i], low[j - |out|];
        assert p in out && q in low;
        assert p[..|at|] == q[..|at|] && q[|at|] == b;
        assert LessAt(p, q, |at|);
      }
    }
    forall q ensures q in out + low <==> q in stored && at <= q && (q == at || q[|at|] < b + 1) {
      assert at + [b] <= q <==> at <= q && q != at && q[|at|] == b;
    }
  }

  /** A byte without a child adds nothing. */
  lemma ListsSkip(out: seq<Path>, stored: set<Path>, at: Path, b: Byte)
    requires Lists(out, stored, at, b)
    requires forall q <- stored :: !(at + [b] <= q)
    ensures Lists(out, stored, at, b + 1)
  {
    forall q | q in stored && at <= q && q != at
      ensures q[|at|] == b ==> at + [b] <= q
    {
    }
  }

  lemma ListsHead(stored: set<Path>, at: Path)
    ensures Lists(if at in stored then [at] else [], stored, at, 1)
  {
  }

  /** What the C buffers need below the listed path: a byte for each step of the walk, and
      for a listed path also the newline and the NUL. */
  ghost predicate FitsBuffers(trie: Trie, at: Path)
    reads trie
  {
    && (forall p <- trie.tree.nodeAt :: at <= p ==> |p| <= MAX_FILE_PATH_SIZE)
    && (forall p <- trie.files :: at <= p ==> |p| + 2 <= MAX_FILE_PATH_SIZE)
  }

  /** traverse_trie. The buffer is shared by all levels: each writes its byte at its
      own depth and leaves what is before it alone. */
  method TraverseTrie(trie: Trie, node: TrieNode, path: array<int>, depth: nat, ghost at: Path)
    returns (out: seq<Path>)
    requires trie.Valid() && at in trie.tree.nodeAt && node == trie.tree.nodeAt[at]
    requires path.Length == MAX_FILE_PATH_SIZE && depth == |at| <= path.Length && path[..depth] == at
    requires FitsBuffers(trie, at)
    modifies path
    ensures depth <= path.Length && path[..depth] == at
    ensures Lists(out, trie.files.Keys, at, 256)
    decreases MAX_FILE_PATH_SIZE - depth, 1
  {
    hide Linked, Lists;
    out := [];
    trie.RecordAt(at);
    if node.info != null {
      var fullPath: Path := path[..depth];
      out := [fullPath];
    }
    ListsHead(trie.files.Keys, at);
    for i := 1 to MAX_CHILDREN
      invariant path[..depth] == at
      invariant Lists(out, trie.files.Keys, at, i)
    {
      var low := TraverseChild(trie, node, path, depth, i, at, out);
      out := out + low;
    }
  }

  lemma ChildMeaning(trie: Trie, at: Path, i: Byte)
    requires trie.Valid() && at in trie.tree.nodeAt
    ensures |trie.tree.nodeAt[at].children| == MAX_CHILDREN
    ensures
      var child := trie.tree.nodeAt[at].children[i];
      && (child == null ==> forall q <- trie.files.Keys :: !(at + [i] <= q))
      && (child != null ==> at + [i] in trie.tree.nodeAt && child == trie.tree.nodeAt[at + [i]])
  {
    assert NodeLinked(at, trie.tree);
    if trie.tree.nodeAt[at].children[i] == null {
      forall q <- trie.files.Keys ensures !(at + [i] <= q) {
        if at + [i] <= q { ChildOnPath([], at, i, q, trie.tree); }
      }
    }
  }

  /** One round of its loop. */
  method TraverseChild(trie: Trie, node: TrieNode, path: array<int>, depth: nat, i: Byte, ghost at: Path, ghost out: seq<Path>)
    returns (low: seq<Path>)
    requires trie.Valid() && at in trie.tree.nodeAt && node == trie.tree.nodeAt[at]
    requires path.Length == MAX_FILE_PATH_SIZE && depth == |at| <= path.Length && path[..depth] == at
    requires FitsBuffers(trie, at)
    requires Lists(out, trie.files.Keys, at, i)
    modifies path
    ensures depth <= path.Length && path[..depth] == at
    ensures Lists(out + low, trie.files.Keys, at, i + 1)
    decreases MAX_FILE_PATH_SIZE - depth, 0
  {
    hide Linked, Lists;
    ChildMeaning(trie, at, i);
    if node.children[i] == null {
      ListsSkip(out, trie.files.Keys, at, i);
      low := [];
      assert out + low == out;
    } else {
      path[depth] := i;
      assert path[..depth + 1] == at + [i];
      low := TraverseTrie(trie, node.children[i], path, depth + 1, at + [i]);
      assert path[..depth] == path[..depth + 1][..depth];
      ListsNext(out, low, trie.files.Keys, at, i);
    }
  }

  lemma NothingListed(trie: Trie, dir: Path)
    requires trie.Valid() && dir !in trie.tree.nodeAt
    ensures forall q <- trie.files :: !(dir <= q)
  {
    forall q <- trie.files ensures !(dir <= q) {
      if dir <= q {
        assert q[..|dir|] == dir;
        PrefixClosed([], q, |dir|, trie.tree);
      }
    }
  }

  /** list_files: exactly the stored paths with the byte prefix `dir`, each once, in
      ascending order. */
  method ListFiles(trie: Trie, dir: Path) returns (out: seq<Path>)
    requires trie.Valid()
    requires FitsBuffers(trie, dir)
    ensures Ascending(out)
    ensures forall q :: q in out <==> q in trie.Value().files && dir <= q
  {
    hide Linked;
    var node := trie.FindTrieNode(dir);
    if node == null {
      NothingListed(trie, dir);
      return [];
    }
    var path := new int[MAX_FILE_PATH_SIZE];
    var i := 0;
    while i < MAX_FILE_PATH_SIZE
      invariant 0 <= i <= MAX_FILE_PATH_SIZE
      invariant forall k | 0 <= k < i :: path[k] == if k < |dir| then dir[k] else 0
    {
      path[i] := if i < |dir| then dir[i] else 0;
      i := i + 1;
    }
    assert path[..|dir|] == dir;
    out := TraverseTrie(trie, node, path, |dir|, dir);
  }
}
