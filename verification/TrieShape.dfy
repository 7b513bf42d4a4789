/** The shape of the trie of naming_utils.c: objects, what they hold, and the pure
    arguments that each change of a trie leaves a trie. */
module TrieShape {
  import opened Types
  import opened PathMaps

  const MAX_CHILDREN := 256

  /** A malloc'ed FILEINFO. `addr` is the path of the node that owns it. */
  class FileRecord {
    var ip: Text
    var port: int
    var filePath: Path
    ghost const addr: Path

    constructor (ghost addr: Path)
      ensures this.addr == addr
    {
      ip, port, filePath := [], 0, [];
      this.addr := addr;
    }

    function Value(): FileInfo
      reads this
    {
      FileInfo(ip, port, filePath)
    }
  }

  /** The contents of a node. The child table is part of the C struct, so it is a
      value: a struct assignment copies it. */
  datatype Struct = Struct(children: seq<TrieNode?>, info: FileRecord?)

  function EmptyStruct(): Struct {
    Struct(seq(MAX_CHILDREN, i => null), null)
  }

  /** A trie node. `addr` is the byte string that leads to it. */
  class TrieNode {
    var children: seq<TrieNode?>
    var info: FileRecord?
    ghost const addr: Path

    /** create_trie_node */
    constructor (ghost addr: Path)
      ensures this.addr == addr && Content() == EmptyStruct()
    {
      children := seq(MAX_CHILDREN, i => null);
      info := null;
      this.addr := addr;
    }

    function Content(): Struct
      reads this
    {
      Struct(children, info)
    }
  }

  /** The nodes of a tree, what they hold, and its records, indexed by the byte strings
      that lead to them. */
  datatype Tree = Tree(nodeAt: map<Path, TrieNode>, structs: map<Path, Struct>, recAt: map<Path, FileRecord>)

  /** Every object carries the one byte string that leads to it from the node of `top`. */
  ghost predicate Linked(top: Path, t: Tree) {
    && top in t.nodeAt
    && Addressed(t)
    && (forall p {:trigger NodeLinked(p, t)} :: p in t.nodeAt ==> NodeLinked(p, t))
    && (forall p {:trigger ParentLinked(top, p, t)} :: p in t.nodeAt && p != top ==> ParentLinked(top, p, t))
  }

  ghost predicate Addressed(t: Tree) {
    && t.nodeAt.Keys == t.structs.Keys
    && (forall p <- t.nodeAt :: t.nodeAt[p].addr == p)
    && (forall p <- t.recAt :: p in t.nodeAt && t.recAt[p].addr == p)
  }

  lemma LinkedAddresses(top: Path, t: Tree)
    requires Linked(top, t)
    ensures top in t.nodeAt && Addressed(t)
  {
  }

  /** The node at `p` points only to its own record and to the nodes one byte below it. */
  ghost predicate NodeLinked(p: Path, t: Tree)
    requires p in t.structs
  {
    && |t.structs[p].children| == MAX_CHILDREN
    && ChildrenLinked(p, t.structs[p].children, t)
    && t.structs[p].info == (if p in t.recAt then t.recAt[p] else null)
  }

  ghost predicate ChildrenLinked(p: Path, children: seq<TrieNode?>, t: Tree) {
    forall b | 0 <= b < |children| :: children[b] != null ==>
      0 < b < 256 && p + [b] in t.nodeAt && t.nodeAt[p + [b]] == children[b]
  }

  /** The node at `p` is the child, by its last byte, of the node at the rest of `p`. */
  ghost predicate ParentLinked(top: Path, p: Path, t: Tree)
    requires p in t.nodeAt
  {
    && top <= p && |top| < |p|
    && p[..|p| - 1] in t.structs
    && |t.structs[p[..|p| - 1]].children| == MAX_CHILDREN
    && t.structs[p[..|p| - 1]].children[p[|p| - 1]] == t.nodeAt[p]
  }

  lemma TopIsPrefix(top: Path, p: Path, t: Tree)
    requires Linked(top, t) && p in t.nodeAt
    ensures top <= p
  {
    assert p == top || ParentLinked(top, p, t);
  }

  /** The domain of a tree is closed under prefixes. */
  lemma {:induction false} PrefixClosed(top: Path, p: Path, k: nat, t: Tree)
    requires Linked(top, t) && p in t.nodeAt && |top| <= k <= |p|
    ensures p[..k] in t.nodeAt
    decreases |p| - k
  {
    if k == |p| {
      assert p[..k] == p;
    } else {
      PrefixClosed(top, p, k + 1, t);
      TopIsPrefix(top, p, t);
      var q := p[..k + 1];
      assert ParentLinked(top, q, t);
      assert q[..k] == p[..k];
    }
  }

  /** The child pointers on the way to a node are not null. */
  lemma ChildOnPath(top: Path, at: Path, b: Byte, p: Path, t: Tree)
    requires Linked(top, t) && at in t.nodeAt && p in t.nodeAt && at + [b] <= p
    ensures NodeLinked(at, t) && t.structs[at].children[b] != null
    ensures at + [b] in t.nodeAt
  {
    TopIsPrefix(top, at, t);
    PrefixClosed(top, p, |at| + 1, t);
    var q := p[..|at| + 1];
    assert q == at + [b];
    assert ParentLinked(top, q, t);
    assert q[..|at|] == at;
  }

  lemma NodeStaysLinked(q: Path, t: Tree, t': Tree)
    requires q in t.structs && q in t'.structs && NodeLinked(q, t)
    requires t'.structs[q] == t.structs[q]
    requires forall p <- t.nodeAt :: p in t'.nodeAt && t'.nodeAt[p] == t.nodeAt[p]
    requires (q in t'.recAt <==> q in t.recAt) && (q in t.recAt ==> t'.recAt[q] == t.recAt[q])
    ensures NodeLinked(q, t')
  {
  }

  // ----- a new record, no record

  function WithRecord(t: Tree, at: Path, r: FileRecord): Tree
    requires at in t.structs
  {
    Tree(t.nodeAt, t.structs[at := Struct(t.structs[at].children, r)], t.recAt[at := r])
  }

  function WithoutRecord(t: Tree, at: Path): Tree
    requires at in t.structs
  {
    Tree(t.nodeAt, t.structs[at := Struct(t.structs[at].children, null)], t.recAt - {at})
  }

  lemma WithRecordLinked(top: Path, at: Path, r: FileRecord, t: Tree)
    requires Linked(top, t) && at in t.nodeAt && r.addr == at
    ensures Linked(top, WithRecord(t, at, r))
  {
    RecordChangeLinked(top, at, t, WithRecord(t, at, r));
  }

  lemma WithoutRecordLinked(top: Path, at: Path, t: Tree)
    requires Linked(top, t) && at in t.nodeAt
    ensures Linked(top, WithoutRecord(t, at))
  {
    RecordChangeLinked(top, at, t, WithoutRecord(t, at));
  }

  lemma RecordChangeLinked(top: Path, at: Path, t: Tree, t': Tree)
    requires Linked(top, t) && at in t.nodeAt
    requires t'.nodeAt == t.nodeAt && Addressed(t')
    requires forall q <- t.nodeAt :: t'.structs[q].children == t.structs[q].children
    requires forall q <- t.nodeAt | q != at :: t'.structs[q].info == t.structs[q].info
    requires forall q | q != at :: q in t'.recAt <==> q in t.recAt
    requires forall q <- t.recAt | q != at :: t'.recAt[q] == t.recAt[q]
    requires t'.structs[at].info == if at in t'.recAt then t'.recAt[at] else null
    ensures Linked(top, t')
  {
    forall q <- t.nodeAt ensures NodeLinked(q, t') {
      assert NodeLinked(q, t);
    }
    forall q <- t.nodeAt ensures q == top || ParentLinked(top, q, t') {
      assert q == top || ParentLinked(top, q, t);
    }
  }

  // ----- a subtree hung in a free slot

  function WithChild(n: Struct, b: Byte, child: TrieNode): Struct
    requires |n.children| == MAX_CHILDREN
  {
    Struct(n.children[b := child], n.info)
  }

  ghost function Grafted(top: Path, at: Path, b: Byte, t: Tree, sub: Tree): Tree
    requires at in t.structs && |t.structs[at].children| == MAX_CHILDREN && at + [b] in sub.nodeAt
  {
    Tree(t.nodeAt + sub.nodeAt,
         (t.structs + sub.structs)[at := WithChild(t.structs[at], b, sub.nodeAt[at + [b]])],
         t.recAt + sub.recAt)
  }

  ghost predicate CanGraft(top: Path, at: Path, b: Byte, t: Tree, sub: Tree) {
    && Linked(top, t) && at in t.nodeAt && Linked(at + [b], sub)
    && |t.structs[at].children| == MAX_CHILDREN && t.structs[at].children[b] == null
  }

  lemma GraftDisjoint(top: Path, at: Path, b: Byte, t: Tree, sub: Tree)
    requires CanGraft(top, at, b, t, sub)
    ensures t.nodeAt.Keys !! sub.nodeAt.Keys && t.recAt.Keys !! sub.recAt.Keys
    ensures t.nodeAt.Keys !! sub.recAt.Keys && t.recAt.Keys !! sub.nodeAt.Keys
  {
    forall p | p in t.nodeAt ensures p !in sub.nodeAt {
      if p in sub.nodeAt {
        TopIsPrefix(at + [b], p, sub);
        ChildOnPath(top, at, b, p, t);
      }
    }
  }

  lemma GraftNode(q: Path, top: Path, at: Path, b: Byte, t: Tree, sub: Tree)
    requires CanGraft(top, at, b, t, sub) && q in t.nodeAt + sub.nodeAt
    ensures NodeLinked(q, Grafted(top, at, b, t, sub))
  {
    GraftDisjoint(top, at, b, t, sub);
    var t' := Grafted(top, at, b, t, sub);
    if q == at {
      assert NodeLinked(q, t);
    } else if q in t.nodeAt {
      assert NodeLinked(q, t);
      NodeStaysLinked(q, t, t');
    } else {
      assert NodeLinked(q, sub);
      NodeStaysLinked(q, sub, t');
    }
  }

  lemma GraftParent(q: Path, top: Path, at: Path, b: Byte, t: Tree, sub: Tree)
    requires CanGraft(top, at, b, t, sub) && q in t.nodeAt + sub.nodeAt && q != top
    ensures ParentLinked(top, q, Grafted(top, at, b, t, sub))
  {
    GraftDisjoint(top, at, b, t, sub);
    TopIsPrefix(top, at, t);
    if q == at + [b] {
      assert q[..|q| - 1] == at;
    } else if q in t.nodeAt {
      assert ParentLinked(top, q, t);
    } else {
      assert ParentLinked(at + [b], q, sub);
    }
  }

  lemma GraftAddressed(top: Path, at: Path, b: Byte, t: Tree, sub: Tree)
    requires CanGraft(top, at, b, t, sub)
    ensures Addressed(Grafted(top, at, b, t, sub))
  {
    GraftDisjoint(top, at, b, t, sub);
  }

  lemma GraftLinked(top: Path, at: Path, b: Byte, t: Tree, sub: Tree)
    requires CanGraft(top, at, b, t, sub)
    ensures Linked(top, Grafted(top, at, b, t, sub))
  {
    var t' := Grafted(top, at, b, t, sub);
    GraftAddressed(top, at, b, t, sub);
    forall q <- t'.nodeAt ensures NodeLinked(q, t') {
      GraftNode(q, top, at, b, t, sub);
    }
    forall q <- t'.nodeAt ensures q == top || ParentLinked(top, q, t') {
      if q != top { GraftParent(q, top, at, b, t, sub); }
    }
  }

  /** A single empty node. */
  function Leaf(at: Path, n: TrieNode): Tree {
    Tree(map[at := n], map[at := EmptyStruct()], map[])
  }

  lemma LeafLinked(at: Path, n: TrieNode)
    requires n.addr == at
    ensures Linked(at, Leaf(at, n))
  {
  }

  /** Hanging an empty node. */
  lemma LeafGrafted(at: Path, b: Byte, child: TrieNode, t: Tree)
    requires Linked([], t) && at in t.nodeAt && child.addr == at + [b]
    requires |t.structs[at].children| == MAX_CHILDREN && t.structs[at].children[b] == null
    ensures at + [b] !in t.nodeAt
    ensures Linked([], WithLeaf(t, at, b, child))
  {
    hide Linked;
    var leaf := Leaf(at + [b], child);
    LeafLinked(at + [b], child);
    LinkedAddresses([], t);
    GraftDisjoint([], at, b, t, leaf);
    GraftLinked([], at, b, t, leaf);
    assert at + [b] in leaf.nodeAt;
    assert Grafted([], at, b, t, leaf) == WithLeaf(t, at, b, child);
  }

  function WithLeaf(t: Tree, at: Path, b: Byte, child: TrieNode): Tree
    requires at in t.structs && |t.structs[at].children| == MAX_CHILDREN
  {
    Tree(t.nodeAt[at + [b] := child],
         t.structs[at := WithChild(t.structs[at], b, child)][at + [b] := EmptyStruct()],
         t.recAt)
  }

  // ----- the node at `dst` overwritten with the root of another tree

  ghost function Overwritten(dst: Path, t: Tree, sub: Tree): Tree
    requires dst in t.nodeAt
  {
    Tree(Cut(t.nodeAt, dst) + sub.nodeAt[dst := t.nodeAt[dst]],
         Cut(t.structs, dst) + sub.structs,
         Cut(t.recAt, dst) + sub.recAt)
  }

  lemma OverwriteInside(q: Path, dst: Path, t: Tree, sub: Tree)
    requires Linked([], t) && dst in t.nodeAt && Linked(dst, sub) && q in sub.nodeAt
    ensures NodeLinked(q, Overwritten(dst, t, sub))
  {
    TopIsPrefix(dst, q, sub);
    assert NodeLinked(q, sub);
    forall b: Byte | sub.structs[q].children[b] != null ensures q + [b] != dst {
      assert |q + [b]| > |dst|;
    }
  }

  lemma OverwriteOutside(q: Path, dst: Path, t: Tree, sub: Tree)
    requires Linked([], t) && dst in t.nodeAt && Linked(dst, sub) && q in t.nodeAt && !(dst <= q)
    ensures q !in sub.nodeAt && NodeLinked(q, Overwritten(dst, t, sub))
  {
    if q in sub.nodeAt { TopIsPrefix(dst, q, sub); }
    var t' := Overwritten(dst, t, sub);
    assert NodeLinked(q, t);
    forall b: Byte | t.structs[q].children[b] != null
      ensures q + [b] in t'.nodeAt && t'.nodeAt[q + [b]] == t.nodeAt[q + [b]]
    {
      if dst <= q + [b] {
        assert dst == q + [b];
      } else if q + [b] in sub.nodeAt {
        TopIsPrefix(dst, q + [b], sub);
      }
    }
  }

  lemma OverwriteParent(q: Path, dst: Path, t: Tree, sub: Tree)
    requires Linked([], t) && dst in t.nodeAt && Linked(dst, sub)
    requires q in Overwritten(dst, t, sub).nodeAt && q != []
    ensures ParentLinked([], q, Overwritten(dst, t, sub))
  {
    var r := q[..|q| - 1];
    if q in sub.nodeAt && q != dst {
      assert ParentLinked(dst, q, sub);
    } else {
      assert ParentLinked([], q, t);
      if r in sub.nodeAt { TopIsPrefix(dst, r, sub); }
      assert q == r + [q[|r|]];
    }
  }

  lemma OverwriteAddressed(dst: Path, t: Tree, sub: Tree)
    requires Linked([], t) && dst in t.nodeAt && Linked(dst, sub)
    ensures Addressed(Overwritten(dst, t, sub)) && [] in Overwritten(dst, t, sub).nodeAt
  {
    PrefixClosed([], dst, 0, t);
    assert dst[..0] == [];
  }

  lemma OverwriteLinked(dst: Path, t: Tree, sub: Tree)
    requires Linked([], t) && dst in t.nodeAt && Linked(dst, sub)
    ensures Linked([], Overwritten(dst, t, sub))
  {
    var t' := Overwritten(dst, t, sub);
    OverwriteAddressed(dst, t, sub);
    forall q <- t'.nodeAt ensures NodeLinked(q, t') {
      if q in sub.nodeAt {
        OverwriteInside(q, dst, t, sub);
      } else {
        OverwriteOutside(q, dst, t, sub);
      }
    }
    forall q <- t'.nodeAt ensures q == [] || ParentLinked([], q, t') {
      if q != [] { OverwriteParent(q, dst, t, sub); }
    }
  }

  /** The root object stays the root, even when it is the one overwritten. */
  lemma OverwriteRoot(dst: Path, t: Tree, sub: Tree)
    requires Linked([], t) && dst in t.nodeAt && Linked(dst, sub)
    ensures [] in Overwritten(dst, t, sub).nodeAt && Overwritten(dst, t, sub).nodeAt[[]] == t.nodeAt[[]]
  {
    OverwriteAddressed(dst, t, sub);
    if [] in sub.nodeAt { TopIsPrefix(dst, [], sub); }
  }
}
