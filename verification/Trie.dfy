/** The path index of the naming server: a 256-way byte trie on the heap
    (naming_utils.c), proved to refine the maps of PathMaps. */
module TrieIndex {
  import opened Types
  import opened PathMaps
  import opened TrieShape

  /** The objects of `t` are in `repr`, and they hold now what `t` and `files` say. */
  ghost predicate Reflects(t: Tree, files: map<Path, FileInfo>, repr: set<object>)
    reads repr
  {
    && (forall p <- t.nodeAt :: t.nodeAt[p] in repr && p in t.structs && t.nodeAt[p].Content() == t.structs[p])
    && (forall p <- t.recAt :: t.recAt[p] in repr && p in files && t.recAt[p].Value() == files[p])
    && files.Keys == t.recAt.Keys
  }

  lemma UpdateTwice<V>(m: map<Path, V>, p: Path, v: V, w: V)
    ensures m[p := v][p := w] == m[p := w]
  {
  }

  class Trie {
    var root: TrieNode
    ghost var tree: Tree
    ghost var files: map<Path, FileInfo>
    ghost var repr: set<object>

    ghost predicate Valid()
      reads this, repr
    {
      && this in repr
      && Linked([], tree) && root == tree.nodeAt[[]]
      && Reflects(tree, files, repr)
    }

    /** The maps that the trie stands for. */
    ghost function Value(): PathMap
      reads this
    {
      PathMap(tree.nodeAt.Keys, files)
    }

    /** create_trie */
    constructor ()
      ensures Valid() && fresh(repr) && Value() == EMPTY_PATH_MAP
    {
      var n := new TrieNode([]);
      root := n;
      tree, files := Leaf([], n), map[];
      repr := {this, n};
      new;
      LeafLinked([], n);
    }

    /** The node reached from the root by following the bytes of `p`, read off the heap. */
    ghost function Walk(p: Path): TrieNode?
      reads this, repr
      decreases |p|
    {
      if p == [] then root
      else
        var n := Walk(p[..|p| - 1]);
        if n == null || n !in repr || |n.children| != MAX_CHILDREN then null
        else n.children[p[|p| - 1]]
    }

    /** Following pointers and looking up the address are the same thing. */
    lemma {:induction false} WalkMeaning(p: Path)
      requires Valid()
      ensures Walk(p) == if p in tree.nodeAt then tree.nodeAt[p] else null
      decreases |p|
    {
      if p != [] {
        var q, b := p[..|p| - 1], p[|p| - 1];
        WalkMeaning(q);
        assert p == q + [b];
        assert p in tree.nodeAt ==> ParentLinked([], p, tree);
        assert q in tree.nodeAt ==> NodeLinked(q, tree);
      }
    }

    /** No two byte strings lead to the same node, and no two nodes share a record. */
    lemma HeapShape(p: Path, q: Path)
      requires Valid() && Walk(p) != null && Walk(q) != null
      ensures Walk(p) in repr && Walk(q) in repr
      ensures Walk(p) == Walk(q) ==> p == q
      ensures Walk(p).info != null && Walk(p).info == Walk(q).info ==> p == q
    {
      WalkMeaning(p);
      WalkMeaning(q);
      assert NodeLinked(p, tree);
      assert NodeLinked(q, tree);
    }

    /** find_trie_node, and the walk that find_file_info, find_directory_info,
        delete_file_info and list_files start with. */
    method FindTrieNode(path: Path) returns (node: TrieNode?)
      requires Valid()
      ensures node == if path in tree.nodeAt then tree.nodeAt[path] else null
    {
      node := root;
      var i := 0;
      while i < |path|
        invariant 0 <= i <= |path|
        invariant path[..i] in tree.nodeAt && node == tree.nodeAt[path[..i]]
      {
        var index := path[i];
        assert path[..i + 1] == path[..i] + [index];
        assert NodeLinked(path[..i], tree);
        if node.children[index] == null {
          if path in tree.nodeAt { ChildOnPath([], path[..i], index, path, tree); }
          return null;
        }
        node := node.children[index];
        i := i + 1;
      }
      assert path[..i] == path;
    }

    /** The walk and the record at its end, as in the second half of find_file_info. */
    method FindRecord(path: Path) returns (info: FileRecord?)
      requires Valid()
      ensures info == null <==> path !in files
      ensures info != null ==> info in repr && info.Value() == files[path]
    {
      var node := FindTrieNode(path);
      if node == null {
        return null;
      }
      assert NodeLinked(path, tree);
      info := node.info;
    }

    /** `node->children[index] = child`, for an empty child that no node points to yet. */
    method AttachChild(node: TrieNode, b: Byte, child: TrieNode, ghost at: Path)
      requires Valid() && at in tree.nodeAt && node == tree.nodeAt[at]
      requires |node.children| == MAX_CHILDREN && node.children[b] == null
      requires child in repr && child.addr == at + [b] && child.Content() == EmptyStruct()
      modifies this, node
      ensures Valid() && repr == old(repr)
      ensures tree == WithLeaf(old(tree), at, b, child) && files == old(files)
    {
      ghost var t' := WithLeaf(tree, at, b, child);
      assert Linked([], t') by { LeafGrafted(at, b, child, tree); }
      node.children := node.children[b := child];
      tree := t';
      forall p <- tree.nodeAt ensures tree.nodeAt[p] in repr && tree.nodeAt[p].Content() == tree.structs[p] {
        assert tree.nodeAt[p].addr == p;
      }
    }

    /** One byte of the walk that creates missing nodes. */
    method Descend(node: TrieNode, index: Byte, ghost at: Path) returns (child: TrieNode)
      requires Valid() && at in tree.nodeAt && node == tree.nodeAt[at]
      modifies this, node
      ensures Valid() && tree.recAt == old(tree.recAt) && files == old(files)
      ensures at + [index] in tree.nodeAt && child == tree.nodeAt[at + [index]]
      ensures tree.nodeAt == old(tree.nodeAt)[at + [index] := child]
      ensures old(repr) <= repr && fresh(repr - old(repr))
    {
      assert NodeLinked(at, tree);
      if node.children[index] == null {
        child := new TrieNode(at + [index]);
        repr := repr + {child};
        AttachChild(node, index, child, at);
      } else {
        child := node.children[index];
      }
    }

    /** The walk that creates missing nodes, shared by update_file_info,
        update_file_info_fromdir and insert_trie_node. */
    method Reach(token: Path) returns (node: TrieNode)
      requires Valid()
      modifies repr
      ensures Valid() && tree.recAt == old(tree.recAt) && files == old(files)
      ensures old(repr) <= repr && fresh(repr - old(repr))
      ensures token in tree.nodeAt && node == tree.nodeAt[token]
      ensures old(tree.nodeAt.Keys) <= tree.nodeAt.Keys
      ensures forall p <- tree.nodeAt :: p in old(tree.nodeAt) || p <= token
    {
      node := root;
      var i := 0;
      while i < |token|
        invariant 0 <= i <= |token|
        invariant Valid() && tree.recAt == old(tree.recAt) && files == old(files)
        invariant old(repr) <= repr && fresh(repr - old(repr))
        invariant token[..i] in tree.nodeAt && node == tree.nodeAt[token[..i]]
        invariant old(tree.nodeAt.Keys) <= tree.nodeAt.Keys
        invariant forall p <- tree.nodeAt :: p in old(tree.nodeAt) || p <= token
      {
        assert token[..i + 1] == token[..i] + [token[i]];
        node := Descend(node, token[i], token[..i]);
        i := i + 1;
      }
      assert token[..i] == token;
    }

    /** A trie whose nodes are those of `before` and some on the way to `token`, one of
        them at `token` itself, has all of them. */
    lemma ReachedNodes(before: set<Path>, token: Path)
      requires Linked([], tree) && token in tree.nodeAt && before <= tree.nodeAt.Keys
      requires forall p <- tree.nodeAt :: p in before || p <= token
      ensures tree.nodeAt.Keys == before + Prefixes(token)
    {
      PrefixesMeaning(token);
      forall p | p in Prefixes(token) ensures p in tree.nodeAt {
        PrefixClosed([], token, |p|, tree);
        assert p == token[..|p|];
      }
    }

    /** `node->file_info = r` */
    method AttachRecord(node: TrieNode, r: FileRecord, ghost at: Path)
      requires Valid() && at in tree.nodeAt && node == tree.nodeAt[at] && r in repr && r.addr == at
      modifies this, node
      ensures Valid() && repr == old(repr)
      ensures tree == WithRecord(old(tree), at, r) && files == old(files)[at := old(r.Value())]
    {
      ghost var t', files' := WithRecord(tree, at, r), files[at := r.Value()];
      assert Linked([], t') by { WithRecordLinked([], at, r, tree); }
      SetInfo(node, r, at, tree, files, repr, t', files');
      Install(t', files', repr);
    }

    lemma RecordAt(at: Path)
      requires Valid() && at in tree.nodeAt
      ensures tree.nodeAt[at] in repr && (tree.nodeAt[at].info == null <==> at !in tree.recAt)
      ensures at in tree.recAt ==> tree.nodeAt[at].info == tree.recAt[at] && at in files
    {
      assert NodeLinked(at, tree);
    }

    /** `node->file_info`, allocated first when it is NULL. */
    method EnsureRecord(node: TrieNode, ghost at: Path) returns (r: FileRecord)
      requires Valid() && at in tree.nodeAt && node == tree.nodeAt[at]
      modifies this, node
      ensures Valid() && old(repr) <= repr && fresh(repr - old(repr))
      ensures tree.nodeAt == old(tree.nodeAt)
      ensures tree.recAt == old(tree.recAt)[at := r]
      ensures at in files && files == old(files)[at := files[at]]
    {
      hide Linked;
      RecordAt(at);
      if node.info == null {
        r := new FileRecord(at);
        repr := repr + {r};
        AttachRecord(node, r, at);
      } else {
        r := node.info;
      }
    }

    /** The three assignments that end update_file_info. */
    method StoreInfo(r: FileRecord, ip: Text, port: int, token: Path)
      requires Valid() && token in tree.recAt && r == tree.recAt[token]
      modifies this, r
      ensures Valid() && tree == old(tree) && repr == old(repr)
      ensures files == old(files)[token := FileInfo(ip, port, token)]
    {
      r.port := port;
      r.ip := ip;
      r.filePath := token;
      files := files[token := FileInfo(ip, port, token)];
    }

    /** The record for `token`, made with its node and the nodes on the way when needed. */
    method RecordFor(token: Path) returns (r: FileRecord)
      requires Valid()
      modifies repr
      ensures Valid() && old(repr) <= repr && fresh(repr - old(repr))
      ensures token in tree.recAt && r == tree.recAt[token]
      ensures tree.nodeAt.Keys == old(tree.nodeAt.Keys) + Prefixes(token)
      ensures token in files && files == old(files)[token := files[token]]
    {
      hide Linked;
      var node := Reach(token);
      ReachedNodes(old(tree.nodeAt.Keys), token);
      r := EnsureRecord(node, token);
    }

    /** update_file_info, which takes the address from the registering server, and
        update_file_info_fromdir, which takes it from the record of the directory. */
    method UpdateFileInfo(ip: Text, port: int, token: Path)
      requires Valid()
      modifies repr
      ensures Valid() && old(repr) <= repr && fresh(repr - old(repr))
      ensures Value() == Updated(old(Value()), ip, port, token)
    {
      var r := RecordFor(token);
      ghost var before := files[token];
      StoreInfo(r, ip, port, token);
      UpdateTwice(old(files), token, before, FileInfo(ip, port, token));
    }

    /** `node->file_info = NULL` */
    method DetachRecord(node: TrieNode, ghost at: Path)
      requires Valid() && at in tree.nodeAt && node == tree.nodeAt[at]
      modifies this, node
      ensures Valid() && repr == old(repr)
      ensures tree == WithoutRecord(old(tree), at) && files == old(files) - {at}
    {
      ghost var t', files' := WithoutRecord(tree, at), files - {at};
      assert Linked([], t') by { WithoutRecordLinked([], at, tree); }
      SetInfo(node, null, at, tree, files, repr, t', files');
      Install(t', files', repr);
    }

    /** delete_file_info */
    method DeleteFileInfo(path: Path)
      requires Valid()
      modifies repr
      ensures Valid() && repr == old(repr)
      ensures Value() == Deleted(old(Value()), path)
    {
      var node := FindTrieNode(path);
      assert path in tree.nodeAt ==> NodeLinked(path, tree);
      if node != null && node.info != null {
        DetachRecord(node, path);
      }
    }

    /** The part of copy_trie_node before its loop: a node with a copy of the record. */
    method CopyHead(node: TrieNode, ghost from: Path, ghost to: Path)
      returns (copy: TrieNode, ghost sub: Tree, ghost subFiles: map<Path, FileInfo>, ghost subRepr: set<object>)
      requires Valid() && from in tree.nodeAt && node == tree.nodeAt[from]
      ensures fresh(subRepr) && Linked(to, sub) && copy == sub.nodeAt[to]
      ensures Reflects(sub, subFiles, subRepr)
      ensures sub.nodeAt.Keys == {to}
      ensures subFiles == if from in files then map[to := files[from]] else map[]
    {
      assert NodeLinked(from, tree);
      if node.info == null {
        copy := new TrieNode(to);
        sub, subFiles, subRepr := Leaf(to, copy), map[], {copy};
        LeafLinked(to, copy);
      } else {
        copy, sub, subFiles, subRepr := CopyWithRecord(node.info, to);
      }
    }

    /** `copy`, with the objects of `subRepr`, is a tree at `to` that holds what this trie
        holds at `from` and below those of its children that are smaller than `bound`. */
    ghost predicate IsCopy(from: Path, to: Path, bound: int, copy: TrieNode,
                           sub: Tree, subFiles: map<Path, FileInfo>, subRepr: set<object>)
      reads this, subRepr
    {
      && Linked(to, sub) && copy == sub.nodeAt[to]
      && Reflects(sub, subFiles, subRepr)
      && sub.nodeAt.Keys == Image(tree.nodeAt.Keys, from, to, bound)
      && subFiles == Moved(files, from, to, bound)
    }

    lemma HeadIsCopy(from: Path, to: Path, copy: TrieNode,
                     sub: Tree, subFiles: map<Path, FileInfo>, subRepr: set<object>)
      requires from in tree.nodeAt && Linked(to, sub) && copy == sub.nodeAt[to]
      requires Reflects(sub, subFiles, subRepr) && sub.nodeAt.Keys == {to}
      requires subFiles == if from in files then map[to := files[from]] else map[]
      ensures IsCopy(from, to, 1, copy, sub, subFiles, subRepr)
    {
      HeadImage(tree.nodeAt.Keys, from, to);
      HeadMoved(files, from, to);
      ImageStep(tree.nodeAt.Keys, from, to, 1);
      MovedStep(files, from, to, 1);
    }

    /** Below a null child there is nothing to copy. */
    lemma NothingBelow(from: Path, to: Path, i: Byte)
      requires Linked([], tree) && from in tree.nodeAt && files.Keys == tree.recAt.Keys
      requires |tree.structs[from].children| == MAX_CHILDREN && tree.structs[from].children[i] == null
      ensures Image(tree.nodeAt.Keys, from + [i], to + [i], 256) == {}
      ensures Moved(files, from + [i], to + [i], 256) == map[]
    {
      forall p | p in tree.nodeAt ensures !(from + [i] <= p) {
        if from + [i] <= p { ChildOnPath([], from, i, p, tree); }
      }
      assert Image(files.Keys, from + [i], to + [i], 256) == {};
    }

    lemma NullIsCopy(from: Path, to: Path, i: Byte, copy: TrieNode,
                     sub: Tree, subFiles: map<Path, FileInfo>, subRepr: set<object>)
      requires Image(tree.nodeAt.Keys, from + [i], to + [i], 256) == {}
      requires Moved(files, from + [i], to + [i], 256) == map[]
      requires IsCopy(from, to, i, copy, sub, subFiles, subRepr)
      ensures IsCopy(from, to, i + 1, copy, sub, subFiles, subRepr)
    {
      ImageStep(tree.nodeAt.Keys, from, to, i);
      MovedStep(files, from, to, i);
    }

    /** A copy of the child, hung in its slot, extends the copy by that child. */
    lemma GraftIsCopy(from: Path, to: Path, i: Byte, copy: TrieNode,
                      sub: Tree, subFiles: map<Path, FileInfo>, low: Tree, lowFiles: map<Path, FileInfo>,
                      repr': set<object>)
      requires CanGraft(to, to, i, sub, low) && copy == sub.nodeAt[to]
      requires sub.nodeAt.Keys == Image(tree.nodeAt.Keys, from, to, i)
      requires subFiles == Moved(files, from, to, i)
      requires low.nodeAt.Keys == Image(tree.nodeAt.Keys, from + [i], to + [i], 256)
      requires lowFiles == Moved(files, from + [i], to + [i], 256)
      requires Reflects(Grafted(to, to, i, sub, low), subFiles + lowFiles, repr')
      ensures IsCopy(from, to, i + 1, copy, Grafted(to, to, i, sub, low), subFiles + lowFiles, repr')
    {
      ImageStep(tree.nodeAt.Keys, from, to, i);
      MovedStep(files, from, to, i);
      GraftDisjoint(to, to, i, sub, low);
      GraftLinked(to, to, i, sub, low);
    }

    /** The copy has no child in slot `i` before round `i` of the loop. */
    lemma FreeSlot(from: Path, to: Path, i: Byte, sub: Tree)
      requires Linked(to, sub) && sub.nodeAt.Keys == Image(tree.nodeAt.Keys, from, to, i)
      ensures |sub.structs[to].children| == MAX_CHILDREN && sub.structs[to].children[i] == null
    {
      assert NodeLinked(to, sub);
      assert to + [i] !in Image(tree.nodeAt.Keys, from, to, i) by {
        forall p | p in tree.nodeAt && from <= p && (p == from || p[|from|] < i)
          ensures Rebased(p, from, to) != to + [i]
        {
          if p != from { assert Rebased(p, from, to)[|to|] == p[|from|]; }
        }
      }
    }

    /** copy_trie_node: a deep copy of the subtree at `from`, of fresh objects only. */
    method CopyTrieNode(node: TrieNode, ghost from: Path, ghost to: Path)
      returns (copy: TrieNode, ghost sub: Tree, ghost subFiles: map<Path, FileInfo>, ghost subRepr: set<object>)
      requires Valid() && from in tree.nodeAt && node == tree.nodeAt[from]
      ensures fresh(subRepr) && IsCopy(from, to, 256, copy, sub, subFiles, subRepr)
      decreases Height(tree.nodeAt.Keys) - |from|, 3
    {
      copy, sub, subFiles, subRepr := CopyHead(node, from, to);
      HeadIsCopy(from, to, copy, sub, subFiles, subRepr);
      sub, subFiles, subRepr := CopyChildren(node, copy, from, to, sub, subFiles, subRepr);
    }

    /** The loop of copy_trie_node. No C string holds the byte 0. */
    method CopyChildren(node: TrieNode, copy: TrieNode, ghost from: Path, ghost to: Path,
                        ghost sub: Tree, ghost subFiles: map<Path, FileInfo>, ghost subRepr: set<object>)
      returns (ghost sub': Tree, ghost subFiles': map<Path, FileInfo>, ghost subRepr': set<object>)
      requires Valid() && from in tree.nodeAt && node == tree.nodeAt[from]
      requires IsCopy(from, to, 1, copy, sub, subFiles, subRepr)
      requires copy !in repr
      modifies copy
      ensures IsCopy(from, to, 256, copy, sub', subFiles', subRepr')
      ensures forall o <- subRepr' :: o in subRepr || fresh(o)
      decreases Height(tree.nodeAt.Keys) - |from|, 2
    {
      sub', subFiles', subRepr' := sub, subFiles, subRepr;
      for i := 1 to MAX_CHILDREN
        invariant forall o <- subRepr' :: o in subRepr || fresh(o)
        invariant IsCopy(from, to, i, copy, sub', subFiles', subRepr')
      {
        sub', subFiles', subRepr' := CopyChild(node, i, copy, from, to, sub', subFiles', subRepr');
      }
    }

    /** `new_node->children[i] = copy_trie_node(node->children[i])` */
    method CopyChild(node: TrieNode, i: Byte, copy: TrieNode, ghost from: Path, ghost to: Path,
                     ghost sub: Tree, ghost subFiles: map<Path, FileInfo>, ghost subRepr: set<object>)
      returns (ghost sub': Tree, ghost subFiles': map<Path, FileInfo>, ghost subRepr': set<object>)
      requires Valid() && from in tree.nodeAt && node == tree.nodeAt[from]
      requires IsCopy(from, to, i, copy, sub, subFiles, subRepr)
      requires copy !in repr
      modifies copy
      ensures IsCopy(from, to, i + 1, copy, sub', subFiles', subRepr')
      ensures forall o <- subRepr' :: o in subRepr || fresh(o)
      decreases Height(tree.nodeAt.Keys) - |from|, 1
    {
      assert NodeLinked(from, tree);
      if node.children[i] == null {
        NothingBelow(from, to, i);
        NullIsCopy(from, to, i, copy, sub, subFiles, subRepr);
        sub', subFiles', subRepr' := sub, subFiles, subRepr;
      } else {
        sub', subFiles', subRepr' := CopyIntoSlot(node, i, copy, from, to, sub, subFiles, subRepr);
      }
    }

    method CopyIntoSlot(node: TrieNode, i: Byte, copy: TrieNode, ghost from: Path, ghost to: Path,
                        ghost sub: Tree, ghost subFiles: map<Path, FileInfo>, ghost subRepr: set<object>)
      returns (ghost sub': Tree, ghost subFiles': map<Path, FileInfo>, ghost subRepr': set<object>)
      requires Valid() && from in tree.nodeAt && node == tree.nodeAt[from]
      requires NodeLinked(from, tree) && node.children[i] != null
      requires IsCopy(from, to, i, copy, sub, subFiles, subRepr)
      requires copy !in repr
      modifies copy
      ensures IsCopy(from, to, i + 1, copy, sub', subFiles', subRepr')
      ensures forall o <- subRepr' :: o in subRepr || fresh(o)
      decreases Height(tree.nodeAt.Keys) - |from|, 0
    {
      HeightBound(from + [i]);
      var child, low, lowFiles, lowRepr := CopyTrieNode(node.children[i], from + [i], to + [i]);
      sub', subFiles', subRepr' :=
        ExtendCopy(copy, i, child, from, to, sub, subFiles, subRepr, low, lowFiles, lowRepr);
    }

    lemma HeightBound(p: Path)
      requires p in tree.nodeAt
      ensures |p| <= Height(tree.nodeAt.Keys)
    {
      HeightMeaning(tree.nodeAt.Keys);
    }

    /** `new_node->children[i] = child`, for a finished copy of the child. */
    method ExtendCopy(copy: TrieNode, i: Byte, child: TrieNode, ghost from: Path, ghost to: Path,
                      ghost sub: Tree, ghost subFiles: map<Path, FileInfo>, ghost subRepr: set<object>,
                      ghost low: Tree, ghost lowFiles: map<Path, FileInfo>, ghost lowRepr: set<object>)
      returns (ghost sub': Tree, ghost subFiles': map<Path, FileInfo>, ghost subRepr': set<object>)
      requires IsCopy(from, to, i, copy, sub, subFiles, subRepr)
      requires IsCopy(from + [i], to + [i], 256, child, low, lowFiles, lowRepr)
      requires copy !in repr && copy !in lowRepr
      modifies copy
      ensures IsCopy(from, to, i + 1, copy, sub', subFiles', subRepr')
      ensures subRepr' == subRepr + lowRepr
    {
      hide Linked, Moved, Image;
      LinkedAddresses(to, sub);
      LinkedAddresses(to + [i], low);
      FreeSlot(from, to, i, sub);
      GraftDisjoint(to, to, i, sub, low);
      HangCopy(copy, i, child, to, sub, subFiles, subRepr, low, lowFiles, lowRepr);
      sub', subFiles', subRepr' := Grafted(to, to, i, sub, low), subFiles + lowFiles, subRepr + lowRepr;
      GraftIsCopy(from, to, i, copy, sub, subFiles, low, lowFiles, subRepr');
    }

    /** `*node = *new_node`: the struct at `dst` is overwritten with the root of the copy. */
    method OverwriteNode(node: TrieNode, copy: TrieNode, ghost dst: Path,
                         ghost sub: Tree, ghost subFiles: map<Path, FileInfo>, ghost subRepr: set<object>)
      requires Valid() && dst in tree.nodeAt && node == tree.nodeAt[dst]
      requires Linked(dst, sub) && copy == sub.nodeAt[dst]
      requires Reflects(sub, subFiles, subRepr) && subRepr !! repr
      modifies this, node
      ensures Valid() && repr == old(repr) + subRepr
      ensures tree == Overwritten(dst, old(tree), sub)
      ensures files == Cut(old(files), dst) + subFiles
    {
      ghost var t', files', repr' := Overwritten(dst, tree, sub), Cut(files, dst) + subFiles, repr + subRepr;
      assert Linked([], t') && root == t'.nodeAt[[]] by {
        OverwriteLinked(dst, tree, sub);
        OverwriteRoot(dst, tree, sub);
      }
      OverwriteStruct(node, copy, dst, tree, files, repr, sub, subFiles, subRepr);
      Install(t', files', repr');
    }

    ghost method Install(t': Tree, files': map<Path, FileInfo>, repr': set<object>)
      requires Linked([], t') && root == t'.nodeAt[[]] && this in repr' && Reflects(t', files', repr')
      modifies this`tree, this`files, this`repr
      ensures Valid() && tree == t' && files == files' && repr == repr'
    {
      tree, files, repr := t', files', repr';
    }

    /** insert_trie_node */
    method InsertTrieNode(path: Path, newNode: TrieNode,
                          ghost sub: Tree, ghost subFiles: map<Path, FileInfo>, ghost subRepr: set<object>)
      requires Valid() && Linked(path, sub) && newNode == sub.nodeAt[path]
      requires Reflects(sub, subFiles, subRepr) && subRepr !! repr
      modifies repr
      ensures Valid() && old(repr) <= repr && fresh(repr - old(repr) - subRepr)
      ensures tree.nodeAt.Keys == (set p | p in old(tree.nodeAt.Keys) + Prefixes(path) && !(path <= p)) + sub.nodeAt.Keys
      ensures files == Cut(old(files), path) + subFiles
    {
      var node := Reach(path);
      ReachedNodes(old(tree.nodeAt.Keys), path);
      OverwriteNode(node, newNode, path, sub, subFiles, subRepr);
    }

    /** copy_directory_trie */
    method CopyDirectoryTrie(src: Path, dst: Path)
      requires Valid()
      modifies repr
      ensures Valid() && old(repr) <= repr && fresh(repr - old(repr))
      ensures Value() == Copied(old(Value()), src, dst)
    {
      hide Linked, Reflects;
      var source := FindTrieNode(src);
      if source == null {
        return;
      }
      var copied, sub, subFiles, subRepr := CopyTrieNode(source, src, dst);
      InsertTrieNode(dst, copied, sub, subFiles, subRepr);
    }
  }

  /** A new node with a new record that holds what `info` holds. */
  method CopyWithRecord(info: FileRecord, ghost to: Path)
    returns (copy: TrieNode, ghost sub: Tree, ghost subFiles: map<Path, FileInfo>, ghost subRepr: set<object>)
    ensures fresh(subRepr) && Linked(to, sub) && sub.nodeAt == map[to := copy]
    ensures Reflects(sub, subFiles, subRepr) && subFiles == map[to := info.Value()]
  {
    var r := new FileRecord(to);
    r.ip, r.port, r.filePath := info.ip, info.port, info.filePath;
    copy := new TrieNode(to);
    copy.info := r;
    sub, subFiles, subRepr := WithRecord(Leaf(to, copy), to, r), map[to := r.Value()], {copy, r};
    LeafLinked(to, copy);
    WithRecordLinked(to, to, r, Leaf(to, copy));
  }

  /** `node->file_info = r` */
  method SetInfo(node: TrieNode, r: FileRecord?, ghost at: Path,
                 ghost t: Tree, ghost files: map<Path, FileInfo>, ghost repr: set<object>,
                 ghost t': Tree, ghost files': map<Path, FileInfo>)
    requires Addressed(t) && Reflects(t, files, repr) && at in t.nodeAt && node == t.nodeAt[at]
    requires t'.nodeAt == t.nodeAt && t'.structs == t.structs[at := Struct(t.structs[at].children, r)]
    requires files'.Keys == t'.recAt.Keys
    requires forall p <- t'.recAt :: t'.recAt[p] in repr && t'.recAt[p].Value() == files'[p]
    modifies node
    ensures Reflects(t', files', repr)
  {
    node.info := r;
  }

  lemma TopIsPrefixAll(top: Path, t: Tree)
    requires Linked(top, t)
    ensures forall p <- t.nodeAt :: top <= p
  {
    forall p <- t.nodeAt ensures top <= p { TopIsPrefix(top, p, t); }
  }

  lemma CutReflects(t: Tree, files: map<Path, FileInfo>, repr: set<object>, dst: Path)
    requires Reflects(t, files, repr)
    ensures Reflects(Tree(Cut(t.nodeAt, dst), Cut(t.structs, dst), Cut(t.recAt, dst)), Cut(files, dst), repr)
  {
  }

  /** `*node = *copy`, for a node outside the tree `above`. */
  method AssignStruct(node: TrieNode, copy: TrieNode, ghost dst: Path,
                      ghost above: Tree, ghost files: map<Path, FileInfo>, ghost repr: set<object>,
                      ghost sub: Tree, ghost subFiles: map<Path, FileInfo>, ghost subRepr: set<object>)
    requires Reflects(above, files, repr) && Reflects(sub, subFiles, subRepr)
    requires forall p <- above.nodeAt :: above.nodeAt[p] != node
    requires dst in sub.nodeAt && copy == sub.nodeAt[dst] && node in repr && node !in subRepr
    modifies node
    ensures Reflects(above, files, repr)
    ensures Reflects(Tree(sub.nodeAt[dst := node], sub.structs, sub.recAt), subFiles, repr + subRepr)
  {
    node.children, node.info := copy.children, copy.info;
  }

  /** The same, for the node at `dst` in the tree `t`. */
  method OverwriteStruct(node: TrieNode, copy: TrieNode, ghost dst: Path,
                         ghost t: Tree, ghost files: map<Path, FileInfo>, ghost repr: set<object>,
                         ghost sub: Tree, ghost subFiles: map<Path, FileInfo>, ghost subRepr: set<object>)
    requires Addressed(t) && Linked(dst, sub) && Reflects(t, files, repr) && Reflects(sub, subFiles, subRepr)
    requires dst in t.nodeAt && node == t.nodeAt[dst] && copy == sub.nodeAt[dst]
    requires subRepr !! repr
    modifies node
    ensures Reflects(Overwritten(dst, t, sub), Cut(files, dst) + subFiles, repr + subRepr)
  {
    ghost var above := Tree(Cut(t.nodeAt, dst), Cut(t.structs, dst), Cut(t.recAt, dst));
    CutReflects(t, files, repr, dst);
    AssignStruct(node, copy, dst, above, Cut(files, dst), repr, sub, subFiles, subRepr);
    TopIsPrefixAll(dst, sub);
    ReflectsBoth(above, Cut(files, dst), repr,
                 Tree(sub.nodeAt[dst := node], sub.structs, sub.recAt), subFiles, repr + subRepr, Overwritten(dst, t, sub));
    assert repr + (repr + subRepr) == repr + subRepr;
  }

  /** Two trees apart, each what the heap holds, are together what the heap holds. */
  lemma ReflectsBoth(t: Tree, files: map<Path, FileInfo>, repr: set<object>,
                     t': Tree, files': map<Path, FileInfo>, repr': set<object>, both: Tree)
    requires Reflects(t, files, repr) && Reflects(t', files', repr')
    requires t.nodeAt.Keys !! t'.nodeAt.Keys && t.recAt.Keys !! t'.recAt.Keys
    requires both.nodeAt == t.nodeAt + t'.nodeAt && both.recAt == t.recAt + t'.recAt
    requires forall p <- t.nodeAt :: p in both.structs && (p in t.structs ==> both.structs[p] == t.structs[p])
    requires forall p <- t'.nodeAt :: p in both.structs && (p in t'.structs ==> both.structs[p] == t'.structs[p])
    ensures Reflects(both, files + files', repr + repr')
  {
  }

  /** `copy->children[b] = child` */
  method SetChild(copy: TrieNode, b: Byte, child: TrieNode, ghost to: Path,
                  ghost sub: Tree, ghost subFiles: map<Path, FileInfo>, ghost subRepr: set<object>)
    requires Addressed(sub) && Reflects(sub, subFiles, subRepr)
    requires to in sub.nodeAt && copy == sub.nodeAt[to] && |sub.structs[to].children| == MAX_CHILDREN
    modifies copy
    ensures Reflects(Tree(sub.nodeAt, sub.structs[to := WithChild(sub.structs[to], b, child)], sub.recAt), subFiles, subRepr)
  {
    copy.children := copy.children[b := child];
  }

  /** The same, for two finished trees that become one. */
  method HangCopy(copy: TrieNode, b: Byte, child: TrieNode, ghost to: Path,
                  ghost sub: Tree, ghost subFiles: map<Path, FileInfo>, ghost subRepr: set<object>,
                  ghost low: Tree, ghost lowFiles: map<Path, FileInfo>, ghost lowRepr: set<object>)
    requires Addressed(sub) && Addressed(low)
    requires to in sub.nodeAt && copy == sub.nodeAt[to] && to + [b] in low.nodeAt && child == low.nodeAt[to + [b]]
    requires sub.nodeAt.Keys !! low.nodeAt.Keys && sub.recAt.Keys !! low.recAt.Keys
    requires |sub.structs[to].children| == MAX_CHILDREN
    requires Reflects(sub, subFiles, subRepr) && Reflects(low, lowFiles, lowRepr) && copy !in lowRepr
    modifies copy
    ensures Reflects(Grafted(to, to, b, sub, low), subFiles + lowFiles, subRepr + lowRepr)
  {
    hide Reflects;
    SetChild(copy, b, child, to, sub, subFiles, subRepr);
    ReflectsBoth(Tree(sub.nodeAt, sub.structs[to := WithChild(sub.structs[to], b, child)], sub.recAt), subFiles, subRepr,
                 low, lowFiles, lowRepr, Grafted(to, to, b, sub, low));
  }
}
