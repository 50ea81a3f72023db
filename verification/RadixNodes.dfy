/** The path-compressed radix tree: heap nodes with child maps, parent links and absolute
    depths, changed in place by insertion (which splits edges) and removal (which merges them).
    Keys are symbol sequences whose substring operation truncates. */
module RadixNodes {
  import opened Options
  import opened Keys

  class Node<T> {
    var children: map<Key, Node<T>>
    var parent: Node?<T>
    var depth: int
    var key: Key
    const isLeaf: bool
    const value: Option<(Key, T)>
    ghost const path: Key   // the symbols from the root down to and including `key`

    constructor (isLeaf: bool, value: Option<(Key, T)>, parent: Node?<T>, key: Key, depth: int, ghost path: Key)
      ensures this.isLeaf == isLeaf && this.value == value && this.parent == parent
      ensures this.key == key && this.depth == depth && this.path == path && children == map[]
    {
      this.isLeaf, this.value, this.parent := isLeaf, value, parent;
      this.key, this.depth, this.path := key, depth, path;
      children := map[];
    }
  }

  /** The mutable fields of a node, and of all nodes of a tree, as values. */
  datatype Rec<T> = Rec(children: map<Key, Node<T>>, parent: Node?<T>, depth: int, key: Key)

  type Store<T> = map<Node<T>, Rec<T>>

  /** Siblings start with different symbols. */
  ghost predicate Fork(ks: set<Key>) {
    forall a, b :: a in ks && b in ks && a != [] && b != [] && a[0] == b[0] ==> a == b
  }

  /** At least two children, or exactly one that is a leaf. */
  ghost predicate Branching(ks: set<Key>) {
    [] in ks || |ks| >= 2
  }

  ghost predicate Up<T>(h: Store<T>, root: Node<T>, n: Node<T>)
    requires n in h
  {
    if n == root then
      h[n] == Rec(h[n].children, null, 0, []) && n.path == [] && !n.isLeaf
    else
      var p := h[n].parent;
      && p != null && p in h && !p.isLeaf
      && h[n].key in h[p].children && h[p].children[h[n].key] == n
      && n.path == p.path + h[n].key && h[n].depth == |p.path|
      && (n.isLeaf <==> h[n].key == [])
  }

  ghost predicate Down<T>(h: Store<T>, n: Node<T>)
    requires n in h
  {
    if n.isLeaf then
      h[n].children == map[] && n.value.Some? && n.value.value.0 == n.path
    else
      && (forall k {:trigger h[n].children[k]} :: k in h[n].children ==>
            var c := h[n].children[k]; c in h && h[c].parent == n && h[c].key == k)
      && Fork(h[n].children.Keys)
  }

  /** Parent links, labels, absolute depths and paths fit together, and siblings fork. */
  ghost predicate Tree<T>(h: Store<T>, root: Node<T>) {
    && root in h
    && (forall n {:trigger Up(h, root, n)} :: n in h ==> Up(h, root, n))
    && (forall n {:trigger Down(h, n)} :: n in h ==> Down(h, n))
  }

  /** No inner node below the root is superfluous. */
  ghost predicate Branched<T>(h: Store<T>, root: Node<T>) {
    forall n :: n in h && !n.isLeaf && n != root ==> Branching(h[n].children.Keys)
  }

  /** `leaves` has the leaf of every stored key. */
  ghost predicate Indexed<T>(h: Store<T>, leaves: map<Key, Node<T>>) {
    && (forall n :: n in h && n.isLeaf ==> n.path in leaves && leaves[n.path] == n)
    && (forall k :: k in leaves ==> leaves[k] in h && leaves[k].isLeaf && leaves[k].value.Some? && leaves[k].path == k)
  }

  // ----- navigation -----

  lemma FirstSymbol(p: Key, a: Key, b: Key, whole: Key)
    requires a != [] && b != [] && p + a <= whole && p + b <= whole
    ensures a[0] == b[0]
  {
    assert (p + a)[|p|] == whole[|p|] == (p + b)[|p|];
  }

  /** Inner nodes whose paths are prefixes of one another lie on one branch: from `n` there is a
      child on the way to `m`. */
  lemma StepDown<T>(h: Store<T>, root: Node<T>, n: Node<T>, m: Node<T>)
    requires Tree(h, root) && n in h && m in h && !n.isLeaf && !m.isLeaf && n.path <= m.path
    ensures n == m || (|n.path| < |m.path| && exists k :: k in h[n].children && k != [] && n.path + k <= m.path)
    decreases |n.path| + |m.path|
  {
    if n != m {
      assert Up(h, root, m) && Up(h, root, n);
      assert m != root;
      var p := h[m].parent;
      assert h[m].key != [] && Down(h, p) && p.path + h[m].key == m.path;
      if n.path <= p.path {
        StepDown(h, root, n, p);
        if n == p { assert n.path + h[m].key <= m.path; }
      } else {
        assert p.path <= n.path;
        StepDown(h, root, p, n);
        var k :| k in h[p].children && k != [] && p.path + k <= n.path;
        FirstSymbol(p.path, k, h[m].key, m.path);
        assert k == h[m].key;
        if |h[n].parent.path| <= |p.path| { SamePath(h, root, n, m); } else { SamePath(h, root, m, n); }
      }
    }
  }

  /** Distinct inner nodes have distinct paths. */
  lemma SamePath<T>(h: Store<T>, root: Node<T>, n: Node<T>, m: Node<T>)
    requires Tree(h, root) && n in h && m in h && !n.isLeaf && !m.isLeaf && n.path == m.path
    requires n != root && m != root && h[n].parent != null && h[m].parent != null
    requires |h[n].parent.path| <= |h[m].parent.path|
    ensures n == m
    decreases |n.path| + |m.path|, 0
  {
    assert Up(h, root, n) && Up(h, root, m);
    var p, q := h[n].parent, h[m].parent;
    assert p.path == n.path[..|p.path|] && q.path == m.path[..|q.path|];
    assert Down(h, p);
    StepDown(h, root, p, q);
    forall k | k in h[p].children && k != [] && p.path + k <= q.path ensures k == h[n].key {
      FirstSymbol(p.path, k, h[n].key, n.path);
    }
    assert p == q;
    FirstSymbol(p.path, h[n].key, h[m].key, n.path);
  }

  /** From an inner node, a stored key that extends its path lies below exactly one child. */
  lemma Toward<T>(h: Store<T>, root: Node<T>, leaves: map<Key, Node<T>>, n: Node<T>, key: Key) returns (k: Key)
    requires Tree(h, root) && Indexed(h, leaves) && n in h && !n.isLeaf && key in leaves && n.path <= key
    ensures k in h[n].children && (if k == [] then n.path == key else n.path + k <= key)
  {
    var l := leaves[key];
    assert Up(h, root, l);
    var p := h[l].parent;
    StepDown(h, root, n, p);
    if n == p {
      k := [];
    } else {
      k :| k in h[n].children && k != [] && n.path + k <= key;
    }
  }

  // ----- lookup -----

  /** Where `find_node` stops: at the leaf of the key, at an inner node on the key's path none of
      whose children continues it, or at the first node whose edge label diverges from it. */
  ghost predicate Located<T>(h: Store<T>, root: Node<T>, key: Key, r: Node<T>) {
    && r in h
    && if r.isLeaf then r.path == key
       else if r.path <= key then
         if |r.path| == |key| then [] !in h[r].children
         else forall k :: k in h[r].children && k != [] ==> k[0] != key[|r.path|]
       else
         && r != root && h[r].parent != null && h[r].key != [] && h[r].parent.path < key
         && h[r].key[0] == key[|h[r].parent.path|]
  }

  /** The search stops at a leaf exactly for stored keys. */
  lemma LocatedIff<T>(h: Store<T>, root: Node<T>, leaves: map<Key, Node<T>>, key: Key, r: Node<T>)
    requires Tree(h, root) && Indexed(h, leaves) && Located(h, root, key, r)
    ensures r.isLeaf <==> key in leaves
    ensures r.isLeaf ==> leaves[key] == r
  {
    if !r.isLeaf && key in leaves {
      if r.path <= key {
        var k := Toward(h, root, leaves, r, key);
      } else {
        var p := h[r].parent;
        assert Up(h, root, r) && Down(h, p);
        var k := Toward(h, root, leaves, p, key);
      }
    }
  }

  /** No stored prefix of the key is longer than the node's path. */
  ghost predicate Covers<T>(leaves: map<Key, Node<T>>, n: Node<T>, key: Key) {
    n.path <= key && forall k :: k in leaves && k <= key ==> |k| <= |n.path|
  }

  /** Between a node on the key's path and its parent there is no stored prefix of the key. */
  lemma NoneBetween<T>(h: Store<T>, root: Node<T>, leaves: map<Key, Node<T>>, n: Node<T>, key: Key, k: Key)
    requires Tree(h, root) && Indexed(h, leaves) && n in h && !n.isLeaf && n != root && h[n].parent != null
    requires h[n].parent.path < key && h[n].key != [] && h[n].key[0] == key[|h[n].parent.path|]
    requires k in leaves && k <= key && |h[n].parent.path| < |k|
    ensures n.path <= k
  {
    var p := h[n].parent;
    assert Up(h, root, n) && Down(h, p);
    assert p.path <= k;
    var c := Toward(h, root, leaves, p, k);
    FirstSymbol(p.path, c, [key[|p.path|]], key);
  }

  lemma LocatedCovers<T>(h: Store<T>, root: Node<T>, leaves: map<Key, Node<T>>, key: Key, found: Node<T>)
    requires Tree(h, root) && Indexed(h, leaves) && Located(h, root, key, found) && !found.isLeaf
    ensures found.path <= key ==> Covers(leaves, found, key)
    ensures !(found.path <= key) ==> h[found].parent != null && Covers(leaves, h[found].parent, key)
  {
    assert Up(h, root, found);
    forall k | k in leaves && k <= key && found.path <= key ensures |k| <= |found.path| {
      if |found.path| < |k| {
        var c := Toward(h, root, leaves, found, k);
      }
    }
    if !(found.path <= key) {
      var p := h[found].parent;
      forall k | k in leaves && k <= key ensures |k| <= |p.path| {
        if |p.path| < |k| { NoneBetween(h, root, leaves, found, key, k); }
      }
    }
  }

  lemma ParentCovers<T>(h: Store<T>, root: Node<T>, leaves: map<Key, Node<T>>, n: Node<T>, key: Key)
    requires Tree(h, root) && Indexed(h, leaves)
    requires n in h && !n.isLeaf && Covers(leaves, n, key) && [] !in h[n].children
    ensures if h[n].parent == null then forall k :: k in leaves ==> !(k <= key) else Covers(leaves, h[n].parent, key)
  {
    assert Up(h, root, n);
    var p := h[n].parent;
    forall k | k in leaves && k <= key ensures p != null && |k| <= |p.path| {
      if |k| == |n.path| {
        var c := Toward(h, root, leaves, n, k);
      } else if p != null && |p.path| < |k| {
        NoneBetween(h, root, leaves, n, key, k);
      }
    }
  }
}
