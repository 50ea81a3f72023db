/** The four in-place edits that insertion and removal are made of, as functions on the nodes'
    fields, each of which keeps the tree well formed. */
module RadixEdits {
  import opened Keys
  import opened RadixNodes

  // ----- a new childless node -----

  ghost function Add<T>(h: Store<T>, p: Node<T>, key: Key, c: Node<T>): Store<T>
    requires p in h
  {
    h[p := h[p].(children := h[p].children[key := c])][c := Rec(map[], p, |p.path|, key)]
  }

  /** The label is free below `p`: not taken and starting with a new symbol. */
  ghost predicate Fits(ks: set<Key>, key: Key) {
    key !in ks && (key != [] ==> forall k :: k in ks && k != [] ==> k[0] != key[0])
  }

  /** `c` is not in the tree yet and was made for this path. */
  ghost predicate NewNode<T>(h: Store<T>, c: Node<T>, path: Key, leaf: bool) {
    c !in h && c.path == path && c.isLeaf == leaf && (leaf ==> c.value.Some? && c.value.value.0 == path)
  }

  lemma AddTree<T>(h: Store<T>, root: Node<T>, p: Node<T>, key: Key, c: Node<T>)
    requires Tree(h, root) && p in h && !p.isLeaf && Fits(h[p].children.Keys, key)
    requires NewNode(h, c, p.path + key, key == [])
    ensures Tree(Add(h, p, key, c), root)
  {
    var h' := Add(h, p, key, c);
    forall n | n in h' ensures Up(h', root, n) {
      if n != c { assert Up(h, root, n); }
    }
    forall n | n in h' ensures Down(h', n) {
      if n != c { assert Down(h, n); }
    }
  }

  // ----- a new node on an edge -----

  ghost function Split<T>(h: Store<T>, n: Node<T>, count: nat, a: Node<T>): Store<T>
    requires n in h && h[n].parent != null && h[n].parent in h && count <= |h[n].key|
  {
    var p, key := h[n].parent, h[n].key;
    h[p := h[p].(children := (h[p].children - {key})[key[..count] := a])]
     [a := Rec(map[key[count..] := n], p, |p.path|, key[..count])]
     [n := h[n].(parent := a, depth := h[n].depth + count, key := key[count..])]
  }

  ghost predicate CanSplit<T>(h: Store<T>, root: Node<T>, n: Node<T>, count: nat, a: Node<T>) {
    && Tree(h, root) && n in h && n != root && !n.isLeaf
    && h[n].parent != null && h[n].parent in h && 0 < count < |h[n].key|
    && NewNode(h, a, h[n].parent.path + h[n].key[..count], false)
  }

  lemma SplitUp<T>(h: Store<T>, root: Node<T>, n: Node<T>, count: nat, a: Node<T>, m: Node<T>)
    requires CanSplit(h, root, n, count, a) && m in h + map[a := h[n]]
    ensures m in Split(h, n, count, a) && Up(Split(h, n, count, a), root, m)
  {
    var h' := Split(h, n, count, a);
    var p, key := h[n].parent, h[n].key;
    assert Up(h, root, n) && Down(h, p);
    assert key == key[..count] + key[count..];
    if m == n {
      assert n.path == (p.path + key[..count]) + key[count..];
    } else if m != a {
      assert Up(h, root, m);
      if m != root && h[m].parent == p {
        assert h[m].key != key && h[m].key in h'[p].children;
        assert h[m].key != key[..count];
      }
    }
  }

  lemma SplitDown<T>(h: Store<T>, root: Node<T>, n: Node<T>, count: nat, a: Node<T>, m: Node<T>)
    requires CanSplit(h, root, n, count, a) && m in h + map[a := h[n]]
    ensures m in Split(h, n, count, a) && Down(Split(h, n, count, a), m)
  {
    var h' := Split(h, n, count, a);
    var p, key := h[n].parent, h[n].key;
    assert Up(h, root, n) && Down(h, p);
    if m != a {
      assert Down(h, m);
      if m == p {
        forall k | k in h'[p].children
          ensures var c := h'[p].children[k]; c in h' && h'[c].parent == p && h'[c].key == k
        {
          if k != key[..count] { assert k in h[p].children && h[p].children[k] != n; }
        }
        assert key[..count][0] == key[0];
      } else if !m.isLeaf {
        forall k | k in h'[m].children
          ensures var c := h'[m].children[k]; c in h' && h'[c].parent == m && h'[c].key == k
        {
          assert h[m].children[k] != n;
        }
      }
    }
  }

  lemma SplitTree<T>(h: Store<T>, root: Node<T>, n: Node<T>, count: nat, a: Node<T>)
    requires CanSplit(h, root, n, count, a)
    ensures Tree(Split(h, n, count, a), root)
  {
    var h' := Split(h, n, count, a);
    forall m | m in h' ensures Up(h', root, m) { SplitUp(h, root, n, count, a, m); }
    forall m | m in h' ensures Down(h', m) { SplitDown(h, root, n, count, a, m); }
  }

  // ----- a childless node goes -----

  ghost function Drop<T>(h: Store<T>, c: Node<T>): Store<T>
    requires c in h && h[c].parent != null && h[c].parent in h && h[c].parent != c
  {
    var p := h[c].parent;
    (h - {c})[p := h[p].(children := h[p].children - {h[c].key})]
  }

  lemma DropTree<T>(h: Store<T>, root: Node<T>, c: Node<T>)
    requires Tree(h, root) && c in h && c != root && h[c].children == map[]
    requires h[c].parent != null && h[c].parent in h && h[c].parent != c
    ensures Tree(Drop(h, c), root)
  {
    var h' := Drop(h, c);
    var p := h[c].parent;
    assert Up(h, root, c) && Down(h, p);
    forall n | n in h' ensures Up(h', root, n) {
      assert Up(h, root, n);
    }
    forall n | n in h' ensures Down(h', n) {
      assert Down(h, n);
      if !n.isLeaf {
        forall k | k in h'[n].children ensures h[n].children[k] != c {
          assert k in h[n].children;
        }
      }
    }
  }

  // ----- a node with a single inner child goes, its label joins the child's -----

  ghost function Merge<T>(h: Store<T>, g: Node<T>, k: Key): Store<T>
    requires g in h && h[g].parent != null && h[g].parent in h && h[g].parent != g
    requires k in h[g].children && h[g].children[k] in h && h[g].children[k] != g
  {
    var p, u := h[g].parent, h[g].children[k];
    (h - {g})[u := h[u].(depth := h[g].depth, key := h[g].key + k, parent := p)]
             [p := h[p].(children := (h[p].children - {h[g].key})[h[g].key + k := u])]
  }

  ghost predicate CanMerge<T>(h: Store<T>, root: Node<T>, g: Node<T>, k: Key) {
    && Tree(h, root) && g in h && g != root && !g.isLeaf && h[g].children.Keys == {k} && k != []
    && h[g].parent != null && h[g].parent in h && h[g].parent != g
    && h[g].children[k] in h && h[g].children[k] != g && h[g].children[k] != h[g].parent
  }

  lemma MergeUp<T>(h: Store<T>, root: Node<T>, g: Node<T>, k: Key, m: Node<T>)
    requires CanMerge(h, root, g, k) && m in h && m != g
    ensures m in Merge(h, g, k) && Up(Merge(h, g, k), root, m)
  {
    var p, u, key := h[g].parent, h[g].children[k], h[g].key;
    assert Up(h, root, g) && Up(h, root, m) && Down(h, g) && Down(h, p) && Up(h, root, u);
    if m == u {
      assert u.path == p.path + (key + k);
    } else if m != root && h[m].parent == p {
      assert h[m].key != key;
      assert (key + k)[0] == key[0];
    }
  }

  lemma MergeDown<T>(h: Store<T>, root: Node<T>, g: Node<T>, k: Key, m: Node<T>)
    requires CanMerge(h, root, g, k) && m in h && m != g
    ensures m in Merge(h, g, k) && Down(Merge(h, g, k), m)
  {
    var h' := Merge(h, g, k);
    var p, u, key := h[g].parent, h[g].children[k], h[g].key;
    assert Up(h, root, g) && Down(h, g) && Down(h, p) && Down(h, m) && Up(h, root, u);
    if !m.isLeaf {
      forall j | j in h'[m].children
        ensures var c := h'[m].children[j]; c in h' && h'[c].parent == m && h'[c].key == j
      {
        if m == p {
          if j != key + k { assert j in h[p].children && h[p].children[j] != g && h[p].children[j] != u; }
        } else {
          assert j in h[m].children && h[m].children[j] != g && h[m].children[j] != u;
        }
      }
      if m == p {
        assert (key + k)[0] == key[0];
      }
    }
  }

  lemma MergeTree<T>(h: Store<T>, root: Node<T>, g: Node<T>, k: Key)
    requires CanMerge(h, root, g, k)
    ensures Tree(Merge(h, g, k), root)
  {
    var h' := Merge(h, g, k);
    forall m | m in h' ensures Up(h', root, m) { MergeUp(h, root, g, k, m); }
    forall m | m in h' ensures Down(h', m) { MergeDown(h, root, g, k, m); }
  }

  // ----- the edits of insertion and removal keep the whole invariant -----

  ghost predicate Sound<T>(h: Store<T>, root: Node<T>, leaves: map<Key, Node<T>>) {
    Tree(h, root) && Branched(h, root) && Indexed(h, leaves)
  }

  lemma BranchingGrows(ks: set<Key>, key: Key)
    ensures Branching(ks) ==> Branching(ks + {key})
  {
    if |ks| >= 2 && key !in ks { assert |ks + {key}| == |ks| + 1; }
    if key in ks { assert ks + {key} == ks; }
  }

  /** Everything but the branching of node `x`. */
  ghost predicate Except<T>(h: Store<T>, root: Node<T>, leaves: map<Key, Node<T>>, x: Node<T>) {
    && Tree(h, root) && Indexed(h, leaves)
    && forall n :: n in h && !n.isLeaf && n != root && n != x ==> Branching(h[n].children.Keys)
  }

  /** A new leaf below an inner node that has none. */
  lemma AddLeafSound<T>(h: Store<T>, root: Node<T>, leaves: map<Key, Node<T>>, p: Node<T>, c: Node<T>)
    requires Except(h, root, leaves, p) && p in h && !p.isLeaf && [] !in h[p].children
    requires NewNode(h, c, p.path, true) && p.path !in leaves
    ensures Sound(Add(h, p, [], c), root, leaves[p.path := c])
  {
    var h' := Add(h, p, [], c);
    assert p.path + [] == p.path;
    AddTree(h, root, p, [], c);
    assert h'[p].children.Keys == h[p].children.Keys + {[]};
  }

  /** A new inner node below `p`, which still lacks its leaf. */
  lemma AddInnerExcept<T>(h: Store<T>, root: Node<T>, leaves: map<Key, Node<T>>, p: Node<T>, tag: Key, c: Node<T>)
    requires Except(h, root, leaves, p) && p in h && !p.isLeaf
    requires p != root ==> Branching(h[p].children.Keys + {tag})
    requires tag != [] && Fits(h[p].children.Keys, tag) && NewNode(h, c, p.path + tag, false)
    ensures var h' := Add(h, p, tag, c);
            Except(h', root, leaves, c) && c in h' && [] !in h'[c].children
  {
    var h' := Add(h, p, tag, c);
    assert h'[p].children.Keys == h[p].children.Keys + {tag};
    forall n | n in h' && !n.isLeaf && n != root && n != c ensures Branching(h'[n].children.Keys) {}
    AddIndexed(h, leaves, p, tag, c);
    AddTree(h, root, p, tag, c);
  }

  lemma AddIndexed<T>(h: Store<T>, leaves: map<Key, Node<T>>, p: Node<T>, tag: Key, c: Node<T>)
    requires Indexed(h, leaves) && p in h && c !in h && !c.isLeaf
    ensures Indexed(Add(h, p, tag, c), leaves)
  {
  }

  lemma MadeFor<T>(h: Store<T>, c: Node<T>, path: Key, leaf: bool)
    requires c !in h && c.path == path && c.isLeaf == leaf && (leaf ==> c.value.Some? && c.value.value.0 == path)
    ensures NewNode(h, c, path, leaf)
  {
  }

  /** Replacing one label by another keeps the number of children. */
  lemma BranchingSwaps(ks: set<Key>, out: Key, into: Key)
    requires out in ks && into !in ks && out != []
    ensures Branching(ks) ==> Branching(ks - {out} + {into})
  {
    assert |ks - {out}| == |ks| - 1;
    assert |ks - {out} + {into}| == |ks|;
  }

  lemma SplitBranching<T>(h: Store<T>, root: Node<T>, n: Node<T>, count: nat, a: Node<T>, m: Node<T>)
    requires Branched(h, root) && CanSplit(h, root, n, count, a)
    requires m in h && !m.isLeaf && m != root
    ensures m in Split(h, n, count, a) && Branching(Split(h, n, count, a)[m].children.Keys)
  {
    var p, key := h[n].parent, h[n].key;
    if m == p {
      assert Up(h, root, n) && Down(h, p);
      assert key[..count] !in h[p].children by { assert key[..count][0] == key[0]; }
      BranchingSwaps(h[p].children.Keys, key, key[..count]);
      assert Split(h, n, count, a)[p].children.Keys == h[p].children.Keys - {key} + {key[..count]};
    }
  }

  /** After a split only the new node, with its single inner child, lacks branching. */
  lemma SplitExcept<T>(h: Store<T>, root: Node<T>, leaves: map<Key, Node<T>>, n: Node<T>, count: nat, a: Node<T>)
    requires Sound(h, root, leaves) && CanSplit(h, root, n, count, a)
    ensures var h' := Split(h, n, count, a);
            && Except(h', root, leaves, a) && a in h'
            && h'[a].children == map[h[n].key[count..] := n]
  {
    var h' := Split(h, n, count, a);
    SplitTree(h, root, n, count, a);
    SplitIndexed(h, leaves, n, count, a);
    forall m | m in h' && !m.isLeaf && m != root && m != a ensures Branching(h'[m].children.Keys) {
      SplitBranching(h, root, n, count, a, m);
    }
  }

  lemma SplitIndexed<T>(h: Store<T>, leaves: map<Key, Node<T>>, n: Node<T>, count: nat, a: Node<T>)
    requires Indexed(h, leaves) && a !in h && !a.isLeaf
    requires n in h && h[n].parent != null && h[n].parent in h && count <= |h[n].key|
    ensures Indexed(Split(h, n, count, a), leaves)
  {
  }

  /** Dropping a leaf: only its former parent may lack branching now. */
  lemma DropLeafExcept<T>(h: Store<T>, root: Node<T>, leaves: map<Key, Node<T>>, key: Key)
    requires Sound(h, root, leaves) && key in leaves
    ensures var c := leaves[key]; var p := h[c].parent;
            && c in h && c != root && h[c].children == map[] && h[c].key == []
            && p != null && p in h && p != c && !p.isLeaf
            && Except(Drop(h, c), root, leaves - {key}, p)
            && Drop(h, c)[p].children == h[p].children - {[]}
  {
    var c := leaves[key];
    assert Up(h, root, c) && Down(h, c);
    DropTree(h, root, c);
  }

  /** Dropping a childless inner node: its parent keeps at least one child. */
  lemma DropInnerExcept<T>(h: Store<T>, root: Node<T>, leaves: map<Key, Node<T>>, p: Node<T>)
    requires Except(h, root, leaves, p) && p in h && p != root && !p.isLeaf && h[p].children == map[]
    ensures var g := h[p].parent;
            && g != null && g in h && g != p && !g.isLeaf
            && Except(Drop(h, p), root, leaves, g)
            && Drop(h, p)[g].children == h[g].children - {h[p].key}
            && (g != root ==> |Drop(h, p)[g].children.Keys| >= 1)
  {
    var g, key := h[p].parent, h[p].key;
    assert Up(h, root, p);
    DropTree(h, root, p);
    DropInnerIndexed(h, leaves, p);
    if g != root {
      assert Branching(h[g].children.Keys);
      assert |h[g].children.Keys - {key}| == |h[g].children.Keys| - 1;
      assert (h[g].children - {key}).Keys == h[g].children.Keys - {key};
      if [] in h[g].children { assert [] in h[g].children.Keys - {key}; }
    }
  }

  lemma DropInnerIndexed<T>(h: Store<T>, leaves: map<Key, Node<T>>, p: Node<T>)
    requires Indexed(h, leaves) && p in h && !p.isLeaf
    requires h[p].parent != null && h[p].parent in h && h[p].parent != p
    ensures Indexed(Drop(h, p), leaves)
  {
  }

  /** Merging the one node that lacks branching, with a single inner child, into that child. */
  lemma MergeSound<T>(h: Store<T>, root: Node<T>, leaves: map<Key, Node<T>>, g: Node<T>, k: Key)
    requires Except(h, root, leaves, g) && CanMerge(h, root, g, k) && !h[g].children[k].isLeaf
    ensures Sound(Merge(h, g, k), root, leaves)
  {
    MergeTree(h, root, g, k);
    MergeIndexed(h, leaves, g, k);
    forall m | m in Merge(h, g, k) && !m.isLeaf && m != root ensures Branching(Merge(h, g, k)[m].children.Keys) {
      MergeBranching(h, root, leaves, g, k, m);
    }
  }

  lemma MergeIndexed<T>(h: Store<T>, leaves: map<Key, Node<T>>, g: Node<T>, k: Key)
    requires Indexed(h, leaves) && g in h && h[g].parent != null && h[g].parent in h && h[g].parent != g
    requires k in h[g].children && h[g].children[k] in h && h[g].children[k] != g && !g.isLeaf
    ensures Indexed(Merge(h, g, k), leaves)
  {
  }

  lemma MergeBranching<T>(h: Store<T>, root: Node<T>, leaves: map<Key, Node<T>>, g: Node<T>, k: Key, m: Node<T>)
    requires Except(h, root, leaves, g) && CanMerge(h, root, g, k)
    requires m in h && m != g && !m.isLeaf && m != root
    ensures m in Merge(h, g, k) && Branching(Merge(h, g, k)[m].children.Keys)
  {
    var p, key := h[g].parent, h[g].key;
    if m == p {
      assert Up(h, root, g) && Down(h, p);
      assert key + k !in h[p].children by { assert (key + k)[0] == key[0]; }
      BranchingSwaps(h[p].children.Keys, key, key + k);
      assert Merge(h, g, k)[p].children.Keys == h[p].children.Keys - {key} + {key + k};
    }
  }
}
