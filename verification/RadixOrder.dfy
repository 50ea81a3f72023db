/** Order and shape of a well-formed tree: which stored keys lie below a node, how the keys below
    siblings compare, and that the node structure is determined by the stored keys alone. */
module RadixOrder {
  import opened Keys
  import opened RadixNodes
  import opened RadixEdits

  /** The keys that are (or could be) stored below a node. */
  ghost predicate Below<T>(n: Node<T>, k: Key) {
    if n.isLeaf then k == n.path else n.path <= k
  }

  /** The keys after everything below a node. */
  ghost predicate Beyond<T>(n: Node<T>, k: Key) {
    Less(n.path, k) && !Below(n, k)
  }

  /** `l` holds the least stored key below `n`. */
  ghost predicate FirstBelow<T>(leaves: map<Key, Node<T>>, n: Node<T>, l: Node<T>) {
    && l.path in leaves && leaves[l.path] == l && Below(n, l.path)
    && forall k :: k in leaves && Below(n, k) ==> k == l.path || Less(l.path, k)
  }

  /** `l` holds the least stored key after everything below `n`; null if there is none. */
  ghost predicate FirstBeyond<T>(leaves: map<Key, Node<T>>, n: Node<T>, l: Node?<T>) {
    if l == null then forall k :: k in leaves ==> !Beyond(n, k)
    else
      && l.path in leaves && leaves[l.path] == l && Beyond(n, l.path)
      && forall k :: k in leaves && Beyond(n, k) ==> k == l.path || Less(l.path, k)
  }

  /** A stored key extending an inner node's path lies below one of its children. */
  lemma ChildToward<T>(h: Store<T>, root: Node<T>, leaves: map<Key, Node<T>>, n: Node<T>, key: Key) returns (k: Key)
    requires Tree(h, root) && Indexed(h, leaves) && n in h && !n.isLeaf && key in leaves && n.path <= key
    ensures k in h[n].children && Below(h[n].children[k], key)
  {
    k := Toward(h, root, leaves, n, key);
    assert Down(h, n);
    assert Up(h, root, h[n].children[k]);
    assert n.path + [] == n.path;
  }

  /** Keys below siblings compare like the siblings' labels. */
  lemma SiblingOrder<T>(h: Store<T>, root: Node<T>, n: Node<T>, x: Key, y: Key, a: Key, b: Key)
    requires Tree(h, root) && n in h && !n.isLeaf && x in h[n].children && y in h[n].children && Less(x, y)
    requires Below(h[n].children[x], a) && Below(h[n].children[y], b)
    ensures Less(a, b) && !Below(h[n].children[x], b)
  {
    assert Down(h, n);
    assert Up(h, root, h[n].children[x]) && Up(h, root, h[n].children[y]);
    Trichotomy(x, x);
    assert x == [] || x[0] < y[0];
    assert n.path + [] == n.path;
    LessFork(n.path, x, y, a, b);
    Trichotomy(a, b);
    if x != [] && Below(h[n].children[x], b) {
      FirstSymbol(n.path, x, y, b);
    }
  }

  /** The first child leads to the first key. */
  lemma DescendStep<T>(h: Store<T>, root: Node<T>, leaves: map<Key, Node<T>>, n: Node<T>, first: Key, l: Node<T>)
    requires Tree(h, root) && Indexed(h, leaves) && n in h && !n.isLeaf && first in h[n].children
    requires forall k :: k in h[n].children ==> k == first || Less(first, k)
    requires FirstBelow(leaves, h[n].children[first], l)
    ensures FirstBelow(leaves, n, l)
  {
    assert Down(h, n);
    assert Up(h, root, h[n].children[first]);
    forall k | k in leaves && Below(n, k) ensures k == l.path || Less(l.path, k) {
      var c := ChildToward(h, root, leaves, n, k);
      if c != first { SiblingOrder(h, root, n, first, c, l.path, k); }
    }
  }

  /** Where a stored key after everything below `n` lies, seen from the parent. */
  lemma BeyondFromParent<T>(h: Store<T>, root: Node<T>, leaves: map<Key, Node<T>>, n: Node<T>, k: Key) returns (c: Key)
    requires Tree(h, root) && Indexed(h, leaves) && n in h && n != root && h[n].parent != null && h[n].parent in h
    requires k in leaves && Beyond(n, k) && h[n].parent.path <= k
    ensures var p := h[n].parent;
            c in h[p].children && Less(h[n].key, c) && Below(h[p].children[c], k)
  {
    var p := h[n].parent;
    assert Up(h, root, n);
    c := ChildToward(h, root, leaves, p, k);
    assert Below(n, n.path);
    Trichotomy(c, h[n].key);
    if Less(c, h[n].key) {
      SiblingOrder(h, root, p, c, h[n].key, k, n.path);
      Trichotomy(k, n.path);
    }
  }

  /** After the last child comes whatever comes after the parent. */
  lemma LastChild<T>(h: Store<T>, root: Node<T>, leaves: map<Key, Node<T>>, n: Node<T>, l: Node?<T>)
    requires Tree(h, root) && Indexed(h, leaves) && n in h && n != root && h[n].parent != null && h[n].parent in h
    requires forall c :: c in h[h[n].parent].children ==> !Less(h[n].key, c)
    requires FirstBeyond(leaves, h[n].parent, l)
    ensures FirstBeyond(leaves, n, l)
  {
    var p := h[n].parent;
    assert Up(h, root, n);
    forall k | k in leaves ensures Beyond(n, k) <==> Beyond(p, k) {
      if p.path <= k {
        if Beyond(n, k) { var c := BeyondFromParent(h, root, leaves, n, k); }
      } else {
        LessBlock(p.path, n.path, p.path, k);
      }
    }
  }

  /** Otherwise the next sibling's first key is next. */
  lemma NextChild<T>(h: Store<T>, root: Node<T>, leaves: map<Key, Node<T>>, n: Node<T>, next: Key, l: Node<T>)
    requires Tree(h, root) && Indexed(h, leaves) && n in h && n != root && h[n].parent != null && h[n].parent in h
    requires next in h[h[n].parent].children && Less(h[n].key, next)
    requires forall c :: c in h[h[n].parent].children && Less(h[n].key, c) ==> c == next || Less(next, c)
    requires FirstBelow(leaves, h[h[n].parent].children[next], l)
    ensures FirstBeyond(leaves, n, l)
  {
    var p := h[n].parent;
    assert Up(h, root, n);
    assert Below(n, n.path);
    SiblingOrder(h, root, p, h[n].key, next, n.path, l.path);
    forall k | k in leaves && Beyond(n, k) ensures k == l.path || Less(l.path, k) {
      if p.path <= k {
        var c := BeyondFromParent(h, root, leaves, n, k);
        if c != next { SiblingOrder(h, root, p, next, c, l.path, k); }
      } else {
        assert Down(h, p);
        assert Up(h, root, h[p].children[next]);
        LessBlock(p.path, n.path, l.path, k);
      }
    }
  }

  // ----- the shape is determined by the keys -----

  /** The nodes at least as deep as `n`: what bounds a descent. */
  ghost function Deep<T>(h: Store<T>, n: Node<T>): set<Node<T>> {
    set m | m in h && |m.path| >= |n.path|
  }

  lemma DeepShrinks<T>(h: Store<T>, n: Node<T>, c: Node<T>)
    requires n in h && |n.path| < |c.path|
    ensures |Deep(h, c)| < |Deep(h, n)|
  {
    SubsetSize(Deep(h, c), Deep(h, n) - {n});
  }

  lemma {:induction false} SubsetSize<T>(a: set<T>, b: set<T>)
    requires a <= b
    ensures |a| <= |b|
  {
    if a != {} {
      var x :| x in a;
      SubsetSize(a - {x}, b - {x});
    }
  }

  /** Below every inner node with children some key is stored. */
  lemma {:induction false} HasKey<T>(h: Store<T>, root: Node<T>, leaves: map<Key, Node<T>>, n: Node<T>,
                                     k: Key) returns (key: Key)
    requires Sound(h, root, leaves) && n in h && !n.isLeaf && k in h[n].children
    ensures key in leaves && (if k == [] then key == n.path else n.path + k <= key)
    decreases |Deep(h, n)|
  {
    assert Down(h, n);
    var c := h[n].children[k];
    assert Up(h, root, c);
    if k == [] {
      key := c.path;
      assert n.path + [] == n.path;
    } else {
      assert h[c].children != map[] by { assert Branching(h[c].children.Keys); }
      var j :| j in h[c].children;
      DeepShrinks(h, n, c);
      key := HasKey(h, root, leaves, c, j);
    }
  }

  /** Two stored keys part right after `p`. */
  ghost predicate Parts(keys: set<Key>, p: Key) {
    exists a, b :: a in keys && b in keys && p < a && p < b && a[|p|] != b[|p|]
  }

  /** The paths at which a tree for these keys has an inner node. */
  ghost predicate InnerPath(keys: set<Key>, p: Key) {
    p == [] || p in keys || Parts(keys, p)
  }

  /** The labels of the edges below such a path. */
  ghost predicate EdgeLabel(keys: set<Key>, p: Key, k: Key) {
    if k == [] then p in keys
    else InnerPath(keys, p + k) && forall q :: p < q < p + k ==> !InnerPath(keys, q)
  }

  lemma InnerNodeHasPath<T>(h: Store<T>, root: Node<T>, leaves: map<Key, Node<T>>, n: Node<T>)
    requires Sound(h, root, leaves) && n in h && !n.isLeaf
    ensures InnerPath(leaves.Keys, n.path)
  {
    assert Up(h, root, n) && Down(h, n);
    if n != root && [] !in h[n].children {
      var ks := h[n].children.Keys;
      assert Branching(ks);
      var x :| x in ks;
      var y :| y in ks - {x} by { assert |ks - {x}| >= 1; }
      var a := HasKey(h, root, leaves, n, x);
      var b := HasKey(h, root, leaves, n, y);
      assert a[|n.path|] == (n.path + x)[|n.path|] == x[0];
      assert b[|n.path|] == (n.path + y)[|n.path|] == y[0];
    } else if n != root {
      var a := HasKey(h, root, leaves, n, []);
    }
  }

  /** Descending along a stored key reaches the deepest inner node that is a prefix of `p`. */
  lemma {:induction false} Deepest<T>(h: Store<T>, root: Node<T>, leaves: map<Key, Node<T>>, n: Node<T>,
                                      p: Key) returns (d: Node<T>)
    requires Sound(h, root, leaves) && n in h && !n.isLeaf && n.path <= p
    ensures d in h && !d.isLeaf && d.path <= p
    ensures forall k :: k in h[d].children && k != [] ==> !(d.path + k <= p)
    decreases |p| - |n.path|
  {
    if k :| k in h[n].children && k != [] && n.path + k <= p {
      assert Down(h, n);
      assert Up(h, root, h[n].children[k]);
      d := Deepest(h, root, leaves, h[n].children[k], p);
    } else {
      d := n;
    }
  }

  lemma PathHasInnerNode<T>(h: Store<T>, root: Node<T>, leaves: map<Key, Node<T>>, p: Key) returns (n: Node<T>)
    requires Sound(h, root, leaves) && InnerPath(leaves.Keys, p)
    ensures n in h && !n.isLeaf && n.path == p
  {
    assert Up(h, root, root);
    if p == [] {
      n := root;
    } else if p in leaves {
      assert Up(h, root, leaves[p]);
      n := h[leaves[p]].parent;
      assert n.path + [] == n.path;
    } else {
      n := Deepest(h, root, leaves, root, p);
      var a, b :| a in leaves && b in leaves && p < a && p < b && a[|p|] != b[|p|];
      if n.path != p {
        PartsBelow(h, root, leaves, n, p, a, b);
      }
    }
  }

  /** If the deepest node stopped short of `p`, both keys would run along the same edge past `p`. */
  lemma PartsBelow<T>(h: Store<T>, root: Node<T>, leaves: map<Key, Node<T>>, n: Node<T>, p: Key, a: Key, b: Key)
    requires Sound(h, root, leaves) && n in h && !n.isLeaf && n.path < p
    requires forall k :: k in h[n].children && k != [] ==> !(n.path + k <= p)
    requires a in leaves && b in leaves && p < a && p < b
    ensures a[|p|] == b[|p|]
  {
    var x := Toward(h, root, leaves, n, a);
    var y := Toward(h, root, leaves, n, b);
    assert Down(h, n);
    assert a[|n.path|] == p[|n.path|] == b[|n.path|];
    assert (n.path + x)[|n.path|] == x[0] && (n.path + y)[|n.path|] == y[0];
    assert x == y;
    assert |n.path + x| > |p|;
    assert a[|p|] == (n.path + x)[|p|] == b[|p|];
  }

  /** Canonical form: an inner node's child labels depend on the stored keys and its path only. */
  lemma CanonicalEdges<T>(h: Store<T>, root: Node<T>, leaves: map<Key, Node<T>>, n: Node<T>, k: Key)
    requires Sound(h, root, leaves) && n in h && !n.isLeaf
    ensures k in h[n].children <==> EdgeLabel(leaves.Keys, n.path, k)
  {
    assert Up(h, root, n) && Down(h, n);
    if k == [] {
      if k in h[n].children { var a := HasKey(h, root, leaves, n, []); }
      if n.path in leaves { var c := Toward(h, root, leaves, n, n.path); }
    } else {
      if k in h[n].children { EdgeForward(h, root, leaves, n, k); }
      if EdgeLabel(leaves.Keys, n.path, k) { EdgeBack(h, root, leaves, n, k); }
    }
  }

  lemma EdgeForward<T>(h: Store<T>, root: Node<T>, leaves: map<Key, Node<T>>, n: Node<T>, k: Key)
    requires Sound(h, root, leaves) && n in h && !n.isLeaf && k != [] && k in h[n].children
    ensures EdgeLabel(leaves.Keys, n.path, k)
  {
    assert Down(h, n);
    var c := h[n].children[k];
    assert Up(h, root, c);
    InnerNodeHasPath(h, root, leaves, c);
    forall q | n.path < q < n.path + k ensures !InnerPath(leaves.Keys, q) {
      if InnerPath(leaves.Keys, q) {
        var m := PathHasInnerNode(h, root, leaves, q);
        StepDown(h, root, n, m);
        var j :| j in h[n].children && j != [] && n.path + j <= q;
        FirstSymbol(n.path, j, k, n.path + k);
      }
    }
  }

  lemma EdgeBack<T>(h: Store<T>, root: Node<T>, leaves: map<Key, Node<T>>, n: Node<T>, k: Key)
    requires Sound(h, root, leaves) && n in h && !n.isLeaf && k != [] && EdgeLabel(leaves.Keys, n.path, k)
    ensures k in h[n].children
  {
    var m := PathHasInnerNode(h, root, leaves, n.path + k);
    StepDown(h, root, n, m);
    var j :| j in h[n].children && j != [] && n.path + j <= n.path + k;
    assert Down(h, n);
    var c := h[n].children[j];
    assert Up(h, root, c);
    InnerNodeHasPath(h, root, leaves, c);
    assert !(n.path < c.path < n.path + k);
    assert n.path + j == n.path + k;
    assert j == (n.path + j)[|n.path|..] == (n.path + k)[|n.path|..] == k;
  }

  /** Any two trees that store the same keys have the same shape, whatever their histories:
      corresponding inner nodes with the same paths and the same edge labels. */
  lemma SameKeysSameShape<T>(h: Store<T>, root: Node<T>, leaves: map<Key, Node<T>>,
                             h': Store<T>, root': Node<T>, leaves': map<Key, Node<T>>, n: Node<T>) returns (n': Node<T>)
    requires Sound(h, root, leaves) && Sound(h', root', leaves') && leaves.Keys == leaves'.Keys
    requires n in h && !n.isLeaf
    ensures n' in h' && !n'.isLeaf && n'.path == n.path && h'[n'].children.Keys == h[n].children.Keys
  {
    InnerNodeHasPath(h, root, leaves, n);
    n' := PathHasInnerNode(h', root', leaves', n.path);
    forall k ensures k in h[n].children <==> k in h'[n'].children {
      CanonicalEdges(h, root, leaves, n, k);
      CanonicalEdges(h', root', leaves', n', k);
    }
  }

  /** The inner nodes as (path, edge labels). */
  ghost function Shape<T>(h: Store<T>): set<(Key, set<Key>)> {
    set n | n in h && !n.isLeaf :: (n.path, h[n].children.Keys)
  }

  lemma CanonicalShape<T>(h: Store<T>, root: Node<T>, leaves: map<Key, Node<T>>,
                          h': Store<T>, root': Node<T>, leaves': map<Key, Node<T>>)
    requires Sound(h, root, leaves) && Sound(h', root', leaves') && leaves.Keys == leaves'.Keys
    ensures Shape(h) == Shape(h')
  {
    forall n | n in h && !n.isLeaf ensures (n.path, h[n].children.Keys) in Shape(h') {
      var n' := SameKeysSameShape(h, root, leaves, h', root', leaves', n);
    }
    forall n | n in h' && !n.isLeaf ensures (n.path, h'[n].children.Keys) in Shape(h) {
      var n' := SameKeysSameShape(h', root', leaves', h, root, leaves, n);
    }
  }

  // ----- collecting the leaves below a node -----

  /** `vec` lists the leaves of exactly the stored keys below `n`, in increasing order. */
  ghost predicate AllBelow<T>(leaves: map<Key, Node<T>>, n: Node<T>, vec: seq<Node<T>>) {
    && (forall i :: 0 <= i < |vec| ==> vec[i].path in leaves && leaves[vec[i].path] == vec[i] && Below(n, vec[i].path))
    && (forall i, j :: 0 <= i < j < |vec| ==> Less(vec[i].path, vec[j].path))
    && (forall k :: k in leaves && Below(n, k) ==> leaves[k] in vec)
  }

  /** The same for the children of `n` whose labels are in `done`. */
  ghost predicate Gathered<T>(h: Store<T>, leaves: map<Key, Node<T>>, n: Node<T>, done: set<Key>, vec: seq<Node<T>>)
    requires n in h && done <= h[n].children.Keys
  {
    && (forall i :: 0 <= i < |vec| ==> vec[i].path in leaves && leaves[vec[i].path] == vec[i])
    && (forall i :: 0 <= i < |vec| ==> exists d :: d in done && Below(h[n].children[d], vec[i].path))
    && (forall i, j :: 0 <= i < j < |vec| ==> Less(vec[i].path, vec[j].path))
    && (forall d, k :: d in done && k in leaves && Below(h[n].children[d], k) ==> leaves[k] in vec)
  }

  lemma GatherStep<T>(h: Store<T>, root: Node<T>, leaves: map<Key, Node<T>>, n: Node<T>, done: set<Key>,
                      vec: seq<Node<T>>,
                      key: Key, part: seq<Node<T>>)
    requires Tree(h, root) && Indexed(h, leaves) && n in h && !n.isLeaf && done <= h[n].children.Keys
    requires Gathered(h, leaves, n, done, vec) && key in h[n].children && AllBelow(leaves, h[n].children[key], part)
    requires forall d :: d in done ==> Less(d, key)
    ensures Gathered(h, leaves, n, done + {key}, vec + part)
  {
    var all := vec + part;
    forall i, j | 0 <= i < j < |all| ensures Less(all[i].path, all[j].path) {
      if i < |vec| <= j {
        var d :| d in done && Below(h[n].children[d], vec[i].path);
        SiblingOrder(h, root, n, d, key, vec[i].path, part[j - |vec|].path);
      }
    }
    forall i | 0 <= i < |all| ensures exists d :: d in done + {key} && Below(h[n].children[d], all[i].path) {
      if i < |vec| {
        var d :| d in done && Below(h[n].children[d], vec[i].path);
        assert d in done + {key};
      } else {
        assert key in done + {key} && Below(h[n].children[key], all[i].path);
      }
    }
  }

  lemma GatherAll<T>(h: Store<T>, root: Node<T>, leaves: map<Key, Node<T>>, n: Node<T>, vec: seq<Node<T>>)
    requires Tree(h, root) && Indexed(h, leaves) && n in h && !n.isLeaf
    requires Gathered(h, leaves, n, h[n].children.Keys, vec)
    ensures AllBelow(leaves, n, vec)
  {
    assert Down(h, n);
    forall i | 0 <= i < |vec| ensures Below(n, vec[i].path) {
      var d :| d in h[n].children.Keys && Below(h[n].children[d], vec[i].path);
      assert Up(h, root, h[n].children[d]);
    }
    forall k | k in leaves && Below(n, k) ensures leaves[k] in vec {
      var d := ChildToward(h, root, leaves, n, k);
      assert d in h[n].children.Keys;
    }
  }

  /** Below the node where the search for `key` stopped, moved up from a leaf, lie exactly the stored
      keys extending `key` if the node's path extends it too, and otherwise none. */
  lemma PrefixPlace<T>(h: Store<T>, root: Node<T>, leaves: map<Key, Node<T>>, key: Key, r: Node<T>)
    requires Tree(h, root) && Indexed(h, leaves) && Located(h, root, key, r) && !r.isLeaf
    ensures key <= r.path ==> forall k :: k in leaves ==> (key <= k <==> r.path <= k)
    ensures !(key <= r.path) ==> forall k :: k in leaves ==> !(key <= k)
  {
    assert Up(h, root, r);
    forall k | k in leaves && key <= k ensures key <= r.path && r.path <= k {
      if r.path <= key {
        var c := Toward(h, root, leaves, r, k);
        assert c != [] ==> (r.path + c)[|r.path|] == c[0];
      } else {
        var p := h[r].parent;
        assert Down(h, p);
        var c := Toward(h, root, leaves, p, k);
        FirstSymbol(p.path, c, [key[|p.path|]], k);
        PrefixChain(r.path, key, k);
      }
    }
  }
}
