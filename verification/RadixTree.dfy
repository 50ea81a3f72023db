/** The radix tree class: lookups, insertion and removal over the linked nodes, each proved to
    act on the finite map from keys to values that the tree stands for. */
module RadixTree {
  import opened Options
  import opened Keys
  import opened RadixNodes
  import opened RadixEdits
  import opened RadixOrder

  /** `radix_substr`: at most `num` symbols from `begin` on. */
  function Substr(key: Key, begin: nat, num: nat): (r: Key)
    requires begin <= |key|
    ensures r <= key[begin..] && |r| == if begin + num <= |key| then num else |key| - begin
  {
    if begin + num <= |key| then key[begin..begin + num] else key[begin..]
  }

  /** Comparing a label with the next symbols of a key decides whether the key runs along it. */
  lemma SubstrPrefix(p: Key, k: Key, key: Key)
    requires p <= key
    ensures Substr(key, |p|, |k|) == k <==> p + k <= key
  {
    if p + k <= key { assert key[|p|..|p| + |k|] == k; }
    if Substr(key, |p|, |k|) == k { assert key[..|p| + |k|] == p + k; }
  }

  /** What a child is to its parent. */
  lemma ChildFacts<T>(h: Store<T>, root: Node<T>, n: Node<T>, k: Key)
    requires Tree(h, root) && n in h && !n.isLeaf && k in h[n].children
    ensures var c := h[n].children[k];
            && c in h && c != root && c.path == n.path + k && (c.isLeaf <==> k == [])
            && h[c].parent == n && h[c].key == k && h[c].depth == |n.path|
  {
    assert Down(h, n);
    assert Up(h, root, h[n].children[k]);
  }

  /** At an inner node where the search stopped, the label test tells the two cases apart. */
  lemma LocatedEdge<T>(h: Store<T>, root: Node<T>, key: Key, r: Node<T>)
    requires Tree(h, root) && Located(h, root, key, r) && !r.isLeaf
    ensures 0 <= h[r].depth <= |key|
    ensures Substr(key, h[r].depth, |h[r].key|) == h[r].key <==> r.path <= key
    ensures !(r.path <= key) ==> h[r].parent != null && h[r].parent in h && !h[r].parent.isLeaf
  {
    assert Up(h, root, r);
    if r == root {
      assert Substr(key, 0, 0) == [];
    } else {
      SubstrPrefix(h[r].parent.path, h[r].key, key);
    }
  }

  /** The current field values of a set of nodes. */
  ghost function Fields<T>(nodes: set<Node<T>>): (h: Store<T>)
    reads nodes
    ensures h.Keys == nodes
  {
    map n | n in nodes :: Rec(n.children, n.parent, n.depth, n.key)
  }

  lemma FieldsAre<T>(nodes: set<Node<T>>)
    ensures forall n :: n in nodes ==> Fields(nodes)[n] == Rec(n.children, n.parent, n.depth, n.key)
  {
  }

  /** The entries of a snapshot with an edge split, one by one. */
  lemma SplitIs<T>(h: Store<T>, n: Node<T>, count: nat, a: Node<T>)
    requires n in h && h[n].parent != null && h[n].parent in h && count <= |h[n].key| && h[n].parent != n && a !in h
    ensures var p, key, h' := h[n].parent, h[n].key, Split(h, n, count, a);
            && h'.Keys == h.Keys + {a}
            && h'[p] == Rec((h[p].children - {key})[key[..count] := a], h[p].parent, h[p].depth, h[p].key)
            && h'[a] == Rec(map[key[count..] := n], p, |p.path|, key[..count])
            && h'[n] == Rec(h[n].children, a, h[n].depth + count, key[count..])
            && forall m :: m in h && m != n && m != p ==> h'[m] == h[m]
  {
  }

  lemma SameFields<T>(nodes: set<Node<T>>, h: Store<T>)
    requires h.Keys == nodes
    requires forall n :: n in nodes ==> h[n] == Rec(n.children, n.parent, n.depth, n.key)
    ensures Fields(nodes) == h
  {
  }

  /** The finite map a tree with these leaves stands for. */
  ghost function Contents<T>(leaves: map<Key, Node<T>>): map<Key, T> {
    map k | k in leaves && leaves[k].value.Some? :: leaves[k].value.value.1
  }

  lemma InsertContents<T>(leaves: map<Key, Node<T>>, key: Key, leaf: Node<T>, v: T)
    requires leaf.value == Some((key, v))
    ensures Contents(leaves[key := leaf]) == Contents(leaves)[key := v]
  {
  }

  lemma EraseContents<T>(leaves: map<Key, Node<T>>, key: Key)
    ensures Contents(leaves - {key}) == Contents(leaves) - {key}
    ensures key !in leaves ==> leaves - {key} == leaves
  {
  }

  class RadixTree<T> {
    var size: nat
    var root: Node?<T>
    ghost var nodes: set<Node<T>>
    ghost var leaves: map<Key, Node<T>>   // the leaf of every stored key

    ghost predicate Valid()
      reads this, nodes
    {
      && (if root == null then nodes == {} && leaves == map[] else Sound(Fields(nodes), root, leaves))
      && size == |leaves|
    }

    constructor ()
      ensures Valid() && fresh(nodes) && leaves == map[]
    {
      size, root := 0, null;
      nodes, leaves := {}, map[];
    }

    /** The stored keys are the domain of the map. */
    lemma SameKeys()
      requires Valid()
      ensures Contents(leaves).Keys == leaves.Keys
    {
    }

    // ----- lookup -----

    /** The loop of `find_node` over the children, in any order: the leaf if the key ends at this
        node, otherwise the inner child whose label starts with the key's next symbol. */
    method Choose(key: Key, node: Node<T>, depth: nat) returns (child: Node?<T>)
      requires Valid() && root != null && node in nodes && !node.isLeaf && depth == |node.path| <= |key|
      ensures child != null ==>
                exists k :: k in node.children && node.children[k] == child &&
                            if depth == |key| then k == [] else k != [] && k[0] == key[depth]
      ensures child == null ==>
                if depth == |key| then [] !in node.children
                else forall k :: k in node.children && k != [] ==> k[0] != key[depth]
    {
      ghost var h := Fields(nodes);
      assert Down(h, node);
      var rest := node.children.Keys;
      while rest != {}
        invariant rest <= node.children.Keys
        invariant if depth == |key| then [] !in node.children.Keys - rest
                  else forall k :: k in node.children.Keys - rest && k != [] ==> k[0] != key[depth]
      {
        var first :| first in rest;
        child := node.children[first];
        assert Up(h, root, child);
        if depth == |key| {
          if child.isLeaf {
            return;
          }
        } else if !child.isLeaf && key[depth] == first[0] {
          return;
        }
        rest := rest - {first};
      }
      child := null;
    }

    method FindNode(key: Key, node: Node<T>, depth: nat) returns (r: Node<T>)
      requires Valid() && root != null && node in nodes && !node.isLeaf
      requires depth == |node.path| && node.path <= key
      ensures Located(Fields(nodes), root, key, r)
      decreases |key| - depth
    {
      var child := Choose(key, node, depth);
      if child == null {
        return node;
      }
      ghost var k :| k in node.children && node.children[k] == child &&
                     if depth == |key| then k == [] else k != [] && k[0] == key[depth];
      ChildFacts(Fields(nodes), root, node, k);
      if child.isLeaf {
        return child;
      }
      var len := |child.key|;
      SubstrPrefix(node.path, child.key, key);
      if Substr(key, depth, len) == child.key {
        r := FindNode(key, child, depth + len);
      } else {
        r := child;
      }
    }

    method Find(key: Key) returns (r: Node?<T>)
      requires Valid()
      ensures key in leaves <==> key in Contents(leaves)
      ensures if key in leaves then r == leaves[key] && r.value == Some((key, Contents(leaves)[key])) else r == null
    {
      if root == null {
        return null;
      }
      assert Up(Fields(nodes), root, root);
      var n := FindNode(key, root, 0);
      LocatedIff(Fields(nodes), root, leaves, key, n);
      if !n.isLeaf {
        return null;
      }
      assert Down(Fields(nodes), n);
      r := n;
    }

    /** `r` is the leaf of the longest stored prefix of the key, or null if there is none. */
    ghost predicate Longest(key: Key, r: Node?<T>)
      reads this
    {
      if r == null then forall k :: k in leaves ==> !(k <= key)
      else r.path in leaves && leaves[r.path] == r && Covers(leaves, r, key)
    }

    /** The walk up the parent links to the nearest node with a leaf. */
    method Climb(start: Node<T>, key: Key) returns (r: Node?<T>)
      requires Valid() && root != null && start in nodes && !start.isLeaf && Covers(leaves, start, key)
      ensures Longest(key, r)
    {
      ghost var h := Fields(nodes);
      var node: Node?<T> := start;
      while node != null
        invariant node != null ==> node in nodes && !node.isLeaf && Covers(leaves, node, key)
        invariant node == null ==> Longest(key, null)
        decreases if node == null then 0 else 1 + |node.path|
      {
        assert Up(h, root, node) && Down(h, node);
        if [] in node.children {
          assert Up(h, root, node.children[[]]);
          if node.children[[]].isLeaf {
            return node.children[[]];
          }
        }
        ParentCovers(h, root, leaves, node, key);
        node := node.parent;
      }
      r := null;
    }

    /** The longest stored key that is a prefix of `key`, or null if there is none. */
    method LongestMatch(key: Key) returns (r: Node?<T>)
      requires Valid()
      ensures Longest(key, r)
      ensures r != null ==> r.value.Some? && r.path in Contents(leaves) && r.value.value.1 == Contents(leaves)[r.path]
    {
      if root == null {
        return null;
      }
      ghost var h := Fields(nodes);
      assert Up(h, root, root);
      var node := FindNode(key, root, 0);
      if node.isLeaf {
        LocatedIff(h, root, leaves, key, node);
        assert Down(h, node);
        return node;
      }
      LocatedEdge(h, root, key, node);
      LocatedCovers(h, root, leaves, key, node);
      if Substr(key, node.depth, |node.key|) != node.key {
        node := node.parent;
      }
      r := Climb(node, key);
      if r != null { assert Down(h, r); }
    }

    // ----- insertion -----

    /** Links a new node below `p`; only the child map of `p` changes. */
    method Link(p: Node<T>, c: Node<T>)
      requires p in nodes && c !in nodes && c.children == map[]
      requires c.parent == p && c.depth == |p.path|
      modifies this`nodes, p`children
      ensures nodes == old(nodes) + {c}
      ensures Fields(nodes) == Add(old(Fields(nodes)), p, c.key, c)
    {
      p.children := p.children[c.key := c];
      nodes := nodes + {c};
    }

    /** Everything but the branching of node `x`, which is about to get another child. */
    ghost predicate Growing(x: Node<T>)
      reads this, nodes
    {
      && root != null && size == |leaves| && x in nodes && !x.isLeaf
      && Except(Fields(nodes), root, leaves, x)
    }

    lemma IsValid()
      requires root != null && Sound(Fields(nodes), root, leaves) && size == |leaves|
      ensures Valid()
    {
    }

    lemma IsGrowing(p: Node<T>)
      requires root != null && size == |leaves| && p in nodes && !p.isLeaf
      requires Except(Fields(nodes), root, leaves, p)
      ensures Growing(p) && Fields(nodes)[p].children == p.children
    {
    }

    lemma GrowingFacts(p: Node<T>)
      requires Growing(p)
      ensures root != null && size == |leaves| && p in nodes && !p.isLeaf
      ensures Except(Fields(nodes), root, leaves, p) && Fields(nodes)[p] == Rec(p.children, p.parent, p.depth, p.key)
    {
    }

    /** A new leaf directly below `p`. */
    method AddLeaf(p: Node<T>, key: Key, v: T, depth: int) returns (leaf: Node<T>)
      requires Growing(p) && [] !in p.children && p.path == key && key !in leaves && depth == |p.path|
      modifies this, p`children
      ensures Valid() && nodes == old(nodes) + {leaf} && fresh(leaf) && root == old(root)
      ensures leaves == old(leaves)[key := leaf] && leaf.value == Some((key, v))
    {
      hide *;
      GrowingFacts(p);
      ghost var h0 := Fields(nodes);
      leaf := new Node(true, Some((key, v)), p, [], depth, key);
      MadeFor(h0, leaf, key, true);
      Link(p, leaf);
      AddLeafSound(h0, root, leaves, p, leaf);
      leaves := leaves[key := leaf];
      size := size + 1;
      assert leaves.Keys == old(leaves).Keys + {key};
      IsValid();
    }

    /** A new edge below `p` that ends in a new leaf. */
    method AddEdge(p: Node<T>, tag: Key, key: Key, v: T, depth: int) returns (leaf: Node<T>)
      requires Growing(p) && tag != [] && Fits(p.children.Keys, tag) && p.path + tag == key && key !in leaves
      requires depth == |p.path| && (p != root ==> Branching(p.children.Keys + {tag}))
      modifies this, p`children
      ensures Valid() && nodes >= old(nodes) && fresh(nodes - old(nodes)) && root == old(root)
      ensures leaves == old(leaves)[key := leaf] && leaf.value == Some((key, v))
    {
      hide *;
      GrowingFacts(p);
      ghost var h0 := Fields(nodes);
      var c := new Node(false, Some((key, v)), p, tag, depth, key);
      MadeFor(h0, c, key, false);
      Link(p, c);
      AddInnerExcept(h0, root, leaves, p, tag, c);
      IsGrowing(c);
      leaf := AddLeaf(c, key, v, depth + |tag|);
    }

    lemma ValidGrows(p: Node<T>)
      requires Valid() && root != null && p in nodes && !p.isLeaf
      ensures Growing(p)
    {
    }

    lemma AppendFacts(p: Node<T>, key: Key)
      requires Valid() && root != null && p in nodes && !p.isLeaf
      requires Located(Fields(nodes), root, key, p) && p.path <= key && key !in leaves
      ensures p.path == key ==> [] !in p.children
      ensures p.path < key ==>
                var tag := key[|p.path|..];
                Fits(p.children.Keys, tag) && (p != root ==> Branching(p.children.Keys + {tag}))
    {
      assert Up(Fields(nodes), root, p);
      if p.path < key {
        var tag := key[|p.path|..];
        assert tag[0] == key[|p.path|];
        BranchingGrows(p.children.Keys, tag);
      }
    }

    /** A new leaf, or a new edge ending in a leaf, below the last node on the key's path. */
    method Append(p: Node<T>, key: Key, v: T) returns (leaf: Node<T>)
      requires Valid() && root != null && p in nodes && !p.isLeaf
      requires Located(Fields(nodes), root, key, p) && p.path <= key && key !in leaves
      modifies this, p`children
      ensures Valid() && nodes >= old(nodes) && fresh(nodes - old(nodes)) && root == old(root)
      ensures leaves == old(leaves)[key := leaf] && leaf.value == Some((key, v))
    {
      hide *;
      ValidGrows(p);
      ForkDepth(p);
      AppendFacts(p, key);
      var depth := p.depth + |p.key|;
      var len := |key| - depth;
      if len == 0 {
        assert p.path == key;
        leaf := AddLeaf(p, key, v, depth);
      } else {
        SubstrRest(p.path, key);
        var tag := Substr(key, depth, len);
        leaf := AddEdge(p, tag, key, v, depth);
      }
    }

    /** The pointer updates of an edge split. */
    method SplitEdge(node: Node<T>, count: nat) returns (a: Node<T>)
      requires node in nodes && node.parent != null && node.parent in nodes && node != node.parent
      requires count <= |node.key| && node.depth == |node.parent.path|
      modifies this`nodes, node`parent, node`depth, node`key, node.parent`children
      ensures fresh(a) && !a.isLeaf && a.path == old(node.parent).path + old(node.key)[..count]
      ensures nodes == old(nodes) + {a}
      ensures Fields(nodes) == Split(old(Fields(nodes)), node, count, a)
    {
      hide *;
      ghost var h0 := Fields(nodes);
      FieldsAre(nodes);
      var parent, whole := node.parent, node.key;
      a := new Node(false, None, parent, whole[..count], node.depth, parent.path + whole[..count]);
      SplitIs(h0, node, count, a);
      parent.children := (parent.children - {whole})[a.key := a];
      node.depth := node.depth + count;
      node.parent := a;
      node.key := whole[count..];
      a.children := map[node.key := node];
      nodes := nodes + {a};
      SameFields(nodes, Split(h0, node, count, a));
    }

    /** Where the label of a node and the rest of the key part. */
    method Common(tag: Key, key: Key, depth: nat) returns (count: nat)
      requires depth <= |key|
      ensures count <= |tag| && depth + count <= |key| && tag[..count] == key[depth..depth + count]
      ensures count < |tag| && depth + count < |key| ==> tag[count] != key[depth + count]
    {
      var len1, len2 := |tag|, |key| - depth;
      count := 0;
      while count < len1 && count < len2 && tag[count] == key[count + depth]
        invariant count <= len1 && count <= len2 && tag[..count] == key[depth..depth + count]
      {
        count := count + 1;
      }
    }

    /** What the search guarantees about a node whose label diverges from the key. */
    lemma DivergeFacts(key: Key, n: Node<T>)
      requires Valid() && root != null && Located(Fields(nodes), root, key, n) && !n.isLeaf && !(n.path <= key)
      ensures n in nodes && n != root && n.parent != null && n.parent in nodes && n != n.parent && !n.parent.isLeaf
      ensures 0 <= n.depth == |n.parent.path| < |key| && n.parent.path < key && n.path == n.parent.path + n.key
      ensures n.key != [] && n.key[0] == key[n.depth]
      ensures Sound(Fields(nodes), root, leaves) && Tree(Fields(nodes), root) && size == |leaves|
      ensures Fields(nodes)[n] == Rec(n.children, n.parent, n.depth, n.key)
    {
      assert Up(Fields(nodes), root, n);
    }

    lemma CanSplitHere(n: Node<T>, count: nat, h: Store<T>, a: Node<T>)
      requires root != null && Tree(h, root) && n in h && n != root && !n.isLeaf
      requires h[n].parent != null && h[n].parent in h && 0 < count < |h[n].key|
      requires a !in h && !a.isLeaf && a.path == h[n].parent.path + h[n].key[..count]
      ensures CanSplit(h, root, n, count, a)
    {
    }

    /** The rest of the key fits below the new node beside the rest of the old label. */
    lemma RestFits(rest: Key, tag: Key)
      requires rest != [] && tag != [] && rest[0] != tag[0]
      ensures Fits({rest}, tag) && Branching({rest} + {tag})
    {
      assert rest != tag;
      assert |{rest} + {tag}| == 2;
    }

    /** A node is put into the edge at the point where the key leaves it. */
    method Fork(node: Node<T>, key: Key) returns (a: Node<T>, ghost rest: Key)
      requires Valid() && root != null
      requires Located(Fields(nodes), root, key, node) && !node.isLeaf && !(node.path <= key)
      modifies this`nodes, nodes
      ensures Growing(a) && nodes == old(nodes) + {a} && fresh(a) && leaves == old(leaves) && root == old(root)
      ensures a.path <= key && a.children.Keys == {rest} && rest != [] && a != root
      ensures |a.path| < |key| ==> rest[0] != key[|a.path|]
    {
      hide *;
      DivergeFacts(key, node);
      ghost var h0, p, whole, depth := Fields(nodes), node.parent, node.key, node.depth;
      var count := Common(node.key, key, node.depth);
      assert key[..depth] == p.path;
      assert 0 < count < |node.key| by { Diverge(p.path, whole, key, count); }
      rest := whole[count..];
      a := SplitEdge(node, count);
      CanSplitHere(node, count, h0, a);
      SplitExcept(h0, root, leaves, node, count, a);
      IsGrowing(a);
      SplitIs(h0, node, count, a);
      assert a.path == key[..depth + count];
    }

    /** What is left of the key goes below the new node. */
    method AddRest(a: Node<T>, ghost rest: Key, key: Key, v: T) returns (leaf: Node<T>)
      requires Growing(a) && a != root && a.path <= key && key !in leaves
      requires a.children.Keys == {rest} && rest != [] && (|a.path| < |key| ==> rest[0] != key[|a.path|])
      modifies this, a`children
      ensures Valid() && nodes >= old(nodes) && fresh(nodes - old(nodes)) && root == old(root)
      ensures leaves == old(leaves)[key := leaf] && leaf.value == Some((key, v))
    {
      hide *;
      GrowingFacts(a);
      ForkDepth(a);
      var depth := a.depth + |a.key|;
      if depth == |key| {
        assert a.path == key;
        leaf := AddLeaf(a, key, v, depth);
      } else {
        SubstrRest(a.path, key);
        var tag := Substr(key, depth, |key| - depth);
        RestFits(rest, tag);
        leaf := AddEdge(a, tag, key, v, depth);
      }
    }

    /** Splits the edge into `node` where the key leaves it, and adds the key below the split. */
    method Prepend(node: Node<T>, key: Key, v: T) returns (leaf: Node<T>)
      requires Valid() && root != null && key !in leaves
      requires Located(Fields(nodes), root, key, node) && !node.isLeaf && !(node.path <= key)
      modifies this, nodes
      ensures Valid() && nodes >= old(nodes) && fresh(nodes - old(nodes)) && root == old(root)
      ensures leaves == old(leaves)[key := leaf] && leaf.value == Some((key, v))
    {
      hide *;
      var a;
      ghost var rest;
      a, rest := Fork(node, key);
      leaf := AddRest(a, rest, key, v);
    }

    /** A node's absolute depth and the length of its key end where its path ends. */
    lemma ForkDepth(a: Node<T>)
      requires Growing(a)
      ensures a.depth + |a.key| == |a.path|
    {
      assert Up(Fields(nodes), root, a);
    }

    lemma SubstrRest(path: Key, key: Key)
      requires path < key
      ensures var tag := Substr(key, |path|, |key| - |path|);
              path + tag == key && tag == key[|path|..] && tag != [] && tag[0] == key[|path|]
    {
    }

    method EnsureRoot()
      requires Valid()
      modifies this`root, this`nodes
      ensures Valid() && root != null && nodes >= old(nodes) && fresh(nodes - old(nodes))
      ensures leaves == old(leaves) && (old(root) != null ==> root == old(root))
    {
      if root == null {
        root := new Node(false, None, null, [], 0, []);
        nodes := {root};
        assert Up(Fields(nodes), root, root) && Down(Fields(nodes), root);
        assert Sound(Fields(nodes), root, leaves);
      }
    }

    /** Adds the key unless it is stored already; never overwrites. */
    method Insert(key: Key, v: T) returns (leaf: Node<T>, inserted: bool)
      requires Valid()
      modifies this, nodes
      ensures Valid() && nodes >= old(nodes) && fresh(nodes - old(nodes))
      ensures inserted <==> key !in old(leaves)
      ensures leaves == old(leaves)[key := leaf]
      ensures root != null && (old(root) != null ==> root == old(root))
      ensures Contents(leaves) == if inserted then old(Contents(leaves))[key := v] else old(Contents(leaves))
    {
      hide *;
      EnsureRoot();
      var node := Locate(key);
      if node.isLeaf {
        assert leaves[key := node] == leaves;
        return node, false;
      }
      if node == root {
        leaf := Append(node, key, v);
      } else if Substr(key, node.depth, |node.key|) == node.key {
        leaf := Append(node, key, v);
      } else {
        leaf := Prepend(node, key, v);
      }
      InsertContents(old(leaves), key, leaf, v);
      inserted := true;
    }

    /** `find_node` from the root, with what it says about the key. */
    method Locate(key: Key) returns (node: Node<T>)
      requires Valid() && root != null
      ensures node in nodes && Located(Fields(nodes), root, key, node)
      ensures node.isLeaf <==> key in leaves
      ensures node.isLeaf ==> leaves[key] == node
      ensures !node.isLeaf ==>
                && 0 <= node.depth <= |key|
                && (Substr(key, node.depth, |node.key|) == node.key <==> node.path <= key)
                && (node == root ==> node.path <= key)
    {
      assert Up(Fields(nodes), root, root);
      node := FindNode(key, root, 0);
      LocatedIff(Fields(nodes), root, leaves, key, node);
      if !node.isLeaf {
        LocatedEdge(Fields(nodes), root, key, node);
      }
    }

    // ----- removal -----

    /** Takes a childless node out of its parent's child map. */
    method Unlink(c: Node<T>)
      requires c in nodes && c.parent != null && c.parent in nodes && c.parent != c
      modifies this`nodes, c.parent`children
      ensures nodes == old(nodes) - {c}
      ensures Fields(nodes) == Drop(old(Fields(nodes)), c)
    {
      var p := c.parent;
      p.children := p.children - {c.key};
      nodes := nodes - {c};
      SameFields(nodes, Drop(old(Fields(nodes)), c));
    }

    /** The pointer updates of a merge of `g` with its only child. */
    method Fuse(g: Node<T>, uncle: Node<T>)
      requires g in nodes && g.parent != null && g.parent in nodes && g.parent != g
      requires uncle in nodes && uncle != g && uncle != g.parent
      requires uncle.key in g.children && g.children[uncle.key] == uncle
      modifies this`nodes, uncle`depth, uncle`key, uncle`parent, g.parent`children
      ensures nodes == old(nodes) - {g}
      ensures Fields(nodes) == Merge(old(Fields(nodes)), g, old(uncle.key))
    {
      var p := g.parent;
      uncle.depth := g.depth;
      uncle.key := g.key + uncle.key;
      uncle.parent := p;
      p.children := (p.children - {g.key})[uncle.key := uncle];
      nodes := nodes - {g};
      ghost var h := Merge(old(Fields(nodes)), g, old(uncle.key));
      assert h[uncle] == Rec(uncle.children, uncle.parent, uncle.depth, uncle.key);
      assert h[p] == Rec(p.children, p.parent, p.depth, p.key);
      SameFields(nodes, h);
    }

    lemma Complete(x: Node<T>)
      requires Growing(x) && (x == root || |x.children| > 1)
      ensures Valid()
    {
      assert Fields(nodes)[x].children.Keys == x.children.Keys;
    }

    /** Restores the branching of `x`, the one node that may lack it, by merging if needed. */
    method Repair(x: Node<T>)
      requires Growing(x) && (x != root ==> |x.children| >= 1)
      modifies this, nodes
      ensures Valid() && nodes <= old(nodes) && leaves == old(leaves) && root == old(root)
    {
      if x == root {
        return;
      }
      if |x.children| == 1 {
        var k :| k in x.children;
        var uncle := x.children[k];
        MergeFacts(x, k);
        if uncle.isLeaf {
          return;
        }
        ghost var h := Fields(nodes);
        Fuse(x, uncle);
        MergeSound(h, root, leaves, x, k);
      }
    }

    /** Takes the leaf of a stored key out of the tree; its parent may lack branching then. */
    method RemoveLeaf(key: Key, child: Node<T>) returns (parent: Node<T>)
      requires Valid() && root != null && key in leaves && leaves[key] == child
      modifies this, nodes
      ensures Growing(parent) && nodes == old(nodes) - {child} && root == old(root)
      ensures leaves == old(leaves) - {key}
    {
      hide *;
      RemovalFacts(key);
      ghost var h := Fields(nodes);
      DropLeafExcept(h, root, leaves, key);
      parent := child.parent;
      Unlink(child);
      leaves := leaves - {key};
      size := size - 1;
      assert leaves.Keys == old(leaves).Keys - {key};
      assert |leaves.Keys| == |old(leaves).Keys| - 1;
      IsGrowing(parent);
    }

    lemma SoundNow()
      requires Valid() && root != null
      ensures Sound(Fields(nodes), root, leaves) && size == |leaves|
    {
    }

    lemma RemovalFacts(key: Key)
      requires Valid() && root != null && key in leaves
      ensures Sound(Fields(nodes), root, leaves) && size == |leaves|
      ensures var c := leaves[key]; c in nodes && Fields(nodes)[c] == Rec(c.children, c.parent, c.depth, c.key)
    {
    }

    /** Takes an inner node that lost its last child out of the tree. */
    method RemoveInner(p: Node<T>) returns (g: Node<T>)
      requires Growing(p) && p != root && p.children == map[]
      modifies this, nodes
      ensures Growing(g) && nodes == old(nodes) - {p} && root == old(root) && leaves == old(leaves)
      ensures g != root ==> |g.children| >= 1
    {
      hide *;
      GrowingFacts(p);
      ghost var h := Fields(nodes);
      DropInnerExcept(h, root, leaves, p);
      g := p.parent;
      Unlink(p);
      IsGrowing(g);
      assert g.children == Drop(h, p)[g].children;
    }

    /** Removes exactly the given key; every other leaf node stays in place. */
    method Erase(key: Key) returns (erased: bool)
      requires Valid()
      modifies this, nodes
      ensures Valid() && nodes <= old(nodes) && root == old(root)
      ensures erased <==> key in old(leaves)
      ensures leaves == old(leaves) - {key} && Contents(leaves) == old(Contents(leaves)) - {key}
    {
      EraseContents(leaves, key);
      if root == null {
        return false;
      }
      hide *;
      var child := Locate(key);
      if !child.isLeaf {
        assert leaves == leaves - {key};
        return false;
      }
      erased := true;
      var parent := RemoveLeaf(key, child);
      if parent == root || |parent.children| > 1 {
        Complete(parent);
        return;
      }
      var grandparent := parent;
      if parent.children == map[] {
        grandparent := RemoveInner(parent);
      }
      Repair(grandparent);
    }

    lemma MergeFacts(x: Node<T>, k: Key)
      requires Growing(x) && x != root && k in x.children && |x.children| == 1
      ensures var u := x.children[k];
              && u in nodes && u != x && u.key == k && (u.isLeaf <==> k == [])
              && x.parent != null && x.parent in nodes && x.parent != x && u != x.parent
              && (k != [] ==> CanMerge(Fields(nodes), root, x, k))
    {
      var h, u := Fields(nodes), x.children[k];
      assert Up(h, root, x) && Down(h, x) && Up(h, root, u);
      assert x.children.Keys == {k} by {
        assert {k} <= x.children.Keys;
        assert |x.children.Keys - {k}| == 0;
      }
    }

    // ----- iteration -----

    /** The first label of a child map. */
    method LeastKey(ks: set<Key>) returns (least: Key)
      requires ks != {}
      ensures least in ks && forall k :: k in ks ==> k == least || Less(least, k)
    {
      least :| least in ks;
      var rest := ks - {least};
      while rest != {}
        invariant least in ks && rest <= ks
        invariant forall k :: k in ks && k !in rest ==> k == least || Less(least, k)
      {
        var k :| k in rest;
        Trichotomy(k, least);
        if Less(k, least) {
          forall j | j in ks && j !in rest && j != least ensures Less(k, j) { LessTrans(k, least, j); }
          least := k;
        }
        rest := rest - {k};
      }
    }

    /** The label after `key` in a child map, if there is one. */
    method NextKey(ks: set<Key>, key: Key) returns (next: Option<Key>)
      ensures next.None? ==> forall k :: k in ks ==> !Less(key, k)
      ensures next.Some? ==> next.value in ks && Less(key, next.value)
      ensures next.Some? ==> forall k :: k in ks && Less(key, k) ==> k == next.value || Less(next.value, k)
    {
      var later := set k | k in ks && Less(key, k);
      if later == {} {
        assert forall k :: k in ks && Less(key, k) ==> k in later;
        return None;
      }
      var least := LeastKey(later);
      next := Some(least);
    }

    method Descend(node: Node<T>) returns (l: Node<T>)
      requires Valid() && root != null && node in nodes && (node.isLeaf || node.children != map[])
      ensures FirstBelow(leaves, node, l)
      decreases |Deep(Fields(nodes), node)|, if node.isLeaf then 0 else 1
    {
      if node.isLeaf {
        return node;
      }
      var first := LeastKey(node.children.Keys);
      ghost var h := Fields(nodes);
      InnerChild(node, first);
      if !node.children[first].isLeaf { DeepShrinks(h, node, node.children[first]); }
      l := Descend(node.children[first]);
      DescendStep(h, root, leaves, node, first, l);
    }

    lemma InnerChild(n: Node<T>, k: Key)
      requires Valid() && root != null && n in nodes && !n.isLeaf && k in n.children
      ensures var c := n.children[k];
              && c in nodes && c.path == n.path + k && (c.isLeaf <==> k == [])
              && (c.isLeaf || c.children != map[])
              && |Deep(Fields(nodes), c)| <= |Deep(Fields(nodes), n)|
    {
      var h, c := Fields(nodes), n.children[k];
      ChildFacts(h, root, n, k);
      if !c.isLeaf { assert Branching(h[c].children.Keys); }
      SubsetSize(Deep(h, c), Deep(h, n));
    }

    /** The leaf of the least stored key, or null. */
    method Begin() returns (l: Node?<T>)
      requires Valid()
      ensures l == null <==> leaves == map[]
      ensures l != null ==> l.path in leaves && leaves[l.path] == l
      ensures l != null ==> forall k :: k in leaves ==> k == l.path || Less(l.path, k)
    {
      if root == null || size == 0 {
        return null;
      }
      ghost var h := Fields(nodes);
      assert Up(h, root, root);
      ghost var k :| k in leaves;
      ghost var c := Toward(h, root, leaves, root, k);
      l := Descend(root);
    }

    /** The first leaf after everything below `node`, found through the parent links. */
    method Increment(node: Node<T>) returns (l: Node?<T>)
      requires Valid() && root != null && node in nodes
      ensures FirstBeyond(leaves, node, l)
      decreases |node.path|, if node.isLeaf then 1 else 0
    {
      ghost var h := Fields(nodes);
      assert Up(h, root, node);
      var parent := node.parent;
      if parent == null {
        return null;
      }
      var next := NextKey(parent.children.Keys, node.key);
      if next.None? {
        l := Increment(parent);
        LastChild(h, root, leaves, node, l);
      } else {
        InnerChild(parent, next.value);
        l := Descend(parent.children[next.value]);
        NextChild(h, root, leaves, node, next.value, l);
      }
    }

    /** `operator++`: the leaf of the next stored key, or null after the last. */
    method Next(it: Node<T>) returns (l: Node?<T>)
      requires Valid() && it.path in leaves && leaves[it.path] == it
      ensures l == null ==> forall k :: k in leaves ==> !Less(it.path, k)
      ensures l != null ==> l.path in leaves && leaves[l.path] == l && Less(it.path, l.path)
      ensures l != null ==> forall k :: k in leaves && Less(it.path, k) ==> k == l.path || Less(l.path, k)
    {
      Trichotomy(it.path, it.path);
      l := Increment(it);
    }

    lemma LeafValue(it: Node<T>)
      requires Valid() && it.path in leaves && leaves[it.path] == it
      ensures it.value.Some? && it.value.value.0 == it.path
    {
      assert Down(Fields(nodes), it);
    }

    /** The loop `for (it = begin(); it != end(); ++it)`: every key once, in increasing order. */
    method Walk() returns (keys: seq<Key>)
      requires Valid()
      ensures Sorted(keys) && forall k :: k in keys <==> k in leaves
    {
      ghost var left := leaves.Keys;   // the keys not yet visited
      keys := [];
      var it := Begin();
      hide Valid;
      hide Less;
      while it != null
        invariant Walking(leaves, left, it, keys)
        decreases left
      {
        var next := Next(it);
        LeafValue(it);
        WalkStep(leaves, left, it, keys, next);
        keys := keys + [it.value.value.0];
        left := left - {it.path};
        it := next;
      }
    }

    /** Deletes exactly the keys that satisfy the predicate, although each erase rearranges nodes
        under the walk. */
    method RemoveIf(pred: Key -> bool)
      requires Valid()
      modifies this, nodes
      ensures Valid() && nodes <= old(nodes)
      ensures forall k :: k in leaves <==> k in old(leaves) && !pred(k)
      ensures forall k :: k in leaves ==> leaves[k] == old(leaves)[k]
    {
      hide *;
      ghost var left := old(leaves).Keys;   // the keys not yet visited
      var it := Begin();
      while it != null
        invariant Valid() && nodes <= old(nodes)
        invariant it == null ==> left == {}
        invariant it != null ==> it.path in left && it.path in leaves && leaves[it.path] == it
        invariant it != null ==> forall k :: k in left ==> k == it.path || Less(it.path, k)
        invariant left <= leaves.Keys <= old(leaves).Keys
        invariant forall k :: k in leaves ==> leaves[k] == old(leaves)[k]
        invariant forall k :: k in old(leaves) && k !in left ==> (k in leaves <==> !pred(k))
        invariant it != null ==> forall k :: k in leaves && Less(it.path, k) ==> k in left
        decreases left
      {
        var back := Next(it);
        NextLeft(leaves, left, it, back);
        LeafValue(it);
        var toDelete := it.value.value.0;
        if pred(toDelete) {
          var _ := Erase(toDelete);
        }
        left := left - {toDelete};
        it := back;
      }
    }

    // ----- prefix queries -----

    /** `greedy_match(node, vec)`: the leaves below a node, in order. */
    method GreedyMatch(node: Node<T>) returns (vec: seq<Node<T>>)
      requires Valid() && root != null && node in nodes
      ensures AllBelow(leaves, node, vec)
      decreases |Deep(Fields(nodes), node)|, if node.isLeaf then 0 else 1
    {
      vec := [];
      GreedyStart(node);
      if node.isLeaf {
        return [node];
      }
      hide *;
      ghost var h := Fields(nodes);
      var rest := node.children.Keys;
      GatherStart(h, leaves, node);
      while rest != {}
        invariant Gathering(h, leaves, node, rest, vec) && rest <= node.children.Keys
      {
        var first := LeastKey(rest);
        InnerChild(node, first);
        if !node.children[first].isLeaf { DeepShrinks(h, node, node.children[first]); }
        var part := GreedyMatch(node.children[first]);
        GatherNext(h, root, leaves, node, rest, vec, first, part);
        vec := vec + part;
        rest := rest - {first};
      }
      GatherEnd(h, root, leaves, node, vec);
    }

    lemma GreedyStart(node: Node<T>)
      requires Valid() && root != null && node in nodes
      ensures var h := Fields(nodes);
              && h[node].children == node.children && Tree(h, root) && Indexed(h, leaves)
              && if node.isLeaf then AllBelow(leaves, node, [node]) else Gathered(h, leaves, node, {}, [])
    {
    }

    /** The leaves of exactly the stored keys that extend `key`, in increasing order. */
    method PrefixMatch(key: Key) returns (vec: seq<Node<T>>)
      requires Valid()
      ensures forall i :: 0 <= i < |vec| ==>
                vec[i].path in leaves && leaves[vec[i].path] == vec[i] && key <= vec[i].path
      ensures forall i, j :: 0 <= i < j < |vec| ==> Less(vec[i].path, vec[j].path)
      ensures forall k :: k in leaves && key <= k ==> leaves[k] in vec
    {
      if root == null {
        return [];
      }
      hide *;
      var node := Locate(key);
      PrefixFacts(key, node);
      if node.isLeaf {
        node := node.parent;
      }
      var len := |key| - node.depth;
      if Substr(key, node.depth, len) != Substr(node.key, 0, len) {
        return [];
      }
      vec := GreedyMatch(node);
      BelowInner(leaves, node, vec);
    }

    /** The node whose subtree `prefix_match` lists, and what its comparison decides. */
    lemma PrefixFacts(key: Key, found: Node<T>)
      requires Valid() && root != null && Located(Fields(nodes), root, key, found)
      ensures var n := if found.isLeaf then found.parent else found;
              && n != null && n in nodes && !n.isLeaf && 0 <= n.depth <= |key|
              && (Substr(key, n.depth, |key| - n.depth) == Substr(n.key, 0, |key| - n.depth) <==> key <= n.path)
              && (key <= n.path ==> forall k :: k in leaves ==> (key <= k <==> n.path <= k))
              && (!(key <= n.path) ==> forall k :: k in leaves ==> !(key <= k))
    {
      var h := Fields(nodes);
      assert Up(h, root, found);
      var n := if found.isLeaf then found.parent else found;
      assert Up(h, root, n);
      if found.isLeaf {
        assert n.path + [] == n.path;
      } else {
        PrefixPlace(h, root, leaves, key, n);
      }
      PrefixTest(if n == root then [] else n.parent.path, n.key, key);
    }

    // ----- history does not show -----

    /** Adding a fresh key and removing it again restores the shape of the tree; only a tree that
        never held a key gains its root node. */
    method InsertThenErase(key: Key, v: T)
      requires Valid() && key !in leaves
      modifies this, nodes
      ensures Valid() && leaves == old(leaves)
      ensures old(root) != null ==> Shape(Fields(nodes)) == old(Shape(Fields(nodes)))
    {
      hide *;
      if root != null { SoundNow(); }
      ghost var h0, root0, leaves0 := Fields(nodes), root, leaves;
      var leaf, inserted := Insert(key, v);
      var erased := Erase(key);
      assert leaves == leaves0;
      SoundNow();
      if root0 != null { CanonicalShape(h0, root0, leaves0, Fields(nodes), root, leaves); }
    }
  }

  /** The children with labels not in `rest` are done, and come before those in `rest`. */
  ghost predicate Gathering<T>(h: Store<T>, leaves: map<Key, Node<T>>, n: Node<T>, rest: set<Key>, vec: seq<Node<T>>) {
    && n in h && rest <= h[n].children.Keys
    && (forall d, r :: d in h[n].children.Keys - rest && r in rest ==> Less(d, r))
    && Gathered(h, leaves, n, h[n].children.Keys - rest, vec)
  }

  lemma GatherStart<T>(h: Store<T>, leaves: map<Key, Node<T>>, n: Node<T>)
    requires n in h && Gathered(h, leaves, n, {}, [])
    ensures Gathering(h, leaves, n, h[n].children.Keys, [])
  {
    hide Gathered;
    assert h[n].children.Keys - h[n].children.Keys == {};
  }

  lemma GatherNext<T>(h: Store<T>, root: Node<T>, leaves: map<Key, Node<T>>, n: Node<T>, rest: set<Key>,
                      vec: seq<Node<T>>,
                      first: Key, part: seq<Node<T>>)
    requires Tree(h, root) && Indexed(h, leaves) && n in h && !n.isLeaf && Gathering(h, leaves, n, rest, vec)
    requires first in rest && (forall k :: k in rest ==> k == first || Less(first, k))
    requires AllBelow(leaves, h[n].children[first], part)
    ensures Gathering(h, leaves, n, rest - {first}, vec + part)
  {
    var done := h[n].children.Keys - rest;
    GatherStep(h, root, leaves, n, done, vec, first, part);
    hide Gathered;
    hide Tree;
    hide Indexed;
    assert h[n].children.Keys - (rest - {first}) == done + {first};
  }

  lemma GatherEnd<T>(h: Store<T>, root: Node<T>, leaves: map<Key, Node<T>>, n: Node<T>, vec: seq<Node<T>>)
    requires Tree(h, root) && Indexed(h, leaves) && n in h && !n.isLeaf && Gathering(h, leaves, n, {}, vec)
    ensures AllBelow(leaves, n, vec)
  {
    assert h[n].children.Keys - {} == h[n].children.Keys;
    GatherAll(h, root, leaves, n, vec);
  }

  /** What the walk keeps: `it` is the least key not visited, and `keys` are the visited ones in order. */
  ghost predicate Walking<T>(leaves: map<Key, Node<T>>, left: set<Key>, it: Node?<T>, keys: seq<Key>) {
    && left <= leaves.Keys && Sorted(keys) && (forall k :: k in keys <==> k in leaves && k !in left)
    && (it == null ==> left == {})
    && (it != null ==>
          && it.path in left && leaves[it.path] == it
          && (forall k :: k in left ==> k == it.path || Less(it.path, k))
          && (forall k :: k in leaves && Less(it.path, k) ==> k in left)
          && (forall i :: 0 <= i < |keys| ==> Less(keys[i], it.path)))
  }

  lemma WalkStep<T>(leaves: map<Key, Node<T>>, left: set<Key>, it: Node<T>, keys: seq<Key>, next: Node?<T>)
    requires Walking(leaves, left, it, keys)
    requires next == null ==> forall k :: k in leaves ==> !Less(it.path, k)
    requires next != null ==> next.path in leaves && leaves[next.path] == next && Less(it.path, next.path)
    requires next != null ==> forall k :: k in leaves && Less(it.path, k) ==> k == next.path || Less(next.path, k)
    ensures Walking(leaves, left - {it.path}, next, keys + [it.path])
  {
    hide Less;
    NextLeft(leaves, left, it, next);
    forall i | 0 <= i < |keys| && next != null ensures Less(keys[i], next.path) {
      LessTrans(keys[i], it.path, next.path);
    }
  }

  lemma BelowInner<T>(leaves: map<Key, Node<T>>, n: Node<T>, vec: seq<Node<T>>)
    requires AllBelow(leaves, n, vec) && !n.isLeaf
    ensures forall i :: 0 <= i < |vec| ==>
              vec[i].path in leaves && leaves[vec[i].path] == vec[i] && n.path <= vec[i].path
    ensures forall i, j :: 0 <= i < j < |vec| ==> Less(vec[i].path, vec[j].path)
    ensures forall k :: k in leaves && n.path <= k ==> leaves[k] in vec
  {
  }

  /** The comparison in `prefix_match` asks whether the node's path extends the key. */
  lemma PrefixTest(p: Key, tag: Key, key: Key)
    requires p <= key
    ensures Substr(key, |p|, |key| - |p|) == Substr(tag, 0, |key| - |p|) <==> key <= p + tag
  {
    var n := |key| - |p|;
    assert Substr(key, |p|, n) == key[|p|..];
    assert key == p + key[|p|..];
    if key <= p + tag {
      assert (p + tag)[..|key|] == p + tag[..n];
    }
  }

  /** Moving on from `it`, the next leaf is the first of the keys still to visit. */
  lemma NextLeft<T>(leaves: map<Key, Node<T>>, left: set<Key>, it: Node<T>, back: Node?<T>)
    requires it.path in left && left <= leaves.Keys
    requires forall k :: k in left ==> k == it.path || Less(it.path, k)
    requires forall k :: k in leaves && Less(it.path, k) ==> k in left
    requires back == null ==> forall k :: k in leaves ==> !Less(it.path, k)
    requires back != null ==> back.path in leaves && Less(it.path, back.path)
    requires back != null ==> forall k :: k in leaves && Less(it.path, k) ==> k == back.path || Less(back.path, k)
    ensures back == null ==> left - {it.path} == {}
    ensures back != null ==> back.path in left - {it.path}
    ensures back != null ==> forall k :: k in left - {it.path} ==> k == back.path || Less(back.path, k)
    ensures back != null ==> forall k :: k in leaves && Less(back.path, k) ==> k in left - {it.path}
  {
    Trichotomy(it.path, it.path);
    forall k | k in leaves && back != null && Less(back.path, k) ensures k in left - {it.path} {
      LessTrans(it.path, back.path, k);
    }
  }

  lemma Diverge(p: Key, tag: Key, key: Key, count: nat)
    requires p < key && tag != [] && tag[0] == key[|p|] && !(p + tag <= key)
    requires count <= |tag| && |p| + count <= |key| && tag[..count] == key[|p|..|p| + count]
    requires count < |tag| && |p| + count < |key| ==> tag[count] != key[|p| + count]
    ensures 0 < count < |tag|
  {
    assert p + tag[..count] == key[..|p| + count];
    assert tag[..|tag|] == tag;
  }
}
