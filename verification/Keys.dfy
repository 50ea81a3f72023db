/** Keys of the radix tree: symbol sequences with the lexicographic order of the child maps. */
module Keys {

  type Key = seq<int>

  /** Lexicographic, a proper prefix first: the order of `std::less` on strings. */
  predicate Less(a: Key, b: Key) {
    b != [] && (a == [] || a[0] < b[0] || (a[0] == b[0] && Less(a[1..], b[1..])))
  }

  lemma {:induction false} Trichotomy(a: Key, b: Key)
    ensures a == b || Less(a, b) || Less(b, a)
    ensures !(Less(a, b) && Less(b, a)) && !Less(a, a)
  {
    if a != [] && b != [] && a[0] == b[0] {
      Trichotomy(a[1..], b[1..]);
      assert a == [a[0]] + a[1..] && b == [b[0]] + b[1..];
    }
    if a != [] { Trichotomy(a[1..], a[1..]); }
  }

  lemma {:induction false} LessTrans(a: Key, b: Key, c: Key)
    requires Less(a, b) && Less(b, c)
    ensures Less(a, c)
  {
    if a != [] && a[0] == b[0] == c[0] {
      LessTrans(a[1..], b[1..], c[1..]);
    }
  }

  lemma {:induction false} LessJoin(p: Key, a: Key, b: Key)
    ensures Less(p + a, p + b) <==> Less(a, b)
  {
    if p == [] {
      assert p + a == a && p + b == b;
    } else {
      LessJoin(p[1..], a, b);
      assert (p + a)[1..] == p[1..] + a && (p + b)[1..] == p[1..] + b;
    }
  }

  /** A key outside the block of keys that extend `p` lies wholly on one side of the block. */
  lemma {:induction false} LessBlock(p: Key, a: Key, b: Key, k: Key)
    requires p <= a && p <= b && !(p <= k)
    ensures Less(a, k) <==> Less(b, k)
    ensures Less(k, a) <==> Less(k, b)
  {
    assert p != [];
    assert a[0] == b[0] == p[0];
    if k != [] && k[0] == p[0] {
      assert k == [k[0]] + k[1..] && p == [p[0]] + p[1..];
      assert a == [a[0]] + a[1..] && b == [b[0]] + b[1..];
      LessBlock(p[1..], a[1..], b[1..], k[1..]);
    }
  }

  /** Keys that continue `p` by different first symbols are ordered by those symbols. */
  lemma LessFork(p: Key, x: Key, y: Key, a: Key, b: Key)
    requires y != [] && (x == [] || x[0] < y[0])
    requires (if x == [] then a == p else p + x <= a) && p + y <= b
    ensures Less(a, b)
  {
    var a', b' := a[|p|..], b[|p|..];
    assert a == p + a' && b == p + b';
    assert b'[0] == y[0];
    LessJoin(p, a', b');
  }

  ghost predicate Sorted(s: seq<Key>) {
    forall i, j :: 0 <= i < j < |s| ==> Less(s[i], s[j])
  }

  /** Two prefixes of one key are comparable. */
  lemma PrefixChain(a: Key, b: Key, k: Key)
    requires a <= k && b <= k
    ensures a <= b || b <= a
  {
  }
}
