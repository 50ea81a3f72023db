/** Sequential sampling without replacement: the selection rule of the authorization sample,
    its exactness for every random stream and its uniformity over residue sequences. */
module Sampling {

  /** Which of `n` entries are taken when `k` are wanted: entry i is taken if its random value,
      reduced modulo the entries left, falls below the number still wanted. */
  function Mask(n: nat, k: nat, draws: seq<nat>): (m: seq<bool>)
    requires k <= n == |draws|
    ensures |m| == n
  {
    if n == 0 then []
    else
      var taken := draws[0] % n < k;
      [taken] + Mask(n - 1, if taken then k - 1 else k, draws[1..])
  }

  function Pick<T>(s: seq<T>, mask: seq<bool>): (r: seq<T>)
    requires |s| == |mask|
  {
    if s == [] then [] else (if mask[0] then [s[0]] else []) + Pick(s[1..], mask[1..])
  }

  function Trues(mask: seq<bool>): nat {
    if mask == [] then 0 else (if mask[0] then 1 else 0) + Trues(mask[1..])
  }

  /** Exactly `k` entries are taken, whatever the random values. */
  lemma {:induction false} MaskExact(n: nat, k: nat, draws: seq<nat>)
    requires k <= n == |draws|
    ensures Trues(Mask(n, k, draws)) == k
  {
    if n > 0 {
      var taken := draws[0] % n < k;
      MaskExact(n - 1, if taken then k - 1 else k, draws[1..]);
      assert Mask(n, k, draws)[1..] == Mask(n - 1, if taken then k - 1 else k, draws[1..]);
    }
  }

  /** The selected indices, in increasing order. */
  function Selected(mask: seq<bool>, at: nat): (r: seq<nat>)
    ensures |r| == Trues(mask)
    ensures forall i :: 0 <= i < |r| ==> at <= r[i] < at + |mask| && mask[r[i] - at]
    ensures forall i, j :: 0 <= i < j < |r| ==> r[i] < r[j]
  {
    if mask == [] then [] else (if mask[0] then [at] else []) + Selected(mask[1..], at + 1)
  }

  /** Picking takes exactly the selected entries, one per index and in list order. */
  lemma {:induction false} PickSubsequence<T>(whole: seq<T>, mask: seq<bool>, at: nat)
    requires at + |mask| == |whole|
    ensures |Pick(whole[at..], mask)| == |Selected(mask, at)|
    ensures forall i :: 0 <= i < |Selected(mask, at)| ==> Pick(whole[at..], mask)[i] == whole[Selected(mask, at)[i]]
  {
    if mask != [] {
      PickSubsequence(whole, mask[1..], at + 1);
      assert whole[at..][1..] == whole[at + 1..];
    }
  }

  /** Every selected index is listed. */
  lemma {:induction false} SelectedAll(mask: seq<bool>, at: nat, i: nat)
    requires i < |mask| && mask[i]
    ensures at + i in Selected(mask, at)
  {
    if i > 0 { SelectedAll(mask[1..], at + 1, i - 1); }
  }

  /** The rule for a single entry: entry i is taken if and only if its random value, reduced modulo the
      entries left, falls below the number still wanted after the entries before it. */
  lemma {:induction false} MaskDecides(n: nat, k: nat, draws: seq<nat>, i: nat)
    requires k <= n == |draws| && i < n
    ensures Mask(n, k, draws)[i] <==> draws[i] % (n - i) < k - Trues(Mask(n, k, draws)[..i])
  {
    var taken := draws[0] % n < k;
    var mask, rest := Mask(n, k, draws), Mask(n - 1, if taken then k - 1 else k, draws[1..]);
    assert mask == [taken] + rest;
    if i > 0 {
      MaskDecides(n - 1, if taken then k - 1 else k, draws[1..], i - 1);
      assert mask[..i][0] == taken && mask[..i][1..] == rest[..i - 1];
    }
  }

  // ----- uniformity -----

  function Factorial(n: nat): nat {
    if n == 0 then 1 else n * Factorial(n - 1)
  }

  ghost function Headed(a: nat, tails: set<seq<nat>>): set<seq<nat>> {
    set t | t in tails :: [a] + t
  }

  /** All sequences [a] + t with a in lo..hi and t in `tails`. */
  ghost function Prefixed(lo: nat, hi: nat, tails: set<seq<nat>>): set<seq<nat>>
    requires lo <= hi
    decreases hi
  {
    if lo == hi then {} else Prefixed(lo, hi - 1, tails) + Headed(hi - 1, tails)
  }

  lemma InHeaded(a: nat, tails: set<seq<nat>>, r: seq<nat>)
    ensures r in Headed(a, tails) <==> r != [] && r[0] == a && r[1..] in tails
  {
    if r in Headed(a, tails) {
      var t :| t in tails && r == [a] + t;
      assert r[1..] == t;
    }
    if r != [] { assert r == [r[0]] + r[1..]; }
  }

  lemma {:induction false} InPrefixed(lo: nat, hi: nat, tails: set<seq<nat>>, r: seq<nat>)
    requires lo <= hi
    ensures r in Prefixed(lo, hi, tails) <==> r != [] && lo <= r[0] < hi && r[1..] in tails
    decreases hi
  {
    if lo < hi {
      InPrefixed(lo, hi - 1, tails, r);
      InHeaded(hi - 1, tails, r);
    }
  }

  /** The residue sequences a run over `n` entries can see: the i-th lies below n - i. */
  ghost function Residues(n: nat): set<seq<nat>> {
    if n == 0 then {[]} else Prefixed(0, n, Residues(n - 1))
  }

  lemma {:induction false} ResiduesShape(n: nat, r: seq<nat>)
    ensures r in Residues(n) <==> |r| == n && forall i :: 0 <= i < n ==> r[i] < n - i
  {
    if n > 0 {
      InPrefixed(0, n, Residues(n - 1), r);
      if r != [] {
        ResiduesShape(n - 1, r[1..]);
        assert forall i :: 1 <= i < |r| ==> r[i] == r[1..][i - 1];
        assert forall i :: 0 <= i < |r| - 1 ==> r[1..][i] == r[i + 1];
      }
    }
  }

  lemma {:induction false} HeadedSize(a: nat, tails: set<seq<nat>>)
    ensures |Headed(a, tails)| == |tails|
  {
    if tails != {} {
      var t :| t in tails;
      HeadedSize(a, tails - {t});
      InHeaded(a, tails - {t}, [a] + t);
      assert ([a] + t)[1..] == t;
      assert Headed(a, tails) == Headed(a, tails - {t}) + {[a] + t};
    }
  }

  lemma PrefixedApart(lo: nat, hi: nat, tails: set<seq<nat>>)
    requires lo <= hi
    ensures Prefixed(lo, hi, tails) !! Headed(hi, tails)
  {
    forall r | r in Prefixed(lo, hi, tails) ensures r !in Headed(hi, tails) {
      InPrefixed(lo, hi, tails, r);
      InHeaded(hi, tails, r);
    }
  }

  function Product(a: nat, b: nat): nat {
    a * b
  }

  lemma ProductStep(a: nat, b: nat)
    ensures Product(0, b) == 0 && Product(a + 1, b) == Product(a, b) + b
  {
  }

  lemma {:induction false} PrefixedSize(lo: nat, hi: nat, tails: set<seq<nat>>)
    requires lo <= hi
    ensures |Prefixed(lo, hi, tails)| == Product(hi - lo, |tails|)
    decreases hi
  {
    hide *;
    PrefixedIs(lo, hi, tails);
    if lo == hi {
      ProductStep(0, |tails|);
    } else {
      PrefixedSize(lo, hi - 1, tails);
      HeadedSize(hi - 1, tails);
      PrefixedApart(lo, hi - 1, tails);
      DisjointSizes(Prefixed(lo, hi - 1, tails), Headed(hi - 1, tails));
      ProductStep(hi - 1 - lo, |tails|);
    }
  }

  lemma PrefixedIs(lo: nat, hi: nat, tails: set<seq<nat>>)
    requires lo <= hi
    ensures Prefixed(lo, hi, tails) == if lo == hi then {} else Prefixed(lo, hi - 1, tails) + Headed(hi - 1, tails)
  {
  }

  lemma DisjointSizes(a: set<seq<nat>>, b: set<seq<nat>>)
    requires a !! b
    ensures |a + b| == |a| + |b|
  {
  }

  lemma {:induction false} ResiduesSize(n: nat)
    ensures |Residues(n)| == Factorial(n)
  {
    if n > 0 {
      ResiduesSize(n - 1);
      PrefixedSize(0, n, Residues(n - 1));
    }
  }

  /** The residue sequences that select exactly the entries marked in `mask`. */
  ghost function Producing(n: nat, k: nat, mask: seq<bool>): set<seq<nat>>
    requires k <= n
  {
    set r | r in Residues(n) && |r| == n && Mask(n, k, r) == mask
  }

  /** Fixing the first decision fixes the range of the first residue and leaves the same
      problem on one entry fewer. */
  lemma ProducingStep(n: nat, k: nat, mask: seq<bool>)
    requires 0 < n == |mask| && (if mask[0] then 0 < k <= n else k < n)
    ensures Producing(n, k, mask) ==
            if mask[0] then Prefixed(0, k, Producing(n - 1, k - 1, mask[1..]))
            else Prefixed(k, n, Producing(n - 1, k, mask[1..]))
  {
    var k' := if mask[0] then k - 1 else k;
    var lo, hi := if mask[0] then 0 else k, if mask[0] then k else n;
    var fewer := Producing(n - 1, k', mask[1..]);
    assert mask == [mask[0]] + mask[1..];
    forall r ensures r in Producing(n, k, mask) <==> r in Prefixed(lo, hi, fewer) {
      InPrefixed(0, n, Residues(n - 1), r);
      InPrefixed(lo, hi, fewer, r);
      if r in Residues(n) {
        ResiduesShape(n, r);
        ResiduesShape(n - 1, r[1..]);
        FirstDecision(n, k, r);
      }
    }
  }

  lemma FirstDecision(n: nat, k: nat, r: seq<nat>)
    requires k <= n == |r| && 0 < n && r[0] < n
    ensures Mask(n, k, r)[0] <==> r[0] < k
    ensures Mask(n, k, r)[1..] == Mask(n - 1, if r[0] < k then k - 1 else k, r[1..])
  {
  }

  lemma ProductMoves(a: nat, b: nat, c: nat)
    ensures Product(a, Product(b, c)) == Product(Product(a, b), c) == Product(b, Product(a, c))
  {
  }

  lemma FactorialStep(n: nat)
    requires n > 0
    ensures Factorial(n) == Product(n, Factorial(n - 1))
  {
  }

  lemma {:induction false} ProducingSize(n: nat, k: nat, mask: seq<bool>)
    requires k <= n == |mask| && Trues(mask) == k
    ensures |Producing(n, k, mask)| == Product(Factorial(k), Factorial(n - k))
  {
    if n == 0 {
      assert Producing(0, 0, mask) == {[]};
      assert Factorial(0) == 1;
    } else {
      var rest := mask[1..];
      TruesBound(rest);
      assert Trues(rest) == if mask[0] then k - 1 else k;
      hide *;
      ProducingStep(n, k, mask);
      if mask[0] {
        ProducingSize(n - 1, k - 1, rest);
        PrefixedSize(0, k, Producing(n - 1, k - 1, rest));
        FactorialStep(k);
        ProductMoves(k, Factorial(k - 1), Factorial(n - k));
      } else {
        ProducingSize(n - 1, k, rest);
        PrefixedSize(k, n, Producing(n - 1, k, rest));
        FactorialStep(n - k);
        ProductMoves(n - k, Factorial(k), Factorial(n - k - 1));
      }
    }
  }

  /** Uniformity: of the n! residue sequences, every k-subset of the n entries is produced by
      exactly k! * (n - k)! of them. */
  lemma Uniform(n: nat, k: nat, mask: seq<bool>)
    requires k <= n == |mask| && Trues(mask) == k
    ensures |Producing(n, k, mask)| == Factorial(k) * Factorial(n - k)
    ensures |Residues(n)| == Factorial(n)
  {
    ProducingSize(n, k, mask);
    ResiduesSize(n);
  }

  lemma {:induction false} TruesBound(mask: seq<bool>)
    ensures Trues(mask) <= |mask|
  {
    if mask != [] { TruesBound(mask[1..]); }
  }

  /** The residue sequence that a stream of raw random values amounts to. */
  function Reduce(n: nat, draws: seq<nat>): (r: seq<nat>)
    requires |draws| == n
    ensures |r| == n
  {
    if n == 0 then [] else [draws[0] % n] + Reduce(n - 1, draws[1..])
  }

  /** Only the residues matter, and every stream reduces to one of the n! residue sequences. */
  lemma {:induction false} OnlyResiduesMatter(n: nat, k: nat, draws: seq<nat>)
    requires k <= n == |draws|
    ensures Reduce(n, draws) in Residues(n)
    ensures Mask(n, k, Reduce(n, draws)) == Mask(n, k, draws)
  {
    if n > 0 {
      var r, k' := Reduce(n, draws), if draws[0] % n < k then k - 1 else k;
      OnlyResiduesMatter(n - 1, k', draws[1..]);
      assert r[0] == draws[0] % n && r[1..] == Reduce(n - 1, draws[1..]);
      InPrefixed(0, n, Residues(n - 1), r);
      FirstDecision(n, k, r);
      assert Mask(n, k, r) == [draws[0] % n < k] + Mask(n - 1, k', r[1..]);
    }
  }
}
