/** How the thread pool and its result queue are sized. */
module ThreadPool {
  import opened Bits
  import Mpmc = MpmcQueue

  const WORD := 64

  /** `size_t` arithmetic wraps at the word size. */
  function Wrap(x: int): nat {
    x % Pow2(WORD)
  }

  /** The top `i` bits of a number of `k` bits are set. */
  ghost predicate Smeared(v: nat, k: nat, i: nat) {
    v < Pow2(k) && forall j :: 0 <= j < k && k <= j + i ==> Bit(v, j)
  }

  /** Or-ing a number with itself shifted by `i` doubles the run of ones at its top. */
  lemma SmearStep(v: nat, k: nat, i: nat)
    requires Smeared(v, k, i)
    ensures Smeared(Or(v, Shr(v, i)), k, 2 * i)
  {
    ShrShrinks(v, i);
    OrBelow(v, Shr(v, i), k);
    forall j | 0 <= j < k && k <= j + 2 * i ensures Bit(Or(v, Shr(v, i)), j) {
      OrBit(v, Shr(v, i), j);
      ShrBit(v, i, j);
    }
  }

  lemma NarrowWidth(v: nat, n: nat)
    requires n > 0
    ensures v < Pow2(n) <==> Width(v) <= n
  {
    WidthBounds(v);
    var k := Width(v);
    if k < n { Pow2Grows(k, n); }
    if n < k - 1 { Pow2Grows(n, k - 1); }
  }

  lemma SmallMod(x: nat, w: nat)
    requires x < w
    ensures x % w == x && (x - w) % w == x && w % w == 0
  {
  }

  lemma Wraps(val: nat, k: nat)
    requires val < Pow2(WORD)
    ensures Wrap(val - 1) == if val == 0 then Pow2(WORD) - 1 else val - 1
    ensures k <= WORD ==> Wrap(Pow2(k)) == if k == WORD then 0 else Pow2(k)
    ensures Pow2(WORD) == 2 * Pow2(WORD - 1)
  {
    if k < WORD { Pow2Grows(k, WORD); }
    assert Pow2(WORD) == 2 * Pow2(WORD - 1);
    hide Pow2;
    var w := Pow2(WORD);
    SmallMod(if val == 0 then w - 1 else val - 1, w);
    if k < WORD { SmallMod(Pow2(k), w); }
    if val == 0 { assert (w - 1 - w) % w == w - 1; }
  }

  /** The least power of two not below the argument, if there is one in a word; otherwise 0. */
  method NextPow2(val: nat) returns (r: nat)
    requires val < Pow2(WORD)
    ensures 1 <= val <= Pow2(WORD - 1) ==> LeastPow2(val, r)
    ensures !(1 <= val <= Pow2(WORD - 1)) ==> r == 0
  {
    hide Pow2;
    var v := Wrap(val - 1);
    Wraps(val, Width(v));
    hide Wrap;
    ghost var k := Width(v);
    WidthBounds(v);
    NarrowWidth(v, WORD);
    NarrowWidth(v, WORD - 1);
    hide Bit;
    hide Width;
    var i := 1;
    while i < WORD
      invariant i >= 1 && Smeared(v, k, i)
    {
      SmearStep(v, k, i);
      v := Or(v, Shr(v, i));
      i := 2 * i;
    }
    AllOnes(v, k);
    r := Wrap(v + 1);
    if val >= 1 { WidthIsLeast(val); }
  }

  lemma SmallPowers()
    ensures Pow2(1) == 2 && Pow2(30) == 0x4000_0000 && Pow2(63) == 0x8000_0000_0000_0000 && Pow2(64) == 2 * Pow2(63)
  {
    assert Pow2(10) == 1024;
    assert Pow2(20) == 1024 * Pow2(10);
    assert Pow2(30) == 1024 * Pow2(20);
    assert Pow2(40) == 1024 * Pow2(30);
    assert Pow2(50) == 1024 * Pow2(40);
    assert Pow2(60) == 1024 * Pow2(50);
  }

  lemma ProductBound(a: nat, a': nat, b: nat, b': nat)
    requires 1 <= a <= a' && 1 <= b <= b'
    ensures 1 <= a <= a * b <= a' * b'
  {
    assert a * b <= a' * b && a' * b <= a' * b';
  }

  /** Sizes of the pool: the number of threads, the queue length of each, the number of jobs the pool
      takes, and the size of the result queue. Non-positive settings fall back to the number of
      processors, which may be unknown (0), and to 32. */
  method InitThreadPool(threadCount: int, workersQueueSize: int, processors: nat)
    returns (threads: nat, queueSize: nat, capacity: nat, resQueueSize: nat)
    requires threadCount <= 0x4000_0000 && workersQueueSize < 0x8000_0000 && processors <= 0x4000_0000
    ensures threads >= 2 && IsPow2(threads) && threads >= threadCount
    ensures var wanted := if threadCount <= 0 then processors else threadCount;
            if wanted > 2 then LeastPow2(wanted, threads) else threads == 2
    ensures queueSize == if workersQueueSize <= 0 then 32 else workersQueueSize
    ensures capacity == threads * queueSize && LeastPow2(capacity, resQueueSize)
    ensures forall n: nat :: Mpmc.Create<int>(resQueueSize, n).Ok?
  {
    SmallPowers();
    hide Pow2;
    var count := if threadCount <= 0 then processors else threadCount;
    threads := NextPow2(count);
    assert threads <= 0x4000_0000 by { assert IsPow2(Pow2(30)); }
    assert IsPow2(Pow2(1));
    threads := if threads < 2 then 2 else threads;
    queueSize := if workersQueueSize <= 0 then 32 else workersQueueSize;
    capacity := threads * queueSize;
    ProductBound(threads, 0x4000_0000, queueSize, 0x8000_0000);
    resQueueSize := NextPow2(capacity);
  }
}
