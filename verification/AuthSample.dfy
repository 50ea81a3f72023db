/** The authorization sample: eligible supernodes of each tier are sampled, then the number taken
    per tier is rebalanced so that shortages are filled from the highest tier with a surplus. */
module AuthSample {
  import opened Sampling

  type Id = string

  const TIERS := 4
  const ITEMS_PER_TIER := 2
  const AUTH_SAMPLE_SIZE := TIERS * ITEMS_PER_TIER
  const ANNOUNCE_TTL_SECONDS := 60 * 60
  const LIST_DELAY_BLOCK_COUNT := 10
  const TWO_64 := 0x1_0000_0000_0000_0000
  const TWO_32 := 0x1_0000_0000

  function Min(a: int, b: int): int {
    if a < b then a else b
  }

  /** The number taken from each tier, characterised without the algorithm: nobody is asked for
      more than it has, the total is as large as possible up to 8, every tier keeps its own two
      if it has them, and a tier lends extra only when all higher tiers are exhausted. */
  ghost predicate Balanced(sizes: seq<nat>, take: seq<int>) {
    && |sizes| == |take| == TIERS
    && (forall i :: 0 <= i < TIERS ==> Min(ITEMS_PER_TIER, sizes[i]) <= take[i] <= sizes[i])
    && take[0] + take[1] + take[2] + take[3] ==
       Min(AUTH_SAMPLE_SIZE, sizes[0] + sizes[1] + sizes[2] + sizes[3])
    && (forall j, k :: 0 <= j < k < TIERS && take[j] > ITEMS_PER_TIER ==> take[k] == sizes[k])
  }

  /** The characterisation leaves no freedom. */
  lemma BalancedUnique(sizes: seq<nat>, a: seq<int>, b: seq<int>)
    requires Balanced(sizes, a) && Balanced(sizes, b)
    ensures a == b
  {
    assert a[3] == b[3];
    assert a[2] == b[2];
    assert a[1] == b[1];
  }

  function Total(take: seq<int>): int
    requires |take| == TIERS
  {
    take[0] + take[1] + take[2] + take[3]
  }

  /** What the rebalancing loops keep. */
  ghost predicate Fair(sizes: seq<nat>, take: seq<int>) {
    && |sizes| == |take| == TIERS
    && (forall j :: 0 <= j < TIERS ==> take[j] >= Min(ITEMS_PER_TIER, sizes[j]))
    && (forall j :: 0 <= j < TIERS && take[j] > ITEMS_PER_TIER ==> take[j] <= sizes[j])
    && (forall j, k :: 0 <= j < k < TIERS && take[j] > ITEMS_PER_TIER ==> take[k] >= sizes[k])
    && Total(take) <= AUTH_SAMPLE_SIZE
    && (Total(take) < AUTH_SAMPLE_SIZE ==> forall j :: 0 <= j < TIERS ==> take[j] >= sizes[j])
  }

  /** Moving `n` picks from short tier i to tier j, when no higher tier has a surplus. */
  lemma TransferFair(sizes: seq<nat>, take: seq<int>, i: nat, j: nat, n: nat)
    requires Fair(sizes, take) && i < TIERS && j < TIERS && i != j
    requires 0 < n <= take[i] - sizes[i] && n <= sizes[j] - take[j]
    requires forall k :: j < k < TIERS ==> take[k] >= sizes[k]
    ensures Fair(sizes, take[i := take[i] - n][j := take[j] + n])
  {
    var take' := take[i := take[i] - n][j := take[j] + n];
    assert Total(take') == Total(take) by { MoveTotal(take, i, j, n); }
    hide Total;
  }

  lemma MoveTotal(take: seq<int>, i: nat, j: nat, n: nat)
    requires |take| == TIERS && i < TIERS && j < TIERS && i != j
    ensures Total(take[i := take[i] - n][j := take[j] + n]) == Total(take)
  {
  }

  /** Tier i has asked tiers above j and is still short by `deficit` (if positive). */
  ghost predicate Asking(sizes: seq<nat>, take: seq<int>, i: nat, j: int, deficit: int)
    requires i < TIERS
  {
    && Fair(sizes, take)
    && (forall k :: 0 <= k < i ==> take[k] <= sizes[k])
    && (forall k :: i < k < TIERS ==> take[k] >= ITEMS_PER_TIER)
    && if deficit > 0
       then deficit == take[i] - sizes[i] && forall k :: j < k < TIERS && 0 <= k ==> take[k] >= sizes[k]
       else take[i] <= sizes[i]
  }

  lemma AskTransfer(sizes: seq<nat>, take: seq<int>, take': seq<int>, i: nat, j: nat, deficit: int, n: int)
    requires i < TIERS && j < TIERS && i != j && deficit > 0 && Asking(sizes, take, i, j, deficit)
    requires sizes[j] > take[j] && n == Min(deficit, sizes[j] - take[j])
    requires take' == take[i := take[i] - n][j := take[j] + n]
    ensures Asking(sizes, take', i, j - 1, deficit - n)
  {
    TransferFair(sizes, take, i, j, n);
    forall k | 0 <= k < i ensures take'[k] <= sizes[k] {}
    forall k | i < k < TIERS ensures take'[k] >= ITEMS_PER_TIER {}
    if deficit - n > 0 {
      forall k | j - 1 < k < TIERS && 0 <= k ensures take'[k] >= sizes[k] {}
    }
  }

  /** No surplus anywhere: the remaining shortage is dropped from the sample. */
  lemma DropFair(sizes: seq<nat>, take: seq<int>, i: nat)
    requires Fair(sizes, take) && i < TIERS
    requires forall k :: 0 <= k < TIERS ==> take[k] >= sizes[k]
    ensures Fair(sizes, take[i := sizes[i]])
  {
    var take' := take[i := sizes[i]];
    assert Total(take') == Total(take) - take[i] + sizes[i];
  }

  lemma AskSkip(sizes: seq<nat>, take: seq<int>, i: nat, j: nat, deficit: int)
    requires i < TIERS && j < TIERS && deficit > 0 && Asking(sizes, take, i, j, deficit)
    requires j == i || sizes[j] <= take[j]
    ensures Asking(sizes, take, i, j - 1, deficit)
  {
  }

  lemma AskDrop(sizes: seq<nat>, take: seq<int>, i: nat, deficit: int)
    requires i < TIERS && deficit > 0 && Asking(sizes, take, i, -1, deficit)
    ensures Asking(sizes, take[i := take[i] - deficit], i, -1, 0)
  {
    DropFair(sizes, take, i);
    hide Fair;
  }

  lemma AskDone(sizes: seq<nat>, take: seq<int>, i: nat, j: int, deficit: int)
    requires i < TIERS && deficit <= 0 && Asking(sizes, take, i, j, deficit)
    ensures Asking(sizes, take, i, -1, 0)
  {
    hide Fair;
  }

  /** The inner loop: tier i, if short, looks for surplus from the highest tier down. */
  method FillDeficit(sizes: seq<nat>, select: array<int>, i: nat)
    requires select.Length == TIERS == |sizes| && i < TIERS
    requires Asking(sizes, select[..], i, TIERS - 1, select[i] - sizes[i])
    modifies select
    ensures Asking(sizes, select[..], i, -1, 0)
  {
    hide Asking;
    var deficit := select[i] - sizes[i];
    var j := TIERS - 1;
    while deficit > 0 && j >= 0
      invariant -1 <= j < TIERS
      invariant Asking(sizes, select[..], i, j, deficit)
      decreases j
    {
      ghost var before := select[..];
      if j == i || sizes[j] - select[j] <= 0 {
        AskSkip(sizes, before, i, j, deficit);
      } else {
        var transfer := Min(deficit, sizes[j] - select[j]);
        select[i] := select[i] - transfer;
        select[j] := select[j] + transfer;
        AskTransfer(sizes, before, select[..], i, j, deficit, transfer);
        deficit := deficit - transfer;
      }
      j := j - 1;
    }
    if deficit > 0 {
      AskDrop(sizes, select[..], i, deficit);
      ghost var before := select[..];
      select[i] := select[i] - deficit;
      assert select[..] == before[i := before[i] - deficit];
    } else {
      AskDone(sizes, select[..], i, j, deficit);
    }
  }

  method Rebalance(sizes: seq<nat>) returns (select: array<int>)
    requires |sizes| == TIERS
    ensures fresh(select) && Balanced(sizes, select[..])
  {
    select := new int[TIERS](_ => ITEMS_PER_TIER);
    assert Total(select[..]) == AUTH_SAMPLE_SIZE;
    for i := 0 to TIERS
      invariant select.Length == TIERS && fresh(select)
      invariant Fair(sizes, select[..])
      invariant forall j :: 0 <= j < i ==> select[j] <= sizes[j]
      invariant forall j :: i <= j < TIERS ==> select[j] >= ITEMS_PER_TIER
    {
      FillDeficit(sizes, select, i);
    }
  }

  // ----- eligibility and selection -----

  type Tier = seq<Id>

  /** The next `n` values of the seeded generator from position `at` on. */
  function Draws(rng: nat -> nat, at: nat, n: nat): seq<nat> {
    seq(n, i requires 0 <= i < n => rng(at + i))
  }

  /** Known, and announced at most an hour ago; the age is an unsigned 64-bit difference, so a
      last update in the future is never eligible. */
  predicate Eligible(list: map<Id, int>, now: nat, id: Id) {
    id in list && (now % TWO_32 - list[id]) % TWO_64 <= ANNOUNCE_TTL_SECONDS
  }

  /** For times of 32 bits: eligible means updated in the last hour, and not in the future. */
  lemma EligibleMeans(list: map<Id, int>, now: nat, id: Id)
    requires id in list && 0 <= list[id] < TWO_32 && now < TWO_32
    ensures Eligible(list, now, id) <==> 0 <= now - list[id] <= 3600
  {
    if now < list[id] {
      assert (now - list[id]) % TWO_64 == now - list[id] + TWO_64;
    }
  }

  function EligibleOf(list: map<Id, int>, now: nat, tier: Tier): (r: Tier)
    ensures forall id :: id in r <==> id in tier && Eligible(list, now, id)
    ensures multiset(r) <= multiset(tier)
  {
    if tier == [] then []
    else
      assert tier == [tier[0]] + tier[1..];
      (if Eligible(list, now, tier[0]) then [tier[0]] else []) + EligibleOf(list, now, tier[1..])
  }

  function EligibleTiers(list: map<Id, int>, now: nat, tiers: seq<Tier>): (r: seq<Tier>)
    ensures |r| == |tiers|
  {
    seq(|tiers|, i requires 0 <= i < |tiers| => EligibleOf(list, now, tiers[i]))
  }

  function EligibleMask(list: map<Id, int>, now: nat, tier: Tier): (m: seq<bool>)
    ensures |m| == |tier| && forall i :: 0 <= i < |m| ==> (m[i] <==> Eligible(list, now, tier[i]))
  {
    seq(|tier|, i requires 0 <= i < |tier| => Eligible(list, now, tier[i]))
  }

  lemma {:induction false} EligibleIsPick(list: map<Id, int>, now: nat, tier: Tier)
    ensures EligibleOf(list, now, tier) == Pick(tier, EligibleMask(list, now, tier))
  {
    hide Eligible;
    if tier != [] {
      EligibleIsPick(list, now, tier[1..]);
      MaskTail(list, now, tier);
      hide EligibleMask;
    }
  }

  lemma MaskTail(list: map<Id, int>, now: nat, tier: Tier)
    requires tier != []
    ensures EligibleMask(list, now, tier)[1..] == EligibleMask(list, now, tier[1..])
  {
    hide Eligible;
  }

  /** Filtering keeps tier i at index i, and in it the entries at the eligible positions, in order. */
  lemma EligibleEntries(list: map<Id, int>, now: nat, tiers: seq<Tier>, i: nat)
    requires i < |tiers|
    ensures var kept, at := EligibleTiers(list, now, tiers)[i], Selected(EligibleMask(list, now, tiers[i]), 0);
            && |kept| == |at|
            && (forall j :: 0 <= j < |kept| ==> at[j] < |tiers[i]| && kept[j] == tiers[i][at[j]])
            && (forall j, k :: 0 <= j < k < |at| ==> at[j] < at[k])
            && forall n :: 0 <= n < |tiers[i]| ==> (n in at <==> Eligible(list, now, tiers[i][n]))
  {
    var tier, mask := tiers[i], EligibleMask(list, now, tiers[i]);
    EligibleIsPick(list, now, tier);
    PickSubsequence(tier, mask, 0);
    assert tier[0..] == tier;
    hide Eligible;
    forall n | 0 <= n < |tier| ensures n in Selected(mask, 0) <==> Eligible(list, now, tier[n]) {
      if mask[n] { SelectedAll(mask, 0, n); }
    }
  }

  lemma AllKnown(list: map<Id, int>, now: nat, tiers: seq<Tier>)
    ensures forall i, id :: 0 <= i < |tiers| && id in EligibleTiers(list, now, tiers)[i] ==> id in list
  {
  }

  function TierAt(tiers: seq<Tier>, i: nat): Tier {
    if i < |tiers| then tiers[i] else []
  }

  /** The generator position at which tier i is sampled. */
  function Offset(tiers: seq<Tier>, i: nat): nat {
    if i == 0 then 0 else Offset(tiers, i - 1) + |TierAt(tiers, i - 1)|
  }

  /** The up to 8 entries drawn from tier i, in list order. */
  function Drawn(tiers: seq<Tier>, rng: nat -> nat, i: nat): (r: Tier)
    ensures |r| == Min(AUTH_SAMPLE_SIZE, |TierAt(tiers, i)|)
    ensures multiset(r) <= multiset(TierAt(tiers, i))
  {
    var t := TierAt(tiers, i);
    var mask := Mask(|t|, Min(AUTH_SAMPLE_SIZE, |t|), Draws(rng, Offset(tiers, i), |t|));
    MaskExact(|t|, Min(AUTH_SAMPLE_SIZE, |t|), Draws(rng, Offset(tiers, i), |t|));
    PickFacts(t, mask);
    Pick(t, mask)
  }

  lemma DrawnIs(tiers: seq<Tier>, rng: nat -> nat, i: nat)
    requires i < |tiers|
    ensures var n := |tiers[i]|;
            Drawn(tiers, rng, i) == Pick(tiers[i], Mask(n, Min(AUTH_SAMPLE_SIZE, n), Draws(rng, Offset(tiers, i), n)))
    ensures Offset(tiers, i + 1) == Offset(tiers, i) + |tiers[i]|
  {
  }

  lemma {:induction false} PickFacts<T>(s: seq<T>, mask: seq<bool>)
    requires |s| == |mask|
    ensures |Pick(s, mask)| == Trues(mask)
    ensures multiset(Pick(s, mask)) <= multiset(s)
  {
    if s != [] {
      PickFacts(s[1..], mask[1..]);
      assert s == [s[0]] + s[1..];
    }
  }

  /** The four tier samples. */
  function Drawns(tiers: seq<Tier>, rng: nat -> nat): seq<Tier> {
    [Drawn(tiers, rng, 0), Drawn(tiers, rng, 1), Drawn(tiers, rng, 2), Drawn(tiers, rng, 3)]
  }

  /** The first `n` samples are drawn, the others empty. */
  ghost predicate SampledTo(tiers: seq<Tier>, rng: nat -> nat, samples: seq<Tier>, n: nat) {
    && |samples| == TIERS
    && (forall j :: 0 <= j < n && j < TIERS ==> samples[j] == Drawn(tiers, rng, j))
    && (forall j :: n <= j < TIERS ==> samples[j] == [])
  }

  lemma SamplingStarts(tiers: seq<Tier>, rng: nat -> nat, samples: seq<Tier>)
    requires samples == seq(TIERS, _ => [])
    ensures SampledTo(tiers, rng, samples, 0) && Offset(tiers, 0) == 0
  {
    hide Drawn;
  }

  lemma SamplingStep(tiers: seq<Tier>, rng: nat -> nat, samples: seq<Tier>, n: nat)
    requires n < TIERS && SampledTo(tiers, rng, samples, n)
    ensures SampledTo(tiers, rng, samples[n := Drawn(tiers, rng, n)], n + 1)
  {
    hide Drawn;
  }

  lemma SamplingEnds(tiers: seq<Tier>, rng: nat -> nat, samples: seq<Tier>, n: nat)
    requires SampledTo(tiers, rng, samples, n) && n <= TIERS && (n < TIERS ==> n >= |tiers|)
    ensures samples == Drawns(tiers, rng)
  {
    hide Drawn;
    forall j | 0 <= j < TIERS ensures samples[j] == Drawn(tiers, rng, j) {
      if n <= j { EmptyDrawn(tiers, rng, j); }
    }
    assert samples == Drawns(tiers, rng);
  }

  lemma EmptyDrawn(tiers: seq<Tier>, rng: nat -> nat, j: nat)
    requires |tiers| <= j
    ensures Drawn(tiers, rng, j) == []
  {
    assert |Drawn(tiers, rng, j)| == 0;
  }

  function Sizes(samples: seq<Tier>): (r: seq<nat>)
    ensures |r| == |samples| && forall i :: 0 <= i < |r| ==> r[i] == |samples[i]|
  {
    seq(|samples|, i requires 0 <= i < |samples| => |samples[i]|)
  }

  function Join(samples: seq<Tier>): Tier
    requires |samples| == TIERS
  {
    samples[0] + samples[1] + samples[2] + samples[3]
  }

  function Cut(samples: seq<Tier>, take: seq<int>): Tier
    requires |samples| == |take| == TIERS && forall i :: 0 <= i < TIERS ==> 0 <= take[i] <= |samples[i]|
  {
    samples[0][..take[0]] + samples[1][..take[1]] + samples[2][..take[2]] + samples[3][..take[3]]
  }

  /** A tier sample of each of the first four tiers, cut to balanced numbers. */
  ghost predicate Sample(tiers: seq<Tier>, rng: nat -> nat, out: Tier) {
    var samples := Drawns(tiers, rng);
    exists take: seq<int> :: Balanced(Sizes(samples), take) && out == Cut(samples, take)
  }

  function FirstFour(tiers: seq<Tier>): Tier {
    Join([TierAt(tiers, 0), TierAt(tiers, 1), TierAt(tiers, 2), TierAt(tiers, 3)])
  }

  lemma PrefixFacts<T>(s: seq<T>, n: int)
    requires 0 <= n <= |s|
    ensures multiset(s[..n]) <= multiset(s)
  {
    assert s == s[..n] + s[n..];
  }

  lemma CutFacts(samples: seq<Tier>, take: seq<int>)
    requires |samples| == |take| == TIERS && forall i :: 0 <= i < TIERS ==> 0 <= take[i] <= |samples[i]|
    ensures |Cut(samples, take)| == Total(take)
    ensures multiset(Cut(samples, take)) <= multiset(Join(samples))
  {
    PrefixFacts(samples[0], take[0]);
    PrefixFacts(samples[1], take[1]);
    PrefixFacts(samples[2], take[2]);
    PrefixFacts(samples[3], take[3]);
  }

  /** The sample is as large as it can be up to 8, and uses no list position twice. */
  lemma SampleFacts(tiers: seq<Tier>, rng: nat -> nat, out: Tier)
    requires Sample(tiers, rng, out)
    ensures |out| == Min(AUTH_SAMPLE_SIZE, |FirstFour(tiers)|)
    ensures multiset(out) <= multiset(FirstFour(tiers))
  {
    hide Drawn;
    hide Balanced;
    hide Cut;
    hide Join;
    hide TierAt;
    CutOfTiers(Drawns(tiers, rng), [TierAt(tiers, 0), TierAt(tiers, 1), TierAt(tiers, 2), TierAt(tiers, 3)], out);
  }

  lemma CutOfTiers(samples: seq<Tier>, tiers: seq<Tier>, out: Tier)
    requires |samples| == |tiers| == TIERS
    requires forall i :: 0 <= i < TIERS ==> |samples[i]| == Min(AUTH_SAMPLE_SIZE, |tiers[i]|)
    requires forall i :: 0 <= i < TIERS ==> multiset(samples[i]) <= multiset(tiers[i])
    requires exists take: seq<int> :: Balanced(Sizes(samples), take) && out == Cut(samples, take)
    ensures |out| == Min(AUTH_SAMPLE_SIZE, |Join(tiers)|)
    ensures multiset(out) <= multiset(Join(tiers))
  {
    var take: seq<int> :| Balanced(Sizes(samples), take) && out == Cut(samples, take);
    CutFacts(samples, take);
    JoinMono(samples, tiers);
    BalancedTotal(samples, tiers, take);
  }

  lemma JoinMono(a: seq<Tier>, b: seq<Tier>)
    requires |a| == |b| == TIERS && forall i :: 0 <= i < TIERS ==> multiset(a[i]) <= multiset(b[i])
    ensures multiset(Join(a)) <= multiset(Join(b))
  {
  }

  lemma BalancedTotal(samples: seq<Tier>, tiers: seq<Tier>, take: seq<int>)
    requires |samples| == |tiers| == TIERS && Balanced(Sizes(samples), take)
    requires forall i :: 0 <= i < TIERS ==> |samples[i]| == Min(AUTH_SAMPLE_SIZE, |tiers[i]|)
    ensures Total(take) == Min(AUTH_SAMPLE_SIZE, |Join(tiers)|)
  {
  }

  /** Where the entries taken from tier i begin. */
  function Start(take: seq<int>, i: nat): int
    requires |take| == TIERS && i <= TIERS
  {
    if i == 0 then 0 else Start(take, i - 1) + take[i - 1]
  }

  lemma Starts(take: seq<int>)
    requires |take| == TIERS
    ensures Start(take, 0) == 0 && Start(take, 1) == take[0] && Start(take, 2) == take[0] + take[1]
    ensures Start(take, 3) == take[0] + take[1] + take[2] && Start(take, 4) == take[0] + take[1] + take[2] + take[3]
  {
    assert Start(take, 1) == Start(take, 0) + take[0];
    assert Start(take, 2) == Start(take, 1) + take[1];
    assert Start(take, 3) == Start(take, 2) + take[2];
    assert Start(take, 4) == Start(take, 3) + take[3];
  }

  lemma CutEntries(samples: seq<Tier>, take: seq<int>, i: nat, j: int)
    requires |samples| == |take| == TIERS && (forall k :: 0 <= k < TIERS ==> 0 <= take[k] <= |samples[k]|)
    requires i < TIERS && 0 <= j < take[i]
    ensures 0 <= Start(take, i) + j < |Cut(samples, take)|
    ensures Cut(samples, take)[Start(take, i) + j] == samples[i][j]
  {
    Starts(take);
    hide Start;
  }

  /** The positions of tier i that are drawn: those of the selection rule, with as many values of the
      generator as the tier has entries, after those for the tiers before. */
  function Positions(tiers: seq<Tier>, rng: nat -> nat, i: nat): seq<nat> {
    var n := |TierAt(tiers, i)|;
    Selected(Mask(n, Min(AUTH_SAMPLE_SIZE, n), Draws(rng, Offset(tiers, i), n)), 0)
  }

  lemma DrawnEntries(tiers: seq<Tier>, rng: nat -> nat, i: nat)
    ensures |Drawn(tiers, rng, i)| == |Positions(tiers, rng, i)|
    ensures forall j :: 0 <= j < |Drawn(tiers, rng, i)| ==>
              Positions(tiers, rng, i)[j] < |TierAt(tiers, i)| &&
              Drawn(tiers, rng, i)[j] == TierAt(tiers, i)[Positions(tiers, rng, i)[j]]
    ensures forall j, k :: 0 <= j < k < |Positions(tiers, rng, i)| ==>
              Positions(tiers, rng, i)[j] < Positions(tiers, rng, i)[k]
  {
    var t := TierAt(tiers, i);
    PickSubsequence(t, Mask(|t|, Min(AUTH_SAMPLE_SIZE, |t|), Draws(rng, Offset(tiers, i), |t|)), 0);
    assert t[0..] == t;
  }

  /** Where the generator stands when tier i is sampled. */
  lemma DrawsUsed(tiers: seq<Tier>)
    ensures Offset(tiers, 0) == 0 && Offset(tiers, 1) == |TierAt(tiers, 0)|
    ensures Offset(tiers, 2) == |TierAt(tiers, 0)| + |TierAt(tiers, 1)|
    ensures Offset(tiers, 3) == |TierAt(tiers, 0)| + |TierAt(tiers, 1)| + |TierAt(tiers, 2)|
  {
  }

  /** Entry j taken from tier i is the entry of that tier at the j-th drawn position. */
  ghost predicate EntryIs(tiers: seq<Tier>, rng: nat -> nat, out: Tier, take: seq<int>, i: nat, j: int) {
    && |take| == TIERS && i < TIERS
    && 0 <= Start(take, i) + j < |out| && 0 <= j < |Positions(tiers, rng, i)|
    && Positions(tiers, rng, i)[j] < |TierAt(tiers, i)|
    && out[Start(take, i) + j] == TierAt(tiers, i)[Positions(tiers, rng, i)[j]]
  }

  ghost predicate AllEntries(tiers: seq<Tier>, rng: nat -> nat, out: Tier, take: seq<int>) {
    && |take| == TIERS && |out| == Start(take, TIERS)
    && forall i: nat, j :: i < TIERS && 0 <= j < take[i] ==> EntryIs(tiers, rng, out, take, i, j)
  }

  lemma EntryOfCut(tiers: seq<Tier>, rng: nat -> nat, samples: seq<Tier>, take: seq<int>, i: nat, j: int)
    requires |samples| == |take| == TIERS && (forall k :: 0 <= k < TIERS ==> 0 <= take[k] <= |samples[k]|)
    requires i < TIERS && 0 <= j < take[i] && samples[i] == Drawn(tiers, rng, i)
    ensures EntryIs(tiers, rng, Cut(samples, take), take, i, j)
  {
    DrawnEntries(tiers, rng, i);
    hide Drawn;
    hide Positions;
    CutEntries(samples, take, i, j);
    hide Cut;
    hide Start;
  }

  lemma StartTotal(take: seq<int>)
    requires |take| == TIERS
    ensures Start(take, TIERS) == Total(take)
  {
    Starts(take);
    hide Start;
  }

  lemma AllOfCut(tiers: seq<Tier>, rng: nat -> nat, samples: seq<Tier>, take: seq<int>)
    requires |samples| == |take| == TIERS && (forall k :: 0 <= k < TIERS ==> 0 <= take[k] <= |samples[k]|)
    requires forall k :: 0 <= k < TIERS ==> samples[k] == Drawn(tiers, rng, k)
    ensures AllEntries(tiers, rng, Cut(samples, take), take)
  {
    hide Drawn;
    CutFacts(samples, take);
    StartTotal(take);
    hide Cut;
    hide Total;
    hide Start;
    hide EntryIs;
    forall i: nat, j | i < TIERS && 0 <= j < take[i] ensures EntryIs(tiers, rng, Cut(samples, take), take, i, j) {
      EntryOfCut(tiers, rng, samples, take, i, j);
    }
  }

  /** The sample entry by entry, in order: tier after tier, each contributes its first drawn entries, as
      many as the balanced numbers say. */
  lemma SampleEntries(tiers: seq<Tier>, rng: nat -> nat, out: Tier)
    requires Sample(tiers, rng, out)
    ensures exists take :: Balanced(Sizes(Drawns(tiers, rng)), take) && AllEntries(tiers, rng, out, take)
  {
    hide Drawn;
    hide AllEntries;
    var samples := Drawns(tiers, rng);
    var take: seq<int> :| Balanced(Sizes(samples), take) && out == Cut(samples, take);
    AllOfCut(tiers, rng, samples, take);
    hide Balanced;
    hide Cut;
  }

  function Truncate(out: Tier): (r: Tier)
    ensures |out| <= AUTH_SAMPLE_SIZE ==> r == out
    ensures |r| <= AUTH_SAMPLE_SIZE
  {
    if |out| > AUTH_SAMPLE_SIZE then out[..AUTH_SAMPLE_SIZE] else out
  }

  /** If no id is listed twice in the first four tiers, none is sampled twice. */
  lemma NoRepeats(tiers: seq<Tier>, rng: nat -> nat, out: Tier)
    requires Sample(tiers, rng, out)
    requires forall id :: multiset(FirstFour(tiers))[id] <= 1
    ensures forall i, j :: 0 <= i < j < |out| ==> out[i] != out[j]
  {
    SampleFacts(tiers, rng, out);
    hide Sample;
    hide FirstFour;
    OnceEach(out, multiset(FirstFour(tiers)));
  }

  lemma OnceEach<T>(s: seq<T>, all: multiset<T>)
    requires multiset(s) <= all && forall x :: all[x] <= 1
    ensures forall i, j :: 0 <= i < j < |s| ==> s[i] != s[j]
  {
    forall i, j | 0 <= i < j < |s| ensures s[i] != s[j] {
      assert s == s[..j] + [s[j]] + s[j + 1..];
      assert multiset(s)[s[j]] <= all[s[j]] <= 1;
      assert s[i] in s[..j];
    }
  }

  lemma CutIsSample(tiers: seq<Tier>, rng: nat -> nat, take: seq<int>)
    requires Balanced(Sizes(Drawns(tiers, rng)), take)
    ensures forall i :: 0 <= i < TIERS ==> 0 <= take[i] <= |Drawns(tiers, rng)[i]|
    ensures Sample(tiers, rng, Cut(Drawns(tiers, rng), take))
  {
    hide Drawn;
  }

  /** What is still to be taken from position i on, when `k` are wanted. */
  function Rest(src: Tier, draws: seq<nat>, i: nat, k: nat): (r: Tier)
    requires i <= |src| == |draws| && k <= |src| - i
    ensures i == |src| ==> r == []
    ensures i == 0 ==> r == Pick(src, Mask(|src|, k, draws))
  {
    assert src[0..] == src && draws[0..] == draws;
    Pick(src[i..], Mask(|src| - i, k, draws[i..]))
  }

  lemma SelectStep(src: Tier, draws: seq<nat>, i: nat, k: nat)
    requires i < |src| == |draws| && k <= |src| - i
    ensures var taken := draws[i] % (|src| - i) < k;
            && (!taken ==> k < |src| - i)
            && Rest(src, draws, i, k) ==
               (if taken then [src[i]] else []) + Rest(src, draws, i + 1, if taken then k - 1 else k)
  {
    var taken := draws[i] % (|src| - i) < k;
    var tail := Mask(|src| - i - 1, if taken then k - 1 else k, draws[i + 1..]);
    assert draws[i..][1..] == draws[i + 1..] && src[i..][1..] == src[i + 1..];
    assert Mask(|src| - i, k, draws[i..])[1..] == tail;
  }

  class FullSupernodeList {
    var list: map<Id, int>                 // last update time of every known supernode
    var lists: map<nat, seq<Tier>>         // blockchain based lists by block number
    var drawn: nat                         // values taken from the generator since seeding

    constructor ()
      ensures list == map[] && lists == map[]
    {
      list, lists, drawn := map[], map[], 0;
    }

    /** Takes min(itemsCount, n) of the n entries; fails exactly if some entry is unknown. */
    method SelectSupernodes(itemsCount: nat, src: Tier, rng: nat -> nat) returns (ok: bool, dst: Tier)
      modifies this`drawn
      ensures ok <==> forall id :: id in src ==> id in list
      ensures ok ==> drawn == old(drawn) + |src|
      ensures ok ==> dst == Pick(src, Mask(|src|, Min(itemsCount, |src|), Draws(rng, old(drawn), |src|)))
    {
      hide Rest;
      hide Mask;
      hide Pick;
      var n := |src|;
      var count: nat := itemsCount;
      if count > n { count := n; }
      dst := [];
      ghost var start, draws := drawn, Draws(rng, drawn, n);
      ghost var goal := Rest(src, draws, 0, count);
      for i := 0 to n
        invariant drawn == start + i && count <= n - i
        invariant forall j :: 0 <= j < i ==> src[j] in list
        invariant dst + Rest(src, draws, i, count) == goal
      {
        if src[i] !in list {
          return false, dst;
        }
        var random := rng(drawn);
        drawn := drawn + 1;
        random := random % (n - i);
        SelectStep(src, draws, i, count);
        assert draws[i] % (n - i) == random;
        if random < count {
          dst := dst + [src[i]];
          count := count - 1;
        }
      }
      ok := true;
    }

    /** The list for the block with ineligible entries removed, and the block number it counts
        for; 0 if there is none. */
    method ListForAuthSample(block: nat, now: nat) returns (number: nat, tiers: seq<Tier>)
      ensures number == if block in lists then (block - LIST_DELAY_BLOCK_COUNT) % TWO_64 else 0
      ensures tiers == if block in lists then EligibleTiers(list, now, lists[block]) else []
    {
      number := (block - LIST_DELAY_BLOCK_COUNT) % TWO_64;
      if block !in lists {
        return 0, [];
      }
      tiers := EligibleTiers(list, now, lists[block]);
    }

    /** Samples the first four tiers, one after the other from the same generator. */
    method SampleTiers(tiers: seq<Tier>, rng: nat -> nat) returns (samples: seq<Tier>)
      requires drawn == 0 && forall i, id :: 0 <= i < |tiers| && id in tiers[i] ==> id in list
      modifies this`drawn
      ensures |samples| == TIERS && samples == Drawns(tiers, rng)
    {
      hide Drawn;
      hide Draws;
      hide Offset;
      hide Pick;
      hide Mask;
      samples := seq(TIERS, _ => []);
      var i := 0;
      SamplingStarts(tiers, rng, samples);
      hide SampledTo;
      while i < TIERS && i < |tiers|
        invariant 0 <= i <= TIERS && i <= |tiers| && drawn == Offset(tiers, i)
        invariant |samples| == TIERS && SampledTo(tiers, rng, samples, i)
      {
        DrawnIs(tiers, rng, i);
        var found, tier := SelectSupernodes(AUTH_SAMPLE_SIZE, tiers[i], rng);
        assert found by { assert forall id :: id in tiers[i] ==> id in list; }
        SamplingStep(tiers, rng, samples, i);
        samples := samples[i := tier];
        i := i + 1;
      }
      SamplingEnds(tiers, rng, samples, i);
    }

    /** `rng` is the generator as seeded from the payment id. The sample succeeds exactly if at
        least 8 entries of the first four tiers are eligible; the final truncation to 8 never bites. */
    method BuildAuthSample(height: nat, now: nat, rng: nat -> nat) returns (ok: bool, out: Tier, block: nat)
      modifies this`drawn
      ensures block == if height in lists then (height - LIST_DELAY_BLOCK_COUNT) % TWO_64 else 0
      ensures block == 0 ==> !ok && out == []
      ensures block != 0 ==>
                var tiers := EligibleTiers(list, now, lists[height]);
                Sample(tiers, rng, out) && (ok <==> |FirstFour(tiers)| >= AUTH_SAMPLE_SIZE)
    {
      hide Sample;
      hide Balanced;
      hide Drawns;
      hide Cut;
      hide FirstFour;
      hide EligibleTiers;
      var tiers;
      block, tiers := ListForAuthSample(height, now);
      if block == 0 {
        return false, [], 0;
      }
      drawn := 0;
      AllKnown(list, now, lists[height]);
      var samples := SampleTiers(tiers, rng);
      var select := Rebalance(Sizes(samples));
      var take := select[..];
      CutIsSample(tiers, rng, take);
      out := Cut(samples, take);
      SampleFacts(tiers, rng, out);
      out := Truncate(out);
      ok := |out| == AUTH_SAMPLE_SIZE;
    }
  }
}
