/** The bounded multi-producer multi-consumer queue as a transition system: any number of
    threads, each executing `push` and `pop` one atomic access at a time, interleaved by an
    arbitrary schedule. Atomics are sequentially consistent and counters unbounded. */
module MpmcQueue {
  import opened Bits

  datatype Slot<V> = Vacant | Full(value: V)

  datatype Cell<V> = Cell(sequence: nat, data: Slot<V>)

  /** Where a thread stands between two atomic accesses. */
  datatype Pc<V> =
    | Idle
    | PushPos(v: V, pos: nat)             // position read, cell sequence not yet
    | PushSeq(v: V, pos: nat, q: nat)     // cell sequence read
    | PushOwn(v: V, pos: nat)             // ticket `pos` won, data not yet written
    | PushFilled(v: V, pos: nat)          // data written, sequence not yet published
    | PopPos(pos: nat)
    | PopSeq(pos: nat, q: nat)
    | PopOwn(pos: nat)                    // ticket `pos` won, data not yet read
    | PopRead(pos: nat, d: Slot<V>)       // data moved out, sequence not yet published

  datatype Op<V> = Push(v: V) | Pop

  /** One scheduler decision: which thread moves, what it starts if idle, and whether a weak
      compare-exchange that could succeed fails spuriously. */
  datatype Move<V> = Move(thread: nat, op: Op<V>, spurious: bool)

  /** `mask`, `cells`, `enq`, `deq` are the queue; `threads` the program counters. The rest is
      history: the value brought by each push ticket, the pops that returned true as
      (ticket, data), the number of pushes begun and of pushes that returned false. */
  datatype State<V> = State(
    bits: nat, mask: nat, cells: seq<Cell<V>>, enq: nat, deq: nat, threads: seq<Pc<V>>,
    claimed: seq<V>, log: seq<(nat, Slot<V>)>, begun: nat, failed: nat)

  datatype Result<T> = Ok(value: T) | InvalidArgument

  predicate Sized<V>(s: State<V>) {
    s.bits >= 1 && |s.cells| == Pow2(s.bits) && s.mask == Pow2(s.bits) - 1
  }

  /** `pos & m_buffer_mask` */
  function Index<V>(s: State<V>, pos: nat): (i: nat)
    requires Sized(s)
    ensures i < |s.cells|
  {
    MaskPeriodic(pos, s.bits);
    And(pos, s.mask)
  }

  /** The constructor: rejects sizes that are not powers of two, numbers the cells. */
  ghost function Create<V>(size: nat, threads: nat): (r: Result<State<V>>)
    ensures r.InvalidArgument? <==> size < 2 || !IsPow2(size)
    ensures r.Ok? ==> Inv(r.value) && |r.value.cells| == size && |r.value.threads| == threads
  {
    if size >= 2 && And(size, size - 1) == 0 then
      Pow2Test(size);
      var k: nat :| size == Pow2(k);
      var s := State(k, size - 1, seq(size, i requires 0 <= i => Cell(i, Vacant)), 0, 0,
                     seq(threads, _ => Idle), [], [], 0, 0);
      InitInv(s);
      Ok(s)
    else
      if size >= 1 then Pow2Test(size); InvalidArgument else InvalidArgument
  }

  function SetThread<V>(s: State<V>, t: nat, pc: Pc<V>): State<V>
    requires t < |s.threads|
  {
    s.(threads := s.threads[t := pc])
  }

  function SetCell<V>(s: State<V>, pos: nat, c: Cell<V>): State<V>
    requires Sized(s)
  {
    s.(cells := s.cells[Index(s, pos) := c])
  }

  /** The next atomic access of the scheduled thread. */
  function Step<V>(s: State<V>, m: Move<V>): State<V>
    requires Sized(s) && m.thread < |s.threads|
  {
    var t := m.thread;
    match s.threads[t]
    case Idle => (
      match m.op
      case Push(v) => SetThread(s, t, PushPos(v, s.enq)).(begun := s.begun + 1)
      case Pop => SetThread(s, t, PopPos(s.deq)))
    case PushPos(v, pos) => SetThread(s, t, PushSeq(v, pos, s.cells[Index(s, pos)].sequence))
    case PushSeq(v, pos, q) =>
      if q == pos then
        if s.enq == pos && !m.spurious then
          SetThread(s, t, PushOwn(v, pos)).(enq := pos + 1, claimed := s.claimed + [v])
        else SetThread(s, t, PushPos(v, s.enq))
      else if q < pos then SetThread(s, t, Idle).(failed := s.failed + 1)
      else SetThread(s, t, PushPos(v, s.enq))
    case PushOwn(v, pos) =>
      SetCell(SetThread(s, t, PushFilled(v, pos)), pos, s.cells[Index(s, pos)].(data := Full(v)))
    case PushFilled(v, pos) =>
      SetCell(SetThread(s, t, Idle), pos, s.cells[Index(s, pos)].(sequence := pos + 1))
    case PopPos(pos) => SetThread(s, t, PopSeq(pos, s.cells[Index(s, pos)].sequence))
    case PopSeq(pos, q) =>
      if q == pos + 1 then
        if s.deq == pos && !m.spurious then SetThread(s, t, PopOwn(pos)).(deq := pos + 1)
        else SetThread(s, t, PopPos(s.deq))
      else if q < pos + 1 then SetThread(s, t, Idle)
      else SetThread(s, t, PopPos(s.deq))
    case PopOwn(pos) =>
      var cell := s.cells[Index(s, pos)];
      SetCell(SetThread(s, t, PopRead(pos, cell.data)), pos, cell.(data := Vacant))
    case PopRead(pos, d) =>
      SetCell(SetThread(s, t, Idle), pos, s.cells[Index(s, pos)].(sequence := pos + s.mask + 1))
        .(log := s.log + [(pos, d)])
  }

  // ----- the ticket/sequence invariant -----

  predicate Pushing<V>(pc: Pc<V>, p: nat) {
    (pc.PushOwn? || pc.PushFilled?) && pc.pos == p
  }

  predicate Popping<V>(pc: Pc<V>, p: nat) {
    (pc.PopOwn? || pc.PopRead?) && pc.pos == p
  }

  ghost predicate SomePushing<V>(s: State<V>, p: nat) {
    exists t :: 0 <= t < |s.threads| && Pushing(s.threads[t], p)
  }

  ghost predicate SomePopping<V>(s: State<V>, p: nat) {
    exists t :: 0 <= t < |s.threads| && Popping(s.threads[t], p)
  }

  /** The cell waits for (or is being written under) push ticket `q`. */
  ghost predicate Free<V>(s: State<V>, q: nat)
    requires Sized(s)
  {
    s.deq <= q < s.deq + |s.cells| && s.enq <= q + |s.cells| && (q < s.enq ==> SomePushing(s, q))
  }

  /** The cell holds (or is being emptied of) the published value of ticket `p`. */
  ghost predicate Held<V>(s: State<V>, p: nat)
    requires Sized(s)
  {
    && p < s.enq <= p + |s.cells|
    && p < s.deq + |s.cells| && s.deq <= p + |s.cells|
    && p < |s.claimed|
    && (p < s.deq ==> SomePopping(s, p))
    && (p >= s.deq ==> s.cells[Index(s, p)].data == Full(s.claimed[p]))
  }

  ghost predicate CellOk<V>(s: State<V>, i: nat)
    requires Sized(s) && i < |s.cells|
  {
    var q := s.cells[i].sequence;
    || (Index(s, q) == i && Free(s, q))
    || (q > 0 && Index(s, q - 1) == i && Held(s, q - 1))
  }

  ghost predicate ThreadOk<V>(s: State<V>, pc: Pc<V>)
    requires Sized(s) && |s.claimed| == s.enq
  {
    match pc
    case Idle => true
    case PushPos(_, pos) => pos <= s.enq
    case PushSeq(_, pos, q) => pos <= s.enq && q <= s.cells[Index(s, pos)].sequence
    case PushOwn(v, pos) =>
      pos < s.enq && s.claimed[pos] == v && s.cells[Index(s, pos)].sequence == pos
    case PushFilled(v, pos) =>
      pos < s.enq && s.claimed[pos] == v && s.cells[Index(s, pos)] == Cell(pos, Full(v))
    case PopPos(pos) => pos <= s.deq
    case PopSeq(pos, q) => pos <= s.deq && q <= s.cells[Index(s, pos)].sequence
    case PopOwn(pos) =>
      pos < s.deq <= s.enq && s.cells[Index(s, pos)] == Cell(pos + 1, Full(s.claimed[pos]))
    case PopRead(pos, d) =>
      pos < s.deq <= s.enq && s.cells[Index(s, pos)].sequence == pos + 1 && d == Full(s.claimed[pos])
  }

  /** The cell a thread may write to: the one of the ticket it won. */
  ghost predicate Owns<V>(s: State<V>, t: nat, i: nat)
    requires Sized(s) && t < |s.threads|
  {
    var pc := s.threads[t];
    (pc.PushOwn? || pc.PushFilled? || pc.PopOwn? || pc.PopRead?) && Index(s, pc.pos) == i
  }

  /** No two threads ever own the same cell. */
  ghost predicate Exclusive<V>(s: State<V>)
    requires Sized(s)
  {
    forall t, u, i :: 0 <= t < |s.threads| && 0 <= u < |s.threads| && Owns(s, t, i) && Owns(s, u, i) ==> t == u
  }

  /** A pop ticket that returned did so once, with the value pushed under the same ticket; a pop
      ticket won but not returned is still in some thread's hands. */
  ghost predicate LogOk<V>(s: State<V>)
    requires |s.claimed| == s.enq && s.deq <= s.enq
  {
    && (forall j :: 0 <= j < |s.log| ==> s.log[j].0 < s.deq && s.log[j].1 == Full(s.claimed[s.log[j].0]))
    && (forall i, j :: 0 <= i < j < |s.log| ==> s.log[i].0 != s.log[j].0)
    && (forall j, t :: 0 <= j < |s.log| && 0 <= t < |s.threads| ==> !Popping(s.threads[t], s.log[j].0))
    && (forall p :: 0 <= p < s.deq ==> Logged(s, p) || SomePopping(s, p))
  }

  ghost predicate Logged<V>(s: State<V>, p: nat) {
    exists j :: 0 <= j < |s.log| && s.log[j].0 == p
  }

  function Searching<V>(threads: seq<Pc<V>>): nat {
    if threads == [] then 0
    else Searching(threads[..|threads| - 1]) +
         if IsSearching(threads[|threads| - 1]) then 1 else 0
  }

  ghost predicate Inv<V>(s: State<V>) {
    && Sized(s)
    && s.deq <= s.enq
    && |s.claimed| == s.enq
    && (forall i :: 0 <= i < |s.cells| ==> CellOk(s, i))
    && (forall t :: 0 <= t < |s.threads| ==> ThreadOk(s, s.threads[t]))
    && Exclusive(s)
    && LogOk(s)
    && s.begun == s.enq + s.failed + Searching(s.threads)
  }

  lemma InitInv<V>(s: State<V>)
    requires Sized(s) && s.enq == s.deq == s.begun == s.failed == 0 && s.claimed == [] && s.log == []
    requires forall i :: 0 <= i < |s.cells| ==> s.cells[i] == Cell(i, Vacant)
    requires forall t :: 0 <= t < |s.threads| ==> s.threads[t] == Idle
    ensures Inv(s)
  {
    forall i | 0 <= i < |s.cells| ensures CellOk(s, i) { MaskPeriodic(i, s.bits); }
    NoneSearching(s.threads);
  }

  lemma {:induction false} NoneSearching<V>(threads: seq<Pc<V>>)
    requires forall t :: 0 <= t < |threads| ==> threads[t].Idle?
    ensures Searching(threads) == 0
  {
    if threads != [] { NoneSearching(threads[..|threads| - 1]); }
  }

  predicate IsSearching<V>(pc: Pc<V>) {
    pc.PushPos? || pc.PushSeq?
  }

  lemma {:induction false} SearchingUpdate<V>(threads: seq<Pc<V>>, t: nat, pc: Pc<V>)
    requires t < |threads|
    ensures Searching(threads[t := pc]) ==
            Searching(threads) - (if IsSearching(threads[t]) then 1 else 0) + (if IsSearching(pc) then 1 else 0)
  {
    var n := |threads| - 1;
    if t < n {
      SearchingUpdate(threads[..n], t, pc);
      assert threads[t := pc][..n] == threads[..n][t := pc];
    } else {
      assert threads[t := pc][..n] == threads[..n];
    }
  }

  lemma {:induction false} SearchingPositive<V>(threads: seq<Pc<V>>, t: nat)
    requires t < |threads| && IsSearching(threads[t])
    ensures Searching(threads) >= 1
  {
    SearchingUpdate(threads, t, Idle);
  }

  /** Positions that share a cell are equal or at least a lap apart, and one lap on is the same cell. */
  lemma SameCell<V>(s: State<V>, p: nat, q: nat)
    requires Sized(s)
    ensures Index(s, p + |s.cells|) == Index(s, p)
    ensures Index(s, p) == Index(s, q) ==> p == q || p + |s.cells| <= q || q + |s.cells| <= p
    ensures |s.cells| >= 2
  {
    MaskPeriodic(p, s.bits);
    assert Pow2(s.bits) >= 2;
    if Index(s, p) == Index(s, q) {
      if p < q { MaskGap(p, q, s.bits); }
      if q < p { MaskGap(q, p, s.bits); }
    }
  }

  /** A ticket whose position counter has not moved on and whose cell sequence was seen equal to
      it still finds the cell that way at the compare-exchange. */
  lemma CellAtPush<V>(s: State<V>, pos: nat)
    requires Inv(s) && s.enq == pos && s.cells[Index(s, pos)].sequence >= pos
    ensures s.cells[Index(s, pos)].sequence == pos && Free(s, pos)
  {
    var q := s.cells[Index(s, pos)].sequence;
    assert CellOk(s, Index(s, pos));
    SameCell(s, q, pos);
    if q > 0 { SameCell(s, q - 1, pos); }
  }

  lemma CellAtPop<V>(s: State<V>, pos: nat)
    requires Inv(s) && s.deq == pos && s.cells[Index(s, pos)].sequence >= pos + 1
    ensures s.cells[Index(s, pos)].sequence == pos + 1 && Held(s, pos)
  {
    var q := s.cells[Index(s, pos)].sequence;
    assert CellOk(s, Index(s, pos));
    SameCell(s, q, pos);
    if q > 0 { SameCell(s, q - 1, pos); }
  }

  // ----- every atomic access keeps the invariant -----

  /** Accesses that change no cell and win or give up no ticket. */
  lemma LocalMoveInv<V>(s: State<V>, s': State<V>, t: nat, pc: Pc<V>)
    requires Inv(s) && t < |s.threads|
    requires var b := s.threads[t]; b.Idle? || b.PushPos? || b.PushSeq? || b.PopPos? || b.PopSeq?
    requires pc.Idle? || pc.PushPos? || pc.PushSeq? || pc.PopPos? || pc.PopSeq?
    requires ThreadOk(s, pc)
    requires s' == s.(threads := s.threads[t := pc], begun := s'.begun, failed := s'.failed)
    requires s'.begun == s'.enq + s'.failed + Searching(s'.threads)
    ensures Inv(s')
  {
    KeepOthers(s, s', t);
    forall u | 0 <= u < |s'.threads| ensures ThreadOk(s', s'.threads[u]) {
      assert ThreadOk(s, s.threads[u]);
    }
  }

  /** While thread `t` holds no ticket before or after, every ticket in other hands stays there. */
  lemma KeepOthers<V>(s: State<V>, s': State<V>, t: nat)
    requires Inv(s) && t < |s.threads| && Sized(s') && s'.bits == s.bits
    requires s'.cells == s.cells && s'.enq == s.enq && s'.deq == s.deq && s'.claimed == s.claimed && s'.log == s.log
    requires |s'.threads| == |s.threads|
    requires forall u :: 0 <= u < |s.threads| && u != t ==> s'.threads[u] == s.threads[u]
    requires forall p :: !Pushing(s.threads[t], p) && !Popping(s.threads[t], p)
    requires forall p :: !Pushing(s'.threads[t], p) && !Popping(s'.threads[t], p)
    ensures forall i :: 0 <= i < |s'.cells| ==> CellOk(s', i)
    ensures Exclusive(s') && LogOk(s')
  {
    forall p | SomePushing(s, p) ensures SomePushing(s', p) {
      var u :| 0 <= u < |s.threads| && Pushing(s.threads[u], p);
      assert Pushing(s'.threads[u], p);
    }
    forall p | SomePopping(s, p) ensures SomePopping(s', p) {
      var u :| 0 <= u < |s.threads| && Popping(s.threads[u], p);
      assert Popping(s'.threads[u], p);
    }
    forall i | 0 <= i < |s'.cells| ensures CellOk(s', i) { assert CellOk(s, i); }
    forall a, b, i | 0 <= a < |s'.threads| && 0 <= b < |s'.threads| && Owns(s', a, i) && Owns(s', b, i)
      ensures a == b
    {
      assert !Pushing(s'.threads[t], s'.threads[a].pos) && !Popping(s'.threads[t], s'.threads[a].pos);
      assert !Pushing(s'.threads[t], s'.threads[b].pos) && !Popping(s'.threads[t], s'.threads[b].pos);
      assert a != t && b != t;
      assert Owns(s, a, i) && Owns(s, b, i);
    }
    forall p | 0 <= p < s'.deq ensures Logged(s', p) || SomePopping(s', p) {
      if Logged(s, p) { assert Logged(s', p); }
    }
  }

  /** Winning push ticket `s.enq`: the cells. */
  lemma ClaimPushCells<V>(s: State<V>, s': State<V>, t: nat, v: V)
    requires Inv(s) && t < |s.threads| && s.threads[t] == PushSeq(v, s.enq, s.enq)
    requires s' == s.(threads := s.threads[t := PushOwn(v, s.enq)], enq := s.enq + 1, claimed := s.claimed + [v])
    ensures forall i :: 0 <= i < |s'.cells| ==> CellOk(s', i)
  {
    assert ThreadOk(s, s.threads[t]);
    CellAtPush(s, s.enq);
    assert Pushing(s'.threads[t], s.enq);
    Handover(s, s', t);
    hide ThreadOk;
    hide SomePopping;
    assert SomePushing(s', s.enq);
    hide SomePushing;
    forall i | 0 <= i < |s'.cells| ensures CellOk(s', i) {
      assert CellOk(s, i);
      ClaimedCell(s, s', i, v);
    }
  }

  /** One cell when push ticket `s.enq` is won. */
  lemma ClaimedCell<V>(s: State<V>, s': State<V>, i: nat, v: V)
    requires Sized(s) && |s.claimed| == s.enq && i < |s.cells| && CellOk(s, i)
    requires s.cells[Index(s, s.enq)].sequence == s.enq
    requires s' == s.(threads := s'.threads, enq := s.enq + 1, claimed := s.claimed + [v])
    requires forall p :: SomePushing(s, p) || p == s.enq ==> SomePushing(s', p)
    requires forall p :: SomePopping(s, p) ==> SomePopping(s', p)
    ensures CellOk(s', i)
  {
    hide SomePushing;
    hide SomePopping;
    var q := s.cells[i].sequence;
    SameCell(s, q, s.enq);
    if q > 0 { SameCell(s, q - 1, s.enq); }
    assert Index(s, q) == Index(s', q) && (q > 0 ==> Index(s, q - 1) == Index(s', q - 1));
  }

  /** Winning push ticket `s.enq`: the threads and the log. */
  lemma ClaimPushThreads<V>(s: State<V>, s': State<V>, t: nat, v: V)
    requires Inv(s) && t < |s.threads| && s.threads[t] == PushSeq(v, s.enq, s.enq)
    requires s' == s.(threads := s.threads[t := PushOwn(v, s.enq)], enq := s.enq + 1, claimed := s.claimed + [v])
    ensures forall u :: 0 <= u < |s'.threads| ==> ThreadOk(s', s'.threads[u])
    ensures Exclusive(s') && LogOk(s')
  {
    assert ThreadOk(s, s.threads[t]);
    CellAtPush(s, s.enq);
    PushExcludes(s, s', t, v);
    LogAfterPush(s, s', t, v);
    hide CellOk;
    hide Exclusive;
    hide LogOk;
    forall u | 0 <= u < |s'.threads| ensures ThreadOk(s', s'.threads[u]) { assert ThreadOk(s, s.threads[u]); }
  }

  lemma PushExcludes<V>(s: State<V>, s': State<V>, t: nat, v: V)
    requires Inv(s) && t < |s.threads| && s.threads[t] == PushSeq(v, s.enq, s.enq) &&
               s.cells[Index(s, s.enq)].sequence == s.enq
    requires s' == s.(threads := s.threads[t := PushOwn(v, s.enq)], enq := s.enq + 1, claimed := s.claimed + [v])
    ensures Exclusive(s')
  {
    hide CellOk;
    hide LogOk;
    forall u, i | 0 <= u < |s'.threads| && u != t && Owns(s', u, i) ensures !Owns(s', t, i) {
      OwnerSequence(s, u);
    }
    ExclusiveAfter(s, s', t);
  }

  lemma LogAfterPush<V>(s: State<V>, s': State<V>, t: nat, v: V)
    requires |s.claimed| == s.enq && s.deq <= s.enq && LogOk(s) && t < |s.threads| &&
               s.threads[t] == PushSeq(v, s.enq, s.enq)
    requires s' == s.(threads := s.threads[t := PushOwn(v, s.enq)], enq := s.enq + 1, claimed := s.claimed + [v])
    ensures LogOk(s')
  {
    Handover(s, s', t);
    hide Logged;
    hide SomePopping;
  }

  /** The sequence of an owned cell tells the ticket of its owner, which is an old one. */
  lemma OwnerSequence<V>(s: State<V>, u: nat)
    requires Inv(s) && u < |s.threads|
    requires var pc := s.threads[u]; pc.PushOwn? || pc.PushFilled? || pc.PopOwn? || pc.PopRead?
    ensures var pc, q := s.threads[u], s.cells[Index(s, s.threads[u].pos)].sequence;
            if pc.PushOwn? || pc.PushFilled? then q == pc.pos < s.enq else q == pc.pos + 1 && pc.pos < s.deq
  {
    assert ThreadOk(s, s.threads[u]);
  }

  /** Winning pop ticket `s.deq`: the cells. */
  lemma ClaimPopCells<V>(s: State<V>, s': State<V>, t: nat)
    requires Inv(s) && t < |s.threads| && s.threads[t] == PopSeq(s.deq, s.deq + 1)
    requires s' == s.(threads := s.threads[t := PopOwn(s.deq)], deq := s.deq + 1)
    ensures s'.deq <= s'.enq
    ensures forall i :: 0 <= i < |s'.cells| ==> CellOk(s', i)
  {
    assert ThreadOk(s, s.threads[t]);
    CellAtPop(s, s.deq);
    assert Popping(s'.threads[t], s.deq);
    Handover(s, s', t);
    forall i | 0 <= i < |s'.cells| ensures CellOk(s', i) {
      assert CellOk(s, i);
      var q := s.cells[i].sequence;
      SameCell(s, q, s.deq);
      if q > 0 { SameCell(s, q - 1, s.deq); }
    }
  }

  /** Winning pop ticket `s.deq`: the threads and the log. */
  lemma ClaimPopThreads<V>(s: State<V>, s': State<V>, t: nat)
    requires Inv(s) && t < |s.threads| && s.threads[t] == PopSeq(s.deq, s.deq + 1)
    requires s' == s.(threads := s.threads[t := PopOwn(s.deq)], deq := s.deq + 1)
    requires s'.deq <= s'.enq
    ensures forall u :: 0 <= u < |s'.threads| ==> ThreadOk(s', s'.threads[u])
    ensures Exclusive(s') && LogOk(s')
  {
    assert ThreadOk(s, s.threads[t]);
    CellAtPop(s, s.deq);
    PopExcludes(s, s', t);
    LogAfterClaim(s, s', t);
    hide CellOk;
    hide Exclusive;
    hide LogOk;
    forall u | 0 <= u < |s'.threads| ensures ThreadOk(s', s'.threads[u]) { assert ThreadOk(s, s.threads[u]); }
  }

  lemma PopExcludes<V>(s: State<V>, s': State<V>, t: nat)
    requires Inv(s) && t < |s.threads| && s.threads[t] == PopSeq(s.deq, s.deq + 1)
    requires s.cells[Index(s, s.deq)].sequence == s.deq + 1
    requires s' == s.(threads := s.threads[t := PopOwn(s.deq)], deq := s.deq + 1)
    ensures Exclusive(s')
  {
    hide CellOk;
    hide LogOk;
    forall u, i | 0 <= u < |s'.threads| && u != t && Owns(s', u, i) ensures !Owns(s', t, i) {
      OwnerSequence(s, u);
      SameCell(s, s.deq, s.threads[u].pos);
    }
    ExclusiveAfter(s, s', t);
  }

  lemma LogAfterClaim<V>(s: State<V>, s': State<V>, t: nat)
    requires |s.claimed| == s.enq && s.deq <= s.enq && LogOk(s) && t < |s.threads| &&
               s.threads[t] == PopSeq(s.deq, s.deq + 1)
    requires s' == s.(threads := s.threads[t := PopOwn(s.deq)], deq := s.deq + 1) && s'.deq <= s'.enq
    ensures LogOk(s')
  {
    Handover(s, s', t);
    assert Popping(s'.threads[t], s.deq);
    forall j, u | 0 <= j < |s'.log| && 0 <= u < |s'.threads| ensures !Popping(s'.threads[u], s'.log[j].0) {
      assert s.log[j].0 < s.deq && !Popping(s.threads[u], s.log[j].0);
    }
  }

  /** Tickets held by threads other than `t`, and log entries, carry over. */
  lemma Handover<V>(s: State<V>, s': State<V>, t: nat)
    requires t < |s.threads| == |s'.threads| && s.log <= s'.log
    requires forall u :: 0 <= u < |s.threads| && u != t ==> s'.threads[u] == s.threads[u]
    ensures forall p :: SomePushing(s, p) && !Pushing(s.threads[t], p) ==> SomePushing(s', p)
    ensures forall p :: SomePopping(s, p) && !Popping(s.threads[t], p) ==> SomePopping(s', p)
    ensures forall p :: Logged(s, p) ==> Logged(s', p)
  {
    forall p | SomePushing(s, p) && !Pushing(s.threads[t], p) ensures SomePushing(s', p) {
      var u :| 0 <= u < |s.threads| && Pushing(s.threads[u], p);
      assert Pushing(s'.threads[u], p);
    }
    forall p | SomePopping(s, p) && !Popping(s.threads[t], p) ensures SomePopping(s', p) {
      var u :| 0 <= u < |s.threads| && Popping(s.threads[u], p);
      assert Popping(s'.threads[u], p);
    }
    forall p | Logged(s, p) ensures Logged(s', p) {
      var j :| 0 <= j < |s.log| && s.log[j].0 == p;
      assert s'.log[j].0 == p;
    }
  }

  /** Ownership stays exclusive when nobody else owns the cell that `t` owns afterwards. */
  lemma ExclusiveAfter<V>(s: State<V>, s': State<V>, t: nat)
    requires Inv(s) && Sized(s') && s'.bits == s.bits && t < |s.threads| == |s'.threads|
    requires forall u :: 0 <= u < |s.threads| && u != t ==> s'.threads[u] == s.threads[u]
    requires forall u, i :: 0 <= u < |s'.threads| && u != t && Owns(s', u, i) ==> !Owns(s', t, i)
    ensures Exclusive(s')
  {
    forall a, b, i | 0 <= a < |s'.threads| && 0 <= b < |s'.threads| && Owns(s', a, i) && Owns(s', b, i)
      ensures a == b
    {
      if a != t && b != t { assert Owns(s, a, i) && Owns(s, b, i); }
    }
  }

  /** Accesses to the cell of a won ticket (the data write and read, and the two publications):
      the cells. */
  lemma OwnerCells<V>(s: State<V>, m: Move<V>)
    requires Inv(s) && m.thread < |s.threads|
    requires var pc := s.threads[m.thread]; pc.PushOwn? || pc.PushFilled? || pc.PopOwn? || pc.PopRead?
    ensures forall i :: 0 <= i < |s.cells| ==> CellOk(Step(s, m), i)
  {
    var t, s' := m.thread, Step(s, m);
    var mine := Index(s, s.threads[t].pos);
    Handover(s, s', t);
    forall i | 0 <= i < |s.cells| && i != mine ensures CellOk(s', i) {
      OtherCell(s, s', t, i);
    }
    OwnCell(s, m);
  }

  /** Cells other than the owned one are not affected. */
  lemma OtherCell<V>(s: State<V>, s': State<V>, t: nat, i: nat)
    requires Sized(s) && Sized(s') && s'.bits == s.bits && i < |s.cells| && CellOk(s, i) && s'.cells[i] == s.cells[i]
    requires s'.enq == s.enq && s'.deq == s.deq && s'.claimed == s.claimed
    requires t < |s.threads| && forall p :: Pushing(s.threads[t], p) || Popping(s.threads[t], p) ==> Index(s, p) != i
    requires forall p :: SomePushing(s, p) && !Pushing(s.threads[t], p) ==> SomePushing(s', p)
    requires forall p :: SomePopping(s, p) && !Popping(s.threads[t], p) ==> SomePopping(s', p)
    ensures CellOk(s', i)
  {
    hide SomePushing;
    hide SomePopping;
    var q := s.cells[i].sequence;
    assert Index(s, q) == Index(s', q) && (q > 0 ==> Index(s, q - 1) == Index(s', q - 1));
  }

  /** The owned cell itself moves from free to held to free one lap on. */
  lemma OwnCell<V>(s: State<V>, m: Move<V>)
    requires Inv(s) && m.thread < |s.threads|
    requires var pc := s.threads[m.thread]; pc.PushOwn? || pc.PushFilled? || pc.PopOwn? || pc.PopRead?
    ensures CellOk(Step(s, m), Index(s, s.threads[m.thread].pos))
  {
    var t := m.thread;
    var pos := s.threads[t].pos;
    assert ThreadOk(s, s.threads[t]);
    assert CellOk(s, Index(s, pos));
    SameCell(s, pos, pos + 1);
    if pos > 0 { SameCell(s, pos - 1, pos); }
    hide Inv;
    if s.threads[t].PushOwn? || s.threads[t].PushFilled? {
      OwnCellPush(s, m);
    } else {
      OwnCellPop(s, m);
    }
  }

  /** The cell of a push ticket is free until its value is published, and then holds it. */
  lemma OwnCellPush<V>(s: State<V>, m: Move<V>)
    requires Sized(s) && |s.claimed| == s.enq && m.thread < |s.threads| && ThreadOk(s, s.threads[m.thread])
    requires var pc := s.threads[m.thread]; (pc.PushOwn? || pc.PushFilled?) && Free(s, pc.pos)
    ensures CellOk(Step(s, m), Index(s, s.threads[m.thread].pos))
  {
    var t, s' := m.thread, Step(s, m);
    assert s.threads[t].PushOwn? ==> Pushing(s'.threads[t], s.threads[t].pos);
    hide And;
  }

  /** The cell of a pop ticket holds its value until it is released for the next lap. */
  lemma OwnCellPop<V>(s: State<V>, m: Move<V>)
    requires Sized(s) && |s.claimed| == s.enq && m.thread < |s.threads| && ThreadOk(s, s.threads[m.thread])
    requires var pc := s.threads[m.thread];
             && (pc.PopOwn? || pc.PopRead?) && Held(s, pc.pos) && |s.cells| >= 2
             && Index(s, pc.pos + |s.cells|) == Index(s, pc.pos)
    ensures CellOk(Step(s, m), Index(s, s.threads[m.thread].pos))
  {
    var t, s' := m.thread, Step(s, m);
    assert s.threads[t].PopOwn? ==> Popping(s'.threads[t], s.threads[t].pos);
    hide And;
  }

  lemma OwnerThreads<V>(s: State<V>, m: Move<V>)
    requires Inv(s) && m.thread < |s.threads|
    requires var pc := s.threads[m.thread]; pc.PushOwn? || pc.PushFilled? || pc.PopOwn? || pc.PopRead?
    ensures forall u :: 0 <= u < |s.threads| ==> ThreadOk(Step(s, m), Step(s, m).threads[u])
    ensures Exclusive(Step(s, m))
  {
    var t, s' := m.thread, Step(s, m);
    var pc := s.threads[t];
    assert ThreadOk(s, pc);
    assert Owns(s, t, Index(s, pc.pos));
    forall u | 0 <= u < |s.threads| ensures ThreadOk(s', s'.threads[u]) {
      assert ThreadOk(s, s.threads[u]);
      assert u != t ==> !Owns(s, u, Index(s, pc.pos));
    }
    forall u, i | 0 <= u < |s'.threads| && u != t && Owns(s', u, i) ensures !Owns(s', t, i) {
      assert Owns(s, u, i);
    }
    ExclusiveAfter(s, s', t);
  }

  lemma LogAfterOwner<V>(s: State<V>, m: Move<V>)
    requires Inv(s) && m.thread < |s.threads|
    requires var pc := s.threads[m.thread]; pc.PushOwn? || pc.PushFilled? || pc.PopOwn? || pc.PopRead?
    ensures LogOk(Step(s, m))
  {
    var t, s' := m.thread, Step(s, m);
    var pc := s.threads[t];
    assert ThreadOk(s, pc);
    if pc.PopRead? {
      SolePopper(s, t, pc.pos);
      hide Inv;
      LogAfterReturn(s, s', t);
    } else {
      hide CellOk;
      Handover(s, s', t);
      if pc.PopOwn? { assert Popping(s'.threads[t], pc.pos) && Popping(pc, pc.pos); }
    }
  }

  lemma PopperOwns<V>(s: State<V>, u: nat, p: nat)
    requires Sized(s) && u < |s.threads|
    ensures Popping(s.threads[u], p) ==> Owns(s, u, Index(s, p))
  {
  }

  lemma SolePopper<V>(s: State<V>, t: nat, p: nat)
    requires Sized(s) && Exclusive(s) && t < |s.threads| && Popping(s.threads[t], p)
    ensures forall u :: 0 <= u < |s.threads| && u != t ==> !Popping(s.threads[u], p)
  {
    PopperOwns(s, t, p);
    forall u | 0 <= u < |s.threads| && u != t ensures !Popping(s.threads[u], p) {
      PopperOwns(s, u, p);
    }
  }

  /** A pop returns: its ticket joins the log, with the value pushed under it. */
  lemma LogAfterReturn<V>(s: State<V>, s': State<V>, t: nat)
    requires |s.claimed| == s.enq && s.deq <= s.enq && LogOk(s) && t < |s.threads| && s.threads[t].PopRead?
    requires s.threads[t].pos < s.deq && s.threads[t].d == Full(s.claimed[s.threads[t].pos])
    requires forall u :: 0 <= u < |s.threads| && u != t ==> !Popping(s.threads[u], s.threads[t].pos)
    requires s' == s.(cells := s'.cells, threads := s.threads[t := Idle],
                      log := s.log + [(s.threads[t].pos, s.threads[t].d)])
    ensures LogOk(s')
  {
    var pos := s.threads[t].pos;
    Handover(s, s', t);
    assert s'.log[|s.log|].0 == pos;
    assert Popping(s.threads[t], pos);
    assert Logged(s', pos);
    hide Logged;
    hide SomePopping;
  }

  /** The configuration never changes and the histories only grow. */
  lemma StepGrows<V>(s: State<V>, m: Move<V>)
    requires Sized(s) && m.thread < |s.threads|
    ensures var s' := Step(s, m);
            && Sized(s') && |s'.threads| == |s.threads| && |s'.cells| == |s.cells|
            && s.claimed <= s'.claimed && s.log <= s'.log
  {
  }

  /** Every atomic access of every thread keeps the invariant. */
  lemma StepInv<V>(s: State<V>, m: Move<V>)
    requires Inv(s) && m.thread < |s.threads|
    ensures Inv(Step(s, m))
  {
    StepGrows(s, m);
    var t, s' := m.thread, Step(s, m);
    var pc := s.threads[t];
    assert ThreadOk(s, pc);
    SearchingUpdate(s.threads, t, s'.threads[t]);
    if pc.PushSeq? && pc.q == pc.pos == s.enq && !m.spurious {
      ClaimPushCells(s, s', t, pc.v);
      ClaimPushThreads(s, s', t, pc.v);
    } else if pc.PopSeq? && pc.q == pc.pos + 1 && pc.pos == s.deq && !m.spurious {
      ClaimPopCells(s, s', t);
      ClaimPopThreads(s, s', t);
    } else if pc.PushOwn? || pc.PushFilled? || pc.PopOwn? || pc.PopRead? {
      OwnerCells(s, m);
      OwnerThreads(s, m);
      LogAfterOwner(s, m);
    } else {
      LocalMoveInv(s, s', t, s'.threads[t]);
    }
  }

  // ----- what holds in every reachable state -----

  ghost predicate Schedule<V>(moves: seq<Move<V>>, threads: nat) {
    forall j :: 0 <= j < |moves| ==> moves[j].thread < threads
  }

  lemma StepKeeps<V>(s: State<V>, m: Move<V>)
    requires Inv(s) && m.thread < |s.threads|
    ensures Inv(Step(s, m))
    ensures |Step(s, m).threads| == |s.threads| && |Step(s, m).cells| == |s.cells|
    ensures s.claimed <= Step(s, m).claimed && s.log <= Step(s, m).log
  {
    StepInv(s, m);
    StepGrows(s, m);
  }

  /** The state after an interleaving, which may be any sequence of moves. */
  ghost function Run<V>(s: State<V>, moves: seq<Move<V>>): (r: State<V>)
    requires Inv(s) && Schedule(moves, |s.threads|)
    ensures Inv(r) && |r.threads| == |s.threads| && |r.cells| == |s.cells|
    ensures s.claimed <= r.claimed && s.log <= r.log
  {
    if moves == [] then s
    else
      var before := Run(s, moves[..|moves| - 1]);
      StepKeeps(before, moves[|moves| - 1]);
      Step(before, moves[|moves| - 1])
  }

  /** A ticket's cell has moved on a lap exactly when the pop with that ticket has returned. */
  lemma ReleasedIffReturned<V>(s: State<V>, p: nat)
    requires Inv(s) && p < s.enq
    ensures s.cells[Index(s, p)].sequence >= p + |s.cells| <==> Logged(s, p)
  {
    var q := s.cells[Index(s, p)].sequence;
    assert CellOk(s, Index(s, p));
    SameCell(s, q, p);
    if q > 0 { SameCell(s, q - 1, p); }
    if Logged(s, p) {
      var j :| 0 <= j < |s.log| && s.log[j].0 == p;
      assert forall t :: 0 <= t < |s.threads| ==> !Popping(s.threads[t], s.log[j].0);
      assert !SomePopping(s, p);
    } else if SomePopping(s, p) {
      var t :| 0 <= t < |s.threads| && Popping(s.threads[t], p);
      assert ThreadOk(s, s.threads[t]);
    }
  }

  /** The sequence load sends `push` to `return false` exactly when the position it read is still
      the enqueue position and the ticket one lap earlier has not been returned by its pop. */
  lemma PushSeesFull<V>(s: State<V>, t: nat)
    requires Inv(s) && t < |s.threads| && s.threads[t].PushPos?
    ensures var pos, n := s.threads[t].pos, |s.cells|;
            s.cells[Index(s, pos)].sequence < pos <==> pos == s.enq && pos >= n && !Logged(s, pos - n)
  {
    var pos, n := s.threads[t].pos, |s.cells|;
    var q := s.cells[Index(s, pos)].sequence;
    assert ThreadOk(s, s.threads[t]);
    assert CellOk(s, Index(s, pos));
    SameCell(s, q, pos);
    if q > 0 { SameCell(s, q - 1, pos); }
    if pos >= n {
      SameCell(s, pos - n, pos);
      ReleasedIffReturned(s, pos - n);
    }
  }

  /** The sequence load sends `pop` to `return false` exactly when the position it read is still
      the dequeue position and no value has been published under that ticket. */
  lemma PopSeesEmpty<V>(s: State<V>, t: nat)
    requires Inv(s) && t < |s.threads| && s.threads[t].PopPos?
    ensures var pos := s.threads[t].pos;
            s.cells[Index(s, pos)].sequence < pos + 1 <==>
            pos == s.deq && (s.deq == s.enq || SomePushing(s, pos))
  {
    var pos := s.threads[t].pos;
    var q := s.cells[Index(s, pos)].sequence;
    assert ThreadOk(s, s.threads[t]);
    assert CellOk(s, Index(s, pos));
    SameCell(s, q, pos);
    if q > 0 { SameCell(s, q - 1, pos); }
    if SomePushing(s, pos) {
      var u :| 0 <= u < |s.threads| && Pushing(s.threads[u], pos);
      assert ThreadOk(s, s.threads[u]);
    }
  }

  ghost function Outstanding<V>(s: State<V>): set<nat> {
    set p: nat | p < s.enq && !Logged(s, p)
  }

  lemma {:induction false} IntervalSize(a: nat, b: nat, w: set<nat>)
    requires forall p :: p in w ==> a <= p < b
    ensures |w| <= if a <= b then b - a else 0
    decreases b
  {
    if b > a {
      IntervalSize(a, b - 1, w - {b - 1});
      assert |w| <= |w - {b - 1}| + 1 by { if b - 1 in w {} else { assert w - {b - 1} == w; } }
    } else {
      assert forall p :: p !in w;
      assert w == {};
    }
  }

  /** At most `size` tickets are claimed by push and not yet returned by pop. */
  lemma OutstandingBound<V>(s: State<V>)
    requires Inv(s)
    ensures |Outstanding(s)| <= |s.cells|
    ensures forall p :: p in Outstanding(s) ==> s.enq <= p + |s.cells|
  {
    forall p | p in Outstanding(s) ensures s.enq <= p + |s.cells| {
      ReleasedIffReturned(s, p);
      var q := s.cells[Index(s, p)].sequence;
      assert CellOk(s, Index(s, p));
      SameCell(s, q, p);
      if q > 0 { SameCell(s, q - 1, p); }
    }
    IntervalSize(if s.enq >= |s.cells| then s.enq - |s.cells| else 0, s.enq, Outstanding(s));
  }

  /** Safety of every interleaving of any number of pushers and poppers: cells have one owner,
      every pop that returned true under ticket p returned exactly the value pushed under ticket p,
      no ticket is returned twice, and at most `size` tickets are outstanding. */
  lemma QueueSafety<V>(size: nat, threads: nat, moves: seq<Move<V>>)
    requires Create<V>(size, threads).Ok? && Schedule(moves, threads)
    ensures var s := Run(Create(size, threads).value, moves);
            && (forall t, u, i :: 0 <= t < threads && 0 <= u < threads && Owns(s, t, i) && Owns(s, u, i) ==> t == u)
            && (forall j :: 0 <= j < |s.log| ==>
                  s.log[j].0 < |s.claimed| && s.log[j].1 == Full(s.claimed[s.log[j].0]))
            && (forall i, j :: 0 <= i < j < |s.log| ==> s.log[i].0 != s.log[j].0)
            && |Outstanding(s)| <= size
  {
    OutstandingBound(Run(Create(size, threads).value, moves));
  }

  /** When no operation is in progress, the pops that returned are exactly tickets 0..deq, and the
      values pushed and not popped sit published in the cells, in ticket order. */
  lemma Quiescent<V>(s: State<V>)
    requires Inv(s) && forall t :: 0 <= t < |s.threads| ==> s.threads[t] == Idle
    ensures forall p :: 0 <= p < s.deq ==> Logged(s, p)
    ensures forall p :: s.deq <= p < s.enq ==> s.cells[Index(s, p)] == Cell(p + 1, Full(s.claimed[p]))
    ensures s.enq - s.deq <= |s.cells|
    ensures s.begun == s.enq + s.failed
  {
    NoneSearching(s.threads);
    assert forall p :: !SomePopping(s, p) && !SomePushing(s, p);
    forall p | s.deq <= p < s.enq
      ensures s.cells[Index(s, p)] == Cell(p + 1, Full(s.claimed[p])) && s.enq <= p + |s.cells|
    {
      var q := s.cells[Index(s, p)].sequence;
      assert CellOk(s, Index(s, p));
      SameCell(s, q, p);
      if q > 0 { SameCell(s, q - 1, p); }
    }
    assert s.deq < s.enq ==> s.cells[Index(s, s.deq)] == Cell(s.deq + 1, Full(s.claimed[s.deq]));
  }

  // ----- when operations succeed -----

  /** `n` moves of one thread that do not fail spuriously. */
  function Alone<V>(t: nat, op: Op<V>, n: nat): (moves: seq<Move<V>>)
    ensures |moves| == n && Schedule(moves, t + 1)
  {
    seq(n, _ => Move(t, op, false))
  }

  /** Running one move longer. */
  lemma AloneStep<V>(s: State<V>, t: nat, op: Op<V>, n: nat)
    requires Inv(s) && t < |s.threads| && n > 0
    ensures Schedule(Alone(t, op, n), |s.threads|) && Schedule(Alone(t, op, n - 1), |s.threads|)
    ensures Run(s, Alone(t, op, n)) == Step(Run(s, Alone(t, op, n - 1)), Move(t, op, false))
  {
    hide Inv;
    hide Step;
    assert Alone(t, op, n)[..n - 1] == Alone(t, op, n - 1);
  }

  /** A pop and a push that nobody disturbs, step by step. */
  ghost function After<V>(s: State<V>, t: nat, op: Op<V>, n: nat): (r: State<V>)
    requires Inv(s) && t < |s.threads|
    ensures Inv(r) && |r.threads| == |s.threads| && |r.cells| == |s.cells|
  {
    Run(s, Alone(t, op, n))
  }

  lemma AfterStep<V>(s: State<V>, t: nat, op: Op<V>, n: nat)
    requires Inv(s) && t < |s.threads|
    ensures After(s, t, op, 0) == s
    ensures n > 0 ==> After(s, t, op, n) == Step(After(s, t, op, n - 1), Move(t, op, false))
  {
    hide Inv;
    hide Step;
    if n > 0 { AloneStep(s, t, op, n); }
  }

  /** The five moves of an undisturbed operation. */
  lemma AfterChain<V>(s: State<V>, t: nat, op: Op<V>)
    requires Inv(s) && t < |s.threads|
    ensures After(s, t, op, 0) == s
    ensures forall n: nat :: n <= 5 ==> Sized(After(s, t, op, n)) && |After(s, t, op, n).threads| == |s.threads|
    ensures forall n :: 0 <= n < 5 ==> After(s, t, op, n + 1) == Step(After(s, t, op, n), Move(t, op, false))
  {
    hide Step;
    forall n: nat | n <= 5 ensures Sized(After(s, t, op, n)) {
      InvSized(After(s, t, op, n));
    }
    hide Inv;
    forall n: nat | n < 5 ensures After(s, t, op, n + 1) == Step(After(s, t, op, n), Move(t, op, false)) {
      AfterStep(s, t, op, n + 1);
    }
    AfterStep(s, t, op, 0);
  }

  lemma InvSized<V>(s: State<V>)
    requires Inv(s)
    ensures Sized(s) && |s.claimed| == s.enq && s.deq <= s.enq
  {
  }

  /** The two loads of a pop: position, then cell sequence, which tells whether the ticket is published. */
  lemma PopLooks<V>(s: State<V>, t: nat)
    requires Inv(s) && t < |s.threads| && s.threads[t].Idle?
    ensures var q := s.cells[Index(s, s.deq)].sequence;
            && After(s, t, Pop, 2) == SetThread(s, t, PopSeq(s.deq, q))
            && (q < s.deq + 1 <==> s.deq == s.enq || SomePushing(s, s.deq))
            && (q >= s.deq + 1 ==> q == s.deq + 1 && Held(s, s.deq))
  {
    AfterChain(s, t, Pop);
    InvSized(s);
    var s1 := After(s, t, Pop, 1);
    var q := s.cells[Index(s, s.deq)].sequence;
    if q >= s.deq + 1 { CellAtPop(s, s.deq); }
    hide After;
    assert s1 == Step(After(s, t, Pop, 0), Move(t, Pop, false));
    assert s1 == SetThread(s, t, PopPos(s.deq)) by { hide Inv; hide And; }
    PopSeesEmpty(s1, t);
    hide Inv;
    hide And;
    SamePushers(s, s1, t);
    hide SomePushing;
    assert After(s, t, Pop, 2) == Step(After(s, t, Pop, 1), Move(t, Pop, false));
    assert s.threads[t := PopPos(s.deq)][t := PopSeq(s.deq, q)] == s.threads[t := PopSeq(s.deq, q)];
  }

  lemma SamePushers<V>(s: State<V>, s': State<V>, t: nat)
    requires t < |s.threads| && s.threads[t].Idle? && s' == s.(threads := s'.threads)
    requires exists pc: Pc<V> :: (pc.PopPos? || pc.PushPos?) && s'.threads == s.threads[t := pc]
    ensures forall p :: SomePushing(s', p) <==> SomePushing(s, p)
  {
    forall p ensures SomePushing(s', p) <==> SomePushing(s, p) {
      if SomePushing(s, p) {
        var u :| 0 <= u < |s.threads| && Pushing(s.threads[u], p);
        assert Pushing(s'.threads[u], p);
      }
      if SomePushing(s', p) {
        var u :| 0 <= u < |s'.threads| && Pushing(s'.threads[u], p);
        assert Pushing(s.threads[u], p);
      }
    }
  }

  /** An undisturbed pop returns true, with the value pushed under the ticket at the dequeue position,
      if that ticket is claimed and nobody is still publishing it; otherwise it returns false. */
  lemma PopAlone<V>(s: State<V>, t: nat)
    requires Inv(s) && t < |s.threads| && s.threads[t].Idle?
    ensures if s.deq < s.enq && !SomePushing(s, s.deq)
            then var r := After(s, t, Pop, 5);
                 && r.threads == s.threads && r.log == s.log + [(s.deq, Full(s.claimed[s.deq]))]
                 && r.deq == s.deq + 1 && r.enq == s.enq && r.claimed == s.claimed
            else After(s, t, Pop, 3) == s
  {
    hide After;
    hide Step;
    hide SomePushing;
    hide Held;
    hide And;
    InvSized(s);
    hide Inv;
    PopLooks(s, t);
    AfterChain(s, t, Pop);
    var s2, s3 := After(s, t, Pop, 2), After(s, t, Pop, 3);
    if s.cells[Index(s, s.deq)].sequence < s.deq + 1 {
      assert s3 == Step(After(s, t, Pop, 2), Move(t, Pop, false));
      PopGivesUp(s, s2, s3, t);
    } else {
      assert After(s, t, Pop, 4) == Step(After(s, t, Pop, 3), Move(t, Pop, false));
      assert After(s, t, Pop, 5) == Step(After(s, t, Pop, 4), Move(t, Pop, false));
      HeldFull(s);
      PopTakes(s, s2, s3, After(s, t, Pop, 4), After(s, t, Pop, 5), t);
    }
  }

  lemma HeldFull<V>(s: State<V>)
    requires Sized(s) && Held(s, s.deq)
    ensures s.deq < |s.claimed| && s.cells[Index(s, s.deq)].data == Full(s.claimed[s.deq])
  {
  }

  lemma PopGivesUp<V>(s: State<V>, s2: State<V>, s3: State<V>, t: nat)
    requires Sized(s) && t < |s.threads| && s.threads[t].Idle?
    requires var q := s.cells[Index(s, s.deq)].sequence; q < s.deq + 1 && s2 == SetThread(s, t, PopSeq(s.deq, q))
    requires s3 == Step(s2, Move(t, Pop, false))
    ensures s3 == s
  {
    hide And;
    assert s3.threads == s.threads;
  }

  lemma PopTakes<V>(s: State<V>, s2: State<V>, s3: State<V>, s4: State<V>, s5: State<V>, t: nat)
    requires Sized(s) && t < |s.threads| && s.threads[t].Idle? && s.deq < |s.claimed|
    requires s.cells[Index(s, s.deq)] == Cell(s.deq + 1, Full(s.claimed[s.deq]))
    requires s2 == SetThread(s, t, PopSeq(s.deq, s.deq + 1))
    requires s3 == Step(s2, Move(t, Pop, false))
    requires Sized(s3) && |s3.threads| == |s.threads| && s4 == Step(s3, Move(t, Pop, false))
    requires Sized(s4) && |s4.threads| == |s.threads| && s5 == Step(s4, Move(t, Pop, false))
    ensures s5.threads == s.threads && s5.log == s.log + [(s.deq, Full(s.claimed[s.deq]))]
    ensures s5.deq == s.deq + 1 && s5.enq == s.enq && s5.claimed == s.claimed
  {
    hide And;
    assert s3.threads[t] == PopOwn(s.deq) && s3.cells == s.cells;
    assert s4.threads[t] == PopRead(s.deq, Full(s.claimed[s.deq]));
  }

  /** The two loads of a push. */
  lemma PushLooks<V>(s: State<V>, t: nat, v: V)
    requires Inv(s) && t < |s.threads| && s.threads[t].Idle?
    ensures var q, n := s.cells[Index(s, s.enq)].sequence, |s.cells|;
            && After(s, t, Push(v), 2) == SetThread(s, t, PushSeq(v, s.enq, q)).(begun := s.begun + 1)
            && (q < s.enq <==> s.enq >= n && !Logged(s, s.enq - n))
            && (q >= s.enq ==> q == s.enq)
  {
    AfterChain(s, t, Push(v));
    InvSized(s);
    var s1 := After(s, t, Push(v), 1);
    var q, n := s.cells[Index(s, s.enq)].sequence, |s.cells|;
    if q >= s.enq { CellAtPush(s, s.enq); }
    hide After;
    assert s1 == Step(After(s, t, Push(v), 0), Move(t, Push(v), false));
    assert s1 == SetThread(s, t, PushPos(v, s.enq)).(begun := s.begun + 1) by { hide Inv; hide And; }
    PushSeesFull(s1, t);
    hide Inv;
    hide And;
    assert s.enq >= n ==> (Logged(s1, s.enq - n) <==> Logged(s, s.enq - n));
    hide Logged;
    assert After(s, t, Push(v), 2) == Step(After(s, t, Push(v), 1), Move(t, Push(v), false));
    assert s.threads[t := PushPos(v, s.enq)][t := PushSeq(v, s.enq, q)] == s.threads[t := PushSeq(v, s.enq, q)];
  }

  /** An undisturbed push returns true and publishes its value under the next ticket, unless the ticket
      one lap earlier has not been returned by its pop; then it returns false. */
  lemma PushAlone<V>(s: State<V>, t: nat, v: V)
    requires Inv(s) && t < |s.threads| && s.threads[t].Idle?
    ensures if s.enq < |s.cells| || Logged(s, s.enq - |s.cells|)
            then var r := After(s, t, Push(v), 5);
                 && r.threads == s.threads && r.claimed == s.claimed + [v] && r.failed == s.failed
                 && r.enq == s.enq + 1 && r.deq == s.deq && r.log == s.log
                 && r.cells == s.cells[Index(s, s.enq) := Cell(s.enq + 1, Full(v))]
            else After(s, t, Push(v), 3) == s.(begun := s.begun + 1, failed := s.failed + 1)
  {
    hide After;
    hide Step;
    hide Logged;
    hide And;
    InvSized(s);
    hide Inv;
    PushLooks(s, t, v);
    AfterChain(s, t, Push(v));
    var s2, s3 := After(s, t, Push(v), 2), After(s, t, Push(v), 3);
    if s.cells[Index(s, s.enq)].sequence < s.enq {
      assert s3 == Step(After(s, t, Push(v), 2), Move(t, Push(v), false));
      PushGivesUp(s, s2, s3, t, v);
    } else {
      assert After(s, t, Push(v), 4) == Step(After(s, t, Push(v), 3), Move(t, Push(v), false));
      assert After(s, t, Push(v), 5) == Step(After(s, t, Push(v), 4), Move(t, Push(v), false));
      PushPublishes(s, s2, s3, After(s, t, Push(v), 4), After(s, t, Push(v), 5), t, v);
    }
  }

  lemma PushGivesUp<V>(s: State<V>, s2: State<V>, s3: State<V>, t: nat, v: V)
    requires Sized(s) && t < |s.threads| && s.threads[t].Idle?
    requires var q := s.cells[Index(s, s.enq)].sequence;
             q < s.enq && s2 == SetThread(s, t, PushSeq(v, s.enq, q)).(begun := s.begun + 1)
    requires s3 == Step(s2, Move(t, Push(v), false))
    ensures s3 == s.(begun := s.begun + 1, failed := s.failed + 1)
  {
    hide And;
    assert s3.threads == s.threads;
  }

  lemma PushPublishes<V>(s: State<V>, s2: State<V>, s3: State<V>, s4: State<V>, s5: State<V>, t: nat, v: V)
    requires Sized(s) && t < |s.threads| && s.threads[t].Idle? && s.cells[Index(s, s.enq)].sequence == s.enq
    requires s2 == SetThread(s, t, PushSeq(v, s.enq, s.enq)).(begun := s.begun + 1)
    requires s3 == Step(s2, Move(t, Push(v), false))
    requires Sized(s3) && |s3.threads| == |s.threads| && s4 == Step(s3, Move(t, Push(v), false))
    requires Sized(s4) && |s4.threads| == |s.threads| && s5 == Step(s4, Move(t, Push(v), false))
    ensures s5.threads == s.threads && s5.claimed == s.claimed + [v] && s5.failed == s.failed
    ensures s5.enq == s.enq + 1 && s5.deq == s.deq && s5.log == s.log
    ensures s5.cells == s.cells[Index(s, s.enq) := Cell(s.enq + 1, Full(v))]
  {
    hide And;
    assert s3.threads[t] == PushOwn(v, s.enq) && s3.cells == s.cells;
    assert s4.threads[t] == PushFilled(v, s.enq);
  }

  // ----- when operations fail -----

  /** The move ends a pop with `return false`, or a push. */
  ghost predicate PopFails<V>(s: State<V>, s': State<V>, t: nat)
    requires t < |s.threads| == |s'.threads|
  {
    IsPop(s.threads[t]) && s'.threads[t].Idle? && s'.log == s.log
  }

  ghost predicate PushFails<V>(s: State<V>, s': State<V>, t: nat)
    requires t < |s.threads| == |s'.threads|
  {
    IsPush(s.threads[t]) && s'.threads[t].Idle? && s'.cells == s.cells
  }

  predicate IsPush<V>(pc: Pc<V>) {
    pc.PushPos? || pc.PushSeq? || pc.PushOwn? || pc.PushFilled?
  }

  /** Only a sequence seen too low makes an operation fail; and only such an operation counts as failed. */
  lemma FailingStep<V>(s: State<V>, m: Move<V>)
    requires Sized(s) && |s.claimed| == s.enq && m.thread < |s.threads| && ThreadOk(s, s.threads[m.thread])
    ensures var pc, s' := s.threads[m.thread], Step(s, m);
            && |s'.threads| == |s.threads|
            && (PopFails(s, s', m.thread) <==> pc.PopSeq? && pc.q < pc.pos + 1)
            && (PushFails(s, s', m.thread) <==> pc.PushSeq? && pc.q < pc.pos)
            && s'.failed == s.failed + if PushFails(s, s', m.thread) then 1 else 0
  {
    hide And;
  }

  lemma LoadAtLonger<V>(s: State<V>, moves: seq<Move<V>>, t: nat, pc: Pc<V>, j: int, k: nat)
    requires Inv(s) && Schedule(moves, |s.threads|) && t < |s.threads| && k <= |moves| &&
               LoadAt(s, moves[..k], t, pc, j)
    ensures LoadAt(s, moves, t, pc, j)
  {
    hide Inv;
    hide Run;
    hide Index;
    assert moves[..k][..j] == moves[..j];
  }

  /** A thread that has seen a cell sequence loaded it in an earlier move of the run, and then had the
      position it still works with. */
  lemma {:induction false} LoadedEarlier<V>(s: State<V>, moves: seq<Move<V>>, t: nat)
    requires Inv(s) && Schedule(moves, |s.threads|) && t < |s.threads| && s.threads[t].Idle?
    ensures var pc := Run(s, moves).threads[t];
            pc.PopSeq? || pc.PushSeq? ==> exists j :: LoadAt(s, moves, t, pc, j)
  {
    if moves != [] {
      var k := |moves| - 1;
      var before, m := Run(s, moves[..k]), moves[k];
      var pc := Run(s, moves).threads[t];
      hide Step;
      hide And;
      LoadedEarlier(s, moves[..k], t);
      InvSized(before);
      hide Inv;
      if pc.PopSeq? || pc.PushSeq? {
        if m.thread == t {
          LoadStep(before, m);
          assert LoadAt(s, moves, t, pc, k);
        } else {
          OtherStep(before, m, t);
          hide LoadAt;
          var j :| LoadAt(s, moves[..k], t, pc, j);
          LoadAtLonger(s, moves, t, pc, j, k);
        }
      }
    }
  }

  /** Move `j` is the sequence load that led to `pc`. */
  ghost predicate LoadAt<V>(s: State<V>, moves: seq<Move<V>>, t: nat, pc: Pc<V>, j: int)
    requires Inv(s) && Schedule(moves, |s.threads|) && t < |s.threads|
  {
    && 0 <= j < |moves| && moves[j].thread == t
    && var at := Run(s, moves[..j]);
       && ((pc.PopSeq? && at.threads[t] == PopPos(pc.pos)) || (pc.PushSeq? && at.threads[t] == PushPos(pc.v, pc.pos)))
       && pc.q == at.cells[Index(at, pc.pos)].sequence
  }

  lemma LoadStep<V>(s: State<V>, m: Move<V>)
    requires Sized(s) && m.thread < |s.threads|
    ensures var pc := Step(s, m).threads[m.thread];
            && (pc.PopSeq? ==> s.threads[m.thread] == PopPos(pc.pos) && pc.q == s.cells[Index(s, pc.pos)].sequence)
            && (pc.PushSeq? ==>
                  s.threads[m.thread] == PushPos(pc.v, pc.pos) && pc.q == s.cells[Index(s, pc.pos)].sequence)
  {
    hide And;
  }

  lemma OtherStep<V>(s: State<V>, m: Move<V>, t: nat)
    requires Sized(s) && m.thread < |s.threads| && t < |s.threads| && m.thread != t
    ensures Step(s, m).threads[t] == s.threads[t]
  {
    hide And;
  }

  lemma FailedSaw<V>(s: State<V>, m: Move<V>)
    requires Inv(s) && m.thread < |s.threads|
    ensures var pc, s' := s.threads[m.thread], Step(s, m);
            && |s'.threads| == |s.threads|
            && (PopFails(s, s', m.thread) ==> pc.PopSeq? && pc.q < pc.pos + 1)
            && (PushFails(s, s', m.thread) ==> pc.PushSeq? && pc.q < pc.pos)
  {
    assert ThreadOk(s, s.threads[m.thread]);
    FailingStep(s, m);
    hide Step;
    hide PopFails;
    hide PushFails;
  }

  /** At move `j` of the run, made by thread `t`, no published ticket waits at the dequeue position. */
  ghost predicate SawEmpty<V>(s: State<V>, moves: seq<Move<V>>, t: nat, j: nat)
    requires Inv(s) && Schedule(moves, |s.threads|)
  {
    j < |moves| && moves[j].thread == t && var at := Run(s, moves[..j]); at.deq == at.enq || SomePushing(at, at.deq)
  }

  /** At move `j`, the ticket one lap before the enqueue position has not been returned by its pop. */
  ghost predicate SawFull<V>(s: State<V>, moves: seq<Move<V>>, t: nat, j: nat)
    requires Inv(s) && Schedule(moves, |s.threads|)
  {
    j < |moves| && moves[j].thread == t && var at := Run(s, moves[..j]);
                                           at.enq >= |at.cells| && !Logged(at, at.enq - |at.cells|)
  }

  lemma LowLoad<V>(s: State<V>, moves: seq<Move<V>>, t: nat, pc: Pc<V>, j: nat)
    requires Inv(s) && Schedule(moves, |s.threads|) && t < |s.threads| && LoadAt(s, moves, t, pc, j)
    ensures pc.PopSeq? && pc.q < pc.pos + 1 ==> SawEmpty(s, moves, t, j)
    ensures pc.PushSeq? && pc.q < pc.pos ==> SawFull(s, moves, t, j)
  {
    var at := Run(s, moves[..j]);
    hide Run;
    if pc.PopSeq? {
      PopSeesEmpty(at, t);
    } else {
      PushSeesFull(at, t);
    }
    hide Inv;
    hide Index;
  }

  lemma Shorter<V>(s: State<V>, moves: seq<Move<V>>, t: nat, j: nat, k: nat)
    requires Inv(s) && Schedule(moves, |s.threads|) && j < k <= |moves|
    ensures SawEmpty(s, moves[..k], t, j) ==> SawEmpty(s, moves, t, j)
    ensures SawFull(s, moves[..k], t, j) ==> SawFull(s, moves, t, j)
  {
    hide Inv;
    hide Run;
    assert moves[..k][..j] == moves[..j];
  }

  /** In every run, a pop that returns false found its ticket unpublished when it loaded the sequence
      (none was claimed at its position, or the push that claimed it had not finished), and a push that
      returns false found that the ticket one lap before its own had not been returned by its pop. */
  lemma FailsOnlyWhen<V>(s: State<V>, moves: seq<Move<V>>, k: nat)
    requires Inv(s) && Schedule(moves, |s.threads|) && k < |moves| && s.threads[moves[k].thread].Idle?
    ensures var t, before, after := moves[k].thread, Run(s, moves[..k]), Run(s, moves[..k + 1]);
            && (PopFails(before, after, t) ==> exists j: nat :: j < k && SawEmpty(s, moves, t, j))
            && (PushFails(before, after, t) ==> exists j: nat :: j < k && SawFull(s, moves, t, j))
  {
    var t, before, after := moves[k].thread, Run(s, moves[..k]), Run(s, moves[..k + 1]);
    assert moves[..k + 1][..k] == moves[..k];
    assert after == Step(before, moves[k]);
    FailedSaw(before, moves[k]);
    LoadedEarlier(s, moves[..k], t);
    hide Inv;
    hide Step;
    hide Run;
    hide LoadAt;
    hide SawEmpty;
    hide SawFull;
    var pc := before.threads[t];
    if PopFails(before, after, t) || PushFails(before, after, t) {
      var j :| LoadAt(s, moves[..k], t, pc, j);
      Loaded(s, moves[..k], t, pc, j);
      LowLoad(s, moves[..k], t, pc, j);
      Shorter(s, moves, t, j, k);
    }
    hide PopFails;
    hide PushFails;
  }

  lemma Loaded<V>(s: State<V>, moves: seq<Move<V>>, t: nat, pc: Pc<V>, j: int)
    requires Inv(s) && Schedule(moves, |s.threads|) && t < |s.threads| && LoadAt(s, moves, t, pc, j)
    ensures 0 <= j < |moves|
  {
  }

  // ----- the result queue of the thread pool: one consumer, bounded credit -----

  predicate IsPop<V>(pc: Pc<V>) {
    pc.PopPos? || pc.PopSeq? || pc.PopOwn? || pc.PopRead?
  }

  /** Thread 0 is the only one that pops, and a push begins only while the pushes begun and not
      matched by a returned pop number less than the size: what the job counters guarantee. */
  predicate Allowed<V>(s: State<V>, m: Move<V>) {
    && m.thread < |s.threads|
    && (s.threads[m.thread].Idle? ==> if m.op.Pop? then m.thread == 0 else s.begun < |s.log| + |s.cells|)
  }

  ghost predicate OneConsumer<V>(s: State<V>) {
    && (forall t :: 0 < t < |s.threads| ==> !IsPop(s.threads[t]))
    && (forall j :: 0 <= j < |s.log| ==> s.log[j].0 == j)
    && s.begun <= |s.log| + |s.cells|
    && s.failed == 0
    && (forall t :: 0 <= t < |s.threads| && s.threads[t].PushSeq? ==> s.threads[t].pos <= s.threads[t].q)
    && if |s.threads| > 0 && (s.threads[0].PopOwn? || s.threads[0].PopRead?)
       then s.threads[0].pos == |s.log| && s.deq == |s.log| + 1
       else s.deq == |s.log|
  }

  lemma LoadSeesRoom<V>(s: State<V>, t: nat)
    requires Inv(s) && OneConsumer(s) && t < |s.threads| && s.threads[t].PushPos?
    ensures s.threads[t].pos <= s.cells[Index(s, s.threads[t].pos)].sequence
  {
    PushSeesFull(s, t);
    SearchingPositive(s.threads, t);
    var pos, n := s.threads[t].pos, |s.cells|;
    assert n <= pos < |s.log| + n ==> s.log[pos - n].0 == pos - n;
  }

  lemma OneConsumerStep<V>(s: State<V>, m: Move<V>)
    requires Inv(s) && OneConsumer(s) && Allowed(s, m)
    ensures OneConsumer(Step(s, m))
  {
    var pc := s.threads[m.thread];
    if pc.PushPos? { LoadSeesRoom(s, m.thread); }
    assert IsPop(pc) ==> m.thread == 0;
    hide Inv;
    assert Sized(s) by { assert Inv(s) ==> Sized(s) by { SizedWhenInv(s); } }
    if IsPop(pc) {
      OneConsumerPop(s, m);
    } else {
      OneConsumerPush(s, m);
    }
  }

  lemma SizedWhenInv<V>(s: State<V>)
    ensures Inv(s) ==> Sized(s)
  {
  }

  lemma OneConsumerPush<V>(s: State<V>, m: Move<V>)
    requires Sized(s) && OneConsumer(s) && Allowed(s, m) && !IsPop(s.threads[m.thread])
    requires var pc := s.threads[m.thread]; pc.PushPos? ==> pc.pos <= s.cells[Index(s, pc.pos)].sequence
    ensures OneConsumer(Step(s, m))
  {
    hide Index;
    hide Sized;
  }

  lemma OneConsumerPop<V>(s: State<V>, m: Move<V>)
    requires Sized(s) && OneConsumer(s) && m.thread == 0 < |s.threads| && IsPop(s.threads[0])
    ensures OneConsumer(Step(s, m))
  {
    hide Index;
    hide Sized;
  }

  ghost predicate AllowedRun<V>(s: State<V>, moves: seq<Move<V>>)
    requires Inv(s)
  {
    && Schedule(moves, |s.threads|)
    && forall j :: 0 <= j < |moves| ==> Allowed(Run(s, moves[..j]), moves[j])
  }

  /** Under that discipline no push ever returns false, in any interleaving: the return value
      that a finished job ignores is always true. Pops come back in push-ticket order. */
  lemma {:induction false} PushNeverFails<V>(s: State<V>, moves: seq<Move<V>>)
    requires Inv(s) && OneConsumer(s) && AllowedRun(s, moves)
    ensures Run(s, moves).failed == 0
    ensures OneConsumer(Run(s, moves))
  {
    hide Inv;
    hide OneConsumer;
    hide Allowed;
    hide Step;
    if moves != [] {
      var init := moves[..|moves| - 1];
      assert AllowedRun(s, init) by { AllowedPrefix(s, moves); }
      PushNeverFails(s, init);
      OneConsumerStep(Run(s, init), moves[|moves| - 1]);
    }
    assert OneConsumer(Run(s, moves)) ==> Run(s, moves).failed == 0 by { NoneFailed(Run(s, moves)); }
  }

  lemma NoneFailed<V>(s: State<V>)
    ensures OneConsumer(s) ==> s.failed == 0
  {
  }

  lemma AllowedPrefix<V>(s: State<V>, moves: seq<Move<V>>)
    requires Inv(s) && AllowedRun(s, moves) && moves != []
    ensures AllowedRun(s, moves[..|moves| - 1])
  {
    hide Inv;
    hide Run;
    hide Allowed;
    var init := moves[..|moves| - 1];
    forall j | 0 <= j < |init| ensures Allowed(Run(s, init[..j]), init[j]) {
      assert init[..j] == moves[..j];
    }
  }
}
