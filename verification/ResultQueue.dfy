/** The task manager and its result queue together: pool threads push finished jobs through the
    concurrent queue, step by step, while the IO thread pops them and handles events. The list of
    results that the manager's state keeps is exactly what is in the queue, and no push ever fails. */
module ResultQueue {
  import O = Options
  import opened Bits
  import opened TaskEngine
  import opened TaskRuns
  import D = Dispatch
  import Q = MpmcQueue

  datatype System = System(e: Engine, q: Q.State<Uuid>)

  /** An atomic access of a thread to the queue, with the status of the job it is about; or an event
      that the IO thread handles. */
  datatype Act = Access(m: Q.Move<Uuid>, status: D.Status) | Manage(ev: Event)

  /** The thread is pushing job `v` and has not won a ticket for it yet. */
  predicate Offers(pc: Q.Pc<Uuid>, v: Uuid) {
    Q.IsSearching(pc) && pc.v == v
  }

  ghost predicate Offered(q: Q.State<Uuid>, v: Uuid) {
    exists t :: 0 <= t < |q.threads| && Offers(q.threads[t], v)
  }

  /** The access wins a push ticket. */
  predicate Claims(q: Q.State<Uuid>, m: Q.Move<Uuid>)
    requires m.thread < |q.threads|
  {
    var pc := q.threads[m.thread];
    pc.PushSeq? && pc.q == pc.pos == q.enq && !m.spurious
  }

  /** An operation begins as the program does: the IO thread (thread 0) pops once the last result it
      popped is handled, and a job that is done in the pool is pushed by one thread. */
  ghost predicate Begins(s: System, m: Q.Move<Uuid>)
    requires m.thread < |s.q.threads|
  {
    s.q.threads[m.thread].Idle? ==>
      match m.op
      case Pop => m.thread == 0 && |s.q.log| == s.e.cntJobDone
      case Push(v) => v in s.e.pool && !Offered(s.q, v)
  }

  predicate TakesResult(ev: Event) {
    ev.Dispatched? && ev.start.JobResult?
  }

  /** The worker is done, for the manager, when it wins the ticket; a result is handled after the pop
      that returned it. */
  ghost predicate Acts(p: Setup, s: System, s': System, act: Act) {
    match act
    case Access(m, status) =>
      && Q.Sized(s.q) && m.thread < |s.q.threads| && Begins(s, m) && s'.q == Q.Step(s.q, m)
      && if Claims(s.q, m)
         then exists i :: && 0 <= i < |s.e.pool| && s.e.pool[i] == s.q.threads[m.thread].v
                          && s'.e == Finish(s.e, i, status)
         else s'.e == s.e
    case Manage(ev) =>
      && !ev.WorkerDone? && s'.q == s.q && Happens(p, s.e, s'.e, ev)
      && (TakesResult(ev) ==> |s.q.log| > s.e.cntJobDone)
  }

  // ----- the coupling -----

  /** The threads that look for a ticket hold different jobs of the pool. */
  ghost predicate Holders(threads: seq<Q.Pc<Uuid>>, pool: seq<Uuid>) {
    && (forall t :: 0 <= t < |threads| && Q.IsSearching(threads[t]) ==> threads[t].v in pool)
    && (forall t, r :: 0 <= t < r < |threads| && Q.IsSearching(threads[t]) && Q.IsSearching(threads[r]) ==>
          threads[t].v != threads[r].v)
  }

  /** The manager's results are the claimed and not yet handled tickets, in ticket order; at most one
      result is popped and not handled. */
  ghost predicate Coupled(e: Engine, q: Q.State<Uuid>) {
    && e.cntJobDone <= |q.log| <= e.cntJobDone + 1
    && q.enq == |q.claimed| == e.cntJobDone + |e.results|
    && q.claimed[e.cntJobDone..] == e.results
    && Holders(q.threads, e.pool)
    && (|q.threads| > 0 && Q.IsPop(q.threads[0]) ==> |q.log| == e.cntJobDone)
  }

  ghost predicate SystemInv(p: Setup, s: System) {
    && Inv(s.e, p.capacity, {}) && Q.Inv(s.q) && Q.OneConsumer(s.q) && p.capacity <= |s.q.cells|
    && Coupled(s.e, s.q)
  }

  ghost function Held(threads: seq<Q.Pc<Uuid>>): set<Uuid> {
    set t | 0 <= t < |threads| && Q.IsSearching(threads[t]) :: threads[t].v
  }

  /** As many jobs are offered as threads look for a ticket. */
  lemma {:induction false} HeldSize(threads: seq<Q.Pc<Uuid>>, pool: seq<Uuid>)
    requires Holders(threads, pool)
    ensures |Held(threads)| == Q.Searching(threads)
    ensures forall v :: v in Held(threads) ==> v in pool
  {
    if threads != [] {
      var init, last := threads[..|threads| - 1], threads[|threads| - 1];
      HeldSize(init, pool);
      if Q.IsSearching(last) {
        assert Held(threads) == Held(init) + {last.v};
        assert last.v !in Held(init);
      } else {
        assert Held(threads) == Held(init);
      }
    }
  }

  lemma {:induction false} SetInSeq(s: set<Uuid>, pool: seq<Uuid>)
    requires forall v :: v in s ==> v in pool
    ensures |s| <= |pool|
  {
    if pool == [] {
      assert s == {};
    } else {
      var last := pool[|pool| - 1];
      SetInSeq(s - {last}, pool[..|pool| - 1]);
      assert |s| <= |s - {last}| + 1 by { if last in s {} else { assert s - {last} == s; } }
    }
  }

  /** A job that is not offered leaves the threads that look for a ticket fewer than the pool has jobs. */
  lemma RoomToOffer(threads: seq<Q.Pc<Uuid>>, pool: seq<Uuid>, v: Uuid)
    requires Holders(threads, pool) && v in pool && v !in Held(threads)
    ensures Q.Searching(threads) < |pool|
  {
    HeldSize(threads, pool);
    SetInSeq(Held(threads) + {v}, pool);
  }

  /** What the job counters guarantee: a push begins only within the size of the queue. */
  lemma WithinSize(p: Setup, s: System, m: Q.Move<Uuid>)
    requires SystemInv(p, s) && m.thread < |s.q.threads| && Begins(s, m)
    ensures Q.Allowed(s.q, m)
  {
    Counters(s.e, p.capacity);
    QueueCounters(s.q);
    hide Inv;
    hide Q.Inv;
    hide Q.OneConsumer;
    if s.q.threads[m.thread].Idle? && m.op.Push? {
      assert m.op.v !in Held(s.q.threads);
      RoomToOffer(s.q.threads, s.e.pool, m.op.v);
    }
  }

  lemma Counters(e: Engine, capacity: nat)
    requires Inv(e, capacity, {})
    ensures e.cntJobSent == e.cntJobDone + |e.pool| + |e.results| && e.cntJobSent <= e.cntJobDone + capacity
  {
  }

  lemma QueueCounters(q: Q.State<Uuid>)
    requires Q.Inv(q) && Q.OneConsumer(q)
    ensures Q.Sized(q) && q.begun == q.enq + Q.Searching(q.threads) && q.failed == 0
    ensures forall t :: 0 < t < |q.threads| ==> !Q.IsPop(q.threads[t])
    ensures forall j :: 0 <= j < |q.log| ==>
              q.log[j].0 == j < q.deq <= q.enq == |q.claimed| && q.log[j].1 == Q.Full(q.claimed[j])
  {
  }

  // ----- accesses to the queue -----

  lemma HoldersAfter(threads: seq<Q.Pc<Uuid>>, pool: seq<Uuid>, t: nat, pc: Q.Pc<Uuid>)
    requires Holders(threads, pool) && t < |threads|
    requires Q.IsSearching(pc) ==> pc.v in pool
    requires Q.IsSearching(pc) ==> forall r :: 0 <= r < |threads| && r != t ==> !Offers(threads[r], pc.v)
    ensures Holders(threads[t := pc], pool)
  {
  }

  /** The searching threads other than `t`, which won a ticket for `pool[i]`, keep their jobs. */
  lemma HoldersClaimed(threads: seq<Q.Pc<Uuid>>, pool: seq<Uuid>, t: nat, i: nat, pc: Q.Pc<Uuid>)
    requires Holders(threads, pool) && t < |threads| && i < |pool|
    requires Q.IsSearching(threads[t]) && threads[t].v == pool[i] && !Q.IsSearching(pc)
    ensures Holders(threads[t := pc], Without(pool, i))
  {
    var after := threads[t := pc];
    forall r | 0 <= r < |after| && Q.IsSearching(after[r]) ensures after[r].v in Without(pool, i) {
      var j :| 0 <= j < |pool| && pool[j] == after[r].v;
      assert after[r].v != pool[i] by { assert r != t && after[r] == threads[r]; }
      assert Without(pool, i)[if j < i then j else j - 1] == after[r].v;
    }
  }

  lemma ClaimCouples(e: Engine, q: Q.State<Uuid>, m: Q.Move<Uuid>, i: nat, status: D.Status)
    requires Coupled(e, q) && Q.Sized(q) && m.thread < |q.threads| && Claims(q, m)
    requires i < |e.pool| && e.pool[i] == q.threads[m.thread].v
    ensures Coupled(Finish(e, i, status), Q.Step(q, m))
  {
    var v := q.threads[m.thread].v;
    HoldersClaimed(q.threads, e.pool, m.thread, i, Q.PushOwn(v, q.enq));
    hide Holders;
    hide Q.Index;
    assert (q.claimed + [v])[e.cntJobDone..] == q.claimed[e.cntJobDone..] + [v];
  }

  /** Any other access leaves claimed tickets alone, and only the IO thread's pop adds to the log. */
  lemma AccessShape(s: System, m: Q.Move<Uuid>)
    requires Q.Sized(s.q) && m.thread < |s.q.threads| && Begins(s, m) && !Claims(s.q, m)
    requires Coupled(s.e, s.q) && forall t :: 0 < t < |s.q.threads| ==> !Q.IsPop(s.q.threads[t])
    ensures var q, q', t := s.q, Q.Step(s.q, m), m.thread;
            && q'.enq == q.enq && q'.claimed == q.claimed && q'.threads == q.threads[t := q'.threads[t]]
            && |q'.threads| == |q.threads|
            && (|| q'.log == q.log
                || (t == 0 && |q'.log| == |q.log| + 1 && |q.log| == s.e.cntJobDone && !Q.IsPop(q'.threads[0])))
            && (t == 0 && Q.IsPop(q'.threads[0]) ==> |q.log| == s.e.cntJobDone && q'.log == q.log)
  {
    hide Q.Index;
    hide Holders;
  }

  lemma AccessOffers(s: System, m: Q.Move<Uuid>)
    requires Q.Sized(s.q) && m.thread < |s.q.threads| && Begins(s, m) && Holders(s.q.threads, s.e.pool)
    ensures var pc, pc' := s.q.threads[m.thread], Q.Step(s.q, m).threads[m.thread];
            Q.IsSearching(pc') ==>
              && pc'.v in s.e.pool
              && (Q.IsSearching(pc) ==> pc'.v == pc.v)
              && (!Q.IsSearching(pc) ==> !Offered(s.q, pc'.v))
  {
    hide Q.Index;
  }

  lemma AccessCouples(s: System, m: Q.Move<Uuid>)
    requires Q.Sized(s.q) && m.thread < |s.q.threads| && Begins(s, m) && !Claims(s.q, m)
    requires Coupled(s.e, s.q) && forall t :: 0 < t < |s.q.threads| ==> !Q.IsPop(s.q.threads[t])
    ensures Coupled(s.e, Q.Step(s.q, m))
  {
    AccessShape(s, m);
    AccessOffers(s, m);
    var q, q', t := s.q, Q.Step(s.q, m), m.thread;
    hide Q.Step;
    hide Begins;
    hide Claims;
    var pc' := q'.threads[t];
    assert Holders(q'.threads, s.e.pool) by {
      if Q.IsSearching(pc') {
        forall r | 0 <= r < |q.threads| && r != t ensures !Offers(q.threads[r], pc'.v) {
          assert !Q.IsSearching(q.threads[t]) ==> !Offered(q, pc'.v);
        }
      }
      HoldersAfter(q.threads, s.e.pool, t, pc');
    }
    hide Holders;
  }

  lemma AccessKeeps(p: Setup, s: System, s': System, m: Q.Move<Uuid>, status: D.Status)
    requires SystemInv(p, s) && Acts(p, s, s', Access(m, status))
    ensures SystemInv(p, s')
  {
    WithinSize(p, s, m);
    QueueCounters(s.q);
    Q.StepKeeps(s.q, m);
    Q.OneConsumerStep(s.q, m);
    hide Inv;
    hide Q.Inv;
    hide Q.OneConsumer;
    hide Q.Step;
    hide Begins;
    if Claims(s.q, m) {
      var i :| 0 <= i < |s.e.pool| && s.e.pool[i] == s.q.threads[m.thread].v && s'.e == Finish(s.e, i, status);
      FinishKeeps(s.e, p.capacity, i, status);
      ClaimCouples(s.e, s.q, m, i, status);
    } else {
      AccessCouples(s, m);
    }
    hide Coupled;
    hide Finish;
  }

  // ----- events of the manager -----

  lemma HoldersGrow(threads: seq<Q.Pc<Uuid>>, pool: seq<Uuid>, pool': seq<Uuid>)
    requires Holders(threads, pool) && pool <= pool'
    ensures Holders(threads, pool')
  {
    assert forall v :: v in pool ==> v in pool';
  }

  lemma ManageKeeps(p: Setup, s: System, s': System, ev: Event)
    requires SystemInv(p, s) && Acts(p, s, s', Manage(ev))
    ensures SystemInv(p, s')
  {
    hide Inv;
    hide Happens;
    hide Q.Inv;
    hide Q.OneConsumer;
    hide Coupled;
    EventKeeps(p, s.e, s'.e, ev);
    EventCounts(p, s.e, s'.e, ev);
    EventCouples(s.e, s'.e, s.q, TakesResult(ev));
  }

  lemma EventCouples(e: Engine, e': Engine, q: Q.State<Uuid>, result: bool)
    requires Coupled(e, q) && e.pool <= e'.pool && e'.cntJobDone == e.cntJobDone + if result then 1 else 0
    requires if result then e.results != [] && e'.results == e.results[1..] && |q.log| > e.cntJobDone
             else e'.results == e.results
    ensures Coupled(e', q)
  {
    HoldersGrow(q.threads, e.pool, e'.pool);
    hide Holders;
    if result {
      assert q.claimed[e.cntJobDone..][1..] == q.claimed[e.cntJobDone + 1..];
    }
  }

  // ----- whole runs -----

  ghost predicate IsSystemRun(p: Setup, states: seq<System>, acts: seq<Act>) {
    && |states| == |acts| + 1
    && forall k :: 0 <= k < |acts| ==> Acts(p, states[k], states[k + 1], acts[k])
  }

  /** The manager with no job sent, and a new queue no smaller than the pool's capacity. */
  ghost predicate Initial(p: Setup, s: System, size: nat, threads: nat) {
    && Inv(s.e, p.capacity, {}) && s.e.cntJobSent == 0
    && LeastPow2(p.capacity, size) && size >= 2
    && Q.Create<Uuid>(size, threads).Ok? && s.q == Q.Create<Uuid>(size, threads).value
  }

  lemma InitialInv(p: Setup, s: System, size: nat, threads: nat)
    requires Initial(p, s, size, threads)
    ensures SystemInv(p, s)
  {
    Counters(s.e, p.capacity);
    assert Q.OneConsumer(s.q);
    hide Inv;
    hide Q.Inv;
  }

  lemma {:induction false} SystemRunKeeps(p: Setup, states: seq<System>, acts: seq<Act>, k: nat)
    requires IsSystemRun(p, states, acts) && SystemInv(p, states[0]) && k <= |acts|
    ensures SystemInv(p, states[k])
  {
    hide SystemInv;
    hide Acts;
    if k > 0 {
      SystemRunKeeps(p, states, acts, k - 1);
      var s, s', act := states[k - 1], states[k], acts[k - 1];
      assert Acts(p, s, s', act);
      if act.Access? {
        AccessKeeps(p, s, s', act.m, act.status);
      } else {
        ManageKeeps(p, s, s', act.ev);
      }
    }
  }

  /** In every interleaving of pool threads, IO thread and events: no push has failed, the jobs sent
      and not done stay within the pool's capacity, and whenever a popped result is waiting to be
      handled, it is the job that the manager handles next. So the result of the push that a
      finished job ignores is always true, and no job is lost. */
  lemma JobResultNeverLost(p: Setup, states: seq<System>, acts: seq<Act>, size: nat, threads: nat, k: nat)
    requires IsSystemRun(p, states, acts) && Initial(p, states[0], size, threads) && k <= |acts|
    ensures var s := states[k];
            && s.q.failed == 0
            && s.e.cntJobDone <= s.e.cntJobSent <= s.e.cntJobDone + p.capacity
            && (|s.q.log| > s.e.cntJobDone ==>
                  s.e.results != [] && s.q.log[s.e.cntJobDone] == (s.e.cntJobDone, Q.Full(s.e.results[0])))
  {
    InitialInv(p, states[0], size, threads);
    hide Initial;
    hide SystemInv;
    hide Acts;
    SystemRunKeeps(p, states, acts, k);
    NothingLost(p, states[k]);
  }

  lemma NothingLost(p: Setup, s: System)
    requires SystemInv(p, s)
    ensures s.q.failed == 0 && s.e.cntJobDone <= s.e.cntJobSent <= s.e.cntJobDone + p.capacity
    ensures |s.q.log| > s.e.cntJobDone ==>
              s.e.results != [] && s.q.log[s.e.cntJobDone] == (s.e.cntJobDone, Q.Full(s.e.results[0]))
  {
    QueueCounters(s.q);
    Counters(s.e, p.capacity);
    hide Inv;
    hide Q.Inv;
    hide Q.OneConsumer;
    hide Holders;
    if |s.q.log| > s.e.cntJobDone {
      assert s.q.claimed[s.e.cntJobDone..][0] == s.q.claimed[s.e.cntJobDone];
    }
  }
}
