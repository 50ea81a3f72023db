/** The task manager: the object whose methods the IO loop calls. Every method that handles an event
    is proved to perform that event on the manager's state. */
module TaskManager {
  import O = Options
  import opened Dispatch
  import opened TaskEngine
  import opened TaskRuns
  import opened Rendezvous
  import EL = ExpiringList

  class TaskManager {
    const setup: Setup
    const machine: StateMachine
    const future: EL.ExpiringList<Input>   // the early callbacks

    var tasks: map<Uuid, TaskInfo>
    var status: map<Uuid, Status>
    var input: map<Uuid, Input>
    var cntBaseTask: nat
    var cntBaseTaskDone: nat
    var cntJobSent: nat
    var cntJobDone: nat
    var pool: seq<Uuid>                    // jobs queued or running in the thread pool
    var results: seq<Uuid>                 // the result queue
    var upstream: seq<Uuid>                // tasks handed to the upstream manager
    var timers: seq<Uuid>
    var ready: seq<Uuid>                   // the resume queue
    var postponed: set<Uuid>
    var expire: seq<(Time, Uuid)>
    ghost var deadline: map<Uuid, Time>

    ghost function State(): Engine
      reads this, future
    {
      Engine(tasks, status, input, cntBaseTask, cntBaseTaskDone, cntJobSent, cntJobDone,
             pool, results, upstream, timers, ready, postponed, expire, future.cont, deadline)
    }

    /** The early callbacks are in order, and kept for the configured time. */
    ghost predicate Listed(now: Time)
      reads future
    {
      future.Valid(now) && future.delta == setup.life
    }

    /** The manager's invariant, between events. */
    ghost predicate Valid(now: Time)
      reads this, future
    {
      Inv(State(), setup.capacity, {}) && Listed(now)
    }

    constructor (setup: Setup, now: Time)
      ensures Valid(now) && fresh(machine) && fresh(future) && this.setup == setup
      ensures tasks == map[] && cntBaseTask == cntBaseTaskDone == cntJobSent == cntJobDone == 0
    {
      this.setup := setup;
      machine := new StateMachine();
      future := new EL.ExpiringList<Input>(setup.life);
      tasks, status, input := map[], map[], map[];
      cntBaseTask, cntBaseTaskDone, cntJobSent, cntJobDone := 0, 0, 0, 0;
      pool, results, upstream, timers, ready := [], [], [], [], [];
      postponed, expire, deadline := {}, [], map[];
      new;
      assert Clients(tasks) == {};
    }

    // ----- the ways a task leaves the dispatcher -----

    method RespondAndDie(u: Uuid)
      requires u in tasks && u in status && status[u] != Again
      modifies `tasks, `timers, `postponed, `cntBaseTaskDone
      ensures State() == Die(old(State()), u)
    {
      var info := tasks[u];
      if info.kind == Client {
        cntBaseTaskDone := cntBaseTaskDone + 1;
      }
      postponed := postponed - {u};
      if info.kind == Periodic && status[u] != Stop {
        timers := timers + [u];
      } else {
        tasks := tasks - {u};
      }
    }

    method FailTask(u: Uuid)
      requires u in tasks && u in status
      modifies `status, `tasks, `timers, `postponed, `cntBaseTaskDone
      ensures State() == Die(SetStatus(old(State()), u, Error), u)
    {
      hide Die;
      status := status[u := Error];
      RespondAndDie(u);
    }

    /** Takes the oldest early callback for a task off the list, if one is left that has not expired. */
    method TakeEarly(u: Uuid, now: Time) returns (found: O.Option<Input>)
      requires Listed(now)
      modifies future
      ensures Listed(now) && Taken(old(future.cont), future.cont, u, found, now)
    {
      ghost var rest;
      found, rest := future.Extract(u, now);
      hide EL.Sorted;
      IsTaken(old(future.cont), rest, future.cont, u, found, now);
    }

    /** A task postpones itself. If the callback that names it has come already (and has not expired),
        it is resumed at once with that callback's input; otherwise it waits. */
    method PostponeTask(u: Uuid, at: Clock)
      requires Listed(at.look) && u !in postponed
      modifies `input, `ready, `postponed, `expire, `deadline, future
      ensures Listed(at.look) && exists found :: Met(old(State()), State(), u, found, at, setup.timeout)
    {
      hide Met;
      hide Taken;
      ghost var e := State();
      var found := TakeEarly(u, at.look);
      Meets(e, future.cont, u, found, at, setup.timeout);
      if found.Some? {
        assert postponed - {u} == postponed;
        input := input[u := found.value];
        ready := ready + [u];
      } else {
        postponed := postponed + {u};
        expire := expire + [(at.park + setup.timeout, u)];
        deadline := deadline[u := at.park + setup.timeout];
      }
      assert Met(e, State(), u, found, at, setup.timeout);
    }

    /** The callback a task may have been for is delivered: to the named task if that is postponed,
        otherwise to the list where that task will find it. */
    method Deliver(u: Uuid, next: O.Option<Uuid>, now: Time)
      requires Listed(now) && u in input
      modifies `input, `ready, `postponed, future
      ensures Listed(now) && Delivered(old(State()), State(), u, next, now, setup.life)
    {
      if next.Some? {
        if next.value !in postponed {
          future.Add(next.value, input[u], now);
        } else {
          input := input[next.value := input[u]];
          ready := ready + [next.value];
          postponed := postponed - {next.value};
        }
      }
    }

    /** A task ends well: its callback is delivered, then it is answered. */
    method ProcessOk(u: Uuid, next: O.Option<Uuid>, now: Time)
      requires Listed(now) && u in tasks && u in status && u in input && status[u] == Ok
      modifies `input, `ready, `postponed, `tasks, `timers, `cntBaseTaskDone, future
      ensures Listed(now) && Answered(old(State()), State(), u, next, now, setup.life)
    {
      hide Delivered;
      Deliver(u, next, now);
      RespondAndDie(u);
    }

    /** Carries out the one disposal a dispatch ends with. */
    method Settle(u: Uuid, action: Action, next: O.Option<Uuid>, at: Clock)
      requires Listed(at.look) && Fits(State(), setup.capacity, u, action)
      modifies this, future
      ensures Listed(at.look) && Disposed(setup, old(State()), State(), u, action, next, at)
    {
      hide Answered;
      hide Met;
      if action == RunWorker {
        cntJobSent := cntJobSent + 1;
        pool := pool + [u];
      } else if action == RunForward {
        upstream := upstream + [u];
      } else if action == RunPostpone {
        PostponeTask(u, at);
      } else if action == RunOk {
        ProcessOk(u, next, at.look);
      } else {
        RespondAndDie(u);
      }
    }

    /** Runs a task in hand through the state machine, from EXECUTE or, with a job's result, from
        WORKER_ACTION_DONE. */
    method Run(u: Uuid, ghost s: Start, initial: State, x: Script, next: O.Option<Uuid>, at: Clock)
      requires Listed(at.look) && Inv(State(), setup.capacity, {u}) && Legal(setup, State(), u, s, x)
      requires initial == if s.JobResult? then WORKER_ACTION_DONE else EXECUTE
      requires s.JobResult? ==> cntJobSent - cntJobDone < setup.capacity
      modifies this, machine, future
      ensures Listed(at.look) && Dispatches(setup, old(State()), State(), u, s, x, next, at)
    {
      hide Inv;
      hide Disposed;
      hide Fits;
      ghost var e := State();
      DispatchFits(setup, e, u, s, x);
      var r := machine.Dispatch(tasks[u].h, status[u], initial, cntJobSent - cntJobDone == setup.capacity, x);
      assert r == Outcome(setup, e, u, s, x);
      hide Outcome;
      status := status[u := r.status];
      assert State() == SetStatus(e, u, r.status);
      Settle(u, r.trace[|r.trace| - 1], next, at);
    }

    // ----- the events of the IO thread -----

    method AdmitClient(u: Uuid, h: Handlers, data: Input)
      modifies `cntBaseTask, `tasks, `status, `input
      ensures State() == Admit(old(State()), u, h, data)
    {
      cntBaseTask := cntBaseTask + 1;
      tasks := tasks[u := TaskInfo(Client, h)];
      status := status[u := None];
      input := input[u := data];
    }

    /** A request arrives under a new uuid. */
    method OnNewClient(u: Uuid, h: Handlers, data: Input, x: Script, next: O.Option<Uuid>, at: Clock)
      requires Valid(at.look) && u !in tasks && HasAction(h) && x.post != Again
      requires ExecuteLegal(h, None, cntJobSent - cntJobDone == setup.capacity, x)
      modifies this, machine, future
      ensures Valid(at.look) && Happens(setup, old(State()), State(), Dispatched(NewClient(u, h, data), x, next, at))
      ensures cntBaseTask == old(cntBaseTask) + 1
    {
      hide Inv;
      hide ExecuteLegal;
      hide Dispatches;
      hide Happens;
      ghost var e, s := State(), NewClient(u, h, data);
      EnterKeeps(setup, e, s);
      assert Legal(setup, Entered(e, s), u, s, x);
      hide Legal;
      AdmitClient(u, h, data);
      hide Admit;
      Run(u, s, EXECUTE, x, next, at);
      Performed(setup, e, State(), s, x, next, at);
      EventCounts(setup, e, State(), Dispatched(s, x, next, at));
    }

    method AddPeriodicTask(u: Uuid, h: Handlers, data: Input, now: Time)
      requires Valid(now) && u !in tasks && HasAction(h)
      modifies `tasks, `status, `input, `timers
      ensures Valid(now) && Happens(setup, old(State()), State(), NewPeriodic(u, h, data))
    {
      hide Inv;
      EventKeeps(setup, State(), Schedule(State(), u, h, data), NewPeriodic(u, h, data));
      tasks := tasks[u := TaskInfo(Periodic, h)];
      status := status[u := None];
      input := input[u := data];
      timers := timers + [u];
    }

    /** The timer of a periodic task fires. */
    method OnTimer(i: nat, x: Script, next: O.Option<Uuid>, at: Clock)
      requires Valid(at.look) && i < |timers| && x.post != Again
      requires timers[i] in tasks ==>
                 ExecuteLegal(tasks[timers[i]].h, None, cntJobSent - cntJobDone == setup.capacity, x)
      modifies this, machine, future
      ensures Valid(at.look) && Happens(setup, old(State()), State(), Dispatched(Timer(i), x, next, at))
    {
      hide Inv;
      hide ExecuteLegal;
      hide Dispatches;
      hide Happens;
      ghost var e, s := State(), Timer(i);
      EnterKeeps(setup, e, s);
      var u := timers[i];
      timers := Without(timers, i);
      status := status[u := None];
      assert State() == Entered(e, s);
      Run(u, s, EXECUTE, x, next, at);
      Performed(setup, e, State(), s, x, next, at);
    }

    /** The upstream side answers a task, which runs on. */
    method UpstreamDone(i: nat, answer: Input, x: Script, next: O.Option<Uuid>, at: Clock)
      requires Valid(at.look) && i < |upstream| && x.post != Again
      requires upstream[i] in tasks ==>
                 ExecuteLegal(tasks[upstream[i]].h, Forward, cntJobSent - cntJobDone == setup.capacity, x)
      modifies this, machine, future
      ensures Valid(at.look) && Happens(setup, old(State()), State(), Dispatched(Answer(i, answer), x, next, at))
      ensures var u := old(upstream[i]);
              u in old(tasks) && !old(tasks)[u].h.pre && !old(tasks)[u].h.worker ==> u in upstream
    {
      hide Inv;
      hide ExecuteLegal;
      hide Dispatches;
      hide Happens;
      ghost var e, s := State(), Answer(i, answer);
      EnterKeeps(setup, e, s);
      TakeUpstreamKeeps(e, setup.capacity, i);
      var u := upstream[i];
      upstream := Without(upstream, i);
      input := input[u := answer];
      assert State() == Entered(e, s);
      Run(u, s, EXECUTE, x, next, at);
      Performed(setup, e, State(), s, x, next, at);
      BackUpstream(setup, e, State(), i, Dispatched(s, x, next, at));
    }

    /** The upstream side fails a task, which ends with an error. */
    method UpstreamFailed(i: nat, now: Time)
      requires Valid(now) && i < |upstream|
      modifies `upstream, `status, `tasks, `timers, `postponed, `cntBaseTaskDone
      ensures Valid(now) && Happens(setup, old(State()), State(), UpstreamFailure(i))
    {
      hide Inv;
      hide Die;
      FailureKeeps(State(), setup.capacity, i);
      var u := upstream[i];
      upstream := Without(upstream, i);
      FailTask(u);
    }

    /** A pool thread finishes a job and pushes it to the result queue. */
    method WorkerFinishes(i: nat, result: Status, now: Time)
      requires Valid(now) && i < |pool|
      modifies `pool, `results, `status
      ensures Valid(now) && Happens(setup, old(State()), State(), WorkerDone(i, result))
    {
      hide Inv;
      FinishKeeps(State(), setup.capacity, i, result);
      var u := pool[i];
      status := status[u := result];
      pool := Without(pool, i);
      results := results + [u];
    }

    /** The IO thread takes one finished job from the result queue. */
    method TryProcessReadyJob(x: Script, next: O.Option<Uuid>, at: Clock) returns (res: bool)
      requires Valid(at.look) && (results != [] ==> Legal(setup, State(), results[0], JobResult, x))
      modifies this, machine, future
      ensures Valid(at.look) && res == (old(results) != [])
      ensures if res then Happens(setup, old(State()), State(), Dispatched(JobResult, x, next, at))
              else State() == old(State())
    {
      hide Inv;
      hide Dispatches;
      hide Happens;
      res := results != [];
      if res {
        ghost var e := State();
        EnterKeeps(setup, e, JobResult);
        var u := results[0];
        results := results[1..];
        cntJobDone := cntJobDone + 1;
        assert State() == Entered(e, JobResult);
        Run(u, JobResult, WORKER_ACTION_DONE, x, next, at);
        Performed(setup, e, State(), JobResult, x, next, at);
      }
    }

    // ----- postponed tasks -----

    /** Resumes the first task of the resume queue. */
    method ResumeFirst(x: Script, next: O.Option<Uuid>, at: Clock)
      requires Valid(at.look) && ready != [] && x.post != Again
      requires ready[0] in tasks ==>
                 ExecuteLegal(tasks[ready[0]].h, Postpone, cntJobSent - cntJobDone == setup.capacity, x)
      modifies this, machine, future
      ensures Valid(at.look) && Happens(setup, old(State()), State(), Dispatched(Resumption, x, next, at))
      ensures Eased(TakeReady(old(State())), State())
    {
      hide Inv;
      hide ExecuteLegal;
      hide Dispatches;
      hide Happens;
      hide Eased;
      ghost var e := State();
      EnterKeeps(setup, e, Resumption);
      TakeReadyKeeps(e, setup.capacity);
      var u := ready[0];
      ready := ready[1..];
      assert State() == Entered(e, Resumption);
      Run(u, Resumption, EXECUTE, x, next, at);
      Performed(setup, e, State(), Resumption, x, next, at);
      DispatchEases(setup, Entered(e, Resumption), State(), u, Resumption, x, next, at);
    }

    /** Resumes tasks in queue order until none is ready, including those that become ready on the
        way. Round k happens at `clock(k)`; the handlers of the resumed task return what `x` says. */
    method ResumeAll(x: (nat, Handlers, bool) -> Script, next: nat -> O.Option<Uuid>, clock: nat -> Clock)
      returns (n: nat, ghost log: Log)
      requires Valid(clock(0).look) && Ticking(clock) && LegalResults(x)
      modifies this, machine, future
      ensures Valid(clock(n).look) && ready == []
      ensures Links(setup, log, old(State()), State()) && |log.events| == n
      ensures forall k :: 0 <= k < n ==>
                log.events[k].Dispatched? && log.events[k].start.Resumption? && log.events[k].at == clock(k)
    {
      hide Inv;
      hide Happens;
      hide Eased;
      log := Log([State()], []);
      n := 0;
      while ready != []
        invariant Valid(clock(n).look) && |log.events| == n && Links(setup, log, old(State()), State())
        invariant forall k :: 0 <= k < n ==>
                    log.events[k].Dispatched? && log.events[k].start.Resumption? && log.events[k].at == clock(k)
        decreases |ready| + |postponed|, |ready| + |future.cont|
      {
        ghost var e := State();
        TakeReadyKeeps(e, setup.capacity);
        Acts(e, setup.capacity, ready[0]);
        var script := x(n, tasks[ready[0]].h, cntJobSent - cntJobDone == setup.capacity);
        ResumeFirst(script, next(n), clock(n));
        EasedShrinks(e, State());
        ghost var ev := Dispatched(Resumption, script, next(n), clock(n));
        ExtendedLinks(setup, log, old(State()), e, State(), ev);
        log := Log(log.states + [State()], log.events + [ev]);
        n := n + 1;
        LaterList(future, clock(n - 1).look, clock(n).look);
      }
    }

    /** The heap's top is an entry with the latest deadline. */
    method Top() returns (k: nat)
      requires expire != []
      ensures k < |expire| && forall i :: 0 <= i < |expire| ==> expire[i].0 <= expire[k].0
    {
      k := 0;
      for j := 1 to |expire|
        invariant k < |expire| && forall i :: 0 <= i < j ==> expire[i].0 <= expire[k].0
      {
        if expire[j].0 > expire[k].0 {
          k := j;
        }
      }
    }

    /** One round of the expiry loop. */
    method PopTop(k: nat, now: Time)
      requires Valid(now) && k < |expire| && TopExpires(State(), k, now)
      modifies `tasks, `status, `timers, `postponed, `expire, `cntBaseTaskDone
      ensures Valid(now) && Happens(setup, old(State()), State(), Expiry(k, now))
    {
      hide Inv;
      hide Die;
      hide TopExpires;
      var u := expire[k].1;
      ExpireTopKeeps(State(), setup.capacity, k);
      DieKeepsHeap(State(), u);
      if u in postponed {
        FailTask(u);
      }
      expire := expire[..k] + expire[k + 1..];
    }

    /** The expiry loop. As long as one deadline in the heap lies ahead, nothing expires; once all are
        past, every postponed task is answered with an error. So no task expires before its own
        latest deadline, whatever stale entries the heap holds. */
    method ExpireAll(now: Time) returns (ghost log: Log)
      requires Valid(now)
      modifies `tasks, `status, `timers, `postponed, `expire, `cntBaseTaskDone
      ensures Valid(now) && Links(setup, log, old(State()), State())
      ensures forall k :: 0 <= k < |log.events| ==> log.events[k].Expiry? && log.events[k].now == now
      ensures SomeAhead(old(expire), now) ==> State() == old(State())
      ensures !SomeAhead(old(expire), now) ==> expire == [] && postponed == {} && Expired(old(State()), State())
      ensures forall u :: u in old(postponed) && u !in postponed ==> u in old(deadline) && old(deadline)[u] < now
    {
      hide Inv;
      hide Happens;
      ghost var e0 := State();
      log := Log([e0], []);
      ExpiringStarts(setup, e0, log, now);
      hide Expiring;
      while expire != []
        invariant Valid(now) && Expiring(setup, e0, State(), log, now)
        decreases |expire|
      {
        ghost var e := State();
        var k := Top();
        if now <= expire[k].0 {
          assert expire[k] in expire;
          break;
        }
        PopTop(k, now);
        ExpiringStep(setup, e0, e, State(), log, k, now);
        log := Log(log.states + [State()], log.events + [Expiry(k, now)]);
      }
      ExpiringEnds(setup, e0, State(), log, now);
    }

    /** The resume loop, then the expiry loop at the next reading of the clock. */
    method ExecutePostponedTasks(x: (nat, Handlers, bool) -> Script, next: nat -> O.Option<Uuid>, clock: nat -> Clock)
      returns (n: nat, ghost log: Log)
      requires Valid(clock(0).look) && Ticking(clock) && LegalResults(x)
      modifies this, machine, future
      ensures Valid(clock(n).look) && ready == []
      ensures SomeAhead(expire, clock(n).look) || (postponed == {} && expire == [])
      ensures Links(setup, log, old(State()), State()) && n <= |log.events|
      ensures forall k :: 0 <= k < n ==>
                log.events[k].Dispatched? && log.events[k].start.Resumption? && log.events[k].at == clock(k)
      ensures forall k :: n <= k < |log.events| ==> log.events[k].Expiry? && log.events[k].now == clock(n).look
      ensures forall u :: u in old(postponed) && u in old(deadline) && clock(n).look <= old(deadline)[u] &&
                          Unnamed(setup, log, u, |log.events|) ==>
                u in postponed && u in deadline && deadline[u] == old(deadline)[u]
      ensures forall c :: EL.Leads(old(future.cont), c) && clock(n).look < c.deadline &&
                          Unparked(setup, log, c.uuid, |log.events|) ==>
                EL.Leads(future.cont, c)
    {
      hide Inv;
      hide Expired;
      hide Happens;
      hide Unnamed;
      hide Unparked;
      hide EL.Leads;
      ghost var e := State();
      ghost var first, second;
      n, first := ResumeAll(x, next, clock);
      ghost var mid := State();
      second := ExpireAll(clock(n).look);
      JoinedLinks(setup, first, second, e, mid, State());
      log := Joined(first, second);
      assert forall k :: 0 <= k < |log.events| ==> NotLater(log.events[k], clock(n).look);
      KeepsBoth(setup, log, clock(n).look);
    }

    /** The three counter conditions tell exactly whether anything is left but periodic tasks at rest. */
    method CanStop(ghost now: Time) returns (stop: bool)
      requires Valid(now)
      ensures stop <==>
              && pool == [] && results == [] && upstream == []
              && forall u :: u in tasks ==> tasks[u].kind == Periodic
    {
      StopIsSafe(State(), setup.capacity);
      stop := cntBaseTask == cntBaseTaskDone && upstream == [] && cntJobSent == cntJobDone;
    }
  }

  /** A dispatch carried out is an event. */
  lemma Performed(p: Setup, e: Engine, e': Engine, s: Start, x: Script, next: O.Option<Uuid>, at: Clock)
    requires Inv(e, p.capacity, {}) && CanStart(e, s)
    requires Dispatches(p, Entered(e, s), e', Subject(e, s), s, x, next, at)
    ensures Happens(p, e, e', Dispatched(s, x, next, at)) && Inv(e', p.capacity, {})
  {
    hide Inv;
    hide Dispatches;
    EventKeeps(p, e, e', Dispatched(s, x, next, at));
  }

  lemma IsTaken(early: seq<EL.Entry<Input>>, rest: seq<EL.Entry<Input>>, early': seq<EL.Entry<Input>>, u: Uuid,
                found: O.Option<Input>, now: Time)
    requires EL.Chopped(early, rest, now) && EL.Taken(rest, early', u, found)
    ensures Taken(early, early', u, found, now)
  {
  }

  lemma Meets(e: Engine, early: seq<EL.Entry<Input>>, u: Uuid, found: O.Option<Input>, at: Clock, timeout: nat)
    requires u !in e.postponed && Taken(e.early, early, u, found, at.look)
    ensures found.Some? ==> Met(e, Resume(e.(early := early), u, found.value), u, found, at, timeout)
    ensures found.None? ==> Met(e, Park(e.(early := early), u, at.park + timeout), u, found, at, timeout)
  {
  }

  lemma DieKeepsHeap(e: Engine, u: Uuid)
    ensures u in e.tasks ==> Die(SetStatus(e, u, Error), u).expire == e.expire
  {
  }

  /** What the expiry loop keeps: the heap only shrinks, and as soon as it has shrunk all its deadlines
      are known to be past. */
  ghost predicate Expiring(p: Setup, e0: Engine, e: Engine, log: Log, now: Time) {
    && Links(p, log, e0, e) && Expired(e0, e)
    && (forall k :: 0 <= k < |log.events| ==> log.events[k].Expiry? && log.events[k].now == now)
    && (e == e0 || !SomeAhead(e0.expire, now))
    && forall d :: d in e.expire ==> d in e0.expire
  }

  lemma ExpiringStarts(p: Setup, e: Engine, log: Log, now: Time)
    requires log == Log([e], [])
    ensures Expiring(p, e, e, log, now)
  {
    NoneExpired(e);
  }

  lemma ExpiringStep(p: Setup, e0: Engine, e: Engine, e': Engine, log: Log, k: nat, now: Time)
    requires Expiring(p, e0, e, log, now) && Inv(e, p.capacity, {}) && Happens(p, e, e', Expiry(k, now))
    ensures Expiring(p, e0, e', Log(log.states + [e'], log.events + [Expiry(k, now)]), now)
    ensures |e'.expire| < |e.expire|
  {
    ExtendedLinks(p, log, e0, e, e', Expiry(k, now));
    hide Links;
    ExpireTopExpires(e0, e, k, p.capacity);
    hide Inv;
    hide Expired;
    hide ExpireTop;
  }

  lemma ExpiringEnds(p: Setup, e0: Engine, e: Engine, log: Log, now: Time)
    requires Expiring(p, e0, e, log, now) && Inv(e0, p.capacity, {}) && Inv(e, p.capacity, {})
    requires e.expire == [] || SomeAhead(e.expire, now)
    ensures Links(p, log, e0, e)
    ensures forall k :: 0 <= k < |log.events| ==> log.events[k].Expiry? && log.events[k].now == now
    ensures SomeAhead(e0.expire, now) ==> e == e0
    ensures !SomeAhead(e0.expire, now) ==> e.expire == [] && e.postponed == {} && Expired(e0, e)
    ensures forall u :: u in e0.postponed && u !in e.postponed ==> u in e0.deadline && e0.deadline[u] < now
  {
    hide Links;
    DeadlinesQueued(e0, p.capacity);
    DeadlinesQueued(e, p.capacity);
    hide Inv;
    hide Expired;
  }

  /** What a run up to time `now` leaves alone: postponed tasks that no callback named and whose deadline
      has not passed, and early callbacks whose task has not postponed itself. */
  lemma KeepsBoth(p: Setup, log: Log, now: Time)
    requires IsRun(p, log) && Inv(log.states[0], p.capacity, {})
    requires forall k :: 0 <= k < |log.events| ==> NotLater(log.events[k], now)
    ensures var e, e' := log.states[0], log.states[|log.events|];
            && (forall u :: u in e.postponed && u in e.deadline && now <= e.deadline[u] &&
                            Unnamed(p, log, u, |log.events|) ==>
                  u in e'.postponed && u in e'.deadline && e'.deadline[u] == e.deadline[u])
            && (forall c :: EL.Leads(e.early, c) && now < c.deadline && Unparked(p, log, c.uuid, |log.events|) ==>
                  EL.Leads(e'.early, c))
  {
    hide Inv;
    hide Happens;
    hide Unnamed;
    hide Unparked;
    hide EL.Leads;
    var e := log.states[0];
    forall u | u in e.postponed && u in e.deadline && now <= e.deadline[u] && Unnamed(p, log, u, |log.events|)
      ensures var e' := log.states[|log.events|];
              u in e'.postponed && u in e'.deadline && e'.deadline[u] == e.deadline[u]
    {
      TaskFirst(p, log, u, e.deadline[u]);
    }
    forall c | EL.Leads(e.early, c) && now < c.deadline && Unparked(p, log, c.uuid, |log.events|)
      ensures EL.Leads(log.states[|log.events|].early, c)
    {
      CallbackFirst(p, log, c);
    }
  }

  /** Readings of a monotone clock. */
  ghost predicate Ticking(clock: nat -> Clock) {
    && (forall k :: clock(k).look <= clock(k).park)
    && forall j, k :: j < k ==> clock(j).park <= clock(k).look
  }

  /** In every round the handlers of a resumed task return statuses with which its dispatch completes. */
  ghost predicate LegalResults(x: (nat, Handlers, bool) -> Script) {
    forall k, h, full :: HasAction(h) ==> x(k, h, full).post != Again && ExecuteLegal(h, Postpone, full, x(k, h, full))
  }

  lemma Acts(e: Engine, capacity: nat, u: Uuid)
    requires Inv(e, capacity, {}) && u in e.tasks
    ensures HasAction(e.tasks[u].h)
  {
  }

  /** The clock may move on between two events. */
  lemma Later(m: TaskManager, was: Time, now: Time)
    requires m.Valid(was) && was <= now
    ensures m.Valid(now)
  {
    hide Inv;
    LaterList(m.future, was, now);
  }

  lemma LaterList(future: EL.ExpiringList<Input>, was: Time, now: Time)
    requires future.Valid(was) && was <= now
    ensures future.Valid(now)
  {
  }
}
