/** The task manager: client and periodic tasks move between the thread pool, the result queue,
    upstream requests, the postponed map, the resume queue and the timer list. A task is named by
    its uuid; times and handler results are passed in. */
module TaskEngine {
  import O = Options
  import opened Dispatch
  import EL = ExpiringList

  type Uuid = nat
  type Time = int
  type Input = nat

  datatype Kind = Client | Periodic

  datatype TaskInfo = TaskInfo(kind: Kind, h: Handlers)

  predicate HasAction(h: Handlers) {
    h.pre || h.worker || h.post
  }

  /** What the last action of a completed dispatch says about the final status. */
  ghost predicate Tells(h: Handlers, full: bool, r: Result) {
    r.Finished? ==>
      && r.trace != []
      && var last := r.trace[|r.trace| - 1];
         && Disposes(h, full, last)
         && (last == RunForward ==> r.status == Forward)
         && (last == RunPostpone ==> r.status == Postpone)
         && (last == RunOk ==> r.status == Ok)
         && (last !in {RunWorker, RunForward, RunPostpone} ==> r.status != Again)
  }

  lemma TellsAfter(h: Handlers, full: bool, action: Action, r: Result)
    requires Tells(h, full, r)
    ensures Tells(h, full, After(action, r))
    ensures r.Finished? && r.trace != [] ==>
              After(action, r).trace[|After(action, r).trace| - 1] == r.trace[|r.trace| - 1]
  {
  }

  lemma TellsPost(h: Handlers, full: bool, status: Status, x: Script)
    requires x.post != Again && status != Again
    ensures Tells(h, full, PostPhase(h, status, x, 0))
    ensures var r := PostPhase(h, status, x, 0);
            r.Finished? ==> r.trace != [] && r.trace[|r.trace| - 1] !in {CheckOverflow, RunWorker}
  {
    PostEnding(h, status, x);
    PostDisposes(h, full, status, x);
    PostIff(h, status, x);
    hide PostPhase;
  }

  lemma TellsChkPre(h: Handlers, full: bool, s: Status, x: Script)
    requires x.post != Again
    ensures Tells(h, full, ChkPre(h, s, x))
    ensures var r := ChkPre(h, s, x); r.Finished? ==> r.trace != [] && r.trace[|r.trace| - 1] != CheckOverflow
  {
    if s != Again {
      TellsPost(h, full, s, x);
      hide PostPhase;
      TellsAfter(h, full, RunWorker, PostPhase(h, s, x, 0));
    }
  }

  lemma TellsExecuted(h: Handlers, entry: Status, full: bool, x: Script)
    requires x.post != Again && entry in {None, Ok, Forward, Postpone}
    ensures var r := Executed(h, entry, full, x);
            Tells(h, full, r) && (r.Finished? && r.trace[|r.trace| - 1] == RunWorker ==> !full)
  {
    if !(h.worker && full) {
      var s := if h.pre then x.pre else entry;
      TellsChkPre(h, full, s, x);
      hide ChkPre;
      TellsAfter(h, full, RunPre, ChkPre(h, s, x));
      TellsAfter(h, full, CheckOverflow, After(RunPre, ChkPre(h, s, x)));
    }
  }

  lemma TellsReturned(h: Handlers, entry: Status, full: bool, x: Script)
    requires x.post != Again && h.worker
    ensures var r := JobReturned(h, entry, x);
            Tells(h, full, r) && (r.Finished? ==> r.trace[|r.trace| - 1] != CheckOverflow)
  {
    if entry != Again { TellsPost(h, full, entry, x); }
  }

  lemma PostEnding(h: Handlers, status: Status, x: Script)
    requires x.post != Again && status != Again
    ensures var r := PostPhase(h, status, x, 0);
            r.Finished? ==>
              && r.status == Settled(h, status, x) && r.trace != []
              && var last := r.trace[|r.trace| - 1];
                 && last !in {CheckOverflow, RunWorker}
                 && (last == RunForward ==> r.status == Forward)
                 && (last == RunPostpone ==> r.status == Postpone)
                 && (last == RunOk ==> r.status == Ok)
  {
    var tail := After(RunPost, Ending(x.post));
    RoundsShape(x.again, tail);
    hide AgainRounds;
    var all := AgainRounds(x.again, tail).trace;
    if tail.Finished? { assert all[|all| - 1] == all[2 * x.again..][|tail.trace| - 1]; }
  }

  // ----- the manager's state -----

  /** Everything the manager keeps: the tasks that have not been released with their last status
      and input, the counters, the places a task can be in, the expiry heap (as a bag), the list of
      early callbacks, and, as history, the latest deadline set for a postponed task. */
  datatype Engine = Engine(
    tasks: map<Uuid, TaskInfo>, status: map<Uuid, Status>, input: map<Uuid, Input>,
    cntBaseTask: nat, cntBaseTaskDone: nat, cntJobSent: nat, cntJobDone: nat,
    pool: seq<Uuid>, results: seq<Uuid>, upstream: seq<Uuid>, timers: seq<Uuid>, ready: seq<Uuid>,
    postponed: set<Uuid>, expire: seq<(Time, Uuid)>, early: seq<EL.Entry<Input>>, deadline: map<Uuid, Time>)

  /** How often a task occurs in all the places together. */
  ghost function Occurs(e: Engine, u: Uuid): nat {
    multiset(e.pool)[u] + multiset(e.results)[u] + multiset(e.upstream)[u] + multiset(e.timers)[u]
    + multiset(e.ready)[u] + if u in e.postponed then 1 else 0
  }

  /** Every live task is in exactly one place, or in the dispatcher's hand; nothing else is anywhere. */
  ghost predicate Conserved(e: Engine, hand: set<Uuid>) {
    forall u :: Occurs(e, u) + (if u in hand then 1 else 0) == if u in e.tasks then 1 else 0
  }

  ghost function Clients(tasks: map<Uuid, TaskInfo>): set<Uuid> {
    set u | u in tasks && tasks[u].kind == Client
  }

  /** The counters tell the live clients and the jobs in the pool, which never exceed its capacity. */
  ghost predicate Counted(e: Engine, capacity: nat) {
    && e.cntBaseTask == e.cntBaseTaskDone + |Clients(e.tasks)|
    && e.cntJobSent == e.cntJobDone + |e.pool| + |e.results|
    && e.cntJobSent - e.cntJobDone <= capacity
  }

  /** Tasks wait with the status that made them wait, and only worker tasks are in the pool. */
  ghost predicate Labelled(e: Engine) {
    && (forall u :: u in e.tasks ==> u in e.status && u in e.input && HasAction(e.tasks[u].h))
    && (forall u :: u in e.upstream ==> u in e.status && e.status[u] == Forward)
    && (forall u :: u in e.ready || u in e.postponed ==> u in e.status && e.status[u] == Postpone)
    && (forall u :: u in e.pool || u in e.results ==> u in e.tasks && e.tasks[u].h.worker)
  }

  /** No early callback is kept for a postponed task, and its own deadline is in the heap. */
  ghost predicate Meeting(e: Engine) {
    forall u :: u in e.postponed ==> !EL.Has(e.early, u) && u in e.deadline && (e.deadline[u], u) in e.expire
  }

  ghost predicate Rest(e: Engine, capacity: nat) {
    Counted(e, capacity) && Labelled(e) && Meeting(e)
  }

  ghost predicate Inv(e: Engine, capacity: nat, hand: set<Uuid>) {
    Conserved(e, hand) && Rest(e, capacity)
  }

  /** A task in hand, or one that does not live, is in no place. */
  lemma Nowhere(e: Engine, hand: set<Uuid>, u: Uuid)
    requires Conserved(e, hand) && (u in hand || u !in e.tasks)
    ensures Occurs(e, u) == 0 && (u in hand ==> u in e.tasks)
    ensures u !in e.pool && u !in e.results && u !in e.upstream && u !in e.timers && u !in e.ready && u !in e.postponed
  {
    assert Occurs(e, u) + (if u in hand then 1 else 0) == if u in e.tasks then 1 else 0;
  }

  /** Between events, a task lives exactly if it is in some place, and then in that place only, once. */
  lemma OnePlace(e: Engine, capacity: nat, u: Uuid)
    requires Inv(e, capacity, {})
    ensures u in e.tasks <==> || u in e.pool || u in e.results || u in e.upstream || u in e.timers
                              || u in e.ready || u in e.postponed
    ensures (if u in e.pool then 1 else 0) + (if u in e.results then 1 else 0) + (if u in e.upstream then 1 else 0)
            + (if u in e.timers then 1 else 0) + (if u in e.ready then 1 else 0)
            + (if u in e.postponed then 1 else 0) <= 1
    ensures multiset(e.pool + e.results + e.upstream + e.timers + e.ready)[u] <= 1
  {
    assert Occurs(e, u) + (if u in {} then 1 else 0) == if u in e.tasks then 1 else 0;
    hide Conserved;
    hide Rest;
    assert u in e.pool <==> multiset(e.pool)[u] > 0;
    assert u in e.results <==> multiset(e.results)[u] > 0;
    assert u in e.upstream <==> multiset(e.upstream)[u] > 0;
    assert u in e.timers <==> multiset(e.timers)[u] > 0;
    assert u in e.ready <==> multiset(e.ready)[u] > 0;
  }

  /** Changing how often the tasks occur, and who is live or in hand, in step. */
  lemma Rebalanced(e: Engine, hand: set<Uuid>, e': Engine, hand': set<Uuid>)
    requires Conserved(e, hand)
    requires forall x :: Occurs(e', x) - Occurs(e, x) ==
               (if x in e'.tasks then 1 else 0) - (if x in e.tasks then 1 else 0)
               - (if x in hand' then 1 else 0) + (if x in hand then 1 else 0)
    ensures Conserved(e', hand')
  {
    forall x ensures Occurs(e', x) + (if x in hand' then 1 else 0) == if x in e'.tasks then 1 else 0 {
      assert Occurs(e, x) + (if x in hand then 1 else 0) == if x in e.tasks then 1 else 0;
      assert Occurs(e', x) - Occurs(e, x) ==
               (if x in e'.tasks then 1 else 0) - (if x in e.tasks then 1 else 0)
               - (if x in hand' then 1 else 0) + (if x in hand then 1 else 0);
    }
  }

  // ----- the ways a task leaves the dispatcher -----

  /** Answered for good: a client task is counted as done and released, a periodic task is scheduled
      again unless it stopped. */
  function Die(e: Engine, u: Uuid): Engine
    requires u in e.tasks && u in e.status
  {
    var client := e.tasks[u].kind == Client;
    var e' := e.(cntBaseTaskDone := e.cntBaseTaskDone + (if client then 1 else 0), postponed := e.postponed - {u});
    if !client && e.status[u] != Stop then e'.(timers := e.timers + [u]) else e'.(tasks := e.tasks - {u})
  }

  lemma ReleasedClients(tasks: map<Uuid, TaskInfo>, u: Uuid)
    requires u in tasks
    ensures |Clients(tasks)| == |Clients(tasks - {u})| + if tasks[u].kind == Client then 1 else 0
  {
    assert Clients(tasks - {u}) == Clients(tasks) - {u};
  }

  lemma Appended(s: seq<Uuid>, u: Uuid)
    ensures forall x :: multiset(s + [u])[x] == multiset(s)[x] + if x == u then 1 else 0
  {
  }

  lemma TakenOut(s: seq<Uuid>, i: nat)
    requires i < |s|
    ensures s[i] in multiset(s)
    ensures forall x :: multiset(Without(s, i))[x] == multiset(s)[x] - if x == s[i] then 1 else 0
  {
    assert s == s[..i] + [s[i]] + s[i + 1..];
  }

  lemma DieConserves(e: Engine, u: Uuid)
    requires u in e.tasks && u in e.status && Conserved(e, {u} - e.postponed)
    ensures Conserved(Die(e, u), {})
    ensures u !in e.pool && u !in e.results
  {
    var e' := Die(e, u);
    Appended(e.timers, u);
    assert Occurs(e, u) + (if u in {u} - e.postponed then 1 else 0) == 1;
    forall x ensures Occurs(e', x) == if x in e'.tasks then 1 else 0 {
      assert Occurs(e, x) + (if x in {u} - e.postponed then 1 else 0) == if x in e.tasks then 1 else 0;
    }
  }

  lemma DieLabels(e: Engine, u: Uuid)
    requires u in e.tasks && u in e.status && Labelled(e) && Meeting(e) && u !in e.pool && u !in e.results
    ensures Labelled(Die(e, u)) && Meeting(Die(e, u))
  {
  }

  lemma DieCounts(e: Engine, capacity: nat, u: Uuid)
    requires u in e.tasks && u in e.status && Counted(e, capacity)
    ensures Counted(Die(e, u), capacity)
  {
    ReleasedClients(e.tasks, u);
  }

  lemma DieKeeps(e: Engine, capacity: nat, u: Uuid)
    requires u in e.tasks && u in e.status && Inv(e, capacity, {u} - e.postponed)
    ensures Inv(Die(e, u), capacity, {})
  {
    hide Conserved;
    hide Labelled;
    hide Counted;
    hide Meeting;
    hide Die;
    DieConserves(e, u);
    DieLabels(e, u);
    DieCounts(e, capacity, u);
  }

  /** Posted to the pool. */
  function Post(e: Engine, u: Uuid): Engine {
    e.(cntJobSent := e.cntJobSent + 1, pool := e.pool + [u])
  }

  /** Handed to the upstream manager. */
  function Forwarded(e: Engine, u: Uuid): Engine {
    e.(upstream := e.upstream + [u])
  }

  /** Put aside until a callback names it, or until the deadline. */
  function Park(e: Engine, u: Uuid, until: Time): Engine {
    e.(postponed := e.postponed + {u}, expire := e.expire + [(until, u)], deadline := e.deadline[u := until])
  }

  /** Queued for resumption with a callback's input. */
  function Resume(e: Engine, u: Uuid, input: Input): Engine {
    e.(input := e.input[u := input], ready := e.ready + [u], postponed := e.postponed - {u})
  }

  /** Whatever single place a task in hand goes to, it ends up there once. */
  lemma PlacedConserves(e: Engine, e': Engine, u: Uuid)
    requires Conserved(e, {u}) && e'.tasks == e.tasks
    requires forall x :: Occurs(e', x) == Occurs(e, x) + if x == u then 1 else 0
    ensures Conserved(e', {})
    ensures u in e.tasks && u !in e.postponed
  {
    assert Occurs(e, u) + 1 == if u in e.tasks then 1 else 0;
    forall x ensures Occurs(e', x) == if x in e'.tasks then 1 else 0 {
      assert Occurs(e, x) + (if x in {u} then 1 else 0) == if x in e.tasks then 1 else 0;
    }
  }

  lemma PostKeeps(e: Engine, capacity: nat, u: Uuid)
    requires Inv(e, capacity, {u}) && u in e.tasks && e.tasks[u].h.worker && e.cntJobSent - e.cntJobDone < capacity
    ensures Inv(Post(e, u), capacity, {})
  {
    PostRest(e, capacity, u);
    hide Rest;
    Appended(e.pool, u);
    PlacedConserves(e, Post(e, u), u);
    hide Conserved;
  }

  lemma PostRest(e: Engine, capacity: nat, u: Uuid)
    requires Rest(e, capacity) && u in e.tasks && e.tasks[u].h.worker && e.cntJobSent - e.cntJobDone < capacity
    ensures Rest(Post(e, u), capacity)
  {
  }

  lemma ForwardedKeeps(e: Engine, capacity: nat, u: Uuid)
    requires Inv(e, capacity, {u}) && u in e.status && e.status[u] == Forward
    ensures Inv(Forwarded(e, u), capacity, {})
  {
    ForwardedRest(e, capacity, u);
    hide Rest;
    Appended(e.upstream, u);
    PlacedConserves(e, Forwarded(e, u), u);
    hide Conserved;
  }

  lemma ForwardedRest(e: Engine, capacity: nat, u: Uuid)
    requires Rest(e, capacity) && u in e.status && e.status[u] == Forward
    ensures Rest(Forwarded(e, u), capacity)
  {
  }

  lemma ParkLabels(e: Engine, u: Uuid, until: Time)
    requires Labelled(e) && Meeting(e) && u in e.status && e.status[u] == Postpone && !EL.Has(e.early, u)
    ensures Labelled(Park(e, u, until)) && Meeting(Park(e, u, until))
  {
    var e' := Park(e, u, until);
    assert e'.expire[|e.expire|] == (until, u);
  }

  lemma ParkKeeps(e: Engine, capacity: nat, u: Uuid, until: Time)
    requires Inv(e, capacity, {u}) && u in e.status && e.status[u] == Postpone && !EL.Has(e.early, u)
    ensures Inv(Park(e, u, until), capacity, {})
  {
    hide Labelled;
    hide Meeting;
    ParkLabels(e, u, until);
    assert Occurs(e, u) + 1 == if u in e.tasks then 1 else 0;
    PlacedConserves(e, Park(e, u, until), u);
    hide Conserved;
  }

  lemma ResumeConserves(e: Engine, u: Uuid, input: Input, hand: set<Uuid>)
    requires Conserved(e, hand) && (u in hand || u in e.postponed)
    ensures Conserved(Resume(e, u, input), hand - {u})
  {
    var e' := Resume(e, u, input);
    Appended(e.ready, u);
    forall x ensures Occurs(e', x) + (if x in hand - {u} then 1 else 0) == if x in e'.tasks then 1 else 0 {
      assert Occurs(e, x) + (if x in hand then 1 else 0) == if x in e.tasks then 1 else 0;
    }
  }

  lemma ResumeLabels(e: Engine, u: Uuid, input: Input)
    requires Labelled(e) && Meeting(e) && u in e.status && e.status[u] == Postpone
    ensures Labelled(Resume(e, u, input)) && Meeting(Resume(e, u, input))
  {
  }

  /** Resuming a task in hand, or one that was postponed. */
  lemma ResumeKeeps(e: Engine, capacity: nat, u: Uuid, input: Input, hand: set<Uuid>)
    requires Inv(e, capacity, hand) && (u in hand || u in e.postponed) && u in e.status && e.status[u] == Postpone
    ensures Inv(Resume(e, u, input), capacity, hand - {u})
  {
    hide Labelled;
    hide Meeting;
    hide Conserved;
    ResumeConserves(e, u, input, hand);
    ResumeLabels(e, u, input);
  }

  /** The early-callback list may change as long as it names no postponed task. */
  lemma EarlyKeeps(e: Engine, capacity: nat, early: seq<EL.Entry<Input>>, hand: set<Uuid>)
    requires Inv(e, capacity, hand) && forall u :: u in e.postponed ==> !EL.Has(early, u)
    ensures Inv(e.(early := early), capacity, hand)
  {
    hide Labelled;
    var e' := e.(early := early);
    assert Labelled(e') by { EarlyLabels(e, early); }
    forall u ensures Occurs(e', u) == Occurs(e, u) {}
    assert Conserved(e', hand) by {
      forall u ensures Occurs(e', u) + (if u in hand then 1 else 0) == if u in e'.tasks then 1 else 0 {
        assert Occurs(e, u) + (if u in hand then 1 else 0) == if u in e.tasks then 1 else 0;
      }
    }
  }

  lemma EarlyLabels(e: Engine, early: seq<EL.Entry<Input>>)
    requires Labelled(e)
    ensures Labelled(e.(early := early))
  {
  }

  // ----- the ways a task enters the dispatcher -----

  function Without(s: seq<Uuid>, i: nat): seq<Uuid>
    requires i < |s|
  {
    s[..i] + s[i + 1..]
  }

  /** The status of a task in hand is free to change: it is in none of the waiting places. */
  function SetStatus(e: Engine, u: Uuid, s: Status): Engine {
    e.(status := e.status[u := s])
  }

  lemma SetStatusKeeps(e: Engine, capacity: nat, u: Uuid, s: Status)
    requires Inv(e, capacity, {u})
    ensures Inv(SetStatus(e, u, s), capacity, {u})
  {
    Nowhere(e, {u}, u);
    SetStatusRest(e, capacity, u, s);
    hide Rest;
    Rebalanced(e, {u}, SetStatus(e, u, s), {u});
  }

  lemma SetStatusRest(e: Engine, capacity: nat, u: Uuid, s: Status)
    requires Rest(e, capacity) && u !in e.upstream && u !in e.ready && u !in e.postponed
    ensures Rest(SetStatus(e, u, s), capacity)
  {
  }

  /** A new client task. */
  function Admit(e: Engine, u: Uuid, h: Handlers, input: Input): Engine {
    e.(tasks := e.tasks[u := TaskInfo(Client, h)], status := e.status[u := None], input := e.input[u := input],
       cntBaseTask := e.cntBaseTask + 1)
  }

  lemma AdmitLabels(e: Engine, u: Uuid, h: Handlers, input: Input)
    requires Labelled(e) && Meeting(e) && u !in e.tasks && HasAction(h)
    requires u !in e.pool && u !in e.results && u !in e.upstream && u !in e.ready && u !in e.postponed
    ensures Labelled(Admit(e, u, h, input)) && Meeting(Admit(e, u, h, input))
  {
  }

  lemma AdmitRest(e: Engine, capacity: nat, u: Uuid, h: Handlers, input: Input)
    requires Rest(e, capacity) && u !in e.tasks && HasAction(h)
    requires u !in e.pool && u !in e.results && u !in e.upstream && u !in e.ready && u !in e.postponed
    ensures Rest(Admit(e, u, h, input), capacity)
  {
    hide Labelled;
    hide Meeting;
    var e' := Admit(e, u, h, input);
    AdmitLabels(e, u, h, input);
    assert Clients(e'.tasks) == Clients(e.tasks) + {u};
  }

  lemma AdmitKeeps(e: Engine, capacity: nat, u: Uuid, h: Handlers, input: Input)
    requires Inv(e, capacity, {}) && u !in e.tasks && HasAction(h)
    ensures Inv(Admit(e, u, h, input), capacity, {u})
  {
    hide Rest;
    Nowhere(e, {}, u);
    AdmitRest(e, capacity, u, h, input);
    Rebalanced(e, {}, Admit(e, u, h, input), {u});
  }

  /** A new periodic task waits for its timer. */
  function Schedule(e: Engine, u: Uuid, h: Handlers, input: Input): Engine {
    e.(tasks := e.tasks[u := TaskInfo(Periodic, h)], status := e.status[u := None], input := e.input[u := input],
       timers := e.timers + [u])
  }

  lemma ScheduleRest(e: Engine, capacity: nat, u: Uuid, h: Handlers, input: Input)
    requires Rest(e, capacity) && u !in e.tasks && HasAction(h)
    requires u !in e.pool && u !in e.results && u !in e.upstream && u !in e.ready && u !in e.postponed
    ensures Rest(Schedule(e, u, h, input), capacity)
  {
    assert Clients(Schedule(e, u, h, input).tasks) == Clients(e.tasks);
  }

  lemma ScheduleKeeps(e: Engine, capacity: nat, u: Uuid, h: Handlers, input: Input)
    requires Inv(e, capacity, {}) && u !in e.tasks && HasAction(h)
    ensures Inv(Schedule(e, u, h, input), capacity, {})
  {
    hide Rest;
    Nowhere(e, {}, u);
    ScheduleRest(e, capacity, u, h, input);
    Appended(e.timers, u);
    Rebalanced(e, {}, Schedule(e, u, h, input), {});
  }

  /** A task that occurs somewhere lives. */
  lemma Lives(e: Engine, u: Uuid)
    requires Conserved(e, {}) && Occurs(e, u) > 0
    ensures u in e.tasks
  {
    assert Occurs(e, u) + (if u in {} then 1 else 0) == if u in e.tasks then 1 else 0;
  }

  function TakeTimer(e: Engine, i: nat): Engine
    requires i < |e.timers|
  {
    e.(timers := Without(e.timers, i))
  }

  lemma TakeTimerKeeps(e: Engine, capacity: nat, i: nat)
    requires Inv(e, capacity, {}) && i < |e.timers|
    ensures Inv(TakeTimer(e, i), capacity, {e.timers[i]}) && e.timers[i] in e.tasks
  {
    TakeTimerRest(e, capacity, i);
    hide Rest;
    hide Conserved;
    TakenOut(e.timers, i);
    Lives(e, e.timers[i]);
    Rebalanced(e, {}, TakeTimer(e, i), {e.timers[i]});
  }

  lemma TakeTimerRest(e: Engine, capacity: nat, i: nat)
    requires Rest(e, capacity) && i < |e.timers|
    ensures Rest(TakeTimer(e, i), capacity)
  {
    assert forall x :: x in Without(e.timers, i) ==> x in e.timers;
  }

  function TakeUpstream(e: Engine, i: nat): Engine
    requires i < |e.upstream|
  {
    e.(upstream := Without(e.upstream, i))
  }

  lemma TakeUpstreamKeeps(e: Engine, capacity: nat, i: nat)
    requires Inv(e, capacity, {}) && i < |e.upstream|
    ensures Inv(TakeUpstream(e, i), capacity, {e.upstream[i]})
    ensures e.upstream[i] in e.tasks && e.upstream[i] in e.status && e.status[e.upstream[i]] == Forward
  {
    TakeUpstreamRest(e, capacity, i);
    hide Rest;
    hide Conserved;
    TakenOut(e.upstream, i);
    Lives(e, e.upstream[i]);
    Rebalanced(e, {}, TakeUpstream(e, i), {e.upstream[i]});
  }

  lemma TakeUpstreamRest(e: Engine, capacity: nat, i: nat)
    requires Rest(e, capacity) && i < |e.upstream|
    ensures Rest(TakeUpstream(e, i), capacity)
  {
    assert forall x :: x in Without(e.upstream, i) ==> x in e.upstream;
  }

  function TakeReady(e: Engine): Engine
    requires e.ready != []
  {
    e.(ready := e.ready[1..])
  }

  lemma TakeReadyKeeps(e: Engine, capacity: nat)
    requires Inv(e, capacity, {}) && e.ready != []
    ensures Inv(TakeReady(e), capacity, {e.ready[0]})
    ensures e.ready[0] in e.tasks && e.ready[0] in e.status && e.status[e.ready[0]] == Postpone
  {
    TakeReadyRest(e, capacity);
    hide Conserved;
    Lives(e, e.ready[0]);
    hide Rest;
    TakenOut(e.ready, 0);
    assert Without(e.ready, 0) == e.ready[1..];
    Rebalanced(e, {}, TakeReady(e), {e.ready[0]});
  }

  lemma TakeReadyRest(e: Engine, capacity: nat)
    requires Rest(e, capacity) && e.ready != []
    ensures Rest(TakeReady(e), capacity)
  {
    assert forall x :: x in e.ready[1..] ==> x in e.ready;
  }

  function TakeResult(e: Engine): Engine
    requires e.results != []
  {
    e.(results := e.results[1..], cntJobDone := e.cntJobDone + 1)
  }

  lemma TakeResultKeeps(e: Engine, capacity: nat)
    requires Inv(e, capacity, {}) && e.results != []
    ensures Inv(TakeResult(e), capacity, {e.results[0]})
    ensures e.results[0] in e.tasks && e.tasks[e.results[0]].h.worker && e.results[0] in e.status &&
              e.results[0] in e.input
    ensures e.cntJobSent - TakeResult(e).cntJobDone < capacity
  {
    TakeResultRest(e, capacity);
    hide Conserved;
    hide Rest;
    TakenOut(e.results, 0);
    assert Without(e.results, 0) == e.results[1..];
    Rebalanced(e, {}, TakeResult(e), {e.results[0]});
  }

  lemma TakeResultRest(e: Engine, capacity: nat)
    requires Rest(e, capacity) && e.results != []
    ensures Rest(TakeResult(e), capacity)
    ensures e.results[0] in e.tasks && e.tasks[e.results[0]].h.worker && e.results[0] in e.status &&
              e.results[0] in e.input
    ensures e.cntJobSent - TakeResult(e).cntJobDone < capacity
  {
    assert e.results[0] in e.results && e.results[0] in e.tasks;
    assert forall x :: x in e.results[1..] ==> x in e.results;
  }

  /** A pool thread finished a job: status and result queue are updated. */
  function Finish(e: Engine, i: nat, s: Status): Engine
    requires i < |e.pool|
  {
    e.(pool := Without(e.pool, i), results := e.results + [e.pool[i]], status := e.status[e.pool[i] := s])
  }

  lemma OnlyInPool(e: Engine, u: Uuid)
    requires Conserved(e, {}) && u in e.pool
    ensures u !in e.upstream && u !in e.ready && u !in e.postponed
  {
    assert Occurs(e, u) + (if u in {} then 1 else 0) == if u in e.tasks then 1 else 0;
    assert multiset(e.pool)[u] >= 1;
  }

  lemma FinishKeeps(e: Engine, capacity: nat, i: nat, s: Status)
    requires Inv(e, capacity, {}) && i < |e.pool|
    ensures Inv(Finish(e, i, s), capacity, {})
  {
    OnlyInPool(e, e.pool[i]);
    FinishRest(e, capacity, i, s);
    hide Rest;
    hide Conserved;
    TakenOut(e.pool, i);
    Appended(e.results, e.pool[i]);
    Rebalanced(e, {}, Finish(e, i, s), {});
  }

  lemma FinishRest(e: Engine, capacity: nat, i: nat, s: Status)
    requires Rest(e, capacity) && i < |e.pool|
    requires e.pool[i] !in e.upstream && e.pool[i] !in e.ready && e.pool[i] !in e.postponed
    ensures Rest(Finish(e, i, s), capacity)
  {
    assert forall x :: x in Without(e.pool, i) ==> x in e.pool;
    assert forall x :: x in e.results + [e.pool[i]] ==> x in e.results || x == e.pool[i];
  }

  function SetInput(e: Engine, u: Uuid, data: Input): Engine {
    e.(input := e.input[u := data])
  }

  lemma SetInputKeeps(e: Engine, capacity: nat, u: Uuid, data: Input, hand: set<Uuid>)
    requires Inv(e, capacity, hand)
    ensures Inv(SetInput(e, u, data), capacity, hand)
  {
    assert Rest(SetInput(e, u, data), capacity);
    hide Rest;
    Rebalanced(e, hand, SetInput(e, u, data), hand);
  }

  // ----- what a dispatch does with its task in the end -----

  /** What the manager is configured with: the number of jobs the pool takes, how long a task stays
      postponed, and how long an early callback is kept. */
  datatype Setup = Setup(capacity: nat, timeout: nat, life: nat)

  /** The clock readings of a dispatch: when the early callbacks are looked at, and when the deadline
      of a postponed task is set. */
  datatype Clock = Clock(look: Time, park: Time)

  /** What the disposing action presupposes about the task and the pool. */
  ghost predicate Fits(e: Engine, capacity: nat, u: Uuid, action: Action) {
    && u in e.tasks && u in e.status && u in e.input && u !in e.postponed
    && (action == RunForward ==> e.status[u] == Forward)
    && (action == RunPostpone ==> e.status[u] == Postpone)
    && (action == RunOk ==> e.status[u] == Ok)
    && (action == RunWorker ==> e.tasks[u].h.worker && e.cntJobSent - e.cntJobDone < capacity)
    && (action !in {RunWorker, RunForward, RunPostpone} ==> e.status[u] != Again)
  }

  /** Taking an early callback for a task off the list: expired entries go, then the oldest one for
      the task, if there is one. */
  ghost predicate Taken(early: seq<EL.Entry<Input>>, early': seq<EL.Entry<Input>>, u: Uuid, found: O.Option<Input>,
                        now: Time) {
    exists rest :: EL.Chopped(early, rest, now) && EL.Taken(rest, early', u, found)
  }

  /** How postponing ends: resumed with the input of the early callback that was found, else parked. */
  ghost predicate Met(e: Engine, e': Engine, u: Uuid, found: O.Option<Input>, at: Clock, timeout: nat) {
    var e1 := e.(early := e'.early);
    && u !in e.postponed
    && Taken(e.early, e'.early, u, found, at.look)
    && e' == if found.Some? then Resume(e1, u, found.value) else Park(e1, u, at.park + timeout)
  }

  /** What a callback leaves behind: its input reaches the task it names if that is postponed, and
      otherwise the list where that task will find it. */
  ghost predicate Delivered(e: Engine, e': Engine, u: Uuid, next: O.Option<Uuid>, now: Time, life: nat) {
    && u in e.input
    && match next
       case None => e' == e
       case Some(w) =>
         if w in e.postponed then e' == Resume(e, w, e.input[u])
         else
           && e' == e.(early := e'.early)
           && e'.early != [] && e'.early[|e'.early| - 1] == EL.Entry(now + life, w, e.input[u])
           && EL.Chopped(e.early, e'.early[..|e'.early| - 1], now)
  }

  /** Answered well: the callback is delivered, then the task dies. */
  ghost predicate Answered(e: Engine, e': Engine, u: Uuid, next: O.Option<Uuid>, now: Time, life: nat) {
    exists d :: Delivered(e, d, u, next, now, life) && u in d.tasks && u in d.status && e' == Die(d, u)
  }

  /** The one place each disposing action sends the task to. */
  ghost predicate Disposed(p: Setup, e: Engine, e': Engine, u: Uuid, action: Action, next: O.Option<Uuid>, at: Clock) {
    if action == RunWorker then e' == Post(e, u)
    else if action == RunForward then e' == Forwarded(e, u)
    else if action == RunPostpone then exists found :: Met(e, e', u, found, at, p.timeout)
    else if action == RunOk then Answered(e, e', u, next, at.look, p.life)
    else u in e.tasks && u in e.status && e' == Die(e, u)
  }

  lemma FewerEarly(e: Engine, capacity: nat, early: seq<EL.Entry<Input>>, hand: set<Uuid>)
    requires Inv(e, capacity, hand) && forall x :: x in early ==> x in e.early
    ensures forall u :: u in e.postponed ==> !EL.Has(early, u)
  {
    forall u | u in e.postponed ensures !EL.Has(early, u) { EL.StillAbsent(e.early, early, u); }
  }

  lemma InHand(e: Engine, capacity: nat, u: Uuid)
    requires Inv(e, capacity, {u})
    ensures u in e.tasks && u in e.status && u in e.input && u !in e.postponed
  {
    assert Occurs(e, u) + 1 == if u in e.tasks then 1 else 0;
  }

  lemma TakenFacts(early: seq<EL.Entry<Input>>, early': seq<EL.Entry<Input>>, u: Uuid, found: O.Option<Input>,
                   now: Time)
    requires Taken(early, early', u, found, now)
    ensures forall x :: x in early' ==> x in early
    ensures |early'| <= |early| && (found.Some? ==> |early'| < |early|)
    ensures found.None? ==> !EL.Has(early', u)
  {
    var rest :| EL.Chopped(early, rest, now) && EL.Taken(rest, early', u, found);
    EL.TakenFrom(early, rest, early', u, found, now);
    hide EL.Chopped;
    hide EL.Taken;
  }

  lemma MetKeeps(e: Engine, capacity: nat, e': Engine, u: Uuid, found: O.Option<Input>, at: Clock, timeout: nat)
    requires Inv(e, capacity, {u}) && u in e.status && e.status[u] == Postpone && Met(e, e', u, found, at, timeout)
    ensures Inv(e', capacity, {})
  {
    hide Inv;
    TakenFacts(e.early, e'.early, u, found, at.look);
    hide Taken;
    FewerEarly(e, capacity, e'.early, {u});
    EarlyKeeps(e, capacity, e'.early, {u});
    var e1 := e.(early := e'.early);
    if found.Some? {
      ResumeKeeps(e1, capacity, u, found.value, {u});
      assert {u} - {u} == {};
    } else {
      ParkKeeps(e1, capacity, u, at.park + timeout);
    }
    hide EL.Has;
  }

  lemma Waiting(e: Engine, capacity: nat, w: Uuid, hand: set<Uuid>)
    requires Inv(e, capacity, hand) && w in e.postponed
    ensures w in e.status && e.status[w] == Postpone
  {
  }

  lemma EarlierOrNew(e: Engine, capacity: nat, early: seq<EL.Entry<Input>>, hand: set<Uuid>, now: Time)
    requires Inv(e, capacity, hand) && early != [] && early[|early| - 1].uuid !in e.postponed
    requires EL.Chopped(e.early, early[..|early| - 1], now)
    ensures forall u :: u in e.postponed ==> !EL.Has(early, u)
  {
    var kept := early[..|early| - 1];
    assert forall x :: x in kept ==> x in e.early;
    forall u | u in e.postponed ensures !EL.Has(early, u) {
      EL.StillAbsent(e.early, kept, u);
      assert forall i :: 0 <= i < |early| - 1 ==> early[i] == kept[i];
    }
  }

  lemma DeliveredKeeps(e: Engine, capacity: nat, d: Engine, u: Uuid, next: O.Option<Uuid>, now: Time, life: nat)
    requires Inv(e, capacity, {u}) && Delivered(e, d, u, next, now, life)
    ensures Inv(d, capacity, {u})
  {
    hide Inv;
    InHand(e, capacity, u);
    if next.Some? {
      if next.value in e.postponed {
        Waiting(e, capacity, next.value, {u});
        ResumeKeeps(e, capacity, next.value, e.input[u], {u});
        assert {u} - {next.value} == {u};
      } else {
        EarlierOrNew(e, capacity, d.early, {u}, now);
        hide EL.Chopped;
        EarlyKeeps(e, capacity, d.early, {u});
      }
    }
  }

  lemma AnsweredKeeps(e: Engine, capacity: nat, e': Engine, u: Uuid, next: O.Option<Uuid>, now: Time, life: nat)
    requires Inv(e, capacity, {u}) && Answered(e, e', u, next, now, life)
    ensures Inv(e', capacity, {})
  {
    hide Inv;
    hide Delivered;
    hide Die;
    var d :| Delivered(e, d, u, next, now, life) && u in d.tasks && u in d.status && e' == Die(d, u);
    DeliveredKeeps(e, capacity, d, u, next, now, life);
    InHand(d, capacity, u);
    assert {u} - d.postponed == {u};
    DieKeeps(d, capacity, u);
  }

  /** Wherever a disposal sends the task, the invariant holds with no task in hand. */
  lemma DisposedKeeps(p: Setup, e: Engine, e': Engine, u: Uuid, action: Action, next: O.Option<Uuid>, at: Clock)
    requires Inv(e, p.capacity, {u}) && Fits(e, p.capacity, u, action) && Disposed(p, e, e', u, action, next, at)
    ensures Inv(e', p.capacity, {})
  {
    hide Inv;
    hide Met;
    hide Answered;
    hide Die;
    if action == RunWorker {
      PostKeeps(e, p.capacity, u);
    } else if action == RunForward {
      ForwardedKeeps(e, p.capacity, u);
    } else if action == RunPostpone {
      var found :| Met(e, e', u, found, at, p.timeout);
      MetKeeps(e, p.capacity, e', u, found, at, p.timeout);
    } else if action == RunOk {
      AnsweredKeeps(e, p.capacity, e', u, next, at.look, p.life);
    } else {
      assert {u} - e.postponed == {u};
      DieKeeps(e, p.capacity, u);
    }
  }

  /** What bounds the resumption loop: a dispatch either leaves fewer tasks waiting for a resumption,
      or postpones one more and uses up a place in the resume queue or an early callback. */
  ghost predicate Eased(e: Engine, e': Engine) {
    || |e'.ready| + |e'.postponed| <= |e.ready| + |e.postponed|
    || (&& |e'.ready| + |e'.postponed| == |e.ready| + |e.postponed| + 1
        && |e'.ready| + |e'.early| <= |e.ready| + |e.early|)
  }

  lemma MetEases(e: Engine, e': Engine, u: Uuid, found: O.Option<Input>, at: Clock, timeout: nat)
    requires Met(e, e', u, found, at, timeout)
    ensures Eased(e, e')
  {
    TakenFacts(e.early, e'.early, u, found, at.look);
    hide Taken;
    assert e.postponed - {u} == e.postponed;
  }

  lemma AnsweredEases(e: Engine, e': Engine, u: Uuid, next: O.Option<Uuid>, now: Time, life: nat)
    requires Answered(e, e', u, next, now, life)
    ensures Eased(e, e')
  {
    hide EL.Chopped;
    var d :| Delivered(e, d, u, next, now, life) && u in d.tasks && u in d.status && e' == Die(d, u);
    assert |d.ready| + |d.postponed| <= |e.ready| + |e.postponed| by {
      if next.Some? && next.value in e.postponed {
        assert |e.postponed - {next.value}| == |e.postponed| - 1;
      }
    }
    hide Delivered;
    SmallerSet(d.postponed, u);
    assert e'.ready == d.ready && e'.postponed == d.postponed - {u};
    hide Die;
  }

  lemma DisposedEases(p: Setup, e: Engine, e': Engine, u: Uuid, action: Action, next: O.Option<Uuid>, at: Clock)
    requires Disposed(p, e, e', u, action, next, at)
    ensures Eased(e, e')
  {
    hide Answered;
    hide Met;
    if action == RunPostpone {
      var found :| Met(e, e', u, found, at, p.timeout);
      MetEases(e, e', u, found, at, p.timeout);
    } else if action == RunOk {
      AnsweredEases(e, e', u, next, at.look, p.life);
    } else if action != RunWorker && action != RunForward {
      SmallerSet(e.postponed, u);
    }
  }

  lemma SmallerSet(s: set<Uuid>, u: Uuid)
    ensures |s - {u}| <= |s|
  {
    if u in s { assert |s - {u}| == |s| - 1; } else { assert s - {u} == s; }
  }

  // ----- expiry -----

  ghost predicate SomeAhead(expire: seq<(Time, Uuid)>, now: Time) {
    exists p :: p in expire && now <= p.0
  }

  /** Takes an entry out of the heap; if its task is still postponed, that ends with an error. */
  function ExpireTop(e: Engine, k: nat): Engine
    requires k < |e.expire| && (e.expire[k].1 in e.postponed ==> e.expire[k].1 in e.tasks)
  {
    var u := e.expire[k].1;
    var e' := if u in e.postponed then Die(SetStatus(e, u, Error), u) else e;
    e'.(expire := e.expire[..k] + e.expire[k + 1..])
  }

  lemma PostponedLives(e: Engine, u: Uuid)
    requires Conserved(e, {}) && u in e.postponed
    ensures u in e.tasks && Occurs(e, u) == 1
    ensures u !in e.pool && u !in e.results && u !in e.upstream && u !in e.timers && u !in e.ready
  {
    assert Occurs(e, u) + (if u in {} then 1 else 0) == if u in e.tasks then 1 else 0;
  }

  /** The status of a postponed task about to die. */
  lemma ErrorDieKeeps(e: Engine, capacity: nat, u: Uuid)
    requires Inv(e, capacity, {}) && u in e.postponed
    ensures u in e.tasks && Inv(Die(SetStatus(e, u, Error), u), capacity, {})
  {
    PostponedLives(e, u);
    var d := SetStatus(e, u, Error);
    assert Conserved(d, {}) by { Rebalanced(e, {}, d, {}); }
    assert {u} - d.postponed == {};
    DieConserves(d, u);
    DieCounts(d, capacity, u);
    hide Conserved;
    hide Counted;
    ErrorLabels(e, u);
  }

  lemma ErrorLabels(e: Engine, u: Uuid)
    requires Labelled(e) && Meeting(e) && u in e.tasks
    requires u !in e.pool && u !in e.results && u !in e.upstream && u !in e.ready
    ensures Labelled(Die(SetStatus(e, u, Error), u)) && Meeting(Die(SetStatus(e, u, Error), u))
  {
  }

  lemma ExpireTopKeeps(e: Engine, capacity: nat, k: nat)
    requires Inv(e, capacity, {}) && k < |e.expire|
    ensures e.expire[k].1 in e.postponed ==> e.expire[k].1 in e.tasks && e.expire[k].1 in e.status
    ensures Inv(ExpireTop(e, k), capacity, {})
  {
    var u := e.expire[k].1;
    var d := e;
    hide Inv;
    if u in e.postponed {
      ErrorDieKeeps(e, capacity, u);
      Waiting(e, capacity, u, {});
      d := Die(SetStatus(e, u, Error), u);
    }
    HeapKeeps(d, capacity, k);
  }

  lemma HeapKeeps(e: Engine, capacity: nat, k: nat)
    requires Inv(e, capacity, {}) && k < |e.expire| && e.expire[k].1 !in e.postponed
    ensures Inv(e.(expire := e.expire[..k] + e.expire[k + 1..]), capacity, {})
  {
    var e' := e.(expire := e.expire[..k] + e.expire[k + 1..]);
    assert Labelled(e') && Counted(e', capacity);
    hide Labelled;
    hide Counted;
    Rebalanced(e, {}, e', {});
    hide Conserved;
    assert forall p :: p in e.expire ==> p in e'.expire || p == e.expire[k];
  }

  /** What expiry does: exactly the tasks that left the postponed map got status Error; of these
      clients are released and periodic tasks wait for their timer. All else stays. */
  ghost predicate Expired(e: Engine, e': Engine) {
    && e'.postponed <= e.postponed
    && e'.tasks == e.tasks - (set u | u in e.postponed - e'.postponed && u in e.tasks && e.tasks[u].kind == Client)
    && (forall u :: u in e.postponed - e'.postponed ==>
          u in e'.status && e'.status[u] == Error && (u in e'.tasks ==> u in e'.timers))
    && (forall u :: u in e.timers ==> u in e'.timers)
    && e' == e.(tasks := e'.tasks, status := e'.status, timers := e'.timers, postponed := e'.postponed,
                expire := e'.expire, cntBaseTaskDone := e'.cntBaseTaskDone)
  }

  lemma NoneExpired(e: Engine)
    ensures Expired(e, e)
  {
  }

  lemma ExpireTopExpires(e0: Engine, e: Engine, k: nat, capacity: nat)
    requires Expired(e0, e) && k < |e.expire| && Inv(e, capacity, {})
    ensures e.expire[k].1 in e.postponed ==> e.expire[k].1 in e.tasks
    ensures Expired(e0, ExpireTop(e, k))
    ensures ExpireTop(e, k).expire == e.expire[..k] + e.expire[k + 1..]
  {
    ExpireTopKeeps(e, capacity, k);
    hide Inv;
    var u := e.expire[k].1;
    var d := if u in e.postponed then Die(SetStatus(e, u, Error), u) else e;
    assert Expired(e0, d) by {
      if u in e.postponed { DieExpires(e0, e, u); }
    }
    hide Die;
  }

  lemma DieExpires(e0: Engine, e: Engine, u: Uuid)
    requires Expired(e0, e) && u in e.postponed && u in e.tasks
    ensures Expired(e0, Die(SetStatus(e, u, Error), u))
  {
    var d := Die(SetStatus(e, u, Error), u);
    assert e0.postponed - d.postponed == e0.postponed - e.postponed + {u};
    var gone := set w | w in e0.postponed - e.postponed && w in e0.tasks && e0.tasks[w].kind == Client;
    var gone' := set w | w in e0.postponed - d.postponed && w in e0.tasks && e0.tasks[w].kind == Client;
    assert u in e0.tasks && e.tasks[u] == e0.tasks[u];
    assert gone' == gone + if e.tasks[u].kind == Client then {u} else {};
    assert d.tasks == e0.tasks - gone';
    assert forall w :: w in e.timers ==> w in d.timers;
    assert d.tasks == e.tasks || u !in d.tasks;
  }

  lemma DeadlinesQueued(e: Engine, capacity: nat)
    requires Inv(e, capacity, {})
    ensures forall u :: u in e.postponed ==> u in e.deadline && (e.deadline[u], u) in e.expire
  {
  }

  // ----- stopping -----

  ghost predicate Stoppable(e: Engine) {
    e.cntBaseTask == e.cntBaseTaskDone && e.upstream == [] && e.cntJobSent == e.cntJobDone
  }

  /** When the manager may stop, no client task is live and nothing is in the pool, in the result
      queue or upstream: what remains are periodic tasks. The converse holds too. */
  lemma StopIsSafe(e: Engine, capacity: nat)
    requires Inv(e, capacity, {})
    ensures Stoppable(e) <==>
            && e.pool == [] && e.results == [] && e.upstream == []
            && forall u :: u in e.tasks ==> e.tasks[u].kind == Periodic
  {
    if forall u :: u in e.tasks ==> e.tasks[u].kind == Periodic {
      assert Clients(e.tasks) == {};
    } else {
      var u :| u in e.tasks && e.tasks[u].kind != Periodic;
      assert u in Clients(e.tasks);
    }
  }

  /** The jobs in the pool never exceed its capacity. */
  lemma Room(e: Engine, capacity: nat, hand: set<Uuid>)
    requires Inv(e, capacity, hand)
    ensures 0 <= e.cntJobSent - e.cntJobDone <= capacity
  {
  }

  /** A queued task is queued once. */
  lemma QueuedOnce(e: Engine, capacity: nat, hand: set<Uuid>, w: Uuid)
    requires Inv(e, capacity, hand) && w in e.ready
    ensures multiset(e.ready)[w] == 1
  {
    assert Occurs(e, w) + (if w in hand then 1 else 0) == if w in e.tasks then 1 else 0;
    assert w in multiset(e.ready);
  }
}
