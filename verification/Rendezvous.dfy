/** What happens to one task over every run of events: a postponed task and its callback meet,
    whichever comes first, and a task that can only forward stays upstream. */
module Rendezvous {
  import O = Options
  import opened Dispatch
  import opened TaskEngine
  import opened TaskRuns
  import EL = ExpiringList

  /** No clock reading of the event lies after `t`. */
  predicate NotLater(ev: Event, t: Time) {
    match ev
    case Dispatched(_, _, _, at) => at.look <= t
    case Expiry(_, now) => now <= t
    case _ => true
  }

  /** The dispatch of the event ends with the given action. */
  predicate EndsWith(p: Setup, e: Engine, ev: Event, action: Action) {
    && ev.Dispatched? && CanStart(e, ev.start)
    && Legal(p, Entered(e, ev.start), Subject(e, ev.start), ev.start, ev.x)
    && Last(Outcome(p, Entered(e, ev.start), Subject(e, ev.start), ev.start, ev.x)) == action
  }

  /** The dispatch of the event is not handed to a worker or rejected, and leaves the task with the
      given status. */
  predicate Concludes(p: Setup, e: Engine, ev: Event, status: Status) {
    && ev.Dispatched? && CanStart(e, ev.start)
    && Legal(p, Entered(e, ev.start), Subject(e, ev.start), ev.start, ev.x)
    && var r := Outcome(p, Entered(e, ev.start), Subject(e, ev.start), ev.start, ev.x);
       Last(r) != RunWorker && Last(r) != CheckOverflow && r.status == status
  }

  lemma ConcludesIff(p: Setup, e: Engine, ev: Event)
    ensures Concludes(p, e, ev, Ok) <==> EndsWith(p, e, ev, RunOk)
    ensures Concludes(p, e, ev, Forward) <==> EndsWith(p, e, ev, RunForward)
    ensures Concludes(p, e, ev, Postpone) <==> EndsWith(p, e, ev, RunPostpone)
  {
    if ev.Dispatched? && CanStart(e, ev.start) {
      var e1, u := Entered(e, ev.start), Subject(e, ev.start);
      if Legal(p, e1, u, ev.start, ev.x) { OutcomeSuits(p, e1, u, ev.start, ev.x); }
      hide Entered;
      hide Subject;
      hide Legal;
      hide Outcome;
    }
  }

  /** The event completes a callback for `w`: a task for which it is the next one ends with Ok. */
  predicate Names(p: Setup, e: Engine, ev: Event, w: Uuid) {
    Concludes(p, e, ev, Ok) && ev.next == O.Some(w)
  }

  /** The input that the callback carries. */
  function CallbackInput(e: Engine, ev: Event): O.Option<Input> {
    if ev.Dispatched? && CanStart(e, ev.start) && Subject(e, ev.start) in Entered(e, ev.start).input
    then O.Some(Entered(e, ev.start).input[Subject(e, ev.start)])
    else O.None
  }

  /** That is what the new client or the upstream side brought, or what the task was left with. */
  lemma CallbackCarries(e: Engine, ev: Event)
    requires ev.Dispatched? && CanStart(e, ev.start)
    ensures match ev.start
            case NewClient(_, _, data) => CallbackInput(e, ev) == O.Some(data)
            case Answer(_, data) => CallbackInput(e, ev) == O.Some(data)
            case _ => Subject(e, ev.start) in e.input ==> CallbackInput(e, ev) == O.Some(e.input[Subject(e, ev.start)])
  {
  }

  /** In the event, `w` postpones itself. */
  predicate Postpones(p: Setup, e: Engine, ev: Event, w: Uuid) {
    Concludes(p, e, ev, Postpone) && Subject(e, ev.start) == w
  }

  /** Queued for resumption, once, with the given input. */
  ghost predicate Queued(e: Engine, w: Uuid, data: O.Option<Input>) {
    && multiset(e.ready)[w] == 1 && w !in e.postponed
    && w in e.input && data == O.Some(e.input[w])
  }

  /** What taking a task in hand leaves alone. */
  lemma EnterFrame(e: Engine, s: Start)
    requires CanStart(e, s)
    ensures var e1 := Entered(e, s);
            && e1.postponed == e.postponed && e1.deadline == e.deadline && e1.expire == e.expire && e1.early == e.early
  {
  }

  // ----- the task comes first -----

  lemma DeliveredWaits(e: Engine, d: Engine, u: Uuid, next: O.Option<Uuid>, now: Time, life: nat, w: Uuid)
    requires w in e.postponed && Delivered(e, d, u, next, now, life)
    ensures d.deadline == e.deadline
    ensures if next == O.Some(w)
            then w in d.ready && w !in d.postponed && u in e.input && w in d.input && d.input[w] == e.input[u]
            else w in d.postponed
  {
    hide EL.Chopped;
    if next == O.Some(w) { assert d.ready[|e.ready|] == w; }
  }

  lemma AnsweredWaits(e: Engine, e': Engine, u: Uuid, next: O.Option<Uuid>, now: Time, life: nat, w: Uuid)
    requires w in e.postponed && u != w && Answered(e, e', u, next, now, life)
    ensures e'.deadline == e.deadline
    ensures if next == O.Some(w)
            then w in e'.ready && w !in e'.postponed && u in e.input && w in e'.input && e'.input[w] == e.input[u]
            else w in e'.postponed
  {
    hide Delivered;
    var d :| Delivered(e, d, u, next, now, life) && u in d.tasks && u in d.status && e' == Die(d, u);
    DeliveredWaits(e, d, u, next, now, life, w);
  }

  lemma MetWaits(e: Engine, e': Engine, u: Uuid, found: O.Option<Input>, at: Clock, timeout: nat, w: Uuid)
    requires w in e.postponed && w in e.deadline && Met(e, e', u, found, at, timeout)
    ensures w in e'.postponed && w in e'.deadline && e'.deadline[w] == e.deadline[w]
  {
    hide Taken;
  }

  lemma DisposedWaits(p: Setup, e: Engine, e': Engine, u: Uuid, action: Action, next: O.Option<Uuid>, at: Clock,
                      w: Uuid)
    requires w in e.postponed && w in e.deadline && u != w && Disposed(p, e, e', u, action, next, at)
    ensures w in e'.deadline && e'.deadline[w] == e.deadline[w]
    ensures if action == RunOk && next == O.Some(w)
            then w in e'.ready && w !in e'.postponed && u in e.input && w in e'.input && e'.input[w] == e.input[u]
            else w in e'.postponed
  {
    hide Met;
    hide Answered;
    if action == RunPostpone {
      var found :| Met(e, e', u, found, at, p.timeout);
      MetWaits(e, e', u, found, at, p.timeout, w);
    } else if action == RunOk {
      AnsweredWaits(e, e', u, next, at.look, p.life, w);
    }
  }

  /** While a deadline in the heap lies ahead nothing expires. */
  lemma NoExpiry(p: Setup, e: Engine, e': Engine, ev: Event, w: Uuid)
    requires Inv(e, p.capacity, {}) && Happens(p, e, e', ev)
    requires w in e.postponed && w in e.deadline && NotLater(ev, e.deadline[w])
    ensures !ev.Expiry?
  {
    DeadlinesQueued(e, p.capacity);
    hide Inv;
  }

  lemma DispatchWaits(p: Setup, e: Engine, e': Engine, ev: Event, w: Uuid)
    requires Inv(e, p.capacity, {}) && Happens(p, e, e', ev) && ev.Dispatched? && w in e.postponed && w in e.deadline
    ensures w in e'.deadline && e'.deadline[w] == e.deadline[w]
    ensures if Names(p, e, ev, w)
            then w in e'.ready && w !in e'.postponed && w in e'.input && CallbackInput(e, ev) == O.Some(e'.input[w])
            else w in e'.postponed
  {
    var s := ev.start;
    ConcludesIff(p, e, ev);
    EnterKeeps(p, e, s);
    EnterFrame(e, s);
    var e1, u := Entered(e, s), Subject(e, s);
    InHand(e1, p.capacity, u);
    hide Inv;
    hide Entered;
    hide Subject;
    hide Legal;
    hide Outcome;
    hide Disposed;
    hide Concludes;
    var r := Outcome(p, e1, u, s, ev.x);
    DisposedWaits(p, SetStatus(e1, u, r.status), e', u, Last(r), ev.next, ev.at, w);
  }

  lemma FailureWaits(e: Engine, capacity: nat, i: nat, w: Uuid)
    requires Inv(e, capacity, {}) && w in e.postponed && i < |e.upstream| && e.upstream[i] in e.tasks
    ensures var e' := Die(SetStatus(TakeUpstream(e, i), e.upstream[i], Error), e.upstream[i]);
            w in e'.postponed && e'.deadline == e.deadline
  {
    PostponedLives(e, w);
    hide Inv;
  }

  /** One event: a postponed task stays, with its deadline, unless the event is a callback for it. */
  lemma WaitStep(p: Setup, e: Engine, e': Engine, ev: Event, w: Uuid)
    requires Inv(e, p.capacity, {}) && Happens(p, e, e', ev)
    requires w in e.postponed && w in e.deadline && NotLater(ev, e.deadline[w])
    ensures w in e'.deadline && e'.deadline[w] == e.deadline[w]
    ensures if Names(p, e, ev, w)
            then w in e'.ready && w !in e'.postponed && w in e'.input && CallbackInput(e, ev) == O.Some(e'.input[w])
            else w in e'.postponed
  {
    NoExpiry(p, e, e', ev, w);
    if ev.Dispatched? {
      hide Happens;
      DispatchWaits(p, e, e', ev, w);
    } else if ev.UpstreamFailure? {
      FailureWaits(e, p.capacity, ev.i, w);
      hide Inv;
      hide Die;
    } else {
      hide Inv;
    }
  }

  /** No event before `k` is a callback for `w`. */
  ghost predicate Unnamed(p: Setup, log: Log, w: Uuid, k: nat) {
    forall j :: 0 <= j < k && j < |log.states| && j < |log.events| ==> !Names(p, log.states[j], log.events[j], w)
  }

  lemma {:induction false} StaysPostponed(p: Setup, log: Log, w: Uuid, k: nat)
    requires IsRun(p, log) && Inv(log.states[0], p.capacity, {}) && w in log.states[0].postponed &&
               w in log.states[0].deadline
    requires forall j :: 0 <= j < |log.events| ==> NotLater(log.events[j], log.states[0].deadline[w])
    requires k <= |log.events| && Unnamed(p, log, w, k)
    ensures w in log.states[k].postponed && w in log.states[k].deadline
    ensures log.states[k].deadline[w] == log.states[0].deadline[w]
  {
    hide Inv;
    hide Happens;
    hide Names;
    hide NotLater;
    if k > 0 {
      StaysPostponed(p, log, w, k - 1);
      RunKeeps(p, log, k - 1);
      assert NotLater(log.events[k - 1], log.states[0].deadline[w]);
      WaitStep(p, log.states[k - 1], log.states[k], log.events[k - 1], w);
    }
  }

  /** The task comes first. Over every run that stays within its deadline, a postponed task keeps its
      place and its deadline as long as no callback names it; and the first callback that does queues
      it for resumption, once, with that callback's input. */
  lemma TaskFirst(p: Setup, log: Log, w: Uuid, due: Time)
    requires IsRun(p, log) && Inv(log.states[0], p.capacity, {})
    requires w in log.states[0].postponed && w in log.states[0].deadline && log.states[0].deadline[w] == due
    requires forall j :: 0 <= j < |log.events| ==> NotLater(log.events[j], due)
    ensures forall k :: 0 <= k <= |log.events| && Unnamed(p, log, w, k) ==>
              && w in log.states[k].postponed && w in log.states[k].deadline && log.states[k].deadline[w] == due
              && (k < |log.events| && Names(p, log.states[k], log.events[k], w) ==>
                    Queued(log.states[k + 1], w, CallbackInput(log.states[k], log.events[k])))
  {
    hide Inv;
    hide Happens;
    hide Names;
    hide NotLater;
    hide CallbackInput;
    forall k | 0 <= k <= |log.events| && Unnamed(p, log, w, k)
      ensures && w in log.states[k].postponed && w in log.states[k].deadline && log.states[k].deadline[w] == due
              && (k < |log.events| && Names(p, log.states[k], log.events[k], w) ==>
                    Queued(log.states[k + 1], w, CallbackInput(log.states[k], log.events[k])))
    {
      StaysPostponed(p, log, w, k);
      if k < |log.events| && Names(p, log.states[k], log.events[k], w) {
        CallbackQueues(p, log, w, k);
      }
    }
  }

  lemma CallbackQueues(p: Setup, log: Log, w: Uuid, k: nat)
    requires IsRun(p, log) && Inv(log.states[0], p.capacity, {}) && k < |log.events|
    requires w in log.states[k].postponed && w in log.states[k].deadline
    requires NotLater(log.events[k], log.states[k].deadline[w]) && Names(p, log.states[k], log.events[k], w)
    ensures Queued(log.states[k + 1], w, CallbackInput(log.states[k], log.events[k]))
  {
    hide Inv;
    hide Happens;
    hide Names;
    hide NotLater;
    hide CallbackInput;
    RunKeeps(p, log, k);
    RunKeeps(p, log, k + 1);
    WaitStep(p, log.states[k], log.states[k + 1], log.events[k], w);
    QueuedOnce(log.states[k + 1], p.capacity, {}, w);
  }

  // ----- the callback comes first -----

  lemma TakenLeads(early: seq<EL.Entry<Input>>, early': seq<EL.Entry<Input>>, u: Uuid, found: O.Option<Input>,
                   now: Time, c: EL.Entry<Input>)
    requires Taken(early, early', u, found, now) && EL.Leads(early, c) && now < c.deadline
    ensures if u == c.uuid then found == O.Some(c.value) else EL.Leads(early', c)
  {
    var rest :| EL.Chopped(early, rest, now) && EL.Taken(rest, early', u, found);
    EL.LeadsAfterChop(early, rest, now, c);
    EL.LeadsAfterTake(rest, early', u, found, c);
  }

  lemma DeliveredLeads(e: Engine, d: Engine, u: Uuid, next: O.Option<Uuid>, now: Time, life: nat, c: EL.Entry<Input>)
    requires Delivered(e, d, u, next, now, life) && EL.Leads(e.early, c) && now < c.deadline
    ensures EL.Leads(d.early, c)
  {
    if next.Some? && next.value !in e.postponed {
      var kept := d.early[..|d.early| - 1];
      EL.LeadsAfterChop(e.early, kept, now, c);
      EL.LeadsAfterAdd(kept, d.early[|d.early| - 1], c);
      assert kept + [d.early[|d.early| - 1]] == d.early;
    }
    hide EL.Chopped;
    hide EL.Leads;
  }

  lemma AnsweredLeads(e: Engine, e': Engine, u: Uuid, next: O.Option<Uuid>, now: Time, life: nat, c: EL.Entry<Input>)
    requires Answered(e, e', u, next, now, life) && EL.Leads(e.early, c) && now < c.deadline
    ensures EL.Leads(e'.early, c)
  {
    hide Delivered;
    hide EL.Leads;
    var d :| Delivered(e, d, u, next, now, life) && u in d.tasks && u in d.status && e' == Die(d, u);
    DeliveredLeads(e, d, u, next, now, life, c);
  }

  lemma MetLeads(e: Engine, e': Engine, u: Uuid, found: O.Option<Input>, at: Clock, timeout: nat, c: EL.Entry<Input>)
    requires Met(e, e', u, found, at, timeout) && EL.Leads(e.early, c) && at.look < c.deadline
    ensures if u == c.uuid then u in e'.ready && u !in e'.postponed && u in e'.input && e'.input[u] == c.value
            else EL.Leads(e'.early, c)
  {
    TakenLeads(e.early, e'.early, u, found, at.look, c);
    hide Taken;
    hide EL.Leads;
    if u == c.uuid { assert e'.ready[|e.ready|] == u; }
  }

  lemma DisposedLeads(p: Setup, e: Engine, e': Engine, u: Uuid, action: Action, next: O.Option<Uuid>, at: Clock,
                      c: EL.Entry<Input>)
    requires Disposed(p, e, e', u, action, next, at) && EL.Leads(e.early, c) && at.look < c.deadline
    ensures if action == RunPostpone && u == c.uuid
            then u in e'.ready && u !in e'.postponed && u in e'.input && e'.input[u] == c.value
            else EL.Leads(e'.early, c)
  {
    hide Met;
    hide Answered;
    hide EL.Leads;
    if action == RunPostpone {
      var found :| Met(e, e', u, found, at, p.timeout);
      MetLeads(e, e', u, found, at, p.timeout, c);
    } else if action == RunOk {
      AnsweredLeads(e, e', u, next, at.look, p.life, c);
    }
  }

  /** One event: an early callback stays the oldest for its task, unless the task postpones itself. */
  lemma LeadStep(p: Setup, e: Engine, e': Engine, ev: Event, c: EL.Entry<Input>)
    requires Happens(p, e, e', ev) && EL.Leads(e.early, c) && NotLater(ev, c.deadline - 1)
    ensures if Postpones(p, e, ev, c.uuid)
            then c.uuid in e'.ready && c.uuid !in e'.postponed && c.uuid in e'.input && e'.input[c.uuid] == c.value
            else EL.Leads(e'.early, c)
  {
    hide EL.Leads;
    ConcludesIff(p, e, ev);
    if ev.Dispatched? {
      var s := ev.start;
      EnterFrame(e, s);
      hide Entered;
      hide Subject;
      hide Legal;
      hide Outcome;
      hide Disposed;
      hide Concludes;
      var e1, u := Entered(e, s), Subject(e, s);
      var r := Outcome(p, e1, u, s, ev.x);
      DisposedLeads(p, SetStatus(e1, u, r.status), e', u, Last(r), ev.next, ev.at, c);
    }
  }

  /** Up to `k`, task `w` has not postponed itself. */
  ghost predicate Unparked(p: Setup, log: Log, w: Uuid, k: nat) {
    forall j :: 0 <= j < k && j < |log.states| && j < |log.events| ==> !Postpones(p, log.states[j], log.events[j], w)
  }

  lemma {:induction false} StaysLeading(p: Setup, log: Log, c: EL.Entry<Input>, k: nat)
    requires IsRun(p, log) && EL.Leads(log.states[0].early, c) && k <= |log.events| && Unparked(p, log, c.uuid, k)
    requires forall j :: 0 <= j < |log.events| ==> NotLater(log.events[j], c.deadline - 1)
    ensures EL.Leads(log.states[k].early, c)
  {
    hide Happens;
    hide Postpones;
    hide NotLater;
    hide EL.Leads;
    if k > 0 {
      StaysLeading(p, log, c, k - 1);
      assert NotLater(log.events[k - 1], c.deadline - 1);
      LeadStep(p, log.states[k - 1], log.states[k], log.events[k - 1], c);
    }
  }

  /** The callback comes first. Over every run before its deadline, the oldest early callback for a task
      stays in the list until the task postpones itself; and the first time it does, the task is
      queued for resumption, once, with that callback's input. */
  lemma CallbackFirst(p: Setup, log: Log, c: EL.Entry<Input>)
    requires IsRun(p, log) && Inv(log.states[0], p.capacity, {}) && EL.Leads(log.states[0].early, c)
    requires forall j :: 0 <= j < |log.events| ==> NotLater(log.events[j], c.deadline - 1)
    ensures forall k :: 0 <= k <= |log.events| && Unparked(p, log, c.uuid, k) ==>
              && EL.Leads(log.states[k].early, c)
              && (k < |log.events| && Postpones(p, log.states[k], log.events[k], c.uuid) ==>
                    Queued(log.states[k + 1], c.uuid, O.Some(c.value)))
  {
    hide Inv;
    hide Happens;
    hide Postpones;
    hide NotLater;
    hide EL.Leads;
    forall k | 0 <= k <= |log.events| && Unparked(p, log, c.uuid, k)
      ensures && EL.Leads(log.states[k].early, c)
              && (k < |log.events| && Postpones(p, log.states[k], log.events[k], c.uuid) ==>
                    Queued(log.states[k + 1], c.uuid, O.Some(c.value)))
    {
      StaysLeading(p, log, c, k);
      if k < |log.events| && Postpones(p, log.states[k], log.events[k], c.uuid) {
        RunKeeps(p, log, k + 1);
        assert NotLater(log.events[k], c.deadline - 1);
        LeadStep(p, log.states[k], log.states[k + 1], log.events[k], c);
        QueuedOnce(log.states[k + 1], p.capacity, {}, c.uuid);
      }
    }
  }

  /** A callback for a task that is not postponed, and for which none is waiting, becomes the oldest
      early callback for it, with the list's lifetime ahead. */
  lemma NamedEarly(p: Setup, e: Engine, e': Engine, ev: Event, w: Uuid)
    requires Happens(p, e, e', ev) && Names(p, e, ev, w) && w !in e.postponed && !EL.Has(e.early, w)
    ensures CallbackInput(e, ev).Some?
    ensures EL.Leads(e'.early, EL.Entry(ev.at.look + p.life, w, CallbackInput(e, ev).value))
  {
    var s := ev.start;
    ConcludesIff(p, e, ev);
    EnterFrame(e, s);
    hide Entered;
    hide Subject;
    hide Legal;
    hide Outcome;
    hide Answered;
    hide EL.Has;
    hide EL.Leads;
    var e1, u := Entered(e, s), Subject(e, s);
    AnsweredEarly(SetStatus(e1, u, Outcome(p, e1, u, s, ev.x).status), e', u, w, ev.at.look, p.life);
  }

  lemma AnsweredEarly(e: Engine, e': Engine, u: Uuid, w: Uuid, now: Time, life: nat)
    requires Answered(e, e', u, O.Some(w), now, life) && w !in e.postponed && !EL.Has(e.early, w)
    ensures u in e.input && EL.Leads(e'.early, EL.Entry(now + life, w, e.input[u]))
  {
    var d :| Delivered(e, d, u, O.Some(w), now, life) && u in d.tasks && u in d.status && e' == Die(d, u);
    assert e'.early == d.early;
    hide Die;
    DeliveredEarly(e, d, u, w, now, life);
  }

  lemma DeliveredEarly(e: Engine, d: Engine, u: Uuid, w: Uuid, now: Time, life: nat)
    requires Delivered(e, d, u, O.Some(w), now, life) && w !in e.postponed && !EL.Has(e.early, w)
    ensures EL.Leads(d.early, EL.Entry(now + life, w, e.input[u]))
  {
    var kept := d.early[..|d.early| - 1];
    assert forall x :: x in kept ==> x in e.early;
    EL.StillAbsent(e.early, kept, w);
    assert forall i :: 0 <= i < |kept| ==> d.early[i] == kept[i];
    assert EL.FirstFor(d.early, w, |d.early| - 1);
  }

  // ----- a task that can only forward -----

  /** The event is the failure of `w` upstream. */
  predicate Fails(e: Engine, ev: Event, w: Uuid) {
    ev.UpstreamFailure? && ev.i < |e.upstream| && e.upstream[ev.i] == w
  }

  /** In the hands of the upstream side, with neither pre- nor worker-action. */
  predicate OnlyForwards(e: Engine, w: Uuid, info: TaskInfo) {
    w in e.upstream && w in e.tasks && e.tasks[w] == info && !info.h.pre && !info.h.worker
  }

  lemma StillIn(s: seq<Uuid>, i: nat, w: Uuid)
    requires i < |s| && w in s && w != s[i]
    ensures w in Without(s, i)
  {
    var j :| 0 <= j < |s| && s[j] == w;
    assert Without(s, i)[if j < i then j else j - 1] == w;
  }

  lemma OnlyUpstream(e: Engine, capacity: nat, w: Uuid)
    requires Inv(e, capacity, {}) && w in e.upstream
    ensures w in e.status && e.status[w] == Forward
    ensures w !in e.pool && w !in e.results && w !in e.timers && w !in e.ready && w !in e.postponed
  {
    assert Occurs(e, w) + (if w in {} then 1 else 0) == if w in e.tasks then 1 else 0;
    assert multiset(e.upstream)[w] >= 1;
  }

  /** Disposing of another task leaves a task upstream where it is. */
  lemma DisposedPasses(p: Setup, e: Engine, e': Engine, u: Uuid, action: Action, next: O.Option<Uuid>, at: Clock,
                       w: Uuid, info: TaskInfo)
    requires OnlyForwards(e, w, info) && u != w && Disposed(p, e, e', u, action, next, at)
    ensures OnlyForwards(e', w, info)
  {
    hide Answered;
    hide Met;
    if action == RunForward {
      assert e'.upstream[..|e.upstream|] == e.upstream;
    } else if action == RunPostpone {
      var found :| Met(e, e', u, found, at, p.timeout);
      MetPasses(e, e', u, found, at, p.timeout);
    } else if action == RunOk {
      AnsweredPasses(e, e', u, next, at.look, p.life);
    }
  }

  lemma MetPasses(e: Engine, e': Engine, u: Uuid, found: O.Option<Input>, at: Clock, timeout: nat)
    requires Met(e, e', u, found, at, timeout)
    ensures e'.upstream == e.upstream && e'.tasks == e.tasks
  {
    hide Taken;
  }

  lemma AnsweredPasses(e: Engine, e': Engine, u: Uuid, next: O.Option<Uuid>, now: Time, life: nat)
    requires Answered(e, e', u, next, now, life)
    ensures e'.upstream == e.upstream
    ensures forall w :: w in e.tasks && w != u ==> w in e'.tasks && e'.tasks[w] == e.tasks[w]
  {
    hide EL.Chopped;
  }

  lemma EnterPasses(e: Engine, s: Start, w: Uuid, info: TaskInfo)
    requires CanStart(e, s) && OnlyForwards(e, w, info) && w != Subject(e, s)
    ensures OnlyForwards(Entered(e, s), w, info)
  {
    if s.Answer? { StillIn(e.upstream, s.i, w); }
  }

  lemma AnswerForwards(p: Setup, e: Engine, e': Engine, ev: Event, w: Uuid, info: TaskInfo)
    requires Inv(e, p.capacity, {}) && Happens(p, e, e', ev) && OnlyForwards(e, w, info)
    requires ev.Dispatched? && ev.start.Answer? && Subject(e, ev.start) == w
    ensures OnlyForwards(e', w, info)
  {
    BackUpstream(p, e, e', ev.start.i, ev);
    hide Inv;
    hide Happens;
    assert e'.upstream[|e'.upstream| - 1] == w;
  }

  lemma OtherPasses(p: Setup, e: Engine, e': Engine, ev: Event, w: Uuid, info: TaskInfo)
    requires Happens(p, e, e', ev) && OnlyForwards(e, w, info) && ev.Dispatched? && Subject(e, ev.start) != w
    ensures OnlyForwards(e', w, info)
  {
    var s := ev.start;
    EnterPasses(e, s, w, info);
    hide Entered;
    hide Subject;
    hide Legal;
    hide Outcome;
    hide Disposed;
    var e1, u := Entered(e, s), Subject(e, s);
    var r := Outcome(p, e1, u, s, ev.x);
    DisposedPasses(p, SetStatus(e1, u, r.status), e', u, Last(r), ev.next, ev.at, w, info);
  }

  lemma IdlePasses(p: Setup, e: Engine, e': Engine, ev: Event, w: Uuid, info: TaskInfo)
    requires Happens(p, e, e', ev) && OnlyForwards(e, w, info) && !ev.Dispatched? && !Fails(e, ev, w) &&
               w !in e.postponed
    ensures OnlyForwards(e', w, info)
  {
    if ev.UpstreamFailure? { StillIn(e.upstream, ev.i, w); }
  }

  /** One event: such a task is upstream again, or still, unless the upstream side fails it. */
  lemma ForwardStep(p: Setup, e: Engine, e': Engine, ev: Event, w: Uuid, info: TaskInfo)
    requires Inv(e, p.capacity, {}) && Happens(p, e, e', ev) && OnlyForwards(e, w, info) && !Fails(e, ev, w)
    ensures OnlyForwards(e', w, info)
  {
    hide Inv;
    OnlyUpstream(e, p.capacity, w);
    if !ev.Dispatched? {
      hide Happens;
      IdlePasses(p, e, e', ev, w, info);
    } else {
      hide Dispatches;
      if Subject(e, ev.start) == w {
        assert ev.start.Answer?;
        AnswerForwards(p, e, e', ev, w, info);
      } else {
        OtherPasses(p, e, e', ev, w, info);
      }
    }
  }

  /** A handler with neither pre- nor worker-action never gets past forwarding: over every run, however
      often it is answered and whatever its post-action returns, its task is upstream until that
      side fails it. */
  lemma {:induction false} ForwardsForever(p: Setup, log: Log, w: Uuid, k: nat)
    requires IsRun(p, log) && Inv(log.states[0], p.capacity, {}) && k <= |log.events|
    requires w in log.states[0].tasks && OnlyForwards(log.states[0], w, log.states[0].tasks[w])
    requires forall j :: 0 <= j < k ==> !Fails(log.states[j], log.events[j], w)
    ensures OnlyForwards(log.states[k], w, log.states[0].tasks[w])
  {
    hide Inv;
    hide Happens;
    hide OnlyForwards;
    hide Fails;
    if k > 0 {
      ForwardsForever(p, log, w, k - 1);
      RunKeeps(p, log, k - 1);
      ForwardStep(p, log.states[k - 1], log.states[k], log.events[k - 1], w, log.states[0].tasks[w]);
    }
  }

  // ----- periodic tasks and clients -----

  /** The event ends `w` with Stop. */
  predicate Stops(p: Setup, e: Engine, ev: Event, w: Uuid) {
    Ended(p, e, ev) == O.Some(w) && EndStatus(p, e, ev) == Stop
  }

  predicate LivesAs(e: Engine, w: Uuid, info: TaskInfo) {
    w in e.tasks && e.tasks[w] == info
  }

  lemma CanStartWhen(p: Setup, e: Engine, e': Engine, ev: Event)
    requires Happens(p, e, e', ev)
    ensures ev.Dispatched? ==> CanStart(e, ev.start)
  {
    hide Dispatches;
  }

  lemma PeriodicStep(p: Setup, e: Engine, e': Engine, ev: Event, w: Uuid, info: TaskInfo)
    requires Inv(e, p.capacity, {}) && Happens(p, e, e', ev)
    requires LivesAs(e, w, info) && info.kind == Periodic && !Stops(p, e, ev, w)
    ensures LivesAs(e', w, info) && (Ended(p, e, ev) == O.Some(w) ==> w in e'.timers)
  {
    CanStartWhen(p, e, e', ev);
    hide Inv;
    hide Happens;
    hide Ended;
    hide EndStatus;
    hide Before;
    EventEnds(p, e, e', ev);
    BeforeTasks(e, ev);
  }

  /** Over every run a periodic task lives on until it ends with Stop, and whenever it is answered it is
      on the timer list again, whatever its result. */
  lemma {:induction false} PeriodicGoesOn(p: Setup, log: Log, w: Uuid, info: TaskInfo, k: nat)
    requires IsRun(p, log) && Inv(log.states[0], p.capacity, {}) && k <= |log.events|
    requires LivesAs(log.states[0], w, info) && info.kind == Periodic
    requires forall j :: 0 <= j < k ==> !Stops(p, log.states[j], log.events[j], w)
    ensures LivesAs(log.states[k], w, info)
    ensures k > 0 && Ended(p, log.states[k - 1], log.events[k - 1]) == O.Some(w) ==> w in log.states[k].timers
  {
    hide Inv;
    hide Happens;
    hide LivesAs;
    hide Stops;
    hide Ended;
    if k > 0 {
      PeriodicGoesOn(p, log, w, info, k - 1);
      RunKeeps(p, log, k - 1);
      PeriodicStep(p, log.states[k - 1], log.states[k], log.events[k - 1], w, info);
    }
  }

  lemma ClientStep(p: Setup, e: Engine, e': Engine, ev: Event, w: Uuid, info: TaskInfo)
    requires Inv(e, p.capacity, {}) && Happens(p, e, e', ev) && LivesAs(e, w, info) && info.kind == Client
    ensures if Ended(p, e, ev) == O.Some(w) then w !in e'.tasks && e'.cntBaseTaskDone == e.cntBaseTaskDone + 1
            else LivesAs(e', w, info)
  {
    CanStartWhen(p, e, e', ev);
    hide Inv;
    hide Happens;
    hide Ended;
    hide EndStatus;
    hide Before;
    EventEnds(p, e, e', ev);
    BeforeTasks(e, ev);
  }

  /** Over every run a client task lives until it is answered for good, and is then released and
      counted as done, once. */
  lemma {:induction false} ClientUntilAnswered(p: Setup, log: Log, w: Uuid, info: TaskInfo, k: nat)
    requires IsRun(p, log) && Inv(log.states[0], p.capacity, {}) && k < |log.events|
    requires LivesAs(log.states[0], w, info) && info.kind == Client
    requires forall j :: 0 <= j < k ==> Ended(p, log.states[j], log.events[j]) != O.Some(w)
    ensures LivesAs(log.states[k], w, info)
    ensures if Ended(p, log.states[k], log.events[k]) == O.Some(w)
            then w !in log.states[k + 1].tasks && log.states[k + 1].cntBaseTaskDone == log.states[k].cntBaseTaskDone + 1
            else LivesAs(log.states[k + 1], w, info)
  {
    hide Inv;
    hide Happens;
    hide LivesAs;
    hide Ended;
    if k > 0 { ClientUntilAnswered(p, log, w, info, k - 1); }
    RunKeeps(p, log, k);
    ClientStep(p, log.states[k], log.states[k + 1], log.events[k], w, info);
  }

  // ----- postponing -----

  /** No live callback for `w` is waiting. */
  ghost predicate NoneWaits(e: Engine, w: Uuid, now: Time) {
    forall c :: c in e.early && c.uuid == w ==> c.deadline < now
  }

  lemma MetParks(e: Engine, e': Engine, u: Uuid, found: O.Option<Input>, at: Clock, timeout: nat)
    requires Met(e, e', u, found, at, timeout) && NoneWaits(e, u, at.look)
    ensures u in e'.postponed && u in e'.deadline && e'.deadline[u] == at.park + timeout
    ensures (at.park + timeout, u) in e'.expire
  {
    TakenAlive(e.early, e'.early, u, found, at.look);
    hide Taken;
    assert e'.expire[|e.expire|] == (at.park + timeout, u);
  }

  lemma TakenAlive(early: seq<EL.Entry<Input>>, early': seq<EL.Entry<Input>>, u: Uuid, found: O.Option<Input>,
                   now: Time)
    requires Taken(early, early', u, found, now) && forall c :: c in early && c.uuid == u ==> c.deadline < now
    ensures found.None?
  {
    var rest :| EL.Chopped(early, rest, now) && EL.Taken(rest, early', u, found);
    EL.TakenFrom(early, rest, early', u, found, now);
    hide EL.Chopped;
    hide EL.Taken;
  }

  /** A task that postpones itself while no live callback for it is waiting is parked, until `timeout`
      after the clock reading. */
  lemma PostponeParks(p: Setup, e: Engine, e': Engine, ev: Event, w: Uuid)
    requires Happens(p, e, e', ev) && Postpones(p, e, ev, w) && NoneWaits(e, w, ev.at.look)
    ensures w in e'.postponed && w in e'.deadline && e'.deadline[w] == ev.at.park + p.timeout
    ensures (ev.at.park + p.timeout, w) in e'.expire
  {
    hide Entered;
    hide Subject;
    hide Legal;
    hide Outcome;
    hide Disposed;
    var s := ev.start;
    hide Concludes;
    ConcludesIff(p, e, ev);
    EnterFrame(e, s);
    var e1, u := Entered(e, s), Subject(e, s);
    DisposedParks(p, SetStatus(e1, u, Outcome(p, e1, u, s, ev.x).status), e', u, ev.next, ev.at);
  }

  lemma DisposedParks(p: Setup, e: Engine, e': Engine, u: Uuid, next: O.Option<Uuid>, at: Clock)
    requires Disposed(p, e, e', u, RunPostpone, next, at) && NoneWaits(e, u, at.look)
    ensures u in e'.postponed && u in e'.deadline && e'.deadline[u] == at.park + p.timeout
    ensures (at.park + p.timeout, u) in e'.expire
  {
    hide Met;
    hide NoneWaits;
    var found :| Met(e, e', u, found, at, p.timeout);
    MetParks(e, e', u, found, at, p.timeout);
  }
}
