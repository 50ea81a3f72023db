/** Upstream connections: keep-alive pools with a limit, a queue of tasks waiting for a
    connection, and the sender counters behind `busy`. Completions, failures and idle closes may
    come in any order; a completion's callback may send further tasks before the connection is
    released. */
module Upstream {
  import opened Options

  type Task = nat
  type Conn = nat         // a network connection
  type Id = nat           // the pool's connection id

  class ConnItem {
    const keepAlive: bool
    const maxConnections: nat             // 0: unlimited
    var newId: Id
    var connCnt: int
    var idle: map<Conn, Id>
    var active: map<Id, Option<Conn>>
    var taskQueue: seq<Task>
    ghost var submitted: seq<Task>        // every task ever sent through this entry
    ghost var dispatched: seq<Task>       // every task a sender was created for

    constructor (keepAlive: bool, maxConnections: nat)
      ensures this.keepAlive == keepAlive && this.maxConnections == maxConnections
      ensures Ok() && active == map[] && taskQueue == [] && submitted == []
    {
      this.keepAlive, this.maxConnections := keepAlive, maxConnections;
      newId, connCnt, idle, active, taskQueue := 0, 0, map[], map[], [];
      submitted, dispatched := [], [];
    }

    /** Connections are counted exactly, within the limit, under unique ids. Entries without
        keep-alive count nothing. */
    ghost predicate Counted()
      reads `newId, `connCnt, `idle, `active
    {
      && connCnt == |idle| + |active|
      && (maxConnections != 0 ==> connCnt <= maxConnections)
      && (forall c, d :: c in idle && d in idle && idle[c] == idle[d] ==> c == d)
      && (forall c :: c in idle ==> idle[c] !in active && idle[c] <= newId)
      && (forall i :: i in active ==> i <= newId)
      && (!keepAlive ==> idle == map[] && active == map[])
    }

    /** Tasks wait only while every allowed connection is active; they leave in arrival order. */
    ghost predicate Waiting()
      reads this
    {
      && submitted == dispatched + taskQueue
      && (taskQueue != [] ==> keepAlive && maxConnections != 0 && idle == map[] && |active| == maxConnections)
    }

    ghost predicate Ok()
      reads this
    {
      Counted() && Waiting()
    }

    lemma WaitingFacts()
      requires Ok()
      ensures Counted() && submitted == dispatched + taskQueue
      ensures taskQueue != [] ==> keepAlive && maxConnections != 0 && idle == map[] && |active| == maxConnections
      ensures !keepAlive ==> active == map[]
    {
    }

    lemma IsOk()
      requires Counted() && submitted == dispatched + taskQueue
      requires taskQueue != [] ==> keepAlive && maxConnections != 0 && idle == map[] && |active| == maxConnections
      ensures Ok()
    {
    }

    lemma RoomLeft()
      requires Counted() && |active| < maxConnections
      ensures HasRoom()
    {
    }

    lemma NothingWaits()
      requires Counted() && taskQueue == [] && submitted == dispatched
      ensures Ok()
    {
    }

    /** A task joins the queue when the entry is at its limit. */
    method Enqueue(task: Task)
      requires Ok() && maxConnections != 0 && idle == map[] && connCnt == maxConnections
      modifies this`taskQueue, this`submitted
      ensures Ok() && taskQueue == old(taskQueue) + [task] && submitted == old(submitted) + [task]
    {
      assert keepAlive;
      taskQueue := taskQueue + [task];
      submitted := submitted + [task];
    }

    lemma RoomMeansEmpty()
      requires Ok() && !(maxConnections != 0 && idle == map[] && connCnt == maxConnections)
      ensures taskQueue == [] && submitted == dispatched && HasRoom()
    {
    }

    /** A free idle connection, or room for a new one. */
    predicate HasRoom()
      reads `idle, `connCnt
    {
      maxConnections == 0 || idle != map[] || connCnt != maxConnections
    }

    method GetConnection() returns (id: Id, client: Option<Conn>)
      requires keepAlive && Counted() && HasRoom()
      modifies this`newId, this`connCnt, this`idle, this`active
      ensures Counted() && id !in old(active) && active == old(active)[id := client]
      ensures client.None? ==> old(idle) == map[] == idle && id == old(newId) + 1
      ensures client.Some? ==>
                && client.value in old(idle) && old(idle)[client.value] == id
                && idle == old(idle) - {client.value}
      ensures active.Keys == old(active).Keys + {id} && |active| == |old(active)| + 1
      ensures |idle| == if client.Some? then |old(idle)| - 1 else 0
    {
      client := None;
      if idle != map[] {
        var c :| c in idle;
        id, client := idle[c], Some(c);
        idle := idle - {c};
        assert idle.Keys == old(idle).Keys - {c};
      } else {
        connCnt := connCnt + 1;
        newId := newId + 1;
        id := newId;
      }
      active := active[id := client];
      assert active.Keys == old(active).Keys + {id};
    }

    /** What a new sender gets: a connection of the pool, or with no keep-alive none. */
    method Connect() returns (id: Id)
      requires Counted() && (keepAlive ==> HasRoom())
      modifies this`newId, this`connCnt, this`idle, this`active
      ensures Counted() && idle.Keys <= old(idle).Keys
      ensures keepAlive ==>
                && id !in old(active) && active.Keys == old(active).Keys + {id} && |active| == |old(active)| + 1
                && |idle| <= |old(idle)| && (old(idle) != map[] ==> |idle| == |old(idle)| - 1)
      ensures !keepAlive ==> idle == old(idle) && active == old(active)
    {
      hide Counted;
      id := 0;
      if keepAlive {
        var client;
        id, client := GetConnection();
      }
    }

    /** The connection of a finished sender goes idle, or is gone if it failed. */
    method ReleaseActive(id: Id, client: Option<Conn>)
      requires Counted() && (keepAlive ==> id in active) && (!keepAlive ==> client.None?)
      requires keepAlive && client.Some? ==> client.value !in idle
      modifies this`connCnt, this`idle, this`active
      ensures Counted()
      ensures active == old(active) - {id}
      ensures idle == if client.Some? then old(idle)[client.value := id] else old(idle)
      ensures keepAlive ==> |active| == |old(active)| - 1 && active.Keys == old(active).Keys - {id}
      ensures |idle| <= |old(idle)| + 1
    {
      assert id !in active ==> active == active - {id};
      if !keepAlive {
        return;
      }
      if client.Some? {
        idle := idle[client.value := id];
        assert idle.Keys == old(idle).Keys + {client.value};
      } else {
        connCnt := connCnt - 1;
      }
      active := active - {id};
      assert active.Keys == old(active).Keys - {id};
    }

    /** An idle connection was closed by the other side. */
    method OnCloseIdle(client: Conn)
      requires keepAlive && Ok() && client in idle
      modifies this`connCnt, this`idle
      ensures Ok() && idle == old(idle) - {client}
    {
      connCnt := connCnt - 1;
      idle := idle - {client};
      assert idle.Keys == old(idle).Keys - {client};
    }
  }

  // ----- senders and active connections -----

  /** The senders in flight by serial number, the one whose callback is running, the counters, and
      the active connection ids of every entry. */
  datatype View = View(outstanding: map<nat, (ConnItem, Id)>, finishing: Option<(ConnItem, Id)>,
                       sent: nat, done: nat, active: map<ConnItem, set<Id>>)

  ghost predicate InFlight(v: View, i: ConnItem, id: Id) {
    exists s :: s in v.outstanding && v.outstanding[s] == (i, id)
  }

  /** Senders in flight hold distinct active connections, and the counters tell how many there are. */
  ghost predicate Holding(v: View) {
    && v.sent == v.done + |v.outstanding|
    && (forall s :: s in v.outstanding ==> s <= v.sent && v.outstanding[s].0 in v.active)
    && (forall s :: s in v.outstanding && v.outstanding[s].0.keepAlive ==>
          v.outstanding[s].1 in v.active[v.outstanding[s].0] && v.finishing != Some(v.outstanding[s]))
    && (forall s, r :: (s in v.outstanding && r in v.outstanding && v.outstanding[s].0.keepAlive &&
                        v.outstanding[s] == v.outstanding[r]) ==> s == r)
    && (v.finishing.Some? ==> v.finishing.value.0 in v.active)
    && (v.finishing.Some? && v.finishing.value.0.keepAlive ==> v.finishing.value.1 in v.active[v.finishing.value.0])
  }

  /** Every active connection is held by a sender. */
  ghost predicate Held(v: View) {
    forall i, id :: i in v.active && id in v.active[i] ==> v.finishing == Some((i, id)) || InFlight(v, i, id)
  }

  ghost predicate Matched(v: View) {
    Holding(v) && Held(v)
  }

  ghost function Started(v: View, i: ConnItem, id: Id): View
    requires i in v.active
  {
    v.(sent := v.sent + 1, outstanding := v.outstanding[v.sent + 1 := (i, id)],
       active := if i.keepAlive then v.active[i := v.active[i] + {id}] else v.active)
  }

  lemma StartedIs(v: View, i: ConnItem, id: Id)
    requires i in v.active
    ensures Started(v, i, id) ==
            View(v.outstanding[v.sent + 1 := (i, id)], v.finishing, v.sent + 1, v.done,
                 if i.keepAlive then v.active[i := v.active[i] + {id}] else v.active)
  {
  }

  lemma StartedHolding(v: View, i: ConnItem, id: Id)
    requires Holding(v) && i in v.active && (i.keepAlive ==> id !in v.active[i])
    ensures Holding(Started(v, i, id))
  {
    var v' := Started(v, i, id);
    assert v'.outstanding.Keys == v.outstanding.Keys + {v.sent + 1};
    forall s | s in v'.outstanding
      ensures s <= v'.sent && v'.outstanding[s].0 in v'.active
      ensures v'.outstanding[s].0.keepAlive ==>
                v'.outstanding[s].1 in v'.active[v'.outstanding[s].0] && v'.finishing != Some(v'.outstanding[s])
    {
      assert s != v.sent + 1 ==> s in v.outstanding && v'.outstanding[s] == v.outstanding[s];
    }
  }

  lemma StartedMatched(v: View, i: ConnItem, id: Id)
    requires Matched(v) && i in v.active && (i.keepAlive ==> id !in v.active[i])
    ensures Matched(Started(v, i, id))
  {
    StartedHolding(v, i, id);
    hide Holding;
    var v' := Started(v, i, id);
    assert v.sent + 1 !in v.outstanding by { SerialFresh(v); }
    assert v'.outstanding[v.sent + 1] == (i, id);
    forall j, k | j in v'.active && k in v'.active[j] ensures v'.finishing == Some((j, k)) || InFlight(v', j, k) {
      if InFlight(v, j, k) {
        var s :| s in v.outstanding && v.outstanding[s] == (j, k);
        assert v'.outstanding[s] == (j, k);
      }
    }
  }

  lemma FreshSerial(v: View)
    requires Matched(v)
    ensures v.sent + 1 !in v.outstanding
  {
  }

  lemma SerialFresh(v: View)
    requires Holding(v)
    ensures v.sent + 1 !in v.outstanding
  {
  }

  /** The sender's completion arrives: it is done, its connection still active. */
  ghost function Completing(v: View, s: nat): View
    requires s in v.outstanding
  {
    v.(done := v.done + 1, outstanding := v.outstanding - {s}, finishing := Some(v.outstanding[s]))
  }

  lemma CompletingMatched(v: View, s: nat)
    requires Matched(v) && s in v.outstanding && v.finishing == None
    ensures Matched(Completing(v, s))
  {
    var v' := Completing(v, s);
    assert v'.outstanding.Keys == v.outstanding.Keys - {s};
    forall j, k | j in v'.active && k in v'.active[j] ensures v'.finishing == Some((j, k)) || InFlight(v', j, k) {
      var r :| r in v.outstanding && v.outstanding[r] == (j, k);
      if r != s { assert v'.outstanding[r] == (j, k); }
    }
  }

  ghost function Released(v: View): View
    requires v.finishing.Some? && v.finishing.value.0 in v.active
  {
    var (i, id) := v.finishing.value;
    v.(finishing := None, active := if i.keepAlive then v.active[i := v.active[i] - {id}] else v.active)
  }

  lemma ReleasedMatched(v: View)
    requires Matched(v) && v.finishing.Some? && (!v.finishing.value.0.keepAlive ==> v.active[v.finishing.value.0] == {})
    ensures Matched(Released(v))
  {
    var v' := Released(v);
    forall j, k | j in v'.active && k in v'.active[j] ensures InFlight(v', j, k) {
      assert InFlight(v, j, k);
      var s :| s in v.outstanding && v.outstanding[s] == (j, k);
      assert v'.outstanding[s] == (j, k);
    }
  }

  /** With all senders done, no connection is active. */
  lemma AllDone(v: View, i: ConnItem)
    requires Matched(v) && v.finishing == None && v.sent == v.done && i in v.active
    ensures v.active[i] == {}
  {
    assert v.outstanding.Keys == {};
    forall id ensures id !in v.active[i] {
      assert !InFlight(v, i, id);
    }
  }

  ghost function Actives(all: set<ConnItem>): map<ConnItem, set<Id>>
    reads all`active
    ensures Actives(all).Keys == all
  {
    map i | i in all :: i.active.Keys
  }

  lemma ActivesAre(all: set<ConnItem>, active: map<ConnItem, set<Id>>)
    requires active.Keys == all && forall i :: i in all ==> active[i] == i.active.Keys
    ensures Actives(all) == active
  {
  }

  // ----- how many tasks are unfinished -----

  ghost function Total(m: map<ConnItem, nat>): nat
    decreases |m|
  {
    if m == map[] then 0
    else
      var i :| i in m;
      assert (m - {i}).Keys == m.Keys - {i};
      m[i] + Total(m - {i})
  }

  lemma {:induction false} TotalWithout(m: map<ConnItem, nat>, i: ConnItem)
    requires i in m
    ensures Total(m) == m[i] + Total(m - {i})
    decreases |m|
  {
    var j :| j in m && Total(m) == m[j] + Total(m - {j});
    assert (m - {j}).Keys == m.Keys - {j};
    if i != j {
      assert (m - {i}).Keys == m.Keys - {i};
      TotalWithout(m - {j}, i);
      TotalWithout(m - {i}, j);
      assert m - {i} - {j} == m - {j} - {i};
    }
  }

  lemma TotalUpdate(m: map<ConnItem, nat>, i: ConnItem, n: nat)
    requires i in m
    ensures Total(m[i := n]) == Total(m) - m[i] + n
  {
    TotalWithout(m, i);
    TotalWithout(m[i := n], i);
    assert m[i := n] - {i} == m - {i};
  }

  lemma {:induction false} TotalZero(m: map<ConnItem, nat>)
    ensures Total(m) == 0 <==> forall i :: i in m ==> m[i] == 0
    decreases |m|
  {
    if m != map[] {
      var i :| i in m && Total(m) == m[i] + Total(m - {i});
      assert (m - {i}).Keys == m.Keys - {i};
      TotalZero(m - {i});
      var rest := m - {i};
      if Total(m) == 0 {
        forall j | j in m ensures m[j] == 0 { assert j == i || (j in rest && rest[j] == 0); }
      } else if m[i] == 0 {
        var j :| j in rest && rest[j] != 0;
        assert m[j] != 0;
      }
    }
  }

  ghost function Lengths(all: set<ConnItem>): (m: map<ConnItem, nat>)
    reads all`taskQueue
    ensures m.Keys == all && forall i :: i in all ==> m[i] == |i.taskQueue|
  {
    map i | i in all :: |i.taskQueue|
  }

  lemma LengthsAre(all: set<ConnItem>, m: map<ConnItem, nat>)
    requires m.Keys == all && forall i :: i in all ==> m[i] == |i.taskQueue|
    ensures Lengths(all) == m
  {
  }

  lemma SizeWith(m: map<nat, (ConnItem, Id)>, s: nat, x: (ConnItem, Id))
    requires s !in m
    ensures |m[s := x]| == |m| + 1
  {
    assert m[s := x].Keys == m.Keys + {s};
  }

  lemma SizeWithout(m: map<nat, (ConnItem, Id)>, s: nat)
    requires s in m
    ensures |m - {s}| == |m| - 1
  {
    assert (m - {s}).Keys == m.Keys - {s};
  }

  class UpstreamManager {
    var cntSender: nat
    var cntDone: nat
    const default: ConnItem                // plain requests: no keep-alive, no limit
    const items: map<string, ConnItem>     // uri substitutions
    ghost const all: set<ConnItem>
    ghost var outstanding: map<nat, (ConnItem, Id)>
    ghost var finishing: Option<(ConnItem, Id)>

    constructor (items: map<string, ConnItem>)
      requires forall n :: n in items ==> items[n].Ok() && items[n].active == map[]
      ensures Valid() && finishing == None && !Busy() && this.items == items
    {
      default := new ConnItem(false, 0);
      this.items := items;
      all := (set n | n in items :: items[n]) + {default};
      cntSender, cntDone, outstanding, finishing := 0, 0, map[], None;
      new;
      Empty();
    }

    lemma Empty()
      requires Listed() && AllOk() && cntSender == cntDone && outstanding == map[] && finishing == None
      requires forall i :: i in all ==> i.active == map[]
      ensures Valid()
    {
    }

    ghost function Now(): View
      reads `outstanding, `finishing, `cntSender, `cntDone, all`active
    {
      View(outstanding, finishing, cntSender, cntDone, Actives(all))
    }

    ghost predicate Listed()
    {
      default in all && !default.keepAlive && forall n :: n in items ==> items[n] in all
    }

    ghost predicate AllOk()
      reads all
    {
      forall i :: i in all ==> i.Ok()
    }

    ghost predicate Valid()
      reads this, all
    {
      Listed() && Matched(Now()) && AllOk()
    }

    lemma ListedWhenValid()
      requires Valid()
      ensures Listed()
    {
    }

    lemma NowIs()
      ensures Now() == View(outstanding, finishing, cntSender, cntDone, Actives(all))
      ensures Now().active.Keys == all && forall i :: i in all ==> Now().active[i] == i.active.Keys
    {
    }

    lemma Parts()
      requires Valid()
      ensures Listed() && Matched(Now()) && AllOk()
    {
    }

    lemma Whole()
      requires Listed() && Matched(Now()) && AllOk()
      ensures Valid()
    {
    }

    predicate Busy()
      reads this
    {
      cntSender != cntDone
    }

    /** The number of tasks that were sent here and are not finished: in flight or waiting. */
    ghost function Pending(): nat
      reads `outstanding, all`taskQueue
    {
      |outstanding| + Total(Lengths(all))
    }

    /** Not busy means nothing is active and nothing waits, on any entry. */
    lemma NotBusyNothingQueued(i: ConnItem)
      requires Valid() && finishing == None && !Busy() && i in all
      ensures i.active == map[] && i.taskQueue == []
    {
      AllDone(Now(), i);
      assert i.active.Keys == {};
    }

    /** Busy if and only if some task sent here is unfinished, on whatever entry. When not busy, no
        sender is in flight and every task submitted to an entry has been dispatched. */
    lemma BusyIffPending()
      requires Valid() && finishing == None
      ensures Busy() <==> Pending() != 0
      ensures Busy() <==> outstanding != map[] || exists i :: i in all && i.taskQueue != []
      ensures !Busy() ==>
                outstanding == map[] && forall i :: i in all ==> i.active == map[] && i.submitted == i.dispatched
    {
      TotalZero(Lengths(all));
      if !Busy() {
        forall i | i in all ensures i.active == map[] && i.taskQueue == [] && i.submitted == i.dispatched {
          NotBusyNothingQueued(i);
          i.WaitingFacts();
        }
      }
    }

    /** How many of the tasks go to an entry that exists. */
    function Sends(resends: seq<(Task, string)>): nat {
      if resends == [] then 0
      else Sends(resends[..|resends| - 1]) + if Entry(resends[|resends| - 1].1).Some? then 1 else 0
    }

    /** The entry a uri names; `$name` must be configured. */
    function Entry(uri: string): (i: Option<ConnItem>)
      ensures Listed() && i.Some? ==> i.value in all
    {
      if uri != "" && uri[0] == '$' then
        if uri[1..] in items then Some(items[uri[1..]]) else None
      else Some(default)
    }

    /** Creates the sender for a task; the entry must have a connection to give. */
    method CreateSender(item: ConnItem, task: Task)
      requires Matched(Now()) && item in all && item.Counted() && (item.keepAlive ==> item.HasRoom())
      modifies this`cntSender, this`outstanding, item`newId, item`connCnt, item`idle, item`active, item`dispatched
      ensures Matched(Now()) && item.Counted() && item.dispatched == old(item.dispatched) + [task]
      ensures item.keepAlive ==> |item.active| == |old(item.active)| + 1 && |item.idle| <= |old(item.idle)|
      ensures item.keepAlive && old(item.idle) != map[] ==> |item.idle| == |old(item.idle)| - 1
      ensures !item.keepAlive ==> item.idle == old(item.idle) && item.active == old(item.active)
      ensures item.idle.Keys <= old(item.idle).Keys && finishing == old(finishing)
      ensures |outstanding| == |old(outstanding)| + 1
    {
      hide *;
      ghost var v := Now();
      NowIs();
      FreshSerial(v);
      cntSender := cntSender + 1;
      var id := item.Connect();
      item.dispatched := item.dispatched + [task];
      SizeWith(outstanding, cntSender, (item, id));
      outstanding := outstanding[cntSender := (item, id)];
      StartedMatched(v, item, id);
      StartedIs(v, item, id);
      ActivesAre(all, Started(v, item, id).active);
      NowIs();
    }

    /** All entries but `item` are fully in order. */
    ghost predicate OthersOk(item: ConnItem)
      reads all - {item}
    {
      forall i :: i in all && i != item ==> i.Ok()
    }

    lemma ValidFacts(item: ConnItem)
      requires Valid() && item in all
      ensures Matched(Now()) && item.Ok() && item.Counted() && OthersOk(item) && Listed()
    {
    }

    lemma IsValid(item: ConnItem)
      requires Matched(Now()) && item.Ok() && OthersOk(item) && Listed()
      ensures Valid()
    {
    }

    method SendTo(item: ConnItem, task: Task)
      requires Valid() && item in all
      modifies this`cntSender, this`outstanding, item
      ensures Valid() && item.submitted == old(item.submitted) + [task] && Pending() == old(Pending()) + 1
      ensures item.idle.Keys <= old(item.idle).Keys && old(item.dispatched) <= item.dispatched
    {
      hide *;
      ValidFacts(item);
      ghost var lengths, n := Lengths(all), |outstanding|;
      PendingIs(lengths, n);
      TotalUpdate(lengths, item, |item.taskQueue| + 1);
      if item.maxConnections != 0 && item.idle == map[] && item.connCnt == item.maxConnections {
        item.Enqueue(task);
      } else {
        item.RoomMeansEmpty();
        item.submitted := item.submitted + [task];
        CreateSender(item, task);
        item.NothingWaits();
      }
      LengthsAre(all, if item.taskQueue == old(item.taskQueue) then lengths else lengths[item := |item.taskQueue|]);
      PendingIs(Lengths(all), |outstanding|);
      IsValid(item);
    }

    lemma PendingIs(m: map<ConnItem, nat>, n: nat)
      requires m == Lengths(all) && n == |outstanding|
      ensures Pending() == n + Total(m)
    {
    }

    /** A task goes out at once if its entry has a connection to give, and waits otherwise; an
        unknown substitution is an error that changes nothing. */
    method Send(task: Task, uri: string) returns (ok: bool)
      requires Valid()
      modifies this`cntSender, this`outstanding, all
      ensures Valid() && (ok <==> Entry(uri).Some?)
      ensures Pending() == old(Pending()) + if ok then 1 else 0
      ensures forall i :: i in all ==>
                i.submitted == if ok && i == Entry(uri).value then old(i.submitted) + [task] else old(i.submitted)
      ensures forall i :: i in all ==> i.idle.Keys <= old(i.idle).Keys && old(i.dispatched) <= i.dispatched
    {
      hide Valid;
      hide Pending;
      ListedWhenValid();
      var entry := Entry(uri);
      if entry.None? {
        return false;
      }
      SendTo(entry.value, task);
      ok := true;
    }

    /** The completion callback: it may send any further tasks. */
    method Callback(resends: seq<(Task, string)>)
      requires Valid()
      modifies this`cntSender, this`outstanding, all
      ensures Valid() && forall i :: i in all ==> i.idle.Keys <= old(i.idle).Keys
      ensures forall i :: i in all ==> old(i.submitted) <= i.submitted && old(i.dispatched) <= i.dispatched
      ensures Pending() == old(Pending()) + Sends(resends)
    {
      hide Valid;
      hide Pending;
      assert resends[..|resends|] == resends;
      for k := 0 to |resends|
        invariant Pending() == old(Pending()) + Sends(resends[..k])
        invariant Valid() && forall i :: i in all ==> i.idle.Keys <= old(i.idle).Keys
        invariant forall i :: i in all ==> old(i.submitted) <= i.submitted && old(i.dispatched) <= i.dispatched
      {
        assert resends[..k + 1][..k] == resends[..k];
        var _ := Send(resends[k].0, resends[k].1);
      }
    }

    /** The counters move on first; the connection stays active while the callback runs. */
    method Complete(item: ConnItem, id: Id, ghost serial: nat)
      requires Valid() && finishing == None && serial in outstanding && outstanding[serial] == (item, id)
      modifies this`cntDone, this`outstanding, this`finishing
      ensures Valid() && finishing == Some((item, id)) && cntDone == old(cntDone) + 1 && item in all
      ensures Pending() == old(Pending()) - 1
    {
      hide *;
      Parts();
      NowIs();
      PendingIs(Lengths(all), |outstanding|);
      SizeWithout(outstanding, serial);
      ghost var v := Now();
      CompletingMatched(v, serial);
      cntDone := cntDone + 1;
      outstanding := outstanding - {serial};
      finishing := Some((item, id));
      NowIs();
      CompletingIs(v, serial);
      PendingIs(Lengths(all), |outstanding|);
      Whole();
    }

    /** The connection becomes idle or is gone. */
    method Release(item: ConnItem, id: Id, client: Option<Conn>)
      requires Valid() && finishing == Some((item, id)) && item in all
      requires client.Some? ==> item.keepAlive && client.value !in item.idle
      modifies this`finishing, item`connCnt, item`idle, item`active
      ensures finishing == None && Matched(Now()) && item.Counted() && OthersOk(item) && Listed()
      ensures item.submitted == item.dispatched + item.taskQueue && Pending() == old(Pending())
      ensures item.taskQueue != [] ==>
                && item.keepAlive && item.maxConnections != 0 && |item.active| == item.maxConnections - 1
                && |item.idle| <= 1
    {
      hide *;
      ValidFacts(item);
      item.WaitingFacts();
      NowIs();
      ghost var v := Now();
      FinishingHeld(v);
      ReleasedMatched(v);
      ReleasedIs(v);
      item.ReleaseActive(id, client);
      finishing := None;
      ActivesAre(all, Released(v).active);
      NowIs();
    }

    /** After a release: the oldest waiting task, if any, takes the place. */
    method ServeNext(item: ConnItem)
      requires item in all && Matched(Now()) && item.Counted() && OthersOk(item) && Listed()
      requires item.submitted == item.dispatched + item.taskQueue
      requires item.taskQueue != [] ==>
                 && item.keepAlive && item.maxConnections != 0 && |item.active| == item.maxConnections - 1
                 && |item.idle| <= 1
      modifies this`cntSender, this`outstanding, item
      ensures Valid() && finishing == old(finishing) && item.submitted == old(item.submitted) &&
                Pending() == old(Pending())
      ensures item.dispatched == if old(item.taskQueue) != [] then old(item.dispatched) + [old(item.taskQueue)[0]]
                                 else old(item.dispatched)
    {
      hide *;
      ghost var lengths := Lengths(all);
      PendingIs(lengths, |outstanding|);
      if item.taskQueue != [] {
        TotalUpdate(lengths, item, |item.taskQueue| - 1);
        var task := item.taskQueue[0];
        assert item.taskQueue == [task] + item.taskQueue[1..];
        item.taskQueue := item.taskQueue[1..];
        item.RoomLeft();
        CreateSender(item, task);
        assert item.idle == map[];
        LengthsAre(all, lengths[item := |item.taskQueue|]);
        PendingIs(Lengths(all), |outstanding|);
      }
      item.IsOk();
      IsValid(item);
    }

    /** A sender completed. `client` is its connection if that is still usable, which then is not
        already idle. The callback runs before the connection is released; then a waiting task, the
        oldest first, takes the freed place. */
    method OnDone(item: ConnItem, id: Id, client: Option<Conn>, ghost serial: nat, resends: seq<(Task, string)>)
      requires Valid() && finishing == None && serial in outstanding && outstanding[serial] == (item, id)
      requires client.Some? ==> item.keepAlive && client.value !in item.idle
      modifies this, all
      ensures Valid() && finishing == None && cntDone == old(cntDone) + 1
      ensures Pending() == old(Pending()) - 1 + Sends(resends)
      ensures old(item.submitted) <= item.submitted
      ensures old(item.taskQueue) != [] ==>
                && |old(item.dispatched)| < |item.dispatched|
                && item.dispatched[|old(item.dispatched)|] == old(item.taskQueue)[0]
    {
      hide *;
      Known(item, id, serial);
      ValidFacts(item);
      item.WaitingFacts();
      Complete(item, id, serial);
      Callback(resends);
      Release(item, id, client);
      assert item.taskQueue == [] ==> item.dispatched == item.submitted;
      ServeNext(item);
      ValidFacts(item);
      item.WaitingFacts();
      OldestServed(old(item.dispatched), old(item.taskQueue), item.dispatched, item.taskQueue);
    }

    lemma Known(item: ConnItem, id: Id, serial: nat)
      requires Valid() && serial in outstanding && outstanding[serial] == (item, id)
      ensures item in all
    {
    }
  }

  lemma OldestServed(dispatched: seq<Task>, waiting: seq<Task>, dispatched': seq<Task>, waiting': seq<Task>)
    requires dispatched + waiting <= dispatched' + waiting' && dispatched <= dispatched'
    ensures waiting != [] && |dispatched| < |dispatched'| ==> dispatched'[|dispatched|] == waiting[0]
  {
    if waiting != [] && |dispatched| < |dispatched'| {
      assert (dispatched' + waiting')[|dispatched|] == (dispatched + waiting)[|dispatched|];
    }
  }

  lemma CompletingIs(v: View, s: nat)
    requires Matched(v) && s in v.outstanding
    ensures Completing(v, s) == View(v.outstanding - {s}, Some(v.outstanding[s]), v.sent, v.done + 1, v.active)
    ensures v.outstanding[s].0 in v.active
  {
  }

  lemma ReleasedIs(v: View)
    requires v.finishing.Some? && v.finishing.value.0 in v.active
    ensures var (i, id) := v.finishing.value;
            Released(v) == View(v.outstanding, None, v.sent, v.done,
                                if i.keepAlive then v.active[i := v.active[i] - {id}] else v.active)
  {
  }

  lemma FinishingHeld(v: View)
    requires Matched(v) && v.finishing.Some?
    ensures v.finishing.value.0 in v.active
    ensures v.finishing.value.0.keepAlive ==> v.finishing.value.1 in v.active[v.finishing.value.0]
  {
  }
}