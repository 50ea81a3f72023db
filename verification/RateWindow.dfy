/** The per-address request window of the IP filter: counts requests, slides with the clock,
    forgets stale neighbours, and never lets an untriggered address exceed its rate. */
module RateWindow {

  type Addr = nat
  type Time = int                      // clock ticks

  const SECOND := 1_000_000_000       // ticks per second

  datatype Window = Window(start: Time, count: int)

  type Windows = map<Addr, Window>

  /** `rate` requests per second over a window of `span` seconds. */
  datatype Config = Config(rate: int, span: int)

  function Limit(c: Config): int {
    c.span * c.rate
  }

  /** A further request at `now` in an existing window: the new window and whether it triggers. */
  function Touch(c: Config, w: Window, now: Time): (Window, bool) {
    var end := w.start + c.span * SECOND;
    if end + c.span * SECOND < now then (Window(now, 1), false)
    else if end + SECOND < now then
      var secs := (now - end) / SECOND;
      var count := w.count - secs * c.rate;
      if count <= 0 then (Window(now, 1), false)
      else (Window(w.start + secs * SECOND, count + 1), Limit(c) < count + 1)
    else (Window(w.start, w.count + 1), Limit(c) < w.count + 1)
  }

  // ----- the ordered map's neighbour -----

  predicate IsLeast(keys: set<Addr>, least: Addr) {
    least in keys && forall k :: k in keys ==> least <= k
  }

  lemma {:induction false} LeastExists(keys: set<Addr>)
    requires keys != {}
    ensures exists least :: IsLeast(keys, least)
  {
    var k :| k in keys;
    if keys == {k} {
      assert IsLeast(keys, k);
    } else {
      LeastExists(keys - {k});
      var rest :| IsLeast(keys - {k}, rest);
      assert forall j :: j in keys ==> j == k || j in keys - {k};
      assert IsLeast(keys, if k < rest then k else rest);
    }
  }

  /** The entry after `addr` in address order, wrapping to the first. */
  ghost function Neighbour(keys: set<Addr>, addr: Addr): (n: Addr)
    requires keys != {}
    ensures n in keys
    ensures var later := set k | k in keys && addr < k; IsLeast(if later == {} then keys else later, n)
  {
    var later := set k | k in keys && addr < k;
    var from := if later == {} then keys else later;
    LeastExists(from);
    var n :| IsLeast(from, n);
    n
  }

  /** Forgets the neighbour if its window is two spans old. */
  ghost function Evict(c: Config, m: Windows, addr: Addr, now: Time): (r: Windows) {
    if m == map[] then m
    else
      var n := Neighbour(m.Keys, addr);
      if m[n].start + c.span * SECOND + c.span * SECOND <= now then m - {n} else m
  }

  /** One request: the windows afterwards and whether the address triggered. */
  ghost function Count(c: Config, m: Windows, addr: Addr, now: Time): (Windows, bool) {
    var (w, triggered) := if addr in m then Touch(c, m[addr], now) else (Window(now, 1), false);
    (Evict(c, if triggered then m - {addr} else m[addr := w], addr, now), triggered)
  }

  class IpMap {
    const config: Config
    var windows: Windows

    constructor (requestsPerSec: int, windowSizeSec: int)
      ensures config == Config(requestsPerSec, windowSizeSec) && windows == map[]
    {
      config := Config(requestsPerSec, windowSizeSec);
      windows := map[];
    }

    method Inc(addr: Addr, now: Time) returns (triggered: bool)
      modifies this
      ensures (windows, triggered) == Count(config, old(windows), addr, now)
    {
      triggered := false;
      if addr in windows {
        var wnd := windows[addr];
        var end := wnd.start + config.span * SECOND;
        if end + config.span * SECOND < now {
          wnd := Window(now, 1);
        } else {
          var restarted := false;
          if end + SECOND < now {
            var secs := (now - end) / SECOND;
            wnd := wnd.(count := wnd.count - secs * config.rate);
            if wnd.count <= 0 {
              wnd := Window(now, 1);
              restarted := true;
            } else {
              wnd := wnd.(start := wnd.start + secs * SECOND);
            }
          }
          if !restarted {
            wnd := wnd.(count := wnd.count + 1);
            if config.span * config.rate < wnd.count {
              triggered := true;
            }
          }
        }
        windows := windows[addr := wnd];
      } else {
        windows := windows[addr := Window(now, 1)];
      }
      assert windows - {addr} == old(windows) - {addr};
      RemoveItAndNeighbour(addr, triggered, now);
    }

    method RemoveItAndNeighbour(addr: Addr, triggered: bool, now: Time)
      requires addr in windows
      modifies this
      ensures windows == Evict(config, if triggered then old(windows) - {addr} else old(windows), addr, now)
    {
      if triggered {
        windows := windows - {addr};
      }
      if windows != map[] {
        var later := set k | k in windows && addr < k;
        var from := if later == {} then windows.Keys else later;
        var least := Least(from);
        assert later == set k | k in windows.Keys && addr < k;
        assert least == Neighbour(windows.Keys, addr);
        if windows[least].start + config.span * SECOND + config.span * SECOND <= now {
          windows := windows - {least};
        }
      }
    }

    method Least(keys: set<Addr>) returns (least: Addr)
      requires keys != {}
      ensures IsLeast(keys, least)
    {
      least :| least in keys;
      var rest := keys - {least};
      while rest != {}
        invariant rest <= keys && least in keys
        invariant forall k :: k in keys && k !in rest ==> least <= k
      {
        var k :| k in rest;
        if k < least { least := k; }
        rest := rest - {k};
      }
    }
  }

  // ----- the rate bound over whole request histories -----

  datatype Request = Request(addr: Addr, now: Time)

  ghost predicate Ordered(reqs: seq<Request>) {
    forall i, j :: 0 <= i < j < |reqs| ==> reqs[i].now <= reqs[j].now
  }

  /** The windows after a history of requests from any addresses. */
  ghost function After(c: Config, m: Windows, reqs: seq<Request>): Windows {
    if reqs == [] then m
    else
      var last := reqs[|reqs| - 1];
      Count(c, After(c, m, reqs[..|reqs| - 1]), last.addr, last.now).0
  }

  /** Whether request i of the history triggered. */
  ghost predicate Triggers(c: Config, m: Windows, reqs: seq<Request>, i: nat)
    requires i < |reqs|
  {
    Count(c, After(c, m, reqs[..i]), reqs[i].addr, reqs[i].now).1
  }

  function Requests(reqs: seq<Request>, a: Addr): nat {
    if reqs == [] then 0
    else Requests(reqs[..|reqs| - 1], a) + if reqs[|reqs| - 1].addr == a then 1 else 0
  }

  /** What the stored window of an address says about the `n` requests it made since `t0`, at time
      `t`: before any restart the count lags by what the slides took off; a restart only happens
      once the address is a whole window's allowance behind its rate. */
  ghost predicate Behind(c: Config, w: Window, n: nat, t0: Time, t: Time) {
    && 1 <= w.count <= Limit(c) && t0 <= w.start <= t
    && (|| ((n - w.count) * SECOND <= c.rate * (w.start - t0) && (w.start == t0 || w.start + c.span * SECOND <= t))
        || (n - w.count + Limit(c)) * SECOND <= c.rate * (w.start - t0))
  }

  /** The same for an address whose window may have been evicted meanwhile. */
  ghost predicate Tracked(c: Config, m: Windows, a: Addr, n: nat, t0: Time, t: Time) {
    if a in m then Behind(c, m[a], n, t0, t) else n * SECOND <= c.rate * (t - c.span * SECOND - t0)
  }

  lemma Distribute(r: int, x: int, y: int)
    ensures r * (x + y) == r * x + r * y
  {
  }

  lemma Monotone(r: int, x: int, y: int)
    requires r >= 0 && x <= y
    ensures r * x <= r * y
  {
  }

  lemma LimitInTicks(c: Config)
    ensures Limit(c) * SECOND == c.rate * (c.span * SECOND)
  {
  }

  lemma TicksOff(c: Config, secs: int)
    ensures (secs * c.rate) * SECOND == c.rate * (secs * SECOND)
  {
  }

  /** A window restarted at `now`, which the old one allows only when far enough behind. */
  lemma Restart(c: Config, n: nat, count: int, start: Time, t0: Time, now: Time, owed: int)
    requires c.rate >= 1 && 0 <= owed && t0 <= start && start + owed + c.span * SECOND <= now && 1 <= Limit(c)
    requires (n - count) * SECOND <= c.rate * (start - t0) && count * SECOND <= c.rate * owed
    ensures c.span >= 0 ==> Behind(c, Window(now, 1), n + 1, t0, now)
  {
    LimitInTicks(c);
    Distribute(c.rate, start - t0, owed);
    Distribute(c.rate, start - t0 + owed, c.span * SECOND);
    Monotone(c.rate, start - t0 + owed + c.span * SECOND, now - t0);
  }

  lemma TouchKeeps(c: Config, w: Window, n: nat, t0: Time, t: Time, now: Time)
    requires c.rate >= 1 && c.span >= 1 && Behind(c, w, n, t0, t) && t <= now && !Touch(c, w, now).1
    ensures Behind(c, Touch(c, w, now).0, n + 1, t0, now)
  {
    LimitInTicks(c);
    var end := w.start + c.span * SECOND;
    if end + c.span * SECOND < now {
      Restart(c, n, w.count, w.start, t0, now, c.span * SECOND);
    } else if end + SECOND < now {
      var secs := (now - end) / SECOND;
      TicksOff(c, secs);
      if w.count - secs * c.rate <= 0 {
        Restart(c, n, w.count, w.start, t0, now, secs * SECOND);
      } else {
        Distribute(c.rate, w.start - t0, secs * SECOND);
      }
    }
  }

  lemma EvictKeeps(c: Config, m: Windows, addr: Addr, now: Time, a: Addr, n: nat, t0: Time)
    requires c.rate >= 1 && c.span >= 1 && Tracked(c, m, a, n, t0, now)
    ensures Tracked(c, Evict(c, m, addr, now), a, n, t0, now)
  {
    if a in m && a !in Evict(c, m, addr, now) {
      var w := m[a];
      LimitInTicks(c);
      Distribute(c.rate, w.start - t0, c.span * SECOND);
      Monotone(c.rate, w.start - t0 + c.span * SECOND, now - c.span * SECOND - t0);
    }
  }

  /** One more request, from this address (not triggering) or any other, keeps the tracking. */
  lemma CountKeeps(c: Config, m: Windows, addr: Addr, now: Time, a: Addr, n: nat, t0: Time, t: Time)
    requires c.rate >= 1 && c.span >= 1 && Tracked(c, m, a, n, t0, t) && t <= now && t0 <= now
    requires addr == a ==> !Count(c, m, addr, now).1
    ensures Tracked(c, Count(c, m, addr, now).0, a, if addr == a then n + 1 else n, t0, now)
  {
    var (w, triggered) := if addr in m then Touch(c, m[addr], now) else (Window(now, 1), false);
    var m' := if triggered then m - {addr} else m[addr := w];
    LimitInTicks(c);
    Monotone(c.rate, t - c.span * SECOND - t0, now - c.span * SECOND - t0);
    if addr == a {
      if a in m {
        TouchKeeps(c, m[a], n, t0, t, now);
      } else {
        Distribute(c.rate, now - c.span * SECOND - t0, c.span * SECOND);
      }
      EvictKeeps(c, m', addr, now, a, n + 1, t0);
    } else {
      EvictKeeps(c, m', addr, now, a, n, t0);
    }
  }

  /** The first request of an absent address. */
  lemma FirstCount(c: Config, m: Windows, a: Addr, now: Time)
    requires c.rate >= 1 && c.span >= 1 && a !in m
    ensures !Count(c, m, a, now).1 && Tracked(c, Count(c, m, a, now).0, a, 1, now, now)
  {
    var m' := m[a := Window(now, 1)];
    LimitInTicks(c);
    assert Tracked(c, m', a, 1, now, now);
    EvictKeeps(c, m', a, now, a, 1, now);
  }

  /** The time of the first request of an address. */
  function FirstSeen(reqs: seq<Request>, a: Addr): Time
    requires Requests(reqs, a) > 0
  {
    var before := reqs[..|reqs| - 1];
    if Requests(before, a) > 0 then FirstSeen(before, a) else reqs[|reqs| - 1].now
  }

  lemma {:induction false} HistoryTracked(c: Config, m: Windows, reqs: seq<Request>, a: Addr)
    requires c.rate >= 1 && c.span >= 1 && a !in m && Ordered(reqs)
    requires forall i :: 0 <= i < |reqs| && reqs[i].addr == a ==> !Triggers(c, m, reqs, i)
    ensures Requests(reqs, a) == 0 ==> a !in After(c, m, reqs)
    ensures Requests(reqs, a) > 0 ==>
              && FirstSeen(reqs, a) <= reqs[|reqs| - 1].now
              && Tracked(c, After(c, m, reqs), a, Requests(reqs, a), FirstSeen(reqs, a), reqs[|reqs| - 1].now)
  {
    hide Count;
    hide Tracked;
    if reqs != [] {
      var k := |reqs| - 1;
      var before, last := reqs[..k], reqs[k];
      assert forall i :: 0 <= i < k ==> before[..i] == reqs[..i];
      assert forall i :: 0 <= i < k && before[i].addr == a ==> Triggers(c, m, before, i) == Triggers(c, m, reqs, i);
      HistoryTracked(c, m, before, a);
      assert last.addr == a ==> !Triggers(c, m, reqs, k);
      if Requests(before, a) > 0 {
        CountKeeps(c, After(c, m, before), last.addr, last.now, a,
                   Requests(before, a), FirstSeen(reqs, a), before[k - 1].now);
      } else if last.addr == a {
        FirstCount(c, After(c, m, before), a, last.now);
      } else {
        OthersOnly(c, After(c, m, before), last.addr, last.now, a);
      }
    }
  }

  lemma OthersOnly(c: Config, m: Windows, addr: Addr, now: Time, a: Addr)
    requires a !in m && addr != a
    ensures a !in Count(c, m, addr, now).0
  {
  }

  /** What the tracking amounts to, at any later time. */
  lemma TrackedBound(c: Config, m: Windows, a: Addr, n: nat, t0: Time, now: Time, t: Time)
    requires c.rate >= 1 && c.span >= 1 && Tracked(c, m, a, n, t0, now) && now <= t
    ensures n <= Limit(c) || n * SECOND <= c.rate * (t - t0)
    ensures a in m ==> 1 <= m[a].count <= Limit(c)
  {
    LimitInTicks(c);
    Monotone(c.rate, now - t0, t - t0);
    if a in m {
      var w := m[a];
      Distribute(c.rate, w.start - t0, c.span * SECOND);
      if w.start + c.span * SECOND <= now { Monotone(c.rate, w.start - t0 + c.span * SECOND, now - t0); }
      Monotone(c.rate, w.start - t0, now - t0);
    } else {
      Monotone(c.rate, now - c.span * SECOND - t0, now - t0);
    }
  }

  /** Rate bound: over every mix of slides, restarts and neighbour evictions, an address first seen
      at t0 that never triggered has had at most max(W * R, R * (t - t0)) requests accepted by time
      t, and its stored count lies in 1..W * R. */
  lemma RateBound(c: Config, m: Windows, reqs: seq<Request>, a: Addr, t: Time)
    requires c.rate >= 1 && c.span >= 1 && a !in m && Ordered(reqs) && Requests(reqs, a) > 0
    requires forall i :: 0 <= i < |reqs| && reqs[i].addr == a ==> !Triggers(c, m, reqs, i)
    requires reqs[|reqs| - 1].now <= t
    ensures var t0 := FirstSeen(reqs, a);
            || Requests(reqs, a) <= Limit(c)
            || Requests(reqs, a) * SECOND <= c.rate * (t - t0)
    ensures a in After(c, m, reqs) ==> 1 <= After(c, m, reqs)[a].count <= Limit(c)
  {
    assert reqs != [];
    hide *;
    HistoryTracked(c, m, reqs, a);
    TrackedBound(c, After(c, m, reqs), a, Requests(reqs, a), FirstSeen(reqs, a), reqs[|reqs| - 1].now, t);
  }

  // ----- detection inside the first window -----

  /** During its first window an address is counted exactly. */
  lemma {:induction false} FirstWindow(c: Config, m: Windows, reqs: seq<Request>, a: Addr)
    requires c.rate >= 1 && c.span >= 1 && a !in m && Ordered(reqs)
    requires forall i :: 0 <= i < |reqs| && reqs[i].addr == a ==> !Triggers(c, m, reqs, i)
    requires Requests(reqs, a) > 0 ==> reqs[|reqs| - 1].now <= FirstSeen(reqs, a) + c.span * SECOND
    ensures Requests(reqs, a) == 0 ==> a !in After(c, m, reqs)
    ensures Requests(reqs, a) > 0 ==>
              && a in After(c, m, reqs)
              && After(c, m, reqs)[a] == Window(FirstSeen(reqs, a), Requests(reqs, a))
  {
    hide Count;
    if reqs != [] {
      var k := |reqs| - 1;
      var before, last := reqs[..k], reqs[k];
      assert forall i :: 0 <= i < k ==> before[..i] == reqs[..i];
      assert forall i :: 0 <= i < k && before[i].addr == a ==> Triggers(c, m, before, i) == Triggers(c, m, reqs, i);
      FirstWindow(c, m, before, a);
      assert last.addr == a ==> !Triggers(c, m, reqs, k);
      if Requests(before, a) > 0 || last.addr == a {
        WindowStep(c, After(c, m, before), last.addr, last.now, a);
      } else {
        OthersOnly(c, After(c, m, before), last.addr, last.now, a);
      }
    }
  }

  lemma WindowStep(c: Config, m: Windows, addr: Addr, now: Time, a: Addr)
    requires c.rate >= 1 && c.span >= 1 && (addr == a || a in m)
    requires a in m ==> now <= m[a].start + c.span * SECOND
    requires addr == a ==> !Count(c, m, addr, now).1
    ensures var m' := Count(c, m, addr, now).0;
            && a in m'
            && m'[a] == if addr != a then m[a] else if a in m then m[a].(count := m[a].count + 1) else Window(now, 1)
  {
  }

  /** A burst is caught at once: within the first window the request triggers exactly if W * R
      requests were accepted before it. */
  lemma BurstTriggers(c: Config, m: Windows, reqs: seq<Request>, i: nat)
    requires c.rate >= 1 && c.span >= 1 && i < |reqs| && reqs[i].addr !in m && Ordered(reqs)
    requires forall j :: 0 <= j < i && reqs[j].addr == reqs[i].addr ==> !Triggers(c, m, reqs, j)
    requires var n := Requests(reqs[..i], reqs[i].addr);
             n > 0 && reqs[i].now <= FirstSeen(reqs[..i], reqs[i].addr) + c.span * SECOND
    ensures Triggers(c, m, reqs, i) <==> Requests(reqs[..i], reqs[i].addr) >= Limit(c)
  {
    var before, a := reqs[..i], reqs[i].addr;
    assert forall j :: 0 <= j < i ==> before[..j] == reqs[..j];
    assert forall j :: 0 <= j < i && before[j].addr == a ==> Triggers(c, m, before, j) == Triggers(c, m, reqs, j);
    assert before != [] && before[i - 1].now <= reqs[i].now;
    FirstWindow(c, m, before, a);
  }

  /** The next address in order (cyclically) is forgotten exactly if its window is two windows old, and
      nobody else is. */
  lemma StaleForgotten(c: Config, m: Windows, addr: Addr, now: Time)
    requires m != map[]
    ensures var n, r := Neighbour(m.Keys, addr), Evict(c, m, addr, now);
            && (n in r <==> now < m[n].start + 2 * c.span * SECOND)
            && (forall k :: k in m && k != n ==> k in r && r[k] == m[k])
            && forall k :: k in r ==> k in m && r[k] == m[k]
  {
  }

  // ----- no trigger without cause -----

  /** The stored count is the number `n` of requests since the window was started afresh at `t0`, less
      what the slides took off: `rate` for every second the window moved. */
  ghost predicate Exact(c: Config, w: Window, n: nat, t0: Time) {
    t0 <= w.start && (n - w.count) * SECOND == c.rate * (w.start - t0)
  }

  /** More than the window's allowance, at more than the rate (up to a second). */
  ghost predicate TooMany(c: Config, n: nat, t0: Time, now: Time) {
    n > Limit(c) && n * SECOND > c.rate * (now - t0 - SECOND)
  }

  /** A slide leaves the window's end within a second of the clock. */
  lemma SlideEnds(w: Window, end: Time, now: Time)
    requires end + SECOND < now
    ensures var secs := (now - end) / SECOND; secs >= 1 && now <= end + secs * SECOND + SECOND
  {
  }

  lemma Exceeds(c: Config, count: int, n: nat, start: Time, t0: Time, now: Time)
    requires c.rate >= 0 && t0 <= start && (n - count) * SECOND == c.rate * (start - t0)
    requires Limit(c) < count && now <= start + c.span * SECOND + SECOND
    ensures TooMany(c, n, t0, now)
  {
    LimitInTicks(c);
    Distribute(c.rate, start - t0, c.span * SECOND);
    Monotone(c.rate, now - t0 - SECOND, start - t0 + c.span * SECOND);
    Monotone(c.rate, 0, start - t0);
  }

  lemma TouchExact(c: Config, w: Window, n: nat, t0: Time, now: Time)
    requires c.rate >= 0 && Exact(c, w, n, t0)
    ensures var (w', triggered) := Touch(c, w, now);
            && (Exact(c, w', n + 1, t0) || (w' == Window(now, 1) && !triggered))
            && (triggered ==> TooMany(c, n + 1, t0, now))
  {
    var end := w.start + c.span * SECOND;
    if end + c.span * SECOND < now {
    } else if end + SECOND < now {
      var secs := (now - end) / SECOND;
      SlideEnds(w, end, now);
      TicksOff(c, secs);
      Distribute(c.rate, w.start - t0, secs * SECOND);
      var count := w.count - secs * c.rate;
      if count > 0 && Limit(c) < count + 1 {
        Exceeds(c, count + 1, n + 1, w.start + secs * SECOND, t0, now);
      }
    } else if Limit(c) < w.count + 1 {
      Exceeds(c, w.count + 1, n + 1, w.start, t0, now);
    }
  }

  /** Request `r` started the stored window of `a` afresh. */
  ghost predicate Started(c: Config, m: Windows, reqs: seq<Request>, a: Addr, r: nat) {
    && r < |reqs| && reqs[r].addr == a && a in After(c, m, reqs)
    && Exact(c, After(c, m, reqs)[a], Requests(reqs[r..], a), reqs[r].now)
  }

  /** What one request leaves of the window of an address. */
  lemma CountLeaves(c: Config, m: Windows, addr: Addr, now: Time, a: Addr)
    ensures var m' := Count(c, m, addr, now).0;
            a in m' ==> m'[a] == if a != addr then (if a in m then m[a] else m'[a])
                                 else if a in m then Touch(c, m[a], now).0 else Window(now, 1)
    ensures a != addr && a !in m ==> a !in Count(c, m, addr, now).0
    ensures Count(c, m, addr, now).1 <==> addr in m && Touch(c, m[addr], now).1
  {
  }

  lemma OneMoreRequest(reqs: seq<Request>, a: Addr, r: nat)
    requires r < |reqs|
    ensures Requests(reqs[r..], a) ==
            Requests(reqs[..|reqs| - 1][r..], a) + if reqs[|reqs| - 1].addr == a then 1 else 0
  {
    assert reqs[r..][..|reqs[r..]| - 1] == reqs[..|reqs| - 1][r..];
  }

  /** Every stored window was started afresh by some request of its address, and counts from there. */
  lemma {:induction false} AllStarted(c: Config, m: Windows, reqs: seq<Request>, a: Addr)
    requires c.rate >= 0 && a !in m
    ensures a in After(c, m, reqs) ==> exists r: nat :: Started(c, m, reqs, a, r)
  {
    if reqs != [] {
      var k := |reqs| - 1;
      var init, last := reqs[..k], reqs[k];
      var before, after := After(c, m, init), After(c, m, reqs);
      AllStarted(c, m, init, a);
      CountLeaves(c, before, last.addr, last.now, a);
      hide After;
      hide Count;
      if a in after {
        if a in before {
          var r: nat :| Started(c, m, init, a, r);
          StartedLonger(c, m, reqs, a, r, before, after);
        } else {
          FreshStart(c, m, reqs, a, after);
        }
      }
    }
  }

  lemma FreshStart(c: Config, m: Windows, reqs: seq<Request>, a: Addr, after: Windows)
    requires reqs != [] && after == After(c, m, reqs) && a in after
    requires var last := reqs[|reqs| - 1]; last.addr == a && after[a] == Window(last.now, 1)
    ensures Started(c, m, reqs, a, |reqs| - 1)
  {
    hide After;
    var k := |reqs| - 1;
    OneMoreRequest(reqs, a, k);
    assert reqs[..k][k..] == [];
    assert c.rate * 0 == 0;
  }

  lemma StartedLonger(c: Config, m: Windows, reqs: seq<Request>, a: Addr, r: nat, before: Windows, after: Windows)
    requires c.rate >= 0 && reqs != [] && before == After(c, m, reqs[..|reqs| - 1]) && after == After(c, m, reqs)
    requires a in before && a in after && Started(c, m, reqs[..|reqs| - 1], a, r)
    requires var last := reqs[|reqs| - 1];
             after[a] == if a != last.addr then before[a] else Touch(c, before[a], last.now).0
    ensures exists r': nat :: Started(c, m, reqs, a, r')
  {
    hide After;
    var k := |reqs| - 1;
    var last := reqs[k];
    OneMoreRequest(reqs, a, r);
    var n := Requests(reqs[..k][r..], a);
    hide Requests;
    if a == last.addr {
      TouchExact(c, before[a], n, reqs[r].now, last.now);
      hide Touch;
      if Exact(c, after[a], n + 1, reqs[r].now) {
        assert Started(c, m, reqs, a, r);
      } else {
        FreshStart(c, m, reqs, a, after);
      }
    } else {
      assert Started(c, m, reqs, a, r);
    }
  }

  /** No false alarm: in every history, when a request triggers, its address has made, since some earlier
      request of its own, more requests than the window allows, at more than the rate. */
  lemma TriggersOnlyWhen(c: Config, m: Windows, reqs: seq<Request>, i: nat)
    requires c.rate >= 0 && i < |reqs| && reqs[i].addr !in m && Triggers(c, m, reqs, i)
    ensures exists r: nat :: r <= i && reqs[r].addr == reqs[i].addr &&
              TooMany(c, Requests(reqs[r..i + 1], reqs[i].addr), reqs[r].now, reqs[i].now)
  {
    var a, init := reqs[i].addr, reqs[..i];
    var before := After(c, m, init);
    AllStarted(c, m, init, a);
    CountLeaves(c, before, a, reqs[i].now, a);
    hide After;
    hide Count;
    var r: nat :| Started(c, m, init, a, r);
    TouchExact(c, before[a], Requests(init[r..], a), reqs[r].now, reqs[i].now);
    hide Touch;
    OneMoreRequest(reqs[..i + 1], a, r);
    assert reqs[..i + 1][..i] == init && reqs[..i + 1][r..] == reqs[r..i + 1];
    hide Requests;
    hide TooMany;
  }
}
