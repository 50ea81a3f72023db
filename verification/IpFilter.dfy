/** The IP filter: longest-prefix rules in a radix tree, request windows, and timed bans that are
    /32 deny entries in the same tree. Times are passed in, one per clock reading. */
module IpFilter {
  import B = Bits
  import opened Options
  import opened Keys
  import opened RadixNodes
  import RT = RadixTree
  import opened RateWindow

  // ----- addresses as keys -----

  const ADDRESS_BITS := 32
  const ADDRESSES := 0x1_0000_0000

  /** The `n` low bits of an address, the most significant first. */
  function BitsOf(addr: nat, n: nat): (k: Key)
    ensures |k| == n
  {
    if n == 0 then [] else BitsOf(addr / 2, n - 1) + [addr % 2]
  }

  function HostKey(addr: Addr): (k: Key)
    ensures |k| == ADDRESS_BITS
  {
    BitsOf(addr, ADDRESS_BITS)
  }

  lemma {:induction false} BitsInjective(a: nat, b: nat, n: nat)
    requires a < B.Pow2(n) && b < B.Pow2(n) && BitsOf(a, n) == BitsOf(b, n)
    ensures a == b
  {
    if n > 0 {
      var x, y := BitsOf(a / 2, n - 1), BitsOf(b / 2, n - 1);
      assert (x + [a % 2])[..n - 1] == x && (y + [b % 2])[..n - 1] == y;
      assert (x + [a % 2])[n - 1] == a % 2 && (y + [b % 2])[n - 1] == b % 2;
      BitsInjective(a / 2, b / 2, n - 1);
    }
  }

  lemma HostKeyInjective(a: Addr, b: Addr)
    requires a < ADDRESSES && b < ADDRESSES && HostKey(a) == HostKey(b)
    ensures a == b
  {
    AddressBits();
    hide B.Pow2;
    hide BitsOf;
    BitsInjective(a, b, ADDRESS_BITS);
  }

  // ----- the rule table and its lookup -----

  type Table = map<Key, bool>   // prefix -> allow

  /** The longest prefix of `key`, of length at most `n`, in the table. */
  function Match(table: Table, key: Key, n: nat): (r: Option<Key>)
    requires n <= |key|
    ensures r.Some? ==> r.value in table && r.value <= key && |r.value| <= n
    ensures forall k :: k in table && k <= key && |k| <= n ==> r.Some? && |k| <= |r.value|
  {
    assert forall k :: k <= key && |k| == n ==> k == key[..n];
    if key[..n] in table then Some(key[..n])
    else if n == 0 then None
    else Match(table, key, n - 1)
  }

  function Allowed(table: Table, defaultAllow: bool, addr: Addr): bool {
    match Match(table, HostKey(addr), ADDRESS_BITS)
    case None => defaultAllow
    case Some(k) => table[k]
  }

  // ----- prefixes of addresses -----

  lemma DivUnique(a: nat, b: nat, q: nat, r: nat)
    requires 0 <= r < b && a == q * b + r
    ensures a / b == q
  {
    var d := a / b;
    assert a == d * b + a % b && 0 <= a % b < b;
    if d < q {
      MulMono(b, d + 1, q);
    } else if q < d {
      MulMono(b, q + 1, d);
    }
  }

  lemma MulMono(b: nat, c: nat, d: nat)
    requires c <= d
    ensures b * c <= b * d
  {
  }

  lemma DivTwice(a: nat, c: nat)
    requires c > 0
    ensures a / 2 / c == a / (2 * c)
  {
    var h := a / 2;
    var q, r := h / c, h % c;
    assert h == q * c + r;
    assert a == q * (2 * c) + (2 * r + a % 2);
    DivUnique(a, 2 * c, q, 2 * r + a % 2);
  }

  /** The first `len` symbols of an n-bit number are the bits of its high part. */
  lemma {:induction false} HighBits(addr: nat, n: nat, len: nat)
    requires len <= n
    ensures BitsOf(addr, n)[..len] == BitsOf(addr / B.Pow2(n - len), len)
  {
    if len < n {
      HighBits(addr / 2, n - 1, len);
      assert BitsOf(addr, n)[..len] == BitsOf(addr / 2, n - 1)[..len];
      DivTwice(addr, B.Pow2(n - 1 - len));
    }
  }

  lemma {:induction false} HighPart(addr: nat, n: nat, len: nat)
    requires len <= n && addr < B.Pow2(n)
    ensures addr / B.Pow2(n - len) < B.Pow2(len)
  {
    if len < n {
      HighPart(addr / 2, n - 1, len);
      DivTwice(addr, B.Pow2(n - 1 - len));
    }
  }

  lemma SamePrefix(a: nat, b: nat, n: nat, len: nat)
    requires len <= n && a < B.Pow2(n) && b < B.Pow2(n)
    ensures BitsOf(a, n)[..len] == BitsOf(b, n)[..len] <==> a / B.Pow2(n - len) == b / B.Pow2(n - len)
  {
    hide B.Pow2;
    hide BitsOf;
    HighBits(a, n, len);
    HighBits(b, n, len);
    HighPart(a, n, len);
    HighPart(b, n, len);
    var x, y := a / B.Pow2(n - len), b / B.Pow2(n - len);
    if BitsOf(x, len) == BitsOf(y, len) { BitsInjective(x, y, len); }
  }

  lemma AddressBits()
    ensures B.Pow2(ADDRESS_BITS) == ADDRESSES
  {
    assert B.Pow2(8) == 256;
    assert B.Pow2(16) == 256 * B.Pow2(8);
    assert B.Pow2(24) == 256 * B.Pow2(16);
    assert B.Pow2(32) == 256 * B.Pow2(24);
  }

  /** The network `net`/`len` contains the address: they agree in the `len` high bits. */
  predicate Contains(net: Addr, len: nat, addr: Addr)
    requires len <= ADDRESS_BITS
  {
    addr / B.Pow2(ADDRESS_BITS - len) == net / B.Pow2(ADDRESS_BITS - len)
  }

  /** Keys share their first `len` symbols exactly if the addresses agree in their `len` high bits. */
  lemma PrefixIsNetwork(net: Addr, len: nat, addr: Addr)
    requires net < ADDRESSES && addr < ADDRESSES && len <= ADDRESS_BITS
    ensures HostKey(net)[..len] == HostKey(addr)[..len] <==> Contains(net, len, addr)
  {
    AddressBits();
    hide B.Pow2;
    hide BitsOf;
    SamePrefix(net, addr, ADDRESS_BITS, len);
  }

  /** The table has a rule for the network. */
  predicate Rule(table: Table, net: Addr, len: nat) {
    net < ADDRESSES && len <= ADDRESS_BITS && HostKey(net)[..len] in table
  }

  /** Lookup on addresses: the longest rule whose network contains the address decides. */
  lemma LongestRuleDecides(table: Table, defaultAllow: bool, addr: Addr, net: Addr, len: nat)
    requires addr < ADDRESSES && Rule(table, net, len) && Contains(net, len, addr)
    requires forall net': nat, len': nat :: Rule(table, net', len') && Contains(net', len', addr) ==> len' <= len
    ensures Allowed(table, defaultAllow, addr) == table[HostKey(net)[..len]]
  {
    hide HostKey;
    hide Contains;
    PrefixIsNetwork(net, len, addr);
    var key := HostKey(addr);
    assert key[..len] in table && key[..len] <= key;
    var k := Match(table, key, ADDRESS_BITS).value;
    hide Match;
    assert k == key[..|k|] && Rule(table, addr, |k|);
    PrefixIsNetwork(addr, |k|, addr);
  }

  /** With no rule for a network that contains the address, the default decides. */
  lemma DefaultDecides(table: Table, defaultAllow: bool, addr: Addr)
    requires addr < ADDRESSES && forall net: nat, len: nat :: Rule(table, net, len) ==> !Contains(net, len, addr)
    ensures Allowed(table, defaultAllow, addr) == defaultAllow
  {
    hide HostKey;
    hide Contains;
    var key := HostKey(addr);
    var found := Match(table, key, ADDRESS_BITS);
    hide Match;
    if found.Some? {
      NoSuchRule(table, addr, found.value);
    }
  }

  lemma NoSuchRule(table: Table, addr: Addr, k: Key)
    requires addr < ADDRESSES && (forall net: nat, len: nat :: Rule(table, net, len) ==> !Contains(net, len, addr))
    ensures !(k in table && k <= HostKey(addr))
  {
    hide HostKey;
    assert k <= HostKey(addr) ==> k == HostKey(addr)[..|k|] && |k| <= ADDRESS_BITS;
    assert k in table && k <= HostKey(addr) ==> Rule(table, addr, |k|);
    SelfContained(addr, |k|);
  }

  lemma SelfContained(addr: Addr, len: nat)
    ensures len <= ADDRESS_BITS ==> Contains(addr, len, addr)
  {
  }

  // ----- the filter as a state machine -----

  datatype Policy = Policy(config: Config, banTicks: int, defaultAllow: bool) {
    predicate BanEnabled() { config.rate != 0 }
  }

  datatype Filter = Filter(table: Table, banned: seq<(Time, Addr)>, windows: Windows)

  /** Lifts the bans at the front of the queue whose deadline has come. */
  function Unban(f: Filter, now: Time): Filter
    decreases |f.banned|
  {
    if f.banned == [] || now < f.banned[0].0 then f
    else Unban(f.(table := f.table - {HostKey(f.banned[0].1)}, banned := f.banned[1..]), now)
  }

  /** Adds a /32 deny entry (unless there is an entry already) and queues its removal. */
  function Ban(p: Policy, f: Filter, addr: Addr, now: Time): Filter {
    var key := HostKey(addr);
    f.(table := if key in f.table then f.table else f.table[key := false],
       banned := if p.banTicks == 0 then f.banned else f.banned + [(now + p.banTicks, addr)])
  }

  datatype Clock = Clock(unban: Time, count: Time, ban: Time)

  /** One request: the filter afterwards and whether the request is accepted. */
  ghost function Process(p: Policy, f: Filter, addr: Addr, at: Clock): (Filter, bool) {
    var f1 := if p.BanEnabled() && p.banTicks != 0 then Unban(f, at.unban) else f;
    if !Allowed(f1.table, p.defaultAllow, addr) then (f1, false)
    else if !p.BanEnabled() then (f1, true)
    else
      var (windows, triggered) := Count(p.config, f1.windows, addr, at.count);
      var f2 := f1.(windows := windows);
      if triggered then (Ban(p, f2, addr, at.ban), false) else (f2, true)
  }

  // ----- bans come and go without a trace -----

  ghost predicate Queued(banned: seq<(Time, Addr)>, addr: Addr) {
    exists i :: 0 <= i < |banned| && banned[i].1 == addr
  }

  /** The /32 deny entries of the banned addresses. */
  ghost function Denies(banned: seq<(Time, Addr)>): Table {
    if banned == [] then map[] else Denies(banned[1..])[HostKey(banned[0].1) := false]
  }

  lemma {:induction false} InDenies(banned: seq<(Time, Addr)>, k: Key)
    ensures k in Denies(banned) <==> exists i :: 0 <= i < |banned| && HostKey(banned[i].1) == k
    ensures k in Denies(banned) ==> !Denies(banned)[k]
  {
    hide HostKey;
    if banned != [] {
      InDenies(banned[1..], k);
      assert forall i :: 1 <= i < |banned| ==> banned[i] == banned[1..][i - 1];
      assert forall i :: 0 <= i < |banned| - 1 ==> banned[1..][i] == banned[i + 1];
    }
  }

  /** Addresses are queued once each, in nondecreasing deadline order. */
  ghost predicate QueueOk(banned: seq<(Time, Addr)>) {
    && (forall i :: 0 <= i < |banned| ==> banned[i].1 < ADDRESSES)
    && (forall i, j :: 0 <= i < j < |banned| ==> banned[i].0 <= banned[j].0 && banned[i].1 != banned[j].1)
  }

  /** The table is the rules plus a /32 deny entry for exactly the banned addresses. */
  ghost predicate Clean(f: Filter, rules: Table) {
    QueueOk(f.banned) && rules.Keys !! Denies(f.banned).Keys && f.table == rules + Denies(f.banned)
  }

  /** An address that is not queued has no deny entry. */
  lemma NotDenied(banned: seq<(Time, Addr)>, addr: Addr)
    requires addr < ADDRESSES && (forall i :: 0 <= i < |banned| ==> banned[i].1 < ADDRESSES && banned[i].1 != addr)
    ensures HostKey(addr) !in Denies(banned)
  {
    hide HostKey;
    hide Denies;
    InDenies(banned, HostKey(addr));
    forall i | 0 <= i < |banned| ensures HostKey(banned[i].1) != HostKey(addr) {
      if HostKey(banned[i].1) == HostKey(addr) { HostKeyInjective(banned[i].1, addr); }
    }
  }

  lemma WithoutEntry(rules: Table, denies: Table, k: Key)
    requires k !in rules && k !in denies
    ensures (rules + denies[k := false]) - {k} == rules + denies
  {
  }

  lemma PopKeeps(f: Filter, rules: Table)
    requires Clean(f, rules) && f.banned != []
    ensures Clean(f.(table := f.table - {HostKey(f.banned[0].1)}, banned := f.banned[1..]), rules)
  {
    hide HostKey;
    var rest, key := f.banned[1..], HostKey(f.banned[0].1);
    NotDenied(rest, f.banned[0].1);
    assert Denies(f.banned) == Denies(rest)[key := false];
    assert key in Denies(f.banned);
    WithoutEntry(rules, Denies(rest), key);
  }

  /** Lifting keeps the invariant and drops exactly the bans whose deadline has come. */
  lemma {:induction false} UnbanKeeps(f: Filter, rules: Table, now: Time)
    requires Clean(f, rules)
    ensures Clean(Unban(f, now), rules) && Unban(f, now).windows == f.windows
    ensures forall b :: b in Unban(f, now).banned <==> b in f.banned && now < b.0
    decreases |f.banned|
  {
    hide HostKey;
    hide Denies;
    if f.banned != [] && f.banned[0].0 <= now {
      PopKeeps(f, rules);
      UnbanKeeps(f.(table := f.table - {HostKey(f.banned[0].1)}, banned := f.banned[1..]), rules, now);
      assert f.banned == [f.banned[0]] + f.banned[1..];
    } else {
      forall b | b in f.banned ensures now < b.0 {
        var i :| 0 <= i < |f.banned| && f.banned[i] == b;
        if i > 0 { assert f.banned[0].0 <= f.banned[i].0; }
      }
    }
  }

  /** A queued address is denied by its own entry, whatever the rules say. */
  lemma BannedIsDenied(f: Filter, rules: Table, defaultAllow: bool, addr: Addr)
    requires Clean(f, rules) && Queued(f.banned, addr)
    ensures !Allowed(f.table, defaultAllow, addr)
  {
    hide HostKey;
    var key := HostKey(addr);
    assert key[..ADDRESS_BITS] == key;
    InDenies(f.banned, key);
  }

  lemma {:induction false} DeniesPush(banned: seq<(Time, Addr)>, t: Time, addr: Addr)
    ensures Denies(banned + [(t, addr)]) == Denies(banned)[HostKey(addr) := false]
  {
    hide HostKey;
    var all := banned + [(t, addr)];
    if banned == [] {
      assert all[1..] == [];
    } else {
      DeniesPush(banned[1..], t, addr);
      assert all[1..] == banned[1..] + [(t, addr)] && all[0] == banned[0];
    }
  }

  lemma BanKeeps(p: Policy, f: Filter, rules: Table, addr: Addr, now: Time)
    requires p.banTicks != 0 && Clean(f, rules) && addr < ADDRESSES
    requires HostKey(addr) !in rules && !Queued(f.banned, addr)
    requires forall i :: 0 <= i < |f.banned| ==> f.banned[i].0 <= now + p.banTicks
    ensures Clean(Ban(p, f, addr, now), rules)
  {
    hide HostKey;
    DeniesPush(f.banned, now + p.banTicks, addr);
    NotDenied(f.banned, addr);
    hide Denies;
    var key := HostKey(addr);
    assert rules + Denies(f.banned)[key := false] == (rules + Denies(f.banned))[key := false];
  }

  // ----- whole runs -----

  datatype Request = Request(addr: Addr, at: Clock)

  /** The clock is monotone, within a request and from one to the next. */
  ghost predicate ClockMonotone(reqs: seq<Request>) {
    && (forall i :: 0 <= i < |reqs| ==> reqs[i].at.unban <= reqs[i].at.count <= reqs[i].at.ban)
    && (forall i, j :: 0 <= i < j < |reqs| ==> reqs[i].at.ban <= reqs[j].at.unban)
  }

  ghost function Run(p: Policy, f: Filter, reqs: seq<Request>): Filter {
    if reqs == [] then f
    else
      var last := reqs[|reqs| - 1];
      Process(p, Run(p, f, reqs[..|reqs| - 1]), last.addr, last.at).0
  }

  /** Whether request i of a run is accepted. */
  ghost predicate Accepted(p: Policy, f: Filter, reqs: seq<Request>, i: nat)
    requires i < |reqs|
  {
    Process(p, Run(p, f, reqs[..i]), reqs[i].addr, reqs[i].at).1
  }

  /** No request comes from an address that the rules list by itself. */
  ghost predicate NoHostRules(rules: Table, reqs: seq<Request>) {
    forall i :: 0 <= i < |reqs| ==> reqs[i].addr < ADDRESSES && HostKey(reqs[i].addr) !in rules
  }

  ghost predicate DueBy(banned: seq<(Time, Addr)>, t: Time) {
    forall b :: b in banned ==> b.0 <= t
  }

  lemma BanDue(p: Policy, f: Filter, addr: Addr, now: Time)
    requires p.banTicks != 0 && DueBy(f.banned, now + p.banTicks)
    ensures DueBy(Ban(p, f, addr, now).banned, now + p.banTicks)
  {
    hide HostKey;
  }

  lemma ProcessKeeps(p: Policy, f: Filter, rules: Table, addr: Addr, at: Clock, t: Time)
    requires p.BanEnabled() && p.banTicks != 0 && Clean(f, rules) && addr < ADDRESSES && HostKey(addr) !in rules
    requires DueBy(f.banned, t + p.banTicks) && t <= at.unban <= at.count <= at.ban
    ensures Clean(Process(p, f, addr, at).0, rules)
    ensures DueBy(Process(p, f, addr, at).0.banned, at.ban + p.banTicks)
  {
    hide HostKey;
    hide Count;
    UnbanKeeps(f, rules, at.unban);
    var f1 := Unban(f, at.unban);
    hide Unban;
    if Queued(f1.banned, addr) {
      BannedIsDenied(f1, rules, p.defaultAllow, addr);
    } else {
      var f2 := f1.(windows := Count(p.config, f1.windows, addr, at.count).0);
      assert Clean(f2, rules);
      hide Denies;
      BanKeeps(p, f2, rules, addr, at.ban);
      BanDue(p, f2, addr, at.ban);
      hide Ban;
      hide Clean;
    }
  }

  /** Every run keeps the table equal to the rules plus one /32 deny per banned address. */
  lemma {:induction false} RunKeepsClean(p: Policy, rules: Table, reqs: seq<Request>)
    requires p.BanEnabled() && p.banTicks != 0 && ClockMonotone(reqs) && NoHostRules(rules, reqs)
    ensures var f := Run(p, Filter(rules, [], map[]), reqs);
            && Clean(f, rules)
            && DueBy(f.banned, (if reqs == [] then 0 else reqs[|reqs| - 1].at.ban) + p.banTicks)
  {
    if reqs == [] {
      assert rules + map[] == rules;
    } else {
      var k := |reqs| - 1;
      var before, last := reqs[..k], reqs[k];
      RunKeepsClean(p, rules, before);
      var f := Run(p, Filter(rules, [], map[]), before);
      ProcessKeeps(p, f, rules, last.addr, last.at, if k == 0 then last.at.unban else before[k - 1].at.ban);
    }
  }

  // ----- one address, whatever rules there are for others -----

  /** The address has a /32 entry exactly while it is queued, once, and that entry denies it. */
  ghost predicate Sole(f: Filter, a: Addr) {
    && (forall b :: b in f.banned ==> b.1 < ADDRESSES)
    && (forall i, j :: 0 <= i < j < |f.banned| ==> f.banned[i].1 != a || f.banned[j].1 != a)
    && (HostKey(a) in f.table <==> Queued(f.banned, a))
    && (HostKey(a) in f.table ==> !f.table[HostKey(a)])
  }

  lemma PopSole(f: Filter, a: Addr)
    requires Sole(f, a) && a < ADDRESSES && f.banned != []
    ensures Sole(f.(table := f.table - {HostKey(f.banned[0].1)}, banned := f.banned[1..]), a)
  {
    hide HostKey;
    var first, rest := f.banned[0], f.banned[1..];
    assert first in f.banned;
    assert forall i :: 0 <= i < |rest| ==> rest[i] == f.banned[i + 1];
    assert forall i :: 1 <= i < |f.banned| ==> f.banned[i] == rest[i - 1];
    if HostKey(first.1) == HostKey(a) { HostKeyInjective(first.1, a); }
  }

  lemma {:induction false} UnbanSole(f: Filter, a: Addr, now: Time)
    requires Sole(f, a) && a < ADDRESSES
    ensures Sole(Unban(f, now), a)
    decreases |f.banned|
  {
    hide HostKey;
    hide Sole;
    if f.banned != [] && f.banned[0].0 <= now {
      PopSole(f, a);
      UnbanSole(f.(table := f.table - {HostKey(f.banned[0].1)}, banned := f.banned[1..]), a, now);
    }
  }

  /** No ban is lifted before its deadline. */
  lemma {:induction false} UnbanSpares(f: Filter, now: Time, b: (Time, Addr))
    requires b in f.banned && now < b.0
    ensures b in Unban(f, now).banned
    decreases |f.banned|
  {
    hide HostKey;
    if f.banned[0].0 <= now {
      assert f.banned == [f.banned[0]] + f.banned[1..];
      UnbanSpares(f.(table := f.table - {HostKey(f.banned[0].1)}, banned := f.banned[1..]), now, b);
    }
  }

  lemma BanSole(p: Policy, f: Filter, a: Addr, addr: Addr, now: Time)
    requires p.banTicks != 0 && Sole(f, a) && a < ADDRESSES && addr < ADDRESSES && (addr == a ==> !Queued(f.banned, a))
    ensures Sole(Ban(p, f, addr, now), a)
  {
    hide HostKey;
    var f' := Ban(p, f, addr, now);
    assert forall i :: 0 <= i < |f.banned| ==> f'.banned[i] == f.banned[i];
    assert f'.banned[|f.banned|] == (now + p.banTicks, addr);
    if HostKey(addr) == HostKey(a) { HostKeyInjective(addr, a); }
  }

  lemma SoleDenied(f: Filter, a: Addr, defaultAllow: bool)
    requires Sole(f, a) && Queued(f.banned, a)
    ensures !Allowed(f.table, defaultAllow, a)
  {
    hide HostKey;
    assert HostKey(a)[..ADDRESS_BITS] == HostKey(a);
  }

  lemma ProcessSole(p: Policy, f: Filter, a: Addr, addr: Addr, at: Clock)
    requires p.BanEnabled() && p.banTicks != 0 && Sole(f, a) && a < ADDRESSES && addr < ADDRESSES
    ensures Sole(Process(p, f, addr, at).0, a)
  {
    hide HostKey;
    hide Count;
    UnbanSole(f, a, at.unban);
    var f1 := Unban(f, at.unban);
    hide Unban;
    hide Allowed;
    if addr == a && Queued(f1.banned, a) {
      SoleDenied(f1, a, p.defaultAllow);
    } else {
      var f2 := f1.(windows := Count(p.config, f1.windows, addr, at.count).0);
      assert Sole(f2, a);
      BanSole(p, f2, a, addr, at.ban);
      hide Ban;
      hide Sole;
    }
  }

  /** The addresses of the requests have 32 bits. */
  predicate Addresses(reqs: seq<Request>) {
    forall i :: 0 <= i < |reqs| ==> reqs[i].addr < ADDRESSES
  }

  lemma {:induction false} RunSole(p: Policy, rules: Table, reqs: seq<Request>, a: Addr)
    requires p.BanEnabled() && p.banTicks != 0 && Addresses(reqs) && a < ADDRESSES && HostKey(a) !in rules
    ensures Sole(Run(p, Filter(rules, [], map[]), reqs), a)
  {
    hide HostKey;
    hide Process;
    if reqs != [] {
      var k := |reqs| - 1;
      RunSole(p, rules, reqs[..k], a);
      ProcessSole(p, Run(p, Filter(rules, [], map[]), reqs[..k]), a, reqs[k].addr, reqs[k].at);
      hide Sole;
    }
  }

  lemma ProcessSpares(p: Policy, f: Filter, addr: Addr, at: Clock, b: (Time, Addr))
    requires b in f.banned && at.unban < b.0
    ensures b in Process(p, f, addr, at).0.banned
  {
    hide HostKey;
    hide Count;
    UnbanSpares(f, at.unban, b);
    hide Unban;
    hide Allowed;
  }

  /** A ban placed before request i is still in force at request j if its deadline has not come. */
  lemma {:induction false} BanStays(p: Policy, rules: Table, reqs: seq<Request>, i: nat, j: nat, b: (Time, Addr))
    requires ClockMonotone(reqs)
    requires i <= j < |reqs| && b in Run(p, Filter(rules, [], map[]), reqs[..i]).banned && reqs[j].at.unban < b.0
    ensures b in Run(p, Filter(rules, [], map[]), reqs[..j]).banned
    decreases j - i
  {
    hide Process;
    if i < j {
      var f := Run(p, Filter(rules, [], map[]), reqs[..i]);
      assert reqs[i].at.unban <= reqs[j].at.unban;
      ProcessSpares(p, f, reqs[i].addr, reqs[i].at, b);
      assert reqs[..i + 1][..i] == reqs[..i];
      BanStays(p, rules, reqs, i + 1, j, b);
    }
  }

  /** In every run a banned address is refused until its deadline, unless the rules list the address
      by itself. Rules for other addresses do not matter. */
  lemma RefusedUntilDeadline(p: Policy, rules: Table, reqs: seq<Request>, i: nat, j: nat, deadline: Time)
    requires p.BanEnabled() && p.banTicks != 0 && ClockMonotone(reqs) && Addresses(reqs)
    requires i <= j < |reqs| && HostKey(reqs[j].addr) !in rules
    requires (deadline, reqs[j].addr) in Run(p, Filter(rules, [], map[]), reqs[..i]).banned &&
               reqs[j].at.unban < deadline
    ensures !Accepted(p, Filter(rules, [], map[]), reqs, j)
  {
    hide HostKey;
    hide Count;
    hide Run;
    var a, b := reqs[j].addr, (deadline, reqs[j].addr);
    var f := Run(p, Filter(rules, [], map[]), reqs[..j]);
    BanStays(p, rules, reqs, i, j, b);
    RunSole(p, rules, reqs[..j], a);
    UnbanSole(f, a, reqs[j].at.unban);
    UnbanSpares(f, reqs[j].at.unban, b);
    var f1 := Unban(f, reqs[j].at.unban);
    hide Unban;
    var k :| 0 <= k < |f1.banned| && f1.banned[k] == b;
    SoleDenied(f1, a, p.defaultAllow);
    hide Sole;
    hide Allowed;
  }

  /** A request that passes the rules and triggers is refused and banned for the ban time. */
  lemma TriggerBans(p: Policy, f: Filter, addr: Addr, at: Clock)
    requires p.BanEnabled() && p.banTicks != 0
    requires Allowed(Unban(f, at.unban).table, p.defaultAllow, addr)
    requires Count(p.config, Unban(f, at.unban).windows, addr, at.count).1
    ensures !Process(p, f, addr, at).1
    ensures (at.ban + p.banTicks, addr) in Process(p, f, addr, at).0.banned
  {
    hide HostKey;
    hide Count;
    hide Allowed;
    var f' := Process(p, f, addr, at).0;
    assert f'.banned[|f'.banned| - 1] == (at.ban + p.banTicks, addr);
  }

  lemma SomeElement<T>(s: seq<T>)
    ensures s != [] ==> exists x :: x in s
  {
    if s != [] { assert s[0] in s; }
  }

  /** Once every ban is over, the table is the original rules again. */
  lemma RulesRestored(p: Policy, rules: Table, reqs: seq<Request>, t: Time)
    requires p.BanEnabled() && p.banTicks != 0 && ClockMonotone(reqs) && NoHostRules(rules, reqs)
    requires reqs != [] && reqs[|reqs| - 1].at.ban + p.banTicks <= t
    ensures Unban(Run(p, Filter(rules, [], map[]), reqs), t).table == rules
  {
    hide HostKey;
    hide Run;
    RunKeepsClean(p, rules, reqs);
    var f := Run(p, Filter(rules, [], map[]), reqs);
    UnbanKeeps(f, rules, t);
    var f' := Unban(f, t);
    SomeElement(f'.banned);
    assert rules + map[] == rules;
  }

  /** Exactly when a ban works: it denies the address, and lifting it restores the table, if and
      only if the table had no entry for the address itself that says otherwise. An existing /32
      entry is not overwritten by the ban and is deleted when the ban is lifted. */
  lemma BanWorksIff(p: Policy, f: Filter, addr: Addr, now: Time, t: Time)
    requires p.banTicks != 0 && f.banned == [] && now + p.banTicks <= t
    ensures var f' := Ban(p, f, addr, now);
            && (!Allowed(f'.table, p.defaultAllow, addr) <==> HostKey(addr) !in f.table || !f.table[HostKey(addr)])
            && (Unban(f', t).table == f.table <==> HostKey(addr) !in f.table)
  {
    hide HostKey;
    var key, f' := HostKey(addr), Ban(p, f, addr, now);
    assert key[..ADDRESS_BITS] == key;
    assert f'.banned == [(now + p.banTicks, addr)] && f'.banned[1..] == [];
    assert Unban(f', t).table == f'.table - {key};
  }

  // ----- who is accepted -----

  /** A ban of the address is pending at the given time. */
  ghost predicate Pending(banned: seq<(Time, Addr)>, addr: Addr, now: Time) {
    exists b :: b in banned && b.1 == addr && now < b.0
  }

  /** The denies of other addresses do not decide about an address. */
  lemma SameMatch(rules: Table, denies: Table, key: Key, n: nat)
    requires n <= |key|
    requires forall k :: k in denies ==> !(k <= key)
    ensures Match(rules + denies, key, n) == Match(rules, key, n)
  {
  }

  lemma OthersDenied(banned: seq<(Time, Addr)>, addr: Addr)
    requires addr < ADDRESSES && !Queued(banned, addr) && forall i :: 0 <= i < |banned| ==> banned[i].1 < ADDRESSES
    ensures forall k :: k in Denies(banned) ==> !(k <= HostKey(addr))
  {
    hide HostKey;
    hide Denies;
    forall k | k in Denies(banned) ensures !(k <= HostKey(addr)) {
      InDenies(banned, k);
      var i :| 0 <= i < |banned| && HostKey(banned[i].1) == k;
      if HostKey(banned[i].1) == HostKey(addr) { HostKeyInjective(banned[i].1, addr); }
    }
  }

  /** With the table in order, bans concern the banned addresses only: any other is decided by the rules. */
  lemma CleanAllowed(f: Filter, rules: Table, defaultAllow: bool, addr: Addr)
    requires Clean(f, rules) && addr < ADDRESSES
    ensures Allowed(f.table, defaultAllow, addr) <==> Allowed(rules, defaultAllow, addr) && !Queued(f.banned, addr)
  {
    hide HostKey;
    hide Denies;
    if Queued(f.banned, addr) {
      BannedIsDenied(f, rules, defaultAllow, addr);
    } else {
      OthersDenied(f.banned, addr);
      SameMatch(rules, Denies(f.banned), HostKey(addr), ADDRESS_BITS);
      hide Match;
    }
  }

  lemma PendingIsQueued(f: Filter, rules: Table, addr: Addr, now: Time)
    requires Clean(f, rules)
    ensures Queued(Unban(f, now).banned, addr) <==> Pending(f.banned, addr, now)
  {
    hide HostKey;
    hide Denies;
    UnbanKeeps(f, rules, now);
    var after := Unban(f, now).banned;
    hide Unban;
    hide Clean;
    if Queued(after, addr) {
      var i :| 0 <= i < |after| && after[i].1 == addr;
      assert after[i] in after;
    }
    if Pending(f.banned, addr, now) {
      var b :| b in f.banned && b.1 == addr && now < b.0;
      assert b in after;
    }
  }

  /** Exactly which requests a run accepts: those that the rules allow, from addresses with no pending
      ban, that do not trigger one. */
  lemma AcceptedIff(p: Policy, rules: Table, reqs: seq<Request>, i: nat)
    requires p.BanEnabled() && p.banTicks != 0 && ClockMonotone(reqs) && NoHostRules(rules, reqs) && i < |reqs|
    ensures var f, r := Run(p, Filter(rules, [], map[]), reqs[..i]), reqs[i];
            Accepted(p, Filter(rules, [], map[]), reqs, i) <==>
            && Allowed(rules, p.defaultAllow, r.addr)
            && !Pending(f.banned, r.addr, r.at.unban)
            && !Count(p.config, f.windows, r.addr, r.at.count).1
  {
    hide HostKey;
    hide Count;
    hide Run;
    var f, r := Run(p, Filter(rules, [], map[]), reqs[..i]), reqs[i];
    RunKeepsClean(p, rules, reqs[..i]);
    UnbanKeeps(f, rules, r.at.unban);
    PendingIsQueued(f, rules, r.addr, r.at.unban);
    CleanAllowed(Unban(f, r.at.unban), rules, p.defaultAllow, r.addr);
    hide Unban;
    hide Allowed;
    hide Clean;
    hide Pending;
    hide Queued;
  }

  /** With rate 0 the filter only applies its rules: over every run nothing is counted or banned, and a
      request is accepted exactly if the rules allow its address. */
  lemma {:induction false} RulesOnly(p: Policy, f: Filter, reqs: seq<Request>)
    requires !p.BanEnabled()
    ensures Run(p, f, reqs) == f
    ensures forall i :: 0 <= i < |reqs| ==>
              (Accepted(p, f, reqs, i) <==> Allowed(f.table, p.defaultAllow, reqs[i].addr))
  {
    hide Allowed;
    if reqs != [] {
      var k := |reqs| - 1;
      RulesOnly(p, f, reqs[..k]);
      forall i | 0 <= i < |reqs| ensures Accepted(p, f, reqs, i) <==> Allowed(f.table, p.defaultAllow, reqs[i].addr) {
        if i < k {
          assert reqs[..k][..i] == reqs[..i] && reqs[..k][i] == reqs[i];
          assert Accepted(p, f, reqs[..k], i) <==> Allowed(f.table, p.defaultAllow, reqs[i].addr);
        }
      }
    }
  }

  // ----- what a run leaves of the rules -----

  /** The request passes the rules and triggers a ban. */
  ghost predicate Bans(p: Policy, f: Filter, addr: Addr, at: Clock) {
    var f1 := if p.BanEnabled() && p.banTicks != 0 then Unban(f, at.unban) else f;
    p.BanEnabled() && Allowed(f1.table, p.defaultAllow, addr) && Count(p.config, f1.windows, addr, at.count).1
  }

  /** The /32 keys of the addresses banned in a run. */
  ghost function BannedKeys(p: Policy, f: Filter, reqs: seq<Request>): set<Key> {
    if reqs == [] then {}
    else
      var k := |reqs| - 1;
      BannedKeys(p, f, reqs[..k])
      + if Bans(p, Run(p, f, reqs[..k]), reqs[k].addr, reqs[k].at) then {HostKey(reqs[k].addr)} else {}
  }

  ghost predicate QueuedKey(banned: seq<(Time, Addr)>, key: Key) {
    exists i :: 0 <= i < |banned| && HostKey(banned[i].1) == key
  }

  /** Away from the keys of banned addresses the table is the rules; and such a key has an entry only
      while an address of it is queued. */
  ghost predicate Traced(f: Filter, rules: Table, keys: set<Key>) {
    && f.table - keys == rules - keys
    && (forall i :: 0 <= i < |f.banned| ==> HostKey(f.banned[i].1) in keys)
    && (forall k :: k in keys && k in f.table ==> QueuedKey(f.banned, k))
  }

  lemma PopTraced(f: Filter, rules: Table, keys: set<Key>)
    requires Traced(f, rules, keys) && f.banned != []
    ensures Traced(f.(table := f.table - {HostKey(f.banned[0].1)}, banned := f.banned[1..]), rules, keys)
  {
    hide HostKey;
    var key, rest := HostKey(f.banned[0].1), f.banned[1..];
    assert key in keys && f.table - {key} - keys == f.table - keys;
    assert forall i :: 0 <= i < |rest| ==> rest[i] == f.banned[i + 1];
    forall k | k in keys && k in f.table - {key} ensures QueuedKey(rest, k) {
      var i :| 0 <= i < |f.banned| && HostKey(f.banned[i].1) == k;
      assert HostKey(rest[i - 1].1) == k;
    }
  }

  lemma {:induction false} UnbanTraced(f: Filter, rules: Table, keys: set<Key>, now: Time)
    requires Traced(f, rules, keys)
    ensures Traced(Unban(f, now), rules, keys)
    decreases |f.banned|
  {
    hide HostKey;
    hide Traced;
    if f.banned != [] && f.banned[0].0 <= now {
      PopTraced(f, rules, keys);
      UnbanTraced(f.(table := f.table - {HostKey(f.banned[0].1)}, banned := f.banned[1..]), rules, keys, now);
    }
  }

  lemma BanTraced(p: Policy, f: Filter, rules: Table, keys: set<Key>, addr: Addr, now: Time)
    requires p.banTicks != 0 && Traced(f, rules, keys)
    ensures Traced(Ban(p, f, addr, now), rules, keys + {HostKey(addr)})
  {
    hide HostKey;
    var key, f' := HostKey(addr), Ban(p, f, addr, now);
    assert forall i :: 0 <= i < |f.banned| ==> f'.banned[i] == f.banned[i];
    assert HostKey(f'.banned[|f.banned|].1) == key;
    assert f'.table - (keys + {key}) == (f.table - keys) - {key};
    assert rules - (keys + {key}) == (rules - keys) - {key};
    forall k | k in keys + {key} && k in f'.table ensures QueuedKey(f'.banned, k) {
      if k != key {
        var i :| 0 <= i < |f.banned| && HostKey(f.banned[i].1) == k;
        assert HostKey(f'.banned[i].1) == k;
      }
    }
  }

  lemma ProcessTraced(p: Policy, f: Filter, rules: Table, keys: set<Key>, addr: Addr, at: Clock)
    requires p.banTicks != 0 && Traced(f, rules, keys)
    ensures Traced(Process(p, f, addr, at).0, rules, keys + if Bans(p, f, addr, at) then {HostKey(addr)} else {})
  {
    hide HostKey;
    hide Count;
    UnbanTraced(f, rules, keys, at.unban);
    var f1 := if p.BanEnabled() then Unban(f, at.unban) else f;
    hide Unban;
    hide Allowed;
    assert keys + {} == keys;
    var f2 := f1.(windows := Count(p.config, f1.windows, addr, at.count).0);
    assert Traced(f2, rules, keys);
    BanTraced(p, f2, rules, keys, addr, at.ban);
    hide Ban;
    hide Traced;
  }

  lemma {:induction false} RunTraced(p: Policy, rules: Table, reqs: seq<Request>)
    requires p.banTicks != 0
    ensures Traced(Run(p, Filter(rules, [], map[]), reqs), rules, BannedKeys(p, Filter(rules, [], map[]), reqs))
  {
    hide HostKey;
    hide Process;
    hide Bans;
    if reqs == [] {
      assert rules - {} == rules;
    } else {
      var k := |reqs| - 1;
      RunTraced(p, rules, reqs[..k]);
      var f0 := Filter(rules, [], map[]);
      ProcessTraced(p, Run(p, f0, reqs[..k]), rules, BannedKeys(p, f0, reqs[..k]), reqs[k].addr, reqs[k].at);
      hide Traced;
    }
  }

  /** What bans do to the rules, over every run and for all rules: once all bans are lifted, the table is
      the rules without the /32 rules of the addresses that were banned. So it is the rules again if
      and only if no request that triggered a ban came from an address with a /32 rule. */
  lemma RulesAfterRun(p: Policy, rules: Table, reqs: seq<Request>, t: Time)
    requires p.banTicks != 0 && Unban(Run(p, Filter(rules, [], map[]), reqs), t).banned == []
    ensures var f0 := Filter(rules, [], map[]);
            var table := Unban(Run(p, f0, reqs), t).table;
            && table == rules - BannedKeys(p, f0, reqs)
            && (table == rules <==> BannedKeys(p, f0, reqs) !! rules.Keys)
  {
    hide HostKey;
    hide Run;
    var f0 := Filter(rules, [], map[]);
    var keys, f := BannedKeys(p, f0, reqs), Run(p, f0, reqs);
    RunTraced(p, rules, reqs);
    UnbanTraced(f, rules, keys, t);
    var table := Unban(f, t).table;
    hide Unban;
    hide BannedKeys;
    assert forall k :: k in keys ==> k !in table;
    assert table == table - keys;
    if table == rules { assert forall k :: k in keys ==> k !in rules.Keys; }
    if keys !! rules.Keys { assert rules - keys == rules; }
  }

  lemma {:induction false} InBannedKeys(p: Policy, f: Filter, reqs: seq<Request>, key: Key)
    ensures key in BannedKeys(p, f, reqs) <==>
            exists i :: 0 <= i < |reqs| && HostKey(reqs[i].addr) == key &&
                Bans(p, Run(p, f, reqs[..i]), reqs[i].addr, reqs[i].at)
  {
    hide HostKey;
    hide Bans;
    hide Run;
    if reqs != [] {
      var k := |reqs| - 1;
      InBannedKeys(p, f, reqs[..k], key);
      assert forall i :: 0 <= i < k ==> reqs[..k][i] == reqs[i] && reqs[..k][..i] == reqs[..i];
    }
  }

  lemma ManyRequests(c: Config, a: Addr)
    requires c == Config(1, 1)
    ensures Count(c, map[], a, 0) == (map[a := Window(0, 1)], false)
    ensures Count(c, map[a := Window(0, 1)], a, 0) == (map[], true)
  {
    assert map[a := Window(0, 1)] - {a} == map[];
    assert map[][a := Window(0, 1)] == map[a := Window(0, 1)];
    assert Neighbour({a}, a) == a;
  }

  lemma NamedAllowed(addr: Addr, defaultAllow: bool)
    ensures Allowed(map[HostKey(addr) := true], defaultAllow, addr)
  {
    hide HostKey;
    assert HostKey(addr)[..ADDRESS_BITS] == HostKey(addr);
  }

  /** An address the rules allow by name escapes its ban and loses its rule: with one request a second
      allowed, the second of three requests at once triggers a ban, the third is accepted all the
      same, and when the ban is over the rule is gone. */
  lemma HostRuleExample(banTicks: int, defaultAllow: bool)
    requires banTicks > 0
    ensures var p, f0 := Policy(Config(1, 1), banTicks, defaultAllow), Filter(map[HostKey(7) := true], [], map[]);
            var r := Request.Request(7, Clock(0, 0, 0));
            var reqs := [r, r, r];
            && Accepted(p, f0, reqs, 0) && !Accepted(p, f0, reqs, 1) && Accepted(p, f0, reqs, 2)
            && Unban(Run(p, f0, reqs), banTicks).table == map[]
  {
    hide HostKey;
    var c, at, key := Config(1, 1), Clock(0, 0, 0), HostKey(7);
    var p, table, r := Policy(c, banTicks, defaultAllow), map[key := true], Request.Request(7, at);
    var f0, reqs := Filter(table, [], map[]), [r, r, r];
    ManyRequests(c, 7);
    NamedAllowed(7, defaultAllow);
    hide Count;
    hide Allowed;
    var f1 := Filter(table, [], map[7 := Window(0, 1)]);
    var f2 := Filter(table, [(banTicks, 7)], map[]);
    var f3 := Filter(table, [(banTicks, 7)], map[7 := Window(0, 1)]);
    assert Process(p, f0, 7, at) == (f1, true);
    assert Ban(p, f1.(windows := map[]), 7, 0) == f2 by { assert f1.banned + [(0 + banTicks, 7)] == f2.banned; }
    assert Process(p, f1, 7, at) == (f2, false);
    assert Process(p, f2, 7, at) == (f3, true);
    hide Process;
    assert reqs[..0] == [] && reqs[..1] == [r] && [r][..0] == [] && reqs[..2] == [r, r] && [r, r][..1] == [r];
    assert Run(p, f0, []) == f0;
    assert Run(p, f0, [r]) == f1;
    assert Run(p, f0, [r, r]) == f2;
    assert Run(p, f0, reqs) == f3;
    assert f3.banned[1..] == [] && table - {key} == map[];
  }

  // ----- the filter object -----

  class BlackList {
    const banEnabled: bool
    const banTimeout: int
    var defaultAllow: bool
    const table: RT.RadixTree<bool>
    const ipmap: IpMap
    var banned: seq<(Time, Addr)>

    constructor (requestsPerSec: int, windowSizeSec: int, banIpSec: int)
      ensures Valid() && fresh(table) && fresh(table.nodes) && fresh(ipmap)
      ensures State() == Filter(map[], [], map[])
      ensures Settings() == Policy(Config(requestsPerSec, windowSizeSec), banIpSec * SECOND, true)
    {
      banEnabled := requestsPerSec != 0;
      banTimeout := banIpSec * SECOND;
      defaultAllow := true;
      table := new RT.RadixTree<bool>();
      ipmap := new IpMap(requestsPerSec, windowSizeSec);
      banned := [];
    }

    ghost predicate Valid()
      reads this, table, table.nodes, ipmap
    {
      table.Valid() && (banEnabled <==> ipmap.config.rate != 0)
    }

    ghost function State(): Filter
      reads this, table, ipmap
    {
      Filter(RT.Contents(table.leaves), banned, ipmap.windows)
    }

    ghost function Settings(): Policy
      reads this
    {
      Policy(ipmap.config, banTimeout, defaultAllow)
    }

    method Find(addr: Addr) returns (found: bool, allow: bool)
      requires Valid()
      ensures found <==> Match(State().table, HostKey(addr), ADDRESS_BITS).Some?
      ensures allow == Allowed(State().table, defaultAllow, addr)
    {
      var it := table.LongestMatch(HostKey(addr));
      LongestIsMatch(table, HostKey(addr), it);
      if it == null {
        return false, defaultAllow;
      }
      return true, it.value.value.1;
    }

    method AddEntry(addr: Addr, allow: bool, len: nat)
      requires Valid() && 0 < len <= ADDRESS_BITS
      modifies this, table, table.nodes
      ensures Valid() && fresh(table.nodes - old(table.nodes))
      ensures var key := HostKey(addr)[..len];
              State() == old(State()).(table :=
                if key in old(State()).table then old(State()).table else old(State()).table[key := allow])
      ensures Settings() == old(Settings())
    {
      table.SameKeys();
      var leaf, inserted := table.Insert(HostKey(addr)[..len], allow);
    }

    method RemoveEntry(addr: Addr)
      requires Valid()
      modifies table, table.nodes
      ensures Valid() && table.nodes <= old(table.nodes)
      ensures State() == old(State()).(table := old(State()).table - {HostKey(addr)})
    {
      var erased := table.Erase(HostKey(addr));
    }

    method LiftBans(now: Time)
      requires Valid()
      modifies this, table, table.nodes
      ensures Valid() && table.nodes <= old(table.nodes)
      ensures State() == Unban(old(State()), now) && Settings() == old(Settings())
    {
      hide HostKey;
      while banned != []
        invariant Valid() && table.nodes <= old(table.nodes)
        invariant Unban(State(), now) == Unban(old(State()), now) && Settings() == old(Settings())
        decreases |banned|
      {
        var item := banned[0];
        if now < item.0 {
          break;
        }
        RemoveEntry(item.1);
        banned := banned[1..];
      }
    }

    method PlaceBan(addr: Addr, now: Time)
      requires Valid()
      modifies this, table, table.nodes
      ensures Valid() && fresh(table.nodes - old(table.nodes))
      ensures State() == Ban(old(Settings()), old(State()), addr, now) && Settings() == old(Settings())
    {
      hide HostKey;
      hide RT.Contents;
      hide RT.RadixTree.Valid;
      assert HostKey(addr)[..ADDRESS_BITS] == HostKey(addr);
      AddEntry(addr, false, ADDRESS_BITS);
      if banTimeout == 0 {
        return;
      }
      banned := banned + [(now + banTimeout, addr)];
    }

    /** The clock is read up to three times while a request is processed. */
    method ProcessIp(addr: Addr, at: Clock) returns (accepted: bool)
      requires Valid()
      modifies this, table, table.nodes, ipmap
      ensures Valid() && fresh(table.nodes - old(table.nodes))
      ensures (State(), accepted) == Process(old(Settings()), old(State()), addr, at) && Settings() == old(Settings())
    {
      hide HostKey;
      hide RT.Contents;
      hide RT.RadixTree.Valid;
      hide Count;
      if banEnabled && banTimeout != 0 {
        LiftBans(at.unban);
      }
      var found, allow := Find(addr);
      if !allow {
        return false;
      }
      if !banEnabled {
        return true;
      }
      var triggered := ipmap.Inc(addr, at.count);
      if triggered {
        PlaceBan(addr, at.ban);
        return false;
      }
      return true;
    }
  }

  /** The tree's longest match is the table's. */
  lemma LongestIsMatch(tree: RT.RadixTree<bool>, key: Key, r: Node?<bool>)
    requires tree.Valid() && tree.Longest(key, r)
    ensures var m := Match(RT.Contents(tree.leaves), key, |key|);
            if r == null then m == None else m == Some(r.path)
  {
    tree.SameKeys();
    var m := Match(RT.Contents(tree.leaves), key, |key|);
    if r != null && m.Some? {
      assert m.value == key[..|m.value|] && r.path == key[..|r.path|];
    }
  }
}
