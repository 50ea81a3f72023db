/** The list of callback inputs that arrived before the task they belong to was postponed. Entries
    live for a fixed time; the clock is monotone, so deadlines are in order. */
module ExpiringList {
  import opened Options

  type Time = int
  type Uuid = nat

  datatype Entry<V> = Entry(deadline: Time, uuid: Uuid, value: V)

  ghost predicate Sorted<V>(cont: seq<Entry<V>>) {
    forall i, j :: 0 <= i < j < |cont| ==> cont[i].deadline <= cont[j].deadline
  }

  ghost predicate Has<V>(cont: seq<Entry<V>>, uuid: Uuid) {
    exists i :: 0 <= i < |cont| && cont[i].uuid == uuid
  }

  /** `rest` is `cont` without its expired front: whatever is dropped has reached its deadline,
      whatever is kept has not passed it. */
  ghost predicate Chopped<V>(cont: seq<Entry<V>>, rest: seq<Entry<V>>, now: Time) {
    && |rest| <= |cont| && rest == cont[|cont| - |rest|..]
    && (forall i :: 0 <= i < |cont| - |rest| ==> cont[i].deadline <= now)
    && (forall i :: 0 <= i < |rest| ==> now <= rest[i].deadline)
  }

  /** An entry that has not reached its deadline survives. */
  lemma LiveKept<V>(cont: seq<Entry<V>>, rest: seq<Entry<V>>, now: Time, e: Entry<V>)
    requires Chopped(cont, rest, now) && e in cont && now < e.deadline
    ensures e in rest
  {
    var i :| 0 <= i < |cont| && cont[i] == e;
    assert rest[i - (|cont| - |rest|)] == e;
  }

  /** The first entry for a uuid. */
  ghost predicate FirstFor<V>(cont: seq<Entry<V>>, uuid: Uuid, k: nat) {
    k < |cont| && cont[k].uuid == uuid && forall i :: 0 <= i < k ==> cont[i].uuid != uuid
  }

  class ExpiringList<V> {
    const delta: nat
    var cont: seq<Entry<V>>

    constructor (lifeTime: nat)
      ensures delta == lifeTime && cont == []
    {
      delta := lifeTime;
      cont := [];
    }

    /** No deadline lies further ahead than an entry added now would have. */
    ghost predicate Valid(now: Time)
      reads this
    {
      Sorted(cont) && forall i :: 0 <= i < |cont| ==> cont[i].deadline <= now + delta
    }

    /** `std::lower_bound` from the second entry on. */
    method LowerBound(now: Time) returns (k: nat)
      requires Sorted(cont) && cont != []
      ensures 1 <= k <= |cont|
      ensures forall i :: 1 <= i < k ==> cont[i].deadline < now
      ensures forall i :: k <= i < |cont| ==> now <= cont[i].deadline
    {
      var lo, hi := 1, |cont|;
      while lo < hi
        invariant 1 <= lo <= hi <= |cont|
        invariant forall i :: 1 <= i < lo ==> cont[i].deadline < now
        invariant forall i :: hi <= i < |cont| ==> now <= cont[i].deadline
      {
        var mid := (lo + hi) / 2;
        if cont[mid].deadline < now {
          lo := mid + 1;
        } else {
          hi := mid;
        }
      }
      k := lo;
    }

    method Chop(now: Time)
      requires Valid(now)
      modifies this
      ensures Valid(now) && Chopped(old(cont), cont, now)
      ensures |cont| < |old(cont)| <==> old(cont) != [] && old(cont)[0].deadline <= now
      ensures forall i :: 1 <= i < |old(cont)| - |cont| ==> old(cont)[i].deadline < now
    {
      if cont == [] || now < cont[0].deadline {
        return;
      }
      var k := LowerBound(now);
      cont := cont[k..];
    }

    method Add(uuid: Uuid, value: V, now: Time)
      requires Valid(now)
      modifies this
      ensures Valid(now)
      ensures cont != [] && cont[|cont| - 1] == Entry(now + delta, uuid, value)
      ensures Chopped(old(cont), cont[..|cont| - 1], now)
    {
      Chop(now);
      cont := cont + [Entry(now + delta, uuid, value)];
    }

    /** Takes out the oldest entry for the uuid that has not expired, if there is one; `rest` is the
        list after expired entries were dropped. */
    method Extract(uuid: Uuid, now: Time) returns (r: Option<V>, ghost rest: seq<Entry<V>>)
      requires Valid(now)
      modifies this
      ensures Valid(now) && Chopped(old(cont), rest, now)
      ensures Taken(rest, cont, uuid, r)
    {
      rest := cont;
      r := None;
      if cont == [] {
        return;
      }
      Chop(now);
      rest := cont;
      var k := 0;
      while k < |cont|
        invariant k <= |cont| && cont == rest && forall i :: 0 <= i < k ==> cont[i].uuid != uuid
      {
        if cont[k].uuid == uuid {
          assert FirstFor(rest, uuid, k);
          r := Some(cont[k].value);
          cont := cont[..k] + cont[k + 1..];
          return;
        }
        k := k + 1;
      }
    }
  }

  /** `r` is the value of the first entry for the uuid, which is gone from `cont`. */
  ghost predicate Taken<V>(rest: seq<Entry<V>>, cont: seq<Entry<V>>, uuid: Uuid, r: Option<V>) {
    match r
    case None => cont == rest && !Has(cont, uuid)
    case Some(v) => exists k: nat :: FirstFor(rest, uuid, k) && v == rest[k].value && cont == rest[..k] + rest[k + 1..]
  }

  /** Nothing appears in the list, and a value comes only from an entry that was in it. */
  lemma TakenFrom<V>(old': seq<Entry<V>>, rest: seq<Entry<V>>, cont: seq<Entry<V>>, uuid: Uuid, r: Option<V>, now: Time)
    requires Chopped(old', rest, now) && Taken(rest, cont, uuid, r)
    ensures forall e :: e in cont ==> e in old'
    ensures |cont| <= |old'| && (r.Some? ==> |cont| < |old'|)
    ensures forall e :: e in old' && now < e.deadline && e.uuid != uuid ==> e in cont
    ensures r.Some? ==> exists e :: e in old' && e.uuid == uuid && now <= e.deadline && e.value == r.value
    ensures r.None? ==> !Has(cont, uuid) && forall e :: e in old' && e.uuid == uuid ==> e.deadline <= now
  {
    assert forall e :: e in rest ==> e in old';
    if r.Some? {
      var k: nat :| FirstFor(rest, uuid, k) && r.value == rest[k].value && cont == rest[..k] + rest[k + 1..];
      assert rest[k] in old';
      forall e | e in old' && now < e.deadline && e.uuid != uuid ensures e in cont {
        LiveKept(old', rest, now, e);
        var i :| 0 <= i < |rest| && rest[i] == e;
        assert e == cont[if i < k then i else i - 1];
      }
    } else {
      forall e | e in old' && now < e.deadline && e.uuid != uuid ensures e in cont {
        LiveKept(old', rest, now, e);
      }
      forall e | e in old' && e.uuid == uuid ensures e.deadline <= now {
        if now < e.deadline {
          LiveKept(old', rest, now, e);
        }
      }
    }
  }

  lemma StillAbsent<V>(old': seq<Entry<V>>, cont: seq<Entry<V>>, u: Uuid)
    requires !Has(old', u) && forall e :: e in cont ==> e in old'
    ensures !Has(cont, u)
  {
    forall i | 0 <= i < |cont| ensures cont[i].uuid != u {
      assert cont[i] in old';
    }
  }

  /** `c` is the oldest entry for its uuid. */
  ghost predicate Leads<V>(cont: seq<Entry<V>>, c: Entry<V>) {
    exists k: nat :: FirstFor(cont, c.uuid, k) && cont[k] == c
  }

  lemma LeadsAfterChop<V>(cont: seq<Entry<V>>, rest: seq<Entry<V>>, now: Time, c: Entry<V>)
    requires Leads(cont, c) && Chopped(cont, rest, now) && now < c.deadline
    ensures Leads(rest, c)
  {
    var k: nat :| FirstFor(cont, c.uuid, k) && cont[k] == c;
    var n := |cont| - |rest|;
    assert FirstFor(rest, c.uuid, k - n);
  }

  lemma LeadsAfterAdd<V>(cont: seq<Entry<V>>, x: Entry<V>, c: Entry<V>)
    requires Leads(cont, c)
    ensures Leads(cont + [x], c)
  {
    var k: nat :| FirstFor(cont, c.uuid, k) && cont[k] == c;
    assert FirstFor(cont + [x], c.uuid, k);
  }

  /** Extraction finds the oldest entry, and leaves the oldest entries of other uuids. */
  lemma LeadsAfterTake<V>(rest: seq<Entry<V>>, cont: seq<Entry<V>>, uuid: Uuid, r: Option<V>, c: Entry<V>)
    requires Taken(rest, cont, uuid, r) && Leads(rest, c)
    ensures if uuid == c.uuid then r == Some(c.value) else Leads(cont, c)
  {
    var k: nat :| FirstFor(rest, c.uuid, k) && rest[k] == c;
    if r.Some? {
      var j: nat :| FirstFor(rest, uuid, j) && r.value == rest[j].value && cont == rest[..j] + rest[j + 1..];
      if uuid != c.uuid {
        assert FirstFor(cont, c.uuid, if k < j then k else k - 1);
      }
    }
  }
}
