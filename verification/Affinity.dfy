/**
 The bounded table that pins a response to the backend that created it. A Go map has no
 iteration order, so every order the runtime may pick enters as a parameter; the clock is read
 before the lock is taken, so successive operations may see times that go backwards.
 */
module Affinity {
  import opened Options

  const EVICT_PROBE_BUDGET: nat := 64

  datatype Key = Key(keyId: string, respId: string)
  datatype Val = Val(backend: string, model: string, expiry: int)
  datatype PutRecord = PutRecord(key: Key, val: Val)

  /** now.After(v.Expiry). */
  predicate Expired(v: Val, now: int) {
    now > v.expiry
  }

  /** The first n keys. */
  ghost function Visited(order: seq<Key>, n: nat): set<Key>
    requires n <= |order|
  {
    if n == 0 then {} else Visited(order, n - 1) + {order[n - 1]}
  }

  /** An order in which a range loop over t may visit its keys: each of them once. */
  ghost predicate IsOrder(order: seq<Key>, t: map<Key, Val>) {
    && (forall i, j :: 0 <= i < j < |order| ==> order[i] != order[j])
    && Visited(order, |order|) == t.Keys
  }

  lemma {:induction false} VisitedIsPrefix(order: seq<Key>, n: nat)
    requires n <= |order|
    ensures forall k :: k in Visited(order, n) <==> exists i :: 0 <= i < n && order[i] == k
  {
    if n > 0 {
      VisitedIsPrefix(order, n - 1);
      assert order[n - 1] in Visited(order, n);
    }
  }

  /** How many of the first n keys hold an entry that has not expired. */
  ghost function LiveCount(order: seq<Key>, t: map<Key, Val>, now: int, n: nat): (c: nat)
    requires n <= |order|
    ensures c <= n
  {
    if n == 0 then 0
    else LiveCount(order, t, now, n - 1) + if order[n - 1] in t && !Expired(t[order[n - 1]], now) then 1 else 0
  }

  /** The last put for this exact pair, over everything ever put. */
  ghost function Latest(puts: seq<PutRecord>, key: Key): Option<Val> {
    if puts == [] then None
    else if puts[|puts| - 1].key == key then Some(puts[|puts| - 1].val)
    else Latest(puts[..|puts| - 1], key)
  }

  /** What an eviction that visited the first n keys leaves of t: no expired key among them, and not the victim. */
  ghost predicate Swept(t: map<Key, Val>, t': map<Key, Val>, order: seq<Key>, now: int, n: nat, victim: Option<Key>)
    requires n <= |order|
  {
    && (forall k :: k in t' ==> k in t && t'[k] == t[k])
    && (forall k :: k in t ==> (k !in t' <==> victim == Some(k) || (k in Visited(order, n) && Expired(t[k], now))))
  }

  /** The victim is the live entry with the earliest expiry among those visited. */
  ghost predicate OldestVisited(t: map<Key, Val>, order: seq<Key>, now: int, n: nat, victim: Key)
    requires n <= |order|
  {
    && victim in t && victim in Visited(order, n) && !Expired(t[victim], now)
    && forall k :: k in t && k in Visited(order, n) && !Expired(t[k], now) ==> t[victim].expiry <= t[k].expiry
  }

  ghost predicate AllExpired(t: map<Key, Val>, order: seq<Key>, now: int, n: nat)
    requires n <= |order|
  {
    forall k :: k in t && k in Visited(order, n) ==> Expired(t[k], now)
  }

  /** One more key visited: dropped if it has expired, kept otherwise. */
  lemma SweepOne(t: map<Key, Val>, t': map<Key, Val>, order: seq<Key>, now: int, n: nat)
    requires IsOrder(order, t) && n < |order| && Swept(t, t', order, now, n, None)
    ensures order[n] in t && order[n] in t' && t'[order[n]] == t[order[n]]
    ensures if Expired(t[order[n]], now) then Swept(t, t' - {order[n]}, order, now, n + 1, None)
            else Swept(t, t', order, now, n + 1, None)
  {
    VisitedIsPrefix(order, n);
    VisitedIsPrefix(order, |order|);
    assert order[n] in t.Keys;
  }

  /** What the loop remembers of the first n keys. */
  ghost predicate Best(t: map<Key, Val>, order: seq<Key>, now: int, n: nat, have: bool, oldest: Key)
    requires n <= |order|
  {
    if have then OldestVisited(t, order, now, n, oldest) else AllExpired(t, order, now, n)
  }

  lemma BestStep(t: map<Key, Val>, order: seq<Key>, now: int, n: nat, have: bool, oldest: Key)
    requires n < |order| && order[n] in t && Best(t, order, now, n, have, oldest)
    ensures var v := t[order[n]];
            if Expired(v, now) then Best(t, order, now, n + 1, have, oldest)
            else Best(t, order, now, n + 1, true, if !have || v.expiry < t[oldest].expiry then order[n] else oldest)
  {
  }

  /** The loop's variables after n keys: the table swept so far, the live keys counted, the oldest of them remembered. */
  ghost predicate Sweeping(t: map<Key, Val>, t': map<Key, Val>, order: seq<Key>, now: int, n: nat, probed: int, have: bool, oldest: Key, expiry: int)
    requires n <= |order|
  {
    && Swept(t, t', order, now, n, None) && Best(t, order, now, n, have, oldest)
    && probed == LiveCount(order, t, now, n) && (have ==> oldest in t && expiry == t[oldest].expiry)
  }

  lemma SweepingStep(t: map<Key, Val>, t': map<Key, Val>, order: seq<Key>, now: int, n: nat, probed: int, have: bool, oldest: Key, expiry: int)
    requires IsOrder(order, t) && n < |order| && Sweeping(t, t', order, now, n, probed, have, oldest, expiry)
    ensures order[n] in t && order[n] in t' && t'[order[n]] == t[order[n]] && |t' - {order[n]}| == |t'| - 1
    ensures var v := t[order[n]];
            if Expired(v, now) then Sweeping(t, t' - {order[n]}, order, now, n + 1, probed, have, oldest, expiry)
            else if !have || v.expiry < expiry then Sweeping(t, t', order, now, n + 1, probed + 1, true, order[n], v.expiry)
            else Sweeping(t, t', order, now, n + 1, probed + 1, true, oldest, expiry)
  {
    SweepOne(t, t', order, now, n);
    BestStep(t, order, now, n, have, oldest);
    DropShrinks(t', order[n]);
  }

  lemma SweepingStart(t: map<Key, Val>, order: seq<Key>, now: int, oldest: Key, expiry: int)
    ensures Sweeping(t, t, order, now, 0, 0, false, oldest, expiry)
  {
  }

  lemma SweepingEnd(t: map<Key, Val>, t': map<Key, Val>, order: seq<Key>, now: int, n: nat, probed: int, have: bool, oldest: Key, expiry: int)
    requires n <= |order| && Sweeping(t, t', order, now, n, probed, have, oldest, expiry)
    ensures Swept(t, t', order, now, n, None)
    ensures if have then OldestVisited(t, order, now, n, oldest) else AllExpired(t, order, now, n)
    ensures probed == LiveCount(order, t, now, n)
  {
  }

  lemma SweptVictim(t: map<Key, Val>, t': map<Key, Val>, order: seq<Key>, now: int, n: nat, oldest: Key)
    requires n <= |order| && Swept(t, t', order, now, n, None) && OldestVisited(t, order, now, n, oldest)
    ensures oldest in t' && Swept(t, t' - {oldest}, order, now, n, Some(oldest))
  {
  }

  lemma AllSwept(t: map<Key, Val>, t': map<Key, Val>, order: seq<Key>, now: int)
    requires IsOrder(order, t) && Swept(t, t', order, now, |order|, None) && AllExpired(t, order, now, |order|)
    ensures t' == map[]
  {
    assert t'.Keys == {};
  }

  class AffinityTable {
    const ttl: int
    const max: nat
    var table: map<Key, Val>
    ghost var puts: seq<PutRecord>

    ghost predicate Valid()
      reads this
    {
      && 1 <= max && |table| <= max
      && forall k :: k in table ==> Latest(puts, k) == Some(table[k])
    }

    constructor (ttl: int, max: int)
      ensures Valid() && table == map[] && puts == [] && this.ttl == ttl
      ensures this.max == if max <= 0 then 1 else max
    {
      this.ttl := ttl;
      this.max := if max <= 0 then 1 else max;
      table, puts := map[], [];
    }

    /** evictLocked; n is how many keys the loop visited and victim the live entry it gave up, if any. */
    method Evict(now: int, order: seq<Key>) returns (ghost n: nat, ghost victim: Option<Key>)
      requires Valid() && IsOrder(order, table)
      modifies this`table
      ensures |table| < max && n <= |order|
      ensures old(|table|) < max ==> n == 0 && victim == None && table == old(table)
      ensures Swept(old(table), table, order, now, n, victim)
      ensures victim.None? && old(|table|) >= max ==> n == |order|
      ensures victim.Some? ==> OldestVisited(old(table), order, now, n, victim.value)
      ensures victim.Some? ==> n == |order| || LiveCount(order, old(table), now, n) >= EVICT_PROBE_BUDGET
      ensures victim.Some? ==> |table| == max - 1
    {
      n, victim := 0, None;
      if |table| < max {
        return;
      }
      ghost var t := table;
      var oldest, haveOldest;
      n, oldest, haveOldest := Sweep(now, order);
      if |table| >= max && haveOldest {
        DropShrinks(table, oldest);
        victim := Some(oldest);
        SweptVictim(t, table, order, now, n, oldest);
        table := table - {oldest};
      } else if !haveOldest {
        AllSwept(t, table, order, now);
      }
    }

    /** Its loop: expired entries go, and the oldest live one is remembered. */
    method Sweep(now: int, order: seq<Key>) returns (ghost n: nat, oldest: Key, haveOldest: bool)
      requires |table| <= max && IsOrder(order, table)
      modifies this`table
      ensures |table| <= max && n <= |order|
      ensures Swept(old(table), table, order, now, n, None)
      ensures haveOldest ==> OldestVisited(old(table), order, now, n, oldest)
      ensures !haveOldest ==> n == |order| && AllExpired(old(table), order, now, n)
      ensures n == |order| || (LiveCount(order, old(table), now, n) >= EVICT_PROBE_BUDGET && |table| == max)
    {
      ghost var t := table;
      var oldestT;
      oldest, oldestT, haveOldest := Key("", ""), 0, false;
      var probed := 0;
      var i := 0;
      SweepingStart(t, order, now, oldest, oldestT);
      while i < |order|
        invariant 0 <= i <= |order| && |table| <= max
        invariant Sweeping(t, table, order, now, i, probed, haveOldest, oldest, oldestT)
      {
        var k := order[i];
        SweepingStep(t, table, order, now, i, probed, haveOldest, oldest, oldestT);
        i := i + 1;
        var v := table[k];
        if Expired(v, now) {
          table := table - {k};
          continue;
        }
        probed := probed + 1;
        if !haveOldest || v.expiry < oldestT {
          oldest, oldestT, haveOldest := k, v.expiry, true;
        }
        if probed >= EVICT_PROBE_BUDGET && |table| >= max {
          break;
        }
      }
      n := i;
      SweepingEnd(t, table, order, now, n, probed, haveOldest, oldest, oldestT);
    }

    /** Put at the time now, for the iteration order the runtime picks. */
    method Put(keyId: string, respId: string, backend: string, model: string, now: int, order: seq<Key>)
      returns (ghost n: nat, ghost victim: Option<Key>, ghost swept: map<Key, Val>)
      requires Valid() && IsOrder(order, table)
      modifies this
      ensures Valid() && n <= |order|
      ensures var k, v := Key(keyId, respId), Val(backend, model, now + ttl);
              table == swept[k := v] && puts == old(puts) + [PutRecord(k, v)]
      ensures old(|table|) < max ==> swept == old(table)
      ensures Swept(old(table), swept, order, now, n, victim)
      ensures victim.Some? ==> OldestVisited(old(table), order, now, n, victim.value) && |swept| == max - 1
      ensures victim.Some? ==> n == |order| || LiveCount(order, old(table), now, n) >= EVICT_PROBE_BUDGET
    {
      n, victim := Evict(now, order);
      swept := table;
      var k := Key(keyId, respId);
      table := table[k := Val(backend, model, now + ttl)];
      puts := puts + [PutRecord(k, Val(backend, model, now + ttl))];
      assert table.Keys == swept.Keys + {k};
      LatestAfter(old(puts), swept, k, Val(backend, model, now + ttl));
    }

    method Get(keyId: string, respId: string, now: int) returns (backend: string, model: string, ok: bool)
      requires Valid()
      modifies this`table
      ensures Valid()
      ensures var k := Key(keyId, respId);
              && (ok <==> k in old(table) && now <= old(table)[k].expiry)
              && table == (if ok || k !in old(table) then old(table) else old(table) - {k})
      ensures ok ==> var latest := Latest(puts, Key(keyId, respId));
              latest.Some? && latest.value.backend == backend && latest.value.model == model && now <= latest.value.expiry
      ensures !ok ==> backend == "" && model == ""
    {
      var k := Key(keyId, respId);
      ok := k in table;
      if !ok || Expired(table[k], now) {
        if ok {
          DropShrinks(table, k);
          table := table - {k};
        }
        return "", "", false;
      }
      return table[k].backend, table[k].model, true;
    }
  }

  lemma LatestAfter(puts: seq<PutRecord>, t: map<Key, Val>, key: Key, val: Val)
    requires forall k :: k in t ==> Latest(puts, k) == Some(t[k])
    ensures forall k :: k in t[key := val] ==> Latest(puts + [PutRecord(key, val)], k) == Some(t[key := val][k])
  {
    assert (puts + [PutRecord(key, val)])[..|puts|] == puts;
  }

  lemma DropShrinks(t: map<Key, Val>, k: Key)
    requires k in t
    ensures |t - {k}| == |t| - 1
  {
    assert (t - {k}).Keys == t.Keys - {k};
  }

  /** With at most sixty-four entries the victim is the oldest live entry of the whole table. */
  lemma SmallTablesLoseTheOldest(t: map<Key, Val>, order: seq<Key>, now: int, n: nat, victim: Key)
    requires IsOrder(order, t) && n <= |order| <= EVICT_PROBE_BUDGET
    requires OldestVisited(t, order, now, n, victim)
    requires n == |order| || LiveCount(order, t, now, n) >= EVICT_PROBE_BUDGET
    ensures forall k :: k in t && !Expired(t[k], now) ==> t[victim].expiry <= t[k].expiry
  {
    assert n == |order| && Visited(order, n) == t.Keys;
  }
}
