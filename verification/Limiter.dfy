/**
 Request admission: lazy-refill token buckets, per-key concurrency bounds, and the registry that
 carries both across key-store reloads. Times are seconds since Go's zero time, as exact reals.
 */
module Limiter {

  type Rate = r: real | r > 0.0 witness 1.0

  /** The mutable part of a bucket. */
  datatype Level = Level(avail: real, last: real)

  function Max(a: int, b: int): int { if a >= b then a else b }

  // ----- one bucket -----

  /** Tokens that accrue from one time to another. */
  function Accrued(rate: Rate, from: real, to: real): real {
    (to - from) * rate
  }

  lemma AccruedAdds(rate: Rate, a: real, b: real, c: real)
    ensures Accrued(rate, a, b) + Accrued(rate, b, c) == Accrued(rate, a, c)
    ensures a <= b ==> Accrued(rate, a, b) >= 0.0
  {
  }

  /** Tokens a bucket earns between its last refill and now; none when the clock went back. */
  function Gain(rate: Rate, last: real, now: real): (g: real)
    ensures g >= 0.0
  {
    if now > last then AccruedAdds(rate, last, now, now); Accrued(rate, last, now) else 0.0
  }

  /** The level after the refill that opens a call at time now. */
  function Refilled(rate: Rate, cap: real, l: Level, now: real): Level {
    if now > l.last then
      var avail := l.avail + Gain(rate, l.last, now);
      Level(if avail > cap then cap else avail, now)
    else l
  }

  predicate Admits(rate: Rate, cap: real, l: Level, now: real) {
    Refilled(rate, cap, l, now).avail >= 1.0
  }

  function Called(rate: Rate, cap: real, l: Level, now: real): Level {
    var r := Refilled(rate, cap, l, now);
    if r.avail >= 1.0 then r.(avail := r.avail - 1.0) else r
  }

  class Bucket {
    const rate: Rate
    const cap: real
    var avail: real
    var last: real

    function View(): Level
      reads this
    {
      Level(avail, last)
    }

    constructor (rate: Rate, burst: int)
      ensures this.rate == rate && this.cap == Max(burst, 1) as real
      ensures View() == Level(0.0, 0.0)
    {
      this.rate := rate;
      this.cap := Max(burst, 1) as real;
      this.avail, this.last := 0.0, 0.0;
    }

    /** Consumes one token, or reports how long until there is one. */
    method Allow(now: real) returns (ok: bool, retryAfter: real)
      modifies this`avail, this`last
      ensures View() == Called(rate, cap, old(View()), now)
      ensures ok <==> Admits(rate, cap, old(View()), now)
      ensures retryAfter == if ok then 0.0 else (1.0 - avail) / rate
    {
      if now > last {
        var elapsed := now - last;
        last := now;
        avail := avail + elapsed * rate;
        if avail > cap {
          avail := cap;
        }
      }
      if avail >= 1.0 {
        avail := avail - 1.0;
        return true, 0.0;
      }
      retryAfter := (1.0 - avail) / rate;
      return false, retryAfter;
    }

    /** Whether carrying this bucket over a reload keeps its limit. */
    predicate Matches(rate: real, burst: int) {
      this.rate == rate && cap == burst as real
    }
  }

  /** NewBucket: a rate that is not positive is an error. */
  method NewBucket(rate: real, burst: int) returns (b: Bucket?)
    ensures b == null <==> rate <= 0.0
    ensures b != null ==> fresh(b) && b.rate == rate && b.cap == Max(burst, 1) as real && b.View() == Level(0.0, 0.0)
  {
    if rate <= 0.0 {
      return null;
    }
    b := new Bucket(rate, burst);
  }

  /** The level after calls at the given times, oldest first. */
  function LevelAfter(rate: Rate, cap: real, l: Level, times: seq<real>): Level {
    if times == [] then l
    else Called(rate, cap, LevelAfter(rate, cap, l, times[..|times| - 1]), times[|times| - 1])
  }

  /** How many of those calls were admitted. */
  function Admitted(rate: Rate, cap: real, l: Level, times: seq<real>): nat {
    if times == [] then 0
    else
      var before := times[..|times| - 1];
      Admitted(rate, cap, l, before) +
      if Admits(rate, cap, LevelAfter(rate, cap, l, before), times[|times| - 1]) then 1 else 0
  }

  predicate Sound(cap: real, l: Level) {
    0.0 <= l.avail <= cap
  }

  /** Tokens earned over a run of calls, before capping. */
  ghost function Earned(rate: Rate, cap: real, l: Level, times: seq<real>): real {
    if times == [] then 0.0
    else
      var before := times[..|times| - 1];
      Earned(rate, cap, l, before) + Gain(rate, LevelAfter(rate, cap, l, before).last, times[|times| - 1])
  }

  /** What is earned is rate times the time the clock advanced, and the clock never moves back. */
  lemma {:induction false} EarnedIsElapsed(rate: Rate, cap: real, l: Level, times: seq<real>)
    ensures var end := LevelAfter(rate, cap, l, times);
            end.last >= l.last && Earned(rate, cap, l, times) == Accrued(rate, l.last, end.last)
  {
    if times != [] {
      var before := times[..|times| - 1];
      EarnedIsElapsed(rate, cap, l, before);
      var mid := LevelAfter(rate, cap, l, before);
      AccruedAdds(rate, l.last, mid.last, times[|times| - 1]);
      AccruedAdds(rate, l.last, mid.last, mid.last);
    }
  }

  lemma {:induction false} EarnedBound(rate: Rate, cap: real, l: Level, times: seq<real>)
    requires cap >= 1.0 && Sound(cap, l)
    ensures var end := LevelAfter(rate, cap, l, times);
            Sound(cap, end) && Admitted(rate, cap, l, times) as real + end.avail <= l.avail + Earned(rate, cap, l, times)
  {
    if times != [] {
      EarnedBound(rate, cap, l, times[..|times| - 1]);
    }
  }

  /**
   For any timestamps, including ones that go backwards, the level stays between 0 and the
   capacity, the clock never moves back, and a run of calls admits no more than the capacity plus
   rate times the time it covers.
   */
  lemma RateBound(rate: Rate, cap: real, l: Level, times: seq<real>)
    requires cap >= 1.0 && Sound(cap, l)
    ensures var end := LevelAfter(rate, cap, l, times);
            && Sound(cap, end) && end.last >= l.last
            && Admitted(rate, cap, l, times) as real + end.avail <= l.avail + Accrued(rate, l.last, end.last)
            && Admitted(rate, cap, l, times) as real <= cap + Accrued(rate, l.last, end.last)
  {
    EarnedBound(rate, cap, l, times);
    EarnedIsElapsed(rate, cap, l, times);
  }

  /** What has been admitted since start, and what is left now, is no more than what was there and what accrued. */
  ghost predicate WithinBound(rate: Rate, cap: real, start: Level, passed: int, now: Level) {
    && Sound(cap, now) && now.last >= start.last
    && passed as real + now.avail <= start.avail + Accrued(rate, start.last, now.last)
  }

  lemma StartsWithinBound(rate: Rate, cap: real, start: Level)
    requires Sound(cap, start)
    ensures WithinBound(rate, cap, start, 0, start)
  {
  }

  lemma CallStaysWithinBound(rate: Rate, cap: real, start: Level, passed: int, l: Level, now: real)
    requires cap >= 1.0 && WithinBound(rate, cap, start, passed, l)
    ensures WithinBound(rate, cap, start, passed + if Admits(rate, cap, l, now) then 1 else 0, Called(rate, cap, l, now))
  {
    AccruedAdds(rate, start.last, l.last, now);
  }

  /** A denied call that waits d longer is admitted if and only if d is at least the reported wait. */
  lemma RetryAfterIsExact(rate: Rate, cap: real, l: Level, now: real, d: real)
    requires cap >= 1.0 && Sound(cap, l) && now >= l.last && d >= 0.0
    requires !Admits(rate, cap, l, now)
    ensures var denied := Called(rate, cap, l, now);
            Admits(rate, cap, denied, now + d) <==> d >= (1.0 - denied.avail) / rate
  {
    var denied := Called(rate, cap, l, now);
    var wait := (1.0 - denied.avail) / rate;
    AccruedMonotone(rate, wait, d);
    assert Accrued(rate, 0.0, wait) == 1.0 - denied.avail;
    AccruedShift(rate, now, d);
  }

  lemma AccruedShift(rate: Rate, from: real, d: real)
    ensures Accrued(rate, from, from + d) == Accrued(rate, 0.0, d)
  {
  }

  lemma AccruedMonotone(rate: Rate, a: real, b: real)
    ensures Accrued(rate, 0.0, a) <= Accrued(rate, 0.0, b) <==> a <= b
  {
    if a <= b {
      AccruedAdds(rate, 0.0, a, b);
      AccruedAdds(rate, a, b, b);
    } else {
      assert (a - b) * rate > 0.0;
    }
  }

  // ----- the bucket against the bound it enforces -----

  ghost function AdmittedSince(rate: Rate, cap: real, l: Level, times: seq<real>, j: nat): int
    requires j < |times|
  {
    Admitted(rate, cap, l, times) - Admitted(rate, cap, l, times[..j])
  }

  /**
   Admitting one more call at time now would put more than cap plus rate times the elapsed time
   into the window that starts with call j.
   */
  ghost predicate WindowFull(rate: Rate, cap: real, l: Level, times: seq<real>, j: nat, now: real)
    requires j < |times|
  {
    AdmittedSince(rate, cap, l, times, j) as real + 1.0 > cap + Accrued(rate, LevelAfter(rate, cap, l, times[..j + 1]).last, now)
  }

  /** Admitting one more call at time now would exceed the initial level plus everything earned since. */
  ghost predicate StartFull(rate: Rate, cap: real, l: Level, times: seq<real>, now: real) {
    Admitted(rate, cap, l, times) as real + 1.0 > l.avail + Accrued(rate, l.last, now)
  }

  /** What the window that starts with call j would still admit if it were the only constraint. */
  ghost function WindowSlack(rate: Rate, cap: real, l: Level, times: seq<real>, j: nat): real
    requires j < |times|
  {
    cap + Earned(rate, cap, l, times) - Earned(rate, cap, l, times[..j + 1]) - AdmittedSince(rate, cap, l, times, j) as real
  }

  ghost function StartSlack(rate: Rate, cap: real, l: Level, times: seq<real>): real {
    l.avail + Earned(rate, cap, l, times) - Admitted(rate, cap, l, times) as real
  }

  ghost function Took(rate: Rate, cap: real, l: Level, now: real): real {
    if Admits(rate, cap, l, now) then 1.0 else 0.0
  }

  /** One more call moves every slack by what was earned and taken, and opens a window of its own. */
  lemma SlackStep(rate: Rate, cap: real, l: Level, times: seq<real>, j: nat)
    requires j < |times|
    ensures var n := |times| - 1;
            var before := times[..n];
            var mid := LevelAfter(rate, cap, l, before);
            var took := Took(rate, cap, mid, times[n]);
            WindowSlack(rate, cap, l, times, j)
            == if j == n then cap - took else WindowSlack(rate, cap, l, before, j) + Gain(rate, mid.last, times[n]) - took
  {
    var n := |times| - 1;
    if j == n {
      assert times[..n + 1] == times;
    } else {
      assert times[..j + 1] == times[..n][..j + 1] && times[..j] == times[..n][..j];
    }
  }

  ghost predicate AtLeastSlack(rate: Rate, cap: real, l: Level, times: seq<real>, avail: real) {
    avail == StartSlack(rate, cap, l, times) || exists j: nat :: j < |times| && avail == WindowSlack(rate, cap, l, times, j)
  }

  /** The level is the smallest slack over every window ending now and over the whole history. */
  lemma {:induction false} LevelIsLeastSlack(rate: Rate, cap: real, l: Level, times: seq<real>)
    requires cap >= 1.0 && Sound(cap, l)
    ensures var avail := LevelAfter(rate, cap, l, times).avail;
            && avail <= StartSlack(rate, cap, l, times)
            && (forall j: nat | j < |times| :: avail <= WindowSlack(rate, cap, l, times, j))
            && AtLeastSlack(rate, cap, l, times, avail)
  {
    if times != [] {
      var n := |times| - 1;
      var before, now := times[..n], times[n];
      LevelIsLeastSlack(rate, cap, l, before);
      EarnedBound(rate, cap, l, before);
      var mid := LevelAfter(rate, cap, l, before);
      var avail := LevelAfter(rate, cap, l, times).avail;
      forall j: nat | j < |times| ensures avail <= WindowSlack(rate, cap, l, times, j) {
        SlackStep(rate, cap, l, times, j);
      }
      if mid.avail + Gain(rate, mid.last, now) > cap {
        SlackStep(rate, cap, l, times, n);
        assert avail == WindowSlack(rate, cap, l, times, n);
      } else if j: nat :| j < n && mid.avail == WindowSlack(rate, cap, l, before, j) {
        SlackStep(rate, cap, l, times, j);
        assert avail == WindowSlack(rate, cap, l, times, j);
      }
    }
  }

  lemma WindowFullBySlack(rate: Rate, cap: real, l: Level, times: seq<real>, j: nat, now: real)
    requires j < |times| && now >= LevelAfter(rate, cap, l, times).last
    ensures WindowFull(rate, cap, l, times, j, now)
       <==> WindowSlack(rate, cap, l, times, j) + Gain(rate, LevelAfter(rate, cap, l, times).last, now) < 1.0
  {
    var start, at, end := l.last, LevelAfter(rate, cap, l, times[..j + 1]).last, LevelAfter(rate, cap, l, times).last;
    EarnedIsElapsed(rate, cap, l, times);
    EarnedIsElapsed(rate, cap, l, times[..j + 1]);
    AccruedAdds(rate, start, at, now);
    AccruedAdds(rate, start, end, now);
    GainIsAccrued(rate, end, now);
    var earned, earnedAt := Accrued(rate, start, end), Accrued(rate, start, at);
    assert Accrued(rate, at, now) == earned - earnedAt + Gain(rate, end, now);
  }

  lemma GainIsAccrued(rate: Rate, last: real, now: real)
    requires now >= last
    ensures Gain(rate, last, now) == Accrued(rate, last, now)
  {
  }

  lemma StartFullBySlack(rate: Rate, cap: real, l: Level, times: seq<real>, now: real)
    requires now >= LevelAfter(rate, cap, l, times).last
    ensures StartFull(rate, cap, l, times, now)
       <==> StartSlack(rate, cap, l, times) + Gain(rate, LevelAfter(rate, cap, l, times).last, now) < 1.0
  {
    var end := LevelAfter(rate, cap, l, times).last;
    EarnedIsElapsed(rate, cap, l, times);
    AccruedAdds(rate, l.last, end, now);
    GainIsAccrued(rate, end, now);
  }

  /**
   The bucket denies no call it could have admitted: a call is denied exactly when admitting it
   would break the rate bound of some window of calls ending with it, or of the whole history.
   */
  lemma DeniedExactlyWhenBoundWouldBreak(rate: Rate, cap: real, l: Level, times: seq<real>, now: real)
    requires cap >= 1.0 && Sound(cap, l)
    requires now >= LevelAfter(rate, cap, l, times).last
    ensures !Admits(rate, cap, LevelAfter(rate, cap, l, times), now)
       <==> StartFull(rate, cap, l, times, now) || exists j: nat :: j < |times| && WindowFull(rate, cap, l, times, j, now)
  {
    LevelIsLeastSlack(rate, cap, l, times);
    EarnedBound(rate, cap, l, times);
    StartFullBySlack(rate, cap, l, times, now);
    forall j: nat | j < |times|
      ensures WindowFull(rate, cap, l, times, j, now)
         <==> WindowSlack(rate, cap, l, times, j) + Gain(rate, LevelAfter(rate, cap, l, times).last, now) < 1.0
    {
      WindowFullBySlack(rate, cap, l, times, j, now);
    }
  }

  // ----- one concurrency bound -----

  class Concurrency {
    const limit: nat   // 0: unbounded
    var held: nat

    ghost predicate Valid()
      reads this
    {
      limit > 0 ==> held <= limit
    }

    constructor (limit: int)
      ensures Valid() && this.limit == Max(limit, 0) && held == 0
    {
      this.limit := Max(limit, 0);
      this.held := 0;
    }

    /** Takes a slot without waiting; refused exactly when a bounded key has every slot held. */
    method Acquire() returns (ok: bool)
      requires Valid()
      modifies this`held
      ensures Valid()
      ensures ok <==> limit == 0 || old(held) < limit
      ensures held == old(held) + if ok && limit > 0 then 1 else 0
    {
      if limit == 0 {
        return true;
      }
      if held < limit {
        held := held + 1;
        return true;
      }
      return false;
    }

    /** The release closure Acquire returned. */
    method Release()
      requires Valid() && (limit > 0 ==> held > 0)
      modifies this`held
      ensures Valid() && held == old(held) - if limit > 0 then 1 else 0
    {
      if limit > 0 {
        held := held - 1;
      }
    }
  }

  // ----- the registry and its reloads -----

  datatype KeyState = KeyState(bucket: Bucket?, concur: Concurrency)

  /** The admission limits of one key record. */
  datatype Limits = Limits(rps: real, burst: int, concurrent: int)

  function DerivedBurst(rps: real, burst: int): int {
    if burst < 1 then Max(rps.Floor, 1) else burst
  }

  /** A burst that is set stands; otherwise it is the rate's whole part, and at least one. */
  lemma DerivedBurstIs(rps: real, burst: int)
    ensures burst >= 1 ==> DerivedBurst(rps, burst) == burst
    ensures burst <= 0 && rps < 2.0 ==> DerivedBurst(rps, burst) == 1
    ensures burst <= 0 && rps >= 1.0 ==> DerivedBurst(rps, burst) as real <= rps < DerivedBurst(rps, burst) as real + 1.0
  {
  }

  /** What a registry holds at one moment. Objects are compared by identity. */
  datatype View = View(keys: map<string, KeyState>, carry: map<string, Bucket>, carryConc: map<string, Concurrency>)

  /** Carried buckets, where a key's materialised state supersedes them, even when it has no bucket. */
  function SupersededBuckets(carry: map<string, Bucket>, keys: map<string, KeyState>): map<string, Bucket> {
    map id | id in carry.Keys + keys.Keys && (id in keys ==> keys[id].bucket != null)
      :: if id in keys then keys[id].bucket else carry[id]
  }

  function SupersededConcs(carry: map<string, Concurrency>, keys: map<string, KeyState>): map<string, Concurrency> {
    map id | id in carry.Keys + keys.Keys :: if id in keys then keys[id].concur else carry[id]
  }

  /** NewRegistryCarrying: nothing is materialised yet, and only state of kept keys is carried. */
  function Reloaded(v: View, keep: string -> bool): View {
    var buckets, concs := SupersededBuckets(v.carry, v.keys), SupersededConcs(v.carryConc, v.keys);
    View(map[], map id | id in buckets && keep(id) :: buckets[id], map id | id in concs && keep(id) :: concs[id])
  }

  /** The bound a new key state may reuse. */
  predicate ReusesConc(v: View, id: string, l: Limits) {
    id in v.carryConc && v.carryConc[id].limit == Max(l.concurrent, 0)
  }

  predicate ReusesBucket(v: View, id: string, l: Limits) {
    id in v.carry && v.carry[id].Matches(l.rps, DerivedBurst(l.rps, l.burst))
  }

  /** For: v becomes v' and ks is handed out; objects that are not reused are new ones with l's limits. */
  predicate Materialises(v: View, id: string, l: Limits, ks: KeyState, v': View) {
    && v' == v.(keys := v.keys[id := ks])
    && if id in v.keys then ks == v.keys[id]
       else
         && (if ReusesConc(v, id, l) then ks.concur == v.carryConc[id] else ks.concur.limit == Max(l.concurrent, 0))
         && (if ReusesBucket(v, id, l) then ks.bucket == v.carry[id]
             else if l.rps > 0.0 then ks.bucket != null && ks.bucket.Matches(l.rps, DerivedBurst(l.rps, l.burst))
             else ks.bucket == null)
  }

  /** delete(m, id). */
  function Without<T>(m: map<string, T>, id: string): (r: map<string, T>)
    ensures forall x :: x in r <==> x in m && x != id
    ensures forall x :: x in r ==> r[x] == m[x]
  {
    map other | other in m && other != id :: m[other]
  }

  /** The copy loop has handled every materialised key outside todo. */
  ghost predicate CopiedBuckets(buckets: map<string, Bucket>, carry: map<string, Bucket>, keys: map<string, KeyState>, todo: set<string>) {
    forall id :: if id in keys && id !in todo
                 then (id in buckets <==> keys[id].bucket != null) && (id in buckets ==> buckets[id] == keys[id].bucket)
                 else (id in buckets <==> id in carry) && (id in buckets ==> buckets[id] == carry[id])
  }

  ghost predicate CopiedConcs(concs: map<string, Concurrency>, carry: map<string, Concurrency>, keys: map<string, KeyState>, todo: set<string>) {
    forall id :: if id in keys && id !in todo
                 then id in concs && concs[id] == keys[id].concur
                 else (id in concs <==> id in carry) && (id in concs ==> concs[id] == carry[id])
  }

  lemma CopyBucket(buckets: map<string, Bucket>, carry: map<string, Bucket>, keys: map<string, KeyState>, todo: set<string>, id: string)
    requires CopiedBuckets(buckets, carry, keys, todo) && id in todo && id in keys
    ensures keys[id].bucket == null ==> CopiedBuckets(Without(buckets, id), carry, keys, todo - {id})
    ensures keys[id].bucket != null ==> CopiedBuckets(Without(buckets, id)[id := keys[id].bucket], carry, keys, todo - {id})
  {
  }

  lemma CopyConc(concs: map<string, Concurrency>, carry: map<string, Concurrency>, keys: map<string, KeyState>, todo: set<string>, id: string)
    requires CopiedConcs(concs, carry, keys, todo) && id in todo && id in keys
    ensures CopiedConcs(Without(concs, id)[id := keys[id].concur], carry, keys, todo - {id})
  {
  }

  lemma CopiedAll(buckets: map<string, Bucket>, concs: map<string, Concurrency>,
                  carry: map<string, Bucket>, carryConc: map<string, Concurrency>, keys: map<string, KeyState>)
    requires CopiedBuckets(buckets, carry, keys, {}) && CopiedConcs(concs, carryConc, keys, {})
    ensures buckets == SupersededBuckets(carry, keys) && concs == SupersededConcs(carryConc, keys)
  {
  }

  /** The copy loop over the previous generation's materialised keys. */
  method CopyState(carry: map<string, Bucket>, carryConc: map<string, Concurrency>, keys: map<string, KeyState>)
    returns (buckets: map<string, Bucket>, concs: map<string, Concurrency>)
    ensures buckets == SupersededBuckets(carry, keys) && concs == SupersededConcs(carryConc, keys)
  {
    buckets, concs := carry, carryConc;
    var todo := keys.Keys;
    while todo != {}
      invariant CopiedBuckets(buckets, carry, keys, todo) && CopiedConcs(concs, carryConc, keys, todo)
      invariant todo <= keys.Keys
      decreases |todo|
    {
      var id :| id in todo;
      var ks := keys[id];
      CopyBucket(buckets, carry, keys, todo, id);
      CopyConc(concs, carryConc, keys, todo, id);
      buckets, concs := Without(buckets, id), Without(concs, id);
      if ks.bucket != null {
        buckets := buckets[id := ks.bucket];
      }
      concs := concs[id := ks.concur];
      todo := todo - {id};
    }
    CopiedAll(buckets, concs, carry, carryConc, keys);
  }

  class Registry {
    var keys: map<string, KeyState>
    const carry: map<string, Bucket>
    const carryConc: map<string, Concurrency>

    function AsView(): View
      reads this
    {
      View(keys, carry, carryConc)
    }

    constructor Empty()
      ensures AsView() == View(map[], map[], map[])
    {
      keys, carry, carryConc := map[], map[], map[];
    }

    /** The next generation of prev; prev itself is left alone and not referenced. */
    constructor Carrying(prev: Registry, keep: string -> bool)
      ensures AsView() == Reloaded(prev.AsView(), keep)
    {
      var buckets, concs := CopyState(prev.carry, prev.carryConc, prev.keys);
      keys := map[];
      carry := map id | id in buckets && keep(id) :: buckets[id];
      carryConc := map id | id in concs && keep(id) :: concs[id];
    }

    /** The limit state of a key, created on first use. */
    method For(id: string, l: Limits) returns (ks: KeyState)
      modifies this`keys
      ensures Materialises(old(AsView()), id, l, ks, AsView())
      ensures id !in old(keys) && !ReusesConc(old(AsView()), id, l) ==> fresh(ks.concur) && ks.concur.held == 0
      ensures id !in old(keys) && !ReusesBucket(old(AsView()), id, l) && ks.bucket != null ==> fresh(ks.bucket) && ks.bucket.View() == Level(0.0, 0.0)
    {
      if id in keys {
        ks := keys[id];
        assert keys[id := ks] == keys;
        return;
      }
      var conc: Concurrency;
      if id in carryConc && carryConc[id].limit == Max(l.concurrent, 0) {
        conc := carryConc[id];
      } else {
        conc := new Concurrency(l.concurrent);
      }
      ks := KeyState(null, conc);
      if l.rps > 0.0 {
        var b := NewBucket(l.rps, DerivedBurst(l.rps, l.burst));
        ks := KeyState(b, conc);
      }
      if id in carry && carry[id].Matches(l.rps, DerivedBurst(l.rps, l.burst)) {
        ks := ks.(bucket := carry[id]);
      }
      keys := keys[id := ks];
    }
  }

  // ----- any chain of reloads -----

  /** A generation that will hand out exactly ks for key id with limits l, now or on first use. */
  predicate Promises(v: View, id: string, l: Limits, ks: KeyState) {
    && ks.concur.limit == Max(l.concurrent, 0)
    && (ks.bucket == null <==> l.rps <= 0.0)
    && (ks.bucket != null ==> ks.bucket.Matches(l.rps, DerivedBurst(l.rps, l.burst)))
    && if id in v.keys then v.keys[id] == ks
       else
         && id in v.carryConc && v.carryConc[id] == ks.concur
         && (ks.bucket != null ==> id in v.carry && v.carry[id] == ks.bucket)
  }

  lemma MaterialisingKeepsPromise(v: View, id: string, l: Limits, ks: KeyState, v': View, id': string, l': Limits, ks': KeyState)
    requires Promises(v, id, l, ks) && Materialises(v, id', l', ks', v') && (id' == id ==> l' == l)
    ensures Promises(v', id, l, ks)
    ensures id' == id ==> ks' == ks
  {
  }

  /** A reload carries the state of the keys it keeps, and of no others. */
  lemma ReloadKeepsPromise(v: View, id: string, l: Limits, ks: KeyState, keep: string -> bool)
    ensures Promises(v, id, l, ks) && keep(id) ==> Promises(Reloaded(v, keep), id, l, ks)
    ensures forall k :: k in Reloaded(v, keep).carry || k in Reloaded(v, keep).carryConc ==> keep(k)
  {
  }

  /** The first request of a key is what later generations are bound to. */
  lemma FirstRequestPromises(v: View, id: string, l: Limits, ks: KeyState, v': View)
    requires id !in v.keys && Materialises(v, id, l, ks, v')
    ensures Promises(v', id, l, ks)
  {
  }
}

/** The bounded pre-authentication limiter: one bucket a source address, with a capped table. */
module SourceLimiter {
  import opened Limiter
  import opened Sums

  const EVICT_PROBE_BUDGET: nat := 64

  datatype Source = Source(level: Level, last: real)

  /** A possible iteration order of a Go map: every key once. */
  ghost predicate IsOrder<V>(order: seq<string>, m: map<string, V>) {
    && (forall k :: k in order <==> k in m)
    && (forall i, j :: 0 <= i < j < |order| ==> order[i] != order[j])
    && |order| == |m|
  }

  function Probed(order: seq<string>): seq<string> {
    if |order| <= EVICT_PROBE_BUDGET then order else order[..EVICT_PROBE_BUDGET]
  }

  /** The least recently touched of the probed sources, which are all of them in a table of at most 64. */
  ghost predicate IsVictim(m: map<string, Source>, order: seq<string>, victim: string)
    requires IsOrder(order, m)
  {
    && victim in m
    && (forall k :: k in Probed(order) ==> m[victim].last <= m[k].last)
    && (|m| <= EVICT_PROBE_BUDGET ==> forall k :: k in m ==> m[victim].last <= m[k].last)
  }

  /** The probed source at a position no probed source was touched before. */
  lemma OldestProbed(m: map<string, Source>, order: seq<string>, at: nat)
    requires IsOrder(order, m) && at < |Probed(order)|
    requires forall j :: 0 <= j < |Probed(order)| ==> m[order[at]].last <= m[order[j]].last
    ensures order[at] in Probed(order) && order[at] in m
    ensures forall k :: k in Probed(order) ==> m[order[at]].last <= m[k].last
  {
    assert Probed(order)[at] == order[at];
    forall k | k in Probed(order) ensures m[order[at]].last <= m[k].last {
      var j :| 0 <= j < |Probed(order)| && Probed(order)[j] == k;
      assert order[j] == k;
    }
  }

  // ----- what a call does, and what any number of calls admit -----

  datatype Call = Call(ip: string, now: real, ok: bool)

  /** A source outside the table starts over: an empty bucket that was last refilled at time zero. */
  function LevelIn(m: map<string, Source>, ip: string): Level {
    if ip in m then m[ip].level else Level(0.0, 0.0)
  }

  /** m without its victim, when the new source ip finds it full. */
  ghost predicate MakesRoom(cap: nat, m: map<string, Source>, ip: string, m': map<string, Source>) {
    if ip in m || |m| < cap then m' == m
    else exists order, victim :: IsOrder(order, m) && IsVictim(m, order, victim) && m' == m - {victim}
  }

  ghost predicate Allowed(rate: Rate, burst: int, cap: nat, m: map<string, Source>, c: Call, m': map<string, Source>) {
    c.ok == Admits(rate, burst as real, LevelIn(m, c.ip), c.now) && exists room :: AllowedWith(rate, burst, cap, m, room, c, m')
  }

  ghost predicate AllowedWith(rate: Rate, burst: int, cap: nat, m: map<string, Source>, room: map<string, Source>, c: Call, m': map<string, Source>) {
    && MakesRoom(cap, m, c.ip, room)
    && m' == room[c.ip := Source(Called(rate, burst as real, LevelIn(m, c.ip), c.now), c.now)]
  }

  lemma RoomThenAllowed(rate: Rate, burst: int, cap: nat, m: map<string, Source>, room: map<string, Source>, ip: string, now: real, ok: bool, m': map<string, Source>)
    requires MakesRoom(cap, m, ip, room) && ok == Admits(rate, burst as real, LevelIn(m, ip), now)
    requires m' == room[ip := Source(Called(rate, burst as real, LevelIn(m, ip), now), now)]
    ensures Allowed(rate, burst, cap, m, Call(ip, now, ok), m') && m'.Keys == room.Keys + {ip}
  {
    assert AllowedWith(rate, burst, cap, m, room, Call(ip, now, ok), m');
  }

  /** Calls for any sources at any times, from an empty table. */
  ghost predicate IsRun(rate: Rate, burst: int, cap: nat, tables: seq<map<string, Source>>, calls: seq<Call>) {
    && |tables| == |calls| + 1 && tables[0] == map[]
    && forall n :: 0 <= n < |calls| ==> Allowed(rate, burst, cap, tables[n], calls[n], tables[n + 1])
  }

  /** From table k on, no call evicts the source. */
  ghost predicate Stays(tables: seq<map<string, Source>>, ip: string, k: nat) {
    forall n :: k <= n < |tables| - 1 && ip in tables[n] ==> ip in tables[n + 1]
  }

  ghost function Passes(ip: string): Call -> int {
    (c: Call) => if c.ip == ip && c.ok then 1 else 0
  }

  ghost predicate AllSound(burst: int, m: map<string, Source>) {
    forall ip :: ip in m ==> Sound(burst as real, m[ip].level)
  }

  lemma {:induction false} TablesAreSound(rate: Rate, burst: int, cap: nat, tables: seq<map<string, Source>>, calls: seq<Call>, k: nat)
    requires burst >= 1 && IsRun(rate, burst, cap, tables, calls) && k < |tables|
    ensures AllSound(burst, tables[k])
  {
    if k > 0 {
      TablesAreSound(rate, burst, cap, tables, calls, k - 1);
      assert Allowed(rate, burst, cap, tables[k - 1], calls[k - 1], tables[k]);
    }
  }

  /** A call leaves another source's bucket alone, or evicts it. */
  lemma OtherSource(rate: Rate, burst: int, cap: nat, m: map<string, Source>, c: Call, m': map<string, Source>, ip: string)
    requires Allowed(rate, burst, cap, m, c, m') && (ip in m ==> ip in m')
    ensures LevelIn(m', ip) == if c.ip == ip then Called(rate, burst as real, LevelIn(m, ip), c.now) else LevelIn(m, ip)
  {
  }

  /** What one call for any source does to the level of this one. */
  ghost predicate CallMoves(rate: Rate, cap: real, ip: string, l: Level, c: Call, l': Level) {
    if c.ip == ip then c.ok == Admits(rate, cap, l, c.now) && l' == Called(rate, cap, l, c.now) else l' == l
  }

  ghost predicate Follows(rate: Rate, cap: real, ip: string, levels: seq<Level>, calls: seq<Call>) {
    && |levels| == |calls| + 1
    && forall n :: 0 <= n < |calls| ==> CallMoves(rate, cap, ip, levels[n], calls[n], levels[n + 1])
  }

  lemma CallMovesWithinBound(rate: Rate, cap: real, ip: string, start: Level, passed: int, l: Level, c: Call, l': Level)
    requires cap >= 1.0 && WithinBound(rate, cap, start, passed, l) && CallMoves(rate, cap, ip, l, c, l')
    ensures WithinBound(rate, cap, start, passed + Passes(ip)(c), l')
  {
    if c.ip == ip {
      CallStaysWithinBound(rate, cap, start, passed, l, c.now);
    }
  }

  lemma {:induction false} FollowsWithinBound(rate: Rate, cap: real, ip: string, levels: seq<Level>, calls: seq<Call>)
    requires cap >= 1.0 && Follows(rate, cap, ip, levels, calls) && Sound(cap, levels[0])
    ensures WithinBound(rate, cap, levels[0], Total(calls, Passes(ip)), levels[|calls|])
  {
    if calls == [] {
      StartsWithinBound(rate, cap, levels[0]);
    } else {
      var n := |calls| - 1;
      FollowsWithinBound(rate, cap, ip, levels[..n + 1], calls[..n]);
      CallMovesWithinBound(rate, cap, ip, levels[0], Total(calls[..n], Passes(ip)), levels[n], calls[n], levels[n + 1]);
    }
  }

  ghost function LevelsFrom(tables: seq<map<string, Source>>, ip: string, k: nat): (levels: seq<Level>)
    requires k <= |tables|
    ensures |levels| == |tables| - k && forall n :: 0 <= n < |levels| ==> levels[n] == LevelIn(tables[k + n], ip)
  {
    seq(|tables| - k, n requires 0 <= n < |tables| - k => LevelIn(tables[k + n], ip))
  }

  lemma LevelsFollow(rate: Rate, burst: int, cap: nat, tables: seq<map<string, Source>>, calls: seq<Call>, ip: string, k: nat)
    requires IsRun(rate, burst, cap, tables, calls) && k <= |calls| && Stays(tables, ip, k)
    ensures Follows(rate, burst as real, ip, LevelsFrom(tables, ip, k), calls[k..])
  {
    var levels := LevelsFrom(tables, ip, k);
    forall n | 0 <= n < |calls| - k ensures CallMoves(rate, burst as real, ip, levels[n], calls[k..][n], levels[n + 1]) {
      CallInRun(rate, burst, cap, tables, calls, ip, k, k + n);
    }
  }

  lemma CallInRun(rate: Rate, burst: int, cap: nat, tables: seq<map<string, Source>>, calls: seq<Call>, ip: string, k: nat, n: nat)
    requires IsRun(rate, burst, cap, tables, calls) && k <= n < |calls| && Stays(tables, ip, k)
    ensures CallMoves(rate, burst as real, ip, LevelIn(tables[n], ip), calls[n], LevelIn(tables[n + 1], ip))
  {
    assert Allowed(rate, burst, cap, tables[n], calls[n], tables[n + 1]);
    OtherSource(rate, burst, cap, tables[n], calls[n], tables[n + 1], ip);
  }

  /**
   A source that is not evicted between two moments is admitted, between them, no more often than
   its burst plus the rate times the time its bucket's clock advanced, whatever the calls for other
   sources do to the table, and whatever the timestamps are.
   */
  lemma SourceRateBound(rate: Rate, burst: int, cap: nat, tables: seq<map<string, Source>>, calls: seq<Call>, ip: string, k: nat)
    requires burst >= 1 && IsRun(rate, burst, cap, tables, calls) && k <= |calls| && Stays(tables, ip, k)
    ensures var start, end := LevelIn(tables[k], ip), LevelIn(tables[|calls|], ip);
            && end.last >= start.last
            && Total(calls[k..], Passes(ip)) as real + end.avail <= start.avail + Accrued(rate, start.last, end.last)
            && Total(calls[k..], Passes(ip)) as real <= burst as real + Accrued(rate, start.last, end.last)
  {
    TablesAreSound(rate, burst, cap, tables, calls, k);
    var levels := LevelsFrom(tables, ip, k);
    LevelsFollow(rate, burst, cap, tables, calls, ip, k);
    assert levels[0] == LevelIn(tables[k], ip) && levels[|calls[k..]|] == LevelIn(tables[|calls|], ip);
    FollowsWithinBound(rate, burst as real, ip, levels, calls[k..]);
  }

  class SourceRegistry {
    const cap: nat
    const rate: Rate
    const burst: int
    var srcs: map<string, Source>

    ghost predicate Valid()
      reads this
    {
      1 <= cap && 1 <= burst && |srcs| <= cap
    }

    constructor (rate: Rate, burst: int, cap: int)
      ensures Valid() && srcs == map[]
      ensures this.rate == rate && this.burst == Max(burst, 1) && this.cap == Max(cap, 1)
    {
      this.rate, this.burst, this.cap := rate, Max(burst, 1), Max(cap, 1);
      this.srcs := map[];
    }

    /** Drops the least recently touched of the probed sources, the earliest probed one on a tie. */
    method EvictOldest(order: seq<string>) returns (victim: string)
      requires srcs != map[] && IsOrder(order, srcs)
      modifies this`srcs
      ensures victim in Probed(order) && srcs == old(srcs) - {victim} && |srcs| == |old(srcs)| - 1
      ensures forall k :: k in Probed(order) ==> old(srcs)[victim].last <= old(srcs)[k].last
    {
      assert |order| > 0;
      victim := order[0];
      ghost var at := 0;
      var oldestTime := srcs[victim].last;
      var probed := 0;
      while probed < |order| && probed < EVICT_PROBE_BUDGET
        invariant 0 <= probed <= |Probed(order)| && 0 <= at < |Probed(order)|
        invariant victim == order[at] && oldestTime == srcs[victim].last
        invariant forall j :: 0 <= j < probed ==> oldestTime <= srcs[order[j]].last
        decreases |order| - probed
      {
        var ip := order[probed];
        if srcs[ip].last < oldestTime {
          victim, oldestTime, at := ip, srcs[ip].last, probed;
        }
        probed := probed + 1;
      }
      OldestProbed(srcs, order, at);
      srcs := srcs - {victim};
      assert old(srcs).Keys == srcs.Keys + {victim};
    }

    /** EvictOldest with what it means for a small table. */
    method Evict(order: seq<string>) returns (victim: string)
      requires srcs != map[] && IsOrder(order, srcs)
      modifies this`srcs
      ensures IsVictim(old(srcs), order, victim) && srcs == old(srcs) - {victim} && |srcs| == |old(srcs)| - 1
    {
      victim := EvictOldest(order);
    }

    /** The level of a source, making room for it when it is new and the table is full. */
    method Lookup(ip: string, order: seq<string>) returns (level: Level, victim: string)
      requires Valid() && IsOrder(order, srcs)
      modifies this`srcs
      ensures level == LevelIn(old(srcs), ip)
      ensures ip in old(srcs) || |old(srcs)| < cap ==> srcs == old(srcs)
      ensures MakesRoom(cap, old(srcs), ip, srcs)
      ensures ip in srcs || |srcs| < cap
      ensures ip !in old(srcs) && |old(srcs)| == cap ==>
                && srcs == old(srcs) - {victim}
                && IsVictim(old(srcs), order, victim)
      ensures |srcs| <= cap
    {
      victim := "";
      level := Level(0.0, 0.0);
      if ip in srcs {
        level := srcs[ip].level;
      } else if |srcs| >= cap {
        assert srcs != map[];
        victim := Evict(order);
      }
    }

    /** One pre-authentication token for a source; order is the map order an eviction would see. */
    method Allow(ip: string, now: real, order: seq<string>) returns (ok: bool, victim: string)
      requires Valid() && IsOrder(order, srcs)
      modifies this`srcs
      ensures Valid()
      ensures Allowed(rate, burst, cap, old(srcs), Call(ip, now, ok), srcs)
      ensures ip in srcs && srcs[ip] == Source(Called(rate, burst as real, LevelIn(old(srcs), ip), now), now)
      ensures ip in old(srcs) || |old(srcs)| < cap ==> srcs == old(srcs)[ip := srcs[ip]]
      ensures ip !in old(srcs) && |old(srcs)| == cap ==>
                && srcs == (old(srcs) - {victim})[ip := srcs[ip]]
                && IsVictim(old(srcs), order, victim)
    {
      var level;
      level, victim := Lookup(ip, order);
      ok := Admits(rate, burst as real, level, now);
      ghost var before := srcs;
      srcs := srcs[ip := Source(Called(rate, burst as real, level, now), now)];
      RoomThenAllowed(rate, burst, cap, old(srcs), before, ip, now, ok, srcs);
    }
  }
}
