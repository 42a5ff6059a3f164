/** Choosing one backend for one attempt: eligibility, the five strategies, and passive health. */
module Routing {
  import S = SmoothRoundRobin

  const TWO_64: nat := 0x1_0000_0000_0000_0000

  // Passive-health timing, in nanoseconds.
  const HEALTH_BASE_COOLDOWN: nat := 5_000_000_000
  const HEALTH_MAX_COOLDOWN: nat := 60_000_000_000
  const HEALTH_SHIFT_CAP: nat := 16

  datatype Replica = Replica(name: string, upstream: string, weight: int)
  datatype Strategy = Single | RoundRobin | WeightedRoundRobin | LeastInflight | WeightedLeastInflight | Other(name: string)
  datatype ModelEntry = ModelEntry(typ: string, strategy: Strategy, replicas: seq<Replica>)
  datatype HealthState = HealthState(until: int, streak: nat)
  type Health = map<string, HealthState>

  datatype Selection =
    | UnknownModel
    | NoEligibleBackend
    | Unimplemented(strategy: string)
    | Target(model: string, backend: string, upstream: string, typ: string)

  // ----- eligibility -----

  predicate Unavailable(h: Health, name: string, now: int) {
    name in h && h[name].until > now
  }

  predicate Eligible(r: Replica, exclude: seq<string>, h: Health, now: int) {
    r.name !in exclude && !Unavailable(h, r.name, now)
  }

  predicate ValidEntry(e: ModelEntry) {
    e.replicas != [] && forall i :: 0 <= i < |e.replicas| ==> e.replicas[i].weight >= 1
  }

  function Weights(replicas: seq<Replica>): (w: seq<int>)
    ensures |w| == |replicas|
  {
    seq(|replicas|, i requires 0 <= i < |replicas| => replicas[i].weight)
  }

  /** now(i) is the clock when position i is looked at. cands lists exactly the positions of the eligible replicas, in order. */
  predicate IsCandidateList(replicas: seq<Replica>, exclude: seq<string>, h: Health, now: nat -> int, cands: seq<nat>) {
    && S.Within(cands, |replicas|) && S.Increasing(cands)
    && forall i :: 0 <= i < |replicas| ==> (i in cands <==> Eligible(replicas[i], exclude, h, now(i)))
  }

  ghost predicate NoneEligible(replicas: seq<Replica>, exclude: seq<string>, h: Health, now: nat -> int) {
    forall i :: 0 <= i < |replicas| ==> !Eligible(replicas[i], exclude, h, now(i))
  }

  // ----- what each strategy promises of its pick -----

  /** The replica position k steps after start on a ring of n. */
  function At(n: nat, start: nat, k: nat): nat
    requires start < n && k < n
  {
    if start + k < n then start + k else start + k - n
  }

  /** pick is the first candidate met when walking the replica ring from start. */
  ghost predicate FirstOnRing(n: nat, cands: seq<nat>, start: nat, pick: nat)
    requires start < n
  {
    exists k: nat :: k < n && pick == At(n, start, k) && pick in cands
                     && forall j: nat :: j < k ==> At(n, start, j) !in cands
  }

  /** pick has the smallest value, at the earliest position on a tie. */
  predicate FirstLeast(cands: seq<nat>, value: nat -> real, pick: nat) {
    && pick in cands
    && (forall k :: 0 <= k < |cands| ==> value(pick) <= value(cands[k]))
    && (forall k :: 0 <= k < |cands| && cands[k] < pick ==> value(pick) < value(cands[k]))
  }

  /** What the inflight callback reports: read(k, i) for the replica at position i when candidate k is compared. */
  type Reading = (nat, nat) -> int

  /** The numbers do not change while the candidates are compared. */
  ghost predicate Stable(read: Reading) {
    forall k: nat, i: nat :: read(k, i) == read(0, i)
  }

  function Load(read: Reading, k: nat): nat -> real {
    (i: nat) => read(k, i) as real
  }

  /** The weighted least-inflight score, (inflight + 1) / weight; each position is read once. */
  function WeightedLoad(replicas: seq<Replica>, read: Reading): nat -> real {
    (i: nat) => if i < |replicas| && replicas[i].weight >= 1 then (read(0, i) + 1) as real / replicas[i].weight as real else 0.0
  }

  function Counter(rr: map<string, nat>, model: string): nat {
    if model in rr then rr[model] else 0
  }

  function Current(wrr: map<string, seq<int>>, model: string, n: nat): (c: seq<int>)
    ensures |c| == n
  {
    if model in wrr && |wrr[model]| == n then wrr[model] else seq(n, _ => 0)
  }

  /** What a selection with these exclusions may answer: pick is the position of the target's replica. */
  ghost predicate Answers(models: map<string, ModelEntry>, health: Health, model: string, exclude: seq<string>, now: nat -> int, r: Selection, pick: nat) {
    && (r.UnknownModel? <==> model !in models)
    && (model in models ==> (r.NoEligibleBackend? <==> NoneEligible(models[model].replicas, exclude, health, now)))
    && (r.Unimplemented? <==>
          model in models && models[model].strategy.Other? && !NoneEligible(models[model].replicas, exclude, health, now))
    && (r.Unimplemented? ==> models[model].strategy == Other(r.strategy))
    && (r.Target? ==>
          && model in models && pick < |models[model].replicas|
          && Eligible(models[model].replicas[pick], exclude, health, now(pick))
          && r == Target(model, models[model].replicas[pick].name, models[model].replicas[pick].upstream, models[model].typ))
  }

  class Router {
    const models: map<string, ModelEntry>
    var rr: map<string, nat>
    var wrr: map<string, seq<int>>
    var health: Health

    ghost predicate Valid()
      reads this
    {
      forall m :: m in models ==> ValidEntry(models[m])
    }

    constructor (models: map<string, ModelEntry>)
      requires forall m :: m in models ==> ValidEntry(models[m])
      ensures Valid() && this.models == models && rr == map[] && wrr == map[] && health == map[]
    {
      this.models := models;
      rr, wrr, health := map[], map[], map[];
    }

    /** The eligible replica positions. */
    method Candidates(replicas: seq<Replica>, exclude: seq<string>, now: nat -> int) returns (cands: seq<nat>)
      ensures IsCandidateList(replicas, exclude, health, now, cands)
    {
      cands := [];
      for i := 0 to |replicas|
        invariant S.Within(cands, i) && S.Increasing(cands)
        invariant forall j :: 0 <= j < i ==> (j in cands <==> Eligible(replicas[j], exclude, health, now(j)))
      {
        if replicas[i].name in exclude || Unavailable(health, replicas[i].name, now(i)) {
          continue;
        }
        cands := cands + [i];
      }
    }

    /** The round-robin walk over the whole ring. */
    method RingPick(n: nat, cands: seq<nat>, start: nat) returns (pick: nat)
      requires start < n && S.IsCands(cands, n)
      ensures FirstOnRing(n, cands, start, pick) && pick < n
    {
      pick := cands[0];
      ghost var back := if pick >= start then pick - start else pick + n - start;
      assert At(n, start, back) == pick;
      for k := 0 to n
        invariant pick == cands[0]
        invariant forall j: nat :: j < k ==> At(n, start, j) !in cands
      {
        ModWrap(start + k, n);
        if (start + k) % n in cands {
          pick := (start + k) % n;
          assert pick == At(n, start, k);
          return;
        }
      }
      assert false;
    }

    /** The scan for the smallest value. */
    method Least(cands: seq<nat>, value: nat -> real) returns (best: nat)
      requires cands != [] && S.Increasing(cands)
      ensures FirstLeast(cands, value, best)
    {
      best := cands[0];
      for k := 1 to |cands|
        invariant best in cands
        invariant forall j :: 0 <= j < k ==> value(best) <= value(cands[j])
        invariant forall j :: 0 <= j < |cands| && cands[j] < best ==> j < k && value(best) < value(cands[j])
      {
        if value(cands[k]) < value(best) {
          best := cands[k];
        }
      }
    }

    /** The least-inflight scan, which reads both numbers anew at every comparison. */
    method LeastNow(cands: seq<nat>, read: Reading) returns (best: nat)
      requires cands != [] && S.Increasing(cands)
      ensures best in cands && (Stable(read) ==> FirstLeast(cands, Load(read, 0), best))
    {
      best := cands[0];
      for k := 1 to |cands|
        invariant best in cands
        invariant Stable(read) ==> forall j :: 0 <= j < k ==> read(0, best) <= read(0, cands[j])
        invariant Stable(read) ==> forall j :: 0 <= j < |cands| && cands[j] < best ==> j < k && read(0, best) < read(0, cands[j])
      {
        if read(k, cands[k]) < read(k, best) {
          best := cands[k];
        }
      }
    }

    /**
     One selection, with the clock as each replica is looked at and the load as it is read. The target
     is an eligible replica chosen as the model's strategy says; only that strategy's own state moves.
     */
    method Select(model: string, exclude: seq<string>, now: nat -> int, read: Reading) returns (r: Selection, ghost pick: nat)
      requires Valid()
      modifies this`rr, this`wrr
      ensures Valid()
      ensures Answers(models, health, model, exclude, now, r, pick)
      ensures r.Target? ==> Justified(models[model], exclude, health, now, read, pick) && r.backend == models[model].replicas[pick].name
      ensures r.NoEligibleBackend? ==> forall i :: 0 <= i < |models[model].replicas| ==> !Usable(models[model].replicas[i], exclude, health, now(i))
      ensures !r.Target? ==> rr == old(rr) && wrr == old(wrr)
      ensures r.Target? ==>
                var e := models[model];
                exists cands: seq<nat> ::
                  && IsCandidateList(e.replicas, exclude, health, now, cands) && pick in cands
                  && Chosen(e, cands, read, pick, old(rr), rr, old(wrr), wrr, model)
    {
      pick := 0;
      if model !in models {
        return UnknownModel, pick;
      }
      var e := models[model];
      var cands := Candidates(e.replicas, exclude, now);
      if cands == [] {
        return NoEligibleBackend, pick;
      }
      assert cands[0] in cands && Eligible(e.replicas[cands[0]], exclude, health, now(cands[0]));
      var p := cands[0];
      match e.strategy {
        case Single =>
        case RoundRobin =>
          var n := Counter(rr, model);
          rr := rr[model := (n + 1) % TWO_64];
          p := RingPick(|e.replicas|, cands, n % |e.replicas|);
        case WeightedRoundRobin =>
          var st: seq<int>;
          p, st := S.NextWrr(Current(wrr, model, |e.replicas|), Weights(e.replicas), cands);
          wrr := wrr[model := st];
        case LeastInflight =>
          p := LeastNow(cands, read);
        case WeightedLeastInflight =>
          p := Least(cands, WeightedLoad(e.replicas, read));
        case Other(name) =>
          return Unimplemented(name), pick;
      }
      pick := p;
      assert Chosen(e, cands, read, pick, old(rr), rr, old(wrr), wrr, model);
      ChosenIsJustified(e, exclude, health, now, cands, read, pick, old(rr), rr, old(wrr), wrr, model);
      r := Target(model, e.replicas[p].name, e.replicas[p].upstream, e.typ);
    }

    method RecordFailure(name: string, now: int)
      modifies this`health
      ensures health == AfterFailure(old(health), name, now)
    {
      var s := if name in health then health[name] else HealthState(0, 0);
      var streak := s.streak + 1;
      var shift := if streak - 1 <= HEALTH_SHIFT_CAP then streak - 1 else HEALTH_SHIFT_CAP;
      var shifted := HEALTH_BASE_COOLDOWN * Pow2(shift);
      var cooldown := if shifted <= HEALTH_MAX_COOLDOWN then shifted else HEALTH_MAX_COOLDOWN;
      CooldownSchedule(streak);
      health := health[name := HealthState(now + cooldown, streak)];
    }

    method RecordSuccess(name: string)
      modifies this`health
      ensures health == AfterSuccess(old(health), name)
    {
      health := health - {name};
    }
  }

  /** The strategy's rule for its pick and for its own state. */
  ghost predicate Chosen(e: ModelEntry, cands: seq<nat>, read: Reading, pick: nat,
                         rr: map<string, nat>, rr': map<string, nat>,
                         wrr: map<string, seq<int>>, wrr': map<string, seq<int>>, model: string)
    requires ValidEntry(e)
  {
    match e.strategy
    case Single => rr' == rr && wrr' == wrr && pick in cands && forall i :: i in cands ==> pick <= i
    case RoundRobin =>
      && wrr' == wrr && rr' == rr[model := (Counter(rr, model) + 1) % TWO_64]
      && FirstOnRing(|e.replicas|, cands, Counter(rr, model) % |e.replicas|, pick)
    case WeightedRoundRobin =>
      && rr' == rr && model in wrr' && wrr' == wrr[model := wrr'[model]]
      && S.Next(Current(wrr, model, |e.replicas|), Weights(e.replicas), cands, pick, wrr'[model])
    case LeastInflight => rr' == rr && wrr' == wrr && pick in cands && (Stable(read) ==> FirstLeast(cands, Load(read, 0), pick))
    case WeightedLeastInflight => rr' == rr && wrr' == wrr && FirstLeast(cands, WeightedLoad(e.replicas, read), pick)
    case Other(_) => false
  }

  // ----- the picks in plain numbers -----

  /** Not tried before by this request, and not in a cooldown. */
  predicate Usable(r: Replica, exclude: seq<string>, h: Health, now: int) {
    r.name !in exclude && (r.name in h ==> h[r.name].until <= now)
  }

  /** With the load a and weight v, at least as good as load b and weight w: (a + 1) / v <= (b + 1) / w. */
  predicate NoWorse(a: int, v: int, b: int, w: int) {
    (a + 1) * w <= (b + 1) * v
  }

  /**
   The pick is usable, and by the model's strategy: the first usable replica; one whose load, which
   did not change meanwhile, is the smallest; one whose load for its weight is; always the earliest such.
   */
  ghost predicate Justified(e: ModelEntry, exclude: seq<string>, h: Health, now: nat -> int, read: Reading, pick: nat) {
    && pick < |e.replicas| && Usable(e.replicas[pick], exclude, h, now(pick))
    && forall i: nat :: i < |e.replicas| && Usable(e.replicas[i], exclude, h, now(i)) ==> Preferred(e, read, pick, i)
  }

  ghost predicate Preferred(e: ModelEntry, read: Reading, pick: nat, i: nat)
    requires pick < |e.replicas| && i < |e.replicas|
  {
    && (e.strategy.Single? ==> pick <= i)
    && (e.strategy.LeastInflight? && Stable(read) ==> read(0, pick) <= read(0, i) && (i < pick ==> read(0, pick) < read(0, i)))
    && (e.strategy.WeightedLeastInflight? ==>
          && NoWorse(read(0, pick), e.replicas[pick].weight, read(0, i), e.replicas[i].weight)
          && (i < pick ==> !NoWorse(read(0, i), e.replicas[i].weight, read(0, pick), e.replicas[pick].weight)))
  }

  lemma CrossMultiply(a: int, v: int, b: int, w: int)
    requires v >= 1 && w >= 1
    ensures (a + 1) as real / v as real <= (b + 1) as real / w as real <==> NoWorse(a, v, b, w)
  {
    var p, q, x, y := (a + 1) as real, (b + 1) as real, v as real, w as real;
    ScaleUp(p, x, q, y);
    assert p * y == ((a + 1) * w) as real && q * x == ((b + 1) * v) as real;
  }

  lemma ScaleUp(p: real, x: real, q: real, y: real)
    requires x > 0.0 && y > 0.0
    ensures p / x <= q / y <==> p * y <= q * x
  {
    var s, t := p / x, q / y;
    assert p == s * x && q == t * y;
    var m := x * y;
    assert p * y == s * m && q * x == t * m && m > 0.0;
    OrderScales(s, t, m);
  }

  lemma OrderScales(s: real, t: real, m: real)
    requires m > 0.0
    ensures s <= t <==> s * m <= t * m
  {
    if s > t {
      assert (s - t) * m > 0.0;
    } else {
      assert (t - s) * m >= 0.0;
    }
  }

  lemma ChosenIsJustified(e: ModelEntry, exclude: seq<string>, h: Health, now: nat -> int, cands: seq<nat>, read: Reading, pick: nat,
                          rr: map<string, nat>, rr': map<string, nat>, wrr: map<string, seq<int>>, wrr': map<string, seq<int>>, model: string)
    requires ValidEntry(e) && IsCandidateList(e.replicas, exclude, h, now, cands) && pick in cands
    requires Chosen(e, cands, read, pick, rr, rr', wrr, wrr', model)
    ensures Justified(e, exclude, h, now, read, pick)
  {
    forall i: nat | i < |e.replicas| && Usable(e.replicas[i], exclude, h, now(i)) ensures Preferred(e, read, pick, i) {
      assert Eligible(e.replicas[i], exclude, h, now(i)) && i in cands;
      if e.strategy.WeightedLeastInflight? {
        CrossMultiply(read(0, pick), e.replicas[pick].weight, read(0, i), e.replicas[i].weight);
        CrossMultiply(read(0, i), e.replicas[i].weight, read(0, pick), e.replicas[pick].weight);
      }
    }
  }

  // ----- what the two round robins do from call to call -----

  /** How far round the ring of n position i is from start. */
  function Distance(n: nat, start: nat, i: nat): int {
    if i >= start then i - start else i + n - start
  }

  /**
   A round-robin selection: the counter, zero at first, advances by one in a uint64, no other model's
   does, and the pick is the usable replica nearest to it round the ring.
   */
  lemma RoundRobinTurn(e: ModelEntry, exclude: seq<string>, h: Health, now: nat -> int, cands: seq<nat>, read: Reading, pick: nat,
                       rr: map<string, nat>, rr': map<string, nat>, wrr: map<string, seq<int>>, wrr': map<string, seq<int>>, model: string)
    requires ValidEntry(e) && IsCandidateList(e.replicas, exclude, h, now, cands) && e.strategy.RoundRobin?
    requires Chosen(e, cands, read, pick, rr, rr', wrr, wrr', model)
    ensures var n, counter := |e.replicas|, if model in rr then rr[model] else 0;
            && rr' == rr[model := (counter + 1) % 18446744073709551616] && wrr' == wrr
            && pick < n && Usable(e.replicas[pick], exclude, h, now(pick))
            && forall i: nat :: i < n && Usable(e.replicas[i], exclude, h, now(i)) ==> Distance(n, counter % n, pick) <= Distance(n, counter % n, i)
  {
    var n, start := |e.replicas|, Counter(rr, model) % |e.replicas|;
    var k: nat :| k < n && pick == At(n, start, k) && pick in cands && forall j: nat :: j < k ==> At(n, start, j) !in cands;
    forall i: nat | i < n && Usable(e.replicas[i], exclude, h, now(i)) ensures Distance(n, start, pick) <= Distance(n, start, i) {
      assert Eligible(e.replicas[i], exclude, h, now(i)) && i in cands;
      assert At(n, start, Distance(n, start, i)) == i;
    }
  }

  /** A weighted selection: one call of the smooth scheme on the model's counters, zero at first or after its replicas changed. */
  lemma WeightedTurn(e: ModelEntry, cands: seq<nat>, read: Reading, pick: nat,
                     rr: map<string, nat>, rr': map<string, nat>, wrr: map<string, seq<int>>, wrr': map<string, seq<int>>, model: string)
    requires ValidEntry(e) && e.strategy.WeightedRoundRobin? && Chosen(e, cands, read, pick, rr, rr', wrr, wrr', model)
    ensures model in wrr' && wrr' == wrr[model := wrr'[model]] && rr' == rr
    ensures exists current: seq<int> ::
              && S.Next(current, Weights(e.replicas), cands, pick, wrr'[model])
              && (if model in wrr && |wrr[model]| == |e.replicas| then current == wrr[model] else current == seq(|e.replicas|, _ => 0))
  {
    assert S.Next(Current(wrr, model, |e.replicas|), Weights(e.replicas), cands, pick, wrr'[model]);
  }

  // ----- round robin -----

  lemma MulSmall(d: int, n: int)
    requires -n < d * n < n
    ensures d == 0
  {
    assert d >= 1 ==> d * n >= n;
    assert d <= -1 ==> d * n <= -n;
  }

  lemma ModUnique(x: nat, n: nat, q: int, r: nat)
    requires r < n && x == q * n + r
    ensures x % n == r
  {
    var q', r' := x / n, x % n;
    assert x == q' * n + r';
    assert (q - q') * n == r' - r;
    MulSmall(q - q', n);
  }

  lemma ModWrap(x: nat, n: nat)
    requires x < n + n
    ensures x % n == if x < n then x else x - n
  {
    if x < n {
      ModUnique(x, n, 0, x);
    } else {
      ModUnique(x, n, 1, x - n);
    }
  }

  /** Consecutive values of the shared counter are consecutive ring positions. */
  lemma CounterWalksRing(n: nat, counter: nat, j: nat)
    requires j < n
    ensures (counter + j) % n == At(n, counter % n, j)
  {
    var q, s := counter / n, counter % n;
    assert counter == q * n + s;
    if s + j < n {
      ModUnique(counter + j, n, q, s + j);
    } else {
      assert (q + 1) * n == q * n + n;
      ModUnique(counter + j, n, q + 1, s + j - n);
    }
  }

  /** While every replica is eligible, the ring walk from start stops at start. */
  lemma AllEligiblePick(n: nat, start: nat, pick: nat)
    requires start < n && FirstOnRing(n, AllPositions(n), start, pick)
    ensures pick == start
  {
    assert At(n, start, 0) == start && AllPositions(n)[start] == start;
  }

  /** Each of the n replicas is picked exactly once. */
  ghost predicate OnceEach(n: nat, picks: seq<nat>) {
    forall i: nat :: i < n ==> PickedOnce(n, picks, i)
  }

  ghost predicate PickedOnce(n: nat, picks: seq<nat>, i: nat) {
    exists k: nat :: k < |picks| && picks[k] == i && forall j: nat :: j < |picks| && picks[j] == i ==> j == k
  }

  lemma WalkIsOnceEach(n: nat, start: nat, picks: seq<nat>)
    requires start < n == |picks| && forall j: nat :: j < n ==> picks[j] == At(n, start, j)
    ensures OnceEach(n, picks)
  {
    forall i: nat | i < n ensures PickedOnce(n, picks, i) {
      var k := if i >= start then i - start else i + n - start;
      assert picks[k] == At(n, start, k) == i;
      forall j: nat | j < |picks| && picks[j] == i ensures j == k {
        assert picks[j] == At(n, start, j);
      }
    }
  }

  /** The ring starts of n consecutive calls; the shared counter is a uint64. */
  ghost predicate Consecutive(n: nat, counter: nat, picks: seq<nat>)
    requires n > 0
  {
    |picks| == n && forall j: nat :: j < n ==> picks[j] == (counter + j) % TWO_64 % n
  }

  /**
   Fairness: while every replica is eligible, n consecutive calls pick each of the n replicas exactly
   once, if and only if the counter does not wrap between them or the wrap falls on a full round.
   */
  lemma RoundRobinFairIff(n: nat, counter: nat, picks: seq<nat>)
    requires 0 < n && counter < TWO_64 && |picks| == n <= TWO_64
    requires forall j: nat :: j < n ==> FirstOnRing(n, AllPositions(n), (counter + j) % TWO_64 % n, picks[j])
    ensures OnceEach(n, picks) <==> counter + n <= TWO_64 || TWO_64 % n == 0
  {
    forall j: nat | j < n ensures picks[j] == (counter + j) % TWO_64 % n {
      AllEligiblePick(n, (counter + j) % TWO_64 % n, picks[j]);
    }
    if counter + n <= TWO_64 || TWO_64 % n == 0 {
      forall j: nat | j < n ensures picks[j] == At(n, counter % n, j) {
        CounterWalksRing(n, counter, j);
        ModWrap(counter + j, TWO_64);
        if counter + j >= TWO_64 {
          WrapOnFullRound(n, counter + j);
        }
      }
      WalkIsOnceEach(n, counter % n, picks);
    } else {
      WrapRepeats(n, counter, picks);
    }
  }

  lemma WrapOnFullRound(n: nat, x: nat)
    requires n > 0 && TWO_64 % n == 0 && x >= TWO_64
    ensures (x - TWO_64) % n == x % n
  {
    var q, y := TWO_64 / n, x - TWO_64;
    assert x == (q + y / n) * n + y % n by {
      assert TWO_64 == q * n && y == y / n * n + y % n;
      assert (q + y / n) * n == q * n + y / n * n;
    }
    ModUnique(x, n, q + y / n, y % n);
  }

  /** A wrap in the middle of a round makes two calls start at the same position. */
  lemma WrapRepeats(n: nat, counter: nat, picks: seq<nat>)
    requires 0 < n && counter < TWO_64 && Consecutive(n, counter, picks)
    requires counter + n > TWO_64 && TWO_64 % n != 0
    ensures !OnceEach(n, picks)
  {
    var a, start := TWO_64 - counter, counter % n;
    CounterWalksRing(n, counter, 0);
    assert start + a != n by {
      if start + a == n {
        var q := counter / n;
        assert TWO_64 == q * n + n;
        assert (q + 1) * n == q * n + n;
        ModUnique(TWO_64, n, q + 1, 0);
      }
    }
    if start + a < n {
      assert picks[0] == start;
      ModWrap(counter + a + start, TWO_64);
      ModUnique(start, n, 0, start);
      assert picks[a + start] == start;
      Twice(n, picks, 0, a + start);
    } else {
      assert a < n && start > 0;
      var j := n - start;
      CounterWalksRing(n, counter, j);
      ModWrap(counter + j, TWO_64);
      ModWrap(counter + a, TWO_64);
      ModUnique(0, n, 0, 0);
      assert picks[a] == 0 && picks[j] == 0;
      Twice(n, picks, j, a);
    }
  }

  lemma Twice(n: nat, picks: seq<nat>, j: nat, k: nat)
    requires j != k && j < |picks| && k < |picks| && picks[j] == picks[k] < n
    ensures !OnceEach(n, picks)
  {
    assert !PickedOnce(n, picks, picks[j]);
  }

  function AllPositions(n: nat): (s: seq<nat>)
    ensures |s| == n && forall i :: 0 <= i < n ==> s[i] == i
  {
    seq(n, i => i)
  }

  // ----- passive health -----

  function Pow2(n: nat): (p: nat)
    ensures p >= 1
  {
    if n == 0 then 1 else 2 * Pow2(n - 1)
  }

  /** The cooldown after the given number of consecutive failures: 5, 10, 20, 40, then 60 seconds. */
  function Cooldown(streak: nat): nat {
    if streak >= 5 then HEALTH_MAX_COOLDOWN
    else [0, 5_000_000_000, 10_000_000_000, 20_000_000_000, 40_000_000_000][streak]
  }

  lemma {:induction false} Pow2Grows(m: nat, n: nat)
    requires m <= n
    ensures Pow2(m) <= Pow2(n)
  {
    if m < n {
      Pow2Grows(m, n - 1);
    }
  }

  /** The capped shift of the source is that schedule. */
  lemma CooldownSchedule(streak: nat)
    requires streak >= 1
    ensures var shift := if streak - 1 <= HEALTH_SHIFT_CAP then streak - 1 else HEALTH_SHIFT_CAP;
            var shifted := HEALTH_BASE_COOLDOWN * Pow2(shift);
            Cooldown(streak) == if shifted <= HEALTH_MAX_COOLDOWN then shifted else HEALTH_MAX_COOLDOWN
  {
    assert Pow2(0) == 1 && Pow2(1) == 2 && Pow2(2) == 4 && Pow2(3) == 8 && Pow2(4) == 16;
    if streak >= 5 {
      Pow2Grows(4, if streak - 1 <= HEALTH_SHIFT_CAP then streak - 1 else HEALTH_SHIFT_CAP);
    }
  }

  function AfterFailure(h: Health, name: string, now: int): Health {
    var streak := (if name in h then h[name].streak else 0) + 1;
    h[name := HealthState(now + Cooldown(streak), streak)]
  }

  function AfterSuccess(h: Health, name: string): Health {
    h - {name}
  }

  datatype Report = Failed(name: string, now: int) | Succeeded(name: string)

  function HealthAfter(reports: seq<Report>): Health {
    if reports == [] then map[]
    else
      var h := HealthAfter(reports[..|reports| - 1]);
      match reports[|reports| - 1]
      case Failed(name, now) => AfterFailure(h, name, now)
      case Succeeded(name) => AfterSuccess(h, name)
  }

  /** The failures of a backend since its last success, in order. */
  function Streak(reports: seq<Report>, name: string): seq<int> {
    if reports == [] then []
    else
      var before := Streak(reports[..|reports| - 1], name);
      match reports[|reports| - 1]
      case Failed(n, now) => if n == name then before + [now] else before
      case Succeeded(n) => if n == name then [] else before
  }

  /**
   Whatever happened to other backends, a backend is unavailable exactly while the cooldown of its
   own current failure streak, counted from its last failure, is running.
   */
  lemma {:induction false} UnavailableExactlyInCooldown(reports: seq<Report>, name: string, now: int)
    ensures var h, s := HealthAfter(reports), Streak(reports, name);
            && (name in h <==> s != [])
            && (name in h ==> h[name] == HealthState(s[|s| - 1] + Cooldown(|s|), |s|))
            && (Unavailable(h, name, now) <==> s != [] && now < s[|s| - 1] + Cooldown(|s|))
  {
    if reports != [] {
      UnavailableExactlyInCooldown(reports[..|reports| - 1], name, now);
    }
  }
}
