/**
 The limits of one key over the life of the daemon: requests load the current generation of the
 limit registry once and keep to it, while reloads build new generations, so at any moment requests
 on different generations look up, rate-check, take and give back slots of the same key.
 */
module KeyLimits {
  import opened Limiter
  import opened Sums

  /** One request of the key. */
  datatype Request =
    | Loaded(gen: nat)            // snapshot loaded; limits not looked up yet
    | Ready(state: KeyState)      // looked up; before the rate check
    | Rated(state: KeyState)      // passed the rate check; before the slot
    | Holding(state: KeyState)    // holds a slot
    | Gone                        // turned away, or slot given back

  /**
   gens: every generation so far, the current one last. held and levels: the slots taken and the
   level of each limit object. times and passed: the key's rate checks so far, and how many passed.
   */
  datatype State = State(
    gens: seq<View>, requests: seq<Request>,
    held: map<Concurrency, nat>, levels: map<Bucket, Level>,
    times: seq<real>, passed: nat)

  datatype Event =
    | Arrives
    | LooksUp(i: nat, state: KeyState)
    | Checks(i: nat, now: real)
    | Takes(i: nat)
    | GivesBack(i: nat)
    | OtherKey(gen: nat, id: string, limits: Limits, state: KeyState)
    | Reloads(keep: string -> bool)

  function HeldOf(s: State, c: Concurrency): nat {
    if c in s.held then s.held[c] else 0
  }

  function LevelOf(s: State, b: Bucket): Level {
    if b in s.levels then s.levels[b] else Level(0.0, 0.0)
  }

  /** Request i checks its rate at time now. */
  function Checked(s: State, i: nat, ks: KeyState, now: real): State
    requires i < |s.requests|
  {
    if ks.bucket == null then s.(requests := s.requests[i := Rated(ks)])
    else
      var b: Bucket := ks.bucket;
      var ok := Admits(b.rate, b.cap, LevelOf(s, b), now);
      s.(requests := s.requests[i := if ok then Rated(ks) else Gone],
         levels := s.levels[b := Called(b.rate, b.cap, LevelOf(s, b), now)],
         times := s.times + [now], passed := s.passed + if ok then 1 else 0)
  }

  /** Request i asks for a slot; an unlimited key holds none. */
  function Taken(s: State, i: nat, ks: KeyState): State
    requires i < |s.requests|
  {
    if ks.concur.limit == 0 then s.(requests := s.requests[i := Holding(ks)])
    else if HeldOf(s, ks.concur) < ks.concur.limit then
      s.(requests := s.requests[i := Holding(ks)], held := s.held[ks.concur := HeldOf(s, ks.concur) + 1])
    else s.(requests := s.requests[i := Gone])
  }

  /** Request i gives its slot back. */
  function GivenBack(s: State, i: nat, ks: KeyState): State
    requires i < |s.requests|
  {
    var held := HeldOf(s, ks.concur);
    s.(requests := s.requests[i := Gone], held := if ks.concur.limit == 0 || held == 0 then s.held else s.held[ks.concur := held - 1])
  }

  ghost predicate Happens(id: string, l: Limits, s: State, e: Event, s': State) {
    match e
    case Arrives => s.gens != [] && s' == s.(requests := s.requests + [Loaded(|s.gens| - 1)])
    case LooksUp(i, ks) =>
      && i < |s.requests| && s.requests[i].Loaded?
      && var g := s.requests[i].gen;
         && g < |s.gens| && |s'.gens| == |s.gens|
         && Materialises(s.gens[g], id, l, ks, s'.gens[g])
         && s' == s.(gens := s.gens[g := s'.gens[g]], requests := s.requests[i := Ready(ks)])
    case Checks(i, now) => i < |s.requests| && s.requests[i].Ready? && s' == Checked(s, i, s.requests[i].state, now)
    case Takes(i) => i < |s.requests| && s.requests[i].Rated? && s' == Taken(s, i, s.requests[i].state)
    case GivesBack(i) => i < |s.requests| && s.requests[i].Holding? && s' == GivenBack(s, i, s.requests[i].state)
    case OtherKey(g, other, l', ks) =>
      && other != id && g < |s.gens| && |s'.gens| == |s.gens|
      && Materialises(s.gens[g], other, l', ks, s'.gens[g]) && s' == s.(gens := s.gens[g := s'.gens[g]])
    case Reloads(keep) => s.gens != [] && s' == s.(gens := s.gens + [Reloaded(s.gens[|s.gens| - 1], keep)])
  }

  /** states[n + 1] is what events[n] makes of states[n]. */
  ghost predicate IsHistory(id: string, l: Limits, states: seq<State>, events: seq<Event>) {
    && |states| == |events| + 1
    && forall n :: 0 <= n < |events| ==> Happens(id, l, states[n], events[n], states[n + 1])
  }

  /** No reload drops the key. That no reload changes its limits is in the one l of the history. */
  ghost predicate KeepsKey(events: seq<Event>, id: string) {
    forall n :: 0 <= n < |events| && events[n].Reloads? ==> events[n].keep(id)
  }

  ghost function Slots(r: Request): int { if r.Holding? then 1 else 0 }

  /** A request on generation first or later, or already bound to the state ks. */
  predicate Bound(s: State, r: Request, ks: KeyState, first: nat) {
    match r
    case Loaded(g) => first <= g < |s.gens|
    case Gone => true
    case _ => r.state == ks
  }

  /** Every generation from first on gives the key the state ks, and every request is bound to it. */
  ghost predicate Shared(id: string, l: Limits, s: State, ks: KeyState, first: nat) {
    && first < |s.gens|
    && (forall g: nat :: first <= g < |s.gens| ==> Promises(s.gens[g], id, l, ks))
    && (forall i: nat :: i < |s.requests| ==> Bound(s, s.requests[i], ks, first))
    && (ks.concur.limit > 0 ==> HeldOf(s, ks.concur) == Total(s.requests, Slots) && HeldOf(s, ks.concur) <= ks.concur.limit)
  }

  lemma LookUpShares(id: string, l: Limits, s: State, e: Event, s': State, ks: KeyState, first: nat)
    requires Shared(id, l, s, ks, first) && Happens(id, l, s, e, s') && (e.LooksUp? || e.OtherKey?)
    ensures Shared(id, l, s', ks, first) && (e.LooksUp? ==> e.state == ks)
  {
    var g := if e.LooksUp? then s.requests[e.i].gen else e.gen;
    if e.LooksUp? {
      assert Bound(s, s.requests[e.i], ks, first);
      MaterialisingKeepsPromise(s.gens[g], id, l, ks, s'.gens[g], id, l, e.state);
      TotalUpdate(s.requests, e.i, Ready(e.state), Slots);
    } else if g >= first {
      MaterialisingKeepsPromise(s.gens[g], id, l, ks, s'.gens[g], e.id, e.limits, e.state);
    }
    forall i: nat | i < |s'.requests| ensures Bound(s', s'.requests[i], ks, first) {
      assert Bound(s, s.requests[i], ks, first);
    }
  }

  /** A request's own steps keep count of the slots. */
  lemma SlotsCounted(s: State, e: Event, s': State, ks: KeyState)
    requires (e.Checks? || e.Takes? || e.GivesBack?) && e.i < |s.requests| && ks.concur.limit > 0
    requires e.Checks? ==> s.requests[e.i] == Ready(ks) && s' == Checked(s, e.i, ks, e.now)
    requires e.Takes? ==> s.requests[e.i] == Rated(ks) && s' == Taken(s, e.i, ks)
    requires e.GivesBack? ==> s.requests[e.i] == Holding(ks) && s' == GivenBack(s, e.i, ks)
    requires HeldOf(s, ks.concur) == Total(s.requests, Slots) && HeldOf(s, ks.concur) <= ks.concur.limit
    ensures HeldOf(s', ks.concur) == Total(s'.requests, Slots) && HeldOf(s', ks.concur) <= ks.concur.limit
  {
    TotalUpdate(s.requests, e.i, s'.requests[e.i], Slots);
    TotalBounds(s.requests, Slots, 1);
    assert s.requests[e.i] in s.requests;
  }

  lemma RequestShares(id: string, l: Limits, s: State, e: Event, s': State, ks: KeyState, first: nat)
    requires Shared(id, l, s, ks, first) && Happens(id, l, s, e, s') && (e.Checks? || e.Takes? || e.GivesBack?)
    ensures Shared(id, l, s', ks, first)
  {
    assert Bound(s, s.requests[e.i], ks, first);
    if ks.concur.limit > 0 {
      SlotsCounted(s, e, s', ks);
    }
    forall i: nat | i < |s'.requests| ensures Bound(s', s'.requests[i], ks, first) {
      assert Bound(s, s.requests[i], ks, first);
    }
  }

  lemma EventShares(id: string, l: Limits, s: State, e: Event, s': State, ks: KeyState, first: nat)
    requires Shared(id, l, s, ks, first) && Happens(id, l, s, e, s') && (e.Reloads? ==> e.keep(id))
    ensures Shared(id, l, s', ks, first) && (e.LooksUp? ==> e.state == ks)
  {
    if e.LooksUp? || e.OtherKey? {
      LookUpShares(id, l, s, e, s', ks, first);
    } else if e.Checks? || e.Takes? || e.GivesBack? {
      RequestShares(id, l, s, e, s', ks, first);
    } else {
      if e.Arrives? {
        TotalAppend(s.requests, Loaded(|s.gens| - 1), Slots);
      } else {
        ReloadKeepsPromise(s.gens[|s.gens| - 1], id, l, ks, e.keep);
      }
      forall i: nat | i < |s'.requests| ensures Bound(s', s'.requests[i], ks, first) {
        if i < |s.requests| {
          assert Bound(s, s.requests[i], ks, first);
        }
      }
    }
  }

  /**
   Once a key is materialised, every request of it gets the same concurrency bound and the same
   bucket, on the generation it was materialised in and on every later one, through any chain of
   reloads that keep it with unchanged limits, however requests on old and new generations
   interleave. So its holders over all generations together never exceed its limit.
   */
  lemma {:induction false} SameStateThroughReloads(id: string, l: Limits, states: seq<State>, events: seq<Event>, ks: KeyState, first: nat)
    requires IsHistory(id, l, states, events) && KeepsKey(events, id) && Shared(id, l, states[0], ks, first)
    ensures Shared(id, l, states[|events|], ks, first)
    ensures forall n :: 0 <= n < |events| && events[n].LooksUp? ==> events[n].state == ks
    ensures l.concurrent > 0 ==> Total(states[|events|].requests, Slots) <= l.concurrent
  {
    if events != [] {
      var n := |events| - 1;
      SameStateThroughReloads(id, l, states[..n + 1], events[..n], ks, first);
      EventShares(id, l, states[n], events[n], states[n + 1], ks, first);
    }
    assert Promises(states[|events|].gens[first], id, l, ks);
  }

  /** The request has loaded the current generation and not looked up yet, or is gone. */
  predicate WaitsOn(r: Request, gen: nat) {
    r == Loaded(gen) || r.Gone?
  }

  lemma {:induction false} WaitingHoldNone(requests: seq<Request>, gen: nat)
    requires forall j: nat :: j < |requests| ==> WaitsOn(requests[j], gen)
    ensures Total(requests, Slots) == 0
  {
    if requests != [] {
      WaitingHoldNone(requests[..|requests| - 1], gen);
    }
  }

  /**
   The history starts when the first of the requests on the current generation looks the key's state
   up, however many others have loaded that generation: new objects, nothing taken.
   */
  lemma FirstLookUpShares(id: string, l: Limits, s: State, i: nat, ks: KeyState, s': State)
    requires Happens(id, l, s, LooksUp(i, ks), s')
    requires forall j: nat :: j < |s.requests| ==> WaitsOn(s.requests[j], |s.gens| - 1)
    requires id !in s.gens[|s.gens| - 1].keys && HeldOf(s, ks.concur) == 0
    ensures Shared(id, l, s', ks, |s.gens| - 1)
  {
    assert WaitsOn(s.requests[i], |s.gens| - 1);
    FirstRequestPromises(s.gens[|s.gens| - 1], id, l, ks, s'.gens[|s.gens| - 1]);
    WaitingHoldNone(s.requests, |s.gens| - 1);
    TotalUpdate(s.requests, i, Ready(ks), Slots);
    forall j: nat | j < |s'.requests| ensures Bound(s', s'.requests[j], ks, |s.gens| - 1) {
      assert WaitsOn(s.requests[j], |s.gens| - 1);
    }
  }

  /** The key's rate checks since a state are calls on one bucket. */
  ghost predicate OneBucket(s: State, b: Bucket, start: State) {
    && |start.times| <= |s.times| && s.times[..|start.times|] == start.times && s.passed >= start.passed
    && LevelOf(s, b) == LevelAfter(b.rate, b.cap, LevelOf(start, b), s.times[|start.times|..])
    && s.passed - start.passed == Admitted(b.rate, b.cap, LevelOf(start, b), s.times[|start.times|..])
  }

  lemma CheckIsACall(s: State, b: Bucket, start: State, i: nat, ks: KeyState, now: real)
    requires OneBucket(s, b, start) && i < |s.requests| && ks.bucket == b
    ensures OneBucket(Checked(s, i, ks, now), b, start)
  {
    var n := |start.times|;
    var s' := Checked(s, i, ks, now);
    assert s'.times[n..] == s.times[n..] + [now];
    assert s'.times[n..][..|s'.times[n..]| - 1] == s.times[n..];
    assert s'.times[..n] == s.times[..n];
  }

  lemma {:induction false} AllOnOneBucket(id: string, l: Limits, states: seq<State>, events: seq<Event>, ks: KeyState, first: nat)
    requires IsHistory(id, l, states, events) && KeepsKey(events, id) && Shared(id, l, states[0], ks, first)
    requires ks.bucket != null
    ensures OneBucket(states[|events|], ks.bucket, states[0])
  {
    if events == [] {
      assert states[0].times[|states[0].times|..] == [];
    } else {
      var n := |events| - 1;
      var s, e := states[n], events[n];
      AllOnOneBucket(id, l, states[..n + 1], events[..n], ks, first);
      SameStateThroughReloads(id, l, states[..n + 1], events[..n], ks, first);
      assert Happens(id, l, s, e, states[n + 1]);
      EventOnOneBucket(id, l, s, e, states[n + 1], ks, first, states[0]);
    }
  }

  lemma EventOnOneBucket(id: string, l: Limits, s: State, e: Event, s': State, ks: KeyState, first: nat, start: State)
    requires Shared(id, l, s, ks, first) && Happens(id, l, s, e, s')
    requires ks.bucket != null && OneBucket(s, ks.bucket, start)
    ensures OneBucket(s', ks.bucket, start)
  {
    if e.Checks? {
      assert Bound(s, s.requests[e.i], ks, first);
      CheckIsACall(s, ks.bucket, start, e.i, ks, e.now);
    }
  }

  /**
   No reload grants a fresh burst: between any two moments of a history, the requests of the key let
   through on all generations together are at most the bucket's capacity plus its rate times the
   time its clock advanced.
   */
  lemma RateAcrossReloads(id: string, l: Limits, states: seq<State>, events: seq<Event>, ks: KeyState, first: nat)
    requires IsHistory(id, l, states, events) && KeepsKey(events, id) && Shared(id, l, states[0], ks, first)
    requires ks.bucket != null && Sound(ks.bucket.cap, LevelOf(states[0], ks.bucket))
    ensures var b: Bucket := ks.bucket;
            var start, end := LevelOf(states[0], b), LevelOf(states[|events|], b);
            && b.rate == l.rps && b.cap == DerivedBurst(l.rps, l.burst) as real
            && Sound(b.cap, end) && end.last >= start.last
            && (states[|events|].passed - states[0].passed) as real <= b.cap + Accrued(b.rate, start.last, end.last)
  {
    AllOnOneBucket(id, l, states, events, ks, first);
    assert Promises(states[0].gens[first], id, l, ks);
    var n := |states[0].times|;
    RateBound(ks.bucket.rate, ks.bucket.cap, LevelOf(states[0], ks.bucket), states[|events|].times[n..]);
  }

  // ----- and no request is turned away that the limits allow -----

  /** A slot is refused exactly when the key's limit is set and as many requests, over all generations, hold one. */
  lemma RefusedASlotIff(id: string, l: Limits, states: seq<State>, events: seq<Event>, ks: KeyState, first: nat, i: nat)
    requires IsHistory(id, l, states, events) && KeepsKey(events, id) && Shared(id, l, states[0], ks, first)
    requires events != [] && events[|events| - 1] == Takes(i)
    ensures var s, s' := states[|events| - 1], states[|events|];
            i < |s'.requests| &&
            (if l.concurrent > 0 && Total(s.requests, Slots) >= l.concurrent then s'.requests[i].Gone?
             else s'.requests[i] == Holding(ks))
  {
    var n := |events| - 1;
    SameStateThroughReloads(id, l, states[..n + 1], events[..n], ks, first);
    assert Happens(id, l, states[n], events[n], states[n + 1]);
    assert Bound(states[n], states[n].requests[i], ks, first);
    assert Promises(states[n].gens[first], id, l, ks);
  }

  /** A key without a rate is never refused at the rate check. */
  lemma UnlimitedRate(id: string, l: Limits, states: seq<State>, events: seq<Event>, ks: KeyState, first: nat, i: nat, now: real)
    requires IsHistory(id, l, states, events) && KeepsKey(events, id) && Shared(id, l, states[0], ks, first)
    requires events != [] && events[|events| - 1] == Checks(i, now) && l.rps <= 0.0
    ensures i < |states[|events|].requests| && states[|events|].requests[i] == Rated(ks)
  {
    var n := |events| - 1;
    SameStateThroughReloads(id, l, states[..n + 1], events[..n], ks, first);
    assert Happens(id, l, states[n], events[n], states[n + 1]);
    assert Bound(states[n], states[n].requests[i], ks, first);
    assert Promises(states[n].gens[first], id, l, ks);
  }

  /** The key's rate checks after start. */
  function Since(start: State, s: State): seq<real> {
    if |start.times| <= |s.times| then s.times[|start.times|..] else []
  }

  /**
   With one, a request is refused at its check exactly when letting it through would break the rate
   bound of some window of the key's checks on all generations together, or of the whole history.
   */
  lemma RefusedByRateIff(id: string, l: Limits, states: seq<State>, events: seq<Event>, ks: KeyState, first: nat, i: nat, now: real)
    requires IsHistory(id, l, states, events) && KeepsKey(events, id) && Shared(id, l, states[0], ks, first)
    requires ks.bucket != null && Sound(ks.bucket.cap, LevelOf(states[0], ks.bucket))
    requires events != [] && events[|events| - 1] == Checks(i, now) && now >= LevelOf(states[|events| - 1], ks.bucket).last
    ensures var b: Bucket := ks.bucket;
            var start, times := LevelOf(states[0], b), Since(states[0], states[|events| - 1]);
            i < |states[|events|].requests| &&
            if StartFull(b.rate, b.cap, start, times, now) || exists j: nat :: j < |times| && WindowFull(b.rate, b.cap, start, times, j, now)
            then states[|events|].requests[i].Gone? else states[|events|].requests[i] == Rated(ks)
  {
    var n := |events| - 1;
    var b: Bucket := ks.bucket;
    SameStateThroughReloads(id, l, states[..n + 1], events[..n], ks, first);
    AllOnOneBucket(id, l, states[..n + 1], events[..n], ks, first);
    assert Happens(id, l, states[n], events[n], states[n + 1]);
    assert Bound(states[n], states[n].requests[i], ks, first);
    assert Promises(states[n].gens[first], id, l, ks);
    DeniedExactlyWhenBoundWouldBreak(b.rate, b.cap, LevelOf(states[0], b), states[n].times[|states[0].times|..], now);
  }
}
