/**
 How far concurrent requests of one key can overshoot a token window. Admission only looks
 ahead, so the bound comes from combining the quota check with the per-key concurrency limit:
 a request takes a slot, is admitted against the settled total, settles later, and only then
 gives its slot back.
 */
module QuotaOvershoot {
  import opened Sums
  import opened Int64
  import Q = TokenQuota

  /**
   limits: the key's token windows. slots: its concurrent_requests, 0 meaning unbounded.
   reservation: the largest reservation of any of its requests.
   excess: by how much one settlement may exceed the reservation it was admitted with.
   */
  datatype Config = Config(limits: Q.Limits, slots: nat, reservation: nat, excess: nat)

  datatype Request =
    | Arrived
    | Holding                  // per-key slot taken, quota not checked yet
    | Admitted(worst: nat)     // passed Admit; will settle at most worst tokens
    | Settled
    | Gone                     // slot given back

  datatype State = State(windows: Q.States, requests: seq<Request>)

  ghost predicate Init(s: State) {
    s == State(map[], [])
  }

  ghost function Slot(r: Request): int { if r.Holding? || r.Admitted? || r.Settled? then 1 else 0 }
  ghost function Outstanding(r: Request): int { if r.Admitted? then r.worst else 0 }

  predicate Passes(l: Q.Limits, q: Q.KeyQuota, reservation: int) {
    && !Q.Over(l.tokensPerHour, q.hour.count, reservation)
    && !Q.Over(l.tokensPerDay, q.day.count, reservation)
  }

  ghost predicate AcquireStep(c: Config, s: State, s': State, i: nat) {
    && i < |s.requests| && s.requests[i].Arrived?
    && (c.slots == 0 || Total(s.requests, Slot) < c.slots)
    && s' == s.(requests := s.requests[i := Holding])
  }

  /** Admit under the quota lock, with a clock value sampled at any earlier or later moment. */
  ghost predicate AdmitStep(c: Config, k: string, s: State, s': State, i: nat, reservation: nat, worst: nat, now: nat) {
    && i < |s.requests| && s.requests[i].Holding?
    && reservation <= c.reservation && worst <= reservation + c.excess
    && var windows := Q.After(s.windows, Q.AdmitCall(k, c.limits, now));
       s' == State(windows, s.requests[i := if Passes(c.limits, Q.Current(s.windows, k, now), reservation) then Admitted(worst) else Gone])
  }

  ghost predicate SettleStep(c: Config, k: string, s: State, s': State, i: nat, tokens: nat, now: nat) {
    && i < |s.requests| && s.requests[i].Admitted? && tokens <= s.requests[i].worst
    && s' == State(Q.Settled(s.windows, k, tokens, now), s.requests[i := Request.Settled])
  }

  ghost predicate ReleaseStep(s: State, s': State, i: nat) {
    i < |s.requests| && Slot(s.requests[i]) == 1 && s' == s.(requests := s.requests[i := Gone])
  }

  ghost predicate Step(c: Config, k: string, s: State, s': State) {
    || s' == s.(requests := s.requests + [Arrived])
    || (exists i: nat :: AcquireStep(c, s, s', i))
    || (exists i: nat, r: nat, w: nat, now: nat :: AdmitStep(c, k, s, s', i, r, w, now))
    || (exists i: nat, tokens: nat, now: nat :: SettleStep(c, k, s, s', i, tokens, now))
    || (exists i: nat :: ReleaseStep(s, s', i))
  }

  ghost predicate IsRun(c: Config, k: string, run: seq<State>) {
    && run != [] && Init(run[0])
    && forall n :: 0 <= n < |run| - 1 ==> Step(c, k, run[n], run[n + 1])
  }

  // ----- the bound -----

  /** What a window with this limit can hold, settled and still outstanding together. */
  function Bound(c: Config, limit: int): int
    requires c.slots > 0
  {
    limit + (c.slots - 1) * (c.reservation + c.excess) + c.excess
  }

  function HourCount(s: State, k: string): int { if k in s.windows then s.windows[k].hour.count else 0 }
  function DayCount(s: State, k: string): int { if k in s.windows then s.windows[k].day.count else 0 }

  ghost predicate Inv(c: Config, k: string, s: State)
    requires c.slots > 0
  {
    && Total(s.requests, Slot) <= c.slots
    && (forall r :: r in s.requests ==> Outstanding(r) <= c.reservation + c.excess)
    && 0 <= HourCount(s, k) <= MAX_INT64 && 0 <= DayCount(s, k) <= MAX_INT64
    && (c.limits.tokensPerHour > 0 ==>
          HourCount(s, k) + Total(s.requests, Outstanding) <= Bound(c, c.limits.tokensPerHour))
    && (c.limits.tokensPerDay > 0 ==>
          DayCount(s, k) + Total(s.requests, Outstanding) <= Bound(c, c.limits.tokensPerDay))
  }

  predicate ValidConfig(c: Config) {
    IsInt64(c.limits.tokensPerHour) && IsInt64(c.limits.tokensPerDay) && c.slots > 0
  }

  /** Whoever holds something outstanding holds a slot. */
  lemma {:induction false} OutstandingPerSlot(requests: seq<Request>, each: nat)
    requires forall r :: r in requests ==> Outstanding(r) <= each
    ensures 0 <= Total(requests, Slot)
    ensures 0 <= Total(requests, Outstanding) <= each * Total(requests, Slot)
  {
    if requests != [] {
      OutstandingPerSlot(requests[..|requests| - 1], each);
      assert requests[|requests| - 1] in requests;
    }
  }

  /** At its admission the other slots are the only source of outstanding tokens. */
  lemma OthersOutstanding(c: Config, requests: seq<Request>, i: nat)
    requires c.slots > 0 && i < |requests| && requests[i].Holding?
    requires Total(requests, Slot) <= c.slots
    requires forall r :: r in requests ==> Outstanding(r) <= c.reservation + c.excess
    ensures Total(requests, Outstanding) <= (c.slots - 1) * (c.reservation + c.excess)
  {
    var others := requests[i := Gone];
    TotalUpdate(requests, i, Gone, Slot);
    TotalUpdate(requests, i, Gone, Outstanding);
    OutstandingPerSlot(others, c.reservation + c.excess);
    MulMonotone(Total(others, Slot), c.slots - 1, c.reservation + c.excess);
  }

  lemma MulMonotone(a: int, b: int, m: nat)
    requires a <= b
    ensures m * a <= b * m
  {
  }

  /** A reservation that a limited window lets through fits, with everything outstanding elsewhere. */
  lemma PassingFits(c: Config, limit: int, count: int, others: int, reservation: nat, worst: nat)
    requires c.slots > 0 && 0 < limit <= MAX_INT64 && 0 <= count && !Q.Over(limit, count, reservation)
    requires worst <= reservation + c.excess && others <= (c.slots - 1) * (c.reservation + c.excess)
    ensures count + others + worst <= Bound(c, limit)
  {
    assert count <= limit - reservation;
  }

  /** The check moves no tokens into a window, and a limited one it looked at is the current one. */
  lemma CheckedCounts(c: Config, k: string, s: State, now: nat, s': State)
    requires 0 <= HourCount(s, k) && 0 <= DayCount(s, k)
    requires s'.windows == Q.After(s.windows, Q.AdmitCall(k, c.limits, now))
    ensures 0 <= HourCount(s', k) <= HourCount(s, k) && 0 <= DayCount(s', k) <= DayCount(s, k)
    ensures c.limits.tokensPerHour > 0 ==> HourCount(s', k) == Q.Current(s.windows, k, now).hour.count
    ensures c.limits.tokensPerDay > 0 ==> DayCount(s', k) == Q.Current(s.windows, k, now).day.count
  {
  }

  lemma AdmitKeepsInv(c: Config, k: string, s: State, s': State, i: nat, r: nat, w: nat, now: nat)
    requires ValidConfig(c) && Inv(c, k, s) && AdmitStep(c, k, s, s', i, r, w, now)
    ensures Inv(c, k, s')
  {
    TotalUpdate(s.requests, i, s'.requests[i], Slot);
    TotalUpdate(s.requests, i, s'.requests[i], Outstanding);
    CheckedCounts(c, k, s, now, s');
    if s'.requests[i].Admitted? {
      var others := Total(s.requests, Outstanding);
      OthersOutstanding(c, s.requests, i);
      if c.limits.tokensPerHour > 0 {
        PassingFits(c, c.limits.tokensPerHour, HourCount(s', k), others, r, w);
      }
      if c.limits.tokensPerDay > 0 {
        PassingFits(c, c.limits.tokensPerDay, DayCount(s', k), others, r, w);
      }
    }
  }

  lemma SettleKeepsInv(c: Config, k: string, s: State, s': State, i: nat, tokens: nat, now: nat)
    requires ValidConfig(c) && Inv(c, k, s) && SettleStep(c, k, s, s', i, tokens, now)
    ensures Inv(c, k, s')
  {
    TotalUpdate(s.requests, i, s'.requests[i], Slot);
    TotalUpdate(s.requests, i, s'.requests[i], Outstanding);
    var q := Q.Current(s.windows, k, now);
    SatAddAtMost(q.hour.count, tokens);
    SatAddAtMost(q.day.count, tokens);
  }

  lemma SatAddAtMost(a: int, b: nat)
    requires 0 <= a <= MAX_INT64
    ensures 0 <= Q.SatAdd(a, b) <= Q.Min(a + b, MAX_INT64)
  {
  }

  lemma AcquireKeepsInv(c: Config, k: string, s: State, s': State, i: nat)
    requires ValidConfig(c) && Inv(c, k, s) && AcquireStep(c, s, s', i)
    ensures Inv(c, k, s')
  {
    TotalUpdate(s.requests, i, Holding, Slot);
    TotalUpdate(s.requests, i, Holding, Outstanding);
  }

  lemma ReleaseKeepsInv(c: Config, k: string, s: State, s': State, i: nat)
    requires ValidConfig(c) && Inv(c, k, s) && ReleaseStep(s, s', i)
    ensures Inv(c, k, s')
  {
    TotalUpdate(s.requests, i, Gone, Slot);
    TotalUpdate(s.requests, i, Gone, Outstanding);
    assert s.requests[i] in s.requests;
  }

  lemma StepKeepsInv(c: Config, k: string, s: State, s': State)
    requires ValidConfig(c) && Inv(c, k, s) && Step(c, k, s, s')
    ensures Inv(c, k, s')
  {
    if s' == s.(requests := s.requests + [Arrived]) {
      TotalAppend(s.requests, Arrived, Slot);
      TotalAppend(s.requests, Arrived, Outstanding);
    } else if i: nat :| AcquireStep(c, s, s', i) {
      AcquireKeepsInv(c, k, s, s', i);
    } else if i: nat, r: nat, w: nat, now: nat :| AdmitStep(c, k, s, s', i, r, w, now) {
      AdmitKeepsInv(c, k, s, s', i, r, w, now);
    } else if i: nat, tokens: nat, now: nat :| SettleStep(c, k, s, s', i, tokens, now) {
      SettleKeepsInv(c, k, s, s', i, tokens, now);
    } else {
      var i: nat :| ReleaseStep(s, s', i);
      ReleaseKeepsInv(c, k, s, s', i);
    }
  }

  lemma {:induction false} RunKeepsInv(c: Config, k: string, run: seq<State>)
    requires ValidConfig(c) && IsRun(c, k, run)
    ensures Inv(c, k, run[|run| - 1])
  {
    if |run| == 1 {
      MulMonotone(0, c.slots - 1, c.reservation + c.excess);
    } else {
      var before := run[..|run| - 1];
      RunKeepsInv(c, k, before);
      StepKeepsInv(c, k, before[|before| - 1], run[|run| - 1]);
    }
  }

  /**
   Starting from an empty window, in every interleaving of slot acquisition, admission,
   settlement and release, and for any clock values: the settled tokens of a limited window plus
   everything admitted requests may still settle is at most
   limit + (slots - 1) * (reservation + excess) + excess, which is limit + (slots - 1) *
   reservation when no settlement exceeds its reservation.
   */
  lemma OvershootBound(c: Config, k: string, run: seq<State>)
    requires ValidConfig(c) && IsRun(c, k, run)
    ensures var s := run[|run| - 1];
            && (c.limits.tokensPerHour > 0 ==> HourCount(s, k) <= HourCount(s, k) + Total(s.requests, Outstanding) <= Bound(c, c.limits.tokensPerHour))
            && (c.limits.tokensPerDay > 0 ==> DayCount(s, k) <= DayCount(s, k) + Total(s.requests, Outstanding) <= Bound(c, c.limits.tokensPerDay))
            && (c.excess == 0 ==> Bound(c, c.limits.tokensPerHour) == c.limits.tokensPerHour + (c.slots - 1) * c.reservation)
  {
    RunKeepsInv(c, k, run);
    OutstandingPerSlot(run[|run| - 1].requests, c.reservation + c.excess);
  }

  // ----- the bound is met, and needs the slots -----

  predicate Limited(l: Q.Limits) {
    l.tokensPerHour > 0 || l.tokensPerDay > 0
  }

  /** The smaller of the limits that are set. */
  function Tightest(l: Q.Limits): int
    requires Limited(l)
  {
    if l.tokensPerHour <= 0 then l.tokensPerDay
    else if l.tokensPerDay <= 0 then l.tokensPerHour
    else Q.Min(l.tokensPerHour, l.tokensPerDay)
  }

  /** At time zero both windows of k hold n tokens. */
  ghost predicate Holds(s: State, k: string, n: int) {
    && Q.Current(s.windows, k, 0) == Q.KeyQuota(Q.Window(0, n), Q.Window(0, n))
    && HourCount(s, k) == n && DayCount(s, k) == n
  }

  predicate Int64Limits(l: Q.Limits) {
    IsInt64(l.tokensPerHour) && IsInt64(l.tokensPerDay) && Limited(l)
  }

  ghost predicate HasRoom(c: Config, s: State) {
    c.slots == 0 || Total(s.requests, Slot) < c.slots
  }

  /** One more request arrives, takes a slot and passes the quota check. */
  lemma AdmitOne(c: Config, k: string, run: seq<State>, reservation: nat, worst: nat, n: int) returns (longer: seq<State>)
    requires IsRun(c, k, run) && Int64Limits(c.limits)
    requires reservation <= c.reservation && worst <= reservation + c.excess
    requires HasRoom(c, run[|run| - 1]) && Holds(run[|run| - 1], k, n) && 0 <= n <= Tightest(c.limits) - reservation
    ensures IsRun(c, k, longer) && Holds(longer[|longer| - 1], k, n)
    ensures longer[|longer| - 1].requests == run[|run| - 1].requests + [Admitted(worst)]
  {
    var s := run[|run| - 1];
    var i := |s.requests|;
    var s1 := s.(requests := s.requests + [Arrived]);
    var s2 := s.(requests := s.requests + [Holding]);
    var s3 := State(Q.After(s.windows, Q.AdmitCall(k, c.limits, 0)), s.requests + [Admitted(worst)]);
    TotalAppend(s.requests, Arrived, Slot);
    assert Step(c, k, s1, s2) by {
      assert s2.requests == s1.requests[i := Holding] && AcquireStep(c, s1, s2, i);
    }
    assert Step(c, k, s2, s3) by {
      assert Passes(c.limits, Q.Current(s.windows, k, 0), reservation);
      assert s3.requests == s2.requests[i := Admitted(worst)] && AdmitStep(c, k, s2, s3, i, reservation, worst, 0);
    }
    longer := run + [s1, s2, s3];
  }

  /** A request that settles one token and is gone. */
  lemma SpendOne(c: Config, k: string, run: seq<State>, n: int) returns (longer: seq<State>)
    requires IsRun(c, k, run) && Int64Limits(c.limits) && c.reservation > 0
    requires HasRoom(c, run[|run| - 1]) && Holds(run[|run| - 1], k, n) && 0 <= n < Tightest(c.limits)
    ensures IsRun(c, k, longer) && Holds(longer[|longer| - 1], k, n + 1)
    ensures longer[|longer| - 1].requests == run[|run| - 1].requests + [Gone]
  {
    var before := run[|run| - 1].requests;
    var i := |before|;
    longer := AdmitOne(c, k, run, 1, 1, n);
    var s := longer[|longer| - 1];
    var s1 := State(Q.Settled(s.windows, k, 1, 0), before + [Request.Settled]);
    var s2 := s1.(requests := before + [Gone]);
    assert s1.requests == s.requests[i := Request.Settled] && SettleStep(c, k, s, s1, i, 1, 0);
    assert s2.requests == s1.requests[i := Gone] && ReleaseStep(s1, s2, i);
    SettledHolds(s, k, n);
    longer := longer + [s1, s2];
  }

  lemma SettledHolds(s: State, k: string, n: int)
    requires Holds(s, k, n) && 0 <= n < MAX_INT64
    ensures Holds(State(Q.Settled(s.windows, k, 1, 0), []), k, n + 1)
  {
    Q.SatAddClamps(n, 1);
  }

  /** n tokens spent one at a time. */
  lemma {:induction false} Spend(c: Config, k: string, n: nat) returns (run: seq<State>)
    requires Int64Limits(c.limits) && c.reservation > 0 && n <= Tightest(c.limits)
    ensures IsRun(c, k, run) && Holds(run[|run| - 1], k, n)
    ensures Total(run[|run| - 1].requests, Slot) == 0 && Total(run[|run| - 1].requests, Outstanding) == 0
  {
    if n == 0 {
      run := [State(map[], [])];
    } else {
      var before := Spend(c, k, n - 1);
      run := SpendOne(c, k, before, n - 1);
      TotalAppend(before[|before| - 1].requests, Gone, Slot);
      TotalAppend(before[|before| - 1].requests, Gone, Outstanding);
    }
  }

  /** m requests on top, all admitted with the largest reservation before any of them settles. */
  lemma {:induction false} AdmitMany(c: Config, k: string, n: nat, m: nat) returns (run: seq<State>)
    requires Int64Limits(c.limits) && 0 < c.reservation && n + c.reservation <= Tightest(c.limits)
    requires c.slots == 0 || m <= c.slots
    ensures IsRun(c, k, run) && Holds(run[|run| - 1], k, n)
    ensures Total(run[|run| - 1].requests, Slot) == m
    ensures Total(run[|run| - 1].requests, Outstanding) == m * (c.reservation + c.excess)
  {
    if m == 0 {
      run := Spend(c, k, n);
    } else {
      var worst := c.reservation + c.excess;
      var before := AdmitMany(c, k, n, m - 1);
      run := AdmitOne(c, k, before, c.reservation, worst, n);
      TotalAppend(before[|before| - 1].requests, Admitted(worst), Slot);
      TotalAppend(before[|before| - 1].requests, Admitted(worst), Outstanding);
      assert m * worst == (m - 1) * worst + worst;
    }
  }

  /**
   The bound is sharp for every setting of the limits and every reservation that can be admitted at
   all: spend the window down to one reservation, then admit every slot.
   */
  lemma BoundIsReached(c: Config, k: string) returns (run: seq<State>)
    requires ValidConfig(c) && Limited(c.limits) && 0 < c.reservation <= Tightest(c.limits)
    ensures IsRun(c, k, run)
    ensures var s := run[|run| - 1];
            && HourCount(s, k) == DayCount(s, k)
            && HourCount(s, k) + Total(s.requests, Outstanding) == Bound(c, Tightest(c.limits))
  {
    var worst := c.reservation + c.excess;
    run := AdmitMany(c, k, Tightest(c.limits) - c.reservation, c.slots);
    assert c.slots * worst == (c.slots - 1) * worst + worst;
  }

  /** Without a concurrency limit no number bounds the overshoot. */
  lemma UnboundedWithoutSlots(c: Config, k: string, bound: nat) returns (run: seq<State>)
    requires c.slots == 0 && Int64Limits(c.limits) && 0 < c.reservation <= Tightest(c.limits)
    ensures IsRun(c, k, run)
    ensures Total(run[|run| - 1].requests, Outstanding) > bound
  {
    run := AdmitMany(c, k, 0, bound + 1);
    assert (bound + 1) * (c.reservation + c.excess) >= bound + 1;
  }
}
