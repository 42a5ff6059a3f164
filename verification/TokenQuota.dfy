/**
 Per-key fixed UTC token windows: admission against them, settlement into them, and their
 reconstruction from the usage log after a restart.
 */
module TokenQuota {
  import opened Int64
  import opened Sums

  const HOUR: nat := 3600
  const DAY: nat := 86400

  /** The two fixed window lengths, in seconds. */
  type Period = p: nat | p == HOUR || p == DAY witness HOUR

  /** hourKey and dayKey: the start of the fixed window that contains Unix time t. */
  function WindowKey(t: nat, period: Period): (start: nat)
    ensures start <= t < start + period
    ensures start % period == 0
  {
    if period == HOUR then t - t % HOUR else t - t % DAY
  }

  lemma WindowKeyMonotone(t: nat, u: nat, period: Period)
    requires t <= u
    ensures WindowKey(t, period) <= WindowKey(u, period)
  {
    if period == HOUR {
      assert t / HOUR <= u / HOUR;
    } else {
      assert t / DAY <= u / DAY;
    }
  }

  function Min(a: int, b: int): int { if a <= b then a else b }

  /** satAdd, on int64 values. */
  function SatAdd(a: int, b: int): int {
    if b > 0 && a > Wrap(MAX_INT64 - b) then MAX_INT64
    else
      var s := Wrap(a + b);
      if s < 0 then 0 else s
  }

  /** On a counter, which is never negative, satAdd is exact addition clamped to 0..MaxInt64. */
  lemma SatAddClamps(a: int, b: int)
    requires 0 <= a <= MAX_INT64 && IsInt64(b)
    ensures SatAdd(a, b) == if a + b < 0 then 0 else Min(a + b, MAX_INT64)
  {
  }

  datatype Window = Window(start: int, count: int)
  datatype KeyQuota = KeyQuota(hour: Window, day: Window)
  datatype Limits = Limits(tokensPerHour: int, tokensPerDay: int)
  datatype Reason = NoReason | TokensPerHour | TokensPerDay

  /** One line of the usage log, after decoding. */
  datatype Record = Record(time: nat, keyID: string, charged: int, total: int)

  type States = map<string, KeyQuota>

  // ----- one window, one key -----

  function Rolled(w: Window, key: int): Window {
    if key > w.start then Window(key, 0) else w
  }

  function Added(w: Window, tokens: int): Window {
    w.(count := SatAdd(w.count, tokens))
  }

  function RolledTo(q: KeyQuota, now: nat): KeyQuota {
    KeyQuota(Rolled(q.hour, WindowKey(now, HOUR)), Rolled(q.day, WindowKey(now, DAY)))
  }

  /** The state stateFor hands out for keyID at time now. */
  function Current(s: States, keyID: string, now: nat): KeyQuota {
    if keyID in s then RolledTo(s[keyID], now)
    else KeyQuota(Window(WindowKey(now, HOUR), 0), Window(WindowKey(now, DAY), 0))
  }

  predicate Unlimited(l: Limits) {
    l.tokensPerHour <= 0 && l.tokensPerDay <= 0
  }

  /** Whether one window lets the reservation through; the subtraction is int64. */
  predicate Over(limit: int, count: int, reservation: int) {
    limit > 0 && (reservation > limit || count > Wrap(limit - reservation))
  }

  /** A limited window refuses exactly what would take it over its limit, although the code subtracts in int64. */
  lemma OverIff(limit: int, count: int, reservation: int)
    requires IsInt64(limit) && 0 <= count <= MAX_INT64 && 0 <= reservation <= MAX_INT64
    ensures Over(limit, count, reservation) <==> limit > 0 && count + reservation > limit
  {
  }

  function Settled(s: States, keyID: string, tokens: int, now: nat): States {
    if tokens <= 0 then s
    else
      var q := Current(s, keyID, now);
      s[keyID := KeyQuota(Added(q.hour, tokens), Added(q.day, tokens))]
  }

  /** What one log line contributes: charged_tokens, or total_tokens for records without it. */
  function ReplayTokens(r: Record): int {
    if r.charged == 0 then r.total else r.charged
  }

  function Replayed(s: States, r: Record, now: nat): States {
    var tokens := ReplayTokens(r);
    if r.keyID == "" || tokens <= 0 then s
    else
      var q := Current(s, r.keyID, now);
      s[r.keyID := KeyQuota(
          if WindowKey(r.time, HOUR) == q.hour.start then Added(q.hour, tokens) else q.hour,
          if WindowKey(r.time, DAY) == q.day.start then Added(q.day, tokens) else q.day)]
  }

  class Quota {
    var states: States

    constructor ()
      ensures states == map[]
    {
      states := map[];
    }

    /** Creates or rolls the windows of one key; no other key is touched. */
    method StateFor(keyID: string, now: nat) returns (q: KeyQuota)
      modifies this
      ensures q == Current(old(states), keyID, now)
      ensures states == old(states)[keyID := q]
    {
      var h, d := WindowKey(now, HOUR), WindowKey(now, DAY);
      if keyID !in states {
        q := KeyQuota(Window(h, 0), Window(d, 0));
        states := states[keyID := q];
        return;
      }
      q := states[keyID];
      if h > q.hour.start {
        q := q.(hour := Window(h, 0));
      }
      if d > q.day.start {
        q := q.(day := Window(d, 0));
      }
      states := states[keyID := q];
    }

    method Admit(keyID: string, limits: Limits, reservation: int, now: nat) returns (ok: bool, reason: Reason)
      modifies this
      ensures states == if Unlimited(limits) then old(states)
                        else old(states)[keyID := Current(old(states), keyID, now)]
      ensures var q := Current(old(states), keyID, now);
              && (reason == TokensPerHour <==> Over(limits.tokensPerHour, q.hour.count, reservation))
              && (reason == TokensPerDay <==> !Over(limits.tokensPerHour, q.hour.count, reservation)
                                              && Over(limits.tokensPerDay, q.day.count, reservation))
              && (ok <==> reason == NoReason)
    {
      if limits.tokensPerHour <= 0 && limits.tokensPerDay <= 0 {
        return true, NoReason;
      }
      var q := StateFor(keyID, now);
      if limits.tokensPerHour > 0 && (reservation > limits.tokensPerHour || q.hour.count > Wrap(limits.tokensPerHour - reservation)) {
        return false, TokensPerHour;
      }
      if limits.tokensPerDay > 0 && (reservation > limits.tokensPerDay || q.day.count > Wrap(limits.tokensPerDay - reservation)) {
        return false, TokensPerDay;
      }
      return true, NoReason;
    }

    method Settle(keyID: string, tokens: int, now: nat)
      modifies this
      ensures states == Settled(old(states), keyID, tokens, now)
    {
      if tokens <= 0 {
        return;
      }
      var q := StateFor(keyID, now);
      q := KeyQuota(Added(q.hour, tokens), q.day);
      q := KeyQuota(q.hour, Added(q.day, tokens));
      states := states[keyID := q];
    }

    method ReplayLine(r: Record, now: nat)
      modifies this
      ensures states == Replayed(old(states), r, now)
    {
      var tokens := r.charged;
      if tokens == 0 {
        tokens := r.total;
      }
      if r.keyID == "" || tokens <= 0 {
        return;
      }
      var q := StateFor(r.keyID, now);
      if WindowKey(r.time, HOUR) == q.hour.start {
        q := q.(hour := Added(q.hour, tokens));
      }
      if WindowKey(r.time, DAY) == q.day.start {
        q := q.(day := Added(q.day, tokens));
      }
      states := states[r.keyID := q];
    }

    /** Replay of a whole decoded log at one instant, as the bounded scanner drives it. */
    method Replay(log: seq<Record>, now: nat)
      modifies this
      ensures states == ReplayAll(old(states), log, now)
    {
      for i := 0 to |log|
        invariant states == ReplayAll(old(states), log[..i], now)
      {
        assert log[..i + 1][..i] == log[..i];
        ReplayLine(log[i], now);
      }
      assert log[..|log|] == log;
    }
  }

  function ReplayAll(s: States, log: seq<Record>, now: nat): States {
    if log == [] then s
    else Replayed(ReplayAll(s, log[..|log| - 1], now), log[|log| - 1], now)
  }

  // ----- a run of the daemon -----

  /**
   A call under the quota lock, in lock order. A settle carries the record account writes for it,
   which has a time of its own: account reads the clock once for the settle and again for the record.
   */
  datatype Event =
    | AdmitCall(keyID: string, limits: Limits, now: nat)
    | SettleCall(record: Record, now: nat)

  function After(s: States, e: Event): States {
    match e
    case AdmitCall(keyID, limits, now) => if Unlimited(limits) then s else s[keyID := Current(s, keyID, now)]
    case SettleCall(r, now) => Settled(s, r.keyID, r.charged, now)
  }

  function Live(events: seq<Event>): States {
    if events == [] then map[] else After(Live(events[..|events| - 1]), events[|events| - 1])
  }

  /** The records account hands to the writer, one a settle, in the order of the settles. */
  function LogOf(events: seq<Event>): seq<Record> {
    if events == [] then []
    else
      LogOf(events[..|events| - 1]) +
      match events[|events| - 1] { case AdmitCall(_, _, _) => [] case SettleCall(r, _) => [r] }
  }

  /** Any line that decodes. */
  predicate IsRecord(r: Record) {
    IsInt64(r.charged) && IsInt64(r.total)
  }

  /** What account guarantees of a record it writes for a key of the store. */
  predicate Faithful(r: Record) {
    r.keyID != "" && IsRecord(r) && (r.charged == 0 ==> r.total <= 0)
  }

  predicate WellFormed(events: seq<Event>) {
    forall e :: e in events && e.SettleCall? ==> Faithful(e.record)
  }

  /** The call rolls or creates the windows of key k. */
  predicate Touches(e: Event, k: string) {
    match e
    case AdmitCall(keyID, limits, _) => keyID == k && !Unlimited(limits)
    case SettleCall(r, _) => r.keyID == k && r.charged > 0
  }

  function ChargeOf(e: Event, k: string): nat {
    if e.SettleCall? && e.record.keyID == k && e.record.charged > 0 then e.record.charged else 0
  }

  // ----- what the counters mean, without reference to how they are kept -----

  /** The newest window of key k that any call so far was stamped in; -1 before the first. */
  ghost function Newest(events: seq<Event>, k: string, period: Period): (n: int)
    ensures n >= -1
  {
    if events == [] then -1
    else
      var e, before := events[|events| - 1], Newest(events[..|events| - 1], k, period);
      if Touches(e, k) && WindowKey(e.now, period) > before then WindowKey(e.now, period) else before
  }

  /** Tokens of key k charged while h was its newest window, whatever their own timestamps. */
  ghost function Landed(events: seq<Event>, k: string, period: Period, h: int): nat
  {
    if events == [] then 0
    else
      Landed(events[..|events| - 1], k, period, h) +
      if Newest(events, k, period) == h then ChargeOf(events[|events| - 1], k) else 0
  }

  /** The record of this call has its time in window h. */
  predicate StampedIn(e: Event, period: Period, h: int) {
    e.SettleCall? && WindowKey(e.record.time, period) == h
  }

  /** Tokens of key k whose record has its time in window h. */
  ghost function Stamped(events: seq<Event>, k: string, period: Period, h: int): nat
  {
    if events == [] then 0
    else
      Stamped(events[..|events| - 1], k, period, h) +
      if StampedIn(events[|events| - 1], period, h) then ChargeOf(events[|events| - 1], k) else 0
  }

  /** Tokens of key k charged while h was its newest window whose record has its time elsewhere. */
  ghost function Missed(events: seq<Event>, k: string, period: Period, h: int): nat
  {
    if events == [] then 0
    else
      Missed(events[..|events| - 1], k, period, h) +
      if Newest(events, k, period) == h && !StampedIn(events[|events| - 1], period, h) then ChargeOf(events[|events| - 1], k) else 0
  }

  /** Tokens of key k charged while another window was its newest whose record has its time in h. */
  ghost function Extra(events: seq<Event>, k: string, period: Period, h: int): nat
  {
    if events == [] then 0
    else
      Extra(events[..|events| - 1], k, period, h) +
      if Newest(events, k, period) != h && StampedIn(events[|events| - 1], period, h) then ChargeOf(events[|events| - 1], k) else 0
  }

  lemma {:induction false} MissedAndExtra(events: seq<Event>, k: string, period: Period, h: int)
    ensures Stamped(events, k, period, h) == Landed(events, k, period, h) - Missed(events, k, period, h) + Extra(events, k, period, h)
  {
    if events != [] {
      MissedAndExtra(events[..|events| - 1], k, period, h);
    }
  }

  ghost function Reads(w: Window, events: seq<Event>, k: string, period: Period): bool
  {
    var n := Newest(events, k, period);
    w == Window(n, Min(Landed(events, k, period, n), MAX_INT64))
  }

  /** Before a window is opened nothing has landed in it or in a later one. */
  lemma {:induction false} NothingLandedAhead(events: seq<Event>, k: string, period: Period, h: int)
    requires h > Newest(events, k, period)
    ensures Landed(events, k, period, h) == 0
  {
    if events != [] {
      NothingLandedAhead(events[..|events| - 1], k, period, h);
    }
  }

  /**
   The live counters are exactly the newest window ever stamped and the saturated sum of what was
   charged since it opened. In particular a window never moves back, whatever order the calls
   take the lock in.
   */
  lemma {:induction false} LiveCounts(events: seq<Event>, k: string)
    requires WellFormed(events)
    ensures k in Live(events) <==> Newest(events, k, HOUR) >= 0
    ensures k in Live(events) <==> Newest(events, k, DAY) >= 0
    ensures k in Live(events) ==> Reads(Live(events)[k].hour, events, k, HOUR) && Reads(Live(events)[k].day, events, k, DAY)
  {
    if events != [] {
      var before, e := events[..|events| - 1], events[|events| - 1];
      LiveCounts(before, k);
      assert e in events;
      if Touches(e, k) {
        var q := Current(Live(before), k, e.now);
        WindowStep(before, e, k, HOUR, if k in Live(before) then Live(before)[k].hour else Window(-1, 0));
        WindowStep(before, e, k, DAY, if k in Live(before) then Live(before)[k].day else Window(-1, 0));
      }
    }
  }

  /** One touching call, seen by one window. */
  lemma WindowStep(before: seq<Event>, e: Event, k: string, period: Period, w: Window)
    requires Touches(e, k)
    requires e.SettleCall? ==> Faithful(e.record)
    requires if Newest(before, k, period) >= 0 then Reads(w, before, k, period) else w == Window(-1, 0)
    ensures var rolled := Rolled(w, WindowKey(e.now, period));
            Reads(if e.SettleCall? then Added(rolled, e.record.charged) else rolled, before + [e], k, period)
    ensures Newest(before + [e], k, period) >= 0
  {
    assert (before + [e])[..|before|] == before;
    var n := Newest(before + [e], k, period);
    if n > Newest(before, k, period) {
      NothingLandedAhead(before, k, period, n);
    }
  }

  // ----- replay -----

  /** Every window of a replayed state is now's window. */
  ghost predicate AtNow(s: States, now: nat) {
    forall k :: k in s ==> s[k].hour.start == WindowKey(now, HOUR) && s[k].day.start == WindowKey(now, DAY)
  }

  /** What one log line adds to the windows of key k. */
  lemma ReplayStep(s: States, r: Record, k: string, now: nat)
    requires AtNow(s, now)
    ensures AtNow(Replayed(s, r, now), now)
    ensures var q, q' := Current(s, k, now), Current(Replayed(s, r, now), k, now);
            if r.keyID == k && k != "" && ReplayTokens(r) > 0 then
              && q'.hour == (if WindowKey(r.time, HOUR) == WindowKey(now, HOUR) then Added(q.hour, ReplayTokens(r)) else q.hour)
              && q'.day == (if WindowKey(r.time, DAY) == WindowKey(now, DAY) then Added(q.day, ReplayTokens(r)) else q.day)
            else q' == q
  {
  }

  /** What a record is worth: what was charged, or, from before charges were recorded, its total. */
  function Worth(r: Record): nat {
    if r.charged > 0 then r.charged else if r.charged == 0 && r.total > 0 then r.total else 0
  }

  /** What a record adds to window h of key k; one without a key adds nothing. */
  ghost function StampOf(k: string, period: Period, h: int): Record -> int {
    (r: Record) => if r.keyID == k && k != "" && WindowKey(r.time, period) == h then Worth(r) else 0
  }

  lemma StampedStep(before: seq<Record>, r: Record, k: string, period: Period, h: int, w: Window)
    requires IsRecord(r) && w == Window(h, Min(Total(before, StampOf(k, period, h)), MAX_INT64))
    requires Total(before, StampOf(k, period, h)) >= 0
    ensures (if r.keyID == k && k != "" && ReplayTokens(r) > 0 && WindowKey(r.time, period) == h then Added(w, ReplayTokens(r)) else w)
         == Window(h, Min(Total(before + [r], StampOf(k, period, h)), MAX_INT64))
  {
    TotalAppend(before, r, StampOf(k, period, h));
  }

  /** The replayed counter of key k, for any log: the saturated sum of what its records stamped in now's window are worth. */
  lemma {:induction false} ReplayCounts(log: seq<Record>, k: string, now: nat)
    requires forall r :: r in log ==> IsRecord(r)
    ensures var s := ReplayAll(map[], log, now);
            var hour, day := WindowKey(now, HOUR), WindowKey(now, DAY);
            && AtNow(s, now)
            && Current(s, k, now).hour == Window(hour, Min(Total(log, StampOf(k, HOUR, hour)), MAX_INT64))
            && Current(s, k, now).day == Window(day, Min(Total(log, StampOf(k, DAY, day)), MAX_INT64))
  {
    if log != [] {
      var before, r := log[..|log| - 1], log[|log| - 1];
      assert log == before + [r];
      ReplayCounts(before, k, now);
      var s := ReplayAll(map[], before, now);
      ReplayStep(s, r, k, now);
      TotalNonNegative(before, StampOf(k, HOUR, WindowKey(now, HOUR)));
      TotalNonNegative(before, StampOf(k, DAY, WindowKey(now, DAY)));
      StampedStep(before, r, k, HOUR, WindowKey(now, HOUR), Current(s, k, now).hour);
      StampedStep(before, r, k, DAY, WindowKey(now, DAY), Current(s, k, now).day);
    }
  }

  lemma StampIsCharge(e: Event, k: string, period: Period, h: int)
    requires e.SettleCall? && Faithful(e.record)
    ensures StampOf(k, period, h)(e.record) == if StampedIn(e, period, h) then ChargeOf(e, k) else 0
  {
  }

  /** The whole log's sum, over the settles it came from. */
  lemma {:induction false} LogStamps(events: seq<Event>, k: string, period: Period, h: int)
    requires WellFormed(events)
    ensures Total(LogOf(events), StampOf(k, period, h)) == Stamped(events, k, period, h)
  {
    if events != [] {
      var before, e := events[..|events| - 1], events[|events| - 1];
      LogStamps(before, k, period, h);
      if e.SettleCall? {
        assert e in events;
        StampIsCharge(e, k, period, h);
        TotalAppend(LogOf(before), e.record, StampOf(k, period, h));
      } else {
        assert LogOf(before) + [] == LogOf(before);
      }
    }
  }

  lemma {:induction false} LoggedAreFaithful(events: seq<Event>)
    requires WellFormed(events)
    ensures forall r :: r in LogOf(events) ==> Faithful(r)
  {
    if events != [] {
      LoggedAreFaithful(events[..|events| - 1]);
      assert events[|events| - 1] in events;
    }
  }

  /** A log the writer may leave: records may be dropped, and enqueued in another order than settled. */
  ghost predicate LeftBy(log: seq<Record>, events: seq<Event>) {
    multiset(log) <= multiset(LogOf(events))
  }

  /** No record was dropped. */
  ghost predicate CompleteFor(log: seq<Record>, events: seq<Event>) {
    multiset(log) == multiset(LogOf(events))
  }

  /** What such a log restores to one window, against what was stamped in it. */
  lemma RestoredCount(events: seq<Event>, log: seq<Record>, k: string, period: Period, h: int)
    requires WellFormed(events) && LeftBy(log, events)
    ensures Total(log, StampOf(k, period, h)) <= Stamped(events, k, period, h)
    ensures CompleteFor(log, events) ==> Total(log, StampOf(k, period, h)) == Stamped(events, k, period, h)
  {
    LogStamps(events, k, period, h);
    TotalOfSome(log, LogOf(events), StampOf(k, period, h));
  }

  lemma LeftAreFaithful(events: seq<Event>, log: seq<Record>)
    requires WellFormed(events) && LeftBy(log, events)
    ensures forall r :: r in log ==> Faithful(r)
  {
    LoggedAreFaithful(events);
    forall r | r in log ensures Faithful(r) {
      assert r in multiset(log) && r in multiset(LogOf(events));
    }
  }

  lemma {:induction false} NewestBound(events: seq<Event>, k: string, period: Period, now: nat)
    requires forall e :: e in events ==> e.now <= now
    ensures Newest(events, k, period) <= WindowKey(now, period)
  {
    if events != [] {
      NewestBound(events[..|events| - 1], k, period, now);
      assert events[|events| - 1] in events;
      WindowKeyMonotone(events[|events| - 1].now, now, period);
    }
  }

  lemma RolledCount(events: seq<Event>, k: string, period: Period, now: nat, w: Window)
    requires forall e :: e in events ==> e.now <= now
    requires Newest(events, k, period) >= 0 && Reads(w, events, k, period)
    ensures var h := WindowKey(now, period);
            Rolled(w, h) == Window(h, Min(Landed(events, k, period, h), MAX_INT64))
  {
    NewestBound(events, k, period, now);
    if WindowKey(now, period) > Newest(events, k, period) {
      NothingLandedAhead(events, k, period, WindowKey(now, period));
    }
  }

  /** The live counter of key k rolled to now: the saturated sum of what was charged in now's window. */
  lemma LiveRolledCounts(events: seq<Event>, k: string, now: nat)
    requires WellFormed(events)
    requires forall e :: e in events ==> e.now <= now
    ensures var q := Current(Live(events), k, now);
            var hour, day := WindowKey(now, HOUR), WindowKey(now, DAY);
            && q.hour == Window(hour, Min(Landed(events, k, HOUR, hour), MAX_INT64))
            && q.day == Window(day, Min(Landed(events, k, DAY, day), MAX_INT64))
  {
    LiveCounts(events, k);
    if k in Live(events) {
      RolledCount(events, k, HOUR, now, Live(events)[k].hour);
      RolledCount(events, k, DAY, now, Live(events)[k].day);
    } else {
      NothingLandedAhead(events, k, HOUR, WindowKey(now, HOUR));
      NothingLandedAhead(events, k, DAY, WindowKey(now, DAY));
    }
  }

  /** Replay counts no more than live in window h: at least as many tokens left it by the second clock reading as came to it, or live is saturated. */
  ghost predicate Within(events: seq<Event>, k: string, period: Period, h: int) {
    Extra(events, k, period, h) <= Missed(events, k, period, h) || Landed(events, k, period, h) >= MAX_INT64
  }

  /** Replay and live agree on window h: as many tokens left it by the second clock reading as came to it, or both are saturated. */
  ghost predicate Agrees(events: seq<Event>, k: string, period: Period, h: int) {
    || Extra(events, k, period, h) == Missed(events, k, period, h)
    || (Landed(events, k, period, h) >= MAX_INT64 && Stamped(events, k, period, h) >= MAX_INT64)
  }

  /** What a log restores of key k's windows, next to what the daemon that wrote it held. */
  ghost predicate RestoresWithin(events: seq<Event>, log: seq<Record>, k: string, now: nat, period: Period) {
    var live, replayed := Current(Live(events), k, now), Current(ReplayAll(map[], log, now), k, now);
    if period == HOUR then replayed.hour.start == live.hour.start && replayed.hour.count <= live.hour.count
    else replayed.day.start == live.day.start && replayed.day.count <= live.day.count
  }

  ghost predicate RestoresExactly(events: seq<Event>, log: seq<Record>, k: string, now: nat, period: Period) {
    var live, replayed := Current(Live(events), k, now), Current(ReplayAll(map[], log, now), k, now);
    if period == HOUR then replayed.hour == live.hour else replayed.day == live.day
  }

  lemma Restored(events: seq<Event>, log: seq<Record>, k: string, now: nat, period: Period)
    requires WellFormed(events) && LeftBy(log, events)
    requires forall e :: e in events ==> e.now <= now
    ensures var h := WindowKey(now, period);
            var live, replayed := Min(Landed(events, k, period, h), MAX_INT64), Min(Total(log, StampOf(k, period, h)), MAX_INT64);
            && (RestoresWithin(events, log, k, now, period) <==> replayed <= live)
            && (RestoresExactly(events, log, k, now, period) <==> replayed == live)
  {
    LeftAreFaithful(events, log);
    LiveRolledCounts(events, k, now);
    ReplayCounts(log, k, now);
  }

  /**
   A complete log, in any order, restores a window exactly if and only if as many tokens were
   recorded in it that landed elsewhere as landed in it and were recorded elsewhere, or both counts
   are saturated.
   */
  lemma ReplayEqualsLiveIff(events: seq<Event>, log: seq<Record>, k: string, now: nat, period: Period)
    requires WellFormed(events) && CompleteFor(log, events)
    requires forall e :: e in events ==> e.now <= now
    ensures RestoresExactly(events, log, k, now, period) <==> Agrees(events, k, period, WindowKey(now, period))
  {
    Restored(events, log, k, now, period);
    RestoredCount(events, log, k, period, WindowKey(now, period));
    MissedAndExtra(events, k, period, WindowKey(now, period));
  }

  /** Whatever the writer drops or reorders, its log restores no more than the live window held: exactly when this holds of the settles. */
  lemma ReplayWithinLiveIff(events: seq<Event>, k: string, now: nat, period: Period)
    requires WellFormed(events)
    requires forall e :: e in events ==> e.now <= now
    ensures (forall log | LeftBy(log, events) :: RestoresWithin(events, log, k, now, period)) <==> Within(events, k, period, WindowKey(now, period))
  {
    MissedAndExtra(events, k, period, WindowKey(now, period));
    if Within(events, k, period, WindowKey(now, period)) {
      forall log | LeftBy(log, events) ensures RestoresWithin(events, log, k, now, period) {
        Restored(events, log, k, now, period);
        RestoredCount(events, log, k, period, WindowKey(now, period));
      }
    } else {
      var log := LogOf(events);
      Restored(events, log, k, now, period);
      RestoredCount(events, log, k, period, WindowKey(now, period));
      assert LeftBy(log, events) && !RestoresWithin(events, log, k, now, period);
    }
  }

  /** No boundary of the period falls between the two clock readings of any settle. */
  predicate Punctual(events: seq<Event>, period: Period) {
    forall e :: e in events && e.SettleCall? ==> WindowKey(e.record.time, period) == WindowKey(e.now, period)
  }

  /** Then nothing is recorded in the newest window, or in a later one, that did not land there. */
  lemma {:induction false} PunctualHasNoExtra(events: seq<Event>, k: string, period: Period, h: int)
    requires Punctual(events, period) && h >= Newest(events, k, period)
    ensures Extra(events, k, period, h) == 0
  {
    if events != [] {
      PunctualHasNoExtra(events[..|events| - 1], k, period, h);
      assert events[|events| - 1] in events;
    }
  }

  /**
   When no boundary falls between the two readings, replaying a log, whatever the writer dropped or
   reordered, never restores more than the live window held.
   */
  lemma ReplayNeverExceedsLive(events: seq<Event>, log: seq<Record>, k: string, now: nat, period: Period)
    requires WellFormed(events) && LeftBy(log, events) && Punctual(events, period)
    requires forall e :: e in events ==> e.now <= now
    ensures RestoresWithin(events, log, k, now, period)
  {
    NewestBound(events, k, period, now);
    PunctualHasNoExtra(events, k, period, WindowKey(now, period));
    ReplayWithinLiveIff(events, k, now, period);
  }

  predicate Ordered(events: seq<Event>) {
    forall i, j :: 0 <= i < j < |events| ==> events[i].now <= events[j].now
  }

  /** With nondecreasing timestamps no window is newer than the last call's. */
  lemma {:induction false} OrderedNewest(events: seq<Event>, k: string, period: Period, n: nat)
    requires Ordered(events) && n < |events|
    ensures Newest(events[..n + 1], k, period) <= WindowKey(events[n].now, period)
  {
    assert events[..n + 1][..n] == events[..n];
    if n > 0 {
      OrderedNewest(events, k, period, n - 1);
      WindowKeyMonotone(events[n - 1].now, events[n].now, period);
    }
  }

  /**
   When the calls took the lock in timestamp order and no boundary fell between the two readings of
   a settle, a complete log restores the live window exactly.
   */
  lemma ReplayEqualsLiveInOrder(events: seq<Event>, log: seq<Record>, k: string, now: nat, period: Period)
    requires WellFormed(events) && Ordered(events) && Punctual(events, period) && CompleteFor(log, events)
    requires forall e :: e in events ==> e.now <= now
    ensures RestoresExactly(events, log, k, now, period)
  {
    OrderedLands(events, k, period, WindowKey(now, period));
    ReplayEqualsLiveIff(events, log, k, now, period);
  }

  lemma {:induction false} OrderedLands(events: seq<Event>, k: string, period: Period, h: int)
    requires Ordered(events) && Punctual(events, period)
    ensures Missed(events, k, period, h) == Extra(events, k, period, h) == 0
  {
    if events != [] {
      var n := |events| - 1;
      OrderedLands(events[..n], k, period, h);
      OrderedNewest(events, k, period, n);
      assert events[..n + 1] == events && events[n] in events;
    }
  }

  /**
   A settle stamped before an hour boundary that takes the lock after an admit stamped after it: it
   is counted live in the new hour, and by replay in neither the new hour nor any other to come.
   */
  lemma LateSettleIsOvercounted(k: string, tokens: int, early: nat, late: nat)
    requires k != "" && 0 < tokens < MAX_INT64 && WindowKey(early, HOUR) < WindowKey(late, HOUR)
    ensures var r := Record(early, k, tokens, tokens);
            var events := [AdmitCall(k, Limits(MAX_INT64, 0), late), SettleCall(r, early)];
            && WellFormed(events) && CompleteFor([r], events)
            && Current(ReplayAll(map[], [r], late), k, late).hour.count == 0
            && Current(Live(events), k, late).hour.count == tokens
  {
    var r := Record(early, k, tokens, tokens);
    var first := AdmitCall(k, Limits(MAX_INT64, 0), late);
    EarlierWindow(early, late);
    assert [first, SettleCall(r, early)] == [] + [first] + [SettleCall(r, early)];
    LateLands(first, r, early, k, WindowKey(late, HOUR));
    LiveCountIs([first, SettleCall(r, early)], k, late, tokens);
    RestoredIs(r, k, late, 0);
  }

  lemma EarlierWindow(early: nat, late: nat)
    requires WindowKey(early, HOUR) < WindowKey(late, HOUR)
    ensures early <= late
  {
    if early > late {
      WindowKeyMonotone(late, early, HOUR);
    }
  }

  /**
   A settle just before an hour boundary whose record is stamped just after it: it is counted live
   in the old hour only, and replay counts it in the new one.
   */
  lemma BoundaryRecordIsOverRestored(k: string, tokens: int, early: nat, late: nat)
    requires k != "" && 0 < tokens < MAX_INT64 && WindowKey(early, HOUR) < WindowKey(late, HOUR)
    ensures var r := Record(late, k, tokens, tokens);
            var events := [SettleCall(r, early)];
            && WellFormed(events) && CompleteFor([r], events)
            && Current(ReplayAll(map[], [r], late), k, late).hour.count == tokens
            && Current(Live(events), k, late).hour.count == 0
  {
    var r := Record(late, k, tokens, tokens);
    EarlierWindow(early, late);
    assert [SettleCall(r, early)] == [] + [SettleCall(r, early)];
    OneMore([], SettleCall(r, early), k, HOUR, WindowKey(late, HOUR));
    LiveCountIs([SettleCall(r, early)], k, late, 0);
    RestoredIs(r, k, late, tokens);
  }

  lemma LiveCountIs(events: seq<Event>, k: string, late: nat, tokens: int)
    requires WellFormed(events) && forall e :: e in events ==> e.now <= late
    requires Landed(events, k, HOUR, WindowKey(late, HOUR)) == tokens < MAX_INT64
    ensures Current(Live(events), k, late).hour.count == tokens
  {
    LiveRolledCounts(events, k, late);
  }

  lemma RestoredIs(r: Record, k: string, late: nat, tokens: int)
    requires IsRecord(r) && StampOf(k, HOUR, WindowKey(late, HOUR))(r) == tokens < MAX_INT64
    ensures Current(ReplayAll(map[], [r], late), k, late).hour.count == tokens
  {
    ReplayCounts([r], k, late);
    TotalAppend([], r, StampOf(k, HOUR, WindowKey(late, HOUR)));
    assert [] + [r] == [r];
  }

  lemma LateLands(first: Event, r: Record, early: nat, k: string, h: int)
    requires first.AdmitCall? && Touches(first, k) && WindowKey(first.now, HOUR) == h >= 0
    requires r.keyID == k && r.charged > 0 && WindowKey(early, HOUR) < h
    ensures Landed([] + [first] + [SettleCall(r, early)], k, HOUR, h) == r.charged
    ensures LogOf([] + [first] + [SettleCall(r, early)]) == [r]
  {
    OneMore([], first, k, HOUR, h);
    OneMore([] + [first], SettleCall(r, early), k, HOUR, h);
  }

  lemma OneMore(before: seq<Event>, e: Event, k: string, period: Period, h: int)
    ensures Newest(before + [e], k, period)
         == if Touches(e, k) && WindowKey(e.now, period) > Newest(before, k, period) then WindowKey(e.now, period) else Newest(before, k, period)
    ensures Landed(before + [e], k, period, h) == Landed(before, k, period, h) + if Newest(before + [e], k, period) == h then ChargeOf(e, k) else 0
    ensures LogOf(before + [e]) == LogOf(before) + if e.SettleCall? then [e.record] else []
  {
    assert (before + [e])[..|before|] == before;
  }
}
