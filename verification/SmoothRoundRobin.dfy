/** Smooth weighted round-robin over the eligible replicas of one model. */
module SmoothRoundRobin {

  predicate Within(cands: seq<nat>, n: nat) {
    forall k :: 0 <= k < |cands| ==> cands[k] < n
  }

  predicate Increasing(cands: seq<nat>) {
    forall j, k :: 0 <= j < k < |cands| ==> cands[j] < cands[k]
  }

  /** Sum of s over the positions in cands. */
  ghost function SumAt(s: seq<int>, cands: seq<nat>): int
    requires Within(cands, |s|)
  {
    if cands == [] then 0 else SumAt(s, cands[..|cands| - 1]) + s[cands[|cands| - 1]]
  }

  ghost function Sum(s: seq<int>): int {
    if s == [] then 0 else Sum(s[..|s| - 1]) + s[|s| - 1]
  }

  /** Eligible replica positions, as Select collects them: in order and without repetition. */
  predicate IsCands(cands: seq<nat>, n: nat) {
    cands != [] && Within(cands, n) && Increasing(cands)
  }

  predicate IsWeights(weights: seq<int>) {
    forall i :: 0 <= i < |weights| ==> weights[i] >= 1
  }

  /** Every eligible counter raised by its weight. */
  function Raised(current: seq<int>, weights: seq<int>, cands: seq<nat>): (r: seq<int>)
    requires |current| == |weights|
    ensures |r| == |current|
  {
    seq(|current|, i requires 0 <= i < |current| => current[i] + if i in cands then weights[i] else 0)
  }

  /** best is eligible and has the largest counter, at the earliest position on a tie. */
  predicate IsFirstMax(current: seq<int>, cands: seq<nat>, best: nat)
    requires Within(cands, |current|)
  {
    && best in cands
    && (forall k :: 0 <= k < |cands| ==> current[cands[k]] <= current[best])
    && (forall k :: 0 <= k < |cands| && cands[k] < best ==> current[cands[k]] < current[best])
  }

  /** One call of nextWRR: raise the eligible counters, pick the first largest, charge it the total. */
  ghost predicate Next(current: seq<int>, weights: seq<int>, cands: seq<nat>, best: nat, current': seq<int>) {
    && |current| == |weights| && IsCands(cands, |current|)
    && var r := Raised(current, weights, cands);
       && IsFirstMax(r, cands, best)
       && current' == r[best := r[best] - SumAt(weights, cands)]
  }

  /** In numbers: no eligible replica's counter and weight together exceed the pick's, and an earlier one's fall short. */
  lemma PicksTheFirstLargest(current: seq<int>, weights: seq<int>, cands: seq<nat>, best: nat, current': seq<int>, i: nat)
    requires Next(current, weights, cands, best, current') && i in cands
    ensures best in cands && best < |current| && i < |current|
    ensures current[i] + weights[i] <= current[best] + weights[best]
    ensures i < best ==> current[i] + weights[i] < current[best] + weights[best]
  {
    var k :| 0 <= k < |cands| && cands[k] == i;
  }

  /** Raising the eligible counters one at a time. */
  lemma RaiseOne(current: seq<int>, weights: seq<int>, cands: seq<nat>, k: nat)
    requires |current| == |weights| && Within(cands, |current|) && Increasing(cands) && k < |cands|
    ensures var before := Raised(current, weights, cands[..k]);
            Raised(current, weights, cands[..k + 1]) == before[cands[k] := before[cands[k]] + weights[cands[k]]]
  {
    assert cands[..k + 1] == cands[..k] + [cands[k]];
  }

  method NextWrr(current: seq<int>, weights: seq<int>, cands: seq<nat>) returns (best: nat, current': seq<int>)
    requires |current| == |weights| && IsCands(cands, |current|)
    ensures Next(current, weights, cands, best, current')
  {
    var st, total := current, 0;
    for k := 0 to |cands|
      invariant st == Raised(current, weights, cands[..k])
      invariant total == SumAt(weights, cands[..k])
    {
      assert cands[..k + 1][..k] == cands[..k];
      RaiseOne(current, weights, cands, k);
      st := st[cands[k] := st[cands[k]] + weights[cands[k]]];
      total := total + weights[cands[k]];
    }
    assert cands[..|cands|] == cands;
    best := FirstMax(st, cands);
    current' := st[best := st[best] - total];
  }

  /** The scan for the largest counter. */
  method FirstMax(st: seq<int>, cands: seq<nat>) returns (best: nat)
    requires IsCands(cands, |st|)
    ensures IsFirstMax(st, cands, best)
  {
    best := cands[0];
    for k := 1 to |cands|
      invariant best in cands
      invariant forall j :: 0 <= j < k ==> st[cands[j]] <= st[best]
      invariant forall j :: 0 <= j < |cands| && cands[j] < best ==> j < k && st[cands[j]] < st[best]
    {
      if st[cands[k]] > st[best] {
        best := cands[k];
      }
    }
  }

  // ----- what one call does to the counters -----

  lemma {:induction false} SumUpdate(s: seq<int>, i: nat, v: int)
    requires i < |s|
    ensures Sum(s[i := v]) == Sum(s) - s[i] + v
  {
    var n := |s| - 1;
    if i == n {
      assert s[i := v][..n] == s[..n];
    } else {
      assert s[i := v][..n] == s[..n][i := v];
      SumUpdate(s[..n], i, v);
    }
  }

  lemma {:induction false} SumRaised(current: seq<int>, weights: seq<int>, cands: seq<nat>)
    requires |current| == |weights|
    requires Within(cands, |current|) && Increasing(cands)
    ensures Sum(Raised(current, weights, cands)) == Sum(current) + SumAt(weights, cands)
  {
    if cands == [] {
      assert Raised(current, weights, []) == current;
    } else {
      var m := |cands| - 1;
      var i := cands[m];
      SumRaised(current, weights, cands[..m]);
      var before := Raised(current, weights, cands[..m]);
      SumUpdate(before, i, before[i] + weights[i]);
      assert cands[..m + 1] == cands;
      RaiseOne(current, weights, cands, m);
    }
  }

  /** For any eligible set, a call leaves the sum of the counters where it was. */
  lemma CallKeepsSum(current: seq<int>, weights: seq<int>, cands: seq<nat>, best: nat, current': seq<int>)
    requires Next(current, weights, cands, best, current')
    ensures Sum(current') == Sum(current)
  {
    SumRaised(current, weights, cands);
    var r := Raised(current, weights, cands);
    SumUpdate(r, best, r[best] - SumAt(weights, cands));
  }

  /** One call: which replicas were eligible, which was picked, and the counters afterwards. */
  datatype Call = Call(cands: seq<nat>, best: nat, after: seq<int>)

  ghost predicate IsHistory(start: seq<int>, weights: seq<int>, calls: seq<Call>) {
    calls == [] ||
    (var n := |calls| - 1;
     && IsHistory(start, weights, calls[..n])
     && Next(Counters(start, calls[..n]), weights, calls[n].cands, calls[n].best, calls[n].after))
  }

  function Counters(start: seq<int>, calls: seq<Call>): seq<int> {
    if calls == [] then start else calls[|calls| - 1].after
  }

  /** From zeroed counters, the counters sum to zero after every call, however eligibility changes. */
  lemma {:induction false} CountersSumToZero(start: seq<int>, weights: seq<int>, calls: seq<Call>)
    requires IsHistory(start, weights, calls) && Sum(start) == 0
    ensures Sum(Counters(start, calls)) == 0
  {
    if calls != [] {
      var n := |calls| - 1;
      CountersSumToZero(start, weights, calls[..n]);
      CallKeepsSum(Counters(start, calls[..n]), weights, calls[n].cands, calls[n].best, calls[n].after);
    }
  }

  // ----- a fixed eligible set -----

  /** How often replica i was picked. */
  function Picks(calls: seq<Call>, i: nat): nat {
    if calls == [] then 0
    else Picks(calls[..|calls| - 1], i) + if calls[|calls| - 1].best == i then 1 else 0
  }

  predicate AllWith(calls: seq<Call>, cands: seq<nat>) {
    forall c :: c in calls ==> c.cands == cands
  }

  predicate ZeroOn(start: seq<int>, cands: seq<nat>) {
    forall k :: 0 <= k < |cands| && cands[k] < |start| ==> start[cands[k]] == 0
  }

  lemma {:induction false} SumAtZero(s: seq<int>, cands: seq<nat>)
    requires Within(cands, |s|) && ZeroOn(s, cands)
    ensures SumAt(s, cands) == 0
  {
    if cands != [] {
      assert cands[|cands| - 1] in cands;
      SumAtZero(s, cands[..|cands| - 1]);
    }
  }

  lemma {:induction false} SumAtUpdate(s: seq<int>, cands: seq<nat>, i: nat, v: int)
    requires Within(cands, |s|) && Increasing(cands)
    requires i < |s|
    ensures SumAt(s[i := v], cands) == SumAt(s, cands) + if i in cands then v - s[i] else 0
  {
    if cands != [] {
      var m := |cands| - 1;
      SumAtUpdate(s, cands[..m], i, v);
      assert cands == cands[..m] + [cands[m]];
      if i in cands && cands[m] != i {
        assert i in cands[..m];
      }
    }
  }

  lemma {:induction false} SumAtRaised(current: seq<int>, weights: seq<int>, all: seq<nat>, cands: seq<nat>)
    requires |current| == |weights|
    requires Within(cands, |current|) && forall k :: 0 <= k < |cands| ==> cands[k] in all
    ensures SumAt(Raised(current, weights, all), cands) == SumAt(current, cands) + SumAt(weights, cands)
  {
    if cands != [] {
      assert cands[|cands| - 1] in cands;
      SumAtRaised(current, weights, all, cands[..|cands| - 1]);
    }
  }

  /** Some term of a positive sum is positive. */
  lemma {:induction false} SomePositive(s: seq<int>, cands: seq<nat>) returns (i: nat)
    requires Within(cands, |s|) && SumAt(s, cands) > 0
    ensures i in cands && s[i] > 0
  {
    var m := |cands| - 1;
    assert cands[m] in cands;
    if s[cands[m]] > 0 {
      i := cands[m];
    } else {
      i := SomePositive(s, cands[..m]);
    }
  }

  lemma {:induction false} SumAtPositive(weights: seq<int>, cands: seq<nat>)
    requires IsWeights(weights) && Within(cands, |weights|)
    ensures SumAt(weights, cands) >= |cands|
  {
    if cands != [] {
      assert cands[|cands| - 1] in cands;
      SumAtPositive(weights, cands[..|cands| - 1]);
    }
  }

  /** The counters sum to zero over the eligible set and none is down by a whole round. */
  ghost predicate Balanced(current: seq<int>, weights: seq<int>, cands: seq<nat>)
    requires |current| == |weights| && IsCands(cands, |current|)
  {
    SumAt(current, cands) == 0 && forall i :: i in cands ==> current[i] > -SumAt(weights, cands)
  }

  lemma CallKeepsBalance(current: seq<int>, weights: seq<int>, cands: seq<nat>, best: nat, current': seq<int>)
    requires IsWeights(weights) && Next(current, weights, cands, best, current') && Balanced(current, weights, cands)
    ensures |current'| == |weights| && Balanced(current', weights, cands)
    ensures forall i :: i in cands ==> current'[i] == current[i] + weights[i] - if i == best then SumAt(weights, cands) else 0
    ensures forall i :: 0 <= i < |current| && i !in cands ==> current'[i] == current[i]
  {
    var r := Raised(current, weights, cands);
    SumAtUpdate(r, cands, best, r[best] - SumAt(weights, cands));
    SumAtRaised(current, weights, cands, cands);
    SumAtPositive(weights, cands);
    BestIsPositive(r, cands, best);
  }

  /** The largest of counters that add up to something positive is positive. */
  lemma BestIsPositive(r: seq<int>, cands: seq<nat>, best: nat)
    requires IsCands(cands, |r|) && IsFirstMax(r, cands, best) && SumAt(r, cands) > 0
    ensures best in cands && r[best] > 0
  {
    var positive := SomePositive(r, cands);
    var k :| 0 <= k < |cands| && cands[k] == positive;
  }

  lemma OneMorePick(n: nat, weight: int, total: int, picks: int)
    ensures (n + 1) * weight == n * weight + weight
    ensures total * (picks + 1) == total * picks + total
  {
  }

  /** Each eligible counter is k times its weight minus the total weight times its picks; no other has moved. */
  ghost predicate InShare(now: seq<int>, start: seq<int>, weights: seq<int>, cands: seq<nat>, calls: seq<Call>)
    requires |start| == |weights| && IsCands(cands, |start|)
  {
    && |now| == |weights| && Balanced(now, weights, cands)
    && (forall i :: i in cands ==> now[i] == |calls| * weights[i] - SumAt(weights, cands) * Picks(calls, i))
    && (forall i :: 0 <= i < |start| && i !in cands ==> now[i] == start[i])
  }

  lemma CallKeepsShare(before: seq<int>, start: seq<int>, weights: seq<int>, cands: seq<nat>, calls: seq<Call>, last: Call)
    requires |start| == |weights| && IsCands(cands, |start|) && IsWeights(weights) && last.cands == cands
    requires InShare(before, start, weights, cands, calls) && Next(before, weights, cands, last.best, last.after)
    ensures InShare(last.after, start, weights, cands, calls + [last])
  {
    CallKeepsBalance(before, weights, cands, last.best, last.after);
    forall i | i in cands
      ensures last.after[i] == |calls + [last]| * weights[i] - SumAt(weights, cands) * Picks(calls + [last], i)
    {
      assert (calls + [last])[..|calls|] == calls;
      OneMorePick(|calls|, weights[i], SumAt(weights, cands), Picks(calls, i));
    }
  }

  /** From zeroed counters, calls with a fixed eligible set keep every counter in share. */
  lemma {:induction false} StaysInShare(start: seq<int>, weights: seq<int>, cands: seq<nat>, calls: seq<Call>)
    requires |start| == |weights| && IsCands(cands, |start|) && IsWeights(weights) && ZeroOn(start, cands)
    requires IsHistory(start, weights, calls) && AllWith(calls, cands)
    ensures InShare(Counters(start, calls), start, weights, cands, calls)
  {
    if calls == [] {
      SumAtPositive(weights, cands);
      SumAtZero(start, cands);
    } else {
      var n := |calls| - 1;
      assert calls[n] in calls && calls == calls[..n] + [calls[n]];
      StaysInShare(start, weights, cands, calls[..n]);
      CallKeepsShare(Counters(start, calls[..n]), start, weights, cands, calls[..n], calls[n]);
    }
  }

  /**
   Exact proportionality: with a fixed eligible set of total weight W whose counters start at zero,
   after k calls each eligible counter is k times its weight minus W times its picks, it is above
   -W, so no replica is ever a full pick ahead of its share, and no other counter has moved.
   */
  lemma Proportional(start: seq<int>, weights: seq<int>, cands: seq<nat>, calls: seq<Call>)
    requires |start| == |weights| && IsCands(cands, |start|) && IsWeights(weights) && ZeroOn(start, cands)
    requires IsHistory(start, weights, calls) && AllWith(calls, cands)
    ensures var now, total := Counters(start, calls), SumAt(weights, cands);
            && |now| == |weights| && Balanced(now, weights, cands)
            && (forall i :: i in cands ==> now[i] == |calls| * weights[i] - total * Picks(calls, i))
            && (forall i :: i in cands ==> total * Picks(calls, i) < |calls| * weights[i] + total)
            && (forall i :: 0 <= i < |start| && i !in cands ==> now[i] == start[i])
  {
    StaysInShare(start, weights, cands, calls);
  }

  /** Picks of the eligible replicas over a run, listed by replica position. */
  ghost function PickCounts(calls: seq<Call>, n: nat): (p: seq<int>)
    ensures |p| == n
  {
    seq(n, i requires 0 <= i < n => Picks(calls, i))
  }

  lemma {:induction false} PicksAddUp(calls: seq<Call>, cands: seq<nat>, n: nat)
    requires IsCands(cands, n) && forall c :: c in calls ==> c.best in cands
    ensures SumAt(PickCounts(calls, n), cands) == |calls|
  {
    if calls == [] {
      SumAtZero(PickCounts(calls, n), cands);
    } else {
      var m := |calls| - 1;
      assert calls[m] in calls;
      PicksAddUp(calls[..m], cands, n);
      var before, b := PickCounts(calls[..m], n), calls[m].best;
      SumAtUpdate(before, cands, b, before[b] + 1);
      assert PickCounts(calls, n) == before[b := before[b] + 1];
    }
  }

  /** Two lists with the same sum over cands, one nowhere larger than the other, agree on cands. */
  lemma {:induction false} EqualSums(small: seq<int>, large: seq<int>, cands: seq<nat>)
    requires |small| == |large| && Within(cands, |small|)
    requires forall k :: 0 <= k < |cands| ==> small[cands[k]] <= large[cands[k]]
    ensures SumAt(small, cands) <= SumAt(large, cands)
    ensures SumAt(small, cands) == SumAt(large, cands) ==> forall i :: i in cands ==> small[i] == large[i]
  {
    if cands != [] {
      var m := |cands| - 1;
      assert cands[m] in cands;
      EqualSums(small, large, cands[..m]);
      forall i | i in cands && SumAt(small, cands) == SumAt(large, cands) ensures small[i] == large[i] {
        if i != cands[m] {
          assert i in cands[..m];
        }
      }
    }
  }

  lemma {:induction false} PickedAt(start: seq<int>, weights: seq<int>, calls: seq<Call>, k: nat)
    requires IsHistory(start, weights, calls) && k < |calls|
    ensures calls[k].best in calls[k].cands
  {
    var n := |calls| - 1;
    if k < n {
      PickedAt(start, weights, calls[..n], k);
    }
  }

  lemma PicksAreEligible(start: seq<int>, weights: seq<int>, cands: seq<nat>, calls: seq<Call>)
    requires IsHistory(start, weights, calls) && AllWith(calls, cands)
    ensures forall c :: c in calls ==> c.best in cands
  {
    forall c | c in calls ensures c.best in cands {
      var k :| 0 <= k < |calls| && calls[k] == c;
      PickedAt(start, weights, calls, k);
    }
  }

  lemma AtMostShare(total: int, picks: int, weight: int)
    requires total > 0 && total * picks < total * weight + total
    ensures picks <= weight
  {
    assert picks >= weight + 1 ==> total * picks >= total * (weight + 1);
  }

  /** After exactly W calls every eligible replica was picked its weight times and all counters are zero again. */
  lemma FullRound(start: seq<int>, weights: seq<int>, cands: seq<nat>, calls: seq<Call>)
    requires |start| == |weights| && IsCands(cands, |start|) && IsWeights(weights) && ZeroOn(start, cands)
    requires IsHistory(start, weights, calls) && AllWith(calls, cands)
    requires |calls| == SumAt(weights, cands)
    ensures forall i :: i in cands ==> Picks(calls, i) == weights[i]
    ensures ZeroOn(Counters(start, calls), cands)
  {
    var total := SumAt(weights, cands);
    Proportional(start, weights, cands, calls);
    SumAtPositive(weights, cands);
    forall k | 0 <= k < |cands| ensures PickCounts(calls, |start|)[cands[k]] <= weights[cands[k]] {
      AtMostShare(total, Picks(calls, cands[k]), weights[cands[k]]);
    }
    PicksAreEligible(start, weights, cands, calls);
    PicksAddUp(calls, cands, |start|);
    EqualSums(PickCounts(calls, |start|), weights, cands);
    forall i | i in cands ensures Picks(calls, i) == weights[i] && Counters(start, calls)[i] == 0 {
      assert PickCounts(calls, |start|)[i] == weights[i];
    }
  }
}
