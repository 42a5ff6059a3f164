/**
 The process-wide byte budget for buffered request bodies: a compare-and-swap counter that
 many requests race on, together with the reserve / partial release / final release that one
 request performs around reading its body.

 Every atomic access of a request is one step of a transition system, so a run is an
 arbitrary interleaving of any number of requests.
 */
module ByteBudget {
  import opened Int64
  import opened Sums

  const BUDGET_WEIGHT: int := 16

  /** total is the budget; maxBody is server.max_body_bytes. */
  datatype Config = Config(total: int, maxBody: int) {
    predicate Valid() {
      0 < total <= MAX_INT64 && 0 < maxBody <= MAX_INT64
    }

    /** The largest body size Acquire does not refuse at once. */
    function MaxBytes(): int
      requires Valid()
    {
      total / BUDGET_WEIGHT
    }

    /** The largest size readBody ever passes to Acquire and Acquire does not refuse at once. */
    function LargestReservation(): int
      requires Valid()
    {
      if maxBody <= MaxBytes() then maxBody else MaxBytes()
    }
  }

  /** Why readBody returned an error: compression, no budget, a body over the limit, or a failing read. */
  datatype Cause = Unsupported | Overloaded | TooLarge | Unreadable

  /** Where one request is between entering readBody and its deferred release. declared is its Content-Length, -1 without one. */
  datatype Request =
    | Entering(post: bool, identity: bool, declared: int)
    | Loading(bytes: int, declared: int)               // in Acquire, before the load
    | Swapping(bytes: int, seen: int, declared: int)   // in Acquire, between the load and the compare-and-swap
    | Reading(reserve: int, declared: int)             // reading the body
    | Buffered(reserve: int, length: nat)              // readBody returned a body of this length
    | Failed(reserve: int, cause: Cause)               // readBody returned an error
    | Released

  datatype State = State(used: int, requests: seq<Request>)

  /** The bytes a request holds in its local variable reserve. */
  ghost function Held(r: Request): int {
    match r
    case Reading(n, _) => n
    case Buffered(n, _) => n
    case Failed(n, _) => n
    case _ => 0
  }

  ghost predicate Init(s: State) {
    s == State(0, [])
  }

  /** The bytes of body a request keeps in memory. */
  ghost function InMemory(r: Request): int {
    if r.Buffered? then r.length else 0
  }

  /** The first test of Acquire, before its loop. */
  function EnterAcquire(c: Config, bytes: int, declared: int): Request
    requires c.Valid()
  {
    if bytes > c.total / BUDGET_WEIGHT then Failed(0, Overloaded) else Loading(bytes, declared)
  }

  /** readBody up to the read: which reservation, if any, the request asks for. */
  function EnterReadBody(c: Config, post: bool, identity: bool, declared: int): Request
    requires c.Valid()
  {
    if !post then Buffered(0, 0)
    else if !identity then Failed(0, Unsupported)
    else if 0 < declared <= c.maxBody then EnterAcquire(c, declared, declared)
    else if declared < 0 then EnterAcquire(c, c.maxBody, declared)
    else Reading(0, declared)
  }

  /** One iteration of Acquire's loop after its load: overload, success, or a lost race. */
  function Swap(c: Config, used: int, bytes: int, seen: int, declared: int): (int, Request) {
    var sum := Wrap(seen + bytes * BUDGET_WEIGHT);
    if sum > c.total then (used, Failed(0, Overloaded))
    else if used == seen then (sum, Reading(bytes, declared))
    else (used, Loading(bytes, declared))
  }

  /** budget.Release. */
  function Give(used: int, bytes: int): int {
    Wrap(used + Wrap(-bytes * BUDGET_WEIGHT))
  }

  /** What the client may send: a body with a declared length ends there. */
  predicate MaySend(declared: int, n: nat) {
    declared >= 0 ==> n <= declared
  }

  /** readBodyLimited and what follows it, for a client that sends n bytes: hand back what was reserved in excess. */
  function ReadDone(c: Config, used: int, reserve: int, declared: int, n: nat): (int, Request) {
    if declared > c.maxBody || n > c.maxBody then (used, Failed(reserve, TooLarge))
    else if n < reserve then (Give(used, reserve - n), Buffered(n, n)) else (used, Buffered(reserve, n))
  }

  /** The deferred release. */
  function Finish(used: int, reserve: int): (int, Request) {
    (if reserve > 0 then Give(used, reserve) else used, Released)
  }

  /** Request i takes one atomic step, ending in r and leaving the counter at used. */
  ghost predicate RequestStep(c: Config, s: State, i: nat, used: int, r: Request)
    requires c.Valid() && i < |s.requests|
  {
    match s.requests[i]
    case Entering(post, identity, declared) => used == s.used && r == EnterReadBody(c, post, identity, declared)
    case Loading(bytes, declared) => used == s.used && r == Swapping(bytes, s.used, declared)
    case Swapping(bytes, seen, declared) => (used, r) == Swap(c, s.used, bytes, seen, declared)
    case Reading(reserve, declared) =>
      || (declared <= c.maxBody && used == s.used && r == Failed(reserve, Unreadable))
      || exists n: nat :: MaySend(declared, n) && (used, r) == ReadDone(c, s.used, reserve, declared, n)
    case Buffered(reserve, _) => (used, r) == Finish(s.used, reserve)
    case Failed(reserve, _) => (used, r) == Finish(s.used, reserve)
    case Released => false
  }

  ghost predicate Arrives(s: State, s': State) {
    exists post, identity, declared: int :: declared >= -1 && s' == s.(requests := s.requests + [Entering(post, identity, declared)])
  }

  ghost predicate Moves(c: Config, s: State, s': State, i: nat)
    requires c.Valid()
  {
    && i < |s.requests|
    && |s'.requests| == |s.requests|
    && s'.requests == s.requests[i := s'.requests[i]]
    && RequestStep(c, s, i, s'.used, s'.requests[i])
  }

  ghost predicate Step(c: Config, s: State, s': State)
    requires c.Valid()
  {
    Arrives(s, s') || exists i: nat :: Moves(c, s, s', i)
  }

  ghost predicate IsRun(c: Config, run: seq<State>)
    requires c.Valid()
  {
    && run != [] && Init(run[0])
    && forall k :: 0 <= k < |run| - 1 ==> Step(c, run[k], run[k + 1])
  }

  /** The promise: the counter is exactly sixteen times what live requests hold, within the budget. */
  ghost predicate Exact(c: Config, s: State) {
    0 <= s.used == BUDGET_WEIGHT * Total(s.requests, Held) <= c.total
  }

  /** No sum the loop forms leaves int64: the fullest counter plus the largest reservation fits. */
  predicate NoWrap(c: Config)
    requires c.Valid()
  {
    BUDGET_WEIGHT * (c.MaxBytes() + c.LargestReservation()) <= MAX_INT64
  }

  // ----- every interleaving is exact when no sum wraps -----

  /** What a request with this Content-Length reserves before it reads. */
  function Reserves(c: Config, declared: int): int
    requires c.Valid()
  {
    if declared < 0 then c.maxBody else if declared <= c.maxBody then declared else 0
  }

  ghost predicate RequestOk(c: Config, r: Request)
    requires c.Valid()
  {
    && 0 <= Held(r)
    && (r.Loading? || r.Swapping? ==> r.bytes == Reserves(c, r.declared) && 0 < r.bytes <= c.LargestReservation())
    && (r.Swapping? ==> 0 <= r.seen <= BUDGET_WEIGHT * c.MaxBytes())
    && (r.Reading? ==> r.reserve == Reserves(c, r.declared))
    && (r.Buffered? ==> r.length == r.reserve <= c.maxBody)
  }

  ghost predicate Inv(c: Config, s: State)
    requires c.Valid()
  {
    Exact(c, s) && forall k: nat :: k < |s.requests| ==> RequestOk(c, s.requests[k])
  }

  lemma HeldIsCovered(c: Config, s: State, i: nat)
    requires c.Valid() && Inv(c, s) && i < |s.requests|
    ensures BUDGET_WEIGHT * Held(s.requests[i]) <= s.used <= BUDGET_WEIGHT * c.MaxBytes()
  {
    var bound: nat := Bound(s.requests);
    TotalBounds(s.requests, Held, bound);
  }

  ghost function Bound(s: seq<Request>): (n: nat)
    ensures forall r :: r in s ==> Held(r) <= n
  {
    if s == [] then 0
    else
      var n := Bound(s[..|s| - 1]);
      if Held(s[|s| - 1]) > n then Held(s[|s| - 1]) else n
  }

  /** What one request's step does to its own state and to the counter. */
  ghost predicate KeepsOk(c: Config, used: int, r: Request, used': int, r': Request)
    requires c.Valid()
  {
    RequestOk(c, r') && 0 <= used' <= c.total && used' - used == BUDGET_WEIGHT * (Held(r') - Held(r))
  }

  /** The sum of a counter within the budget and a reservation the request may ask for does not wrap. */
  lemma SwapKeepsOk(c: Config, used: int, bytes: int, seen: int, declared: int)
    requires c.Valid() && NoWrap(c) && 0 <= used <= c.total
    requires RequestOk(c, Swapping(bytes, seen, declared))
    ensures var next := Swap(c, used, bytes, seen, declared); KeepsOk(c, used, Swapping(bytes, seen, declared), next.0, next.1)
  {
    assert 0 <= seen + bytes * BUDGET_WEIGHT <= MAX_INT64;
  }

  /** Giving back at most what is held is exact. */
  lemma GiveIsExact(c: Config, used: int, bytes: int)
    requires c.Valid() && 0 <= BUDGET_WEIGHT * bytes <= used <= c.total
    ensures Give(used, bytes) == used - BUDGET_WEIGHT * bytes
  {
    assert Wrap(-bytes * BUDGET_WEIGHT) == -bytes * BUDGET_WEIGHT;
  }

  lemma ReadDoneKeepsOk(c: Config, used: int, reserve: nat, declared: int, n: nat)
    requires c.Valid() && BUDGET_WEIGHT * reserve <= used <= c.total && reserve == Reserves(c, declared) && MaySend(declared, n)
    ensures var next := ReadDone(c, used, reserve, declared, n); KeepsOk(c, used, Reading(reserve, declared), next.0, next.1)
  {
    if n < reserve {
      GiveIsExact(c, used, reserve - n);
    }
  }

  lemma FinishKeepsOk(c: Config, used: int, r: Request)
    requires c.Valid() && (r.Buffered? || r.Failed?) && 0 <= BUDGET_WEIGHT * r.reserve <= used <= c.total
    ensures KeepsOk(c, used, r, Finish(used, r.reserve).0, Finish(used, r.reserve).1)
  {
    GiveIsExact(c, used, r.reserve);
  }

  lemma MoveKeepsOk(c: Config, s: State, i: nat, used: int, r: Request)
    requires c.Valid() && NoWrap(c) && Inv(c, s) && i < |s.requests| && RequestStep(c, s, i, used, r)
    ensures KeepsOk(c, s.used, s.requests[i], used, r)
  {
    HeldIsCovered(c, s, i);
    assert RequestOk(c, s.requests[i]);
    match s.requests[i]
    case Entering(_, _, _) =>
    case Loading(_, _) =>
    case Swapping(bytes, seen, declared) => SwapKeepsOk(c, s.used, bytes, seen, declared);
    case Reading(reserve, declared) =>
      if n: nat :| MaySend(declared, n) && (used, r) == ReadDone(c, s.used, reserve, declared, n) {
        ReadDoneKeepsOk(c, s.used, reserve, declared, n);
      }
    case Buffered(_, _) => FinishKeepsOk(c, s.used, s.requests[i]);
    case Failed(_, _) => FinishKeepsOk(c, s.used, s.requests[i]);
    case Released =>
  }

  lemma MoveKeepsInv(c: Config, s: State, s': State, i: nat)
    requires c.Valid() && NoWrap(c) && Inv(c, s) && Moves(c, s, s', i)
    ensures Inv(c, s')
  {
    MoveKeepsOk(c, s, i, s'.used, s'.requests[i]);
    TotalUpdate(s.requests, i, s'.requests[i], Held);
  }

  lemma ArrivalKeepsInv(c: Config, s: State, s': State)
    requires c.Valid() && Inv(c, s) && Arrives(s, s')
    ensures Inv(c, s')
  {
    var post, identity, declared: int :| declared >= -1 && s' == s.(requests := s.requests + [Entering(post, identity, declared)]);
    TotalAppend(s.requests, Entering(post, identity, declared), Held);
  }

  lemma StepKeepsInv(c: Config, s: State, s': State)
    requires c.Valid() && NoWrap(c) && Inv(c, s) && Step(c, s, s')
    ensures Inv(c, s')
  {
    if Arrives(s, s') {
      ArrivalKeepsInv(c, s, s');
    } else {
      var i: nat :| Moves(c, s, s', i);
      MoveKeepsInv(c, s, s', i);
    }
  }

  lemma {:induction false} RunKeepsInv(c: Config, run: seq<State>)
    requires c.Valid() && NoWrap(c) && IsRun(c, run)
    ensures Inv(c, run[|run| - 1])
  {
    if |run| > 1 {
      var before := run[..|run| - 1];
      RunKeepsInv(c, before);
      StepKeepsInv(c, before[|before| - 1], run[|run| - 1]);
    }
  }

  // ----- and some interleaving is not exact when one does -----

  /** Appends the steps of one more request that asks for bytes and gets them. */
  lemma Reserve(c: Config, run: seq<State>, bytes: int) returns (longer: seq<State>)
    requires c.Valid() && IsRun(c, run)
    requires 0 < bytes <= c.LargestReservation()
    requires Wrap(run[|run| - 1].used + bytes * BUDGET_WEIGHT) <= c.total
    ensures IsRun(c, longer)
    ensures longer[|longer| - 1].used == Wrap(run[|run| - 1].used + bytes * BUDGET_WEIGHT)
    ensures Total(longer[|longer| - 1].requests, Held) == Total(run[|run| - 1].requests, Held) + bytes
  {
    var s := run[|run| - 1];
    var i := |s.requests|;
    var s1 := s.(requests := s.requests + [Entering(true, true, bytes)]);
    var s2 := s.(requests := s.requests + [Loading(bytes, bytes)]);
    var s3 := s.(requests := s.requests + [Swapping(bytes, s.used, bytes)]);
    var s4 := State(Wrap(s.used + bytes * BUDGET_WEIGHT), s.requests + [Reading(bytes, bytes)]);
    assert Arrives(s, s1);
    assert s2.requests == s1.requests[i := Loading(bytes, bytes)] && Moves(c, s1, s2, i);
    assert s3.requests == s2.requests[i := Swapping(bytes, s.used, bytes)] && Moves(c, s2, s3, i);
    assert s4.requests == s3.requests[i := Reading(bytes, bytes)] && Moves(c, s3, s4, i);
    TotalAppend(s.requests, Reading(bytes, bytes), Held);
    longer := run + [s1, s2, s3, s4];
  }

  /** One-byte requests fill the budget to any level. */
  lemma {:induction false} Fill(c: Config, k: nat) returns (run: seq<State>)
    requires c.Valid() && k <= c.MaxBytes() && 0 < c.MaxBytes()
    ensures IsRun(c, run)
    ensures run[|run| - 1].used == BUDGET_WEIGHT * k == BUDGET_WEIGHT * Total(run[|run| - 1].requests, Held)
  {
    if k == 0 {
      run := [State(0, [])];
    } else {
      run := Fill(c, k - 1);
      run := Reserve(c, run, 1);
    }
  }

  lemma WrappingBreaks(c: Config) returns (run: seq<State>)
    requires c.Valid() && !NoWrap(c)
    ensures IsRun(c, run) && !Exact(c, run[|run| - 1])
  {
    run := Fill(c, c.MaxBytes());
    run := Reserve(c, run, c.LargestReservation());
  }

  /** The budget is exact in every interleaving if and only if no sum Acquire forms can wrap. */
  lemma ExactIffNoWrap(c: Config)
    requires c.Valid()
    ensures (forall run | IsRun(c, run) :: Exact(c, run[|run| - 1])) <==> NoWrap(c)
  {
    if NoWrap(c) {
      forall run | IsRun(c, run) ensures Exact(c, run[|run| - 1]) {
        RunKeepsInv(c, run);
      }
    } else {
      var run := WrappingBreaks(c);
    }
  }

  /** A budget of at most half of int64 never wraps, whatever the body limit. */
  lemma HalfIsEnough(c: Config)
    requires c.Valid() && 2 * c.total <= MAX_INT64
    ensures NoWrap(c)
  {
    assert BUDGET_WEIGHT * c.MaxBytes() <= c.total;
  }

  /** Once every request has run its deferred release, nothing stays reserved. */
  lemma AllReturned(c: Config, run: seq<State>)
    requires c.Valid() && NoWrap(c) && IsRun(c, run)
    requires forall r :: r in run[|run| - 1].requests ==> r.Released?
    ensures run[|run| - 1].used == 0
  {
    var s := run[|run| - 1];
    RunKeepsInv(c, run);
    forall r | r in s.requests ensures Held(r) == 0 {
      assert r.Released?;
    }
    TotalBounds(s.requests, Held, 0);
  }

  // ----- what the budget is for -----

  /** No request has more body in memory than it has reserved. */
  lemma {:induction false} MemoryIsHeld(c: Config, requests: seq<Request>)
    requires c.Valid() && forall k: nat :: k < |requests| ==> RequestOk(c, requests[k])
    ensures 0 <= Total(requests, InMemory) <= Total(requests, Held)
  {
    if requests != [] {
      MemoryIsHeld(c, requests[..|requests| - 1]);
      assert RequestOk(c, requests[|requests| - 1]);
    }
  }

  /**
   In every interleaving, sixteen times the bytes of body in memory are reserved and within the
   budget, whether the bodies declared a length or not; and a body is as long as what its request
   still holds, within the body limit.
   */
  lemma BodiesAreCovered(c: Config, run: seq<State>)
    requires c.Valid() && NoWrap(c) && IsRun(c, run)
    ensures var s := run[|run| - 1];
            && BUDGET_WEIGHT * Total(s.requests, InMemory) <= s.used <= c.total
            && forall k: nat :: k < |s.requests| && s.requests[k].Buffered? ==> s.requests[k].reserve == s.requests[k].length <= c.maxBody
  {
    var s := run[|run| - 1];
    RunKeepsInv(c, run);
    MemoryIsHeld(c, s.requests);
    forall k: nat | k < |s.requests| && s.requests[k].Buffered? ensures s.requests[k].reserve == s.requests[k].length <= c.maxBody {
      assert RequestOk(c, s.requests[k]);
    }
  }

  /** And it is reserved before the first byte is read: all that may be sent, when that is within the limit. */
  lemma ReservedBeforeReading(c: Config, run: seq<State>, k: nat)
    requires c.Valid() && NoWrap(c) && IsRun(c, run)
    requires k < |run[|run| - 1].requests| && run[|run| - 1].requests[k].Reading?
    ensures var r := run[|run| - 1].requests[k];
            && (r.declared < 0 ==> r.reserve == c.maxBody)
            && (0 <= r.declared <= c.maxBody ==> r.reserve == r.declared)
            && BUDGET_WEIGHT * r.reserve <= run[|run| - 1].used
  {
    RunKeepsInv(c, run);
    HeldIsCovered(c, run[|run| - 1], k);
    assert RequestOk(c, run[|run| - 1].requests[k]);
  }

  /**
   A request that loads the counter and swaps with nobody in between gets its reservation if and only
   if it fits what the live requests leave of the budget; otherwise it is overloaded and changes nothing.
   */
  lemma AcquiresIffItFits(c: Config, run: seq<State>, i: nat)
    requires c.Valid() && NoWrap(c) && IsRun(c, run) && |run| >= 3 && i < |run[|run| - 3].requests|
    requires run[|run| - 3].requests[i].Loading?
    requires Moves(c, run[|run| - 3], run[|run| - 2], i) && Moves(c, run[|run| - 2], run[|run| - 1], i)
    ensures var s, s', bytes := run[|run| - 3], run[|run| - 1], run[|run| - 3].requests[i].bytes;
            if BUDGET_WEIGHT * (Total(s.requests, Held) + bytes) <= c.total
            then s'.requests[i] == Reading(bytes, s.requests[i].declared) && s'.used == s.used + BUDGET_WEIGHT * bytes
            else s'.requests[i] == Failed(0, Overloaded) && s'.used == s.used
  {
    var n := |run| - 3;
    var s := run[n];
    assert IsRun(c, run[..n + 1]);
    RunKeepsInv(c, run[..n + 1]);
    assert RequestOk(c, s.requests[i]);
    assert s.used + BUDGET_WEIGHT * s.requests[i].bytes <= MAX_INT64;
  }

  /** Only a request that could never fit is refused without a look at the counter, and which error it gets. */
  lemma EntersFor(c: Config, s: State, s': State, i: nat)
    requires c.Valid() && Moves(c, s, s', i) && s.requests[i].Entering? && s.requests[i].declared >= -1
    ensures var r, r' := s.requests[i], s'.requests[i];
            && s'.used == s.used
            && (r'.Failed? && r'.cause.Unsupported? <==> r.post && !r.identity)
            && (r'.Failed? && r'.cause.Overloaded? <==>
                  r.post && r.identity && BUDGET_WEIGHT * (if r.declared == -1 then c.maxBody else if r.declared <= c.maxBody then r.declared else 0) > c.total)
            && (r'.Buffered? <==> !r.post)
            && (r'.Reading? ==> r.declared == 0 || r.declared > c.maxBody)
            && (r'.Failed? ==> r'.reserve == 0 && !r'.cause.TooLarge? && !r'.cause.Unreadable?)
  {
  }

  /** What a read can come to: too large exactly for a body over the limit, declared or sent; otherwise the body as it was sent. */
  lemma ReadsFor(c: Config, s: State, s': State, i: nat)
    requires c.Valid() && Moves(c, s, s', i) && s.requests[i].Reading?
    ensures var r, r' := s.requests[i], s'.requests[i];
            && (r.declared > c.maxBody ==> r' == Failed(r.reserve, TooLarge))
            && (0 <= r.declared <= c.maxBody ==> r' == Failed(r.reserve, Unreadable) || (r'.Buffered? && r'.length <= r.declared))
            && (r.declared < 0 ==> r' == Failed(r.reserve, Unreadable) || r' == Failed(r.reserve, TooLarge) || (r'.Buffered? && r'.length <= c.maxBody))
  {
  }

  /** And every body within the limit that the client may send can be read, the excess of its reservation handed back. */
  lemma ReadsAnyBody(c: Config, run: seq<State>, i: nat, n: nat) returns (s': State)
    requires c.Valid() && NoWrap(c) && IsRun(c, run) && i < |run[|run| - 1].requests| && run[|run| - 1].requests[i].Reading?
    requires var declared := run[|run| - 1].requests[i].declared; declared <= c.maxBody && (declared < 0 || n <= declared) && n <= c.maxBody
    ensures Moves(c, run[|run| - 1], s', i) && s'.requests[i] == Buffered(n, n)
    ensures s'.used == run[|run| - 1].used - BUDGET_WEIGHT * (run[|run| - 1].requests[i].reserve - n)
  {
    var s := run[|run| - 1];
    RunKeepsInv(c, run);
    HeldIsCovered(c, s, i);
    assert RequestOk(c, s.requests[i]);
    var reserve, declared := s.requests[i].reserve, s.requests[i].declared;
    if n < reserve {
      GiveIsExact(c, s.used, reserve - n);
    }
    var next := ReadDone(c, s.used, reserve, declared, n);
    s' := State(next.0, s.requests[i := next.1]);
  }

  /** A read within the limit may also fail, and then what was reserved is held until the release. */
  lemma ReadMayFail(c: Config, s: State, i: nat) returns (s': State)
    requires c.Valid() && i < |s.requests| && s.requests[i].Reading? && s.requests[i].declared <= c.maxBody
    ensures Moves(c, s, s', i) && s'.used == s.used && s'.requests[i] == Failed(s.requests[i].reserve, Unreadable)
  {
    s' := s.(requests := s.requests[i := Failed(s.requests[i].reserve, Unreadable)]);
  }
}
