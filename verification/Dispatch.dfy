/**
 The request pipeline: gates, then forwarding under a bounded retry and fallback budget, then
 exactly one outcome and exactly one accounting call.

 What the outside world answers (contexts, the router, backends) is a parameter, so the theorems
 hold for every behaviour of it.
 */
module Dispatch {
  import opened Options
  import R = Routing

  /** Errors Forward can return. */
  datatype BackendError =
    | Upstream(status: int)
    | Connect | DialTimeout | Draining | QueueFull | QueueTimeout | HeaderTimeout | Timeout | TooLarge | Policy
    | Canceled
    | Unclassified

  type ErrorStatus = s: int | 400 <= s < 600 witness 400

  /** The sanitized errors a client can see; ErrBadRequest stands for the gates' 4xx errors. */
  datatype ApiError =
    | ErrDraining | ErrOverloaded | ErrNoBackend | ErrInternal | ErrNotNormal | ErrPolicy
    | ErrBadRequest(status: ErrorStatus) | ErrQuota
    | ErrUpstreamRateLimited | ErrUpstream5xx | ErrUpstreamRejected
    | ErrUpstreamTimeout | ErrUpstreamDialTimeout | ErrUpstreamHeaderTimeout | ErrUpstreamConnect
    | ErrQueueFull | ErrQueueTimeout

  function Status(e: ApiError): ErrorStatus {
    match e
    case ErrDraining => 503
    case ErrOverloaded => 503
    case ErrNoBackend => 503
    case ErrInternal => 500
    case ErrNotNormal => 400
    case ErrPolicy => 500
    case ErrBadRequest(s) => s
    case ErrQuota => 429
    case ErrUpstreamRateLimited => 429
    case ErrUpstream5xx => 502
    case ErrUpstreamRejected => 400
    case ErrUpstreamTimeout => 504
    case ErrUpstreamDialTimeout => 504
    case ErrUpstreamHeaderTimeout => 504
    case ErrUpstreamConnect => 502
    case ErrQueueFull => 503
    case ErrQueueTimeout => 503
  }

  /** Whether a backend error may be retried, whether it poisons health, and what the client sees. */
  datatype Failure = Failure(retryable: bool, poisonsHealth: bool, resp: ApiError)

  function Classify(e: BackendError): Failure {
    match e
    case Upstream(s) =>
      if s == 429 then Failure(true, false, ErrUpstreamRateLimited)
      else if s >= 500 then Failure(s == 502 || s == 503 || s == 504, false, ErrUpstream5xx)
      else Failure(false, false, ErrUpstreamRejected)
    case Connect => Failure(true, true, ErrUpstreamConnect)
    case DialTimeout => Failure(true, true, ErrUpstreamDialTimeout)
    case Draining => Failure(false, false, ErrDraining)
    case QueueFull => Failure(true, false, ErrQueueFull)
    case QueueTimeout => Failure(true, false, ErrQueueTimeout)
    case HeaderTimeout => Failure(false, false, ErrUpstreamHeaderTimeout)
    case Timeout => Failure(false, false, ErrUpstreamTimeout)
    case TooLarge => Failure(false, false, ErrUpstream5xx)
    case Policy => Failure(false, false, ErrPolicy)
    case Canceled => Failure(false, false, ErrUpstream5xx)
    case Unclassified => Failure(false, false, ErrUpstream5xx)
  }

  /** Only failures to reach a backend poison its health, and everything that poisons is retryable. */
  lemma PoisonIsConnectivity(e: BackendError)
    ensures Classify(e).poisonsHealth <==> e.Connect? || e.DialTimeout?
    ensures Classify(e).poisonsHealth ==> Classify(e).retryable
    ensures Classify(e).resp == ErrUpstreamRateLimited <==> e == Upstream(429)
  {
  }

  /** What one Forward call returns; retryAfter is the header of the returned result, "" without one. */
  datatype Reply =
    | Failed(err: BackendError, retryAfter: string)
    | Stream                 // a live body
    | Buffered(status: int)

  datatype Encoding = Encoded | NoUpstreamModel | NotEncodable

  /** The answers of the world, by attempt number. */
  datatype World = World(
    contextDone: nat -> bool,                            // at the top of an attempt
    select: (nat, seq<string>) -> Option<string>,        // Router.Select with the exclusion list
    encode: nat -> Encoding,
    sleptThrough: nat -> bool,                           // the backoff ended before the client left
    hasClient: string -> bool,
    forward: nat -> Reply,
    contextDoneAfter: nat -> bool)                       // when a forward has just failed

  /** pinned is "" when the router chooses; hasFields is false for response-ID routes. */
  datatype Setup = Setup(maxAttempts: int, pinned: string, hasFields: bool)

  datatype Attempt = Attempt(backend: string, reply: Reply)

  datatype Event =
    | Slept(attempt: nat)
    | Forwarded(attempt: nat, backend: string)
    | MarkedDown(backend: string)
    | MarkedUp(backend: string)
    | Envelope(err: ApiError, retryAfter: string)
    | Relayed(status: int)
    | Streamed
    | ClientGone
    | Accounted(status: int)

  /** Why the loop ended. */
  datatype Ending =
    | LeftEarly                 // context done at the top of an attempt
    | LeftInBackoff             // client left during the backoff
    | LeftInForward             // client left during a forward
    | Refused(err: ApiError)    // no backend, or an internal failure, before a forward
    | Responded                 // a backend response was passed on
    | GaveUp                    // out of the loop with a last error

  const DEFAULT_RETRY_AFTER := "1"

  function Budget(s: Setup): nat {
    if s.maxAttempts > 1 then s.maxAttempts else 1
  }

  function Tried(attempts: seq<Attempt>): seq<string> {
    if attempts == [] then [] else Tried(attempts[..|attempts| - 1]) + [attempts[|attempts| - 1].backend]
  }

  /** The backend of the attempt that follows these failed ones, if there is one to use. */
  function NextBackend(s: Setup, w: World, attempts: seq<Attempt>): Option<string> {
    if s.pinned != "" then Some(s.pinned)
    else
      var picked := w.select(|attempts|, Tried(attempts));
      if picked.Some? then picked
      else if attempts != [] && attempts[|attempts| - 1].backend != "" then Some(attempts[|attempts| - 1].backend)
      else None
  }

  predicate Retryable(a: Attempt) {
    a.reply.Failed? && Classify(a.reply.err).retryable
  }

  predicate AllRetryable(attempts: seq<Attempt>) {
    forall j :: 0 <= j < |attempts| ==> Retryable(attempts[j])
  }

  /** A backend that has just failed is asked again. */
  predicate Repeats(before: seq<Attempt>, backend: string) {
    before != [] && before[|before| - 1].backend == backend
  }

  /** The events of one attempt that follows the given ones. */
  function StepEvents(before: seq<Attempt>, a: Attempt): seq<Event> {
    SleptPart(before, a.backend) + [Forwarded(|before|, a.backend)] + MarkedPart(a)
  }

  function SleptPart(before: seq<Attempt>, backend: string): (r: seq<Event>)
    ensures |r| <= 1 && (r != [] ==> r[0].Slept?)
  {
    if Repeats(before, backend) then [Slept(|before|)] else []
  }

  function MarkedPart(a: Attempt): (r: seq<Event>)
    ensures |r| <= 1 && (r != [] ==> r[0].MarkedDown? || r[0].MarkedUp?)
  {
    if !a.reply.Failed? then [MarkedUp(a.backend)]
    else if Classify(a.reply.err).poisonsHealth then [MarkedDown(a.backend)] else []
  }

  /** The events of the attempts themselves, in order. */
  function AttemptEvents(attempts: seq<Attempt>): seq<Event> {
    if attempts == [] then []
    else
      var before, a := attempts[..|attempts| - 1], attempts[|attempts| - 1];
      AttemptEvents(before) + StepEvents(before, a)
  }

  function RepeatCount(attempts: seq<Attempt>): nat {
    if attempts == [] then 0
    else
      var before := attempts[..|attempts| - 1];
      RepeatCount(before) + if Repeats(before, attempts[|attempts| - 1].backend) then 1 else 0
  }

  /** Every attempt used the backend the rules name, and all but the last failed retryably. */
  ghost predicate FollowsRules(s: Setup, w: World, attempts: seq<Attempt>) {
    attempts == [] ||
    (var n := |attempts| - 1;
     && FollowsRules(s, w, attempts[..n])
     && AllRetryable(attempts[..n])
     && NextBackend(s, w, attempts[..n]) == Some(attempts[n].backend)
     && attempts[n].reply == w.forward(n)
     && w.hasClient(attempts[n].backend) && !w.contextDone(n)
     && (s.hasFields ==> w.encode(n).Encoded?)
     && (Repeats(attempts[..n], attempts[n].backend) ==> w.sleptThrough(n)))
  }

  /** The error envelope fail writes, with the Retry-After every 429 carries. */
  function Fail(e: ApiError, upstreamRetryAfter: string): Event {
    Envelope(e, if upstreamRetryAfter != "" then upstreamRetryAfter else if Status(e) == 429 then DEFAULT_RETRY_AFTER else "")
  }

  /** The Retry-After that belongs to this attempt's own 429, if it sent one. */
  function OwnRetryAfter(a: Attempt): string {
    if a.reply.Failed? && a.reply.err == Upstream(429) then a.reply.retryAfter else ""
  }

  /** The one event by which each ending reaches the client. */
  function Final(attempts: seq<Attempt>, ending: Ending): seq<Event> {
    match ending
    case Refused(e) => [Fail(e, "")]
    case Responded =>
      if attempts == [] then []
      else match attempts[|attempts| - 1].reply { case Buffered(st) => [Relayed(st)] case _ => [Streamed] }
    case GaveUp =>
      if attempts == [] || !attempts[|attempts| - 1].reply.Failed? then []
      else [Fail(Classify(attempts[|attempts| - 1].reply.err).resp, OwnRetryAfter(attempts[|attempts| - 1]))]
    case _ => [ClientGone]
  }

  /** When each ending is the right one. */
  ghost predicate EndsRightly(s: Setup, w: World, attempts: seq<Attempt>, ending: Ending) {
    var n := |attempts|;
    var next := NextBackend(s, w, attempts);
    var allRetryable := AllRetryable(attempts);
    match ending
    case LeftEarly => allRetryable && n < Budget(s) && w.contextDone(n)
    case LeftInBackoff =>
      && allRetryable && n < Budget(s) && !w.contextDone(n) && (s.hasFields ==> w.encode(n).Encoded?)
      && next.Some? && Repeats(attempts, next.value) && !w.sleptThrough(n)
    case LeftInForward => n > 0 && attempts[n - 1].reply.Failed? && attempts[n - 1].reply.err == Canceled && w.contextDoneAfter(n - 1)
    case Refused(e) =>
      && allRetryable && n < Budget(s) && !w.contextDone(n)
      && (if next.None? then n == 0 && e == ErrNoBackend
          else if s.hasFields && !w.encode(n).Encoded? then e == (if w.encode(n).NoUpstreamModel? then ErrInternal else ErrNotNormal)
          else e == ErrInternal && !w.hasClient(next.value) && (Repeats(attempts, next.value) ==> w.sleptThrough(n)))
    case Responded => n > 0 && !attempts[n - 1].reply.Failed?
    case GaveUp =>
      && n > 0 && attempts[n - 1].reply.Failed?
      && !(attempts[n - 1].reply.err == Canceled && w.contextDoneAfter(n - 1))
      && (n == Budget(s) || !Retryable(attempts[n - 1]) || next.None?)
  }

  /** dispatch's loop variables. */
  datatype Loop = Loop(tried: seq<string>, lastErr: Option<BackendError>, lastFailed: string, lastRetryAfter: string, retries: nat)

  /** Whether the client was found gone when this attempt failed. */
  predicate ClientLeft(w: World, attempts: seq<Attempt>) {
    attempts != [] && attempts[|attempts| - 1].reply.Failed?
    && attempts[|attempts| - 1].reply.err == Canceled && w.contextDoneAfter(|attempts| - 1)
  }

  /** The loop variables describe the failed attempts so far. */
  predicate Describes(v: Loop, attempts: seq<Attempt>) {
    && v.tried == Tried(attempts) && v.retries == RepeatCount(attempts)
    && if attempts == [] then v.lastErr == None && v.lastFailed == "" && v.lastRetryAfter == ""
       else
         var a := attempts[|attempts| - 1];
         && a.reply.Failed? && v.lastErr == Some(a.reply.err) && v.lastFailed == a.backend && v.lastRetryAfter == OwnRetryAfter(a)
  }

  /** Selection: pinned, routed, or the last failed backend in place. */
  method Choose(s: Setup, w: World, v: Loop, ghost attempts: seq<Attempt>) returns (backend: Option<string>)
    requires Describes(v, attempts) && AllRetryable(attempts)
    ensures backend == NextBackend(s, w, attempts)
  {
    if s.pinned != "" {
      return Some(s.pinned);
    }
    var picked := w.select(|v.tried|, v.tried);
    TriedLength(attempts);
    if picked.Some? {
      return picked;
    }
    if v.lastErr.Some? && Classify(v.lastErr.value).retryable && v.lastFailed != "" {
      return Some(v.lastFailed);
    }
    return None;
  }

  lemma {:induction false} TriedLength(attempts: seq<Attempt>)
    ensures |Tried(attempts)| == |attempts|
  {
    if attempts != [] {
      TriedLength(attempts[..|attempts| - 1]);
    }
  }

  /** The rules let the next attempt go to this backend. */
  ghost predicate MayForward(s: Setup, w: World, attempts: seq<Attempt>, backend: string) {
    && NextBackend(s, w, attempts) == Some(backend)
    && w.hasClient(backend) && !w.contextDone(|attempts|)
    && (s.hasFields ==> w.encode(|attempts|).Encoded?)
    && (Repeats(attempts, backend) ==> w.sleptThrough(|attempts|))
  }

  /** One more attempt chosen by the rules. */
  lemma Extends(s: Setup, w: World, attempts: seq<Attempt>, a: Attempt)
    requires FollowsRules(s, w, attempts) && AllRetryable(attempts)
    requires MayForward(s, w, attempts, a.backend) && a.reply == w.forward(|attempts|)
    ensures FollowsRules(s, w, attempts + [a])
    ensures AttemptEvents(attempts + [a]) == AttemptEvents(attempts) + StepEvents(attempts, a)
    ensures AllRetryable(attempts + [a]) <==> Retryable(a)
  {
    assert (attempts + [a])[..|attempts|] == attempts;
  }

  /** What the loop remembers of a reply, and the events it makes of it. */
  method Remember(v: Loop, attempts: seq<Attempt>, a: Attempt) returns (v': Loop, marked: seq<Event>)
    requires v.tried == Tried(attempts)
    ensures v'.retries == v.retries && marked == MarkedPart(a)
    ensures a.reply.Failed? ==> v'.tried == Tried(attempts) + [a.backend] && v'.lastErr == Some(a.reply.err)
    ensures a.reply.Failed? ==> v'.lastFailed == a.backend && v'.lastRetryAfter == OwnRetryAfter(a)
  {
    v', marked := v, [];
    if a.reply.Failed? {
      v' := v'.(lastErr := Some(a.reply.err), lastFailed := a.backend, lastRetryAfter := "", tried := v.tried + [a.backend]);
      if a.reply.err == Upstream(429) {
        v' := v'.(lastRetryAfter := a.reply.retryAfter);
      }
      if Classify(a.reply.err).poisonsHealth {
        marked := [MarkedDown(a.backend)];
      }
    } else {
      marked := [MarkedUp(a.backend)];
    }
  }

  /** The forward itself. */
  method SendOnce(s: Setup, w: World, v: Loop, attempts: seq<Attempt>, backend: string, slept: seq<Event>)
    returns (after: seq<Attempt>, v': Loop, events: seq<Event>)
    requires FollowsRules(s, w, attempts) && AllRetryable(attempts) && MayForward(s, w, attempts, backend)
    requires v.tried == Tried(attempts) && slept == SleptPart(attempts, backend)
    requires v.retries == RepeatCount(attempts) + |slept|
    ensures after == attempts + [Attempt(backend, w.forward(|attempts|))]
    ensures FollowsRules(s, w, after) && AttemptEvents(after) == AttemptEvents(attempts) + events
    ensures after[|attempts|].reply.Failed? ==> Describes(v', after)
    ensures v'.retries == RepeatCount(after)
  {
    var a := Attempt(backend, w.forward(|attempts|));
    var marked;
    v', marked := Remember(v, attempts, a);
    Extends(s, w, attempts, a);
    after := attempts + [a];
    assert after[..|attempts|] == attempts;
    events := slept + [Forwarded(|attempts|, backend)] + marked;
  }

  /** The first half of an iteration: a reason to stop, or the backend to use, with the backoff done. */
  method Approach(s: Setup, w: World, v: Loop, attempts: seq<Attempt>)
    returns (v': Loop, backend: string, slept: seq<Event>, ending: Option<Ending>)
    requires Describes(v, attempts) && AllRetryable(attempts) && |attempts| < Budget(s)
    requires !ClientLeft(w, attempts)
    ensures ending.Some? ==> EndsRightly(s, w, attempts, ending.value) && (ending.value.GaveUp? ==> v' == v)
    ensures ending.None? ==> MayForward(s, w, attempts, backend)
    ensures ending.None? ==> slept == SleptPart(attempts, backend) && v' == v.(retries := v.retries + |slept|)
    ensures v.retries <= v'.retries <= v.retries + 1
    ensures ending.Some? && v'.retries == v.retries + 1 ==> ending == Some(LeftInBackoff) || ending == Some(Refused(ErrInternal))
  {
    var n := |attempts|;
    v', backend, slept := v, "", [];
    if w.contextDone(n) {
      return v', backend, slept, Some(LeftEarly);
    }
    var chosen := Choose(s, w, v, attempts);
    if chosen.None? {
      ending := Some(if n == 0 then Refused(ErrNoBackend) else GaveUp);
      return;
    }
    backend := chosen.value;
    if s.hasFields && !w.encode(n).Encoded? {
      return v', backend, slept, Some(Refused(if w.encode(n).NoUpstreamModel? then ErrInternal else ErrNotNormal));
    }
    if n > 0 && backend == v.lastFailed {
      v' := v'.(retries := v.retries + 1);
      if !w.sleptThrough(n) {
        return v', backend, slept, Some(LeftInBackoff);
      }
      slept := [Slept(n)];
    }
    if !w.hasClient(backend) {
      return v', backend, slept, Some(Refused(ErrInternal));
    }
    ending := None;
  }

  /** The second half: whether the reply ends the loop. */
  method Judge(s: Setup, w: World, before: seq<Attempt>, a: Attempt) returns (ending: Option<Ending>)
    requires |before| < Budget(s) && AllRetryable(before)
    ensures ending.None? ==> AllRetryable(before + [a]) && !ClientLeft(w, before + [a])
    ensures ending.Some? ==> EndsRightly(s, w, before + [a], ending.value)
    ensures ending.Some? && ending.value.GaveUp? ==> a.reply.Failed?
    ensures ending != Some(LeftInBackoff) && (ending.Some? ==> !ending.value.Refused?)
  {
    var n := |before|;
    var reply := a.reply;
    if !reply.Failed? {
      ending := Some(Responded);
    } else if reply.err == Canceled && w.contextDoneAfter(n) {
      ending := Some(LeftInForward);
    } else if Classify(reply.err).retryable {
      ending := None;
    } else {
      ending := Some(GaveUp);
    }
  }

  /** One iteration: either another failed attempt worth retrying, or the end. */
  method Iterate(s: Setup, w: World, v: Loop, attempts: seq<Attempt>)
    returns (after: seq<Attempt>, v': Loop, events: seq<Event>, ending: Option<Ending>)
    requires Describes(v, attempts) && AllRetryable(attempts) && FollowsRules(s, w, attempts) && |attempts| < Budget(s)
    requires !ClientLeft(w, attempts)
    ensures |attempts| <= |after| <= |attempts| + 1 && FollowsRules(s, w, after)
    ensures AttemptEvents(after) == AttemptEvents(attempts) + events
    ensures ending.None? ==> |after| == |attempts| + 1 && AllRetryable(after) && Describes(v', after) && !ClientLeft(w, after)
    ensures ending.Some? ==> EndsRightly(s, w, after, ending.value) && (ending.value.GaveUp? ==> Describes(v', after))
    ensures RepeatCount(after) <= v'.retries <= RepeatCount(after) + 1
    ensures v'.retries == RepeatCount(after) + 1 ==> ending == Some(LeftInBackoff) || ending == Some(Refused(ErrInternal))
  {
    var backend, slept;
    v', backend, slept, ending := Approach(s, w, v, attempts);
    after, events := attempts, [];
    if ending.Some? {
      assert AttemptEvents(attempts) + [] == AttemptEvents(attempts);
      return;
    }
    after, v', events := SendOnce(s, w, v', attempts, backend, slept);
    ending := Judge(s, w, attempts, Attempt(backend, w.forward(|attempts|)));
  }

  /** The retry loop and the emission of its last error. */
  method Forward(s: Setup, w: World) returns (attempts: seq<Attempt>, trace: seq<Event>, retries: nat, ending: Ending)
    ensures |attempts| <= Budget(s)
    ensures FollowsRules(s, w, attempts) && EndsRightly(s, w, attempts, ending)
    ensures trace == AttemptEvents(attempts) + Final(attempts, ending) && |Final(attempts, ending)| == 1
    ensures RepeatCount(attempts) <= retries <= RepeatCount(attempts) + 1
    ensures retries == RepeatCount(attempts) + 1 ==> ending.LeftInBackoff? || ending == Refused(ErrInternal)
  {
    attempts, trace := [], [];
    var v := Loop([], None, "", "", 0);
    var stop: Option<Ending> := None;
    while |attempts| < Budget(s) && stop.None?
      invariant |attempts| <= Budget(s) && FollowsRules(s, w, attempts) && trace == AttemptEvents(attempts)
      invariant stop.None? ==> AllRetryable(attempts) && Describes(v, attempts) && !ClientLeft(w, attempts)
      invariant stop.Some? ==> EndsRightly(s, w, attempts, stop.value) && (stop.value.GaveUp? ==> Describes(v, attempts))
      invariant RepeatCount(attempts) <= v.retries <= RepeatCount(attempts) + 1
      invariant v.retries == RepeatCount(attempts) + 1 ==> stop == Some(LeftInBackoff) || stop == Some(Refused(ErrInternal))
      decreases Budget(s) - |attempts|, stop.None?
    {
      var events;
      attempts, v, events, stop := Iterate(s, w, v, attempts);
      trace := trace + events;
    }
    ending := if stop.Some? then stop.value else GaveUp;
    retries := v.retries;
    var last := Emit(v, attempts, ending);
    trace := trace + last;
  }

  /** The one client-visible event of an ending. */
  method Emit(v: Loop, attempts: seq<Attempt>, ending: Ending) returns (last: seq<Event>)
    requires ending.Responded? ==> attempts != [] && !attempts[|attempts| - 1].reply.Failed?
    requires ending.GaveUp? ==> attempts != [] && Describes(v, attempts)
    ensures last == Final(attempts, ending) && |last| == 1
  {
    match ending {
      case Refused(e) => last := [Fail(e, "")];
      case Responded =>
        var reply := attempts[|attempts| - 1].reply;
        last := [if reply.Stream? then Streamed else Relayed(reply.status)];
      case GaveUp =>
        last := [];
        if v.lastErr.Some? {
          var f := Classify(v.lastErr.value);
          last := [Fail(f.resp, if f.resp == ErrUpstreamRateLimited then v.lastRetryAfter else "")];
        }
      case _ => last := [ClientGone];
    }
  }

  /** The checks that come before the loop, in order; None lets the request through. */
  datatype Gates = Gates(draining: bool, body: Option<ApiError>, target: Option<ApiError>, prepare: Option<ApiError>)

  function FirstRefusal(g: Gates): Option<ApiError> {
    if g.draining then Some(ErrDraining)
    else if g.body.Some? then g.body
    else if g.target.Some? then g.target
    else g.prepare
  }

  /** A gate's envelope. */
  function Refusal(e: ApiError): Event {
    Envelope(e, if e == ErrQuota || e == ErrUpstreamRateLimited || e == ErrBadRequest(429) then "1" else "")
  }

  function StatusOf(e: Event): int {
    match e
    case Envelope(err, _) => Status(err)
    case Relayed(st) => st
    case Streamed => 200
    case ClientGone => 499
    case _ => 500
  }

  /** The whole operation, with the accounting call that every exit path defers to. */
  method Dispatch(g: Gates, s: Setup, w: World) returns (attempts: seq<Attempt>, trace: seq<Event>, ghost ending: Ending)
    ensures FirstRefusal(g).Some? ==>
              attempts == [] && trace == [Fail(FirstRefusal(g).value, ""), Accounted(Status(FirstRefusal(g).value))]
    // the gates in order: draining, the body, the target, the preparation; a refused quota carries a Retry-After
    ensures g.draining ==> trace == [Envelope(ErrDraining, ""), Accounted(503)]
    ensures !g.draining && g.body.Some? ==> trace[0] == Refusal(g.body.value)
    ensures !g.draining && g.body.None? && g.target.Some? ==> trace[0] == Refusal(g.target.value)
    ensures !g.draining && g.body.None? && g.target.None? && g.prepare.Some? ==> trace[0] == Refusal(g.prepare.value)
    ensures !g.draining && g.body.None? && g.target.None? && g.prepare.None? <==> FirstRefusal(g).None?
    ensures FirstRefusal(g).None? ==>
              && |attempts| <= Budget(s) && FollowsRules(s, w, attempts) && EndsRightly(s, w, attempts, ending)
              && |Final(attempts, ending)| == 1
              && trace == AttemptEvents(attempts) + Final(attempts, ending) + [Accounted(StatusOf(Final(attempts, ending)[0]))]
  {
    attempts, ending := [], GaveUp;
    if g.draining {
      trace := [Fail(ErrDraining, "")];
    } else if g.body.Some? {
      trace := [Fail(g.body.value, "")];
    } else if g.target.Some? {
      trace := [Fail(g.target.value, "")];
    } else if g.prepare.Some? {
      trace := [Fail(g.prepare.value, "")];
    } else {
      var retries;
      attempts, trace, retries, ending := Forward(s, w);
    }
    trace := trace + [Accounted(StatusOf(trace[|trace| - 1]))];
  }

  // ----- what the contract means for a client and an operator -----

  datatype Kind = Outcome | Account | Send | Step

  function KindOf(e: Event): Kind {
    match e
    case Envelope(_, _) => Outcome
    case Relayed(_) => Outcome
    case Streamed => Outcome
    case ClientGone => Outcome
    case Accounted(_) => Account
    case Forwarded(_, _) => Send
    case _ => Step
  }

  function CountOf(trace: seq<Event>, kind: Kind): nat {
    if trace == [] then 0 else CountOf(trace[..|trace| - 1], kind) + if KindOf(trace[|trace| - 1]) == kind then 1 else 0
  }

  lemma {:induction false} CountConcat(a: seq<Event>, b: seq<Event>, kind: Kind)
    ensures CountOf(a + b, kind) == CountOf(a, kind) + CountOf(b, kind)
  {
    if b == [] {
      assert a + b == a;
    } else {
      var m := |b| - 1;
      assert (a + b)[..|a + b| - 1] == a + b[..m];
      CountConcat(a, b[..m], kind);
    }
  }

  /** One attempt sends one request and decides nothing. */
  lemma StepCounts(before: seq<Attempt>, a: Attempt, kind: Kind)
    requires kind != Step
    ensures CountOf(StepEvents(before, a), kind) == if kind == Send then 1 else 0
  {
    var slept, sent, marked := SleptPart(before, a.backend), [Forwarded(|before|, a.backend)], MarkedPart(a);
    CountConcat(slept, sent, kind);
    CountConcat(slept + sent, marked, kind);
    CountOne(slept, kind);
    CountOne(sent, kind);
    CountOne(marked, kind);
  }

  lemma CountOne(a: seq<Event>, kind: Kind)
    requires |a| <= 1
    ensures CountOf(a, kind) == if a != [] && KindOf(a[0]) == kind then 1 else 0
  {
    if a != [] {
      assert a[..0] == [];
    }
  }

  lemma {:induction false} AttemptCounts(attempts: seq<Attempt>, kind: Kind)
    requires kind != Step
    ensures CountOf(AttemptEvents(attempts), kind) == if kind == Send then |attempts| else 0
  {
    if attempts != [] {
      var before, a := attempts[..|attempts| - 1], attempts[|attempts| - 1];
      AttemptCounts(before, kind);
      CountConcat(AttemptEvents(before), StepEvents(before, a), kind);
      StepCounts(before, a, kind);
    }
  }

  lemma TraceCounts(attempts: seq<Attempt>, final: seq<Event>, kind: Kind)
    requires |final| == 1 && KindOf(final[0]) == Outcome && kind != Step
    ensures CountOf(AttemptEvents(attempts) + final + [Accounted(StatusOf(final[0]))], kind)
         == match kind { case Send => |attempts| case _ => 1 }
  {
    var last := [Accounted(StatusOf(final[0]))];
    AttemptCounts(attempts, kind);
    CountConcat(AttemptEvents(attempts), final, kind);
    CountConcat(AttemptEvents(attempts) + final, last, kind);
    CountOne(final, kind);
    CountOne(last, kind);
  }

  /** The shape Dispatch guarantees of its trace once the gates are passed. */
  ghost predicate IsTrace(s: Setup, w: World, attempts: seq<Attempt>, ending: Ending, trace: seq<Event>) {
    && |attempts| <= Budget(s) && FollowsRules(s, w, attempts) && EndsRightly(s, w, attempts, ending)
    && |Final(attempts, ending)| == 1
    && trace == AttemptEvents(attempts) + Final(attempts, ending) + [Accounted(StatusOf(Final(attempts, ending)[0]))]
  }

  /**
   Every run has exactly one outcome and exactly one accounting call, which comes last and carries
   the outcome's status; at most max(1, max_attempts) requests reach backends, all of them before
   the outcome, so nothing is retried once a byte has gone to the client.
   */
  lemma SingleOutcome(s: Setup, w: World, attempts: seq<Attempt>, ending: Ending, trace: seq<Event>)
    requires IsTrace(s, w, attempts, ending, trace)
    ensures CountOf(trace, Outcome) == 1
    ensures CountOf(trace, Account) == 1
    ensures CountOf(trace, Send) == |attempts| <= Budget(s)
    ensures |trace| >= 2 && KindOf(trace[|trace| - 2]) == Outcome && trace[|trace| - 1] == Accounted(StatusOf(trace[|trace| - 2]))
  {
    TraceCounts(attempts, Final(attempts, ending), Outcome);
    TraceCounts(attempts, Final(attempts, ending), Account);
    TraceCounts(attempts, Final(attempts, ending), Send);
  }

  /** A router that honours the exclusion list. */
  ghost predicate HonoursExclusion(w: World) {
    forall n: nat, tried: seq<string> :: w.select(n, tried).Some? ==> w.select(n, tried).value !in tried
  }

  /** The backend a selection offers; none for an unknown model, an unimplemented strategy, or no eligible replica. */
  function Offered(r: R.Selection): Option<string> {
    if r.Target? then Some(r.backend) else None
  }

  /** Some router, in some state and at some time, may answer offer when it is to exclude tried. */
  ghost predicate IsRouterAnswer(model: string, tried: seq<string>, offer: Option<string>) {
    exists models, health, now: nat -> int, r, pick: nat :: R.Answers(models, health, model, tried, now, r, pick) && offer == Offered(r)
  }

  /** Whatever the router is asked, at whatever time and state, the answer is one of Router.Select's. */
  ghost predicate AsksRouter(w: World, model: string) {
    forall n: nat, tried: seq<string> :: IsRouterAnswer(model, tried, w.select(n, tried))
  }

  /** What the router says to the dispatch loop. */
  method Ask(router: R.Router, model: string, tried: seq<string>, now: nat -> int, read: R.Reading) returns (offer: Option<string>)
    requires router.Valid()
    modifies router`rr, router`wrr
    ensures router.Valid() && IsRouterAnswer(model, tried, offer)
  {
    var r;
    ghost var pick;
    r, pick := router.Select(model, tried, now, read);
    offer := Offered(r);
  }

  /** The router honours the exclusion list. */
  lemma RouterHonoursExclusion(w: World, model: string)
    requires AsksRouter(w, model)
    ensures HonoursExclusion(w)
  {
    forall n: nat, tried: seq<string> | w.select(n, tried).Some? ensures w.select(n, tried).value !in tried {
      assert IsRouterAnswer(model, tried, w.select(n, tried));
      var models, health, now: nat -> int, r, pick: nat
        :| R.Answers(models, health, model, tried, now, r, pick) && w.select(n, tried) == Offered(r);
    }
  }

  lemma {:induction false} RulesAt(s: Setup, w: World, attempts: seq<Attempt>, k: nat)
    requires FollowsRules(s, w, attempts) && k < |attempts|
    ensures NextBackend(s, w, attempts[..k]) == Some(attempts[k].backend)
    ensures forall j :: 0 <= j < k ==> Retryable(attempts[j])
  {
    if k < |attempts| - 1 {
      assert attempts[..|attempts| - 1][..k] == attempts[..k];
      RulesAt(s, w, attempts[..|attempts| - 1], k);
    }
  }

  lemma {:induction false} TriedContains(attempts: seq<Attempt>, j: nat)
    requires j < |attempts|
    ensures attempts[j].backend in Tried(attempts)
  {
    if j < |attempts| - 1 {
      TriedContains(attempts[..|attempts| - 1], j);
    }
  }

  /** A backend is asked again only when it is pinned or the router had nothing left to offer. */
  lemma RepeatsOnlyWhenForced(s: Setup, w: World, attempts: seq<Attempt>, j: nat, k: nat)
    requires FollowsRules(s, w, attempts) && HonoursExclusion(w) && j < k < |attempts|
    requires attempts[j].backend == attempts[k].backend
    ensures s.pinned != "" || (w.select(k, Tried(attempts[..k])).None? && attempts[k].backend == attempts[k - 1].backend)
  {
    RulesAt(s, w, attempts, k);
    TriedContains(attempts[..k], j);
  }

  /** With the router behind it, that is so in every run. */
  lemma RoutedRepeatsOnlyWhenForced(s: Setup, w: World, model: string, attempts: seq<Attempt>, j: nat, k: nat)
    requires FollowsRules(s, w, attempts) && AsksRouter(w, model) && j < k < |attempts|
    requires attempts[j].backend == attempts[k].backend
    ensures s.pinned != "" || (w.select(k, Tried(attempts[..k])).None? && attempts[k].backend == attempts[k - 1].backend)
  {
    RouterHonoursExclusion(w, model);
    RepeatsOnlyWhenForced(s, w, attempts, j, k);
  }

  /**
   The branch that leaves the loop because no backend can be chosen is dead for named backends,
   so giving up means a failure that may not be retried, or a spent budget.
   */
  lemma GivesUpForCause(s: Setup, w: World, attempts: seq<Attempt>)
    requires FollowsRules(s, w, attempts) && EndsRightly(s, w, attempts, GaveUp)
    requires attempts[|attempts| - 1].backend != ""
    ensures |attempts| == Budget(s) || !Retryable(attempts[|attempts| - 1])
    ensures attempts[|attempts| - 1].reply.Failed? && (|attempts| == Budget(s) || !IsTransient(attempts[|attempts| - 1].reply.err))
  {
    RetryableIsTransient(attempts[|attempts| - 1]);
  }

  // ----- what is retried, marked and answered, error by error -----

  /** The errors after which another attempt may follow: the backend was not reached, its queue refused, or it said to come back. */
  predicate IsTransient(e: BackendError) {
    || e == Connect || e == DialTimeout || e == QueueFull || e == QueueTimeout
    || e == Upstream(429) || e == Upstream(502) || e == Upstream(503) || e == Upstream(504)
  }

  lemma RetryableIsTransient(a: Attempt)
    ensures Retryable(a) <==> a.reply.Failed? && IsTransient(a.reply.err)
  {
  }

  /**
   An attempt is followed by another only after a transient error; and a run that gives up has spent
   its budget, or its last error is not transient. So is every other ending explained by the world.
   */
  lemma RetriesExactlyTransient(s: Setup, w: World, attempts: seq<Attempt>, ending: Ending, trace: seq<Event>)
    requires IsTrace(s, w, attempts, ending, trace)
    ensures forall k :: 0 <= k < |attempts| - 1 ==> attempts[k].reply.Failed? && IsTransient(attempts[k].reply.err)
    ensures !ending.GaveUp? && !ending.LeftInForward? && !ending.Responded? ==>
              |attempts| < Budget(s) && forall k :: 0 <= k < |attempts| ==> attempts[k].reply.Failed? && IsTransient(attempts[k].reply.err)
    ensures ending.GaveUp? && attempts[|attempts| - 1].backend != "" ==>
              && attempts[|attempts| - 1].reply.Failed?
              && (|attempts| == (if s.maxAttempts >= 2 then s.maxAttempts else 1) || !IsTransient(attempts[|attempts| - 1].reply.err))
    ensures ending.Responded? <==> attempts != [] && !attempts[|attempts| - 1].reply.Failed?
  {
    forall k | 0 <= k < |attempts| - 1 ensures attempts[k].reply.Failed? && IsTransient(attempts[k].reply.err) {
      RulesAt(s, w, attempts, |attempts| - 1);
      RetryableIsTransient(attempts[k]);
    }
    forall k | 0 <= k < |attempts| && Retryable(attempts[k]) ensures IsTransient(attempts[k].reply.err) {
      RetryableIsTransient(attempts[k]);
    }
    if attempts != [] {
      RetryableIsTransient(attempts[|attempts| - 1]);
    }
  }

  /** The backend of every attempt: the pinned one, or the router's offer, or, without one, the last that failed. */
  lemma BackendsByTheRules(s: Setup, w: World, attempts: seq<Attempt>, k: nat)
    requires FollowsRules(s, w, attempts) && k < |attempts|
    ensures attempts[k].backend ==
              if s.pinned != "" then s.pinned
              else if w.select(k, Tried(attempts[..k])).Some? then w.select(k, Tried(attempts[..k])).value
              else if k > 0 then attempts[k - 1].backend else ""
    ensures s.pinned == "" && k == 0 ==> w.select(0, []).Some?
    ensures |Tried(attempts[..k])| == k && forall j :: 0 <= j < k ==> Tried(attempts[..k])[j] == attempts[j].backend
    ensures attempts[k].reply == w.forward(k)
    // what was checked before it: the client is there, the backend is known, the body encoded, the backoff slept through
    ensures !w.contextDone(k) && w.hasClient(attempts[k].backend) && (s.hasFields ==> w.encode(k).Encoded?)
    ensures k > 0 && attempts[k - 1].backend == attempts[k].backend ==> w.sleptThrough(k)
  {
    RulesAt(s, w, attempts, k);
    CheckedAt(s, w, attempts, k);
    TriedIs(attempts[..k]);
    assert attempts[..0] == [];
  }

  lemma {:induction false} CheckedAt(s: Setup, w: World, attempts: seq<Attempt>, k: nat)
    requires FollowsRules(s, w, attempts) && k < |attempts|
    ensures attempts[k].reply == w.forward(k)
    ensures !w.contextDone(k) && w.hasClient(attempts[k].backend) && (s.hasFields ==> w.encode(k).Encoded?)
    ensures k > 0 && attempts[k - 1].backend == attempts[k].backend ==> w.sleptThrough(k)
  {
    if k < |attempts| - 1 {
      CheckedAt(s, w, attempts[..|attempts| - 1], k);
    }
  }

  lemma {:induction false} TriedIs(attempts: seq<Attempt>)
    ensures |Tried(attempts)| == |attempts| && forall j :: 0 <= j < |attempts| ==> Tried(attempts)[j] == attempts[j].backend
  {
    if attempts != [] {
      TriedIs(attempts[..|attempts| - 1]);
    }
  }

  /**
   Why attempt k of a run has this side effect: a forward is recorded for its backend; health is marked
   down when the backend could not be connected to and up when it answered; and the loop backs off
   before asking a backend that has just failed.
   */
  predicate IsStepEvent(attempts: seq<Attempt>, k: nat, e: Event)
    requires k < |attempts|
  {
    var a := attempts[k];
    match e
    case Slept(n) => n == k && k > 0 && attempts[k - 1].backend == a.backend
    case Forwarded(n, b) => n == k && b == a.backend
    case MarkedDown(b) => b == a.backend && a.reply.Failed? && (a.reply.err == Connect || a.reply.err == DialTimeout)
    case MarkedUp(b) => b == a.backend && !a.reply.Failed?
    case _ => false
  }

  lemma StepEventIs(attempts: seq<Attempt>, k: nat, e: Event)
    requires k < |attempts|
    ensures e in StepEvents(attempts[..k], attempts[k]) <==> IsStepEvent(attempts, k, e)
  {
  }

  ghost predicate HasCause(attempts: seq<Attempt>, e: Event) {
    exists k: nat :: k < |attempts| && IsStepEvent(attempts, k, e)
  }

  lemma CauseStep(before: seq<Attempt>, attempts: seq<Attempt>, e: Event)
    requires attempts != [] && before == attempts[..|attempts| - 1]
    ensures HasCause(attempts, e) <==> HasCause(before, e) || IsStepEvent(attempts, |before|, e)
  {
    forall k: nat | k < |before| ensures IsStepEvent(before, k, e) == IsStepEvent(attempts, k, e) {
    }
    if HasCause(attempts, e) && !IsStepEvent(attempts, |before|, e) {
      var k: nat :| k < |attempts| && IsStepEvent(attempts, k, e);
      assert IsStepEvent(before, k, e);
    }
  }

  lemma {:induction false} EventsHaveCauses(attempts: seq<Attempt>, e: Event)
    ensures e in AttemptEvents(attempts) <==> HasCause(attempts, e)
  {
    if attempts != [] {
      var n := |attempts| - 1;
      EventsHaveCauses(attempts[..n], e);
      StepEventIs(attempts, n, e);
      CauseStep(attempts[..n], attempts, e);
    }
  }

  /** A run has exactly the side effects its attempts have a cause for. */
  lemma MarksForCause(s: Setup, w: World, attempts: seq<Attempt>, ending: Ending, trace: seq<Event>, e: Event)
    requires IsTrace(s, w, attempts, ending, trace) && (KindOf(e) == Step || KindOf(e) == Send)
    ensures e in trace <==> HasCause(attempts, e)
  {
    var last := Final(attempts, ending);
    var end := last + [Accounted(StatusOf(last[0]))];
    assert trace == AttemptEvents(attempts) + end;
    assert e !in end by { assert KindOf(last[0]) == Outcome; }
    EventsHaveCauses(attempts, e);
  }

  /** What the client gets for a last error, and what is accounted: the status of each error, and the Retry-After. */
  lemma AnswerOfEachError(s: Setup, w: World, attempts: seq<Attempt>, trace: seq<Event>)
    requires IsTrace(s, w, attempts, GaveUp, trace)
    ensures trace[|trace| - 2].Envelope? && trace[|trace| - 1] == Accounted(Status(trace[|trace| - 2].err))
    ensures var e, answer := attempts[|attempts| - 1].reply.err, trace[|trace| - 2];
            && (e == Upstream(429) <==> answer.err == ErrUpstreamRateLimited)
            && Status(answer.err) == match e
               case Upstream(st) => if st == 429 then 429 else if st >= 500 then 502 else 400
               case Connect => 502
               case DialTimeout => 504
               case Draining => 503
               case QueueFull => 503
               case QueueTimeout => 503
               case HeaderTimeout => 504
               case Timeout => 504
               case TooLarge => 502
               case Policy => 500
               case Canceled => 502
               case Unclassified => 502
  {
  }

  /** Where attempt number |attempts| would go: the pinned backend, the router's offer, or the last that failed. */
  function Next(s: Setup, w: World, attempts: seq<Attempt>): string {
    var n := |attempts|;
    if s.pinned != "" then s.pinned
    else if w.select(n, Tried(attempts)).Some? then w.select(n, Tried(attempts)).value
    else if n > 0 then attempts[n - 1].backend else ""
  }

  /** Why a run ended before its next forward could be made, in terms of what the world answered. */
  ghost predicate StoppedShort(s: Setup, w: World, attempts: seq<Attempt>, ending: Ending) {
    var n, next := |attempts|, Next(s, w, attempts);
    var nowhere := s.pinned == "" && n == 0 && w.select(0, []).None?;
    match ending
    case LeftEarly => w.contextDone(n)
    case LeftInBackoff => !w.contextDone(n) && n > 0 && next == attempts[n - 1].backend && (s.hasFields ==> w.encode(n).Encoded?) && !w.sleptThrough(n)
    case Refused(e) =>
      && !w.contextDone(n)
      && (if nowhere then e == ErrNoBackend
          else if s.hasFields && w.encode(n).NoUpstreamModel? then e == ErrInternal
          else if s.hasFields && w.encode(n).NotEncodable? then e == ErrNotNormal
          else e == ErrInternal && !w.hasClient(next) && (n > 0 && next == attempts[n - 1].backend ==> w.sleptThrough(n)))
    case _ => false
  }

  /**
   Every other ending, with its cause, what the client gets and what is accounted: a client that left
   before a forward, during a backoff or during a forward; a refusal before a forward; a response.
   */
  lemma AnswerOfEachEnding(s: Setup, w: World, attempts: seq<Attempt>, ending: Ending, trace: seq<Event>)
    requires IsTrace(s, w, attempts, ending, trace)
    ensures ending.LeftEarly? || ending.LeftInBackoff? || ending.Refused? ==> StoppedShort(s, w, attempts, ending)
    ensures ending.LeftInForward? <==>
              attempts != [] && attempts[|attempts| - 1].reply.Failed? && attempts[|attempts| - 1].reply.err == Canceled && w.contextDoneAfter(|attempts| - 1)
    ensures var answer, accounted := trace[|trace| - 2], trace[|trace| - 1];
            match ending
            case LeftEarly => answer == ClientGone && accounted == Accounted(499)
            case LeftInBackoff => answer == ClientGone && accounted == Accounted(499)
            case LeftInForward => answer == ClientGone && accounted == Accounted(499)
            case Refused(e) => answer == Envelope(e, "") && accounted == Accounted(if e == ErrNoBackend then 503 else if e == ErrNotNormal then 400 else 500)
            case Responded =>
              (match attempts[|attempts| - 1].reply
               case Buffered(st) => answer == Relayed(st) && accounted == Accounted(st)
               case _ => answer == Streamed && accounted == Accounted(200))
            case GaveUp => answer.Envelope?
  {
    if attempts != [] {
      RetryableIsTransient(attempts[|attempts| - 1]);
    }
    assert attempts == [] ==> Tried(attempts) == [];
  }

  /** The status of each refusal of a gate. */
  lemma GateStatuses(e: ApiError)
    ensures Status(ErrDraining) == Status(ErrOverloaded) == 503 && Status(ErrQuota) == 429
    ensures e.ErrBadRequest? ==> Status(e) == e.status
  {
  }

  /** A Retry-After other than the default is the final attempt's own, on its own 429. */
  lemma RetryAfterIsTheFinalAttempts(s: Setup, w: World, attempts: seq<Attempt>, ending: Ending, trace: seq<Event>, e: ApiError, ra: string)
    requires IsTrace(s, w, attempts, ending, trace) && trace[|trace| - 2] == Envelope(e, ra)
    ensures ra != "" && ra != DEFAULT_RETRY_AFTER ==>
              && attempts != [] && attempts[|attempts| - 1].reply == Failed(Upstream(429), ra)
              && e == ErrUpstreamRateLimited
    ensures ra == "" <==> Status(e) != 429
  {
    if ending.GaveUp? {
      PoisonIsConnectivity(attempts[|attempts| - 1].reply.err);
    }
  }
}
