/**
 The slot pool of one inference server: a channel of concurrency tokens, a channel of queue
 tokens, and a drain signal, shared by every request that forwards to that server.

 A request is a thread with its own program counter, from its arrival in acquire to the exit of
 Forward it takes. Callers of Result.Close are threads of their own, any number for one result,
 racing on its sync.Once. Each channel, mutex and flag operation is one step, and a run is any
 interleaving of arrivals, client disconnects, timer expiries, backend replies, closes and the
 drain.
 */
module Admission {
  import opened Options
  import opened Sums

  /** The capacities of the two channels; bounded: the client has a request timeout. */
  datatype Config = Config(concCap: nat, queueCap: nat, bounded: bool)

  /** Why acquire refused. */
  datatype Refusal = Canceled | Draining | QueueFull | QueueTimeout

  /** The exits of Forward that release the hold themselves. */
  datatype Exit = BuildFailed | SendFailed | TimedOut | ReadFailed | TooLarge | UpstreamStatus(status: int) | Buffered(status: int)

  /** What acquire is about to return while its deferred queue release is still to run. */
  datatype Verdict = Admit | Refuse(refusal: Refusal)

  datatype Pc =
    | Arriving                    // before the drain check
    | Trying                      // before the fast-path select
    | Queueing                    // before the queue select
    | Refusing                    // queue full, before the second look at the context
    | Parked                      // in the wait select, holding a queue token
    | Expired                     // timer fired, before the second look at the context
    | Leaving(verdict: Verdict)   // before the deferred receive from the queue channel
    | Refused(refusal: Refusal)   // acquire returned an error, and so did Forward
    | Building                    // acquire returned a hold; before the request is built
    | Sending                     // before the exchange of headers
    | Reading(status: int, eventStream: bool)   // headers received; before the body is read into memory
    | CheckingBound               // the read failed; before the look at the timeout signal
    | Exiting(exit: Exit)         // at the release of this exit
    | Returned(exit: Exit)        // Forward returned after releasing
    | Handed(status: int)         // Forward returned a Result that owns the hold

  /** A returned Result: its sync.Once, with the index of the caller inside it, and whether hold is set. */
  datatype Result = Result(done: bool, owner: Option<nat>, hold: bool)

  /**
   late: the drain was already closed when acquire was called.
   canceled: the request context is done.
   took and gave count concurrency tokens sent and received on behalf of this request.
   */
  datatype Thread = Thread(late: bool, stream: bool, canceled: bool, pc: Pc, took: nat, gave: nat, result: Option<Result>)

  datatype CloserPc =
    | Calling     // before the load of the once flag
    | Locking     // before the once's mutex
    | Checking    // mutex held, before the second look at the flag
    | Releasing   // inside the function: before the test of hold and the receive
    | Clearing    // token received, before hold is cleared
    | Finishing   // function done, before the flag is set and the mutex released
    | Closed      // Close returned

  /** A call of Close on the Result of thread of. */
  datatype Closer = Closer(of: nat, pc: CloserPc)

  datatype State = State(conc: nat, queue: nat, drained: bool, threads: seq<Thread>, closers: seq<Closer>)

  ghost predicate Init(s: State) {
    s == State(0, 0, false, [], [])
  }

  /** A response that Forward hands on as a live stream. */
  predicate IsLive(stream: bool, status: int, eventStream: bool) {
    stream && status == 200 && eventStream
  }

  // ----- steps -----

  datatype Tokens = Tokens(conc: nat, queue: nat)

  /**
   One atomic step of a thread inside acquire: the new token counts and the new thread. A Go
   select may take any ready case; default is taken only when none is ready.
   */
  ghost predicate AcquireStep(c: Config, k: Tokens, drained: bool, t: Thread, k': Tokens, t': Thread) {
    match t.pc
    case Arriving =>
      k' == k && t' == t.(pc := if drained then Refused(Draining) else Trying)
    case Trying =>
      || (k.conc < c.concCap && k' == k.(conc := k.conc + 1) && t' == t.(pc := Building, took := t.took + 1))
      || (t.canceled && k' == k && t' == t.(pc := Refused(Canceled)))
      || (k.conc >= c.concCap && !t.canceled && k' == k && t' == t.(pc := Queueing))
    case Queueing =>
      || (k.queue < c.queueCap && k' == k.(queue := k.queue + 1) && t' == t.(pc := Parked))
      || (t.canceled && k' == k && t' == t.(pc := Refused(Canceled)))
      || (k.queue >= c.queueCap && !t.canceled && k' == k && t' == t.(pc := Refusing))
    case Refusing =>
      k' == k && t' == t.(pc := Refused(if t.canceled then Canceled else QueueFull))
    case Parked =>
      || (k.conc < c.concCap && k' == k.(conc := k.conc + 1) && t' == t.(pc := Leaving(Admit), took := t.took + 1))
      || (t.canceled && k' == k && t' == t.(pc := Leaving(Refuse(Canceled))))
      || (drained && k' == k && t' == t.(pc := Leaving(Refuse(Draining))))
      || (k' == k && t' == t.(pc := Expired))
    case Expired =>
      k' == k && t' == t.(pc := Leaving(Refuse(if t.canceled then Canceled else QueueTimeout)))
    case Leaving(verdict) =>
      && k.queue > 0 && k' == k.(queue := k.queue - 1)
      && t' == t.(pc := if verdict.Admit? then Building else Refused(verdict.refusal))
    case _ => false
  }

  /** One atomic step of a thread inside Forward, after acquire returned a hold. */
  ghost predicate ForwardStep(c: Config, k: Tokens, t: Thread, k': Tokens, t': Thread) {
    match t.pc
    case Building =>
      k' == k && (t' == t.(pc := Exiting(BuildFailed)) || t' == t.(pc := Sending))
    case Sending =>
      && k' == k
      && (|| t' == t.(pc := Exiting(SendFailed))
          || exists status: int, eventStream: bool ::
               t' == if IsLive(t.stream, status, eventStream) then t.(pc := Handed(status), result := Some(Result(false, None, true)))
                     else t.(pc := Reading(status, eventStream)))
    case Reading(status, _) =>
      && k' == k
      && (|| t' == t.(pc := if c.bounded && t.stream then CheckingBound else Exiting(ReadFailed))
          || t' == t.(pc := Exiting(TooLarge))
          || t' == t.(pc := Exiting(if status >= 300 then UpstreamStatus(status) else Buffered(status))))
    case CheckingBound =>
      k' == k && (t' == t.(pc := Exiting(TimedOut)) || t' == t.(pc := Exiting(ReadFailed)))
    case Exiting(exit) =>
      && k.conc > 0 && k' == k.(conc := k.conc - 1)
      && t' == t.(pc := Returned(exit), gave := t.gave + 1, result := if CarriesResult(exit) then Some(Result(false, None, false)) else None)
    case _ => false
  }

  /** The exits that return a Result, without a hold in it. */
  predicate CarriesResult(exit: Exit) {
    exit.UpstreamStatus? || exit.Buffered?
  }

  /** One atomic step of caller j of Close on the Result of thread t. */
  ghost predicate CloserStep(conc: nat, j: nat, pc: CloserPc, t: Thread, conc': nat, pc': CloserPc, t': Thread)
    requires t.result.Some?
  {
    var r := t.result.value;
    match pc
    case Calling => conc' == conc && t' == t && pc' == if r.done then Closed else Locking
    case Locking => r.owner.None? && conc' == conc && t' == t.(result := Some(r.(owner := Some(j)))) && pc' == Checking
    case Checking =>
      conc' == conc && if r.done then t' == t.(result := Some(r.(owner := None))) && pc' == Closed else t' == t && pc' == Releasing
    case Releasing =>
      if r.hold then conc > 0 && conc' == conc - 1 && t' == t.(gave := t.gave + 1) && pc' == Clearing
      else conc' == conc && t' == t && pc' == Finishing
    case Clearing => conc' == conc && t' == t.(result := Some(r.(hold := false))) && pc' == Finishing
    case Finishing => conc' == conc && t' == t.(result := Some(r.(done := true, owner := None))) && pc' == Closed
    case Closed => false
  }

  ghost predicate ThreadStep(c: Config, k: Tokens, drained: bool, t: Thread, k': Tokens, t': Thread) {
    AcquireStep(c, k, drained, t, k', t') || ForwardStep(c, k, t, k', t')
  }

  ghost predicate Moves(c: Config, s: State, s': State, i: nat) {
    && i < |s.threads| && |s'.threads| == |s.threads|
    && s'.threads == s.threads[i := s'.threads[i]] && s'.drained == s.drained && s'.closers == s.closers
    && ThreadStep(c, Tokens(s.conc, s.queue), s.drained, s.threads[i], Tokens(s'.conc, s'.queue), s'.threads[i])
  }

  ghost predicate Closes(s: State, s': State, j: nat) {
    && j < |s.closers| && |s'.closers| == |s.closers| && |s'.threads| == |s.threads|
    && var i := s.closers[j].of;
       && i < |s.threads| && s.threads[i].result.Some?
       && s'.closers == s.closers[j := Closer(i, s'.closers[j].pc)]
       && s'.threads == s.threads[i := s'.threads[i]]
       && s'.drained == s.drained && s'.queue == s.queue
       && CloserStep(s.conc, j, s.closers[j].pc, s.threads[i], s'.conc, s'.closers[j].pc, s'.threads[i])
  }

  ghost predicate Arrives(s: State, s': State) {
    exists stream: bool, canceled: bool :: s' == s.(threads := s.threads + [NewThread(s.drained, stream, canceled)])
  }

  function NewThread(late: bool, stream: bool, canceled: bool): Thread {
    Thread(late, stream, canceled, Arriving, 0, 0, None)
  }

  /** Close is called on a Result that Forward returned, by whoever has it, any number of times. */
  ghost predicate CallsClose(s: State, s': State, i: nat) {
    i < |s.threads| && s.threads[i].result.Some? && s' == s.(closers := s.closers + [Closer(i, Calling)])
  }

  ghost predicate Disconnects(s: State, s': State, i: nat) {
    i < |s.threads| && s' == s.(threads := s.threads[i := s.threads[i].(canceled := true)])
  }

  ghost predicate Drains(s: State, s': State) {
    s' == s.(drained := true)
  }

  ghost predicate Step(c: Config, s: State, s': State) {
    || Arrives(s, s')
    || Drains(s, s')
    || (exists i: nat :: Disconnects(s, s', i))
    || (exists i: nat :: Moves(c, s, s', i))
    || (exists i: nat :: CallsClose(s, s', i))
    || (exists j: nat :: Closes(s, s', j))
  }

  ghost predicate IsRun(c: Config, run: seq<State>) {
    && run != [] && Init(run[0])
    && forall k :: 0 <= k < |run| - 1 ==> Step(c, run[k], run[k + 1])
  }

  // ----- what every interleaving keeps -----

  /** The request is inside acquire's wait section. */
  predicate Waits(t: Thread) {
    t.pc.Parked? || t.pc.Expired? || t.pc.Leaving?
  }

  /** Between acquire's return of a hold and the release at one of Forward's exits. */
  predicate InForward(t: Thread) {
    t.pc.Building? || t.pc.Sending? || t.pc.Reading? || t.pc.CheckingBound? || t.pc.Exiting?
  }

  /** acquire has returned a hold that nobody released yet. */
  predicate Active(t: Thread) {
    InForward(t) || (t.pc.Handed? && t.gave == 0)
  }

  /** The request holds a concurrency token. */
  predicate Holds(t: Thread) {
    t.pc == Leaving(Admit) || Active(t)
  }

  ghost function ConcTokens(t: Thread): int { if Holds(t) then 1 else 0 }
  ghost function QueueTokens(t: Thread): int { if Waits(t) then 1 else 0 }
  ghost function ActiveOrWaiting(t: Thread): int { if Active(t) || Waits(t) then 1 else 0 }
  ghost function DoublyCounted(t: Thread): int { if t.pc == Leaving(Admit) then 1 else 0 }

  /** Nobody has run the Close function yet. */
  predicate Unclosed(t: Thread)
    requires t.result.Some?
  {
    !t.result.value.done && (t.result.value.hold <==> t.pc.Handed?) && t.gave == if t.pc.Handed? then 0 else 1
  }

  predicate ThreadOk(drained: bool, t: Thread) {
    // a token taken is held, or was given back exactly once
    && t.gave <= t.took <= 1
    && (Holds(t) <==> t.took == 1 && t.gave == 0)
    && (t.pc.Returned? ==> t.gave == 1)
    && (t.pc.Handed? ==> t.took == 1)
    && (!t.pc.Returned? && !t.pc.Handed? ==> t.gave == 0)
    // results and what is inside them
    && (t.result.Some? <==> t.pc.Handed? || (t.pc.Returned? && CarriesResult(t.pc.exit)))
    && (t.result.Some? && t.result.value.done ==> !t.result.value.hold && t.gave == 1)
    && (t.result.Some? && !t.result.value.done && t.result.value.owner.None? ==> Unclosed(t))
    // a call made after the drain never gets past its first check
    && (t.late ==> drained && (t.pc.Arriving? || t.pc == Refused(Draining)))
  }

  predicate InOnce(pc: CloserPc) {
    pc.Checking? || pc.Releasing? || pc.Clearing? || pc.Finishing?
  }

  /** What a caller inside the once finds and leaves. */
  predicate StageOk(pc: CloserPc, t: Thread)
    requires t.result.Some?
  {
    var r := t.result.value;
    match pc
    case Checking => r.done || Unclosed(t)
    case Releasing => Unclosed(t)
    case Clearing => !r.done && r.hold && t.pc.Handed? && t.gave == 1
    case Finishing => !r.done && !r.hold && t.gave == 1
    case Closed => r.done
    case _ => true
  }

  predicate CloserOk(s: State, j: nat)
    requires j < |s.closers|
  {
    var cl := s.closers[j];
    && cl.of < |s.threads| && s.threads[cl.of].result.Some?
    && StageOk(cl.pc, s.threads[cl.of])
    && (InOnce(cl.pc) ==> s.threads[cl.of].result.value.owner == Some(j))
  }

  predicate OwnerOk(s: State, i: nat)
    requires i < |s.threads|
  {
    var r := s.threads[i].result;
    r.Some? && r.value.owner.Some? ==>
      r.value.owner.value < |s.closers| && s.closers[r.value.owner.value].of == i && InOnce(s.closers[r.value.owner.value].pc)
  }

  ghost predicate Inv(c: Config, s: State) {
    && s.conc == Total(s.threads, ConcTokens) && s.conc <= c.concCap
    && s.queue == Total(s.threads, QueueTokens) && s.queue <= c.queueCap
    && (forall i: nat :: i < |s.threads| ==> ThreadOk(s.drained, s.threads[i]))
    && (forall i: nat :: i < |s.threads| ==> OwnerOk(s, i))
    && (forall j: nat :: j < |s.closers| ==> CloserOk(s, j))
  }

  /** A thread's step moves exactly the tokens it accounts for, and keeps the thread's own invariant. */
  lemma AcquireKeepsOk(c: Config, k: Tokens, drained: bool, t: Thread, k': Tokens, t': Thread)
    requires ThreadOk(drained, t) && AcquireStep(c, k, drained, t, k', t')
    ensures ThreadOk(drained, t') && t.result.None? && t'.result.None?
    ensures k'.conc - k.conc == ConcTokens(t') - ConcTokens(t) && (k.conc <= c.concCap ==> k'.conc <= c.concCap)
    ensures k'.queue - k.queue == QueueTokens(t') - QueueTokens(t) && (k.queue <= c.queueCap ==> k'.queue <= c.queueCap)
  {
  }

  lemma ForwardKeepsOk(c: Config, k: Tokens, drained: bool, t: Thread, k': Tokens, t': Thread)
    requires ThreadOk(drained, t) && ForwardStep(c, k, t, k', t')
    ensures ThreadOk(drained, t') && t.result.None? && (t'.result.Some? ==> t'.result.value.owner.None?)
    ensures k'.conc - k.conc == ConcTokens(t') - ConcTokens(t) && (k.conc <= c.concCap ==> k'.conc <= c.concCap)
    ensures k'.queue == k.queue && QueueTokens(t') == QueueTokens(t)
  {
  }

  lemma MoveKeepsInv(c: Config, s: State, s': State, i: nat)
    requires Inv(c, s) && Moves(c, s, s', i)
    ensures Inv(c, s')
  {
    var t, t' := s.threads[i], s'.threads[i];
    var k, k' := Tokens(s.conc, s.queue), Tokens(s'.conc, s'.queue);
    assert ThreadOk(s.drained, t);
    if AcquireStep(c, k, s.drained, t, k', t') {
      AcquireKeepsOk(c, k, s.drained, t, k', t');
    } else {
      ForwardKeepsOk(c, k, s.drained, t, k', t');
    }
    TotalUpdate(s.threads, i, t', ConcTokens);
    TotalUpdate(s.threads, i, t', QueueTokens);
    OthersKeepOk(s, s', i);
  }

  /** A thread without a result can move without disturbing any closer. */
  lemma OthersKeepOk(s: State, s': State, i: nat)
    requires i < |s.threads| && |s'.threads| == |s.threads| && s'.threads == s.threads[i := s'.threads[i]]
    requires s'.drained == s.drained && s'.closers == s.closers
    requires s.threads[i].result.None? && ThreadOk(s'.drained, s'.threads[i])
    requires s'.threads[i].result.Some? ==> s'.threads[i].result.value.owner.None?
    requires forall m: nat :: m < |s.threads| ==> ThreadOk(s.drained, s.threads[m])
    requires forall m: nat :: m < |s.threads| ==> OwnerOk(s, m)
    requires forall j: nat :: j < |s.closers| ==> CloserOk(s, j)
    ensures forall m: nat :: m < |s'.threads| ==> ThreadOk(s'.drained, s'.threads[m])
    ensures forall m: nat :: m < |s'.threads| ==> OwnerOk(s', m)
    ensures forall j: nat :: j < |s'.closers| ==> CloserOk(s', j)
  {
    forall m: nat | m < |s'.threads| ensures ThreadOk(s'.drained, s'.threads[m]) && OwnerOk(s', m) {
      assert OwnerOk(s, m) && ThreadOk(s.drained, s.threads[m]);
    }
    forall j: nat | j < |s'.closers| ensures CloserOk(s', j) {
      assert CloserOk(s, j);
    }
  }

  /** A step of Close gives back at most the one token, and only from the stage that may. */
  lemma CloserKeepsOk(drained: bool, conc: nat, j: nat, pc: CloserPc, t: Thread, conc': nat, pc': CloserPc, t': Thread)
    requires t.result.Some? && ThreadOk(drained, t) && StageOk(pc, t)
    requires InOnce(pc) ==> t.result.value.owner == Some(j)
    requires CloserStep(conc, j, pc, t, conc', pc', t')
    ensures ThreadOk(drained, t') && t'.result.Some? && StageOk(pc', t')
    ensures InOnce(pc') ==> t'.result.value.owner == Some(j)
    ensures !InOnce(pc') && InOnce(pc) ==> t'.result.value.owner == None
    ensures !InOnce(pc') && !InOnce(pc) ==> t' == t
    ensures !InOnce(pc) && InOnce(pc') ==> t.result.value.owner == None
    ensures t.result.value.done ==> t'.result.value.done
    ensures conc' - conc == ConcTokens(t') - ConcTokens(t) && conc' <= conc && QueueTokens(t') == QueueTokens(t)
  {
  }

  lemma CloseKeepsInv(c: Config, s: State, s': State, j: nat)
    requires Inv(c, s) && Closes(s, s', j)
    ensures Inv(c, s')
  {
    var i := s.closers[j].of;
    var t, t' := s.threads[i], s'.threads[i];
    assert ThreadOk(s.drained, t) && CloserOk(s, j) && OwnerOk(s, i);
    CloserKeepsOk(s.drained, s.conc, j, s.closers[j].pc, t, s'.conc, s'.closers[j].pc, t');
    TotalUpdate(s.threads, i, t', ConcTokens);
    TotalUpdate(s.threads, i, t', QueueTokens);
    forall m: nat | m < |s'.threads| ensures ThreadOk(s'.drained, s'.threads[m]) && OwnerOk(s', m) {
      assert ThreadOk(s.drained, s.threads[m]) && OwnerOk(s, m);
    }
    ClosersAfterClose(c, s, s', j);
  }

  lemma ClosersAfterClose(c: Config, s: State, s': State, j: nat)
    requires Inv(c, s) && Closes(s, s', j)
    ensures forall m: nat :: m < |s'.closers| ==> CloserOk(s', m)
  {
    var i := s.closers[j].of;
    assert ThreadOk(s.drained, s.threads[i]) && CloserOk(s, j);
    CloserKeepsOk(s.drained, s.conc, j, s.closers[j].pc, s.threads[i], s'.conc, s'.closers[j].pc, s'.threads[i]);
    forall m: nat | m < |s'.closers| ensures CloserOk(s', m) {
      assert CloserOk(s, m);
      if m != j && s.closers[m].of == i {
        OtherCloserKeepsOk(s.closers[j].pc, s.closers[m].pc, j, m, s.threads[i], s'.closers[j].pc, s'.threads[i], s.conc, s'.conc);
      }
    }
  }

  /** The once keeps a second caller on the same Result out. */
  lemma OtherCloserKeepsOk(pc: CloserPc, other: CloserPc, j: nat, m: nat, t: Thread, pc': CloserPc, t': Thread, conc: nat, conc': nat)
    requires t.result.Some? && StageOk(other, t) && j != m
    requires InOnce(pc) ==> t.result.value.owner == Some(j)
    requires InOnce(other) ==> t.result.value.owner == Some(m)
    requires CloserStep(conc, j, pc, t, conc', pc', t')
    ensures t'.result.Some? && StageOk(other, t')
    ensures InOnce(other) ==> t'.result.value.owner == Some(m)
  {
  }

  /** A new thread has no result yet and disturbs no other. */
  lemma ArrivalKeepsOk(s: State, t: Thread, s': State)
    requires s' == s.(threads := s.threads + [t]) && ThreadOk(s.drained, t) && t.result.None?
    requires forall m: nat :: m < |s.threads| ==> ThreadOk(s.drained, s.threads[m])
    requires forall m: nat :: m < |s.threads| ==> OwnerOk(s, m)
    requires forall j: nat :: j < |s.closers| ==> CloserOk(s, j)
    ensures forall m: nat :: m < |s'.threads| ==> ThreadOk(s'.drained, s'.threads[m])
    ensures forall m: nat :: m < |s'.threads| ==> OwnerOk(s', m)
    ensures forall j: nat :: j < |s'.closers| ==> CloserOk(s', j)
  {
    forall m: nat | m < |s'.threads| ensures ThreadOk(s'.drained, s'.threads[m]) && OwnerOk(s', m) {
      if m < |s.threads| {
        assert s'.threads[m] == s.threads[m] && ThreadOk(s.drained, s.threads[m]) && OwnerOk(s, m);
      } else {
        assert s'.threads[m] == t;
      }
    }
    forall j: nat | j < |s'.closers| ensures CloserOk(s', j) {
      assert CloserOk(s, j) && s'.threads[s.closers[j].of] == s.threads[s.closers[j].of];
    }
  }

  lemma ArrivalKeepsInv(c: Config, s: State, s': State)
    requires Inv(c, s) && Arrives(s, s')
    ensures Inv(c, s')
  {
    var stream: bool, canceled: bool :| s' == s.(threads := s.threads + [NewThread(s.drained, stream, canceled)]);
    var t := NewThread(s.drained, stream, canceled);
    TotalAppend(s.threads, t, ConcTokens);
    TotalAppend(s.threads, t, QueueTokens);
    ArrivalKeepsOk(s, t, s');
  }

  lemma DisconnectKeepsInv(c: Config, s: State, s': State, i: nat)
    requires Inv(c, s) && Disconnects(s, s', i)
    ensures Inv(c, s')
  {
    var t := s.threads[i].(canceled := true);
    assert ThreadOk(s.drained, s.threads[i]);
    TotalUpdate(s.threads, i, t, ConcTokens);
    TotalUpdate(s.threads, i, t, QueueTokens);
    forall m: nat | m < |s'.threads| ensures ThreadOk(s'.drained, s'.threads[m]) && OwnerOk(s', m) {
      assert ThreadOk(s.drained, s.threads[m]) && OwnerOk(s, m);
    }
    forall j: nat | j < |s'.closers| ensures CloserOk(s', j) {
      assert CloserOk(s, j);
    }
  }

  lemma CallKeepsInv(c: Config, s: State, s': State, i: nat)
    requires Inv(c, s) && (CallsClose(s, s', i) || Drains(s, s'))
    ensures Inv(c, s')
  {
    forall m: nat | m < |s'.threads| ensures ThreadOk(s'.drained, s'.threads[m]) && OwnerOk(s', m) {
      assert ThreadOk(s.drained, s.threads[m]) && OwnerOk(s, m);
    }
    forall j: nat | j < |s'.closers| ensures CloserOk(s', j) {
      if j < |s.closers| {
        assert CloserOk(s, j);
      }
    }
  }

  lemma StepKeepsInv(c: Config, s: State, s': State)
    requires Inv(c, s) && Step(c, s, s')
    ensures Inv(c, s')
  {
    if Arrives(s, s') {
      ArrivalKeepsInv(c, s, s');
    } else if Drains(s, s') {
      CallKeepsInv(c, s, s', 0);
    } else if i: nat :| Disconnects(s, s', i) {
      DisconnectKeepsInv(c, s, s', i);
    } else if i: nat :| Moves(c, s, s', i) {
      MoveKeepsInv(c, s, s', i);
    } else if i: nat :| CallsClose(s, s', i) {
      CallKeepsInv(c, s, s', i);
    } else {
      var j: nat :| Closes(s, s', j);
      CloseKeepsInv(c, s, s', j);
    }
  }

  /**
   In every interleaving: concurrency tokens are exactly the live holds, queue tokens exactly the
   callers in the wait section, and neither channel is over its capacity.
   */
  lemma {:induction false} TokensConserved(c: Config, run: seq<State>)
    requires IsRun(c, run)
    ensures Inv(c, run[|run| - 1])
    ensures var s := run[|run| - 1];
            && s.conc == Total(s.threads, ConcTokens) <= c.concCap
            && s.queue == Total(s.threads, QueueTokens) <= c.queueCap
  {
    if |run| > 1 {
      var before := run[..|run| - 1];
      TokensConserved(c, before);
      StepKeepsInv(c, before[|before| - 1], run[|run| - 1]);
    }
  }

  /**
   A hold is released at most once, in every interleaving of Forward's exits and of any number of
   racing Close calls. A refused request took nothing. Every exit of Forward that does not hand the
   hold on has released it by the time it returns; one that does has not, until someone closes the
   Result; and as soon as any Close of it has returned, it is released exactly once.
   */
  lemma ReleasedExactlyOnce(c: Config, run: seq<State>, i: nat)
    requires IsRun(c, run) && i < |run[|run| - 1].threads|
    ensures var s := run[|run| - 1];
            var t := s.threads[i];
            && t.gave <= t.took <= 1
            && (t.pc.Refused? ==> t.took == 0)
            && (t.pc.Returned? ==> t.took == 1 && t.gave == 1)
            && (t.pc.Handed? ==> t.took == 1)
            && (t.pc.Handed? && t.gave == 1 ==> SomeoneCloses(s, i))
            && (forall j: nat :: j < |s.closers| && s.closers[j].of == i && s.closers[j].pc.Closed? ==> t.took == 1 && t.gave == 1)
  {
    var s := run[|run| - 1];
    TokensConserved(c, run);
    assert ThreadOk(s.drained, s.threads[i]) && OwnerOk(s, i);
    forall j: nat | j < |s.closers| && s.closers[j].of == i && s.closers[j].pc.Closed?
      ensures s.threads[i].took == 1 && s.threads[i].gave == 1
    {
      assert CloserOk(s, j);
    }
    if s.threads[i].pc.Handed? && s.threads[i].gave == 1 {
      ReleasedByCloser(c, run, i);
    }
  }

  ghost predicate SomeoneCloses(s: State, i: nat) {
    exists j: nat :: j < |s.closers| && s.closers[j].of == i
  }

  /** A handed-on hold is released only by a Close. */
  lemma {:induction false} ReleasedByCloser(c: Config, run: seq<State>, i: nat)
    requires IsRun(c, run) && i < |run[|run| - 1].threads|
    requires run[|run| - 1].threads[i].pc.Handed? && run[|run| - 1].threads[i].gave == 1
    ensures SomeoneCloses(run[|run| - 1], i)
  {
    var s' := run[|run| - 1];
    if |run| > 1 {
      var before := run[..|run| - 1];
      var s := before[|before| - 1];
      TokensConserved(c, before);
      assert Step(c, s, s');
      if j: nat :| Closes(s, s', j) && s.closers[j].of == i {
        assert s'.closers[j].of == i;
      } else {
        StillReleased(c, s, s', i);
        ReleasedByCloser(c, before, i);
        var j: nat :| j < |s.closers| && s.closers[j].of == i;
        assert s'.closers[j].of == i;
      }
    }
  }

  lemma StillReleased(c: Config, s: State, s': State, i: nat)
    requires Inv(c, s) && Step(c, s, s') && i < |s'.threads| && s'.threads[i].pc.Handed? && s'.threads[i].gave == 1
    requires forall j: nat :: Closes(s, s', j) ==> s.closers[j].of != i
    ensures i < |s.threads| && s.threads[i].pc.Handed? && s.threads[i].gave == 1
    ensures |s.closers| <= |s'.closers| && forall j: nat :: j < |s.closers| ==> s'.closers[j].of == s.closers[j].of
  {
    if m: nat :| Moves(c, s, s', m) {
      MoveStillReleased(c, s, s', m, i);
    } else if j: nat :| Closes(s, s', j) {
      assert s.closers[j].of != i;
    } else if m: nat :| Disconnects(s, s', m) {
    } else if m: nat :| CallsClose(s, s', m) {
    }
  }

  lemma MoveStillReleased(c: Config, s: State, s': State, m: nat, i: nat)
    requires Inv(c, s) && Moves(c, s, s', m) && i < |s'.threads| && s'.threads[i].pc.Handed? && s'.threads[i].gave == 1
    ensures s.threads[i].pc.Handed? && s.threads[i].gave == 1
  {
    assert ThreadOk(s.drained, s.threads[m]);
  }

  /** An acquire that starts after Drain is never admitted, and never even queues. */
  lemma NoAdmissionAfterDrain(c: Config, run: seq<State>, i: nat)
    requires IsRun(c, run) && i < |run[|run| - 1].threads| && run[|run| - 1].threads[i].late
    ensures var t := run[|run| - 1].threads[i];
            t.took == 0 && !Holds(t) && !Waits(t) && (t.pc.Arriving? || t.pc == Refused(Draining))
  {
    TokensConserved(c, run);
    assert ThreadOk(run[|run| - 1].drained, run[|run| - 1].threads[i]);
  }

  /**
   Inflight reports channel lengths. That is every active or waiting request once, plus one
   more for each request just admitted from the queue whose deferred release has not run.
   */
  lemma InflightCounts(c: Config, run: seq<State>)
    requires IsRun(c, run)
    ensures var s := run[|run| - 1];
            && s.queue + s.conc == Total(s.threads, ActiveOrWaiting) + Total(s.threads, DoublyCounted)
            && s.queue + s.conc <= c.concCap + c.queueCap
  {
    TokensConserved(c, run);
    SplitInflight(run[|run| - 1].threads);
  }

  lemma {:induction false} SplitInflight(threads: seq<Thread>)
    ensures Total(threads, QueueTokens) + Total(threads, ConcTokens)
         == Total(threads, ActiveOrWaiting) + Total(threads, DoublyCounted)
  {
    if threads != [] {
      SplitInflight(threads[..|threads| - 1]);
    }
  }

  // ----- nobody is stuck -----

  /** Own steps left until acquire has returned, at most. */
  function StepsToReturn(pc: Pc): nat {
    match pc
    case Arriving => 6
    case Trying => 5
    case Queueing => 4
    case Refusing => 1
    case Parked => 3
    case Expired => 2
    case Leaving(_) => 1
    case _ => 0
  }

  ghost predicate CanMove(c: Config, s: State, i: nat) {
    exists s' :: Moves(c, s, s', i)
  }

  /** The state after thread i moves to t' and the channels to k'. */
  function After(s: State, i: nat, k': Tokens, t': Thread): State
    requires i < |s.threads|
  {
    s.(conc := k'.conc, queue := k'.queue, threads := s.threads[i := t'])
  }

  /** A receive that gives a token back never blocks: the token is always there. */
  lemma ReleaseNeverBlocks(c: Config, run: seq<State>, i: nat)
    requires IsRun(c, run)
    requires i < |run[|run| - 1].threads|
    ensures var s := run[|run| - 1]; Holds(s.threads[i]) ==> s.conc > 0
    ensures var s := run[|run| - 1]; Waits(s.threads[i]) ==> s.queue > 0
  {
    var s := run[|run| - 1];
    TokensConserved(c, run);
    TotalBounds(s.threads, ConcTokens, 1);
    TotalBounds(s.threads, QueueTokens, 1);
    assert s.threads[i] in s.threads;
    assert ConcTokens(s.threads[i]) <= s.conc;
    assert QueueTokens(s.threads[i]) <= s.queue;
  }

  /**
   A parked request always has an exit: once the drain is closed it can leave with ErrDraining
   without any other party moving, and each of its own steps brings its return nearer.
   */
  lemma DrainReleasesWaiters(c: Config, run: seq<State>, i: nat)
    requires IsRun(c, run)
    requires i < |run[|run| - 1].threads|
    requires run[|run| - 1].drained && StepsToReturn(run[|run| - 1].threads[i].pc) > 0
    ensures CanMove(c, run[|run| - 1], i)
    ensures forall s' | Moves(c, run[|run| - 1], s', i) ::
              StepsToReturn(s'.threads[i].pc) < StepsToReturn(run[|run| - 1].threads[i].pc)
  {
    var s := run[|run| - 1];
    ReleaseNeverBlocks(c, run, i);
    var k', t' := NextMove(c, Tokens(s.conc, s.queue), s.threads[i]);
    assert Moves(c, s, After(s, i, k', t'), i);
    forall s' | Moves(c, s, s', i) ensures StepsToReturn(s'.threads[i].pc) < StepsToReturn(s.threads[i].pc) {
      StepApproaches(c, Tokens(s.conc, s.queue), s.drained, s.threads[i], Tokens(s'.conc, s'.queue), s'.threads[i]);
    }
  }

  lemma StepApproaches(c: Config, k: Tokens, drained: bool, t: Thread, k': Tokens, t': Thread)
    requires ThreadStep(c, k, drained, t, k', t') && StepsToReturn(t.pc) > 0
    ensures StepsToReturn(t'.pc) < StepsToReturn(t.pc)
  {
  }

  /** Once drained, a thread inside acquire has a step of its own. */
  lemma NextMove(c: Config, k: Tokens, t: Thread) returns (k': Tokens, t': Thread)
    requires StepsToReturn(t.pc) > 0 && (Waits(t) ==> k.queue > 0)
    ensures ThreadStep(c, k, true, t, k', t')
  {
    k', t' := k, t;
    match t.pc {
      case Arriving => t' := t.(pc := Refused(Draining));
      case Trying =>
        if t.canceled { t' := t.(pc := Refused(Canceled)); }
        else if k.conc < c.concCap { k', t' := k.(conc := k.conc + 1), t.(pc := Building, took := t.took + 1); }
        else { t' := t.(pc := Queueing); }
      case Queueing =>
        if t.canceled { t' := t.(pc := Refused(Canceled)); }
        else if k.queue < c.queueCap { k', t' := k.(queue := k.queue + 1), t.(pc := Parked); }
        else { t' := t.(pc := Refusing); }
      case Refusing => t' := t.(pc := Refused(if t.canceled then Canceled else QueueFull));
      case Parked => t' := t.(pc := Leaving(Refuse(Draining)));
      case Expired => t' := t.(pc := Leaving(Refuse(if t.canceled then Canceled else QueueTimeout)));
      case Leaving(v) => k', t' := k.(queue := k.queue - 1), t.(pc := if v.Admit? then Building else Refused(v.refusal));
    }
  }

  ghost predicate CanClose(s: State, j: nat) {
    exists s' :: Closes(s, s', j)
  }

  /** Close cannot deadlock: while a call on a Result has not returned, one on the same Result can move. */
  lemma SomeCloserMoves(c: Config, run: seq<State>, j: nat) returns (mover: nat)
    requires IsRun(c, run) && j < |run[|run| - 1].closers| && !run[|run| - 1].closers[j].pc.Closed?
    ensures mover < |run[|run| - 1].closers| && run[|run| - 1].closers[mover].of == run[|run| - 1].closers[j].of
    ensures CanClose(run[|run| - 1], mover)
  {
    var s := run[|run| - 1];
    var i := s.closers[j].of;
    TokensConserved(c, run);
    assert CloserOk(s, j) && OwnerOk(s, i) && ThreadOk(s.drained, s.threads[i]);
    ReleaseNeverBlocks(c, run, i);
    var owner := s.threads[i].result.value.owner;
    mover := if s.closers[j].pc.Locking? && owner.Some? then owner.value else j;
    assert CloserOk(s, mover);
    var conc', pc', t' := NextClose(s.conc, mover, s.closers[mover].pc, s.threads[i]);
    var s' := s.(conc := conc', threads := s.threads[i := t'], closers := s.closers[mover := Closer(i, pc')]);
    assert Closes(s, s', mover);
  }

  lemma NextClose(conc: nat, j: nat, pc: CloserPc, t: Thread) returns (conc': nat, pc': CloserPc, t': Thread)
    requires t.result.Some? && !pc.Closed? && (pc.Locking? ==> t.result.value.owner.None?)
    requires pc.Releasing? && t.result.value.hold ==> conc > 0
    ensures CloserStep(conc, j, pc, t, conc', pc', t')
  {
    var r := t.result.value;
    conc', t', pc' := conc, t, pc;
    match pc {
      case Calling => pc' := if r.done then Closed else Locking;
      case Locking => t', pc' := t.(result := Some(r.(owner := Some(j)))), Checking;
      case Checking => t', pc' := if r.done then t.(result := Some(r.(owner := None))) else t, if r.done then Closed else Releasing;
      case Releasing =>
        if r.hold { conc', t', pc' := conc - 1, t.(gave := t.gave + 1), Clearing; }
        else { pc' := Finishing; }
      case Clearing => t', pc' := t.(result := Some(r.(hold := false))), Finishing;
      case Finishing => t', pc' := t.(result := Some(r.(done := true, owner := None))), Closed;
    }
  }

  // ----- what acquire answers, and why -----

  /** acquire's answer, once it has returned. */
  datatype Answer = Admitted | RefusedFor(why: Refusal)

  /** Thread i, moving alone from s, can get this answer from acquire. */
  ghost predicate MayGet(c: Config, s: State, i: nat, a: Answer)
    requires i < |s.threads|
    decreases StepsToReturn(s.threads[i].pc)
  {
    if StepsToReturn(s.threads[i].pc) == 0 then
      (s.threads[i].pc.Refused? && a == RefusedFor(s.threads[i].pc.refusal)) || (s.threads[i].pc.Building? && a == Admitted)
    else exists s' :: Moves(c, s, s', i) && StepsToReturn(s'.threads[i].pc) < StepsToReturn(s.threads[i].pc) && MayGet(c, s', i, a)
  }

  /**
   The answers acquire can give a thread that finds the channels and signals as they are: a free slot
   admits it without a look at the queue; a full queue, a drain or a departed client refuse it; and
   with room in the queue it waits until one of these, or the timer, lets it go.
   */
  predicate AnswersWith(c: Config, k: Tokens, drained: bool, t: Thread, a: Answer) {
    var free, room := k.conc < c.concCap, k.queue < c.queueCap;
    var fromWait := match a
      case Admitted => free
      case RefusedFor(Canceled) => t.canceled
      case RefusedFor(Draining) => drained
      case RefusedFor(QueueFull) => false
      case RefusedFor(QueueTimeout) => !t.canceled;
    var fromQueue := if a == RefusedFor(QueueFull) then !room && !t.canceled else (t.canceled && a == RefusedFor(Canceled)) || (room && fromWait);
    var fromTry := if free then a == Admitted || (t.canceled && a == RefusedFor(Canceled))
                   else if t.canceled then a == RefusedFor(Canceled) else fromQueue;
    match t.pc
    case Arriving => if drained then a == RefusedFor(Draining) else fromTry
    case Trying => fromTry
    case Queueing => fromQueue
    case Refusing => a == RefusedFor(if t.canceled then Canceled else QueueFull)
    case Parked => fromWait
    case Expired => a == RefusedFor(if t.canceled then Canceled else QueueTimeout)
    case Leaving(v) => a == if v.Admit? then Admitted else RefusedFor(v.refusal)
    case Building => a == Admitted
    case Refused(r) => a == RefusedFor(r)
    case _ => false
  }

  /** The first half: what a step leads to was possible before it. */
  lemma StepKeepsAnswer(c: Config, k: Tokens, drained: bool, t: Thread, k': Tokens, t': Thread, a: Answer)
    requires AcquireStep(c, k, drained, t, k', t') && AnswersWith(c, k', drained, t', a)
    ensures AnswersWith(c, k, drained, t, a)
  {
  }

  /** The second half: every possible answer has a step that leads to it. */
  lemma AnswerHasStep(c: Config, k: Tokens, drained: bool, t: Thread, a: Answer) returns (k': Tokens, t': Thread)
    requires AnswersWith(c, k, drained, t, a) && StepsToReturn(t.pc) > 0 && (Waits(t) ==> k.queue > 0)
    ensures AcquireStep(c, k, drained, t, k', t') && AnswersWith(c, k', drained, t', a)
    ensures StepsToReturn(t'.pc) < StepsToReturn(t.pc) && (Waits(t') ==> k'.queue > 0)
  {
    var free, room := k.conc < c.concCap, k.queue < c.queueCap;
    k', t' := k, t;
    match t.pc {
      case Arriving => t' := t.(pc := if drained then Refused(Draining) else Trying);
      case Trying =>
        if a.Admitted? && free { k', t' := k.(conc := k.conc + 1), t.(pc := Building, took := t.took + 1); }
        else if t.canceled { t' := t.(pc := Refused(Canceled)); }
        else { t' := t.(pc := Queueing); }
      case Queueing =>
        if room && !(t.canceled && a == RefusedFor(Canceled)) { k', t' := k.(queue := k.queue + 1), t.(pc := Parked); }
        else if t.canceled { t' := t.(pc := Refused(Canceled)); }
        else { t' := t.(pc := Refusing); }
      case Refusing => t' := t.(pc := Refused(if t.canceled then Canceled else QueueFull));
      case Parked =>
        if a.Admitted? { k', t' := k.(conc := k.conc + 1), t.(pc := Leaving(Admit), took := t.took + 1); }
        else if a.why.QueueTimeout? { t' := t.(pc := Expired); }
        else { t' := t.(pc := Leaving(Refuse(a.why))); }
      case Expired => t' := t.(pc := Leaving(Refuse(if t.canceled then Canceled else QueueTimeout)));
      case Leaving(v) => k', t' := k.(queue := k.queue - 1), t.(pc := if v.Admit? then Building else Refused(v.refusal));
    }
  }

  lemma MayGetIff(c: Config, s: State, i: nat, a: Answer)
    requires i < |s.threads| && (Waits(s.threads[i]) ==> s.queue > 0)
    ensures MayGet(c, s, i, a) <==> AnswersWith(c, Tokens(s.conc, s.queue), s.drained, s.threads[i], a)
    decreases StepsToReturn(s.threads[i].pc)
  {
    var k, t := Tokens(s.conc, s.queue), s.threads[i];
    if StepsToReturn(t.pc) > 0 {
      if MayGet(c, s, i, a) {
        var s' :| Moves(c, s, s', i) && StepsToReturn(s'.threads[i].pc) < StepsToReturn(t.pc) && MayGet(c, s', i, a);
        TokenAfterStep(c, k, s.drained, t, Tokens(s'.conc, s'.queue), s'.threads[i]);
        MayGetIff(c, s', i, a);
        StepKeepsAnswer(c, k, s.drained, t, Tokens(s'.conc, s'.queue), s'.threads[i], a);
      }
      if AnswersWith(c, k, s.drained, t, a) {
        var k', t' := AnswerHasStep(c, k, s.drained, t, a);
        var s' := After(s, i, k', t');
        MayGetIff(c, s', i, a);
        assert Moves(c, s, s', i);
      }
    }
  }

  lemma TokenAfterStep(c: Config, k: Tokens, drained: bool, t: Thread, k': Tokens, t': Thread)
    requires ThreadStep(c, k, drained, t, k', t') && StepsToReturn(t.pc) > 0 && (Waits(t) ==> k.queue > 0)
    ensures AcquireStep(c, k, drained, t, k', t') && (Waits(t') ==> k'.queue > 0)
  {
  }

  /** What acquire answers a thread that moves alone, in every state of every run. */
  lemma AnswerIff(c: Config, run: seq<State>, i: nat, a: Answer)
    requires IsRun(c, run) && i < |run[|run| - 1].threads|
    ensures var s := run[|run| - 1]; MayGet(c, s, i, a) <==> AnswersWith(c, Tokens(s.conc, s.queue), s.drained, s.threads[i], a)
  {
    ReleaseNeverBlocks(c, run, i);
    MayGetIff(c, run[|run| - 1], i, a);
  }

  // ----- every answer in a run had its cause -----

  ghost predicate Once(run: seq<State>, p: State -> bool) {
    exists k: nat :: k < |run| && p(run[k])
  }

  /** Thread i is at the fast path and every slot is taken. */
  ghost function Saturated(c: Config, i: nat): State -> bool {
    (s: State) => i < |s.threads| && s.threads[i].pc.Trying? && s.conc >= c.concCap
  }

  /** Thread i, not canceled, is at the queue and it is full. */
  ghost function FindsFull(c: Config, i: nat): State -> bool {
    (s: State) => i < |s.threads| && s.threads[i].pc.Queueing? && s.queue >= c.queueCap && !s.threads[i].canceled
  }

  ghost function WaitsIn(i: nat): State -> bool {
    (s: State) => i < |s.threads| && s.threads[i].pc.Parked?
  }

  /** Thread i is at the fast path or waiting, and a slot is free. */
  ghost function FindsFree(c: Config, i: nat): State -> bool {
    (s: State) => i < |s.threads| && (s.threads[i].pc.Trying? || s.threads[i].pc.Parked?) && s.conc < c.concCap
  }

  /** Why a refusal, given or about to be given, is the right one. */
  ghost predicate Deserved(c: Config, run: seq<State>, i: nat, why: Refusal, drained: bool, canceled: bool) {
    match why
    case Canceled => canceled
    case Draining => drained
    case QueueFull => Once(run, Saturated(c, i)) && Once(run, FindsFull(c, i))
    case QueueTimeout => Once(run, Saturated(c, i)) && Once(run, WaitsIn(i))
  }

  /** What must have happened for thread i to be where it is. */
  ghost predicate HasCause(c: Config, run: seq<State>, i: nat, drained: bool, t: Thread) {
    match t.pc
    case Arriving => true
    case Trying => true
    case Queueing => Once(run, Saturated(c, i))
    case Refusing => Deserved(c, run, i, QueueFull, drained, t.canceled)
    case Parked => Once(run, Saturated(c, i))
    case Expired => Deserved(c, run, i, QueueTimeout, drained, t.canceled)
    case Leaving(v) => if v.Admit? then Once(run, FindsFree(c, i)) else Deserved(c, run, i, v.refusal, drained, t.canceled)
    case Refused(why) => Deserved(c, run, i, why, drained, t.canceled)
    case _ => Once(run, FindsFree(c, i))
  }

  lemma OnceMore(before: seq<State>, run: seq<State>, p: State -> bool)
    requires before <= run && Once(before, p)
    ensures Once(run, p)
  {
    var k: nat :| k < |before| && p(before[k]);
    assert run[k] == before[k];
  }

  lemma CauseStays(c: Config, before: seq<State>, run: seq<State>, i: nat, drained: bool, t: Thread, drained': bool, t': Thread)
    requires before <= run && HasCause(c, before, i, drained, t)
    requires t'.pc == t.pc && (drained ==> drained') && (t.canceled ==> t'.canceled)
    ensures HasCause(c, run, i, drained', t')
  {
    CauseLasts(c, before, run, i);
  }

  lemma CauseLasts(c: Config, before: seq<State>, run: seq<State>, i: nat)
    requires before <= run
    ensures Once(before, Saturated(c, i)) ==> Once(run, Saturated(c, i))
    ensures Once(before, FindsFull(c, i)) ==> Once(run, FindsFull(c, i))
    ensures Once(before, WaitsIn(i)) ==> Once(run, WaitsIn(i))
    ensures Once(before, FindsFree(c, i)) ==> Once(run, FindsFree(c, i))
  {
    if Once(before, Saturated(c, i)) { OnceMore(before, run, Saturated(c, i)); }
    if Once(before, FindsFull(c, i)) { OnceMore(before, run, FindsFull(c, i)); }
    if Once(before, WaitsIn(i)) { OnceMore(before, run, WaitsIn(i)); }
    if Once(before, FindsFree(c, i)) { OnceMore(before, run, FindsFree(c, i)); }
  }

  /** A step of its own gives thread i a cause for where it goes. */
  lemma MoveHasCause(c: Config, run: seq<State>, i: nat, s: State, s': State)
    requires run != [] && run[|run| - 1] == s && Moves(c, s, s', i) && HasCause(c, run, i, s.drained, s.threads[i])
    ensures HasCause(c, run, i, s'.drained, s'.threads[i])
  {
    SeenNow(c, run, i, s);
    var k, k' := Tokens(s.conc, s.queue), Tokens(s'.conc, s'.queue);
    if AcquireStep(c, k, s.drained, s.threads[i], k', s'.threads[i]) {
      AcquireHasCause(c, run, i, s, k', s'.threads[i]);
    } else {
      ForwardHasCause(c, run, i, s, k', s'.threads[i]);
    }
  }

  lemma SeenNow(c: Config, run: seq<State>, i: nat, s: State)
    requires run != [] && run[|run| - 1] == s
    ensures Saturated(c, i)(s) ==> Once(run, Saturated(c, i))
    ensures FindsFull(c, i)(s) ==> Once(run, FindsFull(c, i))
    ensures WaitsIn(i)(s) ==> Once(run, WaitsIn(i))
    ensures FindsFree(c, i)(s) ==> Once(run, FindsFree(c, i))
  {
  }

  lemma AcquireHasCause(c: Config, run: seq<State>, i: nat, s: State, k': Tokens, t': Thread)
    requires i < |s.threads| && AcquireStep(c, Tokens(s.conc, s.queue), s.drained, s.threads[i], k', t')
    requires HasCause(c, run, i, s.drained, s.threads[i])
    requires Saturated(c, i)(s) ==> Once(run, Saturated(c, i))
    requires FindsFull(c, i)(s) ==> Once(run, FindsFull(c, i))
    requires WaitsIn(i)(s) ==> Once(run, WaitsIn(i))
    requires FindsFree(c, i)(s) ==> Once(run, FindsFree(c, i))
    ensures HasCause(c, run, i, s.drained, t')
  {
  }

  lemma ForwardHasCause(c: Config, run: seq<State>, i: nat, s: State, k': Tokens, t': Thread)
    requires i < |s.threads| && ForwardStep(c, Tokens(s.conc, s.queue), s.threads[i], k', t')
    requires HasCause(c, run, i, s.drained, s.threads[i])
    ensures HasCause(c, run, i, s.drained, t')
  {
  }

  /** Any other step leaves thread i where it is. */
  lemma OtherStepsKeepPlace(c: Config, s: State, s': State, i: nat)
    requires Step(c, s, s') && i < |s.threads| && !Moves(c, s, s', i)
    ensures i < |s'.threads| && s'.threads[i].pc == s.threads[i].pc
    ensures (s.drained ==> s'.drained) && (s.threads[i].canceled ==> s'.threads[i].canceled) && s'.threads[i].stream == s.threads[i].stream
  {
    if m: nat :| Moves(c, s, s', m) {
      assert m != i;
    } else if j: nat :| Closes(s, s', j) {
      assert s'.threads[s.closers[j].of].pc == s.threads[s.closers[j].of].pc;
    } else if m: nat :| Disconnects(s, s', m) {
    } else if m: nat :| CallsClose(s, s', m) {
    }
  }

  /**
   In every interleaving: who is refused as canceled is; as draining, the drain was closed; as
   finding the queue full, it found every slot taken and then the queue full; as timing out, it found
   every slot taken and waited in the queue; and who is admitted found a free slot.
   */
  lemma {:induction false} EveryAnswerHasItsCause(c: Config, run: seq<State>, i: nat)
    requires IsRun(c, run) && i < |run[|run| - 1].threads|
    ensures var s := run[|run| - 1]; HasCause(c, run, i, s.drained, s.threads[i])
  {
    if |run| > 1 {
      var before := run[..|run| - 1];
      var s, s' := before[|before| - 1], run[|run| - 1];
      assert Step(c, s, s');
      if i < |s.threads| {
        EveryAnswerHasItsCause(c, before, i);
        if Moves(c, s, s', i) {
          MoveHasCause(c, before, i, s, s');
          CauseStays(c, before, run, i, s'.drained, s'.threads[i], s'.drained, s'.threads[i]);
        } else {
          OtherStepsKeepPlace(c, s, s', i);
          CauseStays(c, before, run, i, s.drained, s.threads[i], s'.drained, s'.threads[i]);
        }
      } else {
        NewcomersArrive(c, s, s', i);
      }
    }
  }

  lemma NewcomersArrive(c: Config, s: State, s': State, i: nat)
    requires Step(c, s, s') && |s.threads| <= i < |s'.threads|
    ensures s'.threads[i].pc.Arriving?
  {
    if m: nat :| Moves(c, s, s', m) {
    } else if j: nat :| Closes(s, s', j) {
    } else if m: nat :| Disconnects(s, s', m) {
    } else if m: nat :| CallsClose(s, s', m) {
    }
  }

  // ----- how Forward ends -----

  /** Own steps left until Forward has returned, at most. */
  function StepsToEnd(pc: Pc): nat {
    match pc
    case Building => 5
    case Sending => 4
    case Reading(_, _) => 3
    case CheckingBound => 2
    case Exiting(_) => 1
    case _ => 0
  }

  /** Thread i, moving alone from s, can end Forward at this point. */
  ghost predicate MayEnd(c: Config, s: State, i: nat, end: Pc)
    requires i < |s.threads|
    decreases StepsToEnd(s.threads[i].pc)
  {
    if StepsToEnd(s.threads[i].pc) == 0 then end == s.threads[i].pc
    else exists s' :: Moves(c, s, s', i) && StepsToEnd(s'.threads[i].pc) < StepsToEnd(s.threads[i].pc) && MayEnd(c, s', i, end)
  }

  /** The ends of a response with this status that is read into memory. */
  predicate ReadEnds(c: Config, stream: bool, status: int, end: Pc) {
    && end.Returned?
    && match end.exit
       case ReadFailed => true
       case TimedOut => c.bounded && stream
       case TooLarge => true
       case UpstreamStatus(st) => st == status && st >= 300
       case Buffered(st) => st == status && st < 300
       case _ => false
  }

  /** The ends of an exchange with the backend, whatever status it answers with. */
  predicate SendEnds(c: Config, stream: bool, end: Pc) {
    match end
    case Handed(st) => stream && st == 200
    case Returned(SendFailed) => true
    case Returned(UpstreamStatus(st)) => st >= 300
    case Returned(Buffered(st)) => st < 300
    case _ => ReadEnds(c, stream, 0, end)
  }

  /**
   The ends Forward can have from here: a stream is handed on only to a caller that asked for one,
   and only as an event stream with status 200; everything else is read into memory, where a status
   from 300 on is an error and only a bounded stream request can time out.
   */
  predicate EndsWith(c: Config, t: Thread, end: Pc) {
    match t.pc
    case Building => end == Returned(BuildFailed) || SendEnds(c, t.stream, end)
    case Sending => SendEnds(c, t.stream, end)
    case Reading(status, _) => ReadEnds(c, t.stream, status, end)
    case CheckingBound => end == Returned(ReadFailed) || end == Returned(TimedOut)
    case Exiting(exit) => end == Returned(exit)
    case _ => end == t.pc
  }

  /** Only a bounded stream request gets as far as looking at its timer. */
  predicate BoundChecked(c: Config, t: Thread) {
    t.pc.CheckingBound? ==> c.bounded && t.stream
  }

  lemma SendKeepsEnd(c: Config, k: Tokens, t: Thread, k': Tokens, t': Thread, end: Pc)
    requires t.pc.Sending? && ForwardStep(c, k, t, k', t') && EndsWith(c, t', end)
    ensures SendEnds(c, t.stream, end)
  {
    if t' != t.(pc := Exiting(SendFailed)) {
      var status: int, eventStream: bool :|
        t' == if IsLive(t.stream, status, eventStream) then t.(pc := Handed(status), result := Some(Result(false, None, true)))
              else t.(pc := Reading(status, eventStream));
    }
  }

  lemma ReadKeepsEnd(c: Config, k: Tokens, t: Thread, k': Tokens, t': Thread, end: Pc)
    requires t.pc.Reading? && ForwardStep(c, k, t, k', t') && EndsWith(c, t', end)
    ensures ReadEnds(c, t.stream, t.pc.status, end)
  {
  }

  /** The first half: what a step leads to was possible before it. */
  lemma StepKeepsEnd(c: Config, k: Tokens, t: Thread, k': Tokens, t': Thread, end: Pc)
    requires ForwardStep(c, k, t, k', t') && EndsWith(c, t', end)
    requires BoundChecked(c, t)
    ensures EndsWith(c, t, end)
  {
    match t.pc
    case Sending => SendKeepsEnd(c, k, t, k', t', end);
    case Reading(_, _) => ReadKeepsEnd(c, k, t, k', t', end);
    case _ =>
  }

  /** Where a thread that is to end this way goes from the exchange, or from the read. */
  function SentTo(t: Thread, end: Pc): Thread {
    match end
    case Handed(st) => t.(pc := end, result := Some(Result(false, None, true)))
    case Returned(SendFailed) => t.(pc := Exiting(SendFailed))
    case Returned(UpstreamStatus(st)) => t.(pc := Reading(st, false))
    case Returned(Buffered(st)) => t.(pc := Reading(st, false))
    case _ => t.(pc := Reading(0, false))
  }

  lemma SendHasStep(c: Config, k: Tokens, t: Thread, end: Pc)
    requires t.pc.Sending? && SendEnds(c, t.stream, end)
    ensures ForwardStep(c, k, t, k, SentTo(t, end)) && EndsWith(c, SentTo(t, end), end)
  {
    assert !IsLive(t.stream, 0, false);
    match end
    case Handed(st) => assert IsLive(t.stream, st, true);
    case Returned(UpstreamStatus(st)) => assert !IsLive(t.stream, st, false);
    case Returned(Buffered(st)) => assert !IsLive(t.stream, st, false);
    case _ =>
  }

  function ReadTo(c: Config, t: Thread, exit: Exit): Thread {
    t.(pc := if (exit.ReadFailed? || exit.TimedOut?) && c.bounded && t.stream then CheckingBound else Exiting(exit))
  }

  lemma ReadHasStep(c: Config, k: Tokens, t: Thread, end: Pc)
    requires t.pc.Reading? && ReadEnds(c, t.stream, t.pc.status, end)
    ensures ForwardStep(c, k, t, k, ReadTo(c, t, end.exit)) && EndsWith(c, ReadTo(c, t, end.exit), end)
  {
  }

  lemma ExitHasStep(c: Config, k: Tokens, t: Thread, end: Pc) returns (k': Tokens, t': Thread)
    requires EndsWith(c, t, end) && k.conc > 0 && (t.pc.Building? || t.pc.CheckingBound? || t.pc.Exiting?)
    ensures ForwardStep(c, k, t, k', t') && EndsWith(c, t', end) && !t'.pc.CheckingBound?
    ensures StepsToEnd(t'.pc) < StepsToEnd(t.pc) && (StepsToEnd(t'.pc) > 0 ==> k'.conc > 0)
  {
    k' := if t.pc.Exiting? then k.(conc := k.conc - 1) else k;
    t' := match t.pc
      case Building => t.(pc := if end == Returned(BuildFailed) then Exiting(BuildFailed) else Sending)
      case CheckingBound => t.(pc := Exiting(end.exit))
      case Exiting(exit) =>
        t.(pc := Returned(exit), gave := t.gave + 1, result := if CarriesResult(exit) then Some(Result(false, None, false)) else None);
  }

  /** The second half: every possible end has a step that leads to it. */
  lemma EndHasStep(c: Config, k: Tokens, t: Thread, end: Pc) returns (k': Tokens, t': Thread)
    requires EndsWith(c, t, end) && StepsToEnd(t.pc) > 0 && k.conc > 0
    ensures ForwardStep(c, k, t, k', t') && EndsWith(c, t', end)
    ensures StepsToEnd(t'.pc) < StepsToEnd(t.pc) && (StepsToEnd(t'.pc) > 0 ==> k'.conc > 0)
  {
    if t.pc.Sending? {
      k', t' := k, SentTo(t, end);
      SendHasStep(c, k, t, end);
    } else if t.pc.Reading? {
      k', t' := k, ReadTo(c, t, end.exit);
      ReadHasStep(c, k, t, end);
    } else {
      k', t' := ExitHasStep(c, k, t, end);
    }
  }

  lemma ForwardMoves(c: Config, k: Tokens, drained: bool, t: Thread, k': Tokens, t': Thread)
    requires ThreadStep(c, k, drained, t, k', t') && StepsToEnd(t.pc) > 0 && k.conc > 0
    ensures ForwardStep(c, k, t, k', t') && BoundChecked(c, t') && (StepsToEnd(t'.pc) > 0 ==> k'.conc > 0)
  {
  }

  lemma EndIsPossible(c: Config, s: State, i: nat, end: Pc)
    requires i < |s.threads| && (StepsToEnd(s.threads[i].pc) > 0 ==> s.conc > 0) && BoundChecked(c, s.threads[i])
    requires MayEnd(c, s, i, end)
    ensures EndsWith(c, s.threads[i], end)
    decreases StepsToEnd(s.threads[i].pc)
  {
    var k, t := Tokens(s.conc, s.queue), s.threads[i];
    if StepsToEnd(t.pc) > 0 {
      var s' :| Moves(c, s, s', i) && StepsToEnd(s'.threads[i].pc) < StepsToEnd(t.pc) && MayEnd(c, s', i, end);
      ForwardMoves(c, k, s.drained, t, Tokens(s'.conc, s'.queue), s'.threads[i]);
      EndIsPossible(c, s', i, end);
      StepKeepsEnd(c, k, t, Tokens(s'.conc, s'.queue), s'.threads[i], end);
    }
  }

  lemma EndIsReachable(c: Config, s: State, i: nat, end: Pc)
    requires i < |s.threads| && (StepsToEnd(s.threads[i].pc) > 0 ==> s.conc > 0)
    requires EndsWith(c, s.threads[i], end)
    ensures MayEnd(c, s, i, end)
    decreases StepsToEnd(s.threads[i].pc)
  {
    var k, t := Tokens(s.conc, s.queue), s.threads[i];
    if StepsToEnd(t.pc) > 0 {
      var k', t' := EndHasStep(c, k, t, end);
      var s' := After(s, i, k', t');
      EndIsReachable(c, s', i, end);
      assert Moves(c, s, s', i);
    }
  }

  /** Only a bounded stream request ever looks at its timer. */
  lemma {:induction false} BoundIsChecked(c: Config, run: seq<State>, i: nat)
    requires IsRun(c, run) && i < |run[|run| - 1].threads|
    ensures BoundChecked(c, run[|run| - 1].threads[i])
  {
    if |run| > 1 {
      var before := run[..|run| - 1];
      var s, s' := before[|before| - 1], run[|run| - 1];
      assert Step(c, s, s');
      if i >= |s.threads| {
        NewcomersArrive(c, s, s', i);
      } else {
        BoundIsChecked(c, before, i);
        if Moves(c, s, s', i) {
          MoveChecksBound(c, Tokens(s.conc, s.queue), s.drained, s.threads[i], Tokens(s'.conc, s'.queue), s'.threads[i]);
        } else {
          OtherStepsKeepPlace(c, s, s', i);
        }
      }
    }
  }

  lemma MoveChecksBound(c: Config, k: Tokens, drained: bool, t: Thread, k': Tokens, t': Thread)
    requires ThreadStep(c, k, drained, t, k', t') && BoundChecked(c, t)
    ensures BoundChecked(c, t')
  {
  }

  /** How Forward ends for a thread that moves alone, in every state of every run. */
  lemma EndIff(c: Config, run: seq<State>, i: nat, end: Pc)
    requires IsRun(c, run) && i < |run[|run| - 1].threads|
    ensures var s := run[|run| - 1]; MayEnd(c, s, i, end) <==> EndsWith(c, s.threads[i], end)
  {
    var s := run[|run| - 1];
    ReleaseNeverBlocks(c, run, i);
    BoundIsChecked(c, run, i);
    if MayEnd(c, s, i, end) {
      EndIsPossible(c, s, i, end);
    }
    if EndsWith(c, s.threads[i], end) {
      EndIsReachable(c, s, i, end);
    }
  }

  /** A handed-on stream had status 200, was an event stream, and had been asked for; what is read into memory was not. */
  lemma ReadOrHanded(c: Config, k: Tokens, t: Thread, k': Tokens, t': Thread)
    requires ForwardStep(c, k, t, k', t')
    ensures t'.pc.Handed? ==> t.pc.Sending? && t.stream && t'.pc.status == 200
    ensures t'.pc.Reading? ==> t.pc.Sending? && !(t.stream && t'.pc.status == 200 && t'.pc.eventStream)
  {
  }
}
