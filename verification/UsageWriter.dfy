/**
 The usage-log writer: a bounded queue filled by non-blocking Enqueue calls, one consumer
 goroutine that appends records to the file, and a Close that races with both.

 A run is any interleaving of the atomic operations of any number of Enqueue calls, the
 consumer and Close.
 */
module UsageWriter {
  import opened Sums

  type Record = nat

  datatype Submitter =
    | Checking(r: Record)   // before the load of closed
    | Sending(r: Record)    // closed was false; before the non-blocking send
    | Finished

  datatype Consumer =
    | Selecting                              // in the outer select
    | Writing(r: Record, stopping: bool)     // record received, not yet written
    | Emptying                               // stop seen; in the inner drain loop
    | Stopped                                // final sync done, done closed

  datatype Closer =
    | NotCalled
    | MarkedClosed    // closed stored, stop not yet closed
    | Stopping        // stop closed, waiting for done
    | Sweeping        // done seen, counting what is left in the queue
    | Returned

  datatype State = State(
    queue: seq<Record>, written: seq<Record>, dropped: nat,
    closed: bool, stop: bool,
    submitters: seq<Submitter>, consumer: Consumer, closer: Closer,
    accepted: seq<Record>,             // records sent to the queue, in send order
    taken: seq<(Record, bool)>)        // records that left the queue, with whether they reached the file

  ghost predicate Init(s: State) {
    s == State([], [], 0, false, false, [], Selecting, NotCalled, [], [])
  }

  // ----- steps -----

  ghost predicate Submits(s: State, s': State, r: Record) {
    s' == s.(submitters := s.submitters + [Checking(r)])
  }

  ghost predicate SubmitterStep(cap: nat, s: State, s': State, i: nat)
  {
    && i < |s.submitters|
    && match s.submitters[i]
       case Checking(r) =>
         if s.closed then s' == s.(dropped := s.dropped + 1, submitters := s.submitters[i := Finished])
         else s' == s.(submitters := s.submitters[i := Sending(r)])
       case Sending(r) =>
         if |s.queue| < cap
         then s' == s.(queue := s.queue + [r], accepted := s.accepted + [r], submitters := s.submitters[i := Finished])
         else s' == s.(dropped := s.dropped + 1, submitters := s.submitters[i := Finished])
       case Finished => false
  }

  /** The consumer receives the oldest queued record. */
  ghost predicate Receives(s: State, s': State, stopping: bool) {
    && s.queue != []
    && s' == s.(queue := s.queue[1..], consumer := Writing(s.queue[0], stopping))
  }

  ghost predicate ConsumerStep(s: State, s': State) {
    match s.consumer
    case Selecting =>
      || Receives(s, s', false)
      || (s.stop && s' == s.(consumer := Emptying))
    case Writing(r, stopping) =>
      var next := if stopping then Emptying else Selecting;
      || s' == s.(written := s.written + [r], taken := s.taken + [(r, true)], consumer := next)
      || s' == s.(dropped := s.dropped + 1, taken := s.taken + [(r, false)], consumer := next)
    case Emptying =>
      || Receives(s, s', true)
      || (s.queue == [] && s' == s.(consumer := Stopped))
    case Stopped => false
  }

  ghost predicate CloserStep(s: State, s': State) {
    match s.closer
    case NotCalled => s' == s.(closed := true, closer := MarkedClosed)
    case MarkedClosed => s' == s.(stop := true, closer := Stopping)
    case Stopping => s.consumer.Stopped? && s' == s.(closer := Sweeping)
    case Sweeping =>
      if s.queue != []
      then s' == s.(queue := s.queue[1..], dropped := s.dropped + 1, taken := s.taken + [(s.queue[0], false)])
      else s' == s.(closer := Returned)
    case Returned => false
  }

  ghost predicate Step(cap: nat, s: State, s': State) {
    || (exists r: Record :: Submits(s, s', r))
    || (exists i: nat :: SubmitterStep(cap, s, s', i))
    || ConsumerStep(s, s')
    || CloserStep(s, s')
  }

  ghost predicate IsRun(cap: nat, run: seq<State>) {
    && run != [] && Init(run[0])
    && forall k :: 0 <= k < |run| - 1 ==> Step(cap, run[k], run[k + 1])
  }

  // ----- conservation -----

  ghost function Completed(e: Submitter): int { if e.Finished? then 1 else 0 }

  function InHand(s: State): seq<Record> {
    if s.consumer.Writing? then [s.consumer.r] else []
  }

  ghost function Firsts(t: seq<(Record, bool)>): seq<Record> {
    if t == [] then [] else Firsts(t[..|t| - 1]) + [t[|t| - 1].0]
  }

  /** The records that reached the file, in the order they left the queue. */
  ghost function Survivors(t: seq<(Record, bool)>): seq<Record> {
    if t == [] then []
    else Survivors(t[..|t| - 1]) + (if t[|t| - 1].1 then [t[|t| - 1].0] else [])
  }

  ghost predicate Inv(cap: nat, s: State) {
    // every completed Enqueue is written, dropped, queued or in the consumer's hand
    && Total(s.submitters, Completed) == |s.written| + s.dropped + |s.queue| + |InHand(s)|
    && |s.queue| <= cap
    // first in, first out: what left the queue, what is in hand and what is queued is what was sent
    && s.accepted == Firsts(s.taken) + InHand(s) + s.queue
    && s.written == Survivors(s.taken)
    // the shutdown handshake
    && (s.closed <==> !s.closer.NotCalled?)
    && (s.stop <==> !s.closer.NotCalled? && !s.closer.MarkedClosed?)
    && (s.consumer.Emptying? || s.consumer.Stopped? || (s.consumer.Writing? && s.consumer.stopping) ==> s.stop)
    && (s.closer.Sweeping? || s.closer.Returned? ==> s.consumer.Stopped?)
  }

  lemma SubmitterKeepsInv(cap: nat, s: State, s': State, i: nat)
    requires Inv(cap, s) && SubmitterStep(cap, s, s', i)
    ensures Inv(cap, s')
  {
    TotalUpdate(s.submitters, i, s'.submitters[i], Completed);
    assert s'.accepted == Firsts(s'.taken) + InHand(s') + s'.queue;
  }

  lemma Takes(taken: seq<(Record, bool)>, r: Record, ok: bool)
    ensures Firsts(taken + [(r, ok)]) == Firsts(taken) + [r]
    ensures Survivors(taken + [(r, ok)]) == Survivors(taken) + if ok then [r] else []
  {
    assert (taken + [(r, ok)])[..|taken|] == taken;
  }

  /** The record at the head of the queue moves to the consumer's hand. */
  lemma ReceiveKeepsInv(cap: nat, s: State, s': State, stopping: bool)
    requires Inv(cap, s) && !s.consumer.Writing? && !s.consumer.Stopped? && (stopping ==> s.consumer.Emptying?)
    requires Receives(s, s', stopping)
    ensures Inv(cap, s')
  {
    HeadAndRest(Firsts(s.taken), s.queue);
  }

  lemma HeadAndRest(before: seq<Record>, queue: seq<Record>)
    requires queue != []
    ensures before + [] + queue == before + [queue[0]] + queue[1..]
  {
  }

  /** The record in hand is written, or dropped when the write fails. */
  lemma WriteKeepsInv(cap: nat, s: State, s': State)
    requires Inv(cap, s) && s.consumer.Writing? && ConsumerStep(s, s')
    ensures Inv(cap, s')
  {
    Takes(s.taken, s.consumer.r, true);
    Takes(s.taken, s.consumer.r, false);
    assert Firsts(s'.taken) + InHand(s') == Firsts(s'.taken) == Firsts(s.taken) + InHand(s);
  }

  lemma ConsumerKeepsInv(cap: nat, s: State, s': State)
    requires Inv(cap, s) && ConsumerStep(s, s')
    ensures Inv(cap, s')
  {
    match s.consumer
    case Selecting =>
      if Receives(s, s', false) {
        ReceiveKeepsInv(cap, s, s', false);
      }
    case Writing(_, _) => WriteKeepsInv(cap, s, s');
    case Emptying =>
      if Receives(s, s', true) {
        ReceiveKeepsInv(cap, s, s', true);
      }
    case Stopped =>
  }

  lemma CloserKeepsInv(cap: nat, s: State, s': State)
    requires Inv(cap, s) && CloserStep(s, s')
    ensures Inv(cap, s')
  {
    if s.closer.Sweeping? && s.queue != [] {
      Takes(s.taken, s.queue[0], false);
      assert s.queue == [s.queue[0]] + s.queue[1..];
      assert InHand(s) == InHand(s') == [];
    }
  }

  lemma StepKeepsInv(cap: nat, s: State, s': State)
    requires Inv(cap, s) && Step(cap, s, s')
    ensures Inv(cap, s')
  {
    if r: Record :| Submits(s, s', r) {
      TotalAppend(s.submitters, Checking(r), Completed);
    } else if i: nat :| SubmitterStep(cap, s, s', i) {
      SubmitterKeepsInv(cap, s, s', i);
    } else if ConsumerStep(s, s') {
      ConsumerKeepsInv(cap, s, s');
    } else {
      CloserKeepsInv(cap, s, s');
    }
  }

  /** No record is lost or counted twice in any interleaving, and the file keeps queue order. */
  lemma {:induction false} RecordsConserved(cap: nat, run: seq<State>)
    requires IsRun(cap, run)
    ensures Inv(cap, run[|run| - 1])
    ensures var s := run[|run| - 1];
            && Total(s.submitters, Completed) == |s.written| + s.dropped + |s.queue| + |InHand(s)|
            && s.accepted == Firsts(s.taken) + InHand(s) + s.queue
            && s.written == Survivors(s.taken)
  {
    if |run| > 1 {
      var before := run[..|run| - 1];
      RecordsConserved(cap, before);
      StepKeepsInv(cap, before[|before| - 1], run[|run| - 1]);
    }
  }

  // ----- after Close -----

  /** No Enqueue is between its check and its send. */
  ghost predicate NonePending(s: State) {
    forall e :: e in s.submitters ==> !e.Sending?
  }

  /** Once Close has returned and no Enqueue is at its send, none ever is again. */
  lemma {:induction false} QuietAfterClose(cap: nat, run: seq<State>, k: nat)
    requires IsRun(cap, run) && k < |run|
    requires run[k].closer.Returned? && run[k].queue == []
    requires NonePending(run[k])
    ensures var s := run[|run| - 1];
            s.closer.Returned? && s.queue == [] && NonePending(s)
    decreases |run|
  {
    if k < |run| - 1 {
      var before := run[..|run| - 1];
      QuietAfterClose(cap, before, k);
      RecordsConserved(cap, before);
      var s, s' := before[|before| - 1], run[|run| - 1];
      if r: Record :| Submits(s, s', r) {
      } else if i: nat :| SubmitterStep(cap, s, s', i) {
      }
    }
  }

  /** Close returns in the step that leads to state k. */
  ghost predicate ReturnsAt(run: seq<State>, k: nat) {
    0 < k < |run| && !run[k - 1].closer.Returned? && run[k].closer.Returned?
  }

  /** Close returns on an empty queue. */
  lemma ReturnsOnEmptyQueue(cap: nat, run: seq<State>, k: nat)
    requires IsRun(cap, run) && ReturnsAt(run, k)
    ensures run[k].queue == []
  {
    var s, s' := run[k - 1], run[k];
    assert Step(cap, s, s');
    if r: Record :| Submits(s, s', r) {
    } else if i: nat :| SubmitterStep(cap, s, s', i) {
    }
  }

  /**
   If no Enqueue is between its check and its send when Close returns, then from then on every
   submitted record is either written or counted as dropped.
   */
  lemma SubmittedIsWrittenOrDropped(cap: nat, run: seq<State>, k: nat)
    requires IsRun(cap, run) && ReturnsAt(run, k)
    requires NonePending(run[k])
    ensures var s := run[|run| - 1]; Total(s.submitters, Completed) == |s.written| + s.dropped
    ensures var s := run[|run| - 1]; s.accepted == Firsts(s.taken)
  {
    ReturnsOnEmptyQueue(cap, run, k);
    QuietAfterClose(cap, run, k);
    RecordsConserved(cap, run);
    var s := run[|run| - 1];
    assert s.accepted == Firsts(s.taken) + [] + [];
  }

  /** Every record whose Enqueue has completed was written or counted as dropped. */
  ghost predicate Settled(s: State) {
    Total(s.submitters, Completed) == |s.written| + s.dropped
  }

  /** An Enqueue that is at its send when Close returns can still send, and its record is then lost for good. */
  lemma LateSendIsLost(cap: nat, run: seq<State>, i: nat) returns (longer: seq<State>)
    requires cap > 0 && IsRun(cap, run) && ReturnsAt(run, |run| - 1)
    requires i < |run[|run| - 1].submitters| && run[|run| - 1].submitters[i].Sending?
    ensures IsRun(cap, longer) && run <= longer && !Settled(longer[|longer| - 1])
  {
    var s := run[|run| - 1];
    var r := s.submitters[i].r;
    ReturnsOnEmptyQueue(cap, run, |run| - 1);
    var s' := s.(queue := s.queue + [r], accepted := s.accepted + [r], submitters := s.submitters[i := Finished]);
    assert SubmitterStep(cap, s, s', i);
    longer := run + [s'];
    RecordsConserved(cap, longer);
  }

  /** However the run goes on, every completed Enqueue is written or counted as dropped. */
  ghost predicate StaysSettled(cap: nat, run: seq<State>) {
    forall longer | IsRun(cap, longer) && run <= longer :: Settled(longer[|longer| - 1])
  }

  lemma QuietStaysSettled(cap: nat, run: seq<State>)
    requires IsRun(cap, run) && ReturnsAt(run, |run| - 1) && NonePending(run[|run| - 1])
    ensures StaysSettled(cap, run)
  {
    forall longer | IsRun(cap, longer) && run <= longer ensures Settled(longer[|longer| - 1]) {
      assert longer[|run| - 1] == run[|run| - 1] && longer[|run| - 2] == run[|run| - 2];
      SubmittedIsWrittenOrDropped(cap, longer, |run| - 1);
    }
  }

  /**
   What Close promises, exactly: whatever happens after it returned, every completed Enqueue is
   written or counted as dropped, if and only if no Enqueue was between its check and its send at
   that moment. The writer's queue holds at least one record.
   */
  lemma NothingLostIff(cap: nat, run: seq<State>)
    requires cap > 0 && IsRun(cap, run) && ReturnsAt(run, |run| - 1)
    ensures StaysSettled(cap, run) <==> NonePending(run[|run| - 1])
  {
    if NonePending(run[|run| - 1]) {
      QuietStaysSettled(cap, run);
    } else {
      var e :| e in run[|run| - 1].submitters && e.Sending?;
      var i :| 0 <= i < |run[|run| - 1].submitters| && run[|run| - 1].submitters[i] == e;
      var longer := LateSendIsLost(cap, run, i);
    }
  }

  // ----- what is written, what is dropped, and that Close returns -----

  /** Submitter i is turned away: the writer is closed, or the queue is full. */
  ghost predicate TurnedAway(cap: nat, s: State, s': State, i: nat) {
    && i < |s.submitters| && s'.submitters == s.submitters[i := Finished]
    && ((s.submitters[i].Checking? && s.closed) || (s.submitters[i].Sending? && |s.queue| == cap))
  }

  ghost predicate SomeoneTurnedAway(cap: nat, s: State, s': State) {
    exists i: nat :: TurnedAway(cap, s, s', i)
  }

  ghost predicate WriteFails(s: State, s': State) {
    s.consumer.Writing? && !s'.consumer.Writing? && s'.queue == s.queue && s'.written == s.written
  }

  ghost predicate Sweeps(s: State, s': State) {
    s.closer.Sweeping? && s.queue != [] && s'.queue == s.queue[1..]
  }

  /**
   Every drop has its cause: the writer was closed, the queue was full, the record in hand failed to
   be written, or Close found it left behind.
   */
  lemma DropsForCause(cap: nat, run: seq<State>, k: nat)
    requires IsRun(cap, run) && k + 1 < |run| && run[k + 1].dropped != run[k].dropped
    ensures run[k + 1].dropped == run[k].dropped + 1
    ensures SomeoneTurnedAway(cap, run[k], run[k + 1]) || WriteFails(run[k], run[k + 1]) || Sweeps(run[k], run[k + 1])
  {
    var s, s' := run[k], run[k + 1];
    QueueWithinCap(cap, run, k);
    assert Step(cap, s, s');
    if i: nat :| SubmitterStep(cap, s, s', i) {
      SubmitterDrops(cap, s, s', i);
    } else if ConsumerStep(s, s') {
      ConsumerDrops(s, s');
    } else {
      CloserDrops(s, s');
    }
  }

  lemma QueueWithinCap(cap: nat, run: seq<State>, k: nat)
    requires IsRun(cap, run) && k < |run|
    ensures |run[k].queue| <= cap
  {
    var before := run[..k + 1];
    assert IsRun(cap, before);
    RecordsConserved(cap, before);
  }

  lemma SubmitterDrops(cap: nat, s: State, s': State, i: nat)
    requires |s.queue| <= cap && SubmitterStep(cap, s, s', i) && s'.dropped != s.dropped
    ensures s'.dropped == s.dropped + 1 && TurnedAway(cap, s, s', i)
  {
  }

  lemma ConsumerDrops(s: State, s': State)
    requires ConsumerStep(s, s') && s'.dropped != s.dropped
    ensures s'.dropped == s.dropped + 1 && WriteFails(s, s')
  {
  }

  lemma CloserDrops(s: State, s': State)
    requires CloserStep(s, s') && s'.dropped != s.dropped
    ensures s'.dropped == s.dropped + 1 && Sweeps(s, s')
  {
  }

  /** A submitter that is not dropped is on its way or accepted: closed and full are the only reasons. */
  lemma SubmittersGetIn(cap: nat, s: State, s': State, i: nat)
    requires SubmitterStep(cap, s, s', i)
    ensures s.submitters[i].Checking? && !s.closed ==> s'.dropped == s.dropped && s'.submitters[i] == Sending(s.submitters[i].r)
    ensures s.submitters[i].Sending? && |s.queue| < cap ==>
              s'.dropped == s.dropped && s'.queue == s.queue + [s.submitters[i].r] && s'.accepted == s.accepted + [s.submitters[i].r]
    ensures (s.submitters[i].Checking? && s.closed) || (s.submitters[i].Sending? && |s.queue| >= cap) ==>
              s'.dropped == s.dropped + 1 && s'.submitters[i].Finished? && s'.queue == s.queue
  {
  }

  /** One more state. */
  lemma OneMore(cap: nat, run: seq<State>, s': State)
    requires IsRun(cap, run) && Step(cap, run[|run| - 1], s')
    ensures IsRun(cap, run + [s'])
  {
  }

  /** Only the consumer has moved since. */
  ghost predicate OnlyConsumed(s: State, s': State) {
    s' == s.(queue := s'.queue, written := s'.written, taken := s'.taken, consumer := s'.consumer)
  }

  /** While nothing fails, the consumer alone writes all that is in hand and queued, in order, and drops nothing. */
  lemma {:induction false} ConsumerWritesAll(cap: nat, run: seq<State>) returns (longer: seq<State>)
    requires IsRun(cap, run) && !run[|run| - 1].consumer.Stopped?
    ensures IsRun(cap, longer) && run <= longer
    ensures var s, s' := run[|run| - 1], longer[|longer| - 1];
            && OnlyConsumed(s, s') && s'.queue == [] && (s'.consumer.Selecting? || s'.consumer.Emptying?)
            && s'.written == s.written + InHand(s) + s.queue
    decreases 2 * |run[|run| - 1].queue| + |InHand(run[|run| - 1])|
  {
    var s := run[|run| - 1];
    if s.consumer.Writing? {
      var r := s.consumer.r;
      var s1 := s.(written := s.written + [r], taken := s.taken + [(r, true)], consumer := if s.consumer.stopping then Emptying else Selecting);
      assert ConsumerStep(s, s1);
      OneMore(cap, run, s1);
      longer := ConsumerWritesAll(cap, run + [s1]);
      assert s1.written + [] + s1.queue == s.written + InHand(s) + s.queue;
    } else if s.queue != [] {
      var s1 := s.(queue := s.queue[1..], consumer := Writing(s.queue[0], s.consumer.Emptying?));
      assert Receives(s, s1, s.consumer.Emptying?) && ConsumerStep(s, s1);
      OneMore(cap, run, s1);
      longer := ConsumerWritesAll(cap, run + [s1]);
      HeadAndRest(s.written, s.queue);
    } else {
      longer := run;
    }
  }

  /** A write may fail, and then its record is dropped and the consumer goes on. */
  lemma WriteMayFail(cap: nat, run: seq<State>) returns (longer: seq<State>)
    requires IsRun(cap, run) && run[|run| - 1].consumer.Writing?
    ensures IsRun(cap, longer) && run <= longer
    ensures var s, s' := run[|run| - 1], longer[|longer| - 1];
            s'.dropped == s.dropped + 1 && s'.written == s.written && s'.queue == s.queue && !s'.consumer.Writing? && !s'.consumer.Stopped?
  {
    var s := run[|run| - 1];
    var s1 := s.(dropped := s.dropped + 1, taken := s.taken + [(s.consumer.r, false)], consumer := if s.consumer.stopping then Emptying else Selecting);
    assert ConsumerStep(s, s1);
    OneMore(cap, run, s1);
    longer := run + [s1];
  }

  /** What is left once the consumer has stopped is swept up. */
  lemma {:induction false} SweepReturns(cap: nat, run: seq<State>) returns (longer: seq<State>)
    requires IsRun(cap, run) && run[|run| - 1].closer.Sweeping?
    ensures IsRun(cap, longer) && run <= longer && longer[|longer| - 1].closer.Returned?
    ensures longer[|longer| - 1].written == run[|run| - 1].written
    ensures longer[|longer| - 1].dropped == run[|run| - 1].dropped + |run[|run| - 1].queue|
    decreases |run[|run| - 1].queue|
  {
    var s := run[|run| - 1];
    if s.queue != [] {
      var s1 := s.(queue := s.queue[1..], dropped := s.dropped + 1, taken := s.taken + [(s.queue[0], false)]);
      assert CloserStep(s, s1);
      OneMore(cap, run, s1);
      longer := SweepReturns(cap, run + [s1]);
    } else {
      var s1 := s.(closer := Returned);
      assert CloserStep(s, s1);
      OneMore(cap, run, s1);
      longer := run + [s1];
    }
  }

  /** Close, called at any moment, can return with everything accepted before it written, without a further drop. */
  lemma CloseReturns(cap: nat, run: seq<State>) returns (longer: seq<State>)
    requires IsRun(cap, run) && !run[|run| - 1].consumer.Stopped?
    ensures IsRun(cap, longer) && run <= longer && longer[|longer| - 1].closer.Returned?
    ensures var s, s' := run[|run| - 1], longer[|longer| - 1]; s'.written == s.written + InHand(s) + s.queue && s'.dropped == s.dropped
  {
    var s := run[|run| - 1];
    RecordsConserved(cap, run);
    longer := ConsumerWritesAll(cap, CloseCalled(cap, run));
    longer := StopsAndReturns(cap, longer);
  }

  /** With the queue empty and stop seen, the consumer stops and Close returns. */
  lemma StopsAndReturns(cap: nat, run: seq<State>) returns (longer: seq<State>)
    requires IsRun(cap, run)
    requires var s := run[|run| - 1]; s.queue == [] && s.stop && s.closer.Stopping? && (s.consumer.Selecting? || s.consumer.Emptying?)
    ensures IsRun(cap, longer) && run <= longer && longer[|longer| - 1].closer.Returned?
    ensures longer[|longer| - 1].written == run[|run| - 1].written && longer[|longer| - 1].dropped == run[|run| - 1].dropped
    decreases run[|run| - 1].consumer.Selecting?
  {
    var s := run[|run| - 1];
    if s.consumer.Selecting? {
      var s1 := s.(consumer := Emptying);
      assert ConsumerStep(s, s1);
      OneMore(cap, run, s1);
      longer := StopsAndReturns(cap, run + [s1]);
    } else {
      var s1 := s.(consumer := Stopped);
      var s2 := s1.(closer := Sweeping);
      assert ConsumerStep(s, s1) && CloserStep(s1, s2);
      OneMore(cap, run, s1);
      OneMore(cap, run + [s1], s2);
      longer := SweepReturns(cap, run + [s1] + [s2]);
    }
  }

  /** The two stores that open Close. */
  ghost function CloseCalled(cap: nat, run: seq<State>): (longer: seq<State>)
    requires IsRun(cap, run) && !run[|run| - 1].consumer.Stopped?
    ensures IsRun(cap, longer) && run <= longer
    ensures var s, s' := run[|run| - 1], longer[|longer| - 1];
            s' == s.(closed := s'.closed, stop := s'.stop, closer := Stopping)
  {
    var s := run[|run| - 1];
    RecordsConserved(cap, run);
    var s1 := s.(closed := true, closer := MarkedClosed);
    var marked := if s.closer.NotCalled? then assert CloserStep(s, s1); OneMore(cap, run, s1); run + [s1] else run;
    var m := marked[|marked| - 1];
    var s2 := m.(stop := true, closer := Stopping);
    if m.closer.MarkedClosed? then assert CloserStep(m, s2); OneMore(cap, marked, s2); marked + [s2] else marked
  }

}

/** The overflow alert: goroutines race to claim the next alert window with a compare-and-swap. */
module AlertCadence {
  import opened Sums

  const ALERT_CADENCE: int := 30

  datatype Caller =
    | Loading(now: int)               // before the load of lastAlert
    | Claiming(now: int, prev: int)   // before the compare-and-swap
    | Answered(due: bool)

  /** claims lists the times at which a caller was told to alert, oldest first. */
  datatype State = State(lastAlert: int, callers: seq<Caller>, claims: seq<int>)

  ghost predicate Init(s: State) {
    s == State(0, [], [])
  }

  ghost predicate CallerStep(s: State, s': State, i: nat) {
    && i < |s.callers|
    && match s.callers[i]
       case Loading(now) =>
         s' == s.(callers := s.callers[i := if now < s.lastAlert then Answered(false) else Claiming(now, s.lastAlert)])
       case Claiming(now, prev) =>
         if s.lastAlert == prev
         then s' == State(now + ALERT_CADENCE, s.callers[i := Answered(true)], s.claims + [now])
         else s' == s.(callers := s.callers[i := Answered(false)])
       case Answered(_) => false
  }

  ghost predicate Step(s: State, s': State) {
    || (exists now: int :: s' == s.(callers := s.callers + [Loading(now)]))
    || (exists i: nat :: CallerStep(s, s', i))
  }

  ghost predicate IsRun(run: seq<State>) {
    && run != [] && Init(run[0])
    && forall k :: 0 <= k < |run| - 1 ==> Step(run[k], run[k + 1])
  }

  ghost predicate Spaced(claims: seq<int>) {
    forall i, j :: 0 <= i < j < |claims| ==> claims[i] + ALERT_CADENCE * (j - i) <= claims[j]
  }

  ghost predicate Inv(s: State) {
    && Spaced(s.claims)
    && s.lastAlert == (if s.claims == [] then 0 else s.claims[|s.claims| - 1] + ALERT_CADENCE)
    && forall c :: c in s.callers && c.Claiming? ==> c.prev <= c.now
  }

  /** Alerts claimed under contention are a full cadence apart, whatever the callers' clocks say. */
  lemma {:induction false} AlertsSpaced(run: seq<State>)
    requires IsRun(run)
    ensures Inv(run[|run| - 1])
  {
    if |run| > 1 {
      var before := run[..|run| - 1];
      AlertsSpaced(before);
      var s, s' := before[|before| - 1], run[|run| - 1];
      if i: nat :| CallerStep(s, s', i) {
        var c := s.callers[i];
        assert c in s.callers;
        if c.Claiming? && s.lastAlert == c.prev && s.claims != [] {
          var last := |s.claims| - 1;
          assert s.claims[last] + ALERT_CADENCE <= c.now;
        }
      }
    }
  }

  // ----- whoever is told to alert or not is told so for cause -----

  ghost function Told(c: Caller): int { if c.Answered? && c.due then 1 else 0 }

  /** Caller i, at its load, was early; or, at its claim, somebody had claimed since its load. */
  ghost predicate TurnedAwayAt(run: seq<State>, i: nat, k: nat) {
    && k < |run| && i < |run[k].callers|
    && match run[k].callers[i]
       case Loading(now) => now < run[k].lastAlert
       case Claiming(now, prev) => run[k].lastAlert != prev
       case Answered(_) => false
  }

  ghost predicate TurnedAway(run: seq<State>, i: nat) {
    exists k: nat :: TurnedAwayAt(run, i, k)
  }

  /** Every claim was told to exactly one caller, and no other caller is turned away without a cause. */
  lemma {:induction false} ToldForCause(run: seq<State>, i: nat)
    requires IsRun(run)
    ensures |run[|run| - 1].claims| == Total(run[|run| - 1].callers, Told)
    ensures i < |run[|run| - 1].callers| && run[|run| - 1].callers[i] == Answered(false) ==> TurnedAway(run, i)
  {
    if |run| > 1 {
      var before := run[..|run| - 1];
      var s, s' := before[|before| - 1], run[|run| - 1];
      ToldForCause(before, i);
      assert Step(s, s');
      if now: int :| s' == s.(callers := s.callers + [Loading(now)]) {
        TotalAppend(s.callers, Loading(now), Told);
      } else {
        var j: nat :| CallerStep(s, s', j);
        TotalUpdate(s.callers, j, s'.callers[j], Told);
      }
      if i < |s'.callers| && s'.callers[i] == Answered(false) {
        if i < |s.callers| && s.callers[i] == Answered(false) {
          var k: nat :| TurnedAwayAt(before, i, k);
          assert TurnedAwayAt(run, i, k);
        } else {
          assert TurnedAwayAt(run, i, |before| - 1);
        }
      }
    }
  }

  /** A caller that loads and claims with nobody in between is told to alert exactly when none is due later. */
  lemma AloneIsTold(s: State, s1: State, s2: State, i: nat)
    requires CallerStep(s, s1, i) && s.callers[i].Loading? && s.callers[i].now >= s.lastAlert && CallerStep(s1, s2, i)
    ensures s2.callers[i] == Answered(true) && s2.claims == s.claims + [s.callers[i].now] && s2.lastAlert == s.callers[i].now + 30
  {
  }
}
