// RoundBuffer (conflux-buffer): one round's submissions, closed by a quorum or a deadline.
// First the buffer itself, then the protocol of any number of pushers and one flusher, stepped at
// the granularity of its lock, its notification and its wait.
module RoundBuffers {
  import opened Wrappers
  import opened Sorting

  /** A submission: the round it claims and an opaque content. */
  datatype Delta = Delta(round: nat, content: int)

  datatype BufferState = Open(deltas: seq<Delta>) | Closed

  datatype BufferError = WrongRound(expected: nat, got: nat) | BufferClosed

  datatype FlushReason = Quorum | Timeout

  datatype FlushResult = FlushResult(round: nat, reason: FlushReason, deltas: seq<Delta>)

  // ----- the critical sections -----

  /** `push` up to and including the append. */
  function PushLocked(round: nat, state: BufferState, d: Delta): (r: (BufferState, Option<BufferError>)) {
    if d.round != round then (state, Some(WrongRound(round, d.round)))
    else match state
      case Open(deltas) => (Open(deltas + [d]), None)
      case Closed => (state, Some(BufferClosed))
  }

  /** `close_if_quorum_met` */
  function CloseIfQuorum(quorum: nat, state: BufferState): (r: (BufferState, Option<seq<Delta>>)) {
    match state
    case Open(deltas) => if |deltas| >= quorum then (Closed, Some(deltas)) else (state, None)
    case Closed => (state, None)
  }

  /** `close_and_take` */
  function CloseAndTake(state: BufferState): (r: (BufferState, seq<Delta>)) {
    match state
    case Open(deltas) => (Closed, deltas)
    case Closed => (Closed, [])
  }

  class RoundBuffer {
    const round: nat
    const quorum: nat
    var state: BufferState
    /** `Notify`'s stored permit. */
    var permit: bool

    constructor (round: nat, quorum: nat)
      ensures this.round == round && this.quorum == quorum && state == Open([]) && !permit
    {
      this.round, this.quorum := round, quorum;
      state, permit := Open([]), false;
    }

    /** `push` with no flusher parked: an accepted delta is appended and leaves a permit behind; a
        refused one changes nothing. */
    method Push(d: Delta) returns (error: Option<BufferError>)
      modifies this
      ensures (state, error) == PushLocked(round, old(state), d)
      ensures permit == (old(permit) || error.None?)
      ensures error.Some? ==> state == old(state) && permit == old(permit)
    {
      if d.round != round { return Some(WrongRound(round, d.round)); }
      match state {
        case Open(deltas) => state := Open(deltas + [d]);
        case Closed => return Some(BufferClosed);
      }
      permit := true;
      return None;
    }

    method TryCloseOnQuorum() returns (batch: Option<seq<Delta>>)
      modifies this`state
      ensures (state, batch) == CloseIfQuorum(quorum, old(state))
    {
      match state
      case Open(deltas) =>
        if |deltas| < quorum { return None; }
        state := Closed;
        return Some(deltas);
      case Closed => return None;
    }

    method TakeAll() returns (batch: seq<Delta>)
      modifies this`state
      ensures (state, batch) == CloseAndTake(old(state))
    {
      match state
      case Open(deltas) =>
        state := Closed;
        return deltas;
      case Closed => return [];
    }
  }

  // ----- the protocol -----

  /** Where `await_flush` stands. */
  datatype Flusher =
    | AtCheck          // about to take the lock and check the quorum
    | PastCheck        // the check failed; the deadline is read next
    | AboutToWait      // the deadline has not passed; `notified()` is polled next
    | Expired          // the deadline has passed; about to close
    | Waiting          // parked in `notified()`, no permit seen
    | Woken            // parked, and a notification has been assigned to it
    | Done(result: FlushResult)

  /** Where one `push` stands. */
  datatype Pusher =
    | Ready(delta: Delta)     // not yet at the lock
    | Appended(delta: Delta)  // in the buffer; has still to notify
    | Accepted(delta: Delta)
    | Refused(delta: Delta, error: BufferError)

  /** The whole system. `log` records which push was appended when; no step reads it. */
  datatype System = System(round: nat, quorum: nat, buffer: BufferState, permit: bool,
                           flusher: Flusher, pushers: seq<Pusher>, log: seq<nat>)

  datatype Step =
    | Arrive(delta: Delta)     // a new push begins
    | Lock(p: nat)             // push p takes the lock
    | Notify(p: nat)           // push p calls `notify_one`
    | Check                    // the flusher's quorum check
    | ReadClock(expired: bool) // the flusher compares the clock with its deadline
    | BeginWait                // it polls `notified()`
    | WakeUp                   // it consumes the notification assigned to it
    | TimeOut                  // the wait's own timeout fires first
    | Close                    // past the deadline, it closes and takes what is there

  predicate Enabled(s: System, step: Step) {
    match step
    case Arrive(_) => true
    case Lock(p) => p < |s.pushers| && s.pushers[p].Ready?
    case Notify(p) => p < |s.pushers| && s.pushers[p].Appended?
    case Check => s.flusher.AtCheck?
    case ReadClock(_) => s.flusher.PastCheck?
    case BeginWait => s.flusher.AboutToWait?
    case WakeUp => s.flusher.Woken?
    case TimeOut => s.flusher.Waiting? || s.flusher.Woken?
    case Close => s.flusher.Expired?
  }

  function Next(s: System, step: Step): System
    requires Enabled(s, step)
  {
    match step
    case Arrive(d) => s.(pushers := s.pushers + [Ready(d)])
    case Lock(p) =>
      var d := s.pushers[p].delta;
      var (buffer, error) := PushLocked(s.round, s.buffer, d);
      if error.Some? then s.(pushers := s.pushers[p := Refused(d, error.value)])
      else s.(buffer := buffer, pushers := s.pushers[p := Appended(d)], log := s.log + [p])
    case Notify(p) =>
      var pushers := s.pushers[p := Accepted(s.pushers[p].delta)];
      // A parked flusher is assigned the notification; otherwise a permit is stored.
      if s.flusher.Waiting? then s.(pushers := pushers, flusher := Woken)
      else s.(pushers := pushers, permit := true)
    case Check =>
      var (buffer, batch) := CloseIfQuorum(s.quorum, s.buffer);
      if batch.Some? then s.(buffer := buffer, flusher := Done(FlushResult(s.round, Quorum, batch.value)))
      else s.(flusher := PastCheck)
    case ReadClock(expired) => s.(flusher := if expired then Expired else AboutToWait)
    case BeginWait =>
      if s.permit then s.(permit := false, flusher := AtCheck) else s.(flusher := Waiting)
    case WakeUp => s.(flusher := AtCheck)
    case TimeOut =>
      // A dropped wait that had been notified hands its notification on as a permit.
      s.(flusher := AtCheck, permit := s.permit || s.flusher.Woken?)
    case Close =>
      var (buffer, batch) := CloseAndTake(s.buffer);
      s.(buffer := buffer, flusher := Done(FlushResult(s.round, Timeout, batch)))
  }

  function Initial(round: nat, quorum: nat): System {
    System(round, quorum, Open([]), false, AtCheck, [], [])
  }

  /** Where the accepted deltas are: the open buffer, or the flushed batch. */
  function Held(s: System): seq<Delta> {
    match s.buffer
    case Open(deltas) => deltas
    case Closed => if s.flusher.Done? then s.flusher.result.deltas else []
  }

  predicate Appending(p: Pusher) {
    p.Appended? || p.Accepted?
  }

  /** The log names each accepted push once, and its deltas in order are exactly what is held. */
  ghost predicate ExactlyOnce(s: System) {
    && |s.log| == |Held(s)|
    && (forall k | 0 <= k < |s.log| :: s.log[k] < |s.pushers| && Appending(s.pushers[s.log[k]])
          && s.pushers[s.log[k]].delta == Held(s)[k])
    && (forall j, k | 0 <= j < k < |s.log| :: s.log[j] != s.log[k])
    && (forall p | 0 <= p < |s.pushers| && Appending(s.pushers[p]) :: p in s.log)
  }

  /** The buffer is closed exactly when the flusher has returned. */
  ghost predicate ClosedOnce(s: System) {
    s.buffer.Closed? <==> s.flusher.Done?
  }

  ghost predicate ReasonHolds(s: System) {
    s.flusher.Done? ==>
      && s.flusher.result.round == s.round
      && (s.flusher.result.reason.Quorum? ==> |s.flusher.result.deltas| >= s.quorum)
  }

  ghost predicate RightRound(s: System) {
    && (forall k | 0 <= k < |Held(s)| :: Held(s)[k].round == s.round)
    && (forall p | 0 <= p < |s.pushers| && s.pushers[p].Refused? ::
          match s.pushers[p].error
          case WrongRound(e, g) => e == s.round && g == s.pushers[p].delta.round != s.round
          case BufferClosed => s.buffer.Closed? && s.pushers[p].delta.round == s.round)
  }

  predicate QuorumMet(s: System) {
    s.buffer.Open? && |s.buffer.deltas| >= s.quorum
  }

  predicate SomeoneToNotify(s: System) {
    exists p :: 0 <= p < |s.pushers| && s.pushers[p].Appended?
  }

  /** No lost wakeup: past its check or parked while the quorum is met, the flusher has a permit to
      find, or some appended push has still to notify. */
  predicate NoLostWakeup(s: System) {
    && (s.flusher.Waiting? ==> !s.permit)
    && ((s.flusher.PastCheck? || s.flusher.AboutToWait? || s.flusher.Waiting?) && QuorumMet(s) ==>
          s.permit || SomeoneToNotify(s))
  }

  ghost predicate Invariant(s: System) {
    ExactlyOnce(s) && ClosedOnce(s) && ReasonHolds(s) && RightRound(s) && NoLostWakeup(s)
  }

  // ----- every step keeps the invariant -----

  lemma LockKeepsExactlyOnce(s: System, p: nat)
    requires Invariant(s) && Enabled(s, Lock(p))
    ensures ExactlyOnce(Next(s, Lock(p)))
  {
    var s' := Next(s, Lock(p));
    if s'.pushers[p].Refused? {
      assert s'.log == s.log && Held(s') == Held(s);
    } else {
      assert s'.log == s.log + [p] && Held(s') == Held(s) + [s.pushers[p].delta];
    }
    forall q | 0 <= q < |s'.pushers| && Appending(s'.pushers[q]) ensures q in s'.log {
      if q != p {
        assert s'.pushers[q] == s.pushers[q];
        assert q in s.log;
      } else {
        assert s'.log[|s.log|] == p;
      }
    }
  }

  lemma NotifyKeepsExactlyOnce(s: System, p: nat)
    requires Invariant(s) && Enabled(s, Notify(p))
    ensures ExactlyOnce(Next(s, Notify(p)))
  {
    var s' := Next(s, Notify(p));
    forall q | 0 <= q < |s'.pushers| && Appending(s'.pushers[q]) ensures q in s'.log {
      assert Appending(s.pushers[q]);
    }
  }

  lemma StepKeepsExactlyOnce(s: System, step: Step)
    requires Invariant(s) && Enabled(s, step)
    ensures ExactlyOnce(Next(s, step))
  {
    var s' := Next(s, step);
    match step
    case Lock(p) => LockKeepsExactlyOnce(s, p);
    case Notify(p) => NotifyKeepsExactlyOnce(s, p);
    case Arrive(d) =>
      forall q | 0 <= q < |s'.pushers| && Appending(s'.pushers[q]) ensures q in s'.log {
        assert s'.pushers[q] == s.pushers[q];
      }
    case _ =>
      assert Held(s') == Held(s) && s'.log == s.log && s'.pushers == s.pushers;
  }

  lemma StepKeepsWakeup(s: System, step: Step)
    requires Invariant(s) && Enabled(s, step)
    ensures NoLostWakeup(Next(s, step))
  {
    var s' := Next(s, step);
    match step
    case Lock(p) =>
      // A push that lands now is itself the one still to notify.
      if s'.pushers[p].Appended? {
        assert SomeoneToNotify(s');
      } else if SomeoneToNotify(s) {
        var q :| 0 <= q < |s.pushers| && s.pushers[q].Appended?;
        assert s'.pushers[q].Appended?;
      }
    case Arrive(_) =>
      if SomeoneToNotify(s) {
        var q :| 0 <= q < |s.pushers| && s.pushers[q].Appended?;
        assert s'.pushers[q].Appended?;
      }
    case _ =>
  }

  lemma StepKeepsReasons(s: System, step: Step)
    requires Invariant(s) && Enabled(s, step)
    ensures ClosedOnce(Next(s, step)) && ReasonHolds(Next(s, step))
  {
    hide ExactlyOnce, RightRound, NoLostWakeup;
  }

  lemma LockKeepsRounds(s: System, p: nat)
    requires Invariant(s) && Enabled(s, Lock(p))
    ensures RightRound(Next(s, Lock(p)))
  {
    hide ExactlyOnce, NoLostWakeup;
    var s', d := Next(s, Lock(p)), s.pushers[p].delta;
    if s'.pushers[p].Refused? {
      assert Held(s') == Held(s);
    } else {
      assert Held(s') == Held(s) + [d];
    }
    forall q | 0 <= q < |s'.pushers| && q != p ensures s'.pushers[q] == s.pushers[q] {
    }
  }

  lemma StepKeepsRounds(s: System, step: Step)
    requires Invariant(s) && Enabled(s, step)
    ensures RightRound(Next(s, step))
  {
    hide ExactlyOnce, NoLostWakeup;
    var s' := Next(s, step);
    match step
    case Lock(p) =>
      LockKeepsRounds(s, p);
    case Notify(p) =>
      assert Held(s') == Held(s);
      forall q | 0 <= q < |s'.pushers| && q != p ensures s'.pushers[q] == s.pushers[q] {
      }
    case Arrive(_) =>
      assert Held(s') == Held(s);
      forall q | 0 <= q < |s'.pushers| && s'.pushers[q].Refused? ensures s'.pushers[q] == s.pushers[q] {
      }
    case _ =>
      assert Held(s') == Held(s) && s'.pushers == s.pushers;
  }

  /** Every step of every interleaving keeps the invariant. */
  lemma StepKeepsInvariant(s: System, step: Step)
    requires Invariant(s) && Enabled(s, step)
    ensures Invariant(Next(s, step))
  {
    StepKeepsExactlyOnce(s, step);
    StepKeepsWakeup(s, step);
    StepKeepsRounds(s, step);
    StepKeepsReasons(s, step);
    hide ExactlyOnce, NoLostWakeup, RightRound, ReasonHolds, ClosedOnce, Next;
  }

  /** The system after a sequence of steps, or `None` if one was not possible in its turn. */
  function Run(round: nat, quorum: nat, steps: seq<Step>): Option<System> {
    if |steps| == 0 then Some(Initial(round, quorum))
    else
      var before := Run(round, quorum, steps[..|steps|-1]);
      if before.Some? && Enabled(before.value, steps[|steps|-1])
      then Some(Next(before.value, steps[|steps|-1]))
      else None
  }

  /** Safety over every run: every accepted delta is held exactly once, in the open buffer or in the
      flushed batch, in the order of acceptance; a quorum flush has a quorum; no wakeup is lost. */
  lemma {:induction false} RunKeepsInvariant(round: nat, quorum: nat, steps: seq<Step>)
    ensures var s := Run(round, quorum, steps);
      s.Some? ==> Invariant(s.value) && s.value.round == round && s.value.quorum == quorum
  {
    if |steps| > 0 {
      RunKeepsInvariant(round, quorum, steps[..|steps|-1]);
      var before := Run(round, quorum, steps[..|steps|-1]);
      if before.Some? && Enabled(before.value, steps[|steps|-1]) {
        StepKeepsInvariant(before.value, steps[|steps|-1]);
      }
    }
  }

  // ----- consequences -----

  /** The number of pushes told they were accepted, or about to be. */
  function AcceptedSet(s: System): set<nat> {
    set p: nat | p < |s.pushers| && Appending(s.pushers[p])
  }

  /** As many deltas are held as pushes were accepted: none is lost and none doubled. */
  lemma AcceptedAreHeld(round: nat, quorum: nat, steps: seq<Step>)
    requires Run(round, quorum, steps).Some?
    ensures var s := Run(round, quorum, steps).value; |AcceptedSet(s)| == |Held(s)|
  {
    RunKeepsInvariant(round, quorum, steps);
    var s := Run(round, quorum, steps).value;
    DistinctSetSize(s.log);
    forall p | p in s.log ensures p in AcceptedSet(s) {
      var k :| 0 <= k < |s.log| && s.log[k] == p;
    }
    assert AcceptedSet(s) == Members(s.log);
  }

  /** Once flushed, the result never changes and every later push is refused. */
  lemma FlushIsFinal(round: nat, quorum: nat, steps: seq<Step>, step: Step)
    requires Run(round, quorum, steps).Some? && Run(round, quorum, steps).value.flusher.Done?
    requires Enabled(Run(round, quorum, steps).value, step)
    ensures var s := Run(round, quorum, steps).value;
      && Next(s, step).flusher == s.flusher && Next(s, step).log == s.log
      && (step.Lock? ==> Next(s, step).pushers[step.p].Refused?)
  {
    RunKeepsInvariant(round, quorum, steps);
  }

  function Follow(s: System, steps: seq<Step>): Option<System>
    decreases |steps|
  {
    if |steps| == 0 then Some(s)
    else if Enabled(s, steps[0]) then Follow(Next(s, steps[0]), steps[1..])
    else None
  }

  // ----- a met quorum is served -----

  /** The steps only the flusher takes; the others are the pushers'. */
  predicate FlusherStep(step: Step) {
    !step.Arrive? && !step.Lock? && !step.Notify?
  }

  function FlusherSteps(steps: seq<Step>): nat {
    if |steps| == 0 then 0 else (if FlusherStep(steps[0]) then 1 else 0) + FlusherSteps(steps[1..])
  }

  /** The quorum is met and the flusher is on its way back to the check. */
  predicate Serving(s: System) {
    && QuorumMet(s)
    && (s.flusher.AtCheck? || s.flusher.Woken? || ((s.flusher.PastCheck? || s.flusher.AboutToWait?) && s.permit))
  }

  /** How many steps of its own that takes. */
  function StepsLeft(s: System): nat {
    match s.flusher
    case PastCheck => 3
    case AboutToWait => 2
    case Woken => 2
    case AtCheck => 1
    case _ => 0
  }

  /** With the quorum met before the deadline, the flusher is on its way or a push has still to notify,
      and that notification sends it on its way. */
  lemma QuorumIsNoticed(round: nat, quorum: nat, steps: seq<Step>)
    requires Run(round, quorum, steps).Some?
    requires QuorumMet(Run(round, quorum, steps).value) && !Run(round, quorum, steps).value.flusher.Expired?
    ensures var s := Run(round, quorum, steps).value;
      && (Serving(s) || SomeoneToNotify(s))
      && forall p: nat | Enabled(s, Notify(p)) :: Serving(Next(s, Notify(p)))
  {
    RunKeepsInvariant(round, quorum, steps);
    hide ExactlyOnce, RightRound, Run;
  }

  /** Once on its way, whatever the pushers do between its steps, the flusher is never parked: each step
      it takes before the deadline brings it one nearer, and the last flushes with reason Quorum. */
  lemma {:induction false} ServedAmidst(s: System, more: seq<Step>)
    requires Serving(s) && Follow(s, more).Some?
    requires forall k | 0 <= k < |more| :: more[k] != ReadClock(true)
    ensures var t, n := Follow(s, more).value, FlusherSteps(more);
      && n <= StepsLeft(s) <= 3
      && (n < StepsLeft(s) ==> Serving(t) && StepsLeft(t) == StepsLeft(s) - n && s.buffer.deltas <= t.buffer.deltas)
      && (n == StepsLeft(s) ==>
            && t.flusher.Done? && t.flusher.result.round == s.round && t.flusher.result.reason == Quorum
            && s.buffer.deltas <= t.flusher.result.deltas)
    decreases |more|
  {
    if |more| > 0 {
      var next, rest := Next(s, more[0]), more[1..];
      if next.flusher.Done? {
        DoneStays(next, rest);
      } else {
        ServedAmidst(next, rest);
      }
    }
  }

  /** Once it has returned, only the pushers step. */
  lemma {:induction false} DoneStays(s: System, more: seq<Step>)
    requires s.flusher.Done? && Follow(s, more).Some?
    ensures Follow(s, more).value.flusher == s.flusher && FlusherSteps(more) == 0
    decreases |more|
  {
    if |more| > 0 { DoneStays(Next(s, more[0]), more[1..]); }
  }

  /** With the quorum met, no push half done and the deadline ahead, every interleaving of further steps
      serves it: by its third step at the latest the flusher has flushed everything held, and whatever
      was pushed meanwhile, with reason Quorum; until then it always has a step to take. */
  lemma QuorumIsServed(round: nat, quorum: nat, steps: seq<Step>, more: seq<Step>)
    requires Run(round, quorum, steps).Some?
    requires var s := Run(round, quorum, steps).value;
      QuorumMet(s) && !SomeoneToNotify(s) && !s.flusher.Expired? && Follow(s, more).Some?
    requires forall k | 0 <= k < |more| :: more[k] != ReadClock(true)
    ensures var s, n := Run(round, quorum, steps).value, FlusherSteps(more);
      var t := Follow(s, more).value;
      && n <= StepsLeft(s) <= 3
      && (n < StepsLeft(s) ==> exists step :: FlusherStep(step) && step != ReadClock(true) && Enabled(t, step))
      && (n == StepsLeft(s) ==>
            && t.flusher.Done? && t.flusher.result.round == round && t.flusher.result.reason == Quorum
            && s.buffer.deltas <= t.flusher.result.deltas)
  {
    RunKeepsInvariant(round, quorum, steps);
    QuorumIsNoticed(round, quorum, steps);
    var s := Run(round, quorum, steps).value;
    ServedAmidst(s, more);
    var t := Follow(s, more).value;
    hide Run, Follow, FlusherSteps, Invariant, SomeoneToNotify;
    if FlusherSteps(more) < StepsLeft(s) {
      var step := match t.flusher
        case PastCheck => ReadClock(false)
        case AboutToWait => BeginWait
        case Woken => WakeUp
        case _ => Check;
      assert FlusherStep(step) && Enabled(t, step);
    }
  }

  // ----- what a timeout flush holds -----

  /** A push of this round taking the lock while the buffer is open. */
  predicate Lands(s: System, step: Step)
    requires Enabled(s, step)
  {
    step.Lock? && s.buffer.Open? && s.pushers[step.p].delta.round == s.round
  }

  /** How many pushes land during `steps`. */
  function Landings(s: System, steps: seq<Step>): nat
    requires Follow(s, steps).Some?
    decreases |steps|
  {
    if |steps| == 0 then 0
    else (if Lands(s, steps[0]) then 1 else 0) + Landings(Next(s, steps[0]), steps[1..])
  }

  /** The flusher neither checks nor closes during `steps`. */
  predicate Unclosed(steps: seq<Step>) {
    forall k | 0 <= k < |steps| :: steps[k] != Check && steps[k] != Close
  }

  lemma {:induction false} LandingsAreHeld(s: System, mid: seq<Step>)
    requires s.buffer.Open? && Unclosed(mid) && Follow(s, mid).Some?
    ensures var t := Follow(s, mid).value;
      && t.buffer.Open? && s.buffer.deltas <= t.buffer.deltas
      && |t.buffer.deltas| == |s.buffer.deltas| + Landings(s, mid)
      && t.round == s.round && t.quorum == s.quorum
    decreases |mid|
  {
    if |mid| > 0 {
      assert mid[0] != Check && mid[0] != Close;
      LandingsAreHeld(Next(s, mid[0]), mid[1..]);
    }
  }

  /** The check fails in s. */
  predicate CheckFails(s: System) {
    Enabled(s, Check) && s.buffer.Open? && |s.buffer.deltas| < s.quorum
  }

  /** After a failed check, a timeout flush holds what was held then and what has landed since. So it
      holds a quorum exactly when enough has landed, and never when nothing has. */
  lemma TimeoutHoldsQuorumIff(s: System, mid: seq<Step>)
    requires CheckFails(s) && Unclosed(mid)
    requires Follow(Next(s, Check), mid).Some? && Enabled(Follow(Next(s, Check), mid).value, Close)
    ensures var landed := Landings(Next(s, Check), mid);
      var end := Next(Follow(Next(s, Check), mid).value, Close);
      && end.flusher.Done? && end.flusher.result.reason == Timeout
      && s.buffer.deltas <= end.flusher.result.deltas
      && |end.flusher.result.deltas| == |s.buffer.deltas| + landed
      && (|end.flusher.result.deltas| >= s.quorum <==> landed >= s.quorum - |s.buffer.deltas|)
      && (landed == 0 ==> end.flusher.result.deltas == s.buffer.deltas && |end.flusher.result.deltas| < s.quorum)
  {
    LandingsAreHeld(Next(s, Check), mid);
  }

  /** Step i of the run is a check that fails, and step j the next check or close, a close. */
  predicate TimesOut(round: nat, quorum: nat, steps: seq<Step>, i: nat, j: nat) {
    && i < j < |steps| && steps[i] == Check && steps[j] == Close && Unclosed(steps[i+1..j])
    && Run(round, quorum, steps[..i]).Some? && CheckFails(Run(round, quorum, steps[..i]).value)
    && var s := Next(Run(round, quorum, steps[..i]).value, Check);
       && Follow(s, steps[i+1..j]).Some? && Enabled(Follow(s, steps[i+1..j]).value, Close)
  }

  /** And the run's batch is what was held at i and what has landed between i and j. */
  predicate TimedOutWith(round: nat, quorum: nat, steps: seq<Step>, i: nat, j: nat) {
    && TimesOut(round, quorum, steps, i, j)
    && Run(round, quorum, steps).Some? && Run(round, quorum, steps).value.flusher.Done?
    && var before := Run(round, quorum, steps[..i]).value;
       var landed := Landings(Next(before, Check), steps[i+1..j]);
       var batch := Run(round, quorum, steps).value.flusher.result.deltas;
       && before.buffer.deltas <= batch && |batch| == |before.buffer.deltas| + landed
       && (|batch| >= quorum <==> landed >= quorum - |before.buffer.deltas|)
  }

  /** Every timeout flush of every run is of that form, so the condition above is exact for all of them. */
  lemma {:induction false} EveryTimeoutFollowsAFailedCheck(round: nat, quorum: nat, steps: seq<Step>)
    requires Run(round, quorum, steps).Some?
    requires var s := Run(round, quorum, steps).value; s.flusher.Done? && s.flusher.result.reason == Timeout
    ensures exists i: nat, j: nat :: TimedOutWith(round, quorum, steps, i, j)
  {
    hide Invariant, Landings, Run, Follow;
    var n := |steps| - 1;
    RunEnds(round, quorum, steps);
    if steps[n] == Close {
      var i := LastCheckFailed(round, quorum, steps[..n]);
      assert steps[..n][..i] == steps[..i] && steps[..n][i+1..] == steps[i+1..n];
      QuorumIsFixed(round, quorum, steps[..i]);
      TimeoutHoldsQuorumIff(Run(round, quorum, steps[..i]).value, steps[i+1..n]);
      assert TimesOut(round, quorum, steps, i, n);
      assert TimedOutWith(round, quorum, steps, i, n);
    } else {
      EveryTimeoutFollowsAFailedCheck(round, quorum, steps[..n]);
      var i: nat, j: nat :| TimedOutWith(round, quorum, steps[..n], i, j);
      assert steps[..n][..i] == steps[..i] && steps[..n][i+1..j] == steps[i+1..j];
      assert TimedOutWith(round, quorum, steps, i, j);
    }
  }

  /** A deadline is compared only after a failed check, with none since. */
  lemma {:induction false} LastCheckFailed(round: nat, quorum: nat, steps: seq<Step>) returns (i: nat)
    requires Run(round, quorum, steps).Some?
    requires var f := Run(round, quorum, steps).value.flusher; f.PastCheck? || f.Expired?
    ensures i < |steps| && steps[i] == Check && Unclosed(steps[i+1..])
    ensures Run(round, quorum, steps[..i]).Some? && CheckFails(Run(round, quorum, steps[..i]).value)
    ensures Follow(Next(Run(round, quorum, steps[..i]).value, Check), steps[i+1..]) == Run(round, quorum, steps)
  {
    hide Invariant, Run, Follow, Next;
    var n := |steps| - 1;
    RunEnds(round, quorum, steps);
    PastFailedCheck(Run(round, quorum, steps[..n]).value, steps[n]);
    if steps[n] == Check {
      i := n;
      FollowNothing(Next(Run(round, quorum, steps[..n]).value, Check));
      assert steps[i+1..] == [];
    } else {
      i := LastCheckFailed(round, quorum, steps[..n]);
      assert steps[..n][..i] == steps[..i] && steps[..n][i+1..] + [steps[n]] == steps[i+1..];
      FollowSnoc(Next(Run(round, quorum, steps[..i]).value, Check), steps[..n][i+1..], steps[n]);
    }
  }

  lemma QuorumIsFixed(round: nat, quorum: nat, steps: seq<Step>)
    requires Run(round, quorum, steps).Some?
    ensures Run(round, quorum, steps).value.quorum == quorum
  {
    RunKeepsInvariant(round, quorum, steps);
  }

  lemma RunEnds(round: nat, quorum: nat, steps: seq<Step>)
    requires Run(round, quorum, steps).Some?
    requires !Run(round, quorum, steps).value.flusher.AtCheck?
    ensures |steps| > 0
    ensures var s := Run(round, quorum, steps[..|steps|-1]);
      && s.Some? && ClosedOnce(s.value) && s.value.quorum == quorum
      && Enabled(s.value, steps[|steps|-1]) && Run(round, quorum, steps) == Some(Next(s.value, steps[|steps|-1]))
  {
    hide ExactlyOnce, RightRound, NoLostWakeup, ReasonHolds, Next, Enabled;
    if |steps| > 0 { RunKeepsInvariant(round, quorum, steps[..|steps|-1]); }
  }

  lemma PastFailedCheck(s: System, step: Step)
    requires Enabled(s, step) && ClosedOnce(s)
    requires Next(s, step).flusher.PastCheck? || Next(s, step).flusher.Expired?
    ensures step != Close
    ensures if step == Check then CheckFails(s) else s.flusher.PastCheck? || s.flusher.Expired?
  {
  }

  lemma FollowNothing(s: System)
    ensures Follow(s, []) == Some(s)
  {
  }

  lemma {:induction false} FollowSnoc(s: System, steps: seq<Step>, step: Step)
    requires Follow(s, steps).Some? && Enabled(Follow(s, steps).value, step)
    ensures Follow(s, steps + [step]) == Some(Next(Follow(s, steps).value, step))
    decreases |steps|
  {
    if |steps| > 0 {
      FollowSnoc(Next(s, steps[0]), steps[1..], step);
      assert (steps + [step])[1..] == steps[1..] + [step];
    } else {
      assert (steps + [step])[1..] == [];
    }
  }

  /** A timeout flush can still hold a quorum: the push lands after the check and before the close. */
  lemma TimeoutMayHoldQuorum()
    ensures var d := Delta(1, 0);
      var steps := [Arrive(d), Check, ReadClock(true), Lock(0), Close];
      && Run(1, 1, steps).Some?
      && Run(1, 1, steps).value.flusher == Done(FlushResult(1, Timeout, [d]))
  {
    var d := Delta(1, 0);
    var s0 := Initial(1, 1);
    var s3 := s0.(pushers := [Ready(d)], flusher := Expired);
    var s4 := System(1, 1, Open([d]), false, Expired, [Appended(d)], [0]);
    assert s3.pushers[0 := Appended(d)] == [Appended(d)] && s3.log + [0] == [0] && [] + [d] == [d];
    assert Next(s3, Lock(0)) == s4;
    assert s0.pushers + [Ready(d)] == [Ready(d)];
    hide Run;
    assert Run(1, 1, []) == Some(s0) by { RunNothing(1, 1); }
    var t1 := [] + [Arrive(d)];
    var t2 := t1 + [Check];
    var t3 := t2 + [ReadClock(true)];
    var t4 := t3 + [Lock(0)];
    RunSnoc(1, 1, [], Arrive(d));
    RunSnoc(1, 1, t1, Check);
    RunSnoc(1, 1, t2, ReadClock(true));
    RunSnoc(1, 1, t3, Lock(0));
    RunSnoc(1, 1, t4, Close);
    assert t4 + [Close] == [Arrive(d), Check, ReadClock(true), Lock(0), Close];
  }

  lemma RunNothing(round: nat, quorum: nat)
    ensures Run(round, quorum, []) == Some(Initial(round, quorum))
  {
  }

  lemma RunSnoc(round: nat, quorum: nat, steps: seq<Step>, step: Step)
    requires Run(round, quorum, steps).Some? && Enabled(Run(round, quorum, steps).value, step)
    ensures Run(round, quorum, steps + [step]) == Some(Next(Run(round, quorum, steps).value, step))
  {
    assert (steps + [step])[..|steps|] == steps;
  }
}
