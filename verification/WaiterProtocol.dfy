/**
How callers of the asynchronous waiter wake its worker: a request is queued, a shared flag is compared and swapped,
and whoever set the flag writes one message to the waking pipe.  Callers and the worker are interleaved step by step.
*/
module WaiterProtocol {

  /** Where the worker is: waiting for handles, about to clear the flag, about to read the message, or draining. */
  datatype Worker = Waiting | Woken | Interrupted | Reading | Draining

  /**
  A call of `AsyncWait` or `CancelWait` is a number that is used once.  `sent` are the calls that have queued their
  request and not yet reached the compare-and-swap; `committed` are those that won it and still have to write.
  */
  datatype State = State(notified: bool, pipe: nat, waitChan: seq<nat>, cancelChan: seq<nat>,
                         sent: set<nat>, committed: set<nat>, issued: set<nat>, worker: Worker)

  const CAPACITY := 10

  datatype Step =
    | SendWait(call: nat)    // waitChan <- request
    | SendCancel(call: nat)  // cancelChan <- id
    | Swap(call: nat)        // the compare-and-swap, won or lost
    | Write(call: nat)       // the message to the pipe
    | Wake                   // WaitMany returns the waking handle
    | Interrupt              // WaitMany returns another handle
    | Clear                  // the flag is set to 0
    | Read                   // the message is read
    | TakeWait               // one request is received
    | TakeCancel
    | Drained                // both channels were empty

  const Init := State(false, 0, [], [], {}, {}, {}, Waiting)

  predicate Enabled(s: State, step: Step) {
    match step
    case SendWait(c) => c !in s.issued && |s.waitChan| < CAPACITY
    case SendCancel(c) => c !in s.issued && |s.cancelChan| < CAPACITY
    case Swap(c) => c in s.sent
    case Write(c) => c in s.committed
    case Wake => s.worker == Waiting && s.pipe > 0
    case Interrupt => s.worker == Waiting
    case Clear => s.worker == Woken || s.worker == Interrupted
    case Read => s.worker == Reading && s.pipe > 0
    case TakeWait => s.worker == Draining && s.waitChan != []
    case TakeCancel => s.worker == Draining && s.cancelChan != []
    case Drained => s.worker == Draining && s.waitChan == [] && s.cancelChan == []
  }

  function Next(s: State, step: Step): State
    requires Enabled(s, step)
  {
    match step
    case SendWait(c) => s.(waitChan := s.waitChan + [c], sent := s.sent + {c}, issued := s.issued + {c})
    case SendCancel(c) => s.(cancelChan := s.cancelChan + [c], sent := s.sent + {c}, issued := s.issued + {c})
    case Swap(c) =>
      if s.notified then s.(sent := s.sent - {c})
      else s.(notified := true, sent := s.sent - {c}, committed := s.committed + {c})
    case Write(c) => s.(pipe := s.pipe + 1, committed := s.committed - {c})
    case Wake => s.(worker := Woken)
    case Interrupt => s.(worker := Interrupted)
    case Clear => s.(notified := false, worker := if s.worker == Woken then Reading else Waiting)
    case Read => s.(pipe := s.pipe - 1, worker := Draining)
    case TakeWait => s.(waitChan := s.waitChan[1..])
    case TakeCancel => s.(cancelChan := s.cancelChan[1..])
    case Drained => s.(worker := Waiting)
  }

  predicate CanRun(s: State, steps: seq<Step>)
    decreases |steps|
  {
    steps == [] || (Enabled(s, steps[0]) && CanRun(Next(s, steps[0]), steps[1..]))
  }

  function Run(s: State, steps: seq<Step>): State
    requires CanRun(s, steps)
    decreases |steps|
  {
    if steps == [] then s else Run(Next(s, steps[0]), steps[1..])
  }

  // ---------------------------------------------------------------- the invariant

  /** Messages in the pipe and messages that a caller is about to write. */
  function Signals(s: State): nat {
    s.pipe + |s.committed|
  }

  /** An undrained request of a call that is past its compare-and-swap. */
  predicate Pending(s: State, call: nat) {
    (call in s.waitChan || call in s.cancelChan) && call !in s.sent
  }

  ghost predicate Inv(s: State) {
    && s.sent <= s.issued
    && (forall c | c in s.waitChan || c in s.cancelChan :: c in s.issued)
    && (s.worker == Woken || s.worker == Reading ==> s.pipe > 0)
    && (s.notified ==> Signals(s) >= if s.worker == Reading then 2 else 1)
    && (forall c | Pending(s, c) :: Signals(s) > 0 || s.worker == Draining)
  }

  lemma StepKeepsInv(s: State, step: Step)
    requires Inv(s) && Enabled(s, step)
    ensures Inv(Next(s, step))
  {
    var s' := Next(s, step);
    match step
    case Swap(c) =>
      if !s.notified && c !in s.committed {
        assert |s'.committed| == |s.committed| + 1;
      }
      assert c in s'.committed ==> |s'.committed| > 0;
    case Write(c) => assert |s'.committed| == |s.committed| - 1;
    case _ =>
      assert forall c :: Pending(s', c) ==> Pending(s, c);
  }

  lemma {:induction false} RunKeepsInv(s: State, steps: seq<Step>)
    requires Inv(s) && CanRun(s, steps)
    ensures Inv(Run(s, steps))
    decreases |steps|
  {
    if steps != [] {
      StepKeepsInv(s, steps[0]);
      RunKeepsInv(Next(s, steps[0]), steps[1..]);
    }
  }

  /**
  No wake-up is lost: in every interleaving, if the worker is about to block while a request waits whose caller is
  past its compare-and-swap, the pipe holds a message or some caller is committed to writing one.
  */
  lemma NoLostWakeUp(steps: seq<Step>, call: nat)
    requires CanRun(Init, steps)
    ensures var s := Run(Init, steps);
      s.worker == Waiting && Pending(s, call) ==> s.pipe > 0 || s.committed != {}
  {
    RunKeepsInv(Init, steps);
  }

  // ---------------------------------------------------------------- every request is served

  /** Steps that do not come from outside: no new calls, no other handle becomes ready. */
  predicate Internal(step: Step) {
    !step.SendWait? && !step.SendCancel? && !step.Interrupt?
  }

  function WorkerWeight(w: Worker): nat {
    match w
    case Draining => 6
    case Interrupted => 6
    case Waiting => 5
    case Woken => 4
    case Reading => 3
  }

  function Work(s: State): nat {
    8 * |s.sent| + 7 * |s.committed| + 6 * s.pipe + |s.waitChan| + |s.cancelChan| + WorkerWeight(s.worker)
  }

  lemma InternalStepsEnd(s: State, step: Step)
    requires Enabled(s, step) && Internal(step)
    ensures Work(Next(s, step)) < Work(s)
  {
    match step
    case Swap(c) =>
      assert |s.sent - {c}| == |s.sent| - 1;
      assert |s.committed + {c}| <= |s.committed| + 1 by { SetGrows(s.committed, c); }
    case Write(c) => assert |s.committed - {c}| == |s.committed| - 1;
    case _ =>
  }

  lemma SetGrows(a: set<nat>, c: nat)
    ensures |a + {c}| <= |a| + 1
  {
    if c in a { assert a + {c} == a; }
  }

  predicate AllInternal(steps: seq<Step>) {
    forall i | 0 <= i < |steps| :: Internal(steps[i])
  }

  lemma {:induction false} InternalRunsAreShort(s: State, steps: seq<Step>)
    requires CanRun(s, steps) && AllInternal(steps)
    ensures |steps| + Work(Run(s, steps)) <= Work(s)
    decreases |steps|
  {
    if steps != [] {
      InternalStepsEnd(s, steps[0]);
      InternalRunsAreShort(Next(s, steps[0]), steps[1..]);
    }
  }

  /** Nothing can happen any more unless somebody calls or another handle becomes ready. */
  ghost predicate Quiet(s: State) {
    forall step | Internal(step) :: !Enabled(s, step)
  }

  lemma QuietIsServed(s: State)
    requires Inv(s) && Quiet(s)
    ensures s.waitChan == [] && s.cancelChan == [] && s.sent == {} && s.committed == {} && s.pipe == 0 &&
      s.worker == Waiting
  {
    assert !Enabled(s, Clear) && !Enabled(s, Read) && !Enabled(s, Drained) && !Enabled(s, TakeWait) &&
      !Enabled(s, TakeCancel);
    assert !Enabled(s, Wake);
    forall c ensures c !in s.sent && c !in s.committed {
      assert !Enabled(s, Swap(c)) && !Enabled(s, Write(c));
    }
    assert s.sent == {} && s.committed == {};
    if s.waitChan != [] { assert Pending(s, s.waitChan[0]); }
    if s.cancelChan != [] { assert Pending(s, s.cancelChan[0]); }
  }

  /**
  Every request is served: after any run, however the internal steps are scheduled, they come to an end after a
  bounded number of steps, and when none is left both channels are empty and the worker waits with nothing to do.
  */
  lemma EveryRequestIsServed(before: seq<Step>, steps: seq<Step>)
    requires CanRun(Init, before) && CanRun(Run(Init, before), steps) && AllInternal(steps)
    ensures |steps| <= Work(Run(Init, before))
    ensures var s := Run(Run(Init, before), steps);
      Quiet(s) ==> s.waitChan == [] && s.cancelChan == [] && s.committed == {} && s.pipe == 0 && s.worker == Waiting
  {
    RunKeepsInv(Init, before);
    RunKeepsInv(Run(Init, before), steps);
    InternalRunsAreShort(Run(Init, before), steps);
    if Quiet(Run(Run(Init, before), steps)) {
      QuietIsServed(Run(Run(Init, before), steps));
    }
  }
}
