/** `SQLiteStmt.exec` and `SQLiteRows.Next` under a cancellable context: a worker goroutine, an unbuffered
    channel, and an interrupt. */
module Cancellation {
  import opened Text

  datatype Outcome = Fine(value: int) | Interrupted | OtherError(code: int)

  /** What the caller gets. */
  datatype Answer = Worker(o: Outcome) | CtxErr

  datatype Caller = ExecCall | NextCall

  datatype Main =
    | Selecting             // outer select
    | Cancelled             // inner select, entered because ctx is done
    | Interrupting          // its default branch, before the interrupt
    | Joining               // waiting for the worker after the interrupt
    | Returned(a: Answer)

  datatype Worker = Running | Sending(o: Outcome) | Finished(o: Outcome)

  datatype State = State(caller: Caller, main: Main, worker: Worker, ctxDone: bool, interrupts: nat)

  function Init(c: Caller): State {
    State(c, Selecting, Running, false, 0)
  }

  datatype Action =
    | Cancel                // the context is cancelled
    | WorkerEnds(o: Outcome)
    | TakeResult            // rendezvous in the outer select
    | TakeDone              // outer select sees ctx.Done()
    | TakeLate              // rendezvous in the inner select
    | TakeDefault           // the inner select's default: the worker is not ready to send
    | Interrupt
    | Join                  // rendezvous after the interrupt

  /** Main steps come in a fixed order; a rendezvous needs the worker at its send. */
  predicate Enabled(s: State, a: Action) {
    match a
    case Cancel => !s.ctxDone
    case WorkerEnds(_) => s.worker.Running?
    case TakeResult => s.main.Selecting? && s.worker.Sending?
    case TakeDone => s.main.Selecting? && s.ctxDone
    case TakeLate => s.main.Cancelled? && s.worker.Sending?
    case TakeDefault => s.main.Cancelled? && !s.worker.Sending?
    case Interrupt => s.main.Interrupting?
    case Join => s.main.Joining? && s.worker.Sending?
  }

  /** `exec` returns the result it received; only after its own interrupt, and only for an interrupt error,
      does it return the context's error instead. `Next` returns the context's error on every path that
      starts with the cancellation. */
  function Next(s: State, a: Action): State
    requires Enabled(s, a)
  {
    match a
    case Cancel => s.(ctxDone := true)
    case WorkerEnds(o) => s.(worker := Sending(o))
    case TakeResult => s.(main := Returned(Worker(s.worker.o)), worker := Finished(s.worker.o))
    case TakeDone => s.(main := Cancelled)
    case TakeLate =>
      s.(main := Returned(if s.caller.ExecCall? then Worker(s.worker.o) else CtxErr), worker := Finished(s.worker.o))
    case TakeDefault => s.(main := Interrupting)
    case Interrupt => s.(main := Joining, interrupts := s.interrupts + 1)
    case Join =>
      s.(main := Returned(if s.caller.ExecCall? && !s.worker.o.Interrupted? then Worker(s.worker.o) else CtxErr),
         worker := Finished(s.worker.o))
  }

  predicate Inv(s: State) {
    && (s.main.Returned? <==> s.worker.Finished?)
    && s.interrupts <= 1
    && (s.interrupts == 1 ==> s.ctxDone && (s.main.Joining? || s.main.Returned?))
    && (s.main.Cancelled? || s.main.Interrupting? || s.main.Joining? ==> s.ctxDone)
    && (s.main.Joining? ==> s.interrupts == 1)
    && (s.main.Returned? ==> AnswerOk(s))
  }

  /** The answer of a call that has returned. */
  predicate AnswerOk(s: State)
    requires s.main.Returned? && s.worker.Finished?
  {
    var o := s.worker.o;
    && (s.main.a.CtxErr? ==> s.ctxDone)
    && (s.main.a.Worker? ==> s.main.a.o == o)
    && (s.caller.ExecCall? ==> (s.main.a.CtxErr? <==> s.interrupts == 1 && o.Interrupted?))
    && (s.caller.NextCall? && s.interrupts == 1 ==> s.main.a.CtxErr?)
  }

  lemma StepKeepsInv(s: State, a: Action)
    requires Inv(s) && Enabled(s, a)
    ensures Inv(Next(s, a))
  {
  }

  function Run(c: Caller, steps: seq<Action>): Option<State> {
    if steps == [] then Some(Init(c))
    else
      var n := |steps| - 1;
      var before := Run(c, steps[..n]);
      if before.Some? && Enabled(before.value, steps[n]) then Some(Next(before.value, steps[n])) else None
  }

  lemma {:induction false} RunKeepsInv(c: Caller, steps: seq<Action>)
    requires Run(c, steps).Some?
    ensures Inv(Run(c, steps).value) && Run(c, steps).value.caller == c
  {
    if steps != [] {
      var n := |steps| - 1;
      RunKeepsInv(c, steps[..n]);
      StepKeepsInv(Run(c, steps[..n]).value, steps[n]);
    }
  }

  /** In every interleaving of `exec`: when it returns, the worker's single result has been received, so no
      worker is left blocked on its send; at most one interrupt was sent, and only if the context was
      cancelled; the context's error replaces the result exactly when this call sent an interrupt and the
      result was an interrupt error. */
  lemma ExecHandshake(steps: seq<Action>)
    requires Run(ExecCall, steps).Some?
    ensures var s := Run(ExecCall, steps).value;
      && s.interrupts <= 1 && (s.interrupts == 1 ==> s.ctxDone)
      && (s.main.Returned? <==> s.worker.Finished?)
      && (s.main.Returned? ==>
            s.main.a == if s.interrupts == 1 && s.worker.o.Interrupted? then CtxErr else Worker(s.worker.o))
  {
    RunKeepsInv(ExecCall, steps);
  }

  /** `Next` joins its worker in the same way, but once it has seen the cancellation it drops the result, a
      row included. */
  lemma NextHandshake(steps: seq<Action>)
    requires Run(NextCall, steps).Some?
    ensures var s := Run(NextCall, steps).value;
      && s.interrupts <= 1 && (s.interrupts == 1 ==> s.ctxDone)
      && (s.main.Returned? <==> s.worker.Finished?)
      && (s.main.Returned? ==> s.main.a == if TakeDone in steps then CtxErr else Worker(s.worker.o))
  {
    RunKeepsInv(NextCall, steps);
    SawDone(steps);
  }

  /** When an interrupt is sent, it is the first one, the context is cancelled, and the result has not been
      received. */
  lemma InterruptTiming(c: Caller, steps: seq<Action>)
    requires Run(c, steps).Some? && Enabled(Run(c, steps).value, Action.Interrupt)
    ensures var s := Run(c, steps).value;
      s.ctxDone && s.interrupts == 0 && !s.worker.Finished? && !s.main.Returned?
  {
    RunKeepsInv(c, steps);
  }

  predicate PastSelect(m: Main) {
    m.Cancelled? || m.Interrupting? || m.Joining? || (m.Returned? && m.a.CtxErr?)
  }

  lemma {:induction false} SawDone(steps: seq<Action>)
    requires Run(NextCall, steps).Some?
    ensures PastSelect(Run(NextCall, steps).value.main) <==> TakeDone in steps
  {
    if steps != [] {
      var n := |steps| - 1;
      SawDone(steps[..n]);
      RunKeepsInv(NextCall, steps[..n]);
      assert steps == steps[..n] + [steps[n]];
    }
  }

  /** No run gets stuck before the call has returned: some step other than a cancellation is possible. */
  lemma NeverStuck(c: Caller, steps: seq<Action>)
    requires Run(c, steps).Some? && !Run(c, steps).value.main.Returned?
    ensures exists a :: Enabled(Run(c, steps).value, a) && !a.Cancel?
  {
    RunKeepsInv(c, steps);
    var s := Run(c, steps).value;
    if s.worker.Running? {
      assert Enabled(s, WorkerEnds(Fine(0)));
    } else {
      match s.main
      case Selecting => assert Enabled(s, TakeResult);
      case Cancelled => assert Enabled(s, TakeLate);
      case Interrupting => assert Enabled(s, Action.Interrupt);
      case Joining => assert Enabled(s, Join);
    }
  }

  /** The caller moves by itself: in every reachable state it is blocked exactly while the worker runs and either the
      context is not cancelled and the outer select waits for both, or the interrupt is out and the worker is being
      joined. In particular nothing holds it up between the cancellation and the interrupt. */
  lemma CallerBlockedIff(c: Caller, steps: seq<Action>)
    requires Run(c, steps).Some? && !Run(c, steps).value.main.Returned?
    ensures var s := Run(c, steps).value;
      (forall a :: Enabled(s, a) ==> a.Cancel? || a.WorkerEnds?) <==>
      s.worker.Running? && (s.main.Joining? || (s.main.Selecting? && !s.ctxDone))
  {
    RunKeepsInv(c, steps);
    hide Run, Inv;
    var s := Run(c, steps).value;
    assert s.main.Selecting? && s.ctxDone ==> Enabled(s, TakeDone);
    assert s.main.Selecting? && s.worker.Sending? ==> Enabled(s, TakeResult);
    assert s.main.Cancelled? ==> Enabled(s, TakeDefault) || Enabled(s, TakeLate);
    assert s.main.Interrupting? ==> Enabled(s, Action.Interrupt);
    assert s.main.Joining? && s.worker.Sending? ==> Enabled(s, Join);
    assert s.worker.Running? || s.worker.Sending? by { Unreceived(c, steps); }
  }

  lemma Unreceived(c: Caller, steps: seq<Action>)
    requires Run(c, steps).Some? && !Run(c, steps).value.main.Returned?
    ensures !Run(c, steps).value.worker.Finished?
  {
    RunKeepsInv(c, steps);
  }

  /** The inner select never interrupts a worker that is ready to hand over its result, and never waits for one that
      is not. */
  lemma InnerSelect(s: State)
    requires s.main.Cancelled?
    ensures Enabled(s, TakeLate) <==> s.worker.Sending?
    ensures Enabled(s, TakeDefault) <==> !s.worker.Sending?
    ensures !Enabled(s, TakeResult) && !Enabled(s, Join) && !Enabled(s, Action.Interrupt)
  {
  }

  lemma RunSnoc(c: Caller, steps: seq<Action>, a: Action)
    requires Run(c, steps).Some? && Enabled(Run(c, steps).value, a)
    ensures Run(c, steps + [a]) == Some(Next(Run(c, steps).value, a))
  {
    assert (steps + [a])[..|steps|] == steps;
  }

  /** A cancellation that finds the worker running is passed on: three steps of the caller, which nothing can block,
      send the interrupt, and then the caller waits for the worker. */
  lemma CancelInterrupts(c: Caller, steps: seq<Action>)
    requires Run(c, steps).Some?
    requires var s := Run(c, steps).value; s.main.Selecting? && s.ctxDone && s.worker.Running?
    ensures Run(c, steps + [TakeDone, TakeDefault, Action.Interrupt])
         == Some(Run(c, steps).value.(main := Joining, interrupts := 1))
  {
    RunKeepsInv(c, steps);
    hide Run, Inv;
    RunSnoc(c, steps, TakeDone);
    RunSnoc(c, steps + [TakeDone], TakeDefault);
    RunSnoc(c, steps + [TakeDone] + [TakeDefault], Action.Interrupt);
    assert steps + [TakeDone] + [TakeDefault] + [Action.Interrupt] == steps + [TakeDone, TakeDefault, Action.Interrupt];
    assert Run(c, steps).value.interrupts == 0 by { InterruptsOnce(c, steps); }
  }

  lemma InterruptsOnce(c: Caller, steps: seq<Action>)
    requires Run(c, steps).Some? && Run(c, steps).value.main.Selecting?
    ensures Run(c, steps).value.interrupts == 0
  {
    RunKeepsInv(c, steps);
  }

  /** Without a cancellation the caller gets the worker's result, as soon as there is one. */
  lemma Undisturbed(c: Caller, o: Outcome)
    ensures Run(c, [WorkerEnds(o), TakeResult]) == Some(State(c, Returned(Worker(o)), Finished(o), false, 0))
  {
    assert [WorkerEnds(o), TakeResult][..1] == [WorkerEnds(o)] && [WorkerEnds(o)][..0] == [];
    assert Run(c, []) == Some(Init(c));
    assert Run(c, [WorkerEnds(o)]) == Some(Next(Init(c), WorkerEnds(o)));
  }

  function Left(s: State): nat {
    (match s.main
     case Selecting => 4
     case Cancelled => 3
     case Interrupting => 2
     case Joining => 1
     case Returned(_) => 0)
    + (if s.worker.Running? then 1 else 0) + if s.ctxDone then 0 else 1
  }

  /** And no run goes on forever: six steps at most. */
  lemma {:induction false} RunBounded(c: Caller, steps: seq<Action>)
    requires Run(c, steps).Some?
    ensures |steps| + Left(Run(c, steps).value) <= 6
  {
    if steps != [] {
      RunBounded(c, steps[..|steps| - 1]);
    }
  }
}
