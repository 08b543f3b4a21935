/** Which answer a retried request of the flow ends with, and how a flow that throws is shown. */
module SwapFlowRetries {
  import opened Wrappers
  import opened FlowContext
  import opened SwapFlow
  import opened SwapFlowPolls
  import opened SwapFlowVerified

  /** An error worth another attempt: the network failed, or the server did or was too busy, and did not say
      that the error is permanent. */
  predicate Passing(e: SwapFlow.Error) {
    match e
    case NetworkFault(_) => true
    case ApiFault(status, permanent, _) => !permanent && (status >= 500 || status == 429)
    case OtherFault(_) => false
    case CancelledFault => false
  }

  /** How one attempt at creating a swap comes out: a failed challenge and an abort come before the answer. */
  function Outcome(a: Attempt<Swap>): Result<Swap, SwapFlow.Error> {
    if a.challengeFault.Some? then Err(a.challengeFault.value)
    else if a.aborted then Err(CancelledFault)
    else a.answer
  }

  predicate Retried<T>(r: Result<T, SwapFlow.Error>, abortedAfterPause: bool) {
    r.Err? && Passing(r.error) && !abortedAfterPause
  }

  /** What an attempt that is not followed by another leaves: its answer, its error, or the abort in the pause. */
  function Leaves<T>(r: Result<T, SwapFlow.Error>): Result<T, SwapFlow.Error> {
    if r.Err? && Passing(r.error) then Err(CancelledFault) else r
  }

  lemma TransientIsPassing(e: SwapFlow.Error)
    ensures IsTransient(e) <==> Passing(e)
  {
  }

  lemma AfterFaultIs(v: View, e: SwapFlow.Error, attempt: nat, maxRetries: int, aborted: bool)
    ensures AfterFault(v, e, attempt, maxRetries, aborted).result
         == if !Passing(e) then Err(e) else if aborted then Err(CancelledFault) else Ok(())
  {
    TransientIsPassing(e);
    hide IsTransient, Passing, RetryText, Creating;
  }

  /** Creating a swap ends with the first attempt, of `maxRetries` + 1, that is not retried, or, when all are,
      with the error of the last. */
  lemma {:induction false} CreationEnds(v: View, attempts: nat -> Attempt<Swap>, attempt: nat, maxRetries: int,
                                        last: SwapFlow.Error, k: nat)
    requires attempt <= k
    requires forall i :: attempt <= i < k ==> Retried(Outcome(attempts(i)), attempts(i).abortedAfterPause)
    ensures var r := CreateSwap(v, attempts, attempt, maxRetries, last).result;
      && (k <= maxRetries && !Retried(Outcome(attempts(k)), attempts(k).abortedAfterPause) ==>
            r == Leaves(Outcome(attempts(k))))
      && (k == maxRetries + 1 && attempt < k ==>
            Outcome(attempts(k - 1)).Err? && r == Err(Outcome(attempts(k - 1)).error))
      && (attempt > maxRetries ==> r == Err(last))
    decreases maxRetries - attempt + 1
  {
    hide Passing, AfterFault;
    if attempt <= maxRetries {
      var a := attempts(attempt);
      var w := if a.challengeFault.Some? then v
               else Creating(if attempt == 0 then SetExtra(v, "Creating swap...", Message) else v);
      assert !Passing(CancelledFault) by { CancelIsNotPassing(); }
      if Outcome(a).Err? {
        var e := Outcome(a).error;
        AfterFaultIs(w, e, attempt, maxRetries, a.abortedAfterPause);
        if attempt < k {
          var next := AfterFault(w, e, attempt, maxRetries, a.abortedAfterPause);
          CreationEnds(next.view, attempts, attempt + 1, maxRetries, e, k);
        }
      }
    }
  }

  lemma CancelIsNotPassing()
    ensures !Passing(CancelledFault)
  {
  }

  /** Fetching the detail of a resumed swap, in the same way. */
  lemma {:induction false} FetchEnds(v: View, attempts: nat -> Attempt<Detail>, attempt: nat, maxRetries: int,
                                     last: SwapFlow.Error, k: nat)
    requires attempt <= k && forall i :: attempt <= i < k ==> Retried(attempts(i).answer, attempts(i).abortedAfterPause)
    ensures var r := FetchDetail(v, attempts, attempt, maxRetries, last).result;
      && (k <= maxRetries && !Retried(attempts(k).answer, attempts(k).abortedAfterPause) ==>
            r == Leaves(attempts(k).answer))
      && (k == maxRetries + 1 && attempt < k ==>
            attempts(k - 1).answer.Err? && r == Err(attempts(k - 1).answer.error))
      && (attempt > maxRetries ==> r == Err(last))
    decreases maxRetries - attempt + 1
  {
    hide Passing, AfterFault;
    if attempt <= maxRetries {
      var a := attempts(attempt);
      if a.answer.Err? {
        AfterFaultIs(v, a.answer.error, attempt, maxRetries, a.abortedAfterPause);
        if attempt < k {
          var next := AfterFault(v, a.answer.error, attempt, maxRetries, a.abortedAfterPause);
          FetchEnds(next.view, attempts, attempt + 1, maxRetries, a.answer.error, k);
        }
      }
    }
  }

  /** A flow that throws before any failure was shown ends as cancelled if it was cancelled or is seen aborted,
      and as failed, with the error in its state and its text, otherwise. */
  lemma ErrorIsShown(v: View, e: SwapFlow.Error, aborted: bool)
    requires v.lastPhase != Failed && v.lastPhase != Cancelled
    ensures var w := HandleError(v, e, aborted);
      && |w.emitted| == |v.emitted| + 1 && w.emitted[..|v.emitted|] == v.emitted
      && var shown := w.emitted[|v.emitted|];
      && w.lastPhase == shown.phase
      && (e.CancelledFault? || aborted ==> shown == Emission(Cancelled, v.ctx, Plain))
      && (!e.CancelledFault? && !aborted ==>
            && shown.phase == Failed && shown.payload == Reason(e.text) && shown.snapshot.Some?
            && shown.snapshot.value.extra == Some(Extra(e.text, FlowContext.Error))
            && (v.ctx.Some? ==> shown.snapshot.value == v.ctx.value.(extra := shown.snapshot.value.extra)))
  {
  }

  // ----- how a started flow begins -----

  /** What the user typed, with a text. */
  predicate Typed(c: Context, p: StartParams) {
    && c.fromToken == Some(p.fromToken) && c.toToken == Some(p.toToken) && c.depositAmount == Some(p.amount)
    && c.destAddress == Some(p.destAddress) && c.refundAddress == Some(p.refundAddress)
    && c.provider == Some(p.provider) && c.swapId.None? && c.depositAddr.None? && c.qr.None?
  }

  /** The step takes nothing back. */
  predicate Extends(v: View, w: View) {
    v.emitted <= w.emitted
  }

  lemma {:induction false} CreateSwapExtends(v: View, attempts: nat -> Attempt<Swap>, attempt: nat, maxRetries: int,
                                             last: SwapFlow.Error)
    ensures Extends(v, CreateSwap(v, attempts, attempt, maxRetries, last).view)
    decreases maxRetries - attempt + 1
  {
    if attempt <= maxRetries {
      var a := attempts(attempt);
      var w := if a.challengeFault.Some? then v
               else Creating(if attempt == 0 then SetExtra(v, "Creating swap...", Message) else v);
      if a.challengeFault.Some? || (!a.aborted && a.answer.Err?) {
        var e := if a.challengeFault.Some? then a.challengeFault.value else a.answer.error;
        var next := AfterFault(w, e, attempt, maxRetries, a.abortedAfterPause);
        assert Extends(w, next.view) by { AfterFaultExtends(w, e, attempt, maxRetries, a.abortedAfterPause); }
        if next.result.Ok? { CreateSwapExtends(next.view, attempts, attempt + 1, maxRetries, e); }
      }
      hide AfterFault, RetryText;
    }
  }

  lemma AfterFaultExtends(v: View, e: SwapFlow.Error, attempt: nat, maxRetries: int, aborted: bool)
    ensures Extends(v, AfterFault(v, e, attempt, maxRetries, aborted).view)
  {
    hide RetryText, IsTransient;
  }

  /** A started flow shows that it solves a proof of work, with what the user typed; once the swap is created,
      unless an abort is seen, it shows the swap's number. */
  lemma StartBegins(p: StartParams, sc: StartScript, maxRetries: int)
    ensures var made := Created(p, sc, maxRetries);
      && made.view.emitted != []
      && var first := made.view.emitted[0];
      && first.phase == SolvingPow && first.payload == Plain && first.snapshot.Some? && Typed(first.snapshot.value, p)
      && (made.result.Ok? ==>
            var s, shown := made.result.value, made.view.emitted[|made.view.emitted| - 1];
            && shown.phase == CreatingSwap && shown.payload == Plain && shown.snapshot.Some?
            && shown.snapshot == made.view.ctx
            && shown.snapshot.value.swapId == Some(s.swapNumber)
            && shown.snapshot.value.swapNumber == Some(s.swapNumber))
  {
    hide CreateSwap;
    CreateSwapExtends(Started(p), sc.attempts, 0, maxRetries, NO_ATTEMPT);
  }

  /** A flow seen aborted once its swap is created is cancelled. */
  lemma AbortedStartIsCancelled(p: StartParams, sc: StartScript, maxRetries: int)
    requires CreateSwap(Started(p), sc.attempts, 0, maxRetries, NO_ATTEMPT).result.Ok? && sc.abortedAfterCreate
    ensures Created(p, sc, maxRetries).result == Err(CancelledFault)
    ensures Start(p, sc, maxRetries).lastPhase == Cancelled
  {
    hide CreateSwap, EmitAwaitingDeposit, PollLoop;
  }
}
