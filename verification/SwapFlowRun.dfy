/** The flow as it is written: a context and a last phase updated in place, retry and polling loops.
    Each method is proved to do what the functions of `SwapFlow` say. */
module SwapFlowRun {
  import opened Wrappers
  import opened FlowContext
  import opened SwapFlow
  import SwapFlowPolls
  import SwapFlowSafety
  import SwapFlowVerified

  class Flow {
    const maxRetries: int
    var flowCtx: Option<Context>
    var lastPhase: Phase
    /** Every state handed to the host, in order. */
    var emitted: seq<Emission>

    constructor (maxRetries: int)
      ensures this.maxRetries == maxRetries && Now() == FRESH
    {
      this.maxRetries := maxRetries;
      flowCtx, lastPhase, emitted := None, Idle, [];
    }

    ghost function Now(): View
      reads this
    {
      View(flowCtx, lastPhase, emitted)
    }

    method Announce(e: Emission)
      modifies this
      ensures Now() == Transition(old(Now()), e)
    {
      if e.phase == lastPhase { return; }
      lastPhase := e.phase;
      emitted := emitted + [e];
    }

    method SetText(text: string, kind: ExtraType)
      modifies this
      ensures Now() == SetExtra(old(Now()), text, kind)
    {
      var current := if flowCtx.Some? then flowCtx.value else EMPTY;
      flowCtx := Some(current.(extra := Some(Extra(text, kind))));
    }

    method Require(valid: Context -> bool, phase: string) returns (c: Option<Context>)
      modifies this
      ensures (Now(), c) == Demand(old(Now()), valid, phase)
    {
      if flowCtx.None? {
        Announce(Emission(Failed, flowCtx, Reason("[" + phase + "] " + "FlowContext not initialized")));
        return None;
      }
      if valid(flowCtx.value) { return flowCtx; }
      Announce(Emission(Failed, flowCtx, Reason("[" + phase + "] " + Invalid(phase))));
      return None;
    }

    /** True stands for the `SwapFlowCancelledError` it throws. */
    method ThrowIfAborted(aborted: bool) returns (thrown: bool)
      modifies this
      ensures thrown == aborted && Now() == CheckAborted(old(Now()), aborted).view
    {
      if aborted { Announce(Emission(Cancelled, flowCtx, Plain)); }
      return aborted;
    }

    method Handle(e: SwapFlow.Error, aborted: bool)
      modifies this
      ensures Now() == HandleError(old(Now()), e, aborted)
    {
      if e.CancelledFault? || aborted {
        Announce(Emission(Cancelled, flowCtx, Plain));
        return;
      }
      SetText(e.text, FlowContext.Error);
      Announce(Emission(Failed, flowCtx, Reason(e.text)));
    }

    /** The `catch` block shared by the two retry loops. */
    method Recover(e: SwapFlow.Error, attempt: nat, abortedAfterPause: bool) returns (thrown: Option<SwapFlow.Error>)
      modifies this
      ensures var r := AfterFault(old(Now()), e, attempt, maxRetries, abortedAfterPause);
        Now() == r.view && thrown == if r.result.Err? then Some(r.result.error) else None
    {
      if !IsTransient(e) { return Some(e); }
      SetText(RetryText(attempt, maxRetries), Warning);
      Announce(Emission(CreatingSwap, flowCtx, Plain));
      var aborted := ThrowIfAborted(abortedAfterPause);
      return if aborted then Some(CancelledFault) else None;
    }

    method CreateSwapWithRetry(attempts: nat -> Attempt<Swap>) returns (r: Result<Swap, SwapFlow.Error>)
      modifies this
      ensures Step(Now(), r) == CreateSwap(old(Now()), attempts, 0, maxRetries, NO_ATTEMPT)
    {
      hide AfterFault;
      var lastErr := NO_ATTEMPT;
      var attempt: nat := 0;
      while attempt <= maxRetries
        invariant CreateSwap(old(Now()), attempts, 0, maxRetries, NO_ATTEMPT)
               == CreateSwap(Now(), attempts, attempt, maxRetries, lastErr)
        decreases maxRetries - attempt + 1
      {
        var a := attempts(attempt);
        if a.challengeFault.Some? {
          lastErr := a.challengeFault.value;
        } else {
          var aborted := ThrowIfAborted(a.aborted);
          if aborted { return Err(CancelledFault); }
          if attempt == 0 { SetText("Creating swap...", Message); }
          Announce(Emission(CreatingSwap, flowCtx, Plain));
          if a.answer.Ok? { return Ok(a.answer.value); }
          lastErr := a.answer.error;
        }
        var thrown := Recover(lastErr, attempt, a.abortedAfterPause);
        if thrown.Some? { return Err(thrown.value); }
        attempt := attempt + 1;
      }
      return Err(lastErr);
    }

    method FetchDetailWithRetry(swapId: string, attempts: nat -> Attempt<Detail>)
      returns (r: Result<Detail, SwapFlow.Error>)
      modifies this
      ensures Step(Now(), r) == FetchDetail(old(Now()), attempts, 0, maxRetries, NoFetch(swapId))
    {
      hide AfterFault;
      var lastErr := NoFetch(swapId);
      var attempt: nat := 0;
      while attempt <= maxRetries
        invariant FetchDetail(old(Now()), attempts, 0, maxRetries, NoFetch(swapId))
               == FetchDetail(Now(), attempts, attempt, maxRetries, lastErr)
        decreases maxRetries - attempt + 1
      {
        var a := attempts(attempt);
        if a.answer.Ok? { return Ok(a.answer.value); }
        lastErr := a.answer.error;
        var thrown := Recover(lastErr, attempt, a.abortedAfterPause);
        if thrown.Some? { return Err(thrown.value); }
        attempt := attempt + 1;
      }
      return Err(lastErr);
    }

    method AwaitDeposit(s: Swap, destAddress: string, refundAddress: string, provider: string, g: Gate)
      returns (thrown: Option<SwapFlow.Error>)
      modifies this
      ensures var r := EmitAwaitingDeposit(old(Now()), s, destAddress, refundAddress, provider, g);
        Now() == r.view && thrown == if r.result.Err? then Some(r.result.error) else None
    {
      hide Transition, ValidPopulated, Take, Hydrated, Withheld;
      var verification: Option<Verification> := None;
      if VerifierRuns(s) {
        if g.verdict.Raised? { return Some(g.verdict.error); }
        verification := Some(g.verdict.result);
      }
      var aborted := ThrowIfAborted(g.aborted);
      if aborted { return Some(CancelledFault); }
      var current := if flowCtx.Some? then flowCtx.value else EMPTY;
      if verification.Some? && !verification.value.verified {
        flowCtx := Some(Withheld(current, s, verification.value));
        if ValidBase(flowCtx.value) { Announce(Emission(VerificationFailed, flowCtx, Plain)); }
        return None;
      }
      var pending := Verification(false, provider, [FlowContext.Check("Server verification", false, "Pending")]);
      flowCtx := Some(Hydrated(current, s, destAddress, refundAddress, provider, g.qr, OrElse(verification, pending)));
      SetText("Awaiting deposit to " + Take(OrElse(s.depositAddress, ""), 16) + "...", Message);
      var populated := Require(ValidPopulated, "awaiting-deposit");
      if populated.Some? { Announce(Emission(AwaitingDeposit, populated, Plain)); }
      return None;
    }

    method Terminal(d: Detail, fromToken: string, toToken: string)
      modifies this
      ensures Now() == EmitTerminal(old(Now()), d, fromToken, toToken)
    {
      var current := if flowCtx.Some? then flowCtx.value else EMPTY;
      flowCtx := Some(current.(swapId := Some(d.swap.swapNumber), swapNumber := Some(d.swap.swapNumber),
                               fromToken := Some(fromToken), toToken := Some(toToken),
                               depositAmount := Some(d.swap.amountIn)));
      var ending := TerminalText(d.status);
      SetText(ending.text, ending.kind);
      Announce(TerminalEmission(d, flowCtx));
    }

    method MarkPopulated(d: Detail)
      modifies this
      ensures Now() == Populated(old(Now()), d)
    {
      var marked := flowCtx.Some? && flowCtx.value.verification.Some? && flowCtx.value.verification.value.verified;
      if d.swap.verification.Some? && !marked {
        var current := if flowCtx.Some? then flowCtx.value else EMPTY;
        flowCtx := Some(current.(verification := Some(Verification(true, d.swap.verification.value.provider,
          [FlowContext.Check("Server verification", true, "Populated")]))));
      }
    }

    method PollUntilDone(ticks: seq<Tick>)
      modifies this
      ensures Now() == PollLoop(old(Now()), ticks)
    {
      hide Transition, EmitTerminal, ProgressName, Mapped;
      for k := 0 to |ticks|
        invariant PollLoop(old(Now()), ticks) == PollLoop(Now(), ticks[k..])
      {
        var t := ticks[k];
        assert ticks[k..][0] == t && ticks[k..][1..] == ticks[k + 1..];
        if t.aborted {
          Announce(Emission(Cancelled, flowCtx, Plain));
          return;
        }
        if t.detail.None? { continue; }
        var d := t.detail.value;
        MarkPopulated(d);
        if d.status in TERMINAL_STATUSES {
          Terminal(d, d.fromToken, d.toToken);
          return;
        }
        if !Mapped(d.status) { continue; }
        var progress := ProgressOf(d);
        if progress.Some? {
          var (phase, text, payload) := progress.value;
          SetText(text, Message);
          var verified := Require(ValidVerified, ProgressName(phase));
          if verified.Some? { Announce(Emission(phase, verified, payload)); }
        }
      }
    }

    method Start(p: StartParams, sc: StartScript)
      requires Now() == FRESH
      modifies this
      ensures Now() == SwapFlow.Start(p, sc, maxRetries)
      ensures SwapFlowSafety.ShowsAddress(Now()) <==> SwapFlowSafety.Released(p, sc, maxRetries)
      ensures forall e :: e in emitted && e.snapshot.Some? && Truthy(e.snapshot.value.depositAddr) ==>
        e.snapshot.value.depositAddr == Created(p, sc, maxRetries).result.Extract().depositAddress
      ensures forall e :: e in emitted && SwapFlowSafety.InProgress(e.phase) ==>
        e.snapshot.Some? && ValidVerified(e.snapshot.value)
      ensures SwapFlowPolls.Said(emitted) <==>
        SwapFlowVerified.Accepted(p, sc, maxRetries) || SwapFlowVerified.DataIsShown(p, sc, maxRetries)
    {
      hide Transition, CreateSwap, EmitAwaitingDeposit, PollLoop, HandleError, ValidVerified;
      hide SwapFlowSafety.ShowsAddress, SwapFlowSafety.Released, SwapFlowSafety.InProgress;
      hide SwapFlowPolls.Said, SwapFlowVerified.Accepted, SwapFlowVerified.DataIsShown;
      SwapFlowSafety.AddressShownExactly(p, sc, maxRetries);
      SwapFlowSafety.StartProgressIsValidated(p, sc, maxRetries);
      SwapFlowVerified.VerifiedShownExactly(p, sc, maxRetries);
      flowCtx := Some(EMPTY.(fromToken := Some(p.fromToken), toToken := Some(p.toToken),
                             depositAmount := Some(p.amount), destAddress := Some(p.destAddress),
                             refundAddress := Some(p.refundAddress), provider := Some(p.provider),
                             extra := Some(Extra("Solving proof of work...", Message))));
      Announce(Emission(SolvingPow, flowCtx, Plain));
      var created := CreateSwapWithRetry(sc.attempts);
      if created.Err? {
        Handle(created.error, sc.abortedAtEnd);
        return;
      }
      var swap := created.value;
      var aborted := ThrowIfAborted(sc.abortedAfterCreate);
      if aborted {
        Handle(CancelledFault, sc.abortedAtEnd);
        return;
      }
      var current := if flowCtx.Some? then flowCtx.value else EMPTY;
      flowCtx := Some(current.(swapId := Some(swap.swapNumber), swapNumber := Some(swap.swapNumber)));
      emitted := emitted + [Emission(CreatingSwap, flowCtx, Plain)];
      var thrown := AwaitDeposit(swap, p.destAddress, p.refundAddress, p.provider, sc.gate);
      if thrown.Some? {
        Handle(thrown.value, sc.abortedAtEnd);
        return;
      }
      PollUntilDone(sc.ticks);
    }

    method RestrictedStatus(d: Detail)
      modifies this
      ensures Now() == EmitRestricted(old(Now()), d)
    {
      hide Transition, ProgressName;
      var progress := ProgressOf(d);
      if progress.Some? {
        var (phase, _, payload) := progress.value;
        var base := Require(ValidBase, ProgressName(phase));
        if base.Some? {
          var shown := if payload.Pending? then Pending(None) else Plain;
          Announce(Emission(phase, Some(base.value.(restricted := true)), shown));
        }
      } else if flowCtx.Some? && ValidBase(flowCtx.value) {
        emitted := emitted + [Emission(CreatingSwap, flowCtx, Plain)];
      }
    }

    method PollRestrictedUntilDone(ticks: seq<Tick>)
      modifies this
      ensures Now() == PollLoopRestricted(old(Now()), ticks)
    {
      hide Transition, EmitTerminal, EmitRestricted;
      for k := 0 to |ticks|
        invariant PollLoopRestricted(old(Now()), ticks) == PollLoopRestricted(Now(), ticks[k..])
      {
        var t := ticks[k];
        assert ticks[k..][0] == t && ticks[k..][1..] == ticks[k + 1..];
        if t.aborted {
          Announce(Emission(Cancelled, flowCtx, Plain));
          return;
        }
        if t.detail.None? { continue; }
        var d := t.detail.value;
        if d.status in TERMINAL_STATUSES {
          Terminal(d, d.fromToken, d.toToken);
          return;
        }
        RestrictedStatus(d);
      }
    }

    method TrackRestricted(d: Detail, ticks: seq<Tick>)
      modifies this
      ensures Now() == RunRestricted(old(Now()), d, ticks)
    {
      hide EmitTerminal, EmitRestricted, PollLoopRestricted, Limited;
      var current := if flowCtx.Some? then flowCtx.value else EMPTY;
      flowCtx := Some(Limited(current, d));
      if d.status in TERMINAL_STATUSES {
        Terminal(d, d.fromToken, d.toToken);
        return;
      }
      RestrictedStatus(d);
      PollRestrictedUntilDone(ticks);
    }

    method InitialResumePhase(d: Detail, provider: string, initial: Gate, gate: Gate)
      returns (thrown: Option<SwapFlow.Error>)
      modifies this
      ensures var r := EmitInitialResumePhase(old(Now()), d, provider, initial, gate);
        Now() == r.view && thrown == if r.result.Err? then Some(r.result.error) else None
    {
      hide Transition, EmitAwaitingDeposit, Hydrated, VerifierRuns, ValidVerified;
      var dest, refund := OrElse(d.destAddress, ""), OrElse(d.refundAddress, "");
      if d.status in PRE_DEPOSIT {
        thrown := AwaitDeposit(d.swap, dest, refund, provider, gate);
        return;
      }
      var verification: Option<Verification> := None;
      if VerifierRuns(d.swap) && initial.verdict.Answered? { verification := Some(initial.verdict.result); }
      var resumed := Verification(true, provider, [FlowContext.Check("Server verification", true, "Resumed")]);
      var current := if flowCtx.Some? then flowCtx.value else EMPTY;
      flowCtx := Some(Hydrated(current, d.swap, dest, refund, provider, initial.qr, OrElse(verification, resumed)));
      var verified := Require(ValidVerified, "resume:" + d.status);
      if verified.None? { return None; }
      var progress := ProgressOf(d);
      if progress.Some? {
        var (phase, text, payload) := progress.value;
        SetText(text, Message);
        Announce(Emission(phase, verified, payload));
        return None;
      }
      thrown := AwaitDeposit(d.swap, dest, refund, provider, gate);
    }

    method Resume(p: ResumeParams, sc: ResumeScript)
      requires Now() == FRESH
      modifies this
      ensures Now() == SwapFlow.Resume(p, sc, maxRetries)
      ensures forall e :: e in emitted ==> SwapFlowSafety.Justified(e)
      ensures Fetched(p, sc, maxRetries).result.Ok? && Fetched(p, sc, maxRetries).result.value.restricted ==>
        forall e :: e in emitted && e.snapshot.Some? ==> SwapFlowSafety.Meets(SwapFlowSafety.Veil, e.snapshot.value)
      ensures SwapFlowPolls.Said(emitted) <==>
        && SwapFlowVerified.Followed(p, sc, maxRetries)
        && SwapFlowVerified.VerifiedOnResume(p, Fetched(p, sc, maxRetries).result.value, sc)
    {
      hide SwapFlowSafety.Justified, SwapFlowSafety.Meets, SwapFlowPolls.Said, SwapFlowVerified.VerifiedOnResume;
      SwapFlowVerified.ResumedVerifiedExactly(p, sc, maxRetries);
      SwapFlowSafety.ResumeProgressIsValidated(p, sc, maxRetries);
      if Fetched(p, sc, maxRetries).result.Ok? && Fetched(p, sc, maxRetries).result.value.restricted {
        SwapFlowSafety.RestrictedRunShowsNothing(p, sc, maxRetries);
      }
      hide Transition, FetchDetail, EmitInitialResumePhase, RunRestricted, EmitTerminal, PollLoop, HandleError, Receipt;
      flowCtx := Some(EMPTY.(provider := Some(p.provider), fromToken := Some(p.fromToken), toToken := Some(p.toToken),
                             swapId := Some(p.swapId), extra := Some(Extra("Loading swap...", Message))));
      Announce(Emission(CreatingSwap, flowCtx, Plain));
      var fetched: Result<Detail, SwapFlow.Error>;
      if sc.cached.Some? {
        fetched := Ok(sc.cached.value);
      } else {
        fetched := FetchDetailWithRetry(p.swapId, sc.attempts);
      }
      if fetched.Err? {
        Handle(fetched.error, sc.abortedAtEnd);
        return;
      }
      var d := fetched.value;
      var current := if flowCtx.Some? then flowCtx.value else EMPTY;
      if d.restricted {
        TrackRestricted(d, sc.ticks);
        return;
      }
      if d.status in TERMINAL_STATUSES {
        flowCtx := Some(Receipt(current, d, p.provider));
        Terminal(d, p.fromToken, p.toToken);
        return;
      }
      var aborted := ThrowIfAborted(sc.abortedBeforePhase);
      var thrown := Some(CancelledFault);
      if !aborted {
        thrown := InitialResumePhase(d, p.provider, sc.initial, sc.gate);
      }
      if thrown.Some? {
        Handle(thrown.value, sc.abortedAtEnd);
        return;
      }
      PollUntilDone(sc.ticks);
    }
  }
}
