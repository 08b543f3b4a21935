/** What a flow tells its user about the course and the end of a swap, against what the server said. */
module SwapFlowOutcomes {
  import opened Wrappers
  import opened FlowContext
  import opened SwapFlow
  import opened SwapFlowPolls
  import opened SwapFlowVerified

  // ----- what a state says of a swap -----

  /** The phases that tell of a deposit, of progress or of an end other than a failure. */
  predicate Telling(p: Phase) {
    || p == AwaitingDeposit || p == Confirming || p == Swapping || p == Sending || p == SwapFlow.Cancelling
    || p == Completed || p == Refunded || p == Punished || p == Expired
  }

  /** The state says how the swap of this detail ended. */
  predicate TellsEnd(e: Emission, d: Detail, fromToken: string, toToken: string) {
    && e.snapshot.Some?
    && var c := e.snapshot.value;
    && c.swapId == Some(d.swap.swapNumber) && c.swapNumber == Some(d.swap.swapNumber)
    && c.depositAmount == Some(d.swap.amountIn) && c.fromToken == Some(fromToken) && c.toToken == Some(toToken)
    && match e.phase
       case Completed =>
         && d.status == "completed"
         && e.payload == Outcome(OrElse(d.actualAmountOut, ""), d.outputTxHash, d.durationSeconds)
         && c.extra == Some(Extra("Swap completed", Message))
       case Refunded =>
         && d.status == "refunded"
         && e.payload == Outcome(OrElse(d.actualAmountOut, ""), d.refundTxHash, d.durationSeconds)
         && c.extra == Some(Extra("BTC refunded to your address.", Message))
       case Expired =>
         d.status == "expired" && e.payload == Plain && c.extra == Some(Extra("Swap expired.", FlowContext.Error))
       case Failed =>
         && (d.status == "failed" || d.status == "withheld")
         && e.payload == Reason("Swap ended with status: " + d.status)
         && c.extra == Some(Extra("Swap ended: " + d.status, FlowContext.Error))
       case _ => false
  }

  /** The state says how far the swap of this detail has come, and what the user is asked to do. */
  predicate TellsProgress(e: Emission, d: Detail, asked: Option<RequiredAction>) {
    match e.phase
    case Confirming => d.status == "deposited" && e.payload == Pending(asked)
    case Swapping => d.status == "swapping" && e.payload == Pending(asked)
    case Sending => d.status == "sending" && e.payload == Plain
    case Cancelling => d.status == "cancelling" && e.payload == Pending(asked)
    case _ => false
  }

  /** The text shown with it. */
  predicate SaysProgress(e: Emission, d: Detail) {
    && e.snapshot.Some?
    && e.snapshot.value.extra == Some(Extra(
         match e.phase
         case Confirming => "Confirming deposit..."
         case Swapping => "Swapping..."
         case Sending => "Sending output..."
         case _ => if d.requiredAction.Some? then d.requiredAction.value.message
                   else "Swap is cancelling — refund in progress. Waiting for terminal status.",
         Message))
  }

  /** What the user is told of the swap itself is what the server said of it. */
  predicate Describes(c: Context, s: Swap, dest: string, refund: string, provider: string) {
    && c.swapId == Some(s.swapNumber) && c.swapNumber == Some(s.swapNumber) && c.provider == Some(provider)
    && c.depositAddr == Some(OrElse(s.depositAddress, "")) && c.depositAmount == Some(s.amountIn)
    && c.destAddress == Some(dest) && c.refundAddress == Some(refund)
    && c.amountInUsd == s.amountInUsd && c.expectedOut == s.expectedAmountOut
    && c.expectedOutUsd == s.expectedAmountOutUsd && c.expiresAt == s.expiresAt
    && c.verificationSourceUrl == (if s.verification.Some? then s.verification.value.sourceUrl else None)
  }

  /** The state invites a deposit for this swap: its own address, amount and code, and the verifier's answer,
      which is positive, or a pending check when the server sent nothing to verify with. */
  predicate Invites(e: Emission, s: Swap, dest: string, refund: string, provider: string, g: Gate) {
    && e.phase == AwaitingDeposit && e.payload == Plain && e.snapshot.Some?
    && var c := e.snapshot.value;
    && Describes(c, s, dest, refund, provider) && Truthy(s.depositAddress) && c.qr == g.qr && Truthy(g.qr)
    && c.verification.Some?
    && (s.verification.Some? ==> g.verdict == Answered(c.verification.value) && c.verification.value.verified)
    && (s.verification.None? ==>
          c.verification.value
          == Verification(false, provider, [FlowContext.Check("Server verification", false, "Pending")]))
    && c.extra == Some(Extra(
         "Awaiting deposit to " + (if |s.depositAddress.value| <= 16 then s.depositAddress.value
                                   else s.depositAddress.value[..16]) + "...", Message))
  }

  // ----- steps that tell nothing -----

  /** Nothing is taken back, and nothing added but states that tell nothing. */
  ghost predicate Quiet(v: View, w: View) {
    v.emitted <= w.emitted && forall e :: e in Since(v, w) ==> !Telling(e.phase)
  }

  lemma QuietTwice(v: View, w: View, x: View)
    requires Quiet(v, w) && Quiet(w, x)
    ensures Quiet(v, x)
  {
    assert Since(v, x) == Since(v, w) + Since(w, x);
  }

  lemma TransitionIsQuiet(v: View, e: Emission)
    requires !Telling(e.phase)
    ensures Quiet(v, Transition(v, e))
  {
  }

  lemma HandleErrorIsQuiet(v: View, e: SwapFlow.Error, aborted: bool)
    ensures Quiet(v, HandleError(v, e, aborted)) && Quiet(v, Cancel(v)) && Quiet(v, Creating(v))
  {
    TellingOnly();
    hide Quiet, Telling, Transition;
    TransitionIsQuiet(v, Emission(Cancelled, v.ctx, Plain));
    TransitionIsQuiet(v, Emission(CreatingSwap, v.ctx, Plain));
    if !e.CancelledFault? {
      var w := SetExtra(v, e.text, FlowContext.Error);
      SetExtraIsQuiet(v, e.text, FlowContext.Error);
      TransitionIsQuiet(w, Emission(Failed, w.ctx, Reason(e.text)));
      QuietTwice(v, w, Transition(w, Emission(Failed, w.ctx, Reason(e.text))));
    }
  }

  lemma TellingOnly()
    ensures !Telling(Cancelled) && !Telling(VerificationFailed) && !Telling(Failed) && !Telling(CreatingSwap)
  {
  }

  lemma AfterFaultIsQuiet(v: View, e: SwapFlow.Error, attempt: nat, maxRetries: int, aborted: bool)
    ensures Quiet(v, AfterFault(v, e, attempt, maxRetries, aborted).view)
  {
    hide Quiet, HandleError, Transition, RetryText;
    var x := SetExtra(v, RetryText(attempt, maxRetries), Warning);
    var w := Creating(x);
    HandleErrorIsQuiet(x, e, aborted);
    HandleErrorIsQuiet(w, e, aborted);
    SetExtraIsQuiet(v, RetryText(attempt, maxRetries), Warning);
    QuietTwice(v, x, w);
    QuietTwice(v, w, Cancel(w));
    SetExtraIsQuiet(v, "", Warning);
  }

  lemma SetExtraIsQuiet(v: View, text: string, kind: ExtraType)
    ensures Quiet(v, SetExtra(v, text, kind)) && Quiet(v, v)
  {
  }

  lemma {:induction false} CreateSwapIsQuiet(v: View, attempts: nat -> Attempt<Swap>, attempt: nat, maxRetries: int,
                                             last: SwapFlow.Error)
    ensures Quiet(v, CreateSwap(v, attempts, attempt, maxRetries, last).view)
    decreases maxRetries - attempt + 1
  {
    hide Quiet, AfterFault, Transition, HandleError, SetExtra;
    SetExtraIsQuiet(v, "Creating swap...", Message);
    if attempt <= maxRetries {
      var a := attempts(attempt);
      HandleErrorIsQuiet(v, last, false);
      if a.challengeFault.Some? || !a.aborted {
        var x := if attempt == 0 then SetExtra(v, "Creating swap...", Message) else v;
        var w := if a.challengeFault.Some? then v else Creating(x);
        HandleErrorIsQuiet(x, last, false);
        if a.challengeFault.None? { QuietTwice(v, x, w); }
        if a.challengeFault.Some? || a.answer.Err? {
          var e := if a.challengeFault.Some? then a.challengeFault.value else a.answer.error;
          var next := AfterFault(w, e, attempt, maxRetries, a.abortedAfterPause);
          AfterFaultIsQuiet(w, e, attempt, maxRetries, a.abortedAfterPause);
          QuietTwice(v, w, next.view);
          if next.result.Ok? {
            CreateSwapIsQuiet(next.view, attempts, attempt + 1, maxRetries, e);
            QuietTwice(v, next.view, CreateSwap(v, attempts, attempt, maxRetries, last).view);
          }
        }
      }
    }
  }

  lemma {:induction false} FetchDetailIsQuiet(v: View, attempts: nat -> Attempt<Detail>, attempt: nat, maxRetries: int,
                                              last: SwapFlow.Error)
    ensures Quiet(v, FetchDetail(v, attempts, attempt, maxRetries, last).view)
    decreases maxRetries - attempt + 1
  {
    hide Quiet, AfterFault;
    SetExtraIsQuiet(v, "", Message);
    if attempt <= maxRetries && attempts(attempt).answer.Err? {
      var a := attempts(attempt);
      AfterFaultIsQuiet(v, a.answer.error, attempt, maxRetries, a.abortedAfterPause);
      var next := AfterFault(v, a.answer.error, attempt, maxRetries, a.abortedAfterPause);
      if next.result.Ok? {
        FetchDetailIsQuiet(next.view, attempts, attempt + 1, maxRetries, a.answer.error);
        QuietTwice(v, next.view, FetchDetail(v, attempts, attempt, maxRetries, last).view);
      }
    }
  }

  lemma CreatedIsQuiet(p: StartParams, sc: StartScript, maxRetries: int)
    ensures Quiet(FRESH, Created(p, sc, maxRetries).view)
  {
    hide Quiet, CreateSwap, Transition, HandleError, Announced;
    var v := Started(p);
    assert Quiet(FRESH, v) by { StartedIsQuiet(p); }
    var made := CreateSwap(v, sc.attempts, 0, maxRetries, NO_ATTEMPT);
    CreateSwapIsQuiet(v, sc.attempts, 0, maxRetries, NO_ATTEMPT);
    QuietTwice(FRESH, v, made.view);
    HandleErrorIsQuiet(made.view, NO_ATTEMPT, false);
    QuietTwice(FRESH, made.view, Cancel(made.view));
    if made.result.Ok? {
      AnnouncedIsQuiet(made.view, made.result.value);
      QuietTwice(FRESH, made.view, Announced(made.view, made.result.value));
    }
  }

  lemma StartedIsQuiet(p: StartParams)
    ensures Quiet(FRESH, Started(p))
  {
  }

  lemma AnnouncedIsQuiet(v: View, s: Swap)
    ensures Quiet(v, Announced(v, s))
  {
  }

  lemma FetchedIsQuiet(p: ResumeParams, sc: ResumeScript, maxRetries: int)
    ensures Quiet(FRESH, Fetched(p, sc, maxRetries).view)
  {
    hide Quiet, FetchDetail;
    assert Quiet(FRESH, Resumed(p)) by { ResumedIsQuiet(p); }
    FetchDetailIsQuiet(Resumed(p), sc.attempts, 0, maxRetries, NoFetch(p.swapId));
    QuietTwice(FRESH, Resumed(p), FetchDetail(Resumed(p), sc.attempts, 0, maxRetries, NoFetch(p.swapId)).view);
  }

  lemma ResumedIsQuiet(p: ResumeParams)
    ensures Quiet(FRESH, Resumed(p))
  {
  }

  // ----- the gate -----

  /** What the gate adds, if it tells anything, invites a deposit. */
  lemma GateTells(v: View, s: Swap, dest: string, refund: string, provider: string, g: Gate)
    ensures var w := EmitAwaitingDeposit(v, s, dest, refund, provider, g).view;
      && v.emitted <= w.emitted
      && forall e :: e in Since(v, w) && Telling(e.phase) ==> Invites(e, s, dest, refund, provider, g)
  {
    hide Telling;
    assert !Telling(Cancelled) && !Telling(VerificationFailed) && !Telling(Failed) by { TellingOnly(); }
    if GateOpens(s, g) && !(VerifierRuns(s) && !g.verdict.result.verified) {
      ShownInvites(v, s, dest, refund, provider, g);
    }
  }

  lemma ShownInvites(v: View, s: Swap, dest: string, refund: string, provider: string, g: Gate)
    requires GateOpens(s, g) && !(VerifierRuns(s) && !g.verdict.result.verified)
    ensures var verification := if VerifierRuns(s) then g.verdict.result
        else Verification(false, provider, [FlowContext.Check("Server verification", false, "Pending")]);
      var c := Hydrated(Current(v), s, dest, refund, provider, g.qr, verification);
      var shown := c.(extra := Some(Extra("Awaiting deposit to " + Take(OrElse(s.depositAddress, ""), 16) + "...",
                                          Message)));
      ValidPopulated(shown) ==> Invites(Emission(AwaitingDeposit, Some(shown), Plain), s, dest, refund, provider, g)
  {
  }

  // ----- polls -----

  /** Poll k is made and brings a detail. */
  predicate Seen(ticks: seq<Tick>, k: nat) {
    && k < |ticks|
    && (forall i :: 0 <= i < k ==>
          !ticks[i].aborted && (ticks[i].detail.Some? ==> !Final(ticks[i].detail.value.status)))
    && !ticks[k].aborted && ticks[k].detail.Some?
  }

  predicate Polled(e: Emission, d: Detail) {
    TellsEnd(e, d, d.fromToken, d.toToken) || (TellsProgress(e, d, d.requiredAction) && SaysProgress(e, d))
  }

  /** Some poll made said what the state tells. */
  ghost predicate ToldBy(e: Emission, ticks: seq<Tick>) {
    exists k :: 0 <= k && Seen(ticks, k) && Polled(e, TickDetail(ticks, k))
  }

  function TickDetail(ticks: seq<Tick>, k: nat): Detail
    requires Seen(ticks, k)
  {
    ticks[k].detail.value
  }

  lemma SeenLater(ticks: seq<Tick>, k: nat)
    requires ticks != [] && !Ends(ticks[0])
    ensures Seen(ticks, k + 1) <==> Seen(ticks[1..], k)
  {
    assert forall i :: 0 <= i < |ticks| - 1 ==> ticks[1..][i] == ticks[i + 1];
    if Seen(ticks, k + 1) {
      forall i | 0 <= i < k
        ensures !ticks[1..][i].aborted
        ensures ticks[1..][i].detail.Some? ==> !Final(ticks[1..][i].detail.value.status)
      {
        assert !ticks[i + 1].aborted;
      }
    }
  }

  lemma EndTells(v: View, d: Detail, fromToken: string, toToken: string)
    requires Final(d.status)
    ensures var w := EmitTerminal(v, d, fromToken, toToken);
      && w.lastPhase == PhaseOf(d.status).value
      && (v.lastPhase == w.lastPhase ==> w.emitted == v.emitted)
      && (v.lastPhase != w.lastPhase ==>
            exists e :: w.emitted == v.emitted + [e] && e.phase == w.lastPhase && TellsEnd(e, d, fromToken, toToken))
  {
    var w := EmitTerminal(v, d, fromToken, toToken);
    if v.lastPhase != w.lastPhase {
      var e := w.emitted[|v.emitted|];
      assert w.emitted == v.emitted + [e] && TellsEnd(e, d, fromToken, toToken);
    }
  }

  lemma ProgressTells(d: Detail, c: Context)
    requires ProgressOf(d).Some?
    ensures var (phase, text, payload) := ProgressOf(d).value;
      var e := Emission(phase, Some(c.(extra := Some(Extra(text, Message)))), payload);
      Polled(e, d)
  {
  }

  /** The step takes nothing back, and what it tells the detail said. */
  ghost predicate Repeats(v: View, w: View, d: Detail) {
    v.emitted <= w.emitted && forall e :: e in Since(v, w) && Telling(e.phase) ==> Polled(e, d)
  }

  lemma TransitionRepeats(v: View, w: View, e: Emission, d: Detail)
    requires v.emitted == w.emitted && (Telling(e.phase) ==> Polled(e, d))
    ensures Repeats(v, Transition(w, e), d) && Repeats(v, w, d)
  {
    hide Telling, Polled;
  }

  lemma EndRepeats(v: View, d: Detail)
    requires Final(d.status)
    ensures Repeats(v, EmitTerminal(v, d, d.fromToken, d.toToken), d)
  {
    hide TellsEnd, Telling, Final, PhaseOf, EmitTerminal;
    EndTells(v, d, d.fromToken, d.toToken);
  }

  lemma ProgressRepeats(v: View, w: View, d: Detail)
    requires ProgressOf(d).Some? && v.emitted == w.emitted
    ensures Repeats(v, ProgressStep(w, d), d)
  {
    TellingOnly();
    ProgressTells(d, Current(w));
    hide ProgressOf, Transition, Repeats, Telling, Polled, ValidVerified, ProgressName;
    var (phase, text, payload) := ProgressOf(d).value;
    var x := SetExtra(w, text, Message);
    TransitionRepeats(v, x, Emission(phase, x.ctx, payload), d);
    var name := ProgressName(phase);
    var failed := "[" + name + "] " + Invalid(name);
    TransitionRepeats(v, x, Emission(Failed, x.ctx, Reason(failed)), d);
    hide Invalid;
    assert ProgressStep(w, d) == Transition(x, if ValidVerified(x.ctx.value) then Emission(phase, x.ctx, payload)
                                               else Emission(Failed, x.ctx, Reason(failed)));
  }

  /** A poll adds nothing, or one state that tells nothing or tells what the poll said. */
  lemma PollTells(v: View, t: Tick)
    ensures Poll(v, t).1 == Ends(t)
    ensures t.aborted || t.detail.None? ==> Quiet(v, Poll(v, t).0)
    ensures !t.aborted && t.detail.Some? ==> Repeats(v, Poll(v, t).0, t.detail.value)
  {
    HandleErrorIsQuiet(v, CancelledFault, false);
    SetExtraIsQuiet(v, "", Message);
    PollUnfolds(v, t);
    hide Poll;
    if !t.aborted && t.detail.Some? {
      var d := t.detail.value;
      var w := Populated(v, d);
      TellingOnly();
      TransitionRepeats(v, w, Emission(Failed, None, Plain), d);
      if Final(d.status) {
        EndRepeats(w, d);
      } else if ProgressOf(d).Some? {
        ProgressRepeats(v, w, d);
      }
      SameRepeats(v, w, Poll(v, t).0, d);
      hide EmitTerminal, ProgressOf, ProgressStep, Transition, Repeats, Quiet, Final, Telling, Populated;
    }
  }

  lemma SameRepeats(v: View, w: View, x: View, d: Detail)
    requires v.emitted == w.emitted
    ensures Repeats(w, x, d) ==> Repeats(v, x, d)
  {
    hide Telling, Polled;
  }

  /** Whatever a polling loop tells, a poll said. */
  lemma {:induction false} PollLoopTells(v: View, ticks: seq<Tick>)
    ensures var w := PollLoop(v, ticks);
      v.emitted <= w.emitted && forall e :: e in Since(v, w) && Telling(e.phase) ==> ToldBy(e, ticks)
    decreases ticks
  {
    hide Poll, Polled, Telling, Final;
    if ticks != [] {
      var (w, done) := Poll(v, ticks[0]);
      PollTells(v, ticks[0]);
      FirstTold(v, w, ticks);
      var end := PollLoop(v, ticks);
      if !done {
        PollLoopTells(w, ticks[1..]);
        LaterTold(w, end, ticks);
        assert Since(v, end) == Since(v, w) + Since(w, end);
      }
    }
  }

  lemma FirstTold(v: View, w: View, ticks: seq<Tick>)
    requires ticks != [] && (ticks[0].aborted || ticks[0].detail.None? ==> Quiet(v, w))
    requires !ticks[0].aborted && ticks[0].detail.Some? ==> Repeats(v, w, ticks[0].detail.value)
    ensures v.emitted <= w.emitted && forall e :: e in Since(v, w) && Telling(e.phase) ==> ToldBy(e, ticks)
  {
    hide Polled, Telling;
    if !ticks[0].aborted && ticks[0].detail.Some? {
      assert Seen(ticks, 0);
    }
  }

  lemma LaterTold(w: View, end: View, ticks: seq<Tick>)
    requires ticks != [] && !Ends(ticks[0]) && w.emitted <= end.emitted
    requires forall e :: e in Since(w, end) && Telling(e.phase) ==> ToldBy(e, ticks[1..])
    ensures forall e :: e in Since(w, end) && Telling(e.phase) ==> ToldBy(e, ticks)
  {
    hide Polled, Telling, Ends, Final;
    forall e | e in Since(w, end) && Telling(e.phase) ensures ToldBy(e, ticks) {
      var k :| 0 <= k && Seen(ticks[1..], k) && Polled(e, TickDetail(ticks[1..], k));
      SeenLater(ticks, k);
      assert Seen(ticks, k + 1) && TickDetail(ticks, k + 1) == TickDetail(ticks[1..], k);
    }
  }

  // ----- runs of start -----

  /** Whatever a started flow tells of a deposit, of progress or of an end is true: the deposit is that of the
      created swap, and all else was said by a poll. */
  lemma StartTellsTheTruth(p: StartParams, sc: StartScript, maxRetries: int, e: Emission)
    requires e in Start(p, sc, maxRetries).emitted && Telling(e.phase)
    ensures Created(p, sc, maxRetries).result.Ok?
    ensures var s := Created(p, sc, maxRetries).result.value;
      Invites(e, s, p.destAddress, p.refundAddress, p.provider, sc.gate) || ToldBy(e, sc.ticks)
  {
    hide Created, EmitAwaitingDeposit, PollLoop, HandleError, Telling, Invites, ToldBy;
    var made := Created(p, sc, maxRetries);
    CreatedIsQuiet(p, sc, maxRetries);
    var end := Start(p, sc, maxRetries);
    NothingTold(made.view);
    NothingTold(end);
    hide Quiet;
    if made.result.Err? {
      HandleErrorIsQuiet(made.view, made.result.error, sc.abortedAtEnd);
      QuietTwice(FRESH, made.view, end);
    } else {
      var s := made.result.value;
      var shown := EmitAwaitingDeposit(made.view, s, p.destAddress, p.refundAddress, p.provider, sc.gate);
      GateTells(made.view, s, p.destAddress, p.refundAddress, p.provider, sc.gate);
      if shown.result.Err? {
        HandleErrorIsQuiet(shown.view, shown.result.error, sc.abortedAtEnd);
        NothingAddedTold(shown.view, end);
      } else {
        PollLoopTells(shown.view, sc.ticks);
      }
      InThreeParts(made.view, shown.view, end);
    }
  }

  lemma NothingTold(v: View)
    ensures Quiet(FRESH, v) ==> forall e :: e in v.emitted ==> !Telling(e.phase)
  {
    hide Telling;
    assert v.emitted[0..] == v.emitted;
  }

  lemma NothingAddedTold(v: View, w: View)
    requires Quiet(v, w)
    ensures v.emitted <= w.emitted && forall e :: e in Since(v, w) ==> !Telling(e.phase)
  {
  }

  lemma InThreeParts(v: View, w: View, x: View)
    requires v.emitted <= w.emitted <= x.emitted
    ensures x.emitted == v.emitted + Since(v, w) + Since(w, x)
  {
  }

  // ----- what polls said is shown -----

  /** A phase reached since `base` was announced since then. */
  ghost predicate AnnouncedSince(base: View, v: View, phase: Phase) {
    && base.emitted <= v.emitted
    && (v.lastPhase == phase ==> exists e :: e in Since(base, v) && e.phase == phase)
  }

  /** A step moves to a phase only by announcing it. */
  ghost predicate Moves(v: View, w: View) {
    && v.emitted <= w.emitted
    && (w.lastPhase != v.lastPhase ==> exists e :: e in Since(v, w) && e.phase == w.lastPhase)
  }

  lemma AnnouncedStays(base: View, v: View, w: View, phase: Phase)
    requires AnnouncedSince(base, v, phase) && Moves(v, w)
    ensures AnnouncedSince(base, w, phase)
  {
    assert Since(base, w) == Since(base, v) + Since(v, w);
  }

  lemma TransitionMoves(v: View, w: View, e: Emission)
    requires v.emitted == w.emitted && v.lastPhase == w.lastPhase
    ensures Moves(v, w) && Moves(v, Transition(w, e)) && Transition(w, e).lastPhase == e.phase
  {
    if e.phase != v.lastPhase { assert Since(v, Transition(w, e)) == [e]; }
  }

  lemma PollMoves(v: View, t: Tick)
    ensures Moves(v, Poll(v, t).0)
    ensures !t.aborted && t.detail.Some? && Final(t.detail.value.status) ==>
      Poll(v, t).0.lastPhase == PhaseOf(t.detail.value.status).value
  {
    TransitionMoves(v, v, Emission(Cancelled, v.ctx, Plain));
    PollUnfolds(v, t);
    hide Poll;
    if !t.aborted && t.detail.Some? {
      var d := t.detail.value;
      var w := Populated(v, d);
      TransitionMoves(v, w, Emission(Failed, None, Plain));
      EndMoves(v, w, d, d.fromToken, d.toToken);
      if ProgressOf(d).Some? { ProgressMoves(v, w, d); }
      hide EmitTerminal, ProgressOf, ProgressStep, Transition, Moves, PhaseOf, Final, Populated;
    }
  }

  lemma ProgressMoves(v: View, w: View, d: Detail)
    requires ProgressOf(d).Some? && v.emitted == w.emitted && v.lastPhase == w.lastPhase
    ensures Moves(v, ProgressStep(w, d))
  {
    hide ProgressOf, Transition, Moves, ValidVerified, ProgressName;
    var (phase, text, payload) := ProgressOf(d).value;
    var x := SetExtra(w, text, Message);
    var name := ProgressName(phase);
    TransitionMoves(v, x, Emission(phase, x.ctx, payload));
    TransitionMoves(v, x, Emission(Failed, x.ctx, Reason("[" + name + "] " + Invalid(name))));
  }

  lemma EndMoves(v: View, w: View, d: Detail, fromToken: string, toToken: string)
    requires v.emitted == w.emitted && v.lastPhase == w.lastPhase
    ensures Moves(v, EmitTerminal(w, d, fromToken, toToken))
    ensures Final(d.status) ==> EmitTerminal(w, d, fromToken, toToken).lastPhase == PhaseOf(d.status).value
  {
    var c := Current(w).(swapId := Some(d.swap.swapNumber), swapNumber := Some(d.swap.swapNumber),
                         fromToken := Some(fromToken), toToken := Some(toToken),
                         depositAmount := Some(d.swap.amountIn), extra := Some(TerminalText(d.status)));
    StatusDecides(d);
    TerminalPhaseOnly(d);
    TransitionMoves(v, w.(ctx := Some(c)), TerminalEmission(d, Some(c)));
    hide TerminalText, Transition, Moves, TerminalEmission, PhaseOf, Final;
  }

  /** The poll brings a status whose phase can be shown: of an end, or in a context that is complete. */
  predicate CanShow(v: View, t: Tick) {
    && !t.aborted && t.detail.Some?
    && var d := t.detail.value;
    && (Final(d.status) || (Underway(d.status) && Tracks(v, true) && !Wordless(d)))
  }

  /** A polling loop announces the status of every poll it makes, unless the phase was the last one before. */
  lemma {:induction false} PollLoopShows(base: View, v: View, ticks: seq<Tick>, j: nat)
    requires Seen(ticks, j) && CanShow(v, ticks[j])
    requires AnnouncedSince(base, v, PhaseOf(ticks[j].detail.value.status).value)
    ensures var phase := PhaseOf(ticks[j].detail.value.status).value;
      var w := PollLoop(v, ticks);
      && base.emitted <= w.emitted
      && (exists e :: e in Since(base, w) && e.phase == phase)
      && (Final(ticks[j].detail.value.status) ==> w.lastPhase == phase)
    decreases ticks
  {
    hide Poll, AnnouncedSince, Moves, Tracks, Final, Underway, Wordless, PhaseOf;
    StatusDecides(ticks[j].detail.value);
    var phase := PhaseOf(ticks[j].detail.value.status).value;
    var (w, done) := Poll(v, ticks[0]);
    PollMoves(v, ticks[0]);
    PollTells(v, ticks[0]);
    AnnouncedStays(base, v, w, phase);
    var end := PollLoop(v, ticks);
    if j == 0 {
      if Tracks(v, true) { PollPhase(v, ticks[0], true); }
      StatusDecides(ticks[0].detail.value);
      assert w.lastPhase == phase;
      PollLoopTells(w, ticks[1..]);
      AnnouncedLast(base, w, end, phase);
      EndIsLast(ticks[0]);
    } else {
      EndIsLast(ticks[0]);
      assert !done;
      if Tracks(v, true) { PollPhase(v, ticks[0], true); }
      SeenLater(ticks, j - 1);
      PollLoopShows(base, w, ticks[1..], j - 1);
    }
  }

  lemma EndIsLast(t: Tick)
    ensures Ends(t) <==> t.aborted || (t.detail.Some? && Final(t.detail.value.status))
  {
  }

  lemma AnnouncedLast(base: View, v: View, w: View, phase: Phase)
    requires AnnouncedSince(base, v, phase) && v.lastPhase == phase && v.emitted <= w.emitted
    ensures base.emitted <= w.emitted && exists e :: e in Since(base, w) && e.phase == phase
  {
    assert Since(base, w) == Since(base, v) + Since(v, w);
  }

  /** The ends that have a phase of their own. */
  predicate NamedEnd(status: string) {
    status == "completed" || status == "refunded" || status == "expired"
  }

  predicate EndPhase(p: Phase) {
    p == Completed || p == Refunded || p == Expired
  }

  lemma NamedEndHasPhase(status: string)
    requires NamedEnd(status)
    ensures Final(status) && PhaseOf(status).Some? && EndPhase(PhaseOf(status).value)
  {
  }

  lemma EndIsTold(e: Emission, ticks: seq<Tick>, j: nat)
    requires ToldBy(e, ticks) && EndPhase(e.phase) && Seen(ticks, j) && Final(TickDetail(ticks, j).status)
    ensures TellsEnd(e, TickDetail(ticks, j), TickDetail(ticks, j).fromToken, TickDetail(ticks, j).toToken)
  {
    hide TellsEnd, SaysProgress, Final;
    var k :| 0 <= k && Seen(ticks, k) && Polled(e, TickDetail(ticks, k));
    var d := TickDetail(ticks, k);
    assert TellsEnd(e, d, d.fromToken, d.toToken);
    OnlyFinalEnds(e, d);
    assert k == j;
  }

  lemma OnlyFinalEnds(e: Emission, d: Detail)
    requires TellsEnd(e, d, d.fromToken, d.toToken)
    ensures Final(d.status)
  {
  }

  /** An end other than a failure that a poll brings is shown as what it is. */
  lemma PollLoopShowsEnd(v: View, ticks: seq<Tick>, j: nat)
    requires Seen(ticks, j) && NamedEnd(TickDetail(ticks, j).status) && !EndPhase(v.lastPhase)
    ensures var d := TickDetail(ticks, j);
      exists e :: e in PollLoop(v, ticks).emitted && Some(e.phase) == PhaseOf(d.status)
                  && TellsEnd(e, d, d.fromToken, d.toToken)
  {
    var d, w := TickDetail(ticks, j), PollLoop(v, ticks);
    NamedEndHasPhase(d.status);
    hide PollLoop, PhaseOf, TellsEnd, NamedEnd, Final, ToldBy;
    PollLoopShows(v, v, ticks, j);
    PollLoopTells(v, ticks);
    var e :| e in Since(v, w) && e.phase == PhaseOf(d.status).value;
    EndIsTold(e, ticks, j);
  }

  /** The gate ends in none of these phases. */
  lemma GateIsNoEnd(v: View, s: Swap, dest: string, refund: string, provider: string, g: Gate)
    requires !EndPhase(v.lastPhase)
    ensures !EndPhase(EmitAwaitingDeposit(v, s, dest, refund, provider, g).view.lastPhase)
    ensures EmitAwaitingDeposit(v, s, dest, refund, provider, g).result.Ok? <==> GateOpens(s, g)
  {
    hide Take, Hydrated, Withheld, ValidPopulated, ValidBase;
  }

  /** A started flow shows the end that a poll brings, with what the poll said of it, and ends in its phase. */
  lemma StartShowsEnd(p: StartParams, sc: StartScript, maxRetries: int, j: nat)
    requires Created(p, sc, maxRetries).result.Ok? && GateOpens(Created(p, sc, maxRetries).result.value, sc.gate)
    requires Seen(sc.ticks, j) && Final(TickDetail(sc.ticks, j).status)
    ensures var d, end := TickDetail(sc.ticks, j), Start(p, sc, maxRetries);
      && Some(end.lastPhase) == PhaseOf(d.status)
      && (NamedEnd(d.status) ==>
            exists e :: e in end.emitted && Some(e.phase) == PhaseOf(d.status)
                        && TellsEnd(e, d, d.fromToken, d.toToken))
  {
    hide Created, EmitAwaitingDeposit, PollLoop, HandleError, TellsEnd, GateOpens;
    var made := Created(p, sc, maxRetries);
    var s, d := made.result.value, TickDetail(sc.ticks, j);
    CreatedIsAtGate(p, sc, maxRetries);
    GateIsNoEnd(made.view, s, p.destAddress, p.refundAddress, p.provider, sc.gate);
    var shown := EmitAwaitingDeposit(made.view, s, p.destAddress, p.refundAddress, p.provider, sc.gate).view;
    PollLoopEnds(shown, sc.ticks, j);
    if NamedEnd(d.status) { PollLoopShowsEnd(shown, sc.ticks, j); }
  }

  /** The last phase is that of the end polled, whatever came before. */
  lemma {:induction false} PollLoopEnds(v: View, ticks: seq<Tick>, j: nat)
    requires Seen(ticks, j) && Final(TickDetail(ticks, j).status)
    ensures Some(PollLoop(v, ticks).lastPhase) == PhaseOf(TickDetail(ticks, j).status)
    decreases ticks
  {
    StatusDecides(TickDetail(ticks, j));
    hide Poll, Final, PhaseOf, Moves;
    PollMoves(v, ticks[0]);
    PollTells(v, ticks[0]);
    EndIsLast(ticks[0]);
    if j > 0 {
      SeenLater(ticks, j - 1);
      PollLoopEnds(Poll(v, ticks[0]).0, ticks[1..], j - 1);
    }
  }

  /** A started flow that may show progress shows each status under way that a poll brings. */
  lemma StartShowsProgress(p: StartParams, sc: StartScript, maxRetries: int, j: nat)
    requires Created(p, sc, maxRetries).result.Ok?
    requires var s := Created(p, sc, maxRetries).result.value;
      GateOpens(s, sc.gate) && GateCompletes(s, StartParticulars(p), sc.gate)
    requires Seen(sc.ticks, j) && Underway(TickDetail(sc.ticks, j).status) && !Wordless(TickDetail(sc.ticks, j))
    ensures exists e :: e in Start(p, sc, maxRetries).emitted
                        && Some(e.phase) == PhaseOf(TickDetail(sc.ticks, j).status) && ToldBy(e, sc.ticks)
  {
    hide Created, EmitAwaitingDeposit, PollLoop, HandleError, GateOpens, GateCompletes, ToldBy, Tracks, Wordless;
    var made := Created(p, sc, maxRetries);
    var s, d := made.result.value, TickDetail(sc.ticks, j);
    var x := StartParticulars(p);
    CreatedIsAtGate(p, sc, maxRetries);
    GateIsNoEnd(made.view, s, x.dest, x.refund, x.provider, sc.gate);
    GateLeaves(made.view, s, x, sc.gate);
    var shown := EmitAwaitingDeposit(made.view, s, x.dest, x.refund, x.provider, sc.gate).view;
    StatusDecides(d);
    UnderwayIsTold(d.status);
    hide PhaseOf, Underway, Final, Telling;
    PollLoopShows(shown, shown, sc.ticks, j);
    PollLoopTells(shown, sc.ticks);
    var end := PollLoop(shown, sc.ticks);
    var e :| e in Since(shown, end) && e.phase == PhaseOf(d.status).value;
    assert e in end.emitted;
  }

  lemma UnderwayIsTold(status: string)
    ensures Underway(status) ==> PhaseOf(status).Some? && Telling(PhaseOf(status).value)
  {
  }

  // ----- runs of resume -----

  /** The state says how far the swap has come to a user who may not see its details: nothing is asked, and
      of the swap only what the first detail said without the sensitive parts is shown. */
  predicate TellsLimited(e: Emission, d: Detail, first: Detail) {
    && TellsProgress(e, d, None) && e.snapshot.Some?
    && Summarises(e.snapshot.value, first)
  }

  predicate Summarises(c: Context, d: Detail) {
    && c.restricted && c.swapId == Some(d.swap.swapNumber) && c.swapNumber == Some(d.swap.swapNumber)
    && c.provider == Some(d.provider) && c.fromToken == Some(d.fromToken) && c.toToken == Some(d.toToken)
    && c.depositAmount == Some(d.swap.amountIn) && c.amountInUsd == d.swap.amountInUsd
    && c.expectedOut == d.swap.expectedAmountOut && c.expectedOutUsd == d.swap.expectedAmountOutUsd
    && c.depositAddr.None? && c.destAddress.None? && c.refundAddress.None? && c.qr.None? && c.verification.None?
    && c.extra == Some(Extra("Limited view — enter the destination address to unlock full details.", Message))
  }

  predicate PolledLimited(e: Emission, d: Detail, first: Detail) {
    TellsEnd(e, d, d.fromToken, d.toToken) || TellsLimited(e, d, first)
  }

  ghost predicate ToldLimited(e: Emission, first: Detail, ticks: seq<Tick>) {
    exists k :: 0 <= k && Seen(ticks, k) && PolledLimited(e, TickDetail(ticks, k), first)
  }

  /** A restricted status adds nothing, a state that tells nothing, or one that tells it. */
  lemma RestrictedTells(v: View, d: Detail, first: Detail)
    requires v.ctx.Some? && Summarises(v.ctx.value, first)
    ensures var w := EmitRestricted(v, d);
      && w.ctx == v.ctx && v.emitted <= w.emitted
      && (forall e :: e in Since(v, w) && Telling(e.phase) ==> TellsLimited(e, d, first))
      && (Underway(d.status) ==> Moves(v, w) && Some(w.lastPhase) == PhaseOf(d.status))
  {
    StatusDecides(d);
    TellingOnly();
    if ProgressOf(d).Some? {
      var (phase, _, payload) := ProgressOf(d).value;
      var e := Emission(phase, v.ctx, if payload.Pending? then Pending(None) else Plain);
      LimitedProgressTells(d, v.ctx);
      TransitionMoves(v, v, e);
      hide ProgressOf, TellsProgress, Telling, Summarises, PhaseOf, Underway, Final, ProgressName, Moves;
      assert EmitRestricted(v, d) == Transition(v, e) by { RestrictedIsAnnounced(v, first, d); }
    } else {
      hide ProgressOf, TellsProgress, Summarises, PhaseOf, Underway, Final;
    }
  }

  lemma LimitedProgressTells(d: Detail, snapshot: Option<Context>)
    requires ProgressOf(d).Some?
    ensures var (phase, _, payload) := ProgressOf(d).value;
      TellsProgress(Emission(phase, snapshot, if payload.Pending? then Pending(None) else Plain), d, None)
  {
  }

  lemma RestrictedIsAnnounced(v: View, first: Detail, d: Detail)
    requires v.ctx.Some? && Summarises(v.ctx.value, first) && ProgressOf(d).Some?
    ensures EmitRestricted(v, d)
         == Transition(v, Emission(ProgressOf(d).value.0, v.ctx,
                                   if ProgressOf(d).value.2.Pending? then Pending(None) else Plain))
  {
    hide ProgressOf, Transition, ProgressName;
    assert v.ctx.value.(restricted := true) == v.ctx.value;
  }

  /** The step takes nothing back, and what it tells the detail said. */
  ghost predicate RepeatsLimited(v: View, w: View, d: Detail, first: Detail) {
    v.emitted <= w.emitted && forall e :: e in Since(v, w) && Telling(e.phase) ==> PolledLimited(e, d, first)
  }

  /** One restricted poll: what it tells, where it leads, and that the context stays. */
  lemma RestrictedPollTells(v: View, t: Tick, first: Detail)
    requires v.ctx.Some? && Summarises(v.ctx.value, first)
    ensures var (w, done) := PollRestricted(v, t);
      && done == Ends(t) && Moves(v, w) && (!done ==> w.ctx == v.ctx)
      && (t.aborted || t.detail.None? ==> Quiet(v, w))
      && (!t.aborted && t.detail.Some? ==>
            var d := t.detail.value;
            && RepeatsLimited(v, w, d, first)
            && (Final(d.status) || Underway(d.status) ==> Some(w.lastPhase) == PhaseOf(d.status)))
  {
    HandleErrorIsQuiet(v, CancelledFault, false);
    SetExtraIsQuiet(v, "", Message);
    TransitionMoves(v, v, Emission(Cancelled, v.ctx, Plain));
    if !t.aborted && t.detail.Some? {
      var d := t.detail.value;
      StatusDecides(d);
      if Final(d.status) {
        EndMoves(v, v, d, d.fromToken, d.toToken);
        EndTells(v, d, d.fromToken, d.toToken);
      } else {
        RestrictedTells(v, d, first);
        RestrictedMoves(v, d);
      }
      hide EmitTerminal, EmitRestricted, TellsEnd, TellsLimited, Telling, Final, Underway, PhaseOf, Moves, Summarises;
    } else {
      hide EmitTerminal, EmitRestricted, Transition, Moves, Quiet, Final, Summarises;
    }
  }

  lemma RestrictedMoves(v: View, d: Detail)
    ensures Moves(v, EmitRestricted(v, d))
  {
    hide ProgressOf, ProgressName;
  }

  lemma {:induction false} RestrictedLoopTells(v: View, ticks: seq<Tick>, first: Detail)
    requires v.ctx.Some? && Summarises(v.ctx.value, first)
    ensures var w := PollLoopRestricted(v, ticks);
      v.emitted <= w.emitted && forall e :: e in Since(v, w) && Telling(e.phase) ==> ToldLimited(e, first, ticks)
    decreases ticks
  {
    hide PollRestricted, PolledLimited, Telling, Final, Underway, PhaseOf, Summarises, Moves;
    if ticks != [] {
      var (w, done) := PollRestricted(v, ticks[0]);
      RestrictedPollTells(v, ticks[0], first);
      FirstToldLimited(v, w, first, ticks);
      var end := PollLoopRestricted(v, ticks);
      if !done {
        RestrictedLoopTells(w, ticks[1..], first);
        LaterToldLimited(w, end, first, ticks);
        assert Since(v, end) == Since(v, w) + Since(w, end);
      }
    }
  }

  lemma FirstToldLimited(v: View, w: View, first: Detail, ticks: seq<Tick>)
    requires ticks != [] && (ticks[0].aborted || ticks[0].detail.None? ==> Quiet(v, w))
    requires !ticks[0].aborted && ticks[0].detail.Some? ==> RepeatsLimited(v, w, ticks[0].detail.value, first)
    ensures v.emitted <= w.emitted && forall e :: e in Since(v, w) && Telling(e.phase) ==> ToldLimited(e, first, ticks)
  {
    hide PolledLimited, Telling;
    if !ticks[0].aborted && ticks[0].detail.Some? {
      assert Seen(ticks, 0);
    }
  }

  lemma LaterToldLimited(w: View, end: View, first: Detail, ticks: seq<Tick>)
    requires ticks != [] && !Ends(ticks[0]) && w.emitted <= end.emitted
    requires forall e :: e in Since(w, end) && Telling(e.phase) ==> ToldLimited(e, first, ticks[1..])
    ensures forall e :: e in Since(w, end) && Telling(e.phase) ==> ToldLimited(e, first, ticks)
  {
    hide PolledLimited, Telling, Ends, Final;
    forall e | e in Since(w, end) && Telling(e.phase) ensures ToldLimited(e, first, ticks) {
      var k :| 0 <= k && Seen(ticks[1..], k) && PolledLimited(e, TickDetail(ticks[1..], k), first);
      SeenLater(ticks, k);
      assert Seen(ticks, k + 1) && TickDetail(ticks, k + 1) == TickDetail(ticks[1..], k);
    }
  }

  /** Where a restricted poll leads. */
  lemma RestrictedPollArrives(v: View, t: Tick, first: Detail)
    requires v.ctx.Some? && Summarises(v.ctx.value, first)
    ensures var (w, done) := PollRestricted(v, t);
      && done == Ends(t) && Moves(v, w) && (!done ==> w.ctx == v.ctx)
      && (!t.aborted && t.detail.Some? && (Final(t.detail.value.status) || Underway(t.detail.value.status)) ==>
            Some(w.lastPhase) == PhaseOf(t.detail.value.status))
  {
    hide PollRestricted, Moves, Final, Underway, PhaseOf, Summarises, Quiet, RepeatsLimited;
    RestrictedPollTells(v, t, first);
  }

  lemma RestrictedLoopGrows(v: View, ticks: seq<Tick>, first: Detail)
    requires v.ctx.Some? && Summarises(v.ctx.value, first)
    ensures v.emitted <= PollLoopRestricted(v, ticks).emitted
  {
    hide PollLoopRestricted, Summarises, ToldLimited, Telling;
    RestrictedLoopTells(v, ticks, first);
  }

  /** A restricted loop announces every status under way and every end that a poll it makes brings. */
  lemma {:induction false} RestrictedLoopShows(base: View, v: View, ticks: seq<Tick>, first: Detail, j: nat)
    requires v.ctx.Some? && Summarises(v.ctx.value, first)
    requires Seen(ticks, j) && (Final(TickDetail(ticks, j).status) || Underway(TickDetail(ticks, j).status))
    requires AnnouncedSince(base, v, PhaseOf(TickDetail(ticks, j).status).value)
    ensures var phase := PhaseOf(TickDetail(ticks, j).status).value;
      var w := PollLoopRestricted(v, ticks);
      && base.emitted <= w.emitted
      && (exists e :: e in Since(base, w) && e.phase == phase)
      && (Final(TickDetail(ticks, j).status) ==> w.lastPhase == phase)
    decreases ticks
  {
    StatusDecides(TickDetail(ticks, j));
    hide PollRestricted, AnnouncedSince, Moves, Final, Underway, PhaseOf, Summarises;
    var phase := PhaseOf(TickDetail(ticks, j).status).value;
    var (w, done) := PollRestricted(v, ticks[0]);
    RestrictedPollArrives(v, ticks[0], first);
    AnnouncedStays(base, v, w, phase);
    EndIsLast(ticks[0]);
    if j == 0 {
      if !done { RestrictedLoopGrows(w, ticks[1..], first); }
      AnnouncedLast(base, w, PollLoopRestricted(v, ticks), phase);
    } else {
      SeenLater(ticks, j - 1);
      RestrictedLoopShows(base, w, ticks[1..], first, j - 1);
    }
  }

  // ----- the first state of a resumed swap -----

  /** The state shows a swap past its deposit as its detail has it: code, verification and all. */
  predicate TellsFirst(e: Emission, p: ResumeParams, d: Detail, sc: ResumeScript) {
    && TellsProgress(e, d, d.requiredAction) && e.snapshot.Some?
    && var c := e.snapshot.value;
    && Describes(c, d.swap, OrElse(d.destAddress, ""), OrElse(d.refundAddress, ""), p.provider)
    && Truthy(d.swap.depositAddress) && Truthy(d.destAddress) && c.qr == sc.initial.qr && Truthy(c.qr)
    && c.verification == Some(
         if d.swap.verification.Some? && sc.initial.verdict.Answered? then sc.initial.verdict.result
         else Verification(true, p.provider, [FlowContext.Check("Server verification", true, "Resumed")]))
  }

  lemma FirstProgressTells(v: View, p: ResumeParams, d: Detail, sc: ResumeScript)
    requires ProgressOf(d).Some? && ValidVerified(ResumedContext(v, p, d, sc))
    ensures var (phase, _, payload) := ProgressOf(d).value;
      TellsFirst(Emission(phase, Some(ResumedContext(v, p, d, sc)), payload), p, d, sc)
  {
    hide ProgressOf, TellsProgress, Describes;
    ProgressIsTold(d, Some(ResumedContext(v, p, d, sc)));
    ResumedContextDescribes(v, p, d, sc);
  }

  lemma ResumedContextDescribes(v: View, p: ResumeParams, d: Detail, sc: ResumeScript)
    ensures Describes(ResumedContext(v, p, d, sc), d.swap, OrElse(d.destAddress, ""), OrElse(d.refundAddress, ""),
                      p.provider)
  {
  }

  lemma ProgressIsTold(d: Detail, snapshot: Option<Context>)
    requires ProgressOf(d).Some?
    ensures var (phase, _, payload) := ProgressOf(d).value;
      TellsProgress(Emission(phase, snapshot, payload), d, d.requiredAction)
  {
  }

  /** The step takes nothing back, and what it tells is an invitation to deposit or the swap's progress. */
  ghost predicate Opens(v: View, w: View, p: ResumeParams, d: Detail, sc: ResumeScript) {
    && v.emitted <= w.emitted
    && forall e :: e in Since(v, w) && Telling(e.phase) ==>
         || Invites(e, d.swap, OrElse(d.destAddress, ""), OrElse(d.refundAddress, ""), p.provider, sc.gate)
         || TellsFirst(e, p, d, sc)
  }

  lemma TransitionOpens(v: View, w: View, e: Emission, p: ResumeParams, d: Detail, sc: ResumeScript)
    requires v.emitted == w.emitted && (Telling(e.phase) ==> TellsFirst(e, p, d, sc))
    ensures Opens(v, Transition(w, e), p, d, sc)
  {
    hide Telling, Invites, TellsFirst;
  }

  lemma GateOpensUp(v: View, w: View, p: ResumeParams, d: Detail, sc: ResumeScript)
    requires v.emitted == w.emitted
    ensures Opens(v, EmitAwaitingDeposit(w, d.swap, OrElse(d.destAddress, ""), OrElse(d.refundAddress, ""), p.provider,
                                         sc.gate).view, p, d, sc)
  {
    GateTells(w, d.swap, OrElse(d.destAddress, ""), OrElse(d.refundAddress, ""), p.provider, sc.gate);
    hide EmitAwaitingDeposit, Invites, TellsFirst, Telling;
  }

  /** What a resumed swap is shown as first. */
  lemma InitialTells(v: View, p: ResumeParams, d: Detail, sc: ResumeScript)
    ensures Opens(v, EmitInitialResumePhase(v, d, p.provider, sc.initial, sc.gate).view, p, d, sc)
  {
    GateOpensUp(v, v, p, d, sc);
    if d.status !in PRE_DEPOSIT {
      TellingOnly();
      var w := v.(ctx := Some(ResumedContext(v, p, d, sc)));
      PastDeposit(v, p, d, sc);
      GateOpensUp(v, w, p, d, sc);
      var name := "resume:" + d.status;
      TransitionOpens(v, w, Emission(Failed, w.ctx, Reason("[" + name + "] " + Invalid(name))), p, d, sc);
      if ProgressOf(d).Some? && ValidVerified(w.ctx.value) {
        FirstProgressTells(v, p, d, sc);
        var (phase, text, payload) := ProgressOf(d).value;
        TransitionOpens(v, SetExtra(w, text, Message), Emission(phase, w.ctx, payload), p, d, sc);
      }
      hide EmitInitialResumePhase, EmitAwaitingDeposit, Telling, ProgressOf, ValidVerified, Transition, ResumedContext;
      hide Opens, TellsFirst, Invalid;
    } else {
      hide EmitAwaitingDeposit, Opens;
    }
  }

  // ----- whole runs of resume -----

  /** The receipt of a swap that had ended when it was resumed. */
  predicate ShowsReceipt(e: Emission, p: ResumeParams, d: Detail) {
    && TellsEnd(e, d, p.fromToken, p.toToken)
    && var c := e.snapshot.value;
    && c.depositAddr == d.swap.depositAddress && c.destAddress == d.destAddress && c.refundAddress == d.refundAddress
    && c.expectedOut == d.swap.expectedAmountOut && c.amountInUsd == d.swap.amountInUsd
    && c.expectedOutUsd == d.swap.expectedAmountOutUsd && c.provider == Some(p.provider)
  }

  lemma ReceiptIsShown(v: View, p: ResumeParams, d: Detail)
    requires Final(d.status) && v.lastPhase == CreatingSwap
    ensures var w := EmitTerminal(v.(ctx := Some(Receipt(Current(v), d, p.provider))), d, p.fromToken, p.toToken);
      && Some(w.lastPhase) == PhaseOf(d.status)
      && exists e :: w.emitted == v.emitted + [e] && e.phase == w.lastPhase && ShowsReceipt(e, p, d)
  {
    var u := v.(ctx := Some(Receipt(Current(v), d, p.provider)));
    EndTells(u, d, p.fromToken, p.toToken);
    StatusDecides(d);
    PhaseIsAnother(d.status);
    var w := EmitTerminal(u, d, p.fromToken, p.toToken);
    EndSnapshot(u, d, p.fromToken, p.toToken);
    hide EmitTerminal, TellsEnd, Final, PhaseOf;
    var e :| w.emitted == u.emitted + [e] && e.phase == w.lastPhase && TellsEnd(e, d, p.fromToken, p.toToken);
    assert e in Since(u, w) && ShowsReceipt(e, p, d);
  }

  /** An end changes nothing else in the context. */
  lemma EndSnapshot(v: View, d: Detail, fromToken: string, toToken: string)
    requires v.ctx.Some?
    ensures var w := EmitTerminal(v, d, fromToken, toToken);
      && v.emitted <= w.emitted
      && forall e :: e in Since(v, w) ==> e.snapshot == Some(v.ctx.value.(
           swapId := Some(d.swap.swapNumber), swapNumber := Some(d.swap.swapNumber), fromToken := Some(fromToken),
           toToken := Some(toToken), depositAmount := Some(d.swap.amountIn), extra := Some(TerminalText(d.status))))
  {
    hide TerminalText;
  }

  lemma LimitedSummarises(v: View, d: Detail)
    ensures Summarises(Limited(Current(v), d), d)
  {
  }

  /** What a resumed flow may tell of the swap whose detail it works from. */
  ghost predicate ToldOnResume(e: Emission, p: ResumeParams, d: Detail, sc: ResumeScript) {
    if d.restricted then
      TellsEnd(e, d, d.fromToken, d.toToken) || TellsLimited(e, d, d) || ToldLimited(e, d, sc.ticks)
    else if Final(d.status) then ShowsReceipt(e, p, d)
    else
      || Invites(e, d.swap, OrElse(d.destAddress, ""), OrElse(d.refundAddress, ""), p.provider, sc.gate)
      || TellsFirst(e, p, d, sc) || ToldBy(e, sc.ticks)
  }

  lemma RestrictedRunTells(v: View, d: Detail, ticks: seq<Tick>)
    ensures var w := RunRestricted(v, d, ticks);
      && v.emitted <= w.emitted
      && forall e :: e in Since(v, w) && Telling(e.phase) ==>
           TellsEnd(e, d, d.fromToken, d.toToken) || TellsLimited(e, d, d) || ToldLimited(e, d, ticks)
  {
    var u := v.(ctx := Some(Limited(Current(v), d)));
    LimitedSummarises(v, d);
    StatusDecides(d);
    if Final(d.status) {
      EndTells(u, d, d.fromToken, d.toToken);
      hide EmitTerminal, TellsEnd, TellsLimited, ToldLimited, Telling, Final, PhaseOf, Limited, PollLoopRestricted;
    } else {
      RestrictedTells(u, d, d);
      var first := EmitRestricted(u, d);
      RestrictedLoopTells(first, ticks, d);
      var w := PollLoopRestricted(first, ticks);
      assert Since(v, w) == Since(u, first) + Since(first, w);
      hide EmitRestricted, TellsEnd, TellsLimited, ToldLimited, Telling, Final, PhaseOf, Limited, PollLoopRestricted;
    }
  }

  /** Whatever a resumed flow tells of a deposit, of progress or of an end is true: the detail it works from or
      a poll it made said so, and a deposit invited for is that of the swap. */
  lemma ResumeTellsTheTruth(p: ResumeParams, sc: ResumeScript, maxRetries: int, e: Emission)
    requires e in Resume(p, sc, maxRetries).emitted && Telling(e.phase)
    ensures Fetched(p, sc, maxRetries).result.Ok?
    ensures ToldOnResume(e, p, Fetched(p, sc, maxRetries).result.value, sc)
  {
    hide Fetched, Telling, ToldOnResume;
    var got, end := Fetched(p, sc, maxRetries), Resume(p, sc, maxRetries);
    FetchedIsQuiet(p, sc, maxRetries);
    NothingTold(got.view);
    NothingTold(end);
    if got.result.Err? {
      hide Quiet, HandleError;
      HandleErrorIsQuiet(got.view, got.result.error, sc.abortedAtEnd);
      QuietTwice(FRESH, got.view, end);
    } else {
      FollowedTells(p, sc, maxRetries, got.view, got.result.value);
      hide Quiet, Resume;
      assert end.emitted == got.view.emitted + Since(got.view, end);
    }
  }

  lemma FollowedTells(p: ResumeParams, sc: ResumeScript, maxRetries: int, v: View, d: Detail)
    requires Fetched(p, sc, maxRetries) == Step(v, Ok(d))
    ensures var end := Resume(p, sc, maxRetries);
      v.emitted <= end.emitted && forall e :: e in Since(v, end) && Telling(e.phase) ==> ToldOnResume(e, p, d, sc)
  {
    hide Fetched, EmitInitialResumePhase, RunRestricted, EmitTerminal, PollLoop, HandleError, Receipt, Final, Cancel;
    hide Telling, Invites, TellsFirst, ToldBy, TellsEnd, TellsLimited, ToldLimited, ShowsReceipt;
    StatusDecides(d);
    var end := Resume(p, sc, maxRetries);
    if d.restricted {
      RestrictedRunTells(v, d, sc.ticks);
    } else if Final(d.status) {
      FetchedIsAtGate(p, sc, maxRetries, d);
      ReceiptIsShown(v, p, d);
    } else if sc.abortedBeforePhase {
      HandleErrorIsQuiet(v, CancelledFault, false);
      HandleErrorIsQuiet(Cancel(v), CancelledFault, sc.abortedAtEnd);
      QuietTwice(v, Cancel(v), end);
    } else {
      var shown := EmitInitialResumePhase(v, d, p.provider, sc.initial, sc.gate);
      InitialTells(v, p, d, sc);
      if shown.result.Err? {
        HandleErrorIsQuiet(shown.view, shown.result.error, sc.abortedAtEnd);
      } else {
        PollLoopTells(shown.view, sc.ticks);
      }
      assert Since(v, end) == Since(v, shown.view) + Since(shown.view, end);
    }
  }

  /** A resumed swap that has ended is shown as what it is. */
  lemma ResumeShowsEnd(p: ResumeParams, sc: ResumeScript, maxRetries: int)
    requires Fetched(p, sc, maxRetries).result.Ok? && Final(Fetched(p, sc, maxRetries).result.value.status)
    ensures var d, end := Fetched(p, sc, maxRetries).result.value, Resume(p, sc, maxRetries);
      && Some(end.lastPhase) == PhaseOf(d.status)
      && exists e :: e in end.emitted && Some(e.phase) == PhaseOf(d.status)
           && if d.restricted then TellsEnd(e, d, d.fromToken, d.toToken) else ShowsReceipt(e, p, d)
  {
    hide Fetched, EmitTerminal, Receipt, ShowsReceipt, TellsEnd, Limited;
    var got := Fetched(p, sc, maxRetries);
    var v, d := got.view, got.result.value;
    FetchedIsAtGate(p, sc, maxRetries, d);
    StatusDecides(d);
    PhaseIsAnother(d.status);
    if d.restricted {
      EndTells(v.(ctx := Some(Limited(Current(v), d))), d, d.fromToken, d.toToken);
    } else {
      ReceiptIsShown(v, p, d);
    }
    hide Final, PhaseOf;
  }

  /** The polling of a resumed swap begins. */
  predicate Polls(p: ResumeParams, d: Detail, sc: ResumeScript) {
    && !Final(d.status)
    && (d.restricted || (!sc.abortedBeforePhase && (GateDecides(p, d, sc) ==> GateOpens(d.swap, sc.gate))))
  }

  /** A resumed flow, too, shows the end that a poll brings, and ends in its phase. */
  lemma ResumeShowsPolledEnd(p: ResumeParams, sc: ResumeScript, maxRetries: int, j: nat)
    requires Fetched(p, sc, maxRetries).result.Ok? && Polls(p, Fetched(p, sc, maxRetries).result.value, sc)
    requires Seen(sc.ticks, j) && Final(TickDetail(sc.ticks, j).status)
    ensures var d, end := TickDetail(sc.ticks, j), Resume(p, sc, maxRetries);
      && Some(end.lastPhase) == PhaseOf(d.status)
      && (NamedEnd(d.status) ==>
            exists e :: e in end.emitted && Some(e.phase) == PhaseOf(d.status)
                        && TellsEnd(e, d, d.fromToken, d.toToken))
  {
    hide Fetched, EmitInitialResumePhase, RunRestricted, PollLoop, Final, NamedEnd, PhaseOf, TellsEnd, GateDecides;
    hide GateOpens, HandleError;
    var got := Fetched(p, sc, maxRetries);
    var v, d := got.view, got.result.value;
    FetchedIsAtGate(p, sc, maxRetries, d);
    StatusDecides(d);
    if d.restricted {
      RestrictedShowsEnd(v, d, sc.ticks, j);
    } else {
      InitialIsNoEnd(v, p, d, sc);
      var shown := EmitInitialResumePhase(v, d, p.provider, sc.initial, sc.gate).view;
      PollLoopEnds(shown, sc.ticks, j);
      if NamedEnd(TickDetail(sc.ticks, j).status) { PollLoopShowsEnd(shown, sc.ticks, j); }
    }
  }

  /** The first state of a resumed swap that has not ended is no end, and polling follows unless a gate closes. */
  lemma InitialIsNoEnd(v: View, p: ResumeParams, d: Detail, sc: ResumeScript)
    requires AtGate(v, ResumeParticulars(p, d)) && !Final(d.status)
    ensures var r := EmitInitialResumePhase(v, d, p.provider, sc.initial, sc.gate);
      && !EndPhase(r.view.lastPhase)
      && ((GateDecides(p, d, sc) ==> GateOpens(d.swap, sc.gate)) ==> r.result.Ok?)
  {
    hide EmitAwaitingDeposit, GateOpens, CompleteOnResume, AtGate;
    var dest, refund := OrElse(d.destAddress, ""), OrElse(d.refundAddress, "");
    StatusDecides(d);
    if d.status in PRE_DEPOSIT {
      GateIsNoEnd(v, d.swap, dest, refund, p.provider, sc.gate) by { AtGateIsNoEnd(v, p, d); }
    } else {
      var w := v.(ctx := Some(ResumedContext(v, p, d, sc)));
      AtGateIsNoEnd(v, p, d);
      PastDeposit(v, p, d, sc);
      ResumedContextIs(v, p, d, sc);
      GateIsNoEnd(w, d.swap, dest, refund, p.provider, sc.gate);
      UnderwayIsNoEnd(d.status);
      hide EmitInitialResumePhase, Underway, Final, PhaseOf, ProgressOf, ValidVerified, ResumedContext, Complete;
    }
  }

  lemma AtGateIsNoEnd(v: View, p: ResumeParams, d: Detail)
    requires AtGate(v, ResumeParticulars(p, d))
    ensures !EndPhase(v.lastPhase)
  {
  }

  lemma UnderwayIsNoEnd(status: string)
    ensures Underway(status) ==> PhaseOf(status).Some? && !EndPhase(PhaseOf(status).value)
  {
  }

  lemma RestrictedShowsEnd(v: View, d: Detail, ticks: seq<Tick>, j: nat)
    requires !Final(d.status) && v.lastPhase == CreatingSwap
    requires Seen(ticks, j) && Final(TickDetail(ticks, j).status)
    ensures var polled, end := TickDetail(ticks, j), RunRestricted(v, d, ticks);
      && Some(end.lastPhase) == PhaseOf(polled.status)
      && (NamedEnd(polled.status) ==>
            exists e :: e in end.emitted && Some(e.phase) == PhaseOf(polled.status)
                        && TellsEnd(e, polled, polled.fromToken, polled.toToken))
  {
    var u := v.(ctx := Some(Limited(Current(v), d)));
    var first, polled := EmitRestricted(u, d), TickDetail(ticks, j);
    LimitedSummarises(v, d);
    StatusDecides(d);
    StatusDecides(polled);
    RestrictedTells(u, d, d);
    RestrictedMoves(u, d);
    RestrictedPhase(u, d);
    UnderwayIsNoEnd(d.status);
    if NamedEnd(polled.status) { NamedEndHasPhase(polled.status); }
    hide EmitRestricted, PollLoopRestricted, Limited, Summarises, NamedEnd, Final, Underway, PhaseOf, TellsEnd, Moves;
    var end := PollLoopRestricted(first, ticks);
    assert end == RunRestricted(v, d, ticks);
    RestrictedLoopEnds(first, ticks, d, j);
    if NamedEnd(polled.status) {
      RestrictedLoopShows(first, first, ticks, d, j);
      RestrictedLoopTells(first, ticks, d);
      var e :| e in Since(first, end) && e.phase == PhaseOf(polled.status).value;
      EndIsToldLimited(e, d, ticks, j);
      assert e in end.emitted;
    }
  }

  /** A restricted state leaves the phase of a status under way, or the phase as it was. */
  lemma RestrictedPhase(v: View, d: Detail)
    requires v.ctx.Some? && ValidBase(v.ctx.value)
    ensures if Underway(d.status) then Some(EmitRestricted(v, d).lastPhase) == PhaseOf(d.status)
            else EmitRestricted(v, d).lastPhase == v.lastPhase
  {
    StatusDecides(d);
    hide ProgressOf, PhaseOf, Underway, Final, ProgressName;
  }

  lemma {:induction false} RestrictedLoopEnds(v: View, ticks: seq<Tick>, first: Detail, j: nat)
    requires v.ctx.Some? && Summarises(v.ctx.value, first)
    requires Seen(ticks, j) && Final(TickDetail(ticks, j).status)
    ensures Some(PollLoopRestricted(v, ticks).lastPhase) == PhaseOf(TickDetail(ticks, j).status)
    decreases ticks
  {
    hide PollRestricted, Final, Underway, PhaseOf, Moves, Summarises;
    RestrictedPollArrives(v, ticks[0], first);
    EndIsLast(ticks[0]);
    if j > 0 {
      SeenLater(ticks, j - 1);
      RestrictedLoopEnds(PollRestricted(v, ticks[0]).0, ticks[1..], first, j - 1);
    }
  }

  lemma EndIsToldLimited(e: Emission, first: Detail, ticks: seq<Tick>, j: nat)
    requires EndPhase(e.phase) && Seen(ticks, j) && Final(TickDetail(ticks, j).status)
    requires Telling(e.phase) ==> ToldLimited(e, first, ticks)
    ensures TellsEnd(e, TickDetail(ticks, j), TickDetail(ticks, j).fromToken, TickDetail(ticks, j).toToken)
  {
    hide TellsEnd, Final, Summarises;
    var k :| 0 <= k && Seen(ticks, k) && PolledLimited(e, TickDetail(ticks, k), first);
    var d := TickDetail(ticks, k);
    assert TellsEnd(e, d, d.fromToken, d.toToken);
    OnlyFinalEnds(e, d);
    assert k == j;
  }

  // ----- a punished swap -----

  /** No run ever shows a swap as punished: no poll ends on that status, and none announces it. */
  lemma PunishedIsNeverShown(e: Emission, p: StartParams, sc: StartScript, r: ResumeParams, rc: ResumeScript,
                             maxRetries: int)
    requires e in Start(p, sc, maxRetries).emitted || e in Resume(r, rc, maxRetries).emitted
    ensures e.phase != Punished
  {
    hide Start, Resume;
    if e.phase == Punished {
      PunishedIsNotTold(e);
      if e in Start(p, sc, maxRetries).emitted {
        StartTellsTheTruth(p, sc, maxRetries, e);
      } else {
        ResumeTellsTheTruth(r, rc, maxRetries, e);
      }
      assert false;
    }
  }

  lemma PunishedIsNotTold(e: Emission)
    ensures e.phase == Punished ==> Telling(e.phase)
    ensures e.phase == Punished ==>
      && (forall s, dest, refund, provider, g :: !Invites(e, s, dest, refund, provider, g))
      && (forall ticks :: !ToldBy(e, ticks))
      && (forall p, d, sc :: !ToldOnResume(e, p, d, sc))
  {
  }

  /** A poll that finds the swap punished changes nothing but the verification mark, and polling goes on. */
  lemma PunishedPollIsPassedOver(v: View, t: Tick)
    requires !t.aborted && t.detail.Some? && t.detail.value.status == "punished"
    ensures Poll(v, t) == (Populated(v, t.detail.value), false)
    ensures Poll(v, t).0.emitted == v.emitted && Poll(v, t).0.lastPhase == v.lastPhase
  {
    hide EmitTerminal;
  }
}
