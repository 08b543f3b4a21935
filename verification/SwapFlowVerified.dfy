/** When a flow may tell its user that the swap is verified: exactly, from the answers it is given. */
module SwapFlowVerified {
  import opened Wrappers
  import opened FlowContext
  import opened SwapFlow
  import opened SwapFlowSafety
  import opened SwapFlowPolls

  // ----- the gate -----

  /** The verifier ran on the swap and accepted it, and nothing was aborted. */
  predicate GateAccepts(s: Swap, g: Gate) {
    VerifierRuns(s) && g.verdict.Answered? && g.verdict.result.verified && !g.aborted
  }

  /** The gate neither throws nor cancels, so that polling follows. */
  predicate GateOpens(s: Swap, g: Gate) {
    !g.aborted && !(VerifierRuns(s) && g.verdict.Raised?)
  }

  /** What a gate is given besides the swap: the tokens in the context, the destination and the provider. */
  datatype Particulars = Particulars(fromToken: string, toToken: string, dest: string, refund: string, provider: string)

  /** The gate leaves a context that can be shown in progress. */
  predicate GateCompletes(s: Swap, x: Particulars, g: Gate) {
    && !Refused(s, g) && Truthy(s.depositAddress) && Truthy(g.qr)
    && x.fromToken != "" && x.toToken != "" && x.dest != "" && x.provider != ""
  }

  function GatePhase(s: Swap, x: Particulars, g: Gate): Phase {
    if Refused(s, g) then VerificationFailed else if GateCompletes(s, x, g) then AwaitingDeposit else Failed
  }

  /** A flow that goes on from the gate shows the swap as verified at once, or in its polls. */
  ghost predicate VerifiedFromGate(s: Swap, x: Particulars, g: Gate, ticks: seq<Tick>) {
    || GateAccepts(s, g)
    || (GateOpens(s, g) && ShownFrom(GatePhase(s, x, g), GateCompletes(s, x, g), false, ticks))
  }

  /** A context with these tokens and a text in it, whose last phase was the creation. */
  predicate AtGate(v: View, x: Particulars) {
    && v.ctx.Some? && v.lastPhase == CreatingSwap && ValidBase(v.ctx.value)
    && v.ctx.value.fromToken == Some(x.fromToken) && v.ctx.value.toToken == Some(x.toToken)
  }

  /** The flow from the gate on. */
  function FromGate(v: View, s: Swap, x: Particulars, g: Gate, ticks: seq<Tick>, abortedAtEnd: bool): View {
    var shown := EmitAwaitingDeposit(v, s, x.dest, x.refund, x.provider, g);
    if shown.result.Err? then HandleError(shown.view, shown.result.error, abortedAtEnd) else PollLoop(shown.view, ticks)
  }

  lemma FromGateSays(v: View, s: Swap, x: Particulars, g: Gate, ticks: seq<Tick>, abortedAtEnd: bool)
    requires v.ctx.Some? && AtGate(v, x) && !Said(v.emitted)
    ensures Said(FromGate(v, s, x, g, ticks, abortedAtEnd).emitted) <==>
      if GateOpens(s, g) then VerifiedFromGate(s, x, g, ticks) else Marked(v.ctx.value)
  {
    hide Said, PollLoop, HandleError, EmitAwaitingDeposit, ShownFrom, GateCompletes, VerifierRuns, AtGate;
    var shown := EmitAwaitingDeposit(v, s, x.dest, x.refund, x.provider, g);
    var end := FromGate(v, s, x, g, ticks, abortedAtEnd);
    if GateOpens(s, g) {
      GateLeaves(v, s, x, g);
      PollLoopSays(shown.view, ticks, GateCompletes(s, x, g));
      SaidStays(shown.view, end);
      SaidStays(v, shown.view);
      AddsMore(v, shown.view, GateAccepts(s, g));
      assert GateAccepts(s, g) || !Marked(shown.view.ctx.value);
    } else {
      ClosedGateSays(v, s, x, g, abortedAtEnd);
      SaidStays(v, end);
      AddsMore(v, end, Marked(v.ctx.value));
    }
  }

  /** The context an open gate leaves when the verifier does not refuse. */
  function OpenedContext(v: View, s: Swap, x: Particulars, g: Gate): Context
    requires GateOpens(s, g)
  {
    var verification := if VerifierRuns(s) then g.verdict.result
      else Verification(false, x.provider, [FlowContext.Check("Server verification", false, "Pending")]);
    Hydrated(Current(v), s, x.dest, x.refund, x.provider, g.qr, verification).(
      extra := Some(Extra("Awaiting deposit to " + Take(OrElse(s.depositAddress, ""), 16) + "...", Message)))
  }

  lemma OpenedContextIs(v: View, s: Swap, x: Particulars, g: Gate)
    requires AtGate(v, x) && GateOpens(s, g) && !Refused(s, g)
    ensures var c := OpenedContext(v, s, x, g);
      && (ValidPopulated(c) <==> GateCompletes(s, x, g)) && Complete(c) == GateCompletes(s, x, g)
      && c.verification.Some? && Marked(c) == GateAccepts(s, g)
  {
    hide Take;
  }

  lemma OpenGateShows(v: View, s: Swap, x: Particulars, g: Gate)
    requires GateOpens(s, g) && !Refused(s, g)
    ensures var w := v.(ctx := Some(OpenedContext(v, s, x, g)));
      var (y, populated) := Demand(w, ValidPopulated, "awaiting-deposit");
      EmitAwaitingDeposit(v, s, x.dest, x.refund, x.provider, g)
      == Step(if populated.Some? then Transition(y, Emission(AwaitingDeposit, populated, Plain)) else y, Ok(()))
  {
    hide Take, Transition, ValidPopulated, Demand;
  }

  /** An open gate shows one state, marked if the verifier accepted, and leaves what polling needs. */
  lemma GateLeaves(v: View, s: Swap, x: Particulars, g: Gate)
    requires AtGate(v, x) && GateOpens(s, g)
    ensures var r := EmitAwaitingDeposit(v, s, x.dest, x.refund, x.provider, g);
      && r.result.Ok? && r.view.lastPhase == GatePhase(s, x, g)
      && Adds(v, r.view, GateAccepts(s, g)) && |v.emitted| < |r.view.emitted|
      && Tracks(r.view, GateCompletes(s, x, g))
  {
    if Refused(s, g) {
      RefusingGateLeaves(v, s, x, g);
    } else {
      OpenedContextIs(v, s, x, g);
      OpenGateShows(v, s, x, g);
      DemandShows(v, OpenedContext(v, s, x, g));
      hide EmitAwaitingDeposit, OpenedContext, GateCompletes, GateAccepts, ValidPopulated, Complete, VerifierRuns;
      hide Demand, Transition, Adds, Marked;
    }
  }

  /** Demanding a populated context shows a state from it: an invitation, or a failure. */
  lemma DemandShows(v: View, c: Context)
    requires v.lastPhase == CreatingSwap
    ensures var (y, populated) := Demand(v.(ctx := Some(c)), ValidPopulated, "awaiting-deposit");
      var w := if populated.Some? then Transition(y, Emission(AwaitingDeposit, populated, Plain)) else y;
      && w.lastPhase == (if ValidPopulated(c) then AwaitingDeposit else Failed)
      && w.ctx == Some(c) && |v.emitted| < |w.emitted| && Adds(v, w, Marked(c))
  {
    hide ValidPopulated, Adds, Marked;
    var w := v.(ctx := Some(c));
    var shown := Emission(AwaitingDeposit, Some(c), Plain);
    var failed := Emission(Failed, Some(c), Reason("[" + "awaiting-deposit" + "] " + Invalid("awaiting-deposit")));
    TransitionAdds(w, shown);
    TransitionAdds(w, failed);
    SameEmitted(v, w, Transition(w, shown), Marked(c));
    SameEmitted(v, w, Transition(w, failed), Marked(c));
  }

  lemma RefusingGateLeaves(v: View, s: Swap, x: Particulars, g: Gate)
    requires AtGate(v, x) && GateOpens(s, g) && Refused(s, g)
    ensures var r := EmitAwaitingDeposit(v, s, x.dest, x.refund, x.provider, g);
      && r.result.Ok? && r.view.lastPhase == GatePhase(s, x, g)
      && Adds(v, r.view, GateAccepts(s, g)) && |v.emitted| < |r.view.emitted|
      && Tracks(r.view, GateCompletes(s, x, g))
  {
    hide Take, Hydrated, ValidPopulated;
  }

  /** The gate, case by case. With both an address and data to check it with, the verifier is asked: what it
      throws is thrown, and what it refuses is shown as refused. Without either it is not asked. */
  lemma GateInFull(v: View, s: Swap, x: Particulars, g: Gate)
    requires AtGate(v, x)
    ensures var r := EmitAwaitingDeposit(v, s, x.dest, x.refund, x.provider, g);
      var asked := s.depositAddress.Some? && s.depositAddress.value != "" && s.verification.Some?;
      if asked && g.verdict.Raised? then r == Step(v, Err(g.verdict.error))
      else if g.aborted then r.result == Err(CancelledFault) && r.view.lastPhase == Cancelled
      else
        && r.result.Ok?
        && r.view.lastPhase ==
             if asked && !g.verdict.result.verified then VerificationFailed
             else if && s.depositAddress.Some? && s.depositAddress.value != "" && g.qr.Some? && g.qr.value != ""
                     && x.fromToken != "" && x.toToken != "" && x.dest != "" && x.provider != "" then AwaitingDeposit
             else Failed
  {
    if GateOpens(s, g) { GateLeaves(v, s, x, g); }
    hide Hydrated, Withheld, Take, ValidPopulated, ValidBase;
  }

  /** A closed gate ends the flow with a state that shows the context as it was. */
  lemma ClosedGateSays(v: View, s: Swap, x: Particulars, g: Gate, abortedAtEnd: bool)
    requires AtGate(v, x) && !GateOpens(s, g)
    ensures var r := EmitAwaitingDeposit(v, s, x.dest, x.refund, x.provider, g);
      && r.result.Err?
      && var end := HandleError(r.view, r.result.error, abortedAtEnd);
      && Adds(v, end, Marked(v.ctx.value)) && |v.emitted| < |end.emitted|
  {
    hide Take, Hydrated, Withheld;
  }

  // ----- runs of start -----

  /** A context changed in its text only, for one that is not empty. */
  predicate Kin(v: View, w: View) {
    && v.ctx.Some? && w.ctx.Some? && w.ctx.value == v.ctx.value.(extra := w.ctx.value.extra)
    && (ValidBase(v.ctx.value) ==> ValidBase(w.ctx.value))
  }

  lemma AfterFaultKin(v: View, e: SwapFlow.Error, attempt: nat, maxRetries: int, aborted: bool)
    requires v.ctx.Some?
    ensures Kin(v, AfterFault(v, e, attempt, maxRetries, aborted).view)
    ensures var r := AfterFault(v, e, attempt, maxRetries, aborted);
      r.result.Ok? ==> r.view.lastPhase == CreatingSwap
  {
    hide Text.Decimal;
  }

  lemma {:induction false} CreateSwapKin(v: View, attempts: nat -> Attempt<Swap>, attempt: nat, maxRetries: int,
                                         last: SwapFlow.Error)
    requires v.ctx.Some?
    ensures Kin(v, CreateSwap(v, attempts, attempt, maxRetries, last).view)
    decreases maxRetries - attempt + 1
  {
    hide AfterFault, IsTransient;
    if attempt <= maxRetries {
      var a := attempts(attempt);
      if a.challengeFault.Some? {
        AfterFaultKin(v, a.challengeFault.value, attempt, maxRetries, a.abortedAfterPause);
        var next := AfterFault(v, a.challengeFault.value, attempt, maxRetries, a.abortedAfterPause);
        if next.result.Ok? {
          CreateSwapKin(next.view, attempts, attempt + 1, maxRetries, a.challengeFault.value);
        }
      } else if !a.aborted && a.answer.Err? {
        var w := Creating(if attempt == 0 then SetExtra(v, "Creating swap...", Message) else v);
        AfterFaultKin(w, a.answer.error, attempt, maxRetries, a.abortedAfterPause);
        var next := AfterFault(w, a.answer.error, attempt, maxRetries, a.abortedAfterPause);
        if next.result.Ok? {
          CreateSwapKin(next.view, attempts, attempt + 1, maxRetries, a.answer.error);
        }
      }
    }
  }

  function StartParticulars(p: StartParams): Particulars {
    Particulars(p.fromToken, p.toToken, p.destAddress, p.refundAddress, p.provider)
  }

  lemma CreatedIsAtGate(p: StartParams, sc: StartScript, maxRetries: int)
    requires Created(p, sc, maxRetries).result.Ok?
    ensures AtGate(Created(p, sc, maxRetries).view, StartParticulars(p))
  {
    hide CreateSwap, Keeps;
    CreatedKeeps(Unmarked, p, sc, maxRetries);
    CreateSwapKin(Started(p), sc.attempts, 0, maxRetries, NO_ATTEMPT);
  }

  /** The created swap was accepted by the verifier. */
  predicate Accepted(p: StartParams, sc: StartScript, maxRetries: int) {
    var made := Created(p, sc, maxRetries);
    made.result.Ok? && GateAccepts(made.result.value, sc.gate)
  }

  /** The gate lets the flow go on, and some poll shows a state, with verification data in it or before. */
  ghost predicate DataIsShown(p: StartParams, sc: StartScript, maxRetries: int) {
    var made := Created(p, sc, maxRetries);
    && made.result.Ok?
    && var s, x := made.result.value, StartParticulars(p);
    && GateOpens(s, sc.gate)
    && ShownFrom(GatePhase(s, x, sc.gate), GateCompletes(s, x, sc.gate), false, sc.ticks)
  }

  /** A run of `start` shows the swap as verified if and only if the verifier accepted it, or the flow
      gets past the gate and a poll shows a state with verification data in it or in an earlier poll. */
  lemma VerifiedShownExactly(p: StartParams, sc: StartScript, maxRetries: int)
    ensures Said(Start(p, sc, maxRetries).emitted) <==> Accepted(p, sc, maxRetries) || DataIsShown(p, sc, maxRetries)
  {
    hide Created, Keeps, EmitAwaitingDeposit, PollLoop, HandleError, Said, VerifierRuns, ShownFrom, GateCompletes;
    var made := Created(p, sc, maxRetries);
    CreatedKeeps(Unmarked, p, sc, maxRetries);
    UnmarkedSaysNothing(made.view);
    if made.result.Err? {
      HandleErrorKeeps(Unmarked, made.view, made.result.error, sc.abortedAtEnd);
      UnmarkedSaysNothing(Start(p, sc, maxRetries));
    } else {
      CreatedIsAtGate(p, sc, maxRetries);
      FromGateSays(made.view, made.result.value, StartParticulars(p), sc.gate, sc.ticks, sc.abortedAtEnd);
      hide GatePhase;
    }
  }

  lemma UnmarkedSaysNothing(v: View)
    requires Keeps(Unmarked, v)
    ensures !Said(v.emitted) && (v.ctx.Some? ==> !Marked(v.ctx.value))
  {
  }

  // ----- a refused swap -----

  predicate ProgressBefore(ticks: seq<Tick>, j: nat)
    requires j <= |ticks|
  {
    exists i :: 0 <= i < j && IsProgress(ticks[i])
  }

  /** The polls of a refused swap that show a state: an abort, the first status in progress, which fails,
      and a terminal status, unless that too is a failure and comes after one. */
  predicate RefusedShows(ticks: seq<Tick>, j: nat)
    requires j < |ticks|
  {
    var t := ticks[j];
    && Reached(ticks, j)
    && (t.aborted || (IsProgress(t) && !ProgressBefore(ticks, j))
        || (IsTerminal(t) && (TerminalPhase(t.detail.value) != Failed || !ProgressBefore(ticks, j))))
  }

  lemma {:induction false} PhaseOfRefused(ticks: seq<Tick>, j: nat)
    requires j <= |ticks| && Reached(ticks, j)
    ensures PhaseBefore(VerificationFailed, false, ticks, j)
         == if ProgressBefore(ticks, j) then Failed else VerificationFailed
  {
    hide ProgressOf, TerminalPhase;
    if j > 0 {
      PhaseOfRefused(ticks, j - 1);
      assert ProgressBefore(ticks, j) <==> ProgressBefore(ticks, j - 1) || IsProgress(ticks[j - 1]);
    }
  }

  lemma TerminalPhaseIsFinal(d: Detail)
    ensures TerminalPhase(d) != VerificationFailed
  {
  }

  /** A swap the verifier refused is shown as verified if and only if some poll shows a state and it or an
      earlier poll brings verification data: the server alone then says that the swap is verified. */
  lemma RefusedShownExactly(p: StartParams, sc: StartScript, maxRetries: int)
    requires Created(p, sc, maxRetries).result.Ok?
    requires Refused(Created(p, sc, maxRetries).result.value, sc.gate)
    ensures Said(Start(p, sc, maxRetries).emitted) <==>
      && sc.gate.verdict.Answered? && !sc.gate.aborted
      && exists k, j :: 0 <= k <= j < |sc.ticks| && CarriesData(sc.ticks[k]) && RefusedShows(sc.ticks, j)
  {
    hide Created, Start, Said, CarriesData;
    VerifiedShownExactly(p, sc, maxRetries);
    forall j | 0 <= j < |sc.ticks|
      ensures Shows(VerificationFailed, false, sc.ticks, j) <==> RefusedShows(sc.ticks, j)
    {
      RefusedShowsExactly(sc.ticks, j);
    }
    hide Shows, RefusedShows;
  }

  lemma RefusedShowsExactly(ticks: seq<Tick>, j: nat)
    requires j < |ticks|
    ensures Shows(VerificationFailed, false, ticks, j) <==> RefusedShows(ticks, j)
  {
    hide ProgressOf, TerminalPhase, PhaseBefore, ProgressBefore, Reached;
    if Reached(ticks, j) {
      PhaseOfRefused(ticks, j);
      if IsTerminal(ticks[j]) { TerminalPhaseIsFinal(ticks[j].detail.value); }
    }
  }

  /** The verifier says no to the created swap; one poll then finds it completed, with verification data. */
  function RefusedScript(): StartScript {
    var swap := Swap("1", Some("address"), Some(ServerVerification("p", None)), None, None, "1", None, None);
    var detail := Detail(swap, false, "completed", "p", "BTC", "XMR", None, None, None, None, None, None, None);
    var gate := Gate(Answered(Verification(false, "p", [])), false, None);
    StartScript(_ => Attempt(None, false, Ok(swap), false), false, gate, [Tick(false, Some(detail))], false)
  }

  /** A swap the verifier refused can be shown as verified. */
  lemma RefusedSwapCanSayVerified(p: StartParams)
    ensures var sc := RefusedScript();
      && Created(p, sc, 0).result.Ok? && Refused(Created(p, sc, 0).result.value, sc.gate)
      && Said(Start(p, sc, 0).emitted)
  {
    hide Created, Said, Start;
    var sc := RefusedScript();
    CreationSucceeds(p);
    RefusedShownExactly(p, sc, 0);
    assert CarriesData(sc.ticks[0]) && RefusedShows(sc.ticks, 0);
  }

  lemma CreationSucceeds(p: StartParams)
    ensures var sc := RefusedScript(); Created(p, sc, 0).result == sc.attempts(0).answer
  {
    hide Transition;
  }

  // ----- runs of resume -----

  lemma {:induction false} FetchDetailKin(v: View, attempts: nat -> Attempt<Detail>, attempt: nat, maxRetries: int,
                                          last: SwapFlow.Error)
    requires v.ctx.Some? && v.lastPhase == CreatingSwap
    ensures var r := FetchDetail(v, attempts, attempt, maxRetries, last);
      Kin(v, r.view) && (r.result.Ok? ==> r.view.lastPhase == CreatingSwap)
    decreases maxRetries - attempt + 1
  {
    hide AfterFault;
    if attempt <= maxRetries && attempts(attempt).answer.Err? {
      var a := attempts(attempt);
      AfterFaultKin(v, a.answer.error, attempt, maxRetries, a.abortedAfterPause);
      var next := AfterFault(v, a.answer.error, attempt, maxRetries, a.abortedAfterPause);
      if next.result.Ok? {
        FetchDetailKin(next.view, attempts, attempt + 1, maxRetries, a.answer.error);
      }
    }
  }

  function ResumeParticulars(p: ResumeParams, d: Detail): Particulars {
    Particulars(p.fromToken, p.toToken, OrElse(d.destAddress, ""), OrElse(d.refundAddress, ""), p.provider)
  }

  lemma FetchedIsAtGate(p: ResumeParams, sc: ResumeScript, maxRetries: int, d: Detail)
    requires Fetched(p, sc, maxRetries).result == Ok(d)
    ensures AtGate(Fetched(p, sc, maxRetries).view, ResumeParticulars(p, d))
  {
    hide FetchDetail;
    FetchDetailKin(Resumed(p), sc.attempts, 0, maxRetries, NoFetch(p.swapId));
  }

  /** Past the deposit the context is marked, unless the verifier runs, answers and says no. */
  predicate MarkedOnResume(d: Detail, sc: ResumeScript) {
    !(VerifierRuns(d.swap) && sc.initial.verdict.Answered? && !sc.initial.verdict.result.verified)
  }

  predicate CompleteOnResume(p: ResumeParams, d: Detail, sc: ResumeScript) {
    && Truthy(d.swap.depositAddress) && Truthy(sc.initial.qr) && Truthy(d.destAddress)
    && p.fromToken != "" && p.toToken != "" && p.provider != ""
  }

  /** The deposit gate decides what is shown first: before the deposit, and on a status that has no phase. */
  predicate GateDecides(p: ResumeParams, d: Detail, sc: ResumeScript) {
    d.status in PRE_DEPOSIT || (CompleteOnResume(p, d, sc) && !Underway(d.status))
  }

  function FirstPhase(p: ResumeParams, d: Detail, sc: ResumeScript): Phase
    requires !GateDecides(p, d, sc)
  {
    if CompleteOnResume(p, d, sc) then PhaseOf(d.status).value else Failed
  }

  /** What shows the swap as verified when the flow resumes from this detail. */
  ghost predicate VerifiedOnResume(p: ResumeParams, d: Detail, sc: ResumeScript) {
    if GateDecides(p, d, sc) then
      if GateOpens(d.swap, sc.gate) then VerifiedFromGate(d.swap, ResumeParticulars(p, d), sc.gate, sc.ticks)
      else d.status !in PRE_DEPOSIT && MarkedOnResume(d, sc)
    else
      || MarkedOnResume(d, sc)
      || ShownFrom(FirstPhase(p, d, sc), CompleteOnResume(p, d, sc), false, sc.ticks)
  }

  /** The detail, cached or fetched, is one to follow: unrestricted, not terminal, and nothing was aborted. */
  predicate Followed(p: ResumeParams, sc: ResumeScript, maxRetries: int) {
    var got := Fetched(p, sc, maxRetries);
    && got.result.Ok? && !got.result.value.restricted && got.result.value.status !in TERMINAL_STATUSES
    && !sc.abortedBeforePhase
  }

  /** A run of `resume` shows the swap as verified if and only if it has a detail to follow and: when the
      gate decides, the verifier accepts or a poll after it shows a state with verification data; when not,
      the verifier does not refuse, or a poll shows such a state. A closed gate after the deposit shows
      the mark set before it. */
  lemma ResumedVerifiedExactly(p: ResumeParams, sc: ResumeScript, maxRetries: int)
    ensures Said(Resume(p, sc, maxRetries).emitted) <==>
      Followed(p, sc, maxRetries) && VerifiedOnResume(p, Fetched(p, sc, maxRetries).result.value, sc)
  {
    hide Fetched, Keeps, Said, VerifiedOnResume, EmitInitialResumePhase, PollLoop, HandleError, EmitTerminal, Receipt;
    var got := Fetched(p, sc, maxRetries);
    FetchedKeeps(Unmarked, p, sc, maxRetries);
    UnmarkedSaysNothing(got.view);
    if Followed(p, sc, maxRetries) {
      FetchedIsAtGate(p, sc, maxRetries, got.result.value);
      FollowedSays(got.view, p, got.result.value, sc);
    } else {
      UnfollowedSaysNothing(p, sc, maxRetries);
    }
  }

  lemma UnfollowedSaysNothing(p: ResumeParams, sc: ResumeScript, maxRetries: int)
    requires !Followed(p, sc, maxRetries)
    ensures !Said(Resume(p, sc, maxRetries).emitted)
  {
    hide Fetched, Keeps, EmitTerminal, HandleError, Cancel, RunRestricted;
    var got := Fetched(p, sc, maxRetries);
    FetchedKeeps(Unmarked, p, sc, maxRetries);
    UnmarkedSaysNothing(got.view);
    if got.result.Err? {
      HandleErrorKeeps(Unmarked, got.view, got.result.error, sc.abortedAtEnd);
      UnmarkedSaysNothing(Resume(p, sc, maxRetries));
    } else if got.result.value.restricted {
      RestrictedRunShowsNothing(p, sc, maxRetries);
    } else if got.result.value.status in TERMINAL_STATUSES {
      var d := got.result.value;
      var c := Receipt(Current(got.view), d, p.provider);
      ReplaceKeeps(Unmarked, got.view, c);
      EmitTerminalKeeps(Unmarked, got.view.(ctx := Some(c)), d, p.fromToken, p.toToken);
      UnmarkedSaysNothing(Resume(p, sc, maxRetries));
    } else {
      CancelKeeps(Unmarked, got.view);
      HandleErrorKeeps(Unmarked, Cancel(got.view), CancelledFault, sc.abortedAtEnd);
      UnmarkedSaysNothing(Resume(p, sc, maxRetries));
    }
  }

  /** The flow from the first phase of a resumed swap on. */
  function FromResume(v: View, p: ResumeParams, d: Detail, sc: ResumeScript): View {
    var shown := EmitInitialResumePhase(v, d, p.provider, sc.initial, sc.gate);
    if shown.result.Err? then HandleError(shown.view, shown.result.error, sc.abortedAtEnd)
    else PollLoop(shown.view, sc.ticks)
  }

  /** The context past the deposit. */
  function ResumedContext(v: View, p: ResumeParams, d: Detail, sc: ResumeScript): Context {
    var verification := if VerifierRuns(d.swap) && sc.initial.verdict.Answered? then sc.initial.verdict.result
      else Verification(true, p.provider, [FlowContext.Check("Server verification", true, "Resumed")]);
    Hydrated(Current(v), d.swap, OrElse(d.destAddress, ""), OrElse(d.refundAddress, ""), p.provider, sc.initial.qr,
             verification)
  }

  lemma FollowedSays(v: View, p: ResumeParams, d: Detail, sc: ResumeScript)
    requires v.ctx.Some? && AtGate(v, ResumeParticulars(p, d)) && !Said(v.emitted) && !Marked(v.ctx.value)
    ensures Said(FromResume(v, p, d, sc).emitted) <==> VerifiedOnResume(p, d, sc)
  {
    hide Said, ShownFrom, VerifiedFromGate, PollLoop, HandleError, EmitAwaitingDeposit, CompleteOnResume;
    hide MarkedOnResume, GateOpens, AtGate, Underway, PhaseOf, Adds, Tracks;
    var x := ResumeParticulars(p, d);
    if d.status in PRE_DEPOSIT {
      FromGateSays(v, d.swap, x, sc.gate, sc.ticks, sc.abortedAtEnd);
    } else {
      var w := v.(ctx := Some(ResumedContext(v, p, d, sc)));
      assert AtGate(w, x) && Marked(w.ctx.value) == MarkedOnResume(d, sc) by { ResumedContextIs(v, p, d, sc); }
      if GateDecides(p, d, sc) {
        GateIsNext(v, p, d, sc);
        FromGateSays(w, d.swap, x, sc.gate, sc.ticks, sc.abortedAtEnd);
      } else {
        var shown := EmitInitialResumePhase(v, d, p.provider, sc.initial, sc.gate);
        FirstPhaseIsShown(v, p, d, sc);
        var complete, end := CompleteOnResume(p, d, sc), PollLoop(shown.view, sc.ticks);
        PollLoopSays(shown.view, sc.ticks, complete);
        AddsMore(v, shown.view, MarkedOnResume(d, sc));
        SaidStays(v, shown.view);
        SaidStays(shown.view, end);
      }
    }
  }

  lemma ResumedContextIs(v: View, p: ResumeParams, d: Detail, sc: ResumeScript)
    requires AtGate(v, ResumeParticulars(p, d))
    ensures var c := ResumedContext(v, p, d, sc);
      && AtGate(v.(ctx := Some(c)), ResumeParticulars(p, d)) && c.verification.Some?
      && Marked(c) == MarkedOnResume(d, sc) && Complete(c) == CompleteOnResume(p, d, sc)
      && (ValidVerified(c) <==> CompleteOnResume(p, d, sc))
  {
  }

  lemma GateIsNext(v: View, p: ResumeParams, d: Detail, sc: ResumeScript)
    requires AtGate(v, ResumeParticulars(p, d)) && d.status !in PRE_DEPOSIT && GateDecides(p, d, sc)
    ensures FromResume(v, p, d, sc)
         == FromGate(v.(ctx := Some(ResumedContext(v, p, d, sc))), d.swap, ResumeParticulars(p, d), sc.gate, sc.ticks,
                     sc.abortedAtEnd)
  {
    hide EmitAwaitingDeposit, HandleError, PollLoop, ProgressOf, ValidVerified, AtGate, CompleteOnResume, VerifierRuns;
    hide Hydrated;
    ResumedContextIs(v, p, d, sc);
    StatusDecides(d);
    hide Underway, PhaseOf;
  }

  lemma FirstPhaseIsShown(v: View, p: ResumeParams, d: Detail, sc: ResumeScript)
    requires AtGate(v, ResumeParticulars(p, d)) && !GateDecides(p, d, sc)
    ensures var r := EmitInitialResumePhase(v, d, p.provider, sc.initial, sc.gate);
      && r.result.Ok? && r.view.lastPhase == FirstPhase(p, d, sc)
      && Adds(v, r.view, MarkedOnResume(d, sc)) && |v.emitted| < |r.view.emitted|
      && Tracks(r.view, CompleteOnResume(p, d, sc))
  {
    ResumedContextIs(v, p, d, sc);
    StatusDecides(d);
    PhaseIsAnother(d.status);
    PastDeposit(v, p, d, sc);
    var c := ResumedContext(v, p, d, sc);
    var name := "resume:" + d.status;
    StateAdds(v, c, c, Emission(Failed, Some(c), Reason("[" + name + "] " + Invalid(name))));
    if ProgressOf(d).Some? {
      var (phase, text, payload) := ProgressOf(d).value;
      StateAdds(v, c, c.(extra := Some(Extra(text, Message))), Emission(phase, Some(c), payload));
    }
    hide EmitInitialResumePhase, CompleteOnResume, MarkedOnResume, VerifierRuns, ValidVerified, ProgressOf, Underway;
    hide PhaseOf, Complete, ProgressName, Wordless, Final, ResumedContext, Hydrated, Adds, Marked, Transition, Invalid;
  }

  /** A state other than the creation, shown from a context with the same mark, is one more. */
  lemma StateAdds(v: View, c: Context, shown: Context, e: Emission)
    requires e.snapshot == Some(c) && Marked(shown) == Marked(c)
    ensures var w := Transition(v.(ctx := Some(shown)), e);
      && w.lastPhase == e.phase && w.ctx == Some(shown) && Adds(v, w, Marked(c))
      && (e.phase != v.lastPhase ==> |v.emitted| < |w.emitted|)
  {
    var u := v.(ctx := Some(shown));
    TransitionAdds(u, e);
    SameEmitted(v, u, Transition(u, e), Marked(c));
    hide Adds, Marked;
  }

  lemma PhaseIsAnother(status: string)
    ensures PhaseOf(status) != Some(CreatingSwap)
  {
  }

  /** What follows for a swap past its deposit: a failure, its progress, or the deposit gate. */
  lemma PastDeposit(v: View, p: ResumeParams, d: Detail, sc: ResumeScript)
    requires d.status !in PRE_DEPOSIT
    ensures var w := v.(ctx := Some(ResumedContext(v, p, d, sc)));
      var (x, verified) := Demand(w, ValidVerified, "resume:" + d.status);
      EmitInitialResumePhase(v, d, p.provider, sc.initial, sc.gate)
      == if verified.None? then Step(x, Ok(()))
         else if ProgressOf(d).Some? then
           Step(Transition(SetExtra(x, ProgressOf(d).value.1, Message),
                           Emission(ProgressOf(d).value.0, verified, ProgressOf(d).value.2)), Ok(()))
         else
           EmitAwaitingDeposit(x, d.swap, OrElse(d.destAddress, ""), OrElse(d.refundAddress, ""), p.provider, sc.gate)
  {
    hide EmitAwaitingDeposit, Transition, ProgressOf, Hydrated, VerifierRuns, ValidVerified;
  }

  /** A swap with its deposit made, whose verifier throws. */
  function RaisingScript(): ResumeScript {
    var swap := Swap("1", Some("address"), Some(ServerVerification("p", None)), None, None, "1", None, None);
    var detail := Detail(swap, false, "deposited", "p", "BTC", "XMR", Some("mine"), None, None, None, None, None, None);
    var initial := Gate(Raised(OtherFault("no answer")), false, Some("code"));
    ResumeScript(Some(detail), _ => Attempt(None, false, Ok(detail), false), false, initial, initial, [], false)
  }

  /** A resumed swap can be shown as verified though the verifier throws. */
  lemma RaisedSwapCanSayVerified(p: ResumeParams)
    ensures Said(Resume(p, RaisingScript(), 0).emitted)
  {
    hide Said, Resume, ShownFrom;
    ResumedVerifiedExactly(p, RaisingScript(), 0);
  }
}
