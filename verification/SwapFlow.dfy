/** The flow that creates or resumes a swap and follows it by polling: what each step does to the
    context, to the last phase and to the list of emitted states, given every answer from outside. */
module SwapFlow {
  import opened Wrappers
  import opened FlowContext
  import Text

  datatype Phase =
    | Idle | SolvingPow | CreatingSwap | AwaitingDeposit | VerificationFailed | Confirming | Swapping | Sending
    | Cancelling | Completed | Refunded | Punished | Expired | Failed | Cancelled

  datatype RequiredAction = RequiredAction(message: string)

  datatype Payload =
    | Plain
    | Pending(requiredAction: Option<RequiredAction>)
    | Outcome(actualOut: string, txHash: Option<string>, durationSec: Option<int>)
    | Reason(error: string)

  datatype Emission = Emission(phase: Phase, snapshot: Option<Context>, payload: Payload)

  datatype View = View(ctx: Option<Context>, lastPhase: Phase, emitted: seq<Emission>)

  const FRESH := View(None, Idle, [])

  /* ----- what comes from outside ----- */

  datatype Error =
    | NetworkFault(text: string)
    | ApiFault(status: int, permanent: bool, text: string)
    | OtherFault(text: string)
    | CancelledFault

  datatype ServerVerification = ServerVerification(provider: string, sourceUrl: Option<string>)

  /** The fields a created swap and a fetched detail share. */
  datatype Swap = Swap(
    swapNumber: string, depositAddress: Option<string>, verification: Option<ServerVerification>,
    expectedAmountOut: Option<string>, expectedAmountOutUsd: Option<string>,
    amountIn: string, amountInUsd: Option<string>, expiresAt: Option<string>)

  datatype Detail = Detail(
    swap: Swap, restricted: bool, status: string, provider: string, fromToken: string, toToken: string,
    destAddress: Option<string>, refundAddress: Option<string>, actualAmountOut: Option<string>,
    outputTxHash: Option<string>, refundTxHash: Option<string>, durationSeconds: Option<int>,
    requiredAction: Option<RequiredAction>)

  datatype StartParams = StartParams(
    fromToken: string, toToken: string, amount: string, destAddress: string, refundAddress: string, provider: string)

  datatype ResumeParams = ResumeParams(swapId: string, provider: string, fromToken: string, toToken: string)

  /** One attempt of a retried request: a failed challenge, whether the flow is then seen aborted, the
      answer, and whether it is seen aborted after the pause that follows a failure. */
  datatype Attempt<T> = Attempt(
    challengeFault: Option<Error>, aborted: bool, answer: Result<T, Error>, abortedAfterPause: bool)

  /** What the deposit address verifier does. */
  datatype Verdict = Answered(result: Verification) | Raised(error: Error)

  /** The outside answers `emitAwaitingDeposit` uses: the verifier, an abort seen after it, the QR code. */
  datatype Gate = Gate(verdict: Verdict, aborted: bool, qr: Option<string>)

  /** One pass of a polling loop whose guard held: aborted in the pause, or a detail, or a failed fetch. */
  datatype Tick = Tick(aborted: bool, detail: Option<Detail>)

  datatype StartScript = StartScript(
    attempts: nat -> Attempt<Swap>, abortedAfterCreate: bool, gate: Gate, ticks: seq<Tick>, abortedAtEnd: bool)

  datatype ResumeScript = ResumeScript(
    cached: Option<Detail>, attempts: nat -> Attempt<Detail>, abortedBeforePhase: bool, initial: Gate, gate: Gate,
    ticks: seq<Tick>, abortedAtEnd: bool)

  /** A step either goes on with a value or throws. */
  datatype Step<T> = Step(view: View, result: Result<T, Error>)

  const TERMINAL_STATUSES: set<string> := {"completed", "failed", "refunded", "withheld", "expired"}

  const PRE_DEPOSIT: set<string> := {"initializing", "pending", "awaiting_funding"}

  /** The statuses `mapServerStatus` has a stage for. */
  predicate Mapped(status: string) {
    status in {"initializing", "pending", "awaiting_funding", "deposited", "swapping", "sending", "cancelling",
               "completed", "withheld", "punished"}
  }

  predicate IsTransient(e: Error) {
    e.NetworkFault? || (e.ApiFault? && !e.permanent && (e.status >= 500 || e.status == 429))
  }

  /* ----- steps ----- */

  function Current(v: View): Context {
    if v.ctx.Some? then v.ctx.value else EMPTY
  }

  /** A phase is not announced twice in a row. */
  function Transition(v: View, e: Emission): View {
    if e.phase == v.lastPhase then v else v.(lastPhase := e.phase, emitted := v.emitted + [e])
  }

  function SetExtra(v: View, text: string, kind: ExtraType): View {
    v.(ctx := Some(Current(v).(extra := Some(Extra(text, kind)))))
  }

  function EmitError(v: View, phase: string, message: string): View {
    Transition(v, Emission(Failed, v.ctx, Reason("[" + phase + "] " + message)))
  }

  function Invalid(phase: string): string {
    "FlowContext validation failed for phase '" + phase + "'"
  }

  /** `requirePopulated` and `requireVerified`: the context, or a failure announced. */
  function Demand(v: View, valid: Context -> bool, phase: string): (View, Option<Context>) {
    if v.ctx.None? then (EmitError(v, phase, "FlowContext not initialized"), None)
    else if valid(v.ctx.value) then (v, v.ctx)
    else (EmitError(v, phase, Invalid(phase)), None)
  }

  function Cancel(v: View): View {
    Transition(v, Emission(Cancelled, v.ctx, Plain))
  }

  function CheckAborted(v: View, aborted: bool): Step<()> {
    if aborted then Step(Cancel(v), Err(CancelledFault)) else Step(v, Ok(()))
  }

  function HandleError(v: View, e: Error, aborted: bool): View {
    if e.CancelledFault? || aborted then Cancel(v)
    else
      var w := SetExtra(v, e.text, FlowContext.Error);
      Transition(w, Emission(Failed, w.ctx, Reason(e.text)))
  }

  function RetryText(attempt: nat, maxRetries: int): string {
    "Server error, retrying (" + Text.Decimal(attempt + 1) + "/" + Text.Decimal(maxRetries) + ")..."
  }

  function Creating(v: View): View {
    Transition(v, Emission(CreatingSwap, v.ctx, Plain))
  }

  /** The `catch` of a retried request: go on to the next attempt, or throw. */
  function AfterFault(v: View, e: Error, attempt: nat, maxRetries: int, abortedAfterPause: bool): Step<()> {
    if !IsTransient(e) then Step(v, Err(e))
    else CheckAborted(Creating(SetExtra(v, RetryText(attempt, maxRetries), Warning)), abortedAfterPause)
  }

  /** Attempts `attempt`, `attempt + 1`, … up to `maxRetries`. */
  function CreateSwap(v: View, attempts: nat -> Attempt<Swap>, attempt: nat, maxRetries: int, last: Error): Step<Swap>
    decreases maxRetries - attempt + 1
  {
    if attempt > maxRetries then Step(v, Err(last))
    else
      var a := attempts(attempt);
      if a.challengeFault.None? && a.aborted then Step(Cancel(v), Err(CancelledFault))
      else
        var w := if a.challengeFault.Some? then v
                 else Creating(if attempt == 0 then SetExtra(v, "Creating swap...", Message) else v);
        if a.challengeFault.None? && a.answer.Ok? then Step(w, Ok(a.answer.value))
        else
          var e := if a.challengeFault.Some? then a.challengeFault.value else a.answer.error;
          var next := AfterFault(w, e, attempt, maxRetries, a.abortedAfterPause);
          if next.result.Err? then Step(next.view, Err(next.result.error))
          else CreateSwap(next.view, attempts, attempt + 1, maxRetries, e)
  }

  function FetchDetail(v: View, attempts: nat -> Attempt<Detail>, attempt: nat, maxRetries: int, last: Error)
    : Step<Detail>
    decreases maxRetries - attempt + 1
  {
    if attempt > maxRetries then Step(v, Err(last))
    else
      var a := attempts(attempt);
      if a.answer.Ok? then Step(v, Ok(a.answer.value))
      else
        var next := AfterFault(v, a.answer.error, attempt, maxRetries, a.abortedAfterPause);
        if next.result.Err? then Step(next.view, Err(next.result.error))
        else FetchDetail(next.view, attempts, attempt + 1, maxRetries, a.answer.error)
  }

  /** The verifier runs only when the server gave both an address and the data to check it with. */
  predicate VerifierRuns(s: Swap) {
    Truthy(s.depositAddress) && s.verification.Some?
  }

  function SourceUrl(s: Swap): Option<string> {
    if s.verification.Some? then s.verification.value.sourceUrl else None
  }

  /** The context once the deposit details may be shown. */
  function Hydrated(c: Context, s: Swap, destAddress: string, refundAddress: string, provider: string,
                    qr: Option<string>, verification: Verification): Context {
    c.(swapId := Some(s.swapNumber), swapNumber := Some(s.swapNumber), provider := Some(provider),
       depositAddr := Some(OrElse(s.depositAddress, "")), depositAmount := Some(s.amountIn),
       destAddress := Some(destAddress), refundAddress := Some(refundAddress),
       amountInUsd := s.amountInUsd, expectedOut := s.expectedAmountOut, expectedOutUsd := s.expectedAmountOutUsd,
       expiresAt := s.expiresAt, qr := if Truthy(s.depositAddress) then qr else None,
       verification := Some(verification), verificationSourceUrl := SourceUrl(s))
  }

  const UNVERIFIABLE: string :=
    "We couldn't verify this swap with the provider. To stay safe, please try a different provider or start a new swap."

  /** The context when the verifier said no: nothing in it invites a deposit. */
  function Withheld(c: Context, s: Swap, verification: Verification): Context {
    c.(verification := Some(verification), swapId := Some(s.swapNumber), swapNumber := Some(s.swapNumber),
       depositAddr := None, destAddress := None, qr := None,
       extra := Some(Extra(UNVERIFIABLE, FlowContext.Error)))
  }

  function Take(s: string, n: nat): string {
    if |s| <= n then s else s[..n]
  }

  function EmitAwaitingDeposit(v: View, s: Swap, destAddress: string, refundAddress: string, provider: string, g: Gate)
    : Step<()>
  {
    if VerifierRuns(s) && g.verdict.Raised? then Step(v, Err(g.verdict.error))
    else if g.aborted then Step(Cancel(v), Err(CancelledFault))
    else if VerifierRuns(s) && !g.verdict.result.verified then
      var c := Withheld(Current(v), s, g.verdict.result);
      var w := v.(ctx := Some(c));
      Step(if ValidBase(c) then Transition(w, Emission(VerificationFailed, Some(c), Plain)) else w, Ok(()))
    else
      var verification := if VerifierRuns(s) then g.verdict.result
        else Verification(false, provider, [Check("Server verification", false, "Pending")]);
      var c := Hydrated(Current(v), s, destAddress, refundAddress, provider, g.qr, verification);
      var text := "Awaiting deposit to " + Take(OrElse(s.depositAddress, ""), 16) + "...";
      var (w, populated) := Demand(SetExtra(v.(ctx := Some(c)), text, Message), ValidPopulated, "awaiting-deposit");
      Step(if populated.Some? then Transition(w, Emission(AwaitingDeposit, populated, Plain)) else w, Ok(()))
  }

  function TerminalText(status: string): Extra {
    if status == "completed" then Extra("Swap completed", Message)
    else if status == "refunded" then Extra("BTC refunded to your address.", Message)
    else if status == "punished" then Extra("Refund deadline missed — BTC was punished.", FlowContext.Error)
    else if status == "expired" then Extra("Swap expired.", FlowContext.Error)
    else Extra("Swap ended: " + status, FlowContext.Error)
  }

  function TerminalEmission(d: Detail, snapshot: Option<Context>): Emission {
    if d.status == "completed" then
      Emission(Completed, snapshot, Outcome(OrElse(d.actualAmountOut, ""), d.outputTxHash, d.durationSeconds))
    else if d.status == "refunded" then
      Emission(Refunded, snapshot, Outcome(OrElse(d.actualAmountOut, ""), d.refundTxHash, d.durationSeconds))
    else if d.status == "punished" then Emission(Punished, snapshot, Plain)
    else if d.status == "expired" then Emission(Expired, snapshot, Plain)
    else Emission(Failed, snapshot, Reason("Swap ended with status: " + d.status))
  }

  function EmitTerminal(v: View, d: Detail, fromToken: string, toToken: string): View {
    var c := Current(v).(swapId := Some(d.swap.swapNumber), swapNumber := Some(d.swap.swapNumber),
                         fromToken := Some(fromToken), toToken := Some(toToken),
                         depositAmount := Some(d.swap.amountIn), extra := Some(TerminalText(d.status)));
    Transition(v.(ctx := Some(c)), TerminalEmission(d, Some(c)))
  }

  /** The phase a status in progress is shown as, with the text that goes with it. */
  function ProgressOf(d: Detail): Option<(Phase, string, Payload)> {
    var asked := Pending(d.requiredAction);
    if d.status == "deposited" then Some((Confirming, "Confirming deposit...", asked))
    else if d.status == "swapping" then Some((Swapping, "Swapping...", asked))
    else if d.status == "sending" then Some((Sending, "Sending output...", Plain))
    else if d.status == "cancelling" then
      var standard := "Swap is cancelling — refund in progress. Waiting for terminal status.";
      Some((Cancelling, if d.requiredAction.Some? then d.requiredAction.value.message else standard, asked))
    else None
  }

  function ProgressName(p: Phase): string {
    match p
    case Confirming => "confirming"
    case Swapping => "swapping"
    case Sending => "sending"
    case _ => "cancelling"
  }

  /** A polled detail brings verification data: the context is marked verified. */
  function Populated(v: View, d: Detail): View {
    var marked := v.ctx.Some? && v.ctx.value.verification.Some? && v.ctx.value.verification.value.verified;
    if d.swap.verification.Some? && !marked then
      v.(ctx := Some(Current(v).(verification := Some(
        Verification(true, d.swap.verification.value.provider, [Check("Server verification", true, "Populated")])))))
    else v
  }

  /** One pass of `pollLoop`, and whether it was the last. */
  function Poll(v: View, t: Tick): (View, bool) {
    if t.aborted then (Cancel(v), true)
    else if t.detail.None? then (v, false)
    else
      var d := t.detail.value;
      var w := Populated(v, d);
      if d.status in TERMINAL_STATUSES then (EmitTerminal(w, d, d.fromToken, d.toToken), true)
      else if !Mapped(d.status) || ProgressOf(d).None? then (w, false)
      else
        var (phase, text, payload) := ProgressOf(d).value;
        var (x, verified) := Demand(SetExtra(w, text, Message), ValidVerified, ProgressName(phase));
        (if verified.Some? then Transition(x, Emission(phase, verified, payload)) else x, false)
  }

  function PollLoop(v: View, ticks: seq<Tick>): View
    decreases ticks
  {
    if ticks == [] then v
    else
      var (w, done) := Poll(v, ticks[0]);
      if done then w else PollLoop(w, ticks[1..])
  }

  /* ----- start ----- */

  function Started(p: StartParams): View {
    var c := EMPTY.(fromToken := Some(p.fromToken), toToken := Some(p.toToken), depositAmount := Some(p.amount),
                    destAddress := Some(p.destAddress), refundAddress := Some(p.refundAddress),
                    provider := Some(p.provider), extra := Some(Extra("Solving proof of work...", Message)));
    Transition(FRESH.(ctx := Some(c)), Emission(SolvingPow, Some(c), Plain))
  }

  const NO_ATTEMPT: Error := OtherFault("Failed to create swap after retries")

  function Announced(v: View, s: Swap): View {
    var c := Current(v).(swapId := Some(s.swapNumber), swapNumber := Some(s.swapNumber));
    v.(ctx := Some(c), emitted := v.emitted + [Emission(CreatingSwap, Some(c), Plain)])
  }

  /** The creation phase of `start`: the swap, or what was thrown. */
  function Created(p: StartParams, sc: StartScript, maxRetries: int): Step<Swap> {
    var made := CreateSwap(Started(p), sc.attempts, 0, maxRetries, NO_ATTEMPT);
    if made.result.Err? then made
    else if sc.abortedAfterCreate then Step(Cancel(made.view), Err(CancelledFault))
    else Step(Announced(made.view, made.result.value), made.result)
  }

  /** A run of `start` on a fresh flow. */
  function Start(p: StartParams, sc: StartScript, maxRetries: int): View {
    var made := Created(p, sc, maxRetries);
    if made.result.Err? then HandleError(made.view, made.result.error, sc.abortedAtEnd)
    else
      var shown := EmitAwaitingDeposit(made.view, made.result.value, p.destAddress, p.refundAddress, p.provider,
                                       sc.gate);
      if shown.result.Err? then HandleError(shown.view, shown.result.error, sc.abortedAtEnd)
      else PollLoop(shown.view, sc.ticks)
  }

  /* ----- resume ----- */

  function Resumed(p: ResumeParams): View {
    var c := EMPTY.(provider := Some(p.provider), fromToken := Some(p.fromToken), toToken := Some(p.toToken),
                    swapId := Some(p.swapId), extra := Some(Extra("Loading swap...", Message)));
    Creating(FRESH.(ctx := Some(c)))
  }

  function NoFetch(swapId: string): Error {
    OtherFault("Failed to fetch swap " + swapId + " after retries")
  }

  /** A context with everything sensitive taken out. */
  function Limited(c: Context, d: Detail): Context {
    c.(restricted := true, swapId := Some(d.swap.swapNumber), swapNumber := Some(d.swap.swapNumber),
       provider := Some(d.provider), fromToken := Some(d.fromToken), toToken := Some(d.toToken),
       depositAmount := Some(d.swap.amountIn), amountInUsd := d.swap.amountInUsd,
       expectedOut := d.swap.expectedAmountOut, expectedOutUsd := d.swap.expectedAmountOutUsd,
       depositAddr := None, destAddress := None, refundAddress := None, qr := None, verification := None,
       extra := Some(Extra("Limited view — enter the destination address to unlock full details.", Message)))
  }

  function EmitRestricted(v: View, d: Detail): View {
    if ProgressOf(d).Some? then
      var (phase, _, payload) := ProgressOf(d).value;
      var (w, base) := Demand(v, ValidBase, ProgressName(phase));
      if base.None? then w
      else Transition(w, Emission(phase, Some(base.value.(restricted := true)),
                                  if payload.Pending? then Pending(None) else Plain))
    else if v.ctx.Some? && ValidBase(v.ctx.value) then v.(emitted := v.emitted + [Emission(CreatingSwap, v.ctx, Plain)])
    else v
  }

  /** One pass of `pollLoopRestricted`. */
  function PollRestricted(v: View, t: Tick): (View, bool) {
    if t.aborted then (Cancel(v), true)
    else if t.detail.None? then (v, false)
    else if t.detail.value.status in TERMINAL_STATUSES then
      (EmitTerminal(v, t.detail.value, t.detail.value.fromToken, t.detail.value.toToken), true)
    else (EmitRestricted(v, t.detail.value), false)
  }

  function PollLoopRestricted(v: View, ticks: seq<Tick>): View
    decreases ticks
  {
    if ticks == [] then v
    else
      var (w, done) := PollRestricted(v, ticks[0]);
      if done then w else PollLoopRestricted(w, ticks[1..])
  }

  function RunRestricted(v: View, d: Detail, ticks: seq<Tick>): View {
    var w := v.(ctx := Some(Limited(Current(v), d)));
    if d.status in TERMINAL_STATUSES then EmitTerminal(w, d, d.fromToken, d.toToken)
    else PollLoopRestricted(EmitRestricted(w, d), ticks)
  }

  /** Resuming past the deposit: the verifier is consulted but does not gate. */
  function EmitInitialResumePhase(v: View, d: Detail, provider: string, initial: Gate, gate: Gate): Step<()> {
    var dest, refund := OrElse(d.destAddress, ""), OrElse(d.refundAddress, "");
    if d.status in PRE_DEPOSIT then EmitAwaitingDeposit(v, d.swap, dest, refund, provider, gate)
    else
      var verification := if VerifierRuns(d.swap) && initial.verdict.Answered? then initial.verdict.result
        else Verification(true, provider, [Check("Server verification", true, "Resumed")]);
      var c := Hydrated(Current(v), d.swap, dest, refund, provider, initial.qr, verification);
      var (w, verified) := Demand(v.(ctx := Some(c)), ValidVerified, "resume:" + d.status);
      if verified.None? then Step(w, Ok(()))
      else if ProgressOf(d).Some? then
        var (phase, text, payload) := ProgressOf(d).value;
        Step(Transition(SetExtra(w, text, Message), Emission(phase, verified, payload)), Ok(()))
      else EmitAwaitingDeposit(w, d.swap, dest, refund, provider, gate)
  }

  /** The context a terminal resume shows its receipt from. */
  function Receipt(c: Context, d: Detail, provider: string): Context {
    c.(depositAddr := d.swap.depositAddress, destAddress := d.destAddress, refundAddress := d.refundAddress,
       expectedOut := d.swap.expectedAmountOut, amountInUsd := d.swap.amountInUsd,
       expectedOutUsd := d.swap.expectedAmountOutUsd, provider := Some(provider))
  }

  /** The detail `resume` works from: the cached one, or a fetched one. */
  function Fetched(p: ResumeParams, sc: ResumeScript, maxRetries: int): Step<Detail> {
    if sc.cached.Some? then Step(Resumed(p), Ok(sc.cached.value))
    else FetchDetail(Resumed(p), sc.attempts, 0, maxRetries, NoFetch(p.swapId))
  }

  /** A run of `resume` on a fresh flow. */
  function Resume(p: ResumeParams, sc: ResumeScript, maxRetries: int): View {
    var got := Fetched(p, sc, maxRetries);
    if got.result.Err? then HandleError(got.view, got.result.error, sc.abortedAtEnd)
    else
      var d := got.result.value;
      if d.restricted then RunRestricted(got.view, d, sc.ticks)
      else if d.status in TERMINAL_STATUSES then
        var c := Receipt(Current(got.view), d, p.provider);
        EmitTerminal(got.view.(ctx := Some(c)), d, p.fromToken, p.toToken)
      else if sc.abortedBeforePhase then HandleError(Cancel(got.view), CancelledFault, sc.abortedAtEnd)
      else
        var shown := EmitInitialResumePhase(got.view, d, p.provider, sc.initial, sc.gate);
        if shown.result.Err? then HandleError(shown.view, shown.result.error, sc.abortedAtEnd)
        else PollLoop(shown.view, sc.ticks)
  }
}
