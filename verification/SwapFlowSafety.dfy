/** What every run of a fresh flow keeps from its user, and what it shows only when it may. */
module SwapFlowSafety {
  import opened Wrappers
  import opened FlowContext
  import opened SwapFlow

  /** A bound on what a context may hold: only these deposit addresses, codes, destinations and refund
      addresses, or nothing sensitive at all, or no mark of verification. */
  datatype Limit =
    | Shown(addrs: set<Option<string>>, qrs: set<Option<string>>, dests: set<Option<string>>,
            refunds: set<Option<string>>)
    | Veil
    | Unmarked

  /** The context says that the swap is verified. */
  predicate Marked(c: Context) {
    c.verification.Some? && c.verification.value.verified
  }

  predicate Meets(l: Limit, c: Context) {
    match l
    case Shown(addrs, qrs, dests, refunds) =>
      c.depositAddr in addrs && c.qr in qrs && c.destAddress in dests && c.refundAddress in refunds && !c.restricted
    case Veil =>
      c.depositAddr.None? && c.destAddress.None? && c.refundAddress.None? && c.qr.None? && c.verification.None?
    case Unmarked => !Marked(c)
  }

  predicate InProgress(p: Phase) {
    p == Confirming || p == Swapping || p == Sending || p == SwapFlow.Cancelling
  }

  /** An emission of a phase in progress shows a fully validated context, or one marked restricted. */
  predicate Justified(e: Emission) {
    InProgress(e.phase) ==> e.snapshot.Some? && (ValidVerified(e.snapshot.value) || e.snapshot.value.restricted)
  }

  /** Every emission, and the context the next one will come from, is within the limit; every emission is justified. */
  ghost predicate Keeps(l: Limit, v: View) {
    && (v.ctx.Some? ==> Meets(l, v.ctx.value))
    && (forall e :: e in v.emitted && e.snapshot.Some? ==> Meets(l, e.snapshot.value))
    && (forall e :: e in v.emitted ==> Justified(e))
  }

  /** No deposit address and no code: what is shown before anything is known of the swap. */
  const UNKNOWN := Shown({None}, {None}, {None}, {None})

  /** No deposit address and no code, and of destinations and refund addresses only the user's own. */
  function Withholding(p: StartParams): Limit {
    Shown({None}, {None}, {None, Some(p.destAddress)}, {Some(p.refundAddress)})
  }

  /* ----- steps stay within the limit ----- */

  lemma TransitionKeeps(l: Limit, v: View, e: Emission)
    requires Keeps(l, v) && (e.snapshot.Some? ==> Meets(l, e.snapshot.value)) && Justified(e)
    ensures Keeps(l, Transition(v, e))
    ensures Transition(v, e).ctx == v.ctx && v.emitted <= Transition(v, e).emitted
  {
    hide Meets, Justified;
  }

  lemma SetExtraKeeps(l: Limit, v: View, text: string, kind: ExtraType)
    requires Keeps(l, v) && v.ctx.Some?
    ensures Keeps(l, SetExtra(v, text, kind))
  {
    hide Justified;
  }

  lemma DemandKeeps(l: Limit, v: View, valid: Context -> bool, phase: string)
    requires Keeps(l, v)
    ensures var (w, c) := Demand(v, valid, phase);
      && Keeps(l, w) && w.ctx == v.ctx && v.emitted <= w.emitted
      && (c.Some? ==> c == v.ctx && valid(c.value) && w == v)
  {
    hide Keeps, Transition;
    TransitionKeeps(l, v, Emission(Failed, v.ctx, Reason("[" + phase + "] " + "FlowContext not initialized")))
      by { Unlimited(l, v); }
    TransitionKeeps(l, v, Emission(Failed, v.ctx, Reason("[" + phase + "] " + Invalid(phase)))) by { Unlimited(l, v); }
  }

  lemma Unlimited(l: Limit, v: View)
    requires Keeps(l, v)
    ensures v.ctx.Some? ==> Meets(l, v.ctx.value)
  {
  }

  lemma CancelKeeps(l: Limit, v: View)
    requires Keeps(l, v)
    ensures Keeps(l, Cancel(v)) && Cancel(v).ctx == v.ctx && v.emitted <= Cancel(v).emitted
  {
    hide Keeps, Transition;
    Unlimited(l, v);
    TransitionKeeps(l, v, Emission(Cancelled, v.ctx, Plain));
  }

  lemma CreatingKeeps(l: Limit, v: View)
    requires Keeps(l, v)
    ensures Keeps(l, Creating(v)) && Creating(v).ctx == v.ctx && v.emitted <= Creating(v).emitted
  {
    hide Keeps, Transition;
    Unlimited(l, v);
    TransitionKeeps(l, v, Emission(CreatingSwap, v.ctx, Plain));
  }

  lemma HandleErrorKeeps(l: Limit, v: View, e: SwapFlow.Error, aborted: bool)
    requires Keeps(l, v) && v.ctx.Some?
    ensures Keeps(l, HandleError(v, e, aborted))
  {
    hide Keeps, Transition, SetExtra, Cancel;
    CancelKeeps(l, v);
    if !(e.CancelledFault? || aborted) {
      SetExtraKeeps(l, v, e.text, FlowContext.Error);
      var w := SetExtra(v, e.text, FlowContext.Error);
      Unlimited(l, w);
      TransitionKeeps(l, w, Emission(Failed, w.ctx, Reason(e.text)));
    }
  }

  lemma AfterFaultKeeps(l: Limit, v: View, e: SwapFlow.Error, attempt: nat, maxRetries: int, aborted: bool)
    requires Keeps(l, v) && v.ctx.Some?
    ensures var r := AfterFault(v, e, attempt, maxRetries, aborted);
      Keeps(l, r.view) && r.view.ctx.Some? && (r.result.Ok? ==> r.view.lastPhase == CreatingSwap)
  {
    hide Keeps, RetryText;
    var w := SetExtra(v, RetryText(attempt, maxRetries), Warning);
    SetExtraKeeps(l, v, RetryText(attempt, maxRetries), Warning);
    CreatingKeeps(l, w);
    CancelKeeps(l, Creating(w));
  }

  lemma {:induction false} CreateSwapKeeps(l: Limit, v: View, attempts: nat -> Attempt<Swap>, attempt: nat,
                                           maxRetries: int, last: SwapFlow.Error)
    requires Keeps(l, v) && v.ctx.Some?
    ensures var r := CreateSwap(v, attempts, attempt, maxRetries, last);
      Keeps(l, r.view) && r.view.ctx.Some? && (r.result.Ok? ==> r.view.lastPhase == CreatingSwap)
    decreases maxRetries - attempt + 1
  {
    hide Keeps, AfterFault, IsTransient;
    if attempt <= maxRetries {
      var a := attempts(attempt);
      CancelKeeps(l, v);
      if a.challengeFault.Some? {
        AfterFaultKeeps(l, v, a.challengeFault.value, attempt, maxRetries, a.abortedAfterPause);
        var next := AfterFault(v, a.challengeFault.value, attempt, maxRetries, a.abortedAfterPause);
        if next.result.Ok? {
          CreateSwapKeeps(l, next.view, attempts, attempt + 1, maxRetries, a.challengeFault.value);
        }
      } else if !a.aborted {
        var u := if attempt == 0 then SetExtra(v, "Creating swap...", Message) else v;
        SetExtraKeeps(l, v, "Creating swap...", Message);
        CreatingKeeps(l, u);
        var w := Creating(u);
        if a.answer.Err? {
          AfterFaultKeeps(l, w, a.answer.error, attempt, maxRetries, a.abortedAfterPause);
          var next := AfterFault(w, a.answer.error, attempt, maxRetries, a.abortedAfterPause);
          if next.result.Ok? {
            CreateSwapKeeps(l, next.view, attempts, attempt + 1, maxRetries, a.answer.error);
          }
        }
      }
    }
  }

  lemma {:induction false} FetchDetailKeeps(l: Limit, v: View, attempts: nat -> Attempt<Detail>, attempt: nat,
                                            maxRetries: int, last: SwapFlow.Error)
    requires Keeps(l, v) && v.ctx.Some?
    ensures var r := FetchDetail(v, attempts, attempt, maxRetries, last); Keeps(l, r.view) && r.view.ctx.Some?
    decreases maxRetries - attempt + 1
  {
    hide Keeps, AfterFault;
    if attempt <= maxRetries && attempts(attempt).answer.Err? {
      var a := attempts(attempt);
      AfterFaultKeeps(l, v, a.answer.error, attempt, maxRetries, a.abortedAfterPause);
      var next := AfterFault(v, a.answer.error, attempt, maxRetries, a.abortedAfterPause);
      if next.result.Ok? {
        FetchDetailKeeps(l, next.view, attempts, attempt + 1, maxRetries, a.answer.error);
      }
    }
  }

  /** Putting another context in place keeps the limit when that context meets it. */
  lemma ReplaceKeeps(l: Limit, v: View, c: Context)
    requires Keeps(l, v) && Meets(l, c)
    ensures Keeps(l, v.(ctx := Some(c)))
  {
    hide Meets, Justified;
  }

  lemma EmitTerminalKeeps(l: Limit, v: View, d: Detail, fromToken: string, toToken: string)
    requires Keeps(l, v) && v.ctx.Some?
    ensures Keeps(l, EmitTerminal(v, d, fromToken, toToken))
    ensures v.emitted <= EmitTerminal(v, d, fromToken, toToken).emitted
  {
    hide Keeps, Transition, TerminalText;
    Unlimited(l, v);
    var c := Current(v).(swapId := Some(d.swap.swapNumber), swapNumber := Some(d.swap.swapNumber),
                         fromToken := Some(fromToken), toToken := Some(toToken),
                         depositAmount := Some(d.swap.amountIn), extra := Some(TerminalText(d.status)));
    ReplaceKeeps(l, v, c);
    TransitionKeeps(l, v.(ctx := Some(c)), TerminalEmission(d, Some(c)));
  }

  /** Announcing a phase in progress from a validated context. */
  lemma ProgressKeeps(l: Limit, v: View, phase: Phase, c: Context, payload: Payload)
    requires Keeps(l, v) && Meets(l, c) && (ValidVerified(c) || c.restricted)
    ensures var w := Transition(v, Emission(phase, Some(c), payload));
      Keeps(l, w) && w.ctx == v.ctx && v.emitted <= w.emitted
  {
    hide Keeps, Transition;
    TransitionKeeps(l, v, Emission(phase, Some(c), payload));
  }

  lemma PollKeeps(l: Limit, v: View, t: Tick)
    requires l.Shown? && Keeps(l, v) && v.ctx.Some?
    ensures Keeps(l, Poll(v, t).0) && Poll(v, t).0.ctx.Some? && v.emitted <= Poll(v, t).0.emitted
  {
    hide Keeps, Transition, EmitTerminal, Cancel, Demand, ProgressName, Mapped, Meets, ValidVerified, TerminalText;
    CancelKeeps(l, v);
    if !t.aborted && t.detail.Some? {
      var d := t.detail.value;
      var w := Populated(v, d);
      PopulatedKeeps(l, v, d);
      EmitTerminalKeeps(l, w, d, d.fromToken, d.toToken);
      assert EmitTerminal(w, d, d.fromToken, d.toToken).ctx.Some? by { TerminalHasContext(w, d); }
      if ProgressOf(d).Some? {
        var (phase, text, payload) := ProgressOf(d).value;
        SetExtraKeeps(l, w, text, Message);
        DemandKeeps(l, SetExtra(w, text, Message), ValidVerified, ProgressName(phase));
        var (x, verified) := Demand(SetExtra(w, text, Message), ValidVerified, ProgressName(phase));
        if verified.Some? {
          Unlimited(l, x);
          ProgressKeeps(l, x, phase, verified.value, payload);
        }
      }
    }
  }

  lemma TerminalHasContext(v: View, d: Detail)
    ensures EmitTerminal(v, d, d.fromToken, d.toToken).ctx.Some?
  {
  }

  lemma PopulatedKeeps(l: Limit, v: View, d: Detail)
    requires l.Shown? && Keeps(l, v) && v.ctx.Some?
    ensures Keeps(l, Populated(v, d)) && Populated(v, d).ctx.Some? && Populated(v, d).emitted == v.emitted
  {
    hide Justified;
  }

  lemma {:induction false} PollLoopKeeps(l: Limit, v: View, ticks: seq<Tick>)
    requires l.Shown? && Keeps(l, v) && v.ctx.Some?
    ensures Keeps(l, PollLoop(v, ticks)) && v.emitted <= PollLoop(v, ticks).emitted
    decreases ticks
  {
    hide Keeps, Poll;
    if ticks != [] {
      PollKeeps(l, v, ticks[0]);
      var (w, done) := Poll(v, ticks[0]);
      if !done { PollLoopKeeps(l, w, ticks[1..]); }
    }
  }

  /* ----- the deposit gate ----- */

  predicate Refused(s: Swap, g: Gate) {
    VerifierRuns(s) && (g.verdict.Raised? || !g.verdict.result.verified)
  }

  /** A refused swap leaves nothing to deposit to. */
  lemma RefusalKeeps(p: StartParams, v: View, s: Swap, g: Gate)
    requires Refused(s, g) && Keeps(Withholding(p), v) && v.ctx.Some?
    ensures var r := EmitAwaitingDeposit(v, s, p.destAddress, p.refundAddress, p.provider, g);
      Keeps(Withholding(p), r.view) && r.view.ctx.Some?
  {
    hide Keeps, Transition;
    CancelKeeps(Withholding(p), v);
    if !g.verdict.Raised? {
      var c := Withheld(Current(v), s, g.verdict.result);
      Unlimited(Withholding(p), v);
      ReplaceKeeps(Withholding(p), v, c);
      TransitionKeeps(Withholding(p), v.(ctx := Some(c)), Emission(VerificationFailed, Some(c), Plain));
    }
  }

  function AddressOf(s: Swap): Option<string> {
    Some(OrElse(s.depositAddress, ""))
  }

  /** The limit of a started flow whose swap was created: the created address, the code drawn for it,
      and the user's own destination and refund address. */
  function CreatedLimit(p: StartParams, s: Swap, g: Gate): Limit {
    Shown({None, AddressOf(s)}, {None, g.qr}, {None, Some(p.destAddress)}, {Some(p.refundAddress)})
  }

  /** The limit lets through what the gate may show for this swap. */
  predicate Permits(l: Limit, s: Swap, dest: string, refund: string, g: Gate) {
    && l.Shown? && {None, AddressOf(s)} <= l.addrs && {None, g.qr} <= l.qrs
    && {None, Some(dest)} <= l.dests && Some(refund) in l.refunds
  }

  lemma GateKeeps(l: Limit, v: View, s: Swap, dest: string, refund: string, provider: string, g: Gate)
    requires Permits(l, s, dest, refund, g) && Keeps(l, v) && v.ctx.Some?
    ensures var r := EmitAwaitingDeposit(v, s, dest, refund, provider, g);
      Keeps(l, r.view) && r.view.ctx.Some?
  {
    hide Keeps, Transition, Demand, Take;
    Unlimited(l, v);
    CancelKeeps(l, v);
    if VerifierRuns(s) && g.verdict.Raised? {
    } else if g.aborted {
    } else if VerifierRuns(s) && !g.verdict.result.verified {
      var c := Withheld(Current(v), s, g.verdict.result);
      ReplaceKeeps(l, v, c);
      TransitionKeeps(l, v.(ctx := Some(c)), Emission(VerificationFailed, Some(c), Plain));
    } else {
      ShowKeeps(l, v, s, dest, refund, provider, g);
    }
  }

  /** The branch that shows the deposit details. */
  lemma ShowKeeps(l: Limit, v: View, s: Swap, dest: string, refund: string, provider: string, g: Gate)
    requires Permits(l, s, dest, refund, g) && Keeps(l, v) && v.ctx.Some? && !Refused(s, g) && !g.aborted
    ensures var r := EmitAwaitingDeposit(v, s, dest, refund, provider, g);
      Keeps(l, r.view) && r.view.ctx.Some? && r.result.Ok?
  {
    hide Keeps, Take, Transition, Demand;
    Unlimited(l, v);
    var verification := if VerifierRuns(s) then g.verdict.result
      else Verification(false, provider, [FlowContext.Check("Server verification", false, "Pending")]);
    var c := Hydrated(Current(v), s, dest, refund, provider, g.qr, verification);
    var text := "Awaiting deposit to " + Take(OrElse(s.depositAddress, ""), 16) + "...";
    var x := SetExtra(v.(ctx := Some(c)), text, Message);
    ReplaceKeeps(l, v, c);
    SetExtraKeeps(l, v.(ctx := Some(c)), text, Message);
    DemandKeeps(l, x, ValidPopulated, "awaiting-deposit");
    var (w, populated) := Demand(x, ValidPopulated, "awaiting-deposit");
    if populated.Some? {
      Unlimited(l, x);
      TransitionKeeps(l, w, Emission(AwaitingDeposit, populated, Plain));
    }
  }

  /** It always announces a state that holds the address. */
  lemma ShowAnnounces(v: View, s: Swap, dest: string, refund: string, provider: string, g: Gate)
    requires !Refused(s, g) && !g.aborted && v.lastPhase == CreatingSwap
    ensures var r := EmitAwaitingDeposit(v, s, dest, refund, provider, g);
      exists e :: e in r.view.emitted && e.snapshot.Some? && e.snapshot.value.depositAddr == AddressOf(s)
  {
    hide Take;
    var r := EmitAwaitingDeposit(v, s, dest, refund, provider, g);
    assert r.view.emitted[|r.view.emitted| - 1].snapshot == r.view.ctx;
  }

  /* ----- runs of start ----- */

  lemma CreatedKeeps(l: Limit, p: StartParams, sc: StartScript, maxRetries: int)
    requires l == Withholding(p) || l == Unmarked
    ensures var made := Created(p, sc, maxRetries);
      Keeps(l, made.view) && made.view.ctx.Some? && (made.result.Ok? ==> made.view.lastPhase == CreatingSwap)
  {
    hide CreateSwap, Keeps;
    assert Keeps(l, Started(p)) && Started(p).ctx.Some? by { StartedKeeps(l, p); }
    CreateSwapKeeps(l, Started(p), sc.attempts, 0, maxRetries, NO_ATTEMPT);
    var made := CreateSwap(Started(p), sc.attempts, 0, maxRetries, NO_ATTEMPT);
    CancelKeeps(l, made.view);
    if made.result.Ok? { AnnouncedKeeps(l, made.view, made.result.value); }
  }

  lemma StartedKeeps(l: Limit, p: StartParams)
    requires l == Withholding(p) || l == Unmarked
    ensures Keeps(l, Started(p)) && Started(p).ctx.Some?
  {
  }

  lemma AnnouncedKeeps(l: Limit, v: View, s: Swap)
    requires Keeps(l, v) && v.ctx.Some?
    ensures Keeps(l, Announced(v, s)) && Announced(v, s).ctx.Some? && Announced(v, s).lastPhase == v.lastPhase
  {
  }

  lemma LooserLimit(l: Limit, m: Limit, v: View)
    requires l.Shown? && m.Shown? && l.addrs <= m.addrs && l.qrs <= m.qrs
    requires l.dests <= m.dests && l.refunds <= m.refunds && Keeps(l, v)
    ensures Keeps(m, v)
  {
    hide Justified;
  }

  ghost predicate ShowsDeposit(v: View) {
    exists e :: e in v.emitted && e.snapshot.Some? && (e.snapshot.value.depositAddr.Some? || e.snapshot.value.qr.Some?)
  }

  ghost predicate ShowsAddress(v: View) {
    exists e :: e in v.emitted && e.snapshot.Some? && Truthy(e.snapshot.value.depositAddr)
  }

  /** When the verifier rejects the deposit address or throws, no state the run ever emits holds an
      address or a code, and none is of a phase in progress: polling cannot undo the refusal. */
  lemma RefusedStartShowsNothing(p: StartParams, sc: StartScript, maxRetries: int)
    requires Created(p, sc, maxRetries).result.Ok?
    requires Refused(Created(p, sc, maxRetries).result.value, sc.gate)
    ensures !ShowsDeposit(Start(p, sc, maxRetries))
    ensures forall e :: e in Start(p, sc, maxRetries).emitted ==> !InProgress(e.phase)
  {
    assert Keeps(Withholding(p), Start(p, sc, maxRetries)) by { RefusedStartKeeps(p, sc, maxRetries); }
    hide Start, Created, Refused;
  }

  lemma RefusedStartKeeps(p: StartParams, sc: StartScript, maxRetries: int)
    requires Created(p, sc, maxRetries).result.Ok?
    requires Refused(Created(p, sc, maxRetries).result.value, sc.gate)
    ensures Keeps(Withholding(p), Start(p, sc, maxRetries))
  {
    hide Created, Keeps, EmitAwaitingDeposit, PollLoop, HandleError, Refused;
    var made := Created(p, sc, maxRetries);
    CreatedKeeps(Withholding(p), p, sc, maxRetries);
    RefusalKeeps(p, made.view, made.result.value, sc.gate);
    var shown := EmitAwaitingDeposit(made.view, made.result.value, p.destAddress, p.refundAddress, p.provider, sc.gate);
    var thrown := if shown.result.Err? then shown.result.error else CancelledFault;
    HandleErrorKeeps(Withholding(p), shown.view, thrown, sc.abortedAtEnd);
    PollLoopKeeps(Withholding(p), shown.view, sc.ticks);
  }

  /** The swap was created, it has an address, nothing was aborted, and the verifier, if the server
      gave it anything to check, accepted. */
  predicate Released(p: StartParams, sc: StartScript, maxRetries: int) {
    var made := Created(p, sc, maxRetries);
    && made.result.Ok?
    && Truthy(made.result.value.depositAddress)
    && (made.result.value.verification.None? || (sc.gate.verdict.Answered? && sc.gate.verdict.result.verified))
    && !sc.gate.aborted
  }

  lemma StartKeeps(p: StartParams, sc: StartScript, maxRetries: int)
    ensures var made := Created(p, sc, maxRetries);
      var l := if made.result.Ok? then CreatedLimit(p, made.result.value, sc.gate) else Withholding(p);
      Keeps(l, Start(p, sc, maxRetries))
  {
    hide Created, Keeps, EmitAwaitingDeposit, PollLoop, HandleError;
    var made := Created(p, sc, maxRetries);
    CreatedKeeps(Withholding(p), p, sc, maxRetries);
    if made.result.Err? {
      HandleErrorKeeps(Withholding(p), made.view, made.result.error, sc.abortedAtEnd);
    } else {
      var s := made.result.value;
      var l := CreatedLimit(p, s, sc.gate);
      LooserLimit(Withholding(p), l, made.view);
      GateKeeps(l, made.view, s, p.destAddress, p.refundAddress, p.provider, sc.gate);
      var shown := EmitAwaitingDeposit(made.view, s, p.destAddress, p.refundAddress, p.provider, sc.gate);
      var thrown := if shown.result.Err? then shown.result.error else CancelledFault;
      HandleErrorKeeps(l, shown.view, thrown, sc.abortedAtEnd);
      PollLoopKeeps(l, shown.view, sc.ticks);
    }
  }

  /** A run of `start` shows a deposit address exactly when it was released; every address it ever
      shows, through all later polling, is the one the swap was created with; and it never shows
      another destination or refund address than the user's own. */
  lemma AddressShownExactly(p: StartParams, sc: StartScript, maxRetries: int)
    ensures ShowsAddress(Start(p, sc, maxRetries)) <==> Released(p, sc, maxRetries)
    ensures forall e ::
      e in Start(p, sc, maxRetries).emitted && e.snapshot.Some? && Truthy(e.snapshot.value.depositAddr) ==>
      e.snapshot.value.depositAddr == Created(p, sc, maxRetries).result.Extract().depositAddress
    ensures forall e :: e in Start(p, sc, maxRetries).emitted && e.snapshot.Some? ==>
      && e.snapshot.value.destAddress in {None, Some(p.destAddress)}
      && e.snapshot.value.refundAddress == Some(p.refundAddress)
  {
    hide Created, Start;
    StartKeeps(p, sc, maxRetries);
    var made := Created(p, sc, maxRetries);
    if Released(p, sc, maxRetries) {
      ReleasedIsShown(p, sc, maxRetries);
    } else if made.result.Ok? && Truthy(made.result.value.depositAddress) {
      if Refused(made.result.value, sc.gate) {
        RefusedStartShowsNothing(p, sc, maxRetries);
      } else {
        AbortedStartShowsNothing(p, sc, maxRetries);
      }
    }
  }

  lemma AbortedStartShowsNothing(p: StartParams, sc: StartScript, maxRetries: int)
    requires Created(p, sc, maxRetries).result.Ok? && sc.gate.aborted
    requires !Refused(Created(p, sc, maxRetries).result.value, sc.gate)
    ensures Keeps(Withholding(p), Start(p, sc, maxRetries))
  {
    hide Created, Keeps, Cancel, HandleError;
    var made := Created(p, sc, maxRetries);
    CreatedKeeps(Withholding(p), p, sc, maxRetries);
    CancelKeeps(Withholding(p), made.view);
    HandleErrorKeeps(Withholding(p), Cancel(made.view), CancelledFault, sc.abortedAtEnd);
  }

  lemma ReleasedIsShown(p: StartParams, sc: StartScript, maxRetries: int)
    requires Released(p, sc, maxRetries)
    ensures ShowsAddress(Start(p, sc, maxRetries))
  {
    hide Created, Keeps, EmitAwaitingDeposit, PollLoop, HandleError;
    var made := Created(p, sc, maxRetries);
    var s := made.result.value;
    var l := CreatedLimit(p, s, sc.gate);
    CreatedKeeps(Withholding(p), p, sc, maxRetries);
    LooserLimit(Withholding(p), l, made.view);
    ShowKeeps(l, made.view, s, p.destAddress, p.refundAddress, p.provider, sc.gate);
    ShowAnnounces(made.view, s, p.destAddress, p.refundAddress, p.provider, sc.gate);
    var shown := EmitAwaitingDeposit(made.view, s, p.destAddress, p.refundAddress, p.provider, sc.gate);
    PollLoopKeeps(l, shown.view, sc.ticks);
    var e :| e in shown.view.emitted && e.snapshot.Some? && e.snapshot.value.depositAddr == AddressOf(s);
    assert e in PollLoop(shown.view, sc.ticks).emitted;
  }

  /** Every state of a phase in progress that a run of `start` emits shows a fully validated context. */
  lemma StartProgressIsValidated(p: StartParams, sc: StartScript, maxRetries: int)
    ensures forall e :: e in Start(p, sc, maxRetries).emitted && InProgress(e.phase) ==>
      e.snapshot.Some? && ValidVerified(e.snapshot.value) && !e.snapshot.value.restricted
  {
    hide Created, Start, ValidVerified;
    StartKeeps(p, sc, maxRetries);
  }

  /* ----- runs of resume ----- */

  lemma FetchedKeeps(l: Limit, p: ResumeParams, sc: ResumeScript, maxRetries: int)
    requires l == UNKNOWN || l == Veil || l == Unmarked
    ensures var got := Fetched(p, sc, maxRetries); Keeps(l, got.view) && got.view.ctx.Some?
  {
    hide FetchDetail, Keeps;
    assert Keeps(l, Resumed(p)) && Resumed(p).ctx.Some? by { ResumedKeeps(l, p); }
    FetchDetailKeeps(l, Resumed(p), sc.attempts, 0, maxRetries, NoFetch(p.swapId));
  }

  lemma ResumedKeeps(l: Limit, p: ResumeParams)
    requires l == UNKNOWN || l == Veil || l == Unmarked
    ensures Keeps(l, Resumed(p)) && Resumed(p).ctx.Some?
  {
  }

  lemma EmitRestrictedKeeps(v: View, d: Detail)
    requires Keeps(Veil, v) && v.ctx.Some?
    ensures Keeps(Veil, EmitRestricted(v, d)) && EmitRestricted(v, d).ctx.Some?
  {
    hide Keeps, Transition, Demand, ProgressName;
    if ProgressOf(d).Some? {
      var (phase, _, payload) := ProgressOf(d).value;
      DemandKeeps(Veil, v, ValidBase, ProgressName(phase));
      var (w, base) := Demand(v, ValidBase, ProgressName(phase));
      Unlimited(Veil, v);
      if base.Some? {
        var shown := if payload.Pending? then Pending(None) else Plain;
        ProgressKeeps(Veil, w, phase, base.value.(restricted := true), shown);
      }
    } else {
      AppendKeeps(v, Emission(CreatingSwap, v.ctx, Plain));
    }
  }

  lemma AppendKeeps(v: View, e: Emission)
    requires Keeps(Veil, v) && e.snapshot == v.ctx && e.phase == CreatingSwap
    ensures Keeps(Veil, v.(emitted := v.emitted + [e]))
  {
    hide Meets;
  }

  lemma {:induction false} PollLoopRestrictedKeeps(v: View, ticks: seq<Tick>)
    requires Keeps(Veil, v) && v.ctx.Some?
    ensures Keeps(Veil, PollLoopRestricted(v, ticks))
    decreases ticks
  {
    hide Keeps, EmitRestricted, EmitTerminal, Cancel;
    if ticks != [] {
      var t := ticks[0];
      CancelKeeps(Veil, v);
      if !t.aborted {
        if t.detail.None? {
          PollLoopRestrictedKeeps(v, ticks[1..]);
        } else {
          var d := t.detail.value;
          EmitTerminalKeeps(Veil, v, d, d.fromToken, d.toToken);
          EmitRestrictedKeeps(v, d);
          PollLoopRestrictedKeeps(EmitRestricted(v, d), ticks[1..]);
        }
      }
    }
  }

  /** A run that finds its swap restricted emits no address, no code and no verification, whatever the
      server returns later. */
  lemma RestrictedRunShowsNothing(p: ResumeParams, sc: ResumeScript, maxRetries: int)
    requires Fetched(p, sc, maxRetries).result.Ok? && Fetched(p, sc, maxRetries).result.value.restricted
    ensures forall e :: e in Resume(p, sc, maxRetries).emitted && e.snapshot.Some? ==> Meets(Veil, e.snapshot.value)
    ensures forall e :: e in Resume(p, sc, maxRetries).emitted && InProgress(e.phase) ==>
      e.snapshot.Some? && e.snapshot.value.restricted
  {
    assert Keeps(Veil, Resume(p, sc, maxRetries)) by { RestrictedKeeps(p, sc, maxRetries); }
    hide Resume, Fetched;
  }

  lemma RestrictedKeeps(p: ResumeParams, sc: ResumeScript, maxRetries: int)
    requires Fetched(p, sc, maxRetries).result.Ok? && Fetched(p, sc, maxRetries).result.value.restricted
    ensures Keeps(Veil, Resume(p, sc, maxRetries))
  {
    hide Fetched, Keeps, EmitRestricted, EmitTerminal, PollLoopRestricted;
    var got := Fetched(p, sc, maxRetries);
    var d := got.result.value;
    FetchedKeeps(Veil, p, sc, maxRetries);
    var c := Limited(Current(got.view), d);
    var w := got.view.(ctx := Some(c));
    ReplaceKeeps(Veil, got.view, c);
    EmitTerminalKeeps(Veil, w, d, d.fromToken, d.toToken);
    EmitRestrictedKeeps(w, d);
    PollLoopRestrictedKeeps(EmitRestricted(w, d), sc.ticks);
  }

  /** The addresses and codes an unrestricted resumed run may show: those of the detail it began with. */
  function ResumeLimit(d: Detail, sc: ResumeScript): Limit {
    Shown({None, d.swap.depositAddress, AddressOf(d.swap)}, {None, sc.initial.qr, sc.gate.qr},
          {None, d.destAddress, Some(OrElse(d.destAddress, ""))},
          {None, d.refundAddress, Some(OrElse(d.refundAddress, ""))})
  }

  lemma ResumeKeeps(p: ResumeParams, sc: ResumeScript, maxRetries: int)
    requires Fetched(p, sc, maxRetries).result.Ok? && !Fetched(p, sc, maxRetries).result.value.restricted
    ensures Keeps(ResumeLimit(Fetched(p, sc, maxRetries).result.value, sc), Resume(p, sc, maxRetries))
  {
    hide Fetched, Keeps, EmitTerminal, EmitInitialResumePhase, PollLoop, HandleError, Cancel;
    var got := Fetched(p, sc, maxRetries);
    var d := got.result.value;
    var l := ResumeLimit(d, sc);
    FetchedKeeps(UNKNOWN, p, sc, maxRetries);
    LooserLimit(UNKNOWN, l, got.view);
    if d.status in TERMINAL_STATUSES {
      var c := Receipt(Current(got.view), d, p.provider);
      assert Meets(l, c) by { Unlimited(l, got.view); }
      ReplaceKeeps(l, got.view, c);
      EmitTerminalKeeps(l, got.view.(ctx := Some(c)), d, p.fromToken, p.toToken);
    } else if sc.abortedBeforePhase {
      CancelKeeps(l, got.view);
      HandleErrorKeeps(l, Cancel(got.view), CancelledFault, sc.abortedAtEnd);
    } else {
      InitialPhaseKeeps(got.view, d, p.provider, sc);
      var shown := EmitInitialResumePhase(got.view, d, p.provider, sc.initial, sc.gate);
      var thrown := if shown.result.Err? then shown.result.error else CancelledFault;
      HandleErrorKeeps(l, shown.view, thrown, sc.abortedAtEnd);
      PollLoopKeeps(l, shown.view, sc.ticks);
    }
  }

  lemma InitialPhaseKeeps(v: View, d: Detail, provider: string, sc: ResumeScript)
    requires Keeps(ResumeLimit(d, sc), v) && v.ctx.Some?
    ensures var r := EmitInitialResumePhase(v, d, provider, sc.initial, sc.gate);
      Keeps(ResumeLimit(d, sc), r.view) && r.view.ctx.Some?
  {
    hide Keeps, Transition, Demand, EmitAwaitingDeposit, VerifierRuns, Hydrated;
    var l := ResumeLimit(d, sc);
    var dest, refund := OrElse(d.destAddress, ""), OrElse(d.refundAddress, "");
    GateKeeps(l, v, d.swap, dest, refund, provider, sc.gate);
    if d.status !in PRE_DEPOSIT {
      var verification := if VerifierRuns(d.swap) && sc.initial.verdict.Answered? then sc.initial.verdict.result
        else Verification(true, provider, [FlowContext.Check("Server verification", true, "Resumed")]);
      var c := Hydrated(Current(v), d.swap, dest, refund, provider, sc.initial.qr, verification);
      assert Meets(l, c) by { HydratedMeets(v, d, provider, sc, verification); }
      ReplaceKeeps(l, v, c);
      DemandKeeps(l, v.(ctx := Some(c)), ValidVerified, "resume:" + d.status);
      var (w, verified) := Demand(v.(ctx := Some(c)), ValidVerified, "resume:" + d.status);
      if verified.Some? {
        GateKeeps(l, w, d.swap, dest, refund, provider, sc.gate);
        if ProgressOf(d).Some? {
          var (phase, text, payload) := ProgressOf(d).value;
          SetExtraKeeps(l, w, text, Message);
          ProgressKeeps(l, SetExtra(w, text, Message), phase, c, payload);
        }
      }
    }
  }

  lemma HydratedMeets(v: View, d: Detail, provider: string, sc: ResumeScript, verification: Verification)
    requires Keeps(ResumeLimit(d, sc), v) && v.ctx.Some?
    ensures Meets(ResumeLimit(d, sc),
                  Hydrated(Current(v), d.swap, OrElse(d.destAddress, ""), OrElse(d.refundAddress, ""),
                                               provider, sc.initial.qr, verification))
  {
  }

  /** Every state of a phase in progress that a resumed run emits is fully validated or marked restricted. */
  lemma ResumeProgressIsValidated(p: ResumeParams, sc: ResumeScript, maxRetries: int)
    ensures forall e :: e in Resume(p, sc, maxRetries).emitted ==> Justified(e)
  {
    hide Justified, HandleError;
    var got := Fetched(p, sc, maxRetries);
    if got.result.Err? {
      FetchedKeeps(UNKNOWN, p, sc, maxRetries);
      HandleErrorKeeps(UNKNOWN, got.view, got.result.error, sc.abortedAtEnd);
    } else if got.result.value.restricted {
      RestrictedKeeps(p, sc, maxRetries);
    } else {
      ResumeKeeps(p, sc, maxRetries);
    }
  }
}
