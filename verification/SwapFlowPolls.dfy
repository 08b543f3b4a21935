/** Which states a polling loop shows, told from its polls alone: the phases they announce, and when the
    states are marked as verified. */
module SwapFlowPolls {
  import opened Wrappers
  import opened FlowContext
  import opened SwapFlow
  import opened SwapFlowSafety

  /** Some of these states shows a context marked verified. */
  ghost predicate Said(emitted: seq<Emission>) {
    exists e :: e in emitted && e.snapshot.Some? && Marked(e.snapshot.value)
  }

  /** A poll that brings a detail with verification data. */
  predicate CarriesData(t: Tick) {
    !t.aborted && t.detail.Some? && t.detail.value.swap.verification.Some?
  }

  /** The states w has emitted beyond those of v. */
  function Since(v: View, w: View): seq<Emission>
    requires v.emitted <= w.emitted
  {
    w.emitted[|v.emitted|..]
  }

  /** What a step adds, and the context it leaves, are all marked or all unmarked. */
  ghost predicate Adds(v: View, w: View, mark: bool) {
    && w.ctx.Some? && Marked(w.ctx.value) == mark && v.emitted <= w.emitted
    && forall e :: e in Since(v, w) ==> e.snapshot.Some? && Marked(e.snapshot.value) == mark
  }

  lemma TransitionAdds(v: View, e: Emission)
    requires v.ctx.Some? && e.snapshot.Some? && Marked(e.snapshot.value) == Marked(v.ctx.value)
    ensures Adds(v, Transition(v, e), Marked(v.ctx.value))
  {
  }

  /** Polling marks the context when verification data comes, and nothing unmarks it. */
  lemma PollAdds(v: View, t: Tick)
    requires v.ctx.Some?
    ensures Adds(v, Poll(v, t).0, Marked(v.ctx.value) || CarriesData(t))
  {
    hide Transition, Adds, ProgressOf, Mapped, ValidVerified, ProgressName, TerminalText, TerminalEmission;
    TransitionAdds(v, Emission(Cancelled, v.ctx, Plain));
    if !t.aborted && t.detail.Some? {
      var d := t.detail.value;
      var w := Populated(v, d);
      TerminalAdds(w, d);
      if ProgressOf(d).Some? { ProgressAdds(w, d); }
      SameEmitted(v, w, Poll(v, t).0, Marked(v.ctx.value) || CarriesData(t));
      assert Adds(w, w, Marked(w.ctx.value)) by { NothingAdded(w); }
    } else {
      NothingAdded(v);
    }
  }

  lemma NothingAdded(v: View)
    requires v.ctx.Some?
    ensures Adds(v, v, Marked(v.ctx.value))
  {
  }

  lemma SameEmitted(v: View, w: View, x: View, mark: bool)
    requires v.emitted == w.emitted
    ensures Adds(w, x, mark) ==> Adds(v, x, mark)
  {
  }

  lemma TerminalAdds(v: View, d: Detail)
    requires v.ctx.Some?
    ensures Adds(v, EmitTerminal(v, d, d.fromToken, d.toToken), Marked(v.ctx.value))
  {
    hide Transition, Adds, TerminalText;
    var c := Current(v).(swapId := Some(d.swap.swapNumber), swapNumber := Some(d.swap.swapNumber),
                         fromToken := Some(d.fromToken), toToken := Some(d.toToken),
                         depositAmount := Some(d.swap.amountIn), extra := Some(TerminalText(d.status)));
    var w := v.(ctx := Some(c));
    TransitionAdds(w, TerminalEmission(d, Some(c)));
    SameEmitted(v, w, EmitTerminal(v, d, d.fromToken, d.toToken), Marked(c));
  }

  lemma ProgressAdds(v: View, d: Detail)
    requires v.ctx.Some? && ProgressOf(d).Some?
    ensures var (phase, text, payload) := ProgressOf(d).value;
      var (x, verified) := Demand(SetExtra(v, text, Message), ValidVerified, ProgressName(phase));
      Adds(v, if verified.Some? then Transition(x, Emission(phase, verified, payload)) else x, Marked(v.ctx.value))
  {
    hide Transition, Adds, ProgressOf, ValidVerified, ProgressName;
    var (phase, text, payload) := ProgressOf(d).value;
    var w := SetExtra(v, text, Message);
    var failed := Emission(Failed, w.ctx, Reason("[" + ProgressName(phase) + "] " + Invalid(ProgressName(phase))));
    TransitionAdds(w, failed);
    TransitionAdds(w, Emission(phase, w.ctx, payload));
    SameEmitted(v, w, Transition(w, failed), Marked(w.ctx.value));
    SameEmitted(v, w, Transition(w, Emission(phase, w.ctx, payload)), Marked(w.ctx.value));
  }

  // ----- the phases announced -----

  /** All that a context needs to be shown in progress, apart from its text and verification. */
  predicate Complete(c: Context) {
    && Truthy(c.depositAddr) && Truthy(c.destAddress) && Truthy(c.fromToken) && Truthy(c.toToken)
    && Truthy(c.qr) && Truthy(c.provider)
  }

  /** The statuses of a swap that has ended. */
  predicate Final(status: string) {
    || status == "completed" || status == "failed" || status == "refunded" || status == "withheld"
    || status == "expired"
  }

  /** The statuses of a swap under way after its deposit. */
  predicate Underway(status: string) {
    status == "deposited" || status == "swapping" || status == "sending" || status == "cancelling"
  }

  /** The phase each status of the server is shown as. Before the deposit a status has no phase of its own,
      and neither has "punished". */
  function PhaseOf(status: string): Option<Phase> {
    if status == "deposited" then Some(Confirming)
    else if status == "swapping" then Some(Swapping)
    else if status == "sending" then Some(Sending)
    else if status == "cancelling" then Some(SwapFlow.Cancelling)
    else if status == "completed" then Some(Completed)
    else if status == "refunded" then Some(Refunded)
    else if status == "expired" then Some(Expired)
    else if status == "failed" || status == "withheld" then Some(Failed)
    else None
  }

  /** A cancelling swap whose required action has an empty message: its text cannot be shown. */
  predicate Wordless(d: Detail) {
    d.status == "cancelling" && d.requiredAction.Some? && d.requiredAction.value.message == ""
  }

  predicate IsTerminal(t: Tick) {
    !t.aborted && t.detail.Some? && Final(t.detail.value.status)
  }

  predicate IsProgress(t: Tick) {
    !t.aborted && t.detail.Some? && Underway(t.detail.value.status)
  }

  function TerminalPhase(d: Detail): Phase {
    OrElse(PhaseOf(d.status), Failed)
  }

  lemma StatusDecides(d: Detail)
    ensures d.status in TERMINAL_STATUSES <==> Final(d.status)
    ensures ProgressOf(d).Some? <==> Underway(d.status)
    ensures Underway(d.status) ==> !Final(d.status) && Mapped(d.status) && PhaseOf(d.status).Some?
    ensures ProgressOf(d).Some? ==>
      && Some(ProgressOf(d).value.0) == PhaseOf(d.status)
      && (ProgressOf(d).value.1 == "" <==> Wordless(d))
    ensures Final(d.status) ==> PhaseOf(d.status) == Some(TerminalEmission(d, None).phase)
  {
  }

  /** The phase a poll announces; one in progress fails on an incomplete context or an empty text. */
  function Announces(t: Tick, complete: bool): Option<Phase> {
    if t.aborted then Some(Cancelled)
    else if IsTerminal(t) then Some(TerminalPhase(t.detail.value))
    else if IsProgress(t) then
      Some(if complete && !Wordless(t.detail.value) then PhaseOf(t.detail.value.status).value else Failed)
    else None
  }

  /** The poll that ends the loop. */
  predicate Ends(t: Tick) {
    t.aborted || IsTerminal(t)
  }

  predicate Reached(ticks: seq<Tick>, j: nat)
    requires j <= |ticks|
  {
    forall i :: 0 <= i < j ==> !Ends(ticks[i])
  }

  /** The phase announced last before poll j. */
  function PhaseBefore(start: Phase, complete: bool, ticks: seq<Tick>, j: nat): Phase
    requires j <= |ticks|
  {
    if j == 0 then start
    else OrElse(Announces(ticks[j - 1], complete), PhaseBefore(start, complete, ticks, j - 1))
  }

  /** Poll j is made and shows a state: the phase it announces is another than the last one. */
  predicate Shows(start: Phase, complete: bool, ticks: seq<Tick>, j: nat)
    requires j < |ticks|
  {
    && Reached(ticks, j)
    && Announces(ticks[j], complete).Some?
    && Announces(ticks[j], complete).value != PhaseBefore(start, complete, ticks, j)
  }

  ghost predicate DataBy(ticks: seq<Tick>, j: nat)
    requires j < |ticks|
  {
    exists k :: 0 <= k <= j && CarriesData(ticks[k])
  }

  /** Some poll shows a state, marked already or with verification data in it or in a poll before it. */
  ghost predicate ShownFrom(start: Phase, complete: bool, mark: bool, ticks: seq<Tick>) {
    exists j :: 0 <= j < |ticks| && Shows(start, complete, ticks, j) && (mark || DataBy(ticks, j))
  }

  /** The first poll, and the others from the phase it leaves. */
  lemma ShownByFirst(start: Phase, complete: bool, mark: bool, ticks: seq<Tick>)
    requires ticks != []
    ensures var said := Announces(ticks[0], complete);
      var mark' := mark || CarriesData(ticks[0]);
      ShownFrom(start, complete, mark, ticks) <==>
        || (said.Some? && said.value != start && mark')
        || (!Ends(ticks[0]) && ShownFrom(OrElse(said, start), complete, mark', ticks[1..]))
  {
    hide Announces, CarriesData, Ends, Shows, DataBy;
    var next := OrElse(Announces(ticks[0], complete), start);
    var mark' := mark || CarriesData(ticks[0]);
    ShowsFirst(start, complete, ticks);
    assert DataBy(ticks, 0) <==> CarriesData(ticks[0]) by { DataByFirst(ticks); }
    forall j | 1 <= j < |ticks|
      ensures Shows(start, complete, ticks, j) <==> !Ends(ticks[0]) && Shows(next, complete, ticks[1..], j - 1)
      ensures (mark || DataBy(ticks, j)) <==> (mark' || DataBy(ticks[1..], j - 1))
    {
      ShowsLater(start, complete, ticks, j);
      DataByLater(ticks, j);
    }
    if !Ends(ticks[0]) && ShownFrom(next, complete, mark', ticks[1..]) {
      var j :| 0 <= j < |ticks[1..]| && Shows(next, complete, ticks[1..], j) && (mark' || DataBy(ticks[1..], j));
      assert Shows(start, complete, ticks, j + 1) && (mark || DataBy(ticks, j + 1));
    }
  }

  lemma ShowsFirst(start: Phase, complete: bool, ticks: seq<Tick>)
    requires ticks != []
    ensures Shows(start, complete, ticks, 0) <==>
      Announces(ticks[0], complete).Some? && Announces(ticks[0], complete).value != start
  {
  }

  lemma DataByFirst(ticks: seq<Tick>)
    requires ticks != []
    ensures DataBy(ticks, 0) <==> CarriesData(ticks[0])
  {
    hide CarriesData;
  }

  lemma DataByLater(ticks: seq<Tick>, j: nat)
    requires 1 <= j < |ticks|
    ensures DataBy(ticks, j) <==> CarriesData(ticks[0]) || DataBy(ticks[1..], j - 1)
  {
    hide CarriesData;
    if DataBy(ticks[1..], j - 1) {
      var k :| 0 <= k <= j - 1 && CarriesData(ticks[1..][k]);
      assert CarriesData(ticks[k + 1]);
    }
    if DataBy(ticks, j) && !CarriesData(ticks[0]) {
      var k :| 0 <= k <= j && CarriesData(ticks[k]);
      assert CarriesData(ticks[1..][k - 1]);
    }
  }

  lemma ShowsLater(start: Phase, complete: bool, ticks: seq<Tick>, j: nat)
    requires 1 <= j < |ticks|
    ensures Shows(start, complete, ticks, j) <==>
      !Ends(ticks[0]) && Shows(OrElse(Announces(ticks[0], complete), start), complete, ticks[1..], j - 1)
  {
    hide Announces, Ends;
    PhaseLater(start, complete, ticks, j);
    assert forall i :: 1 <= i < j ==> ticks[1..][i - 1] == ticks[i];
    assert Reached(ticks, j) <==> !Ends(ticks[0]) && Reached(ticks[1..], j - 1) by {
      if !Ends(ticks[0]) && Reached(ticks[1..], j - 1) {
        forall i | 0 <= i < j ensures !Ends(ticks[i]) {
          if i > 0 { assert !Ends(ticks[1..][i - 1]); }
        }
      }
    }
  }

  lemma {:induction false} PhaseLater(start: Phase, complete: bool, ticks: seq<Tick>, j: nat)
    requires 1 <= j <= |ticks|
    ensures PhaseBefore(start, complete, ticks, j)
         == PhaseBefore(OrElse(Announces(ticks[0], complete), start), complete, ticks[1..], j - 1)
  {
    hide Announces;
    if j > 1 {
      PhaseLater(start, complete, ticks, j - 1);
      assert ticks[j - 1] == ticks[1..][j - 2];
    }
  }

  /** What a poll does with a status in progress. */
  function ProgressStep(v: View, d: Detail): View
    requires ProgressOf(d).Some?
  {
    var (phase, text, payload) := ProgressOf(d).value;
    var (x, verified) := Demand(SetExtra(v, text, Message), ValidVerified, ProgressName(phase));
    if verified.Some? then Transition(x, Emission(phase, verified, payload)) else x
  }

  lemma PollUnfolds(v: View, t: Tick)
    ensures var (w, done) := Poll(v, t);
      && done == Ends(t)
      && (t.aborted ==> w == Cancel(v))
      && (!t.aborted && t.detail.None? ==> w == v)
      && (!t.aborted && t.detail.Some? ==>
            var d := t.detail.value;
            w == if Final(d.status) then EmitTerminal(Populated(v, d), d, d.fromToken, d.toToken)
                 else if ProgressOf(d).Some? then ProgressStep(Populated(v, d), d)
                 else Populated(v, d))
  {
    if t.detail.Some? { StatusDecides(t.detail.value); }
    hide EmitTerminal, Final, ProgressOf, Populated, Demand, Transition, Mapped, ValidVerified, ProgressName;
  }

  // ----- what the loop shows -----

  /** The context has its verification entry, and is complete or not. */
  predicate Tracks(v: View, complete: bool) {
    v.ctx.Some? && v.ctx.value.verification.Some? && Complete(v.ctx.value) == complete
  }

  /** The step leaves this phase last, and shows a state if it was another. */
  predicate Arrives(v: View, w: View, phase: Phase) {
    w.lastPhase == phase && (|w.emitted| > |v.emitted| <==> phase != v.lastPhase)
  }

  lemma ProgressArrives(v: View, d: Detail, complete: bool)
    requires Tracks(v, complete) && ProgressOf(d).Some?
    ensures PhaseOf(d.status).Some? && Tracks(ProgressStep(v, d), complete)
    ensures Arrives(v, ProgressStep(v, d), if complete && !Wordless(d) then PhaseOf(d.status).value else Failed)
  {
    StatusDecides(d);
    ValidWhenComplete(SetExtra(v, ProgressOf(d).value.1, Message).ctx.value);
    hide ProgressOf, PhaseOf, Wordless, Underway, Final, ValidVerified, ProgressName;
  }

  lemma EndArrives(v: View, d: Detail)
    requires Final(d.status)
    ensures Arrives(v, EmitTerminal(v, d, d.fromToken, d.toToken), TerminalPhase(d))
  {
    StatusDecides(d);
    TerminalPhaseOnly(d);
    hide TerminalEmission, TerminalText, PhaseOf, Final;
  }

  lemma PollPhase(v: View, t: Tick, complete: bool)
    requires Tracks(v, complete)
    ensures var (w, done) := Poll(v, t);
      var said := Announces(t, complete);
      && done == Ends(t)
      && w.lastPhase == OrElse(said, v.lastPhase)
      && (|w.emitted| > |v.emitted| <==> said.Some? && said.value != v.lastPhase)
      && (!done ==> Tracks(w, complete))
  {
    PollUnfolds(v, t);
    hide Poll;
    if t.detail.Some? {
      var d := t.detail.value;
      var w := Populated(v, d);
      assert Tracks(w, complete) && w.emitted == v.emitted && w.lastPhase == v.lastPhase;
      StatusDecides(d);
      if Final(d.status) {
        EndArrives(w, d);
      } else if ProgressOf(d).Some? {
        ProgressArrives(w, d, complete);
      }
      hide EmitTerminal, ProgressStep, ProgressOf, PhaseOf, Wordless, Underway, Final, Populated, Tracks;
    }
  }

  lemma TerminalPhaseOnly(d: Detail)
    ensures forall s :: TerminalEmission(d, s).phase == TerminalEmission(d, None).phase
  {
  }

  lemma ValidWhenComplete(c: Context)
    requires c.extra.Some? && c.verification.Some?
    ensures ValidVerified(c) <==> Complete(c) && c.extra.value.text != ""
  {
  }

  /** The loop shows a state marked as verified if and only if it shows one at all, from a marked context
      or with verification data in that poll or before. */
  lemma {:induction false} PollLoopSays(v: View, ticks: seq<Tick>, complete: bool)
    requires Tracks(v, complete)
    ensures var end := PollLoop(v, ticks);
      && v.emitted <= end.emitted
      && (Said(Since(v, end)) <==> ShownFrom(v.lastPhase, complete, Marked(v.ctx.value), ticks))
    decreases ticks
  {
    hide Poll, Adds, Said, ShownFrom, CarriesData, Marked, Announces, Ends, Complete;
    if ticks == [] {
      NothingSaid(v, complete);
    } else {
      var (w, done) := Poll(v, ticks[0]);
      var mark := Marked(v.ctx.value) || CarriesData(ticks[0]);
      PollAdds(v, ticks[0]);
      PollPhase(v, ticks[0], complete);
      AddsMore(v, w, mark);
      ShownByFirst(v.lastPhase, complete, Marked(v.ctx.value), ticks);
      if done {
        assert PollLoop(v, ticks) == w;
      } else {
        PollLoopSays(w, ticks[1..], complete);
        SaidInParts(v, w, PollLoop(v, ticks));
      }
    }
  }

  lemma NothingSaid(v: View, complete: bool)
    requires v.ctx.Some?
    ensures !Said(Since(v, v)) && !ShownFrom(v.lastPhase, complete, Marked(v.ctx.value), [])
  {
  }

  lemma AddsMore(v: View, w: View, mark: bool)
    requires Adds(v, w, mark)
    ensures w.ctx.Some? && v.emitted <= w.emitted && Marked(w.ctx.value) == mark
    ensures Said(Since(v, w)) <==> mark && |v.emitted| < |w.emitted|
  {
    if |v.emitted| < |w.emitted| {
      assert Since(v, w)[0] in Since(v, w);
    }
  }

  lemma SaidInParts(v: View, w: View, x: View)
    requires v.emitted <= w.emitted <= x.emitted
    ensures Said(Since(v, x)) <==> Said(Since(v, w)) || Said(Since(w, x))
  {
    assert Since(v, x) == Since(v, w) + Since(w, x);
  }

  lemma SaidStays(v: View, w: View)
    requires v.emitted <= w.emitted
    ensures Said(w.emitted) <==> Said(v.emitted) || Said(Since(v, w))
  {
    assert w.emitted == v.emitted + Since(v, w);
  }
}
