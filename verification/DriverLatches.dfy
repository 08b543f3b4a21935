/** How a round moves the latches and counters of the driver, and what each way of ending means. */
module DriverLatches {
  import opened Wrappers
  import opened Bitcoin
  import opened Presign
  import opened Driver
  import opened DriverSafety
  import opened DriverRounds
  import MoneroKeys

  // ----- the latches -----

  datatype Mark = DleqMark | XmrMark | ContractMark | FundMark | PresigsMark | ReleaseMark(ok: bool)

  predicate Bears(e: Event, m: Mark) {
    match m
    case DleqMark => e.DleqAccepted?
    case XmrMark => e.XmrAccepted?
    case ContractMark => e.ContractAccepted?
    case FundMark => e.PostFund? && e.ok
    case PresigsMark => e.PostPresigs?
    case ReleaseMark(ok) => e.PostEncsig? && e.ok == ok
  }

  ghost predicate Has(events: seq<Event>, m: Mark) {
    exists i :: 0 <= i < |events| && Bears(events[i], m)
  }

  /** The fund branch forgets when it last funded as soon as a new deposit is asked for. */
  predicate Forgets(s: State, r: Round) {
    r.detail.Some? && Truthy(r.detail.value.depositAddress) && r.detail.value.status in PRE_FUNDING && s.fundedAt > 0
  }

  /** The latches after some events of a round that began in `s`; `base` is the funding clock before them. */
  ghost predicate Latched(s: State, base: int, r: Round, events: seq<Event>, now: State) {
    && now.dleqVerified == (s.dleqVerified || Has(events, DleqMark))
    && now.xmrVerified == (s.xmrVerified || Has(events, XmrMark))
    && (s.verificationEmitted || Has(events, ContractMark) ==> now.verificationEmitted)
    && (now.verificationEmitted && !s.verificationEmitted ==> r.detail.Some? && r.detail.value.hasVerification)
    && now.fundedAt == (if Has(events, FundMark) then r.fundClock else base)
    && now.encsigFailures == (if Has(events, ReleaseMark(true)) then 0
                              else s.encsigFailures + if Has(events, ReleaseMark(false)) then 1 else 0)
    && (Has(events, PresigsMark) ==>
          now.presigsStreak == match r.presigs case PresigsAccepted(_) => 0
                                               case PresigsPast => s.presigsStreak + 1
                                               case PresigsRefused => s.presigsStreak)
    && (!Has(events, PresigsMark) ==> now.presigsStreak == s.presigsStreak || now.presigsStreak == 0)
  }

  lemma HasOneMore(events: seq<Event>, e: Event)
    ensures forall m :: Has(events + [e], m) <==> Has(events, m) || Bears(e, m)
  {
    var t := events + [e];
    forall m | Has(events, m) || Bears(e, m) ensures Has(t, m) {
      if Has(events, m) {
        var i :| 0 <= i < |events| && Bears(events[i], m);
        assert t[i] == events[i];
      } else {
        assert t[|events|] == e;
      }
    }
  }

  lemma HasFunds(events: seq<Event>, posts: seq<bool>, p: ProtocolParams, a: string, amount: Option<int>, tx: Tx,
                 e: Encsigs)
    ensures var all := events + FundEvents(posts, p, a, amount, tx, e);
      && (forall m :: m != FundMark ==> (Has(all, m) <==> Has(events, m)))
      && (Has(all, FundMark) <==> Has(events, FundMark) || true in posts)
  {
    var funds := FundEvents(posts, p, a, amount, tx, e);
    var all := events + funds;
    forall m | Has(events, m) ensures Has(all, m) {
      var i :| 0 <= i < |events| && Bears(events[i], m);
      assert all[i] == events[i];
    }
    if true in posts {
      var i :| 0 <= i < |posts| && posts[i];
      assert all[|events| + i] == funds[i];
    }
  }

  lemma FundTurnLatches(cfg: Config, s: State, base: int, now: State, ev: seq<Event>, r: Round, p: ProtocolParams,
                        lockAddress: string, tx: Tx, e: Encsigs)
    requires Latched(s, base, r, ev, now) && !Has(ev, FundMark)
    ensures var t := FundTurn(cfg, now, ev, r, p, lockAddress, tx, e); Latched(s, base, r, t.events, t.state)
  {
    hide Has, FundPosts, FundEvents;
    HasFunds(ev, FundPosts(r.fund), p, lockAddress, r.lockAmount, tx, e);
  }

  lemma SnapshotTurnLatches(cfg: Config, s: State, base: int, now: State, k: nat, ev: seq<Event>, r: Round,
                            p: ProtocolParams, lockAddress: string, tx: Tx, e: Encsigs)
    requires Latched(s, base, r, ev, now) && !Has(ev, FundMark)
    ensures var t := SnapshotTurn(cfg, now, k, ev, r, p, lockAddress, tx, e); Latched(s, base, r, t.events, t.state)
  {
    hide Has, FundTurn, Bounded, RecoveryOf;
    var saved := SnapshotSaved(k, RecoveryOf(cfg, p, lockAddress, tx, e));
    HasOneMore(ev, SnapshotPresent(k));
    HasOneMore(ev, saved);
    FundTurnLatches(cfg, s, base, now, ev, r, p, lockAddress, tx, e);
    FundTurnLatches(cfg, s, base, now, ev + [SnapshotPresent(k)], r, p, lockAddress, tx, e);
    FundTurnLatches(cfg, s, base, now, ev + [saved], r, p, lockAddress, tx, e);
  }

  lemma PresigsTurnLatches(cfg: Config, s: State, base: int, now: State, k: nat, ev: seq<Event>, r: Round,
                           p: ProtocolParams, lockAddress: string, tx: Tx, sigs: PreSigs)
    requires Latched(s, base, r, ev, now) && !Has(ev, FundMark) && !Has(ev, PresigsMark)
    requires now.presigsStreak == s.presigsStreak
    ensures var t := PresigsTurn(cfg, now, k, ev, r, p, lockAddress, tx, sigs); Latched(s, base, r, t.events, t.state)
  {
    hide Has, SnapshotTurn, Bounded, ExtractPresigsEncsig, KnownEncsigs;
    var zero := now.(presigsStreak := 0);
    SnapshotTurnLatches(cfg, s, base, zero, k, ev, r, p, lockAddress, tx, KnownEncsigs(cfg, p, tx));
    var post := PostPresigs(lockAddress, tx, sigs, r.presigs.PresigsAccepted?);
    HasOneMore(ev, post);
    if r.presigs.PresigsAccepted? {
      SnapshotTurnLatches(cfg, s, base, zero, k, ev + [post], r, p, lockAddress, tx,
                          ExtractPresigsEncsig(r.presigs.reply));
    }
  }

  lemma ContractTurnLatches(cfg: Config, s: State, base: int, now: State, k: nat, ev: seq<Event>, r: Round,
                            d: SwapDetail, lockAddress: string)
    requires Latched(s, base, r, ev, now) && !Has(ev, FundMark) && !Has(ev, PresigsMark)
    requires now.presigsStreak == s.presigsStreak && r.detail == Some(d)
    ensures var t := ContractTurn(cfg, now, k, ev, r, d, lockAddress); Latched(s, base, r, t.events, t.state)
  {
    hide Has, PresigsTurn, PreSigsOf, FundingTx, LockAddress, Bounded;
    HasOneMore(ev, ContractAccepted(k));
    forall now, ev, p, tx, sigs
      | Latched(s, base, r, ev, now) && !Has(ev, FundMark) && !Has(ev, PresigsMark)
        && now.presigsStreak == s.presigsStreak
      ensures var t := PresigsTurn(cfg, now, k, ev, r, p, lockAddress, tx, sigs); Latched(s, base, r, t.events, t.state)
    {
      PresigsTurnLatches(cfg, s, base, now, k, ev, r, p, lockAddress, tx, sigs);
    }
  }

  lemma DleqTurnLatches(cfg: Config, s: State, base: int, now: State, k: nat, r: Round, d: SwapDetail,
                        lockAddress: string)
    requires now == s.(fundedAt := base) && r.detail == Some(d)
    ensures var t := DleqTurn(cfg, now, k, r, d, lockAddress); Latched(s, base, r, t.events, t.state)
  {
    hide ContractTurn, Bounded;
    assert Latched(s, base, r, [], now);
    ContractTurnLatches(cfg, s, base, now, k, [], r, d, lockAddress);
    forall event: Event | event.DleqAccepted?
      ensures var t := ContractTurn(cfg, now.(dleqVerified := true), k, [event], r, d, lockAddress);
        Latched(s, base, r, t.events, t.state)
    {
      assert [] + [event] == [event];
      HasOneMore([], event);
      ContractTurnLatches(cfg, s, base, now.(dleqVerified := true), k, [event], r, d, lockAddress);
    }
  }

  lemma ReleaseTurnLatches(cfg: Config, s: State, now: State, ev: seq<Event>, r: Round, p: ProtocolParams,
                           digest: string)
    requires Latched(s, s.fundedAt, r, ev, now) && !Has(ev, ReleaseMark(true)) && !Has(ev, ReleaseMark(false))
    ensures var t := ReleaseTurn(cfg, now, ev, r, p, digest); Latched(s, s.fundedAt, r, t.events, t.state)
  {
    hide Has, Bounded;
    HasOneMore(ev, PostEncsig(p, digest, cfg.lib.encsign(cfg.keys.b, p.S_a_bitcoin, digest), r.encsigAccepted));
  }

  lemma DigestTurnLatches(cfg: Config, s: State, now: State, ev: seq<Event>, r: Round, d: SwapDetail, p: ProtocolParams)
    requires Latched(s, s.fundedAt, r, ev, now) && !Has(ev, ReleaseMark(true)) && !Has(ev, ReleaseMark(false))
    ensures var t := DigestTurn(cfg, now, ev, r, d, p); Latched(s, s.fundedAt, r, t.events, t.state)
  {
    hide Has, DigestOn, Bounded, ReleaseTurn, Latched;
    forall digest
      ensures var t := ReleaseTurn(cfg, now, ev, r, p, digest); Latched(s, s.fundedAt, r, t.events, t.state)
    {
      ReleaseTurnLatches(cfg, s, now, ev, r, p, digest);
    }
  }

  /** The fund branch works on a round: it is past its head and its settle delay. */
  predicate FundBranch(cfg: Config, s: State, r: Round) {
    && PastHead(cfg, r) && r.detail.value.action == Some("fund")
  }

  /** After any round: the proof and the lock count as checked from the round that accepted them on; the
      funding clock is that of a successful post, forgotten when a new deposit is asked for; a failed
      release adds one and a successful one clears the count; a stuck /presigs adds one. */
  lemma LatchesMove(cfg: Config, s: State, k: nat, r: Round)
    ensures var t := RoundTurn(cfg, s, k, r);
      Latched(s, if FundBranch(cfg, s, r) && Forgets(s, r) then 0 else s.fundedAt, r, t.events, t.state)
  {
    hide DleqTurn, EncsigAction, Bounded, Latched;
    NothingLatched(s, r);
    if r.detail.Some? {
      var d := r.detail.value;
      SweepLatches(s, r, d);
      EncsigActionLatches(cfg, s, k, r, d);
      if Truthy(d.depositAddress) {
        DleqTurnLatches(cfg, s, s.fundedAt, s, k, r, d, d.depositAddress.value);
        DleqTurnLatches(cfg, s, 0, s.(fundedAt := 0), k, r, d, d.depositAddress.value);
      }
    }
  }

  lemma NothingLatched(s: State, r: Round)
    ensures Latched(s, s.fundedAt, r, [], s) && Latched(s, 0, r, [], s.(fundedAt := 0))
  {
  }

  lemma SweepLatches(s: State, r: Round, d: SwapDetail)
    ensures Latched(s, s.fundedAt, r, SweepAction(s, r, d).events, SweepAction(s, r, d).state)
  {
  }

  lemma EncsigActionLatches(cfg: Config, s: State, k: nat, r: Round, d: SwapDetail)
    ensures var t := EncsigAction(cfg, s, k, r, d); Latched(s, s.fundedAt, r, t.events, t.state)
  {
    hide DigestTurn, Bounded, LockVerdict;
    assert Latched(s, s.fundedAt, r, [], s);
    if d.params.Some? {
      var p := d.params.value;
      DigestTurnLatches(cfg, s, s, [], r, d, p);
      if HasXmrVerification(p) && Truthy(p.S_a_monero) && LockVerdict(cfg, r, p).Verified? {
        var verdict := LockVerdict(cfg, r, p);
        var event := XmrAccepted(k, p, verdict.index, verdict.amount);
        assert [] + [event] == [event];
        HasOneMore([], event);
        DigestTurnLatches(cfg, s, s.(xmrVerified := true), [event], r, d, p);
      }
    }
  }

  // ----- the exits -----

  /** The lock transaction a release is computed on gives this digest, or this error. */
  predicate DigestsTo(cfg: Config, s: State, r: Round, p: ProtocolParams, digest: Result<string, Error>) {
    || (s.lastSigned.Some? && RedeemDigest(cfg.lib, s.lastSigned.value, p, cfg.keys.B, cfg.network) == digest)
    || (s.lastSigned.None? && r.lockTx.LockTxFetched?
        && RedeemDigest(cfg.lib, r.lockTx.tx, p, cfg.keys.B, cfg.network) == digest)
  }

  predicate HasParams(r: Round) {
    ParamsOf(r).Some?
  }

  /** What has to be so for a run to end in a round in this way. */
  ghost predicate ExitMeans(cfg: Config, s: State, r: Round, exit: Exit) {
    match exit
    case Cancelled => r.abortedAtHead
    case Aborted => r.abortedAtDelay
    case ApiFailed => r.detail.None?
    case Finished(status) =>
      && r.detail.Some? && status == r.detail.value.status
      && status in {"completed", "failed", "refunded", "withheld", "expired"}
    case TimedOut(status) =>
      && r.clock >= cfg.deadline && r.detail.Some? && status == r.detail.value.status
      && status in {"pending", "awaiting_funding", "initializing"}
    case HandedOver(action) => r.detail.Some? && r.detail.value.action == Some(action) && action in {"cancel", "refund"}
    case DleqIncomplete =>
      HasParams(r) && (!Truthy(ParamsOf(r).value.S_a_monero) || ParamsOf(r).value.S_a_bitcoin == "")
    case DleqInvalid =>
      && HasParams(r)
      && var p := ParamsOf(r).value;
      && p.S_a_monero.Some? && p.dleqProof.Some?
      && !cfg.lib.dleqValid(p.S_a_bitcoin, p.S_a_monero.value, p.dleqProof.value)
    case WasmFailed => !r.wasmReady
    case VerifierFailed => r.verify.VerifierThrew?
    case ContractRejected => r.verify == Verdict(false)
    case LockKeyInvalid => HasParams(r) && MultisigScript(cfg.lib, ParamsOf(r).value.A, cfg.keys.B).None?
    case LockAddressMismatch =>
      && HasParams(r)
      && var derived := LockAddress(cfg.lib, ParamsOf(r).value.A, cfg.keys.B, cfg.network);
      && derived.Some? && !Asked(r, derived.value)
    case FundingFailed =>
      r.detail.Some? && r.detail.value.depositAddress.Some?
      && FundingTx(cfg.lib, cfg.coins, r.detail.value.depositAddress.value, r.lockAmount, cfg.network).None?
    case KeysMissing => cfg.keys.b == "" || cfg.keys.refundAddress == ""
    case PresignRejected(error) =>
      && HasParams(r) && r.detail.value.depositAddress.Some?
      && var tx := FundingTx(cfg.lib, cfg.coins, r.detail.value.depositAddress.value, r.lockAmount, cfg.network);
      && tx.Some? && PreSigsOf(cfg.lib, PreSigRequest(cfg, tx.value, ParamsOf(r).value)) == Err(error)
    case PresigsWedged => r.presigs.PresigsPast? && s.presigsStreak + 1 >= 6
    case EncsigMissing =>
      && r.presigs.PresigsAccepted?
      && (forall text :: HoldsText(r.presigs.reply, "txFullRefundEncsig", text) ==> !Truthy(text))
      && (forall text :: HoldsText(r.presigs.reply, "txPartialRefundEncsig", text) ==> !Truthy(text))
    case SnapshotWriteFailed => cfg.canSave && !(cfg.canLoad && r.snapshotOnDisk) && !r.snapshotSaved
    case SAMoneroMissing => HasParams(r) && (!Truthy(ParamsOf(r).value.S_a_monero) || cfg.keys.S_b_monero == "")
    case XmrLockFailed =>
      && HasParams(r) && HasXmrVerification(ParamsOf(r).value) && Truthy(ParamsOf(r).value.S_a_monero)
      && LockVerdict(cfg, r, ParamsOf(r).value).Rejected? && !LockVerdict(cfg, r, ParamsOf(r).value).retryable
    case XmrCheckThrew =>
      && HasParams(r) && HasXmrVerification(ParamsOf(r).value) && Truthy(ParamsOf(r).value.S_a_monero)
      && LockVerdict(cfg, r, ParamsOf(r).value).Threw?
    case NoSignedPsbt => s.lastSigned.None? && !cfg.hasBlockchain
    case LockTxFetchFailed => s.lastSigned.None? && r.lockTx.LockTxThrew?
    case DigestFailed(error) => HasParams(r) && DigestsTo(cfg, s, r, ParamsOf(r).value, Err(error))
    case DigestMismatch =>
      && HasParams(r)
      && exists digest :: (DigestsTo(cfg, s, r, ParamsOf(r).value, Ok(digest))
                           && Truthy(ParamsOf(r).value.txRedeemDigest)
                           && Some(digest) != ParamsOf(r).value.txRedeemDigest)
    case EncsigSubmitFailed => !r.encsigAccepted && s.encsigFailures + 1 >= 3
    case SweepParamsMissing => ParamsOf(r).None? || !Truthy(ParamsOf(r).value.S_a_monero)
    case SweepDone => r.sweepDone
    case SweepFailed => !r.sweepDone
  }

  ghost predicate EndsRightly(cfg: Config, s: State, r: Round, t: Turn) {
    t.control.Stop? ==>
      && ExitMeans(cfg, s, r, t.control.exit)
      && (t.control.exit in {SweepDone, SweepFailed} ==> |t.events| == 1 && t.events[0].Sweep?)
  }

  /** The state inside a round keeps what the exits depend on. */
  predicate SameCounters(s: State, now: State) {
    now.presigsStreak == s.presigsStreak && now.encsigFailures == s.encsigFailures && now.lastSigned == s.lastSigned
  }

  lemma PauseEnds(cfg: Config, s: State, now: State, ev: seq<Event>, r: Round)
    ensures EndsRightly(cfg, s, r, Pause(now, ev, r))
  {
  }

  lemma HaltEnds(cfg: Config, s: State, now: State, ev: seq<Event>, r: Round, exit: Exit)
    requires ExitMeans(cfg, s, r, exit) && exit !in {SweepDone, SweepFailed}
    ensures EndsRightly(cfg, s, r, Halt(now, ev, exit))
  {
    hide ExitMeans;
  }

  lemma SnapshotTurnEnds(cfg: Config, s: State, now: State, k: nat, ev: seq<Event>, r: Round, p: ProtocolParams,
                         lockAddress: string, tx: Tx, e: Encsigs)
    requires !HasRefundEncsig(e) ==> ExitMeans(cfg, s, r, EncsigMissing)
    ensures EndsRightly(cfg, s, r, SnapshotTurn(cfg, now, k, ev, r, p, lockAddress, tx, e))
  {
    var saved := SnapshotSaved(k, RecoveryOf(cfg, p, lockAddress, tx, e));
    FundTurnEnds(cfg, s, now, ev, r, p, lockAddress, tx, e);
    FundTurnEnds(cfg, s, now, ev + [SnapshotPresent(k)], r, p, lockAddress, tx, e);
    FundTurnEnds(cfg, s, now, ev + [saved], r, p, lockAddress, tx, e);
    if !HasRefundEncsig(e) {
      HaltEnds(cfg, s, now, ev, r, EncsigMissing);
    } else if cfg.canSave && !(cfg.canLoad && r.snapshotOnDisk) && !r.snapshotSaved {
      HaltEnds(cfg, s, now, ev, r, SnapshotWriteFailed);
    }
    hide FundTurn, RecoveryOf, Bounded, EndsRightly, ExitMeans;
  }

  lemma FundTurnEnds(cfg: Config, s: State, now: State, ev: seq<Event>, r: Round, p: ProtocolParams,
                     lockAddress: string, tx: Tx, e: Encsigs)
    ensures EndsRightly(cfg, s, r, FundTurn(cfg, now, ev, r, p, lockAddress, tx, e))
  {
    hide FundPosts, FundEvents, Bounded;
  }

  lemma PresigsTurnEnds(cfg: Config, s: State, now: State, k: nat, ev: seq<Event>, r: Round, p: ProtocolParams,
                        lockAddress: string, tx: Tx, sigs: PreSigs)
    requires SameCounters(s, now)
    ensures EndsRightly(cfg, s, r, PresigsTurn(cfg, now, k, ev, r, p, lockAddress, tx, sigs))
  {
    var asked := ev + [PostPresigs(lockAddress, tx, sigs, r.presigs.PresigsAccepted?)];
    var reset := now.(presigsStreak := 0);
    var later := now.(presigsStreak := now.presigsStreak + 1);
    PauseEnds(cfg, s, later, asked, r);
    PauseEnds(cfg, s, now, asked, r);
    if AlreadyHasEncsig(p) {
      SnapshotTurnEnds(cfg, s, reset, k, ev, r, p, lockAddress, tx, KnownEncsigs(cfg, p, tx));
    } else if r.presigs.PresigsAccepted? {
      SnapshotTurnEnds(cfg, s, reset, k, asked, r, p, lockAddress, tx, ExtractPresigsEncsig(r.presigs.reply));
    } else if r.presigs.PresigsPast? && later.presigsStreak >= 6 {
      HaltEnds(cfg, s, later, asked, r, PresigsWedged);
    }
    hide SnapshotTurn, KnownEncsigs, ExtractPresigsEncsig, Bounded, EndsRightly, ExitMeans, Pause, Halt;
  }

  lemma BuildTurnEnds(cfg: Config, s: State, now: State, k: nat, ev: seq<Event>, r: Round, d: SwapDetail,
                      lockAddress: string)
    requires SameCounters(s, now) && r.detail == Some(d) && d.depositAddress == Some(lockAddress)
    ensures EndsRightly(cfg, s, r, BuildTurn(cfg, now, k, ev, r, d, lockAddress))
  {
    hide PresigsTurn, PreSigsOf, FundingTx, P2wsh, Bounded;
    PauseEnds(cfg, s, now, ev, r);
    var tx := FundingTx(cfg.lib, cfg.coins, lockAddress, r.lockAmount, cfg.network);
    if d.params.Some? && tx.Some? {
      var p := d.params.value;
      var sigs := PreSigsOf(cfg.lib, PreSigRequest(cfg, tx.value, p));
      if sigs.Ok? { PresigsTurnEnds(cfg, s, now, k, ev, r, p, lockAddress, tx.value, sigs.value); }
    }
  }

  lemma ContractTurnEnds(cfg: Config, s: State, now: State, k: nat, ev: seq<Event>, r: Round, d: SwapDetail,
                         lockAddress: string)
    requires SameCounters(s, now) && r.detail == Some(d) && d.depositAddress == Some(lockAddress)
    ensures EndsRightly(cfg, s, r, ContractTurn(cfg, now, k, ev, r, d, lockAddress))
  {
    hide BuildTurn, Bounded;
    BuildTurnEnds(cfg, s, now, k, ev, r, d, lockAddress);
    BuildTurnEnds(cfg, s, now.(verificationEmitted := true), k, ev + [ContractAccepted(k)], r, d, lockAddress);
  }

  lemma DleqTurnEnds(cfg: Config, s: State, now: State, k: nat, r: Round, d: SwapDetail, lockAddress: string)
    requires SameCounters(s, now) && r.detail == Some(d) && d.depositAddress == Some(lockAddress)
    ensures EndsRightly(cfg, s, r, DleqTurn(cfg, now, k, r, d, lockAddress))
  {
    hide ContractTurn, Bounded;
    ContractTurnEnds(cfg, s, now, k, [], r, d, lockAddress);
    if d.params.Some? && d.params.value.S_a_monero.Some? && d.params.value.dleqProof.Some? {
      var p := d.params.value;
      var accepted := DleqAccepted(p.S_a_bitcoin, p.S_a_monero.value, p.dleqProof.value);
      ContractTurnEnds(cfg, s, now.(dleqVerified := true), k, [accepted], r, d, lockAddress);
    }
  }

  lemma FundActionEnds(cfg: Config, s: State, k: nat, r: Round, d: SwapDetail)
    requires r.detail == Some(d)
    ensures EndsRightly(cfg, s, r, FundAction(cfg, s, k, r, d))
  {
    PauseEnds(cfg, s, s, [], r);
    PauseEnds(cfg, s, s.(fundedAt := 0), [], r);
    if d.depositAddress.Some? {
      DleqTurnEnds(cfg, s, s, k, r, d, d.depositAddress.value);
      DleqTurnEnds(cfg, s, s.(fundedAt := 0), k, r, d, d.depositAddress.value);
    }
    hide DleqTurn, Bounded, EndsRightly, ExitMeans, Pause;
  }

  lemma DigestTurnEnds(cfg: Config, s: State, now: State, ev: seq<Event>, r: Round, d: SwapDetail, p: ProtocolParams)
    requires SameCounters(s, now) && r.detail == Some(d) && d.params == Some(p)
    ensures EndsRightly(cfg, s, r, DigestTurn(cfg, now, ev, r, d, p))
  {
    hide RedeemDigest, Bounded;
  }

  lemma EncsigActionEnds(cfg: Config, s: State, k: nat, r: Round, d: SwapDetail)
    requires r.detail == Some(d)
    ensures EndsRightly(cfg, s, r, EncsigAction(cfg, s, k, r, d))
  {
    hide DigestTurn, Bounded, LockVerdict;
    if d.params.Some? {
      var p := d.params.value;
      DigestTurnEnds(cfg, s, s, [], r, d, p);
      if HasXmrVerification(p) && Truthy(p.S_a_monero) && LockVerdict(cfg, r, p).Verified? {
        var verdict := LockVerdict(cfg, r, p);
        var event := XmrAccepted(k, p, verdict.index, verdict.amount);
        DigestTurnEnds(cfg, s, s.(xmrVerified := true), [event], r, d, p);
      }
    }
  }

  /** Whichever way a round ends the run, the reason the exit gives is true of what the round was answered. */
  lemma ExitsAreTrue(cfg: Config, s: State, k: nat, r: Round)
    ensures EndsRightly(cfg, s, r, RoundTurn(cfg, s, k, r))
  {
    hide FundAction, EncsigAction, Bounded;
    if PastHead(cfg, r) {
      var d := r.detail.value;
      FundActionEnds(cfg, s, k, r, d);
      EncsigActionEnds(cfg, s, k, r, d);
    }
  }

  // ----- when a run goes on -----

  /** A fund round goes on while it waits (for the broker, a deposit address, Alice's proof or parameters, or the
      server), and when it has posted the funding; every check it comes to before that has to pass. */
  predicate FundGoesOn(cfg: Config, s: State, r: Round, d: SwapDetail) {
    || (d.status !in {"pending", "awaiting_funding", "initializing"} && s.fundedAt > 0
        && r.settleClock - s.fundedAt > 15_000)
    || !Truthy(d.depositAddress) || d.depositAddress.value == s.lastFundedAddress
    || (!s.dleqVerified && (d.params.None? || !Truthy(d.params.value.dleqProof)))
    || (&& (s.dleqVerified || DleqHolds(cfg, s, r, d.params.value))
        && (s.verificationEmitted || !d.hasVerification || r.verify == Verdict(true))
        && (d.params.Some? ==> BuildGoesOn(cfg, s, r, d.params.value, d.depositAddress.value)))
  }

  /** The lock address is that of (A, B), the funding and the graph can be built, and then: /presigs is refused,
      or answered "past" for less than the sixth time in a row, or a refund encsig is known and a snapshot kept. */
  predicate BuildGoesOn(cfg: Config, s: State, r: Round, p: ProtocolParams, lockAddress: string) {
    var tx := FundingTx(cfg.lib, cfg.coins, lockAddress, r.lockAmount, cfg.network);
    && LockAddress(cfg.lib, p.A, cfg.keys.B, cfg.network) == Some(lockAddress)
    && tx.Some? && cfg.keys.b != "" && cfg.keys.refundAddress != ""
    && Acceptable(cfg.lib, Request(cfg.keys.b, tx.value, p, cfg.keys.refundAddress, cfg.network, DEFAULT_POLICY))
    && var known := (Truthy(p.fullRefundEncsig) || Truthy(p.partialRefundEncsig)) && Truthy(p.txRedeemDigest);
    && (!known && r.presigs.PresigsPast? ==> s.presigsStreak + 1 < 6)
    && (!known && r.presigs.PresigsAccepted? ==> HasRefundEncsig(ExtractPresigsEncsig(r.presigs.reply)))
    && (known || r.presigs.PresigsAccepted? ==> !cfg.canSave || (cfg.canLoad && r.snapshotOnDisk) || r.snapshotSaved)
  }

  /** A release round goes on while it waits for parameters, for Alice's lock to be announced or confirmed, or
      for the lock transaction, and when it has posted the signature, unless that failed for the third time. */
  predicate EncsigGoesOn(cfg: Config, s: State, r: Round, d: SwapDetail) {
    d.params.Some? ==>
      var p := d.params.value;
      if s.xmrVerified then DigestGoesOn(cfg, s, r, d, p)
      else HasXmrVerification(p) ==>
        && Truthy(p.S_a_monero) && cfg.keys.S_b_monero != ""
        && match LockVerdict(cfg, r, p)
           case Threw => false
           case Rejected(_, retryable) => retryable
           case Verified(_, _) => DigestGoesOn(cfg, s, r, d, p)
  }

  predicate DigestGoesOn(cfg: Config, s: State, r: Round, d: SwapDetail, p: ProtocolParams) {
    var waits := s.lastSigned.None? && cfg.hasBlockchain && (!Truthy(d.depositTxHash) || r.lockTx.LockTxMissing?);
    waits ||
      (&& ReleaseTx(cfg, s, r, d).Some?
       && var digest := RedeemDigest(cfg.lib, ReleaseTx(cfg, s, r, d).value, p, cfg.keys.B, cfg.network);
       && digest.Ok? && (Truthy(p.txRedeemDigest) ==> digest.value == p.txRedeemDigest.value)
       && (r.encsigAccepted || s.encsigFailures + 1 < 3))
  }

  function ReleaseTx(cfg: Config, s: State, r: Round, d: SwapDetail): Option<Tx> {
    if s.lastSigned.Some? then s.lastSigned
    else if cfg.hasBlockchain && Truthy(d.depositTxHash) && r.lockTx.LockTxFetched? then Some(r.lockTx.tx)
    else None
  }

  /** What lets a run go on after a round. */
  predicate GoesOn(cfg: Config, s: State, r: Round) {
    && !r.abortedAtHead && !r.abortedAtDelay && r.detail.Some?
    && var d := r.detail.value;
    && d.status !in {"completed", "failed", "refunded", "withheld", "expired"}
    && !(r.clock >= cfg.deadline && d.status in {"pending", "awaiting_funding", "initializing"})
    && (d.action == Some("fund") ==> FundGoesOn(cfg, s, r, d))
    && (d.action == Some("submit_encsig") ==> EncsigGoesOn(cfg, s, r, d))
    && d.action !in {Some("sweep"), Some("cancel"), Some("refund")}
    && (d.status == "sending" ==> d.action == Some("fund") || d.action == Some("submit_encsig"))
  }

  lemma SnapshotTurnGoesOn(cfg: Config, s: State, k: nat, ev: seq<Event>, r: Round, p: ProtocolParams,
                           lockAddress: string, tx: Tx, e: Encsigs)
    ensures SnapshotTurn(cfg, s, k, ev, r, p, lockAddress, tx, e).control.Again? <==>
      && !r.abortedAtDelay && HasRefundEncsig(e)
      && (!cfg.canSave || (cfg.canLoad && r.snapshotOnDisk) || r.snapshotSaved)
  {
    hide FundPosts, FundEvents, RecoveryOf, Bounded;
  }

  lemma PresigsTurnGoesOn(cfg: Config, s: State, k: nat, ev: seq<Event>, r: Round, p: ProtocolParams,
                          lockAddress: string, tx: Tx, sigs: PreSigs)
    ensures PresigsTurn(cfg, s, k, ev, r, p, lockAddress, tx, sigs).control.Again? <==>
      && !r.abortedAtDelay
      && var known := (Truthy(p.fullRefundEncsig) || Truthy(p.partialRefundEncsig)) && Truthy(p.txRedeemDigest);
      && (!known && r.presigs.PresigsPast? ==> s.presigsStreak + 1 < 6)
      && (!known && r.presigs.PresigsAccepted? ==> HasRefundEncsig(ExtractPresigsEncsig(r.presigs.reply)))
      && (known || r.presigs.PresigsAccepted? ==> !cfg.canSave || (cfg.canLoad && r.snapshotOnDisk) || r.snapshotSaved)
  {
    hide SnapshotTurn, ExtractPresigsEncsig, Bounded;
    var s' := s.(presigsStreak := 0);
    SnapshotTurnGoesOn(cfg, s', k, ev, r, p, lockAddress, tx, KnownEncsigs(cfg, p, tx));
    if r.presigs.PresigsAccepted? {
      SnapshotTurnGoesOn(cfg, s', k, ev + [PostPresigs(lockAddress, tx, sigs, true)], r, p, lockAddress, tx,
                         ExtractPresigsEncsig(r.presigs.reply));
    }
  }

  lemma BuildTurnGoesOn(cfg: Config, s: State, k: nat, ev: seq<Event>, r: Round, d: SwapDetail, lockAddress: string)
    ensures BuildTurn(cfg, s, k, ev, r, d, lockAddress).control.Again? <==>
      !r.abortedAtDelay && (d.params.Some? ==> BuildGoesOn(cfg, s, r, d.params.value, lockAddress))
  {
    hide PresigsTurn, PreSigsOf, Acceptable, FundingTx, LockAddress, ExtractPresigsEncsig, Bounded;
    var tx := FundingTx(cfg.lib, cfg.coins, lockAddress, r.lockAmount, cfg.network);
    if d.params.Some? && tx.Some? {
      var rq := PreSigRequest(cfg, tx.value, d.params.value);
      AcceptsExactly(cfg.lib, rq);
      if PreSigsOf(cfg.lib, rq).Ok? {
        PresigsTurnGoesOn(cfg, s, k, ev, r, d.params.value, lockAddress, tx.value, PreSigsOf(cfg.lib, rq).value);
      }
    }
  }

  lemma ContractTurnGoesOn(cfg: Config, s: State, k: nat, ev: seq<Event>, r: Round, d: SwapDetail, lockAddress: string)
    ensures ContractTurn(cfg, s, k, ev, r, d, lockAddress).control.Again? <==>
      && !r.abortedAtDelay && (s.verificationEmitted || !d.hasVerification || r.verify == Verdict(true))
      && (d.params.Some? ==> BuildGoesOn(cfg, s, r, d.params.value, lockAddress))
  {
    hide BuildTurn, BuildGoesOn, Bounded;
    BuildTurnGoesOn(cfg, s, k, ev, r, d, lockAddress);
    BuildTurnGoesOn(cfg, s.(verificationEmitted := true), k, ev + [ContractAccepted(k)], r, d, lockAddress);
    SameStreak(cfg, s, s.(verificationEmitted := true), r, d, lockAddress);
  }

  lemma SameStreak(cfg: Config, s: State, now: State, r: Round, d: SwapDetail, lockAddress: string)
    requires now.presigsStreak == s.presigsStreak
    ensures d.params.Some? ==>
      (BuildGoesOn(cfg, now, r, d.params.value, lockAddress) <==> BuildGoesOn(cfg, s, r, d.params.value, lockAddress))
  {
    hide Acceptable, FundingTx, LockAddress;
  }

  lemma DleqTurnGoesOn(cfg: Config, s: State, k: nat, r: Round, d: SwapDetail, lockAddress: string)
    ensures DleqTurn(cfg, s, k, r, d, lockAddress).control.Again? <==>
      && !r.abortedAtDelay
      && (|| (!s.dleqVerified && (d.params.None? || !Truthy(d.params.value.dleqProof)))
          || (&& (s.dleqVerified || DleqHolds(cfg, s, r, d.params.value))
              && (s.verificationEmitted || !d.hasVerification || r.verify == Verdict(true))
              && (d.params.Some? ==> BuildGoesOn(cfg, s, r, d.params.value, lockAddress))))
  {
    hide ContractTurn, BuildGoesOn, Bounded;
    ContractTurnGoesOn(cfg, s, k, [], r, d, lockAddress);
    if d.params.Some? && d.params.value.S_a_monero.Some? && d.params.value.dleqProof.Some? {
      var p := d.params.value;
      var accepted := DleqAccepted(p.S_a_bitcoin, p.S_a_monero.value, p.dleqProof.value);
      ContractTurnGoesOn(cfg, s.(dleqVerified := true), k, [accepted], r, d, lockAddress);
      SameStreak(cfg, s, s.(dleqVerified := true), r, d, lockAddress);
    }
  }

  lemma FundActionGoesOn(cfg: Config, s: State, k: nat, r: Round, d: SwapDetail)
    ensures FundAction(cfg, s, k, r, d).control.Again? <==> !r.abortedAtDelay && FundGoesOn(cfg, s, r, d)
  {
    hide DleqTurn, BuildGoesOn, Bounded;
    if Truthy(d.depositAddress) {
      var a := d.depositAddress.value;
      DleqTurnGoesOn(cfg, s, k, r, d, a);
      DleqTurnGoesOn(cfg, s.(fundedAt := 0), k, r, d, a);
      SameStreak(cfg, s, s.(fundedAt := 0), r, d, a);
    }
  }

  lemma DigestTurnGoesOn(cfg: Config, s: State, ev: seq<Event>, r: Round, d: SwapDetail, p: ProtocolParams)
    ensures DigestTurn(cfg, s, ev, r, d, p).control.Again? <==> !r.abortedAtDelay && DigestGoesOn(cfg, s, r, d, p)
  {
    hide RedeemDigest, Bounded;
  }

  lemma EncsigActionGoesOn(cfg: Config, s: State, k: nat, r: Round, d: SwapDetail)
    ensures EncsigAction(cfg, s, k, r, d).control.Again? <==> !r.abortedAtDelay && EncsigGoesOn(cfg, s, r, d)
  {
    hide DigestTurn, LockVerdict, RedeemDigest, Bounded;
    if d.params.Some? {
      var p := d.params.value;
      DigestTurnGoesOn(cfg, s, [], r, d, p);
      if HasXmrVerification(p) && Truthy(p.S_a_monero) && LockVerdict(cfg, r, p).Verified? {
        var verdict := LockVerdict(cfg, r, p);
        DigestTurnGoesOn(cfg, s.(xmrVerified := true), [XmrAccepted(k, p, verdict.index, verdict.amount)], r, d, p);
      }
    }
  }

  /** A run goes on after a round if and only if all of that holds: no check that fails is passed over, and no
      round that only has to wait ends the run. */
  lemma GoesOnExactly(cfg: Config, s: State, k: nat, r: Round)
    ensures RoundTurn(cfg, s, k, r).control.Again? <==> GoesOn(cfg, s, r)
  {
    hide FundAction, EncsigAction, FundGoesOn, EncsigGoesOn, Bounded;
    if r.detail.Some? {
      FundActionGoesOn(cfg, s, k, r, r.detail.value);
      EncsigActionGoesOn(cfg, s, k, r, r.detail.value);
    }
  }
}
