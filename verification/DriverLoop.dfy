/** The driver as it is written: loop variables updated in place, early continues and throws.
    Each method is proved to do what the turn functions of `Driver` say. */
module DriverLoop {
  import opened Wrappers
  import opened Bitcoin
  import opened Presign
  import opened Driver
  import DriverSafety
  import MoneroKeys
  import Text

  class SwapDriver {
    const cfg: Config
    var lastSignedPsbt: Option<Tx>
    var lastFundedAddress: string
    var fundedAt: int
    var verificationEmitted: bool
    var encsigFailures: nat
    var aliceDleqVerified: bool
    var xmrLockVerified: bool
    var presigsAlreadyDoneStreak: nat
    /** Everything posted or accepted so far. */
    ghost var trace: seq<Event>

    constructor (cfg: Config)
      ensures this.cfg == cfg && Latches() == INITIAL && trace == []
    {
      this.cfg := cfg;
      lastSignedPsbt, lastFundedAddress, fundedAt := None, "", 0;
      verificationEmitted, encsigFailures, aliceDleqVerified, xmrLockVerified := false, 0, false, false;
      presigsAlreadyDoneStreak := 0;
      trace := [];
    }

    ghost function Latches(): State
      reads this
    {
      State(lastSignedPsbt, lastFundedAddress, fundedAt, verificationEmitted, encsigFailures, aliceDleqVerified,
            xmrLockVerified, presigsAlreadyDoneStreak)
    }

    /** `await delay(POLL_MS, signal)`: rejects when the swap is aborted meanwhile. */
    method Delay(r: Round) returns (c: Control)
      ensures c == Pause(INITIAL, [], r).control
    {
      return if r.abortedAtDelay then Stop(Aborted) else Again;
    }

    ghost predicate Did(before: State, done: seq<Event>, t: Turn, c: Control)
      reads this
    {
      Latches() == t.state && trace == done + t.events && c == t.control
    }

    method Drive(rounds: seq<Round>) returns (c: Control)
      requires Latches() == INITIAL && trace == []
      modifies this
      ensures Run(cfg, rounds, |rounds|) == Turn(Latches(), trace, c)
      ensures DriverSafety.AllJustified(cfg, rounds, trace)
    {
      hide RoundTurn, DriverSafety.AllJustified;
      DriverSafety.RunIsFaithful(cfg, rounds, |rounds|);
      for k := 0 to |rounds|
        invariant Run(cfg, rounds, k) == Turn(Latches(), trace, Again)
      {
        c := OneRound(k, rounds[k]);
        assert Run(cfg, rounds, k + 1) == Turn(Latches(), trace, c);
        if c.Stop? {
          StoppedRunsStay(cfg, rounds, k + 1, |rounds|);
          return;
        }
      }
      return Again;
    }

    method OneRound(k: nat, r: Round) returns (c: Control)
      modifies this
      ensures Did(old(Latches()), old(trace), RoundTurn(cfg, old(Latches()), k, r), c)
    {
      hide FundAction, EncsigAction;
      if r.abortedAtHead { return Stop(Cancelled); }
      if r.detail.None? { return Stop(ApiFailed); }
      var d := r.detail.value;
      if d.status in TERMINAL { return Stop(Finished(d.status)); }
      if r.clock >= cfg.deadline && d.status in PRE_FUNDING { return Stop(TimedOut(d.status)); }
      if d.action == Some("fund") {
        c := Fund(k, r, d);
        return;
      }
      if d.action == Some("submit_encsig") {
        c := SubmitEncsig(k, r, d);
        return;
      }
      if d.action == Some("sweep") || d.status == "sending" {
        if d.params.None? || !Truthy(d.params.value.S_a_monero) { return Stop(SweepParamsMissing); }
        trace := trace + [Sweep(d.params.value.S_a_monero.value)];
        return Stop(if r.sweepDone then SweepDone else SweepFailed);
      }
      if d.action == Some("cancel") || d.action == Some("refund") {
        return Stop(HandedOver(d.action.value));
      }
      c := Delay(r);
    }

    method Fund(k: nat, r: Round, d: SwapDetail) returns (c: Control)
      modifies this
      ensures Did(old(Latches()), old(trace), FundAction(cfg, old(Latches()), k, r, d), c)
    {
      hide ContractTurn;
      var pastFunding := d.status != "initializing" && d.status != "awaiting_funding" && d.status != "pending";
      var hasPending := Truthy(d.depositAddress) && !pastFunding;
      if pastFunding && !hasPending && fundedAt > 0 && r.settleClock - fundedAt > FUND_SETTLE_MS {
        c := Delay(r);
        return;
      }
      if hasPending && fundedAt > 0 { fundedAt := 0; }
      if !Truthy(d.depositAddress) || d.depositAddress.value == lastFundedAddress {
        c := Delay(r);
        return;
      }
      var lockAddress := d.depositAddress.value;
      if !aliceDleqVerified {
        if d.params.None? || !Truthy(d.params.value.dleqProof) {
          c := Delay(r);
          return;
        }
        var p := d.params.value;
        if !Truthy(p.S_a_monero) || p.S_a_bitcoin == "" { return Stop(DleqIncomplete); }
        if !r.wasmReady { return Stop(WasmFailed); }
        if !cfg.lib.dleqValid(p.S_a_bitcoin, p.S_a_monero.value, p.dleqProof.value) { return Stop(DleqInvalid); }
        aliceDleqVerified := true;
        trace := trace + [DleqAccepted(p.S_a_bitcoin, p.S_a_monero.value, p.dleqProof.value)];
      }
      ghost var ev := trace[|old(trace)|..];
      assert trace == old(trace) + ev;
      c := VerifyAndLock(k, r, d, lockAddress, ev);
    }

    /** The rest of a funding round, once Alice's keys are known to be linked; `ev` is what the
        round did already. */
    method VerifyAndLock(k: nat, r: Round, d: SwapDetail, lockAddress: string, ghost ev: seq<Event>)
      returns (c: Control)
      requires |ev| <= |trace| && trace[|trace| - |ev|..] == ev
      modifies this
      ensures Did(old(Latches()), old(trace[..|trace| - |ev|]),
                  ContractTurn(cfg, old(Latches()), k, ev, r, d, lockAddress), c)
    {
      hide PresigsTurn, PreSigsOf, FundingTx, LockAddress;
      ghost var base := trace[..|trace| - |ev|];
      ghost var ev := ev;
      assert trace == base + ev;
      if !verificationEmitted && d.hasVerification {
        verificationEmitted := true;
        if r.verify.VerifierThrew? { return Stop(VerifierFailed); }
        if !r.verify.verified { return Stop(ContractRejected); }
        trace := trace + [ContractAccepted(k)];
        ev := ev + [ContractAccepted(k)];
        assert trace == base + ev;
      }
      if d.params.None? {
        c := Delay(r);
        return;
      }
      var p := d.params.value;
      var derived := LockAddress(cfg.lib, p.A, cfg.keys.B, cfg.network);
      if derived.None? { return Stop(LockKeyInvalid); }
      if derived.value != lockAddress { return Stop(LockAddressMismatch); }
      var unsigned := FundingTx(cfg.lib, cfg.coins, lockAddress, r.lockAmount, cfg.network);
      if unsigned.None? { return Stop(FundingFailed); }
      if cfg.keys.b == "" || cfg.keys.refundAddress == "" { return Stop(KeysMissing); }
      var preSigs := ComputePreSigs(cfg.lib, PreSigRequest(cfg, unsigned.value, p));
      if preSigs.Err? { return Stop(PresignRejected(preSigs.error)); }
      c := PresignAndFund(k, r, p, lockAddress, unsigned.value, preSigs.value, base, ev);
    }

    /** Phase 2: /presigs, unless the server answered it before. */
    method PresignAndFund(k: nat, r: Round, p: ProtocolParams, lockAddress: string, tx: Tx, preSigs: PreSigs,
                          ghost base: seq<Event>, ghost ev: seq<Event>) returns (c: Control)
      requires trace == base + ev
      modifies this
      ensures Did(old(Latches()), base, PresigsTurn(cfg, old(Latches()), k, ev, r, p, lockAddress, tx, preSigs), c)
    {
      hide SnapshotTurn, ExtractPresigsEncsig, Bounded;
      ghost var ev := ev;
      var encsigData := KnownEncsigs(cfg, p, tx);
      if (Truthy(p.fullRefundEncsig) || Truthy(p.partialRefundEncsig)) && Truthy(p.txRedeemDigest) {
        presigsAlreadyDoneStreak := 0;
      } else {
        ghost var post := PostPresigs(lockAddress, tx, preSigs, r.presigs.PresigsAccepted?);
        trace := trace + [post];
        ev := ev + [post];
        assert trace == base + ev;
        match r.presigs
        case PresigsAccepted(reply) =>
          presigsAlreadyDoneStreak := 0;
          encsigData := ExtractPresigsEncsig(reply);
        case PresigsPast =>
          presigsAlreadyDoneStreak := presigsAlreadyDoneStreak + 1;
          if presigsAlreadyDoneStreak >= PRESIGS_ALREADY_DONE_MAX { return Stop(PresigsWedged); }
          c := Delay(r);
          return;
        case PresigsRefused =>
          c := Delay(r);
          return;
      }
      c := SnapshotAndFund(k, r, p, lockAddress, tx, encsigData, base, ev);
    }

    /** Phases 3 and 4: no funding without a way out and a snapshot of it. */
    method SnapshotAndFund(k: nat, r: Round, p: ProtocolParams, lockAddress: string, tx: Tx, encsigData: Encsigs,
                           ghost base: seq<Event>, ghost ev: seq<Event>) returns (c: Control)
      requires trace == base + ev
      modifies this
      ensures Did(old(Latches()), base, SnapshotTurn(cfg, old(Latches()), k, ev, r, p, lockAddress, tx, encsigData), c)
    {
      hide FundTurn, RecoveryOf, Bounded;
      if !Truthy(encsigData.full) && !Truthy(encsigData.partial) { return Stop(EncsigMissing); }
      var written := MaybeWriteSnapshot(k, r, p, lockAddress, tx, encsigData, base, ev);
      if !written { return Stop(SnapshotWriteFailed); }
      c := PostFunding(r, p, lockAddress, tx, encsigData, base, trace[|base|..]);
    }

    method MaybeWriteSnapshot(k: nat, r: Round, p: ProtocolParams, lockAddress: string, tx: Tx, e: Encsigs,
                              ghost base: seq<Event>, ghost ev: seq<Event>) returns (ok: bool)
      requires trace == base + ev
      modifies this`trace
      ensures ok <==> !cfg.canSave || (cfg.canLoad && r.snapshotOnDisk) || r.snapshotSaved
      ensures trace == base + (if !cfg.canSave || !ok then ev
                               else if cfg.canLoad && r.snapshotOnDisk then ev + [SnapshotPresent(k)]
                               else ev + [SnapshotSaved(k, RecoveryOf(cfg, p, lockAddress, tx, e))])
    {
      if !cfg.canSave { return true; }
      if cfg.canLoad && r.snapshotOnDisk {
        trace := trace + [SnapshotPresent(k)];
        assert trace == base + (ev + [SnapshotPresent(k)]);
        return true;
      }
      var aliceTxCancelSig := if e.cancelSig.Some? then e.cancelSig else p.txCancelSig;
      var lockTxid := if cfg.lib.txid(tx) != "" then cfg.lib.txid(tx) else OrElse(e.lockTxid, "");
      var lockVout := OrElse(e.lockVout, 0);
      var lockAmountSats := OrElse(e.lockAmountSats, Text.Decimal(AmountOf(tx)));
      var snapshot := Recovery(p, lockAddress, lockTxid, lockVout, lockAmountSats, e.full, e.partial, aliceTxCancelSig);
      if !r.snapshotSaved { return false; }
      trace := trace + [SnapshotSaved(k, snapshot)];
      assert trace == base + (ev + [SnapshotSaved(k, snapshot)]);
      return true;
    }

    /** The local retry of /fund while the broker is not armed yet. */
    method PostFunding(r: Round, p: ProtocolParams, lockAddress: string, tx: Tx, e: Encsigs, ghost base: seq<Event>,
                       ghost ev: seq<Event>)
      returns (c: Control)
      requires trace == base + ev
      modifies this
      ensures Did(old(Latches()), base, FundTurn(cfg, old(Latches()), ev, r, p, lockAddress, tx, e), c)
    {
      hide Bounded, FundEvents;
      ghost var was := Latches();
      ghost var posts := RetryFund(r, lockAddress, tx);
      trace := trace + FundEvents(posts, p, lockAddress, r.lockAmount, tx, e);
      assert trace == base + (ev + FundEvents(posts, p, lockAddress, r.lockAmount, tx, e));
      c := Delay(r);
    }

    /** The attempts themselves; `posts` lists their results. */
    method RetryFund(r: Round, lockAddress: string, tx: Tx) returns (ghost posts: seq<bool>)
      modifies this`lastFundedAddress, this`lastSignedPsbt, this`fundedAt
      ensures posts == FundPosts(r.fund)
      ensures true in posts ==>
        lastFundedAddress == lockAddress && lastSignedPsbt == Some(tx) && fundedAt == r.fundClock
      ensures true !in posts ==> Latches() == old(Latches())
    {
      hide FundResults, Attempts;
      posts := [];
      ghost var tries := Attempts(r.fund);
      AttemptsAre(r.fund);
      var attempt := 0;
      while attempt < MAX_FUND_ATTEMPTS
        invariant attempt <= |tries|
        invariant FundResults(tries) == posts + FundResults(tries[attempt..])
        invariant true !in posts
        invariant lastFundedAddress == old(lastFundedAddress)
        invariant lastSignedPsbt == old(lastSignedPsbt) && fundedAt == old(fundedAt)
        invariant attempt == |tries| ==> |tries| == MAX_FUND_ATTEMPTS
      {
        var answer := if attempt < |r.fund| then r.fund[attempt] else FundRefused;
        FundResultsStep(tries[attempt..]);
        assert tries[attempt..][0] == answer && tries[attempt..][1..] == tries[attempt + 1..];
        posts := posts + [answer.FundAccepted?];
        if answer.FundAccepted? {
          lastFundedAddress := lockAddress;
          lastSignedPsbt := Some(tx);
          fundedAt := r.fundClock;
          return;
        }
        if !answer.BrokerNotReady? { return; }
        attempt := attempt + 1;
      }
      assert tries[attempt..] == [];
      FundResultsStep([]);
    }

    method SubmitEncsig(k: nat, r: Round, d: SwapDetail) returns (c: Control)
      modifies this
      ensures Did(old(Latches()), old(trace), EncsigAction(cfg, old(Latches()), k, r, d), c)
    {
      hide DigestTurn, Bounded, LockParamsOf, MoneroKeys.Judge;
      if d.params.None? {
        c := Delay(r);
        return;
      }
      var p := d.params.value;
      if !xmrLockVerified {
        if !HasXmrVerification(p) {
          c := Delay(r);
          return;
        }
        if !Truthy(p.S_a_monero) || cfg.keys.S_b_monero == "" { return Stop(SAMoneroMissing); }
        var params := LockParamsOf(cfg, p);
        if params.None? { return Stop(XmrCheckThrew); }
        var lockResult := MoneroKeys.VerifyXmrLocked(cfg.monero, r.moneroTx, params.value);
        if lockResult.Threw? { return Stop(XmrCheckThrew); }
        if lockResult.Rejected? {
          if !lockResult.retryable { return Stop(XmrLockFailed); }
          c := Delay(r);
          return;
        }
        xmrLockVerified := true;
        trace := trace + [XmrAccepted(k, p, lockResult.index, lockResult.amount)];
      }
      ghost var ev := trace[|old(trace)|..];
      assert trace == old(trace) + ev;
      c := DigestAndRelease(r, d, p, old(trace), ev);
    }

    /** The digest from the transaction signed in this run, or else from the one on chain. */
    method DigestAndRelease(r: Round, d: SwapDetail, p: ProtocolParams, ghost base: seq<Event>, ghost ev: seq<Event>)
      returns (c: Control)
      requires trace == base + ev
      modifies this
      ensures Did(old(Latches()), base, DigestTurn(cfg, old(Latches()), ev, r, d, p), c)
    {
      hide DigestOn, ReleaseTurn, Bounded;
      var lockTx: Tx;
      if lastSignedPsbt.Some? {
        lockTx := lastSignedPsbt.value;
      } else {
        if !cfg.hasBlockchain { return Stop(NoSignedPsbt); }
        if !Truthy(d.depositTxHash) {
          c := Delay(r);
          return;
        }
        match r.lockTx
        case LockTxThrew => return Stop(LockTxFetchFailed);
        case LockTxMissing =>
          c := Delay(r);
          return;
        case LockTxFetched(tx) => lockTx := tx;
      }
      var localDigest := RedeemDigest(cfg.lib, lockTx, p, cfg.keys.B, cfg.network);
      SameDigest(cfg, lockTx, p);
      if localDigest.Err? { return Stop(DigestFailed(localDigest.error)); }
      c := Release(r, p, localDigest.value, base, ev);
    }

    method Release(r: Round, p: ProtocolParams, localDigestHex: string, ghost base: seq<Event>, ghost ev: seq<Event>)
      returns (c: Control)
      requires trace == base + ev
      modifies this
      ensures Did(old(Latches()), base, ReleaseTurn(cfg, old(Latches()), ev, r, p, localDigestHex), c)
    {
      if Truthy(p.txRedeemDigest) && localDigestHex != p.txRedeemDigest.value { return Stop(DigestMismatch); }
      var txRedeemEncsig := cfg.lib.encsign(cfg.keys.b, p.S_a_bitcoin, localDigestHex);
      ghost var post := PostEncsig(p, localDigestHex, txRedeemEncsig, r.encsigAccepted);
      trace := trace + [post];
      assert trace == base + (ev + [post]);
      if r.encsigAccepted {
        encsigFailures := 0;
      } else {
        encsigFailures := encsigFailures + 1;
        if encsigFailures >= MAX_ENCSIG_FAILURES { return Stop(EncsigSubmitFailed); }
      }
      c := Delay(r);
    }
  }

  lemma AttemptsAre(answers: seq<FundAnswer>)
    ensures forall i :: 0 <= i < |Attempts(answers)| ==>
      Attempts(answers)[i] == if i < |answers| then answers[i] else FundRefused
  {
  }

  lemma FundResultsStep(tries: seq<FundAnswer>)
    ensures FundResults(tries)
         == if tries == [] then []
            else if tries[0].BrokerNotReady? then [false] + FundResults(tries[1..])
            else [tries[0].FundAccepted?]
  {
  }

  lemma SameDigest(cfg: Config, tx: Tx, p: ProtocolParams)
    ensures DigestOn(cfg, tx, p) == RedeemDigest(cfg.lib, tx, p, cfg.keys.B, cfg.network)
  {
  }

  lemma {:induction false} StoppedRunsStay(cfg: Config, rounds: seq<Round>, m: nat, n: nat)
    requires m <= n <= |rounds| && Run(cfg, rounds, m).control.Stop?
    ensures Run(cfg, rounds, n) == Run(cfg, rounds, m)
  {
    hide RoundTurn;
    if m < n {
      StoppedRunsStay(cfg, rounds, m, n - 1);
    }
  }
}
