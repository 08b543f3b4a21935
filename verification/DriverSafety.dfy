/** What every run of the swap driver keeps, whatever the server answers. */
module DriverSafety {
  import opened Wrappers
  import opened Bitcoin
  import opened Presign
  import opened Driver
  import MoneroKeys
  import MoneroSpend
  import Text

  ghost predicate DleqSeen(cfg: Config, trace: seq<Event>) {
    exists j :: 0 <= j < |trace| && trace[j].DleqAccepted?
                && cfg.lib.dleqValid(trace[j].sBitcoin, trace[j].sMonero, trace[j].proof)
  }

  ghost predicate XmrSeen(cfg: Config, rounds: seq<Round>, trace: seq<Event>) {
    exists j :: 0 <= j < |trace| && XmrChecked(cfg, rounds, trace[j])
  }

  /** The lock check ran on the transaction and the parameters of a round, and accepted an output. */
  predicate XmrChecked(cfg: Config, rounds: seq<Round>, e: Event) {
    && e.XmrAccepted? && e.round < |rounds|
    && var r := rounds[e.round];
    && r.detail.Some? && r.detail.value.params == Some(e.params)
    && HasXmrVerification(e.params) && Truthy(e.params.S_a_monero)
    && LockVerdict(cfg, r, e.params) == MoneroKeys.Verified(e.index, e.locked)
  }

  /** A snapshot of this funding was found on disk or saved. */
  ghost predicate SnapshotSeen(cfg: Config, rounds: seq<Round>, trace: seq<Event>, p: ProtocolParams,
                               lockAddress: string, tx: Tx, e: Encsigs) {
    exists j :: 0 <= j < |trace| && SnapshotKept(cfg, rounds, trace[j], p, lockAddress, tx, e)
  }

  predicate SnapshotKept(cfg: Config, rounds: seq<Round>, kept: Event, p: ProtocolParams, lockAddress: string, tx: Tx,
                         e: Encsigs) {
    || (kept.SnapshotPresent? && kept.round < |rounds| && rounds[kept.round].snapshotOnDisk)
    || (kept.SnapshotSaved? && kept.round < |rounds| && rounds[kept.round].snapshotSaved
        && SavesWayOut(cfg, kept.saved, p, lockAddress, tx, e))
  }

  /** The snapshot holds what a refund of this funding takes: the parameters, the lock, a refund encsig,
      and Alice's cancel signature from the reply, or else from the parameters. */
  predicate SavesWayOut(cfg: Config, saved: Recovery, p: ProtocolParams, lockAddress: string, tx: Tx, e: Encsigs) {
    && saved.params == p && saved.lockAddress == lockAddress
    && saved.full == e.full && saved.partial == e.partial && (Truthy(saved.full) || Truthy(saved.partial))
    && (if e.cancelSig.Some? then saved.cancelSig == e.cancelSig else saved.cancelSig == p.txCancelSig)
    && (cfg.lib.txid(tx) != "" ==> saved.lockTxid == cfg.lib.txid(tx))
  }

  predicate IsFunding(e: Event) {
    e.PostFund? && e.ok
  }

  /** The last /fund the server accepted. */
  function LastFund(trace: seq<Event>): (r: Option<Event>)
    ensures r.Some? ==> IsFunding(r.value) && r.value in trace
    ensures r.None? ==> forall i :: 0 <= i < |trace| ==> !IsFunding(trace[i])
  {
    if trace == [] then None
    else if IsFunding(trace[|trace| - 1]) then Some(trace[|trace| - 1])
    else
      var r := LastFund(trace[..|trace| - 1]);
      assert r.None? ==> forall i :: 0 <= i < |trace| - 1 ==> trace[i] == trace[..|trace| - 1][i];
      r
  }

  /** The digest is that of the transaction redeeming a lock transaction to the address in the parameters. */
  predicate Redeems(cfg: Config, txLock: Tx, p: ProtocolParams, digest: string) {
    IsRedeemDigest(cfg.lib, txLock, p, cfg.keys.B, cfg.network, digest)
  }

  lemma DigestRedeems(cfg: Config, txLock: Tx, p: ProtocolParams, digest: string)
    ensures DigestOn(cfg, txLock, p) == Ok(digest) <==> Redeems(cfg, txLock, p, digest)
  {
    RedeemDigestIsExact(cfg.lib, txLock, p, cfg.keys.B, cfg.network, digest);
  }

  /** The digest is the redeem digest of a lock transaction fetched in the run. */
  ghost predicate DigestOfFetched(cfg: Config, rounds: seq<Round>, p: ProtocolParams, digest: string) {
    exists k :: 0 <= k < |rounds| && rounds[k].lockTx.LockTxFetched?
                && Redeems(cfg, rounds[k].lockTx.tx, p, digest)
  }

  /** Why an event was allowed, given what came before it. */
  ghost predicate Justified(cfg: Config, rounds: seq<Round>, past: seq<Event>, e: Event) {
    match e
    case PostPresigs(_, _, _, _) => DleqSeen(cfg, past)
    case PostFund(p, lockAddress, amount, tx, encsigs, _) =>
      && DleqSeen(cfg, past)
      && LockAddress(cfg.lib, p.A, cfg.keys.B, cfg.network) == Some(lockAddress)
      && FundingTx(cfg.lib, cfg.coins, lockAddress, amount, cfg.network) == Some(tx)
      && Acceptable(cfg.lib, PreSigRequest(cfg, tx, p))
      && HasRefundEncsig(encsigs)
      && (cfg.canSave ==> SnapshotSeen(cfg, rounds, past, p, lockAddress, tx, encsigs))
      && (LastFund(past).Some? ==> LastFund(past).value.lockAddress != lockAddress)
    case PostEncsig(p, digest, encsig, _) =>
      && XmrSeen(cfg, rounds, past)
      && (Truthy(p.txRedeemDigest) ==> digest == p.txRedeemDigest.value)
      && encsig == cfg.lib.encsign(cfg.keys.b, p.S_a_bitcoin, digest)
      && (match LastFund(past)
          case Some(f) => Redeems(cfg, f.tx, p, digest)
          case None => DigestOfFetched(cfg, rounds, p, digest))
    case _ => true
  }

  ghost predicate AllJustified(cfg: Config, rounds: seq<Round>, trace: seq<Event>) {
    forall i :: 0 <= i < |trace| ==> Justified(cfg, rounds, trace[..i], trace[i])
  }

  /** The latches of the loop tell the truth about the trace. */
  ghost predicate Faithful(cfg: Config, rounds: seq<Round>, trace: seq<Event>, s: State) {
    && AllJustified(cfg, rounds, trace)
    && (s.dleqVerified ==> DleqSeen(cfg, trace))
    && (s.xmrVerified ==> XmrSeen(cfg, rounds, trace))
    && (match LastFund(trace)
        case None => s.lastSigned.None? && s.lastFundedAddress == ""
        case Some(f) => s.lastSigned == Some(f.tx) && s.lastFundedAddress == f.lockAddress)
  }

  ghost predicate FaithfulTurn(cfg: Config, rounds: seq<Round>, past: seq<Event>, t: Turn) {
    Faithful(cfg, rounds, past + t.events, t.state)
  }

  /** Appending a justified event that funds nothing keeps the latches truthful. */
  lemma Append(cfg: Config, rounds: seq<Round>, trace: seq<Event>, s: State, e: Event)
    requires Faithful(cfg, rounds, trace, s) && Justified(cfg, rounds, trace, e)
    ensures AllJustified(cfg, rounds, trace + [e])
    ensures DleqSeen(cfg, trace) ==> DleqSeen(cfg, trace + [e])
    ensures XmrSeen(cfg, rounds, trace) ==> XmrSeen(cfg, rounds, trace + [e])
    ensures LastFund(trace + [e]) == if IsFunding(e) then Some(e) else LastFund(trace)
    ensures !IsFunding(e) ==> Faithful(cfg, rounds, trace + [e], s)
  {
    var t := trace + [e];
    assert t[..|trace|] == trace;
    forall i | 0 <= i < |t| ensures Justified(cfg, rounds, t[..i], t[i]) {
      assert i < |trace| ==> t[..i] == trace[..i];
    }
    if DleqSeen(cfg, trace) {
      var j :| 0 <= j < |trace| && trace[j].DleqAccepted?
               && cfg.lib.dleqValid(trace[j].sBitcoin, trace[j].sMonero, trace[j].proof);
      assert t[j] == trace[j];
    }
    if XmrSeen(cfg, rounds, trace) {
      var j :| 0 <= j < |trace| && XmrChecked(cfg, rounds, trace[j]);
      assert t[j] == trace[j];
    }
  }

  /** Being faithful depends on four of the loop variables only. */
  lemma SameLatches(cfg: Config, rounds: seq<Round>, trace: seq<Event>, s: State, s': State)
    requires Faithful(cfg, rounds, trace, s)
    requires s'.dleqVerified == s.dleqVerified && s'.xmrVerified == s.xmrVerified
    requires s'.lastSigned == s.lastSigned && s'.lastFundedAddress == s.lastFundedAddress
    ensures Faithful(cfg, rounds, trace, s')
  {
  }

  /** What funding needs to be on record before the first /fund post of a round. */
  ghost predicate ReadyToFund(cfg: Config, rounds: seq<Round>, trace: seq<Event>, p: ProtocolParams,
                              lockAddress: string, amount: Option<int>, tx: Tx) {
    && DleqSeen(cfg, trace)
    && LockAddress(cfg.lib, p.A, cfg.keys.B, cfg.network) == Some(lockAddress)
    && FundingTx(cfg.lib, cfg.coins, lockAddress, amount, cfg.network) == Some(tx)
    && Acceptable(cfg.lib, PreSigRequest(cfg, tx, p))
    && (LastFund(trace).Some? ==> LastFund(trace).value.lockAddress != lockAddress)
  }

  /** The retry of /fund, post by post. */
  lemma {:induction false} FundPostsAreFaithful(cfg: Config, rounds: seq<Round>, trace: seq<Event>, s: State,
                                                posts: seq<bool>, p: ProtocolParams, lockAddress: string,
                                                amount: Option<int>, tx: Tx, e: Encsigs, clock: int)
    requires Faithful(cfg, rounds, trace, s) && ReadyToFund(cfg, rounds, trace, p, lockAddress, amount, tx)
    requires HasRefundEncsig(e) && (cfg.canSave ==> SnapshotSeen(cfg, rounds, trace, p, lockAddress, tx, e))
    requires forall i :: 0 <= i < |posts| - 1 ==> !posts[i]
    ensures Faithful(cfg, rounds, trace + FundEvents(posts, p, lockAddress, amount, tx, e),
                     if true in posts
                     then s.(lastFundedAddress := lockAddress, lastSigned := Some(tx), fundedAt := clock) else s)
  {
    hide LastFund, Acceptable, LockAddress, FundingTx, Faithful, ReadyToFund, SnapshotSeen;
    var events := FundEvents(posts, p, lockAddress, amount, tx, e);
    if posts == [] {
      assert trace + events == trace;
    } else {
      var n := |posts| - 1;
      var init := FundEvents(posts[..n], p, lockAddress, amount, tx, e);
      FundPostsAreFaithful(cfg, rounds, trace, s, posts[..n], p, lockAddress, amount, tx, e, clock);
      assert true !in posts[..n];
      assert trace + events == (trace + init) + [events[n]];
      ReadyStays(cfg, rounds, trace, init, p, lockAddress, amount, tx);
      LastPostIsFaithful(cfg, rounds, trace + init, s, p, lockAddress, amount, tx, e, posts[n], clock);
      assert true in posts <==> posts[n];
    }
  }

  /** Posts that fund nothing take nothing away from what funding needs. */
  lemma ReadyStays(cfg: Config, rounds: seq<Round>, trace: seq<Event>, more: seq<Event>, p: ProtocolParams,
                   lockAddress: string, amount: Option<int>, tx: Tx)
    requires ReadyToFund(cfg, rounds, trace, p, lockAddress, amount, tx)
    requires forall i :: 0 <= i < |more| ==> !IsFunding(more[i])
    ensures ReadyToFund(cfg, rounds, trace + more, p, lockAddress, amount, tx)
    ensures forall p, a, tx, e ::
      SnapshotSeen(cfg, rounds, trace, p, a, tx, e) ==> SnapshotSeen(cfg, rounds, trace + more, p, a, tx, e)
  {
    hide LastFund, Acceptable, LockAddress, FundingTx;
    NothingFunded(trace, more);
    forall p, a, tx, e | SnapshotSeen(cfg, rounds, trace, p, a, tx, e)
      ensures SnapshotSeen(cfg, rounds, trace + more, p, a, tx, e)
    {
      var j :| 0 <= j < |trace| && SnapshotKept(cfg, rounds, trace[j], p, a, tx, e);
      assert (trace + more)[j] == trace[j];
    }
    var j :| 0 <= j < |trace| && trace[j].DleqAccepted?
             && cfg.lib.dleqValid(trace[j].sBitcoin, trace[j].sMonero, trace[j].proof);
    assert (trace + more)[j] == trace[j];
  }

  lemma LastPostIsFaithful(cfg: Config, rounds: seq<Round>, trace: seq<Event>, s: State, p: ProtocolParams,
                           lockAddress: string, amount: Option<int>, tx: Tx, e: Encsigs, ok: bool, clock: int)
    requires Faithful(cfg, rounds, trace, s) && ReadyToFund(cfg, rounds, trace, p, lockAddress, amount, tx)
    requires HasRefundEncsig(e) && (cfg.canSave ==> SnapshotSeen(cfg, rounds, trace, p, lockAddress, tx, e))
    ensures Faithful(cfg, rounds, trace + [PostFund(p, lockAddress, amount, tx, e, ok)],
                     if ok then s.(lastFundedAddress := lockAddress, lastSigned := Some(tx), fundedAt := clock) else s)
  {
    hide LastFund, Acceptable, LockAddress, FundingTx, SnapshotSeen, AllJustified;
    Append(cfg, rounds, trace, s, PostFund(p, lockAddress, amount, tx, e, ok));
  }

  lemma {:induction false} NothingFunded(trace: seq<Event>, more: seq<Event>)
    requires forall i :: 0 <= i < |more| ==> !IsFunding(more[i])
    ensures LastFund(trace + more) == LastFund(trace)
  {
    if more == [] {
      assert trace + more == trace;
    } else {
      var n := |more| - 1;
      assert (trace + more)[..|trace + more| - 1] == trace + more[..n];
      NothingFunded(trace, more[..n]);
    }
  }

  lemma FundTurnIsFaithful(cfg: Config, rounds: seq<Round>, past: seq<Event>, s: State, ev: seq<Event>, r: Round,
                           p: ProtocolParams, lockAddress: string, tx: Tx, e: Encsigs)
    requires Faithful(cfg, rounds, past + ev, s)
    requires ReadyToFund(cfg, rounds, past + ev, p, lockAddress, r.lockAmount, tx)
    requires HasRefundEncsig(e)
    requires cfg.canSave ==> SnapshotSeen(cfg, rounds, past + ev, p, lockAddress, tx, e)
    ensures FaithfulTurn(cfg, rounds, past, FundTurn(cfg, s, ev, r, p, lockAddress, tx, e))
  {
    hide LastFund, Faithful, ReadyToFund, SnapshotSeen, FundPosts, HasRefundEncsig, Bounded;
    var posts := FundPosts(r.fund);
    FundPostsAreFaithful(cfg, rounds, past + ev, s, posts, p, lockAddress, r.lockAmount, tx, e, r.fundClock);
    assert past + (ev + FundEvents(posts, p, lockAddress, r.lockAmount, tx, e))
        == (past + ev) + FundEvents(posts, p, lockAddress, r.lockAmount, tx, e);
  }

  lemma KeptIsSeen(cfg: Config, rounds: seq<Round>, trace: seq<Event>, k: nat, p: ProtocolParams, lockAddress: string,
                   tx: Tx, e: Encsigs, kept: Event)
    requires k < |rounds| && HasRefundEncsig(e)
    requires (kept == SnapshotPresent(k) && rounds[k].snapshotOnDisk)
          || (kept == SnapshotSaved(k, RecoveryOf(cfg, p, lockAddress, tx, e)) && rounds[k].snapshotSaved)
    ensures SnapshotSeen(cfg, rounds, trace + [kept], p, lockAddress, tx, e)
  {
    assert (trace + [kept])[|trace|] == kept && SnapshotKept(cfg, rounds, kept, p, lockAddress, tx, e);
  }

  lemma SnapshotTurnIsFaithful(cfg: Config, rounds: seq<Round>, past: seq<Event>, s: State, k: nat, ev: seq<Event>,
                               r: Round, p: ProtocolParams, lockAddress: string, tx: Tx, e: Encsigs)
    requires k < |rounds| && rounds[k] == r
    requires Faithful(cfg, rounds, past + ev, s)
    requires ReadyToFund(cfg, rounds, past + ev, p, lockAddress, r.lockAmount, tx)
    ensures FaithfulTurn(cfg, rounds, past, SnapshotTurn(cfg, s, k, ev, r, p, lockAddress, tx, e))
  {
    hide FundTurn, Faithful, ReadyToFund, LastFund, DleqSeen, HasRefundEncsig, Bounded, SnapshotSeen, RecoveryOf;
    hide AllJustified, XmrSeen;
    if HasRefundEncsig(e) {
      if !cfg.canSave {
        FundTurnIsFaithful(cfg, rounds, past, s, ev, r, p, lockAddress, tx, e);
      } else if (cfg.canLoad && r.snapshotOnDisk) || r.snapshotSaved {
        var saved := RecoveryOf(cfg, p, lockAddress, tx, e);
        var kept := if cfg.canLoad && r.snapshotOnDisk then SnapshotPresent(k) else SnapshotSaved(k, saved);
        Append(cfg, rounds, past + ev, s, kept);
        ReadyStays(cfg, rounds, past + ev, [kept], p, lockAddress, r.lockAmount, tx);
        assert past + (ev + [kept]) == (past + ev) + [kept];
        KeptIsSeen(cfg, rounds, past + ev, k, p, lockAddress, tx, e, kept);
        FundTurnIsFaithful(cfg, rounds, past, s, ev + [kept], r, p, lockAddress, tx, e);
      }
    }
  }

  lemma PresigsTurnIsFaithful(cfg: Config, rounds: seq<Round>, past: seq<Event>, s: State, k: nat, ev: seq<Event>,
                              r: Round, p: ProtocolParams, lockAddress: string, tx: Tx, sigs: PreSigs)
    requires k < |rounds| && rounds[k] == r
    requires Faithful(cfg, rounds, past + ev, s)
    requires ReadyToFund(cfg, rounds, past + ev, p, lockAddress, r.lockAmount, tx)
    ensures FaithfulTurn(cfg, rounds, past, PresigsTurn(cfg, s, k, ev, r, p, lockAddress, tx, sigs))
  {
    hide SnapshotTurn, Acceptable, LockAddress, FundingTx, LastFund, Faithful, DleqSeen, KnownEncsigs,
      ExtractPresigsEncsig;
    hide AllJustified, XmrSeen, Bounded;
    var known := KnownEncsigs(cfg, p, tx);
    if AlreadyHasEncsig(p) {
      SameLatches(cfg, rounds, past + ev, s, s.(presigsStreak := 0));
      SnapshotTurnIsFaithful(cfg, rounds, past, s.(presigsStreak := 0), k, ev, r, p, lockAddress, tx, known);
    } else {
      var post := PostPresigs(lockAddress, tx, sigs, r.presigs.PresigsAccepted?);
      Append(cfg, rounds, past + ev, s, post);
      assert past + (ev + [post]) == (past + ev) + [post];
      var s' := s.(presigsStreak := if r.presigs.PresigsAccepted? then 0 else s.presigsStreak + 1);
      SameLatches(cfg, rounds, past + (ev + [post]), s, s');
      if r.presigs.PresigsAccepted? {
        SnapshotTurnIsFaithful(cfg, rounds, past, s', k, ev + [post], r, p, lockAddress, tx,
                               ExtractPresigsEncsig(r.presigs.reply));
      }
    }
  }

  lemma BuildTurnIsFaithful(cfg: Config, rounds: seq<Round>, past: seq<Event>, s: State, k: nat, ev: seq<Event>,
                            r: Round, d: SwapDetail, lockAddress: string)
    requires k < |rounds| && rounds[k] == r
    requires Faithful(cfg, rounds, past + ev, s) && s.dleqVerified && lockAddress != s.lastFundedAddress
    ensures FaithfulTurn(cfg, rounds, past, BuildTurn(cfg, s, k, ev, r, d, lockAddress))
  {
    if d.params.Some? && LockAddress(cfg.lib, d.params.value.A, cfg.keys.B, cfg.network) == Some(lockAddress) {
      var tx := FundingTx(cfg.lib, cfg.coins, lockAddress, r.lockAmount, cfg.network);
      if tx.Some? && cfg.keys.b != "" && cfg.keys.refundAddress != "" {
        var rq := PreSigRequest(cfg, tx.value, d.params.value);
        AcceptsExactly(cfg.lib, rq);
        var sigs := PreSigsOf(cfg.lib, rq);
        if sigs.Ok? {
          PresigsTurnIsFaithful(cfg, rounds, past, s, k, ev, r, d.params.value, lockAddress, tx.value, sigs.value);
        }
      }
    }
  }

  lemma ContractTurnIsFaithful(cfg: Config, rounds: seq<Round>, past: seq<Event>, s: State, k: nat, ev: seq<Event>,
                               r: Round, d: SwapDetail, lockAddress: string)
    requires k < |rounds| && rounds[k] == r
    requires Faithful(cfg, rounds, past + ev, s) && s.dleqVerified && lockAddress != s.lastFundedAddress
    ensures FaithfulTurn(cfg, rounds, past, ContractTurn(cfg, s, k, ev, r, d, lockAddress))
  {
    if s.verificationEmitted || !d.hasVerification {
      BuildTurnIsFaithful(cfg, rounds, past, s, k, ev, r, d, lockAddress);
    } else if r.verify == Verdict(true) {
      Append(cfg, rounds, past + ev, s, ContractAccepted(k));
      assert past + (ev + [ContractAccepted(k)]) == (past + ev) + [ContractAccepted(k)];
      BuildTurnIsFaithful(cfg, rounds, past, s.(verificationEmitted := true), k, ev + [ContractAccepted(k)], r, d,
                          lockAddress);
    }
  }

  lemma FundActionIsFaithful(cfg: Config, rounds: seq<Round>, past: seq<Event>, s: State, k: nat, r: Round,
                             d: SwapDetail)
    requires k < |rounds| && rounds[k] == r
    requires Faithful(cfg, rounds, past, s)
    ensures FaithfulTurn(cfg, rounds, past, FundAction(cfg, s, k, r, d))
  {
    hide DleqTurn, Faithful;
    assert past + [] == past;
    SameLatches(cfg, rounds, past, s, s.(fundedAt := 0));
    var s' := if Truthy(d.depositAddress) && d.status in PRE_FUNDING && s.fundedAt > 0 then s.(fundedAt := 0) else s;
    if Truthy(d.depositAddress) && d.depositAddress.value != s.lastFundedAddress {
      DleqTurnIsFaithful(cfg, rounds, past, s', k, r, d, d.depositAddress.value);
    }
  }

  lemma DleqTurnIsFaithful(cfg: Config, rounds: seq<Round>, past: seq<Event>, s: State, k: nat, r: Round, d: SwapDetail,
                           lockAddress: string)
    requires k < |rounds| && rounds[k] == r
    requires Faithful(cfg, rounds, past, s) && lockAddress != s.lastFundedAddress
    ensures FaithfulTurn(cfg, rounds, past, DleqTurn(cfg, s, k, r, d, lockAddress))
  {
    hide ContractTurn, LastFund;
    assert past + [] == past;
    if s.dleqVerified {
      ContractTurnIsFaithful(cfg, rounds, past, s, k, [], r, d, lockAddress);
    } else if d.params.Some? && Truthy(d.params.value.dleqProof) && Truthy(d.params.value.S_a_monero) {
      var p := d.params.value;
      if cfg.lib.dleqValid(p.S_a_bitcoin, p.S_a_monero.value, p.dleqProof.value) {
        var e := DleqAccepted(p.S_a_bitcoin, p.S_a_monero.value, p.dleqProof.value);
        Append(cfg, rounds, past, s, e);
        assert (past + [e])[|past|] == e;
        ContractTurnIsFaithful(cfg, rounds, past, s.(dleqVerified := true), k, [e], r, d, lockAddress);
      }
    }
  }

  lemma ReleaseTurnIsFaithful(cfg: Config, rounds: seq<Round>, past: seq<Event>, s: State, ev: seq<Event>, r: Round,
                              p: ProtocolParams, digest: string)
    requires Faithful(cfg, rounds, past + ev, s) && s.xmrVerified
    requires match LastFund(past + ev)
             case Some(f) => Redeems(cfg, f.tx, p, digest)
             case None => DigestOfFetched(cfg, rounds, p, digest)
    ensures FaithfulTurn(cfg, rounds, past, ReleaseTurn(cfg, s, ev, r, p, digest))
  {
    hide LastFund, DigestOn, DleqSeen, SnapshotSeen, XmrSeen, DigestOfFetched, Redeems;
    if !Truthy(p.txRedeemDigest) || digest == p.txRedeemDigest.value {
      var e := PostEncsig(p, digest, cfg.lib.encsign(cfg.keys.b, p.S_a_bitcoin, digest), r.encsigAccepted);
      Append(cfg, rounds, past + ev, s, e);
      assert past + (ev + [e]) == (past + ev) + [e];
    }
  }

  lemma EncsigActionIsFaithful(cfg: Config, rounds: seq<Round>, past: seq<Event>, s: State, k: nat, r: Round,
                               d: SwapDetail)
    requires k < |rounds| && rounds[k] == r && r.detail == Some(d)
    requires Faithful(cfg, rounds, past, s)
    ensures FaithfulTurn(cfg, rounds, past, EncsigAction(cfg, s, k, r, d))
  {
    hide DigestTurn, LastFund, AllJustified, DleqSeen, Bounded, LockVerdict;
    assert past + [] == past;
    if d.params.Some? {
      var p := d.params.value;
      if s.xmrVerified {
        DigestTurnIsFaithful(cfg, rounds, past, s, k, [], r, d, p);
      } else if HasXmrVerification(p) && Truthy(p.S_a_monero) && LockVerdict(cfg, r, p).Verified? {
        var verdict := LockVerdict(cfg, r, p);
        var e := XmrAccepted(k, p, verdict.index, verdict.amount);
        Append(cfg, rounds, past, s, e);
        assert (past + [e])[|past|] == e;
        DigestTurnIsFaithful(cfg, rounds, past, s.(xmrVerified := true), k, [e], r, d, p);
      }
    }
  }

  lemma DigestTurnIsFaithful(cfg: Config, rounds: seq<Round>, past: seq<Event>, s: State, k: nat, ev: seq<Event>,
                             r: Round, d: SwapDetail, p: ProtocolParams)
    requires k < |rounds| && rounds[k] == r
    requires Faithful(cfg, rounds, past + ev, s) && s.xmrVerified
    ensures FaithfulTurn(cfg, rounds, past, DigestTurn(cfg, s, ev, r, d, p))
  {
    hide AllJustified, DleqSeen, XmrSeen, DigestOn, LastFund, Bounded, ReleaseTurn, Redeems;
    var tx := if s.lastSigned.Some? then s.lastSigned
              else if cfg.hasBlockchain && Truthy(d.depositTxHash) && r.lockTx.LockTxFetched? then Some(r.lockTx.tx)
              else None;
    if tx.Some? && DigestOn(cfg, tx.value, p).Ok? {
      DigestRedeems(cfg, tx.value, p, DigestOn(cfg, tx.value, p).value);
      assert s.lastSigned.None? ==> DigestOfFetched(cfg, rounds, p, DigestOn(cfg, tx.value, p).value);
      ReleaseTurnIsFaithful(cfg, rounds, past, s, ev, r, p, DigestOn(cfg, tx.value, p).value);
    }
  }

  lemma RoundTurnIsFaithful(cfg: Config, rounds: seq<Round>, past: seq<Event>, s: State, k: nat)
    requires k < |rounds| && Faithful(cfg, rounds, past, s)
    ensures FaithfulTurn(cfg, rounds, past, RoundTurn(cfg, s, k, rounds[k]))
  {
    hide FundAction, EncsigAction, LastFund, AllJustified, DleqSeen, XmrSeen;
    assert past + [] == past;
    var r := rounds[k];
    if !r.abortedAtHead && r.detail.Some? {
      var d := r.detail.value;
      if d.action == Some("fund") {
        FundActionIsFaithful(cfg, rounds, past, s, k, r, d);
      } else if d.action == Some("submit_encsig") {
        EncsigActionIsFaithful(cfg, rounds, past, s, k, r, d);
      } else if d.params.Some? && Truthy(d.params.value.S_a_monero) {
        Append(cfg, rounds, past, s, Sweep(d.params.value.S_a_monero.value));
      }
    }
  }

  lemma NothingIsFaithful(cfg: Config, rounds: seq<Round>)
    ensures Faithful(cfg, rounds, [], INITIAL)
  {
  }

  /** Every run, at every point: each post is justified by what the run did before it, and the
      latches are truthful. */
  lemma {:induction false} RunIsFaithful(cfg: Config, rounds: seq<Round>, n: nat)
    requires n <= |rounds|
    ensures Faithful(cfg, rounds, Run(cfg, rounds, n).events, Run(cfg, rounds, n).state)
  {
    hide RoundTurn, Faithful;
    if n == 0 {
      assert Faithful(cfg, rounds, [], INITIAL) by { NothingIsFaithful(cfg, rounds); }
    } else {
      RunIsFaithful(cfg, rounds, n - 1);
      var before := Run(cfg, rounds, n - 1);
      if before.control.Again? {
        RoundTurnIsFaithful(cfg, rounds, before.events, before.state, n - 1);
      }
    }
  }

  // ----- theorems over whole runs -----

  /** No funding without an accepted DLEQ proof, the (A, B) lock address, a pre-signed graph inside
      every bound, a refund escape hatch and, when the host can store one, a recovery snapshot. */
  lemma FundingIsJustified(cfg: Config, rounds: seq<Round>, n: nat, i: nat)
    requires n <= |rounds| && i < |Run(cfg, rounds, n).events|
    requires Run(cfg, rounds, n).events[i].PostFund?
    ensures var trace := Run(cfg, rounds, n).events;
            var f, past := trace[i], trace[..i];
            && DleqSeen(cfg, past)
            && LockAddress(cfg.lib, f.params.A, cfg.keys.B, cfg.network) == Some(f.lockAddress)
            && FundingTx(cfg.lib, cfg.coins, f.lockAddress, f.amount, cfg.network) == Some(f.tx)
            && Acceptable(cfg.lib, PreSigRequest(cfg, f.tx, f.params))
            && HasRefundEncsig(f.encsigs)
            && (cfg.canSave ==>
                  SnapshotSeen(cfg, rounds, past, f.params, f.lockAddress, f.tx, f.encsigs))
  {
    hide Run, Acceptable, LockAddress, FundingTx;
    RunIsFaithful(cfg, rounds, n);
    assert Justified(cfg, rounds, Run(cfg, rounds, n).events[..i], Run(cfg, rounds, n).events[i]);
  }

  /** What a check that accepted a Monero lock saw on the chain: ten confirmations, nothing time-locked, and
      the first unlocked output to pay S_a + S_b holding the expected amount, all for the view key named. */
  predicate MoneroIsLocked(cfg: Config, fetched: Option<MoneroKeys.Fetched>, p: ProtocolParams, i: nat, amount: int)
    requires HasXmrVerification(p) && Truthy(p.S_a_monero)
  {
    var sA, sB := cfg.pointOf(p.S_a_monero.value), cfg.pointOf(cfg.keys.S_b_monero);
    && sA.Some? && sB.Some? && cfg.bigInt(p.xmrAmountPico.value).Some?
    && fetched.Some? && fetched.value.confirmations >= 10
    && var tx := fetched.value.tx;
    && !MoneroKeys.Locked(tx.unlockTime) && MoneroKeys.TxPubKey(tx.extra).Some?
    && var v := MoneroKeys.ScalarOf(cfg.scalarBytes(OrElse(p.combinedViewKey, "")));
    && var d8 := MoneroKeys.ViewKeySecret(cfg.monero, v, MoneroKeys.TxPubKey(tx.extra).value);
    && d8.Some?
    && var combined := MoneroKeys.Add(sA.value, sB.value);
    && MoneroKeys.PaysLock(cfg.monero, tx, d8.value, combined, i)
    && amount == MoneroKeys.AmountOf(cfg.monero, d8.value, i, tx.ecdh)
    && amount >= cfg.bigInt(p.xmrAmountPico.value).value
    && forall j :: 0 <= j < i ==> !MoneroKeys.PaysLock(cfg.monero, tx, d8.value, combined, j)
  }

  ghost predicate LockSeen(cfg: Config, rounds: seq<Round>, trace: seq<Event>) {
    exists j :: 0 <= j < |trace| && LockWasReal(cfg, rounds, trace[j])
  }

  predicate LockWasReal(cfg: Config, rounds: seq<Round>, e: Event) {
    && e.XmrAccepted? && e.round < |rounds| && HasXmrVerification(e.params) && Truthy(e.params.S_a_monero)
    && MoneroIsLocked(cfg, rounds[e.round].moneroTx, e.params, e.index, e.locked)
  }

  lemma CheckedLockIsReal(cfg: Config, rounds: seq<Round>, e: Event)
    requires MoneroKeys.PointCoding(cfg.monero) && XmrChecked(cfg, rounds, e)
    ensures LockWasReal(cfg, rounds, e)
  {
    hide MoneroKeys.AmountOf, MoneroKeys.PaysLock, MoneroKeys.TxPubKey, MoneroKeys.LockSecret, MoneroKeys.ViewKeySecret;
    hide MoneroKeys.JudgeFrom;
    var r, params := rounds[e.round], LockParamsOf(cfg, e.params).value;
    MoneroKeys.VerifiedLockIsReal(cfg.monero, r.moneroTx, params);
    var tx := r.moneroTx.value.tx;
    var R := MoneroKeys.TxPubKey(tx.extra).value;
    MoneroSpend.SecretBranchesAgree(cfg.monero, params, R);
    var d8 := MoneroKeys.LockSecret(cfg.monero, params, R).value;
    MoneroKeys.JudgeFromVerified(cfg.monero, tx, d8, params.spendPub.value, params.expectedAmount, 0);
  }

  /** The recovery snapshot names the lock output that presigning found, with its amount, if and only if the
      reply to /presigs names no other: the server's word is taken over the client's own. */
  lemma RecoveryNamesLockExactly(cfg: Config, p: ProtocolParams, lockAddress: string, amount: Option<int>, tx: Tx,
                                 e: Encsigs)
    requires FundingTx(cfg.lib, cfg.coins, lockAddress, amount, cfg.network) == Some(tx)
    requires Acceptable(cfg.lib, PreSigRequest(cfg, tx, p))
    ensures var saved := RecoveryOf(cfg, p, lockAddress, tx, e);
      var lock := LocateLock(cfg.lib, tx, p.A, cfg.lib.publicKey(cfg.keys.b).value).value;
      && (saved.lockVout == lock.vout && saved.lockAmountSats == Text.Decimal(lock.value) <==>
            && e.lockVout in {None, Some(lock.vout)}
            && e.lockAmountSats in {None, Some(Text.Decimal(lock.value))})
      && saved.lockTxid == (if lock.txid == "" && e.lockTxid.Some? then e.lockTxid.value else lock.txid)
  {
    hide Text.Decimal, MultisigScript, P2wsh;
  }

  /** No encrypted signature without a verified Monero lock in the same run; its digest is the one
      computed here, equal to the server's when the server names one, and after funding it is the
      digest of the transaction last funded, whose lock key is then the very key it releases to. */
  lemma ReleaseIsJustified(cfg: Config, rounds: seq<Round>, n: nat, i: nat)
    requires n <= |rounds| && i < |Run(cfg, rounds, n).events|
    requires Run(cfg, rounds, n).events[i].PostEncsig?
    ensures var trace := Run(cfg, rounds, n).events;
            var e, past := trace[i], trace[..i];
            && XmrSeen(cfg, rounds, past)
            && (MoneroKeys.PointCoding(cfg.monero) ==> LockSeen(cfg, rounds, past))
            && (Truthy(e.params.txRedeemDigest) ==> e.digest == e.params.txRedeemDigest.value)
            && e.encsig == cfg.lib.encsign(cfg.keys.b, e.params.S_a_bitcoin, e.digest)
            && match LastFund(past)
               case None => DigestOfFetched(cfg, rounds, e.params, e.digest)
               case Some(f) =>
                 && Redeems(cfg, f.tx, e.params, e.digest)
                 && (Sha256Injective(cfg.lib) && AddressRoundTrip(cfg.lib) ==>
                       cfg.lib.hex(e.params.A) == cfg.lib.hex(f.params.A))
  {
    hide Run, Acceptable, LockAddress, FundingTx, DigestOn, XmrChecked, LockWasReal, Redeems;
    RunIsFaithful(cfg, rounds, n);
    var trace := Run(cfg, rounds, n).events;
    var e, past := trace[i], trace[..i];
    assert Justified(cfg, rounds, past, e);
    if MoneroKeys.PointCoding(cfg.monero) {
      var j :| 0 <= j < |past| && XmrChecked(cfg, rounds, past[j]);
      CheckedLockIsReal(cfg, rounds, past[j]);
    }
    var last := LastFund(past);
    if last.Some? && Sha256Injective(cfg.lib) && AddressRoundTrip(cfg.lib) {
      var j :| 0 <= j < |past| && past[j] == last.value;
      assert Justified(cfg, rounds, trace[..j], trace[j]);
      FundedKeyIsReleased(cfg, last.value, e.params, e.digest);
    }
  }

  lemma FundedKeyIsReleased(cfg: Config, f: Event, released: ProtocolParams, digest: string)
    requires f.PostFund? && Sha256Injective(cfg.lib) && AddressRoundTrip(cfg.lib)
    requires LockAddress(cfg.lib, f.params.A, cfg.keys.B, cfg.network) == Some(f.lockAddress)
    requires FundingTx(cfg.lib, cfg.coins, f.lockAddress, f.amount, cfg.network) == Some(f.tx)
    requires Redeems(cfg, f.tx, released, digest)
    ensures cfg.lib.hex(released.A) == cfg.lib.hex(f.params.A)
  {
    DigestRedeems(cfg, f.tx, released, digest);
    RedeemBindsFundedKey(cfg.lib, cfg.coins, f.amount, f.params.A, cfg.keys.B, cfg.network, released);
  }

  /** Two successive accepted fundings pay different lock addresses. */
  lemma SuccessiveFundingsDiffer(cfg: Config, rounds: seq<Round>, n: nat, i: nat, j: nat)
    requires n <= |rounds| && i < j < |Run(cfg, rounds, n).events|
    requires var trace := Run(cfg, rounds, n).events;
             IsFunding(trace[i]) && IsFunding(trace[j]) && forall m :: i < m < j ==> !IsFunding(trace[m])
    ensures Run(cfg, rounds, n).events[i].lockAddress != Run(cfg, rounds, n).events[j].lockAddress
  {
    hide Run, Acceptable, LockAddress, FundingTx, LastFund, DleqSeen, SnapshotSeen;
    RunIsFaithful(cfg, rounds, n);
    var trace := Run(cfg, rounds, n).events;
    assert Justified(cfg, rounds, trace[..j], trace[j]);
    LastFundBefore(trace, i, j);
  }

  lemma LastFundBefore(trace: seq<Event>, i: nat, j: nat)
    requires i < j < |trace| && IsFunding(trace[i]) && forall m :: i < m < j ==> !IsFunding(trace[m])
    ensures LastFund(trace[..j]) == Some(trace[i])
  {
    assert trace[..j] == trace[..i + 1] + trace[i + 1..j];
    NothingFunded(trace[..i + 1], trace[i + 1..j]);
    assert trace[..i + 1][i] == trace[i];
  }

  function FundPostCount(events: seq<Event>): nat {
    if events == [] then 0 else FundPostCount(events[..|events| - 1]) + if events[|events| - 1].PostFund? then 1 else 0
  }

  /** At most six /fund posts, of which only the very last event of the round can be a success. */
  ghost predicate FundsAtMostSixTimes(events: seq<Event>) {
    && FundPostCount(events) <= MAX_FUND_ATTEMPTS
    && forall i :: 0 <= i < |events| - 1 ==> !IsFunding(events[i])
  }

  predicate NoFundPost(events: seq<Event>) {
    forall e :: e in events ==> !e.PostFund?
  }

  lemma {:induction false} FundPostCountOfTail(ev: seq<Event>, posts: seq<Event>)
    requires NoFundPost(ev)
    ensures FundPostCount(ev + posts) <= |posts|
  {
    if posts != [] {
      assert (ev + posts)[..|ev + posts| - 1] == ev + posts[..|posts| - 1];
      FundPostCountOfTail(ev, posts[..|posts| - 1]);
    } else if ev != [] {
      assert ev + posts == ev;
      assert ev[..|ev| - 1] + [] == ev[..|ev| - 1];
      FundPostCountOfTail(ev[..|ev| - 1], []);
    }
  }

  lemma FundTurnIsBounded(cfg: Config, s: State, ev: seq<Event>, r: Round, p: ProtocolParams, lockAddress: string,
                          tx: Tx, e: Encsigs)
    requires NoFundPost(ev)
    ensures FundsAtMostSixTimes(FundTurn(cfg, s, ev, r, p, lockAddress, tx, e).events)
  {
    var posts := FundPosts(r.fund);
    FundPostCountOfTail(ev, FundEvents(posts, p, lockAddress, r.lockAmount, tx, e));
  }

  lemma QuietTurnIsBounded(ev: seq<Event>)
    requires NoFundPost(ev)
    ensures FundsAtMostSixTimes(ev)
  {
    FundPostCountOfTail(ev, []);
    assert ev + [] == ev;
  }

  lemma PresigsTurnIsBounded(cfg: Config, s: State, k: nat, ev: seq<Event>, r: Round, p: ProtocolParams,
                             lockAddress: string, tx: Tx, sigs: PreSigs)
    requires NoFundPost(ev)
    ensures FundsAtMostSixTimes(PresigsTurn(cfg, s, k, ev, r, p, lockAddress, tx, sigs).events)
  {
    hide FundTurn, FundsAtMostSixTimes;
    forall s, ev, e | NoFundPost(ev)
      ensures FundsAtMostSixTimes(SnapshotTurn(cfg, s, k, ev, r, p, lockAddress, tx, e).events)
    {
      QuietTurnIsBounded(ev);
      FundTurnIsBounded(cfg, s, ev, r, p, lockAddress, tx, e);
      FundTurnIsBounded(cfg, s, ev + [SnapshotPresent(k)], r, p, lockAddress, tx, e);
      var saved := SnapshotSaved(k, RecoveryOf(cfg, p, lockAddress, tx, e));
      FundTurnIsBounded(cfg, s, ev + [saved], r, p, lockAddress, tx, e);
    }
    QuietTurnIsBounded(ev + [PostPresigs(lockAddress, tx, sigs, false)]);
  }

  lemma ContractTurnIsBounded(cfg: Config, s: State, k: nat, ev: seq<Event>, r: Round, d: SwapDetail,
                              lockAddress: string)
    requires NoFundPost(ev)
    ensures FundsAtMostSixTimes(ContractTurn(cfg, s, k, ev, r, d, lockAddress).events)
  {
    hide PresigsTurn, FundsAtMostSixTimes, PreSigsOf, FundingTx, LockAddress;
    forall s, ev | NoFundPost(ev)
      ensures FundsAtMostSixTimes(BuildTurn(cfg, s, k, ev, r, d, lockAddress).events)
    {
      QuietTurnIsBounded(ev);
      forall tx: Tx, sigs: PreSigs, p: ProtocolParams
        ensures FundsAtMostSixTimes(PresigsTurn(cfg, s, k, ev, r, p, lockAddress, tx, sigs).events)
      {
        PresigsTurnIsBounded(cfg, s, k, ev, r, p, lockAddress, tx, sigs);
      }
    }
    QuietTurnIsBounded(ev);
  }

  /** Each round makes at most six /fund posts and at most one that succeeds. */
  lemma RoundFundsAtMostOnce(cfg: Config, s: State, k: nat, r: Round)
    ensures FundsAtMostSixTimes(RoundTurn(cfg, s, k, r).events)
  {
    hide FundAction, EncsigAction, FundsAtMostSixTimes;
    QuietTurnIsBounded([]);
    if r.detail.Some? {
      var d := r.detail.value;
      FundActionIsBounded(cfg, s, k, r, d);
      EncsigActionIsQuiet(cfg, s, k, r, d);
      QuietTurnIsBounded(EncsigAction(cfg, s, k, r, d).events);
      QuietTurnIsBounded(SweepAction(s, r, d).events);
    }
  }

  lemma EncsigActionIsQuiet(cfg: Config, s: State, k: nat, r: Round, d: SwapDetail)
    ensures NoFundPost(EncsigAction(cfg, s, k, r, d).events)
  {
    hide DigestTurn, Bounded;
    forall s, ev, p | NoFundPost(ev) ensures NoFundPost(DigestTurn(cfg, s, ev, r, d, p).events) {
      DigestTurnIsQuiet(cfg, s, ev, r, d, p);
    }
  }

  lemma DigestTurnIsQuiet(cfg: Config, s: State, ev: seq<Event>, r: Round, d: SwapDetail, p: ProtocolParams)
    requires NoFundPost(ev)
    ensures NoFundPost(DigestTurn(cfg, s, ev, r, d, p).events)
  {
    hide DigestOn, Bounded;
  }

  lemma FundActionIsBounded(cfg: Config, s: State, k: nat, r: Round, d: SwapDetail)
    ensures FundsAtMostSixTimes(FundAction(cfg, s, k, r, d).events)
  {
    hide ContractTurn, FundsAtMostSixTimes, Bounded;
    QuietTurnIsBounded([]);
    forall s, ev, a | NoFundPost(ev) ensures FundsAtMostSixTimes(ContractTurn(cfg, s, k, ev, r, d, a).events) {
      ContractTurnIsBounded(cfg, s, k, ev, r, d, a);
    }
  }

  /** At every loop head the retry counters are below their caps. */
  lemma {:induction false} CountersAreBounded(cfg: Config, rounds: seq<Round>, n: nat)
    requires n <= |rounds| && Run(cfg, rounds, n).control.Again?
    ensures Run(cfg, rounds, n).state.presigsStreak < PRESIGS_ALREADY_DONE_MAX
    ensures Run(cfg, rounds, n).state.encsigFailures < MAX_ENCSIG_FAILURES
  {
    hide RoundTurn;
    if n > 0 {
      CountersAreBounded(cfg, rounds, n - 1);
      TurnKeepsCounters(cfg, Run(cfg, rounds, n - 1).state, n - 1, rounds[n - 1]);
    }
  }

  lemma TurnKeepsCounters(cfg: Config, s: State, k: nat, r: Round)
    requires CountersBelowCaps(s)
    requires RoundTurn(cfg, s, k, r).control.Again?
    ensures CountersBelowCaps(RoundTurn(cfg, s, k, r).state)
  {
    hide FundAction, EncsigAction, SweepAction;
  }

  /** The drive timeout is raised only on a status that precedes funding, in a round whose clock
      had passed the deadline. */
  lemma {:induction false} TimeoutIsPreFunding(cfg: Config, rounds: seq<Round>, n: nat, status: string)
    requires n <= |rounds| && Run(cfg, rounds, n).control == Stop(TimedOut(status))
    ensures status in PRE_FUNDING
    ensures exists k :: 0 <= k < n && Run(cfg, rounds, k).control.Again? && rounds[k].clock >= cfg.deadline
                        && rounds[k].detail.Some? && rounds[k].detail.value.status == status
  {
    hide FundAction, EncsigAction;
    var before := Run(cfg, rounds, n - 1);
    if before.control.Stop? {
      TimeoutIsPreFunding(cfg, rounds, n - 1, status);
    } else {
      OnlyTheHeadTimesOut(cfg, before.state, n - 1, rounds[n - 1], status);
    }
  }

  lemma OnlyTheHeadTimesOut(cfg: Config, s: State, k: nat, r: Round, status: string)
    requires RoundTurn(cfg, s, k, r).control == Stop(TimedOut(status))
    ensures r.clock >= cfg.deadline && r.detail.Some? && r.detail.value.status == status && status in PRE_FUNDING
  {
    hide FundAction, EncsigAction, SweepAction;
  }

  // ----- when the driver does post: the exact conditions -----

  /** The head of the loop lets the round act on the server's detail. */
  predicate PastHead(cfg: Config, r: Round) {
    && !r.abortedAtHead
    && r.detail.Some?
    && r.detail.value.status !in TERMINAL
    && !(r.clock >= cfg.deadline && r.detail.value.status in PRE_FUNDING)
  }

  /** The proof linking Alice's two keys was accepted earlier in the run or is acceptable now. */
  predicate DleqHolds(cfg: Config, s: State, r: Round, p: ProtocolParams) {
    || s.dleqVerified
    || (Truthy(p.dleqProof) && Truthy(p.S_a_monero) && p.S_a_bitcoin != "" && r.wasmReady
        && cfg.lib.dleqValid(p.S_a_bitcoin, p.S_a_monero.value, p.dleqProof.value))
  }

  /** A refund encsig is known, from the server's params or from its reply to /presigs. */
  predicate EscapeHatchGiven(r: Round, p: ProtocolParams) {
    AlreadyHasEncsig(p) || (r.presigs.PresigsAccepted? && HasRefundEncsig(ExtractPresigsEncsig(r.presigs.reply)))
  }

  /** The lock address is the (A, B) one, the graph is inside its bounds, and the way out is kept. */
  predicate BuildHolds(cfg: Config, r: Round, p: ProtocolParams, lockAddress: string) {
    var tx := FundingTx(cfg.lib, cfg.coins, lockAddress, r.lockAmount, cfg.network);
    && LockAddress(cfg.lib, p.A, cfg.keys.B, cfg.network) == Some(lockAddress)
    && cfg.keys.b != "" && cfg.keys.refundAddress != ""
    && tx.Some? && Acceptable(cfg.lib, PreSigRequest(cfg, tx.value, p))
    && EscapeHatchGiven(r, p)
    && (!cfg.canSave || (cfg.canLoad && r.snapshotOnDisk) || r.snapshotSaved)
  }

  /** Everything that has to hold for a round to post /fund. */
  predicate MayFund(cfg: Config, s: State, r: Round) {
    && PastHead(cfg, r)
    && var d := r.detail.value;
    && d.action == Some("fund")
    && Truthy(d.depositAddress) && d.depositAddress.value != s.lastFundedAddress
    && !(d.status !in PRE_FUNDING && s.fundedAt > 0 && r.settleClock - s.fundedAt > 15_000)
    && d.params.Some?
    && DleqHolds(cfg, s, r, d.params.value)
    && (s.verificationEmitted || !d.hasVerification || r.verify == Verdict(true))
    && BuildHolds(cfg, r, d.params.value, d.depositAddress.value)
  }

  ghost predicate PostsFund(t: Turn) {
    exists i :: 0 <= i < |t.events| && t.events[i].PostFund?
  }

  lemma PresigsTurnFundsExactlyWhen(cfg: Config, s: State, k: nat, ev: seq<Event>, r: Round, p: ProtocolParams,
                                    lockAddress: string, tx: Tx, sigs: PreSigs)
    requires NoFundPost(ev)
    ensures PostsFund(PresigsTurn(cfg, s, k, ev, r, p, lockAddress, tx, sigs))
       <==> EscapeHatchGiven(r, p) && (!cfg.canSave || (cfg.canLoad && r.snapshotOnDisk) || r.snapshotSaved)
  {
    hide FundTurn, PostsFund;
    var asks := !AlreadyHasEncsig(p);
    var ev' := if asks then ev + [PostPresigs(lockAddress, tx, sigs, r.presigs.PresigsAccepted?)] else ev;
    var s' := s.(presigsStreak := 0);
    var e := if asks && r.presigs.PresigsAccepted? then ExtractPresigsEncsig(r.presigs.reply)
             else KnownEncsigs(cfg, p, tx);
    var t := PresigsTurn(cfg, s, k, ev, r, p, lockAddress, tx, sigs);
    QuietTurn(ev');
    FundTurnFunds(cfg, s', ev', r, p, lockAddress, tx, e);
    FundTurnFunds(cfg, s', ev' + [SnapshotPresent(k)], r, p, lockAddress, tx, e);
    FundTurnFunds(cfg, s', ev' + [SnapshotSaved(k, RecoveryOf(cfg, p, lockAddress, tx, e))], r, p, lockAddress, tx, e);
    assert t.events == ev' ==> !PostsFund(t) by { QuietPosts(t); }
  }

  lemma QuietTurn(ev: seq<Event>)
    requires NoFundPost(ev)
    ensures forall i :: 0 <= i < |ev| ==> !ev[i].PostFund?
  {
  }

  lemma QuietPosts(t: Turn)
    ensures NoFundPost(t.events) ==> !PostsFund(t)
  {
  }

  lemma FundTurnFunds(cfg: Config, s: State, ev: seq<Event>, r: Round, p: ProtocolParams, lockAddress: string, tx: Tx,
                      e: Encsigs)
    ensures PostsFund(FundTurn(cfg, s, ev, r, p, lockAddress, tx, e))
  {
    var t := FundTurn(cfg, s, ev, r, p, lockAddress, tx, e);
    assert t.events[|ev|].PostFund?;
  }

  lemma BuildTurnFundsExactlyWhen(cfg: Config, s: State, k: nat, ev: seq<Event>, r: Round, d: SwapDetail,
                                  lockAddress: string)
    requires NoFundPost(ev)
    ensures PostsFund(BuildTurn(cfg, s, k, ev, r, d, lockAddress))
       <==> d.params.Some? && BuildHolds(cfg, r, d.params.value, lockAddress)
  {
    hide PresigsTurn, PostsFund, Acceptable, EscapeHatchGiven, LockAddress, FundingTx, PreSigsOf;
    QuietPosts(BuildTurn(cfg, s, k, ev, r, d, lockAddress));
    var tx := FundingTx(cfg.lib, cfg.coins, lockAddress, r.lockAmount, cfg.network);
    if d.params.Some? && tx.Some? {
      var rq := PreSigRequest(cfg, tx.value, d.params.value);
      AcceptsExactly(cfg.lib, rq);
      var sigs := PreSigsOf(cfg.lib, rq);
      if sigs.Ok? {
        PresigsTurnFundsExactlyWhen(cfg, s, k, ev, r, d.params.value, lockAddress, tx.value, sigs.value);
      }
    }
  }

  lemma DleqTurnFundsExactlyWhen(cfg: Config, s: State, k: nat, r: Round, d: SwapDetail, lockAddress: string)
    ensures PostsFund(DleqTurn(cfg, s, k, r, d, lockAddress))
       <==> && d.params.Some? && DleqHolds(cfg, s, r, d.params.value)
            && (s.verificationEmitted || !d.hasVerification || r.verify == Verdict(true))
            && BuildHolds(cfg, r, d.params.value, lockAddress)
  {
    hide BuildTurn, PostsFund, BuildHolds;
    QuietPosts(DleqTurn(cfg, s, k, r, d, lockAddress));
    forall s, ev | NoFundPost(ev)
      ensures PostsFund(BuildTurn(cfg, s, k, ev, r, d, lockAddress))
         <==> d.params.Some? && BuildHolds(cfg, r, d.params.value, lockAddress)
    {
      BuildTurnFundsExactlyWhen(cfg, s, k, ev, r, d, lockAddress);
    }
  }

  lemma SameDleq(cfg: Config, s: State, r: Round, p: ProtocolParams)
    ensures DleqHolds(cfg, s.(fundedAt := 0), r, p) == DleqHolds(cfg, s, r, p)
  {
  }

  /** A round posts /fund exactly when every condition holds. */
  lemma FundsExactlyWhen(cfg: Config, s: State, k: nat, r: Round)
    ensures PostsFund(RoundTurn(cfg, s, k, r)) <==> MayFund(cfg, s, r)
  {
    hide DleqTurn, EncsigAction, PostsFund, BuildHolds, DleqHolds, Bounded;
    QuietPosts(RoundTurn(cfg, s, k, r));
    if r.detail.Some? { EncsigActionIsQuiet(cfg, s, k, r, r.detail.value); }
    if r.detail.Some? && Truthy(r.detail.value.depositAddress) {
      var d := r.detail.value;
      DleqTurnFundsExactlyWhen(cfg, s, k, r, d, d.depositAddress.value);
      DleqTurnFundsExactlyWhen(cfg, s.(fundedAt := 0), k, r, d, d.depositAddress.value);
      if d.params.Some? {
        SameDleq(cfg, s, r, d.params.value);
      }
    }
  }

  /** The lock transaction a release is computed on: the one signed in this run, else the one the
      blockchain provider returned. */
  function ReleaseTx(cfg: Config, s: State, r: Round): Option<Tx>
    requires r.detail.Some?
  {
    if s.lastSigned.Some? then s.lastSigned
    else if cfg.hasBlockchain && Truthy(r.detail.value.depositTxHash) && r.lockTx.LockTxFetched? then Some(r.lockTx.tx)
    else None
  }

  predicate MayRelease(cfg: Config, s: State, r: Round) {
    && PastHead(cfg, r)
    && var d := r.detail.value;
    && d.action == Some("submit_encsig")
    && d.params.Some?
    && var p := d.params.value;
    && (s.xmrVerified || (HasXmrVerification(p) && Truthy(p.S_a_monero) && cfg.keys.S_b_monero != ""
                          && LockVerdict(cfg, r, p).Verified?))
    && ReleaseTx(cfg, s, r).Some?
    && var digest := DigestOn(cfg, ReleaseTx(cfg, s, r).value, p);
    && digest.Ok? && (Truthy(p.txRedeemDigest) ==> digest.value == p.txRedeemDigest.value)
  }

  ghost predicate PostsEncsig(t: Turn) {
    exists i :: 0 <= i < |t.events| && t.events[i].PostEncsig?
  }

  lemma DigestTurnReleasesExactlyWhen(cfg: Config, s: State, ev: seq<Event>, r: Round, d: SwapDetail, p: ProtocolParams)
    requires r.detail == Some(d) && NoRelease(ev)
    ensures PostsEncsig(DigestTurn(cfg, s, ev, r, d, p))
       <==> && ReleaseTx(cfg, s, r).Some?
            && var digest := DigestOn(cfg, ReleaseTx(cfg, s, r).value, p);
            && digest.Ok? && (Truthy(p.txRedeemDigest) ==> digest.value == p.txRedeemDigest.value)
  {
    hide DigestOn;
    var t := DigestTurn(cfg, s, ev, r, d, p);
    if t.events == ev {
      assert !PostsEncsig(t);
    } else {
      assert t.events[|ev|].PostEncsig?;
    }
  }

  /** A round posts the encrypted signature exactly when every condition holds; no DLEQ proof is
      among them, so a resumed swap that never funds releases without one. */
  lemma ReleasesExactlyWhen(cfg: Config, s: State, k: nat, r: Round)
    ensures PostsEncsig(RoundTurn(cfg, s, k, r)) <==> MayRelease(cfg, s, r)
  {
    hide FundAction, DigestTurn, DigestOn, LockVerdict;
    if PastHead(cfg, r) {
      var d := r.detail.value;
      if d.action == Some("fund") {
        FundActionNeverReleases(cfg, s, k, r, d);
      } else if d.action == Some("submit_encsig") && d.params.Some? {
        DigestTurnReleasesExactlyWhen(cfg, s, [], r, d, d.params.value);
        var p := d.params.value;
        if HasXmrVerification(p) && Truthy(p.S_a_monero) && LockVerdict(cfg, r, p).Verified? {
          var verdict := LockVerdict(cfg, r, p);
          DigestTurnReleasesExactlyWhen(cfg, s.(xmrVerified := true),
                                        [XmrAccepted(k, p, verdict.index, verdict.amount)], r, d, p);
        }
      }
    }
  }

  predicate NoRelease(events: seq<Event>) {
    forall e :: e in events ==> !e.PostEncsig?
  }

  lemma FundActionNeverReleases(cfg: Config, s: State, k: nat, r: Round, d: SwapDetail)
    ensures NoRelease(FundAction(cfg, s, k, r, d).events)
  {
    hide BuildTurn;
    forall s, ev, a | NoRelease(ev) ensures NoRelease(BuildTurn(cfg, s, k, ev, r, d, a).events) {
      BuildTurnNeverReleases(cfg, s, k, ev, r, d, a);
    }
  }

  lemma BuildTurnNeverReleases(cfg: Config, s: State, k: nat, ev: seq<Event>, r: Round, d: SwapDetail,
                               lockAddress: string)
    requires NoRelease(ev)
    ensures NoRelease(BuildTurn(cfg, s, k, ev, r, d, lockAddress).events)
  {
    hide PresigsTurn, PreSigsOf, FundingTx, LockAddress;
    forall p, tx, sigs ensures NoRelease(PresigsTurn(cfg, s, k, ev, r, p, lockAddress, tx, sigs).events) {
      PresigsTurnNeverReleases(cfg, s, k, ev, r, p, lockAddress, tx, sigs);
    }
  }

  lemma PresigsTurnNeverReleases(cfg: Config, s: State, k: nat, ev: seq<Event>, r: Round, p: ProtocolParams,
                                 lockAddress: string, tx: Tx, sigs: PreSigs)
    requires NoRelease(ev)
    ensures NoRelease(PresigsTurn(cfg, s, k, ev, r, p, lockAddress, tx, sigs).events)
  {
  }
}
