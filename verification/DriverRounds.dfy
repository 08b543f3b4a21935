/** What one round of the driver does, in terms of what it was answered: where every field of every event
    comes from, how the latches move, and what each exit means. */
module DriverRounds {
  import opened Wrappers
  import opened Bitcoin
  import opened Presign
  import opened Driver
  import opened DriverSafety
  import Text
  import MoneroKeys
  import MoneroLock
  import MoneroSpend

  // ----- where the events come from -----

  /** The text a reply holds under a key, if it is a text. */
  predicate HoldsText(reply: Option<map<string, Field>>, key: string, text: Option<string>) {
    if reply.Some? && key in reply.value && reply.value[key].TextField? then text == Some(reply.value[key].text)
    else text == None
  }

  predicate HoldsNumber(reply: Option<map<string, Field>>, key: string, number: Option<int>) {
    if reply.Some? && key in reply.value && reply.value[key].NumberField? then number == Some(reply.value[key].number)
    else number == None
  }

  /** The encsigs are those in the parameters when the server had answered /presigs before, with output 0 of
      the funding transaction as the lock, and those in its reply to this round's /presigs otherwise. */
  predicate EncsigsCome(cfg: Config, r: Round, p: ProtocolParams, tx: Tx, e: Encsigs) {
    if (Truthy(p.fullRefundEncsig) || Truthy(p.partialRefundEncsig)) && Truthy(p.txRedeemDigest) then
      && e.full == p.fullRefundEncsig && e.partial == p.partialRefundEncsig && e.cancelSig == p.txCancelSig
      && e.lockTxid == Some(cfg.lib.txid(tx)) && e.lockVout == Some(0)
      && (|tx.outs| == 1 ==> e.lockAmountSats == Some(Text.Decimal(tx.outs[0].value)))
    else
      && r.presigs.PresigsAccepted?
      && HoldsText(r.presigs.reply, "txFullRefundEncsig", e.full)
      && HoldsText(r.presigs.reply, "txPartialRefundEncsig", e.partial)
      && HoldsText(r.presigs.reply, "txCancelSig", e.cancelSig)
      && HoldsText(r.presigs.reply, "txLockTxid", e.lockTxid)
      && HoldsNumber(r.presigs.reply, "txLockVout", e.lockVout)
      && HoldsText(r.presigs.reply, "txLockAmountSats", e.lockAmountSats)
  }

  /** This round found a snapshot on disk, or saved one with the way out of this funding. */
  ghost predicate KeptInRound(cfg: Config, k: nat, before: seq<Event>, p: ProtocolParams, lockAddress: string, tx: Tx,
                              e: Encsigs) {
    exists j :: 0 <= j < |before| && KeepsWayOut(cfg, k, before[j], p, lockAddress, tx, e)
  }

  predicate KeepsWayOut(cfg: Config, k: nat, kept: Event, p: ProtocolParams, lockAddress: string, tx: Tx, e: Encsigs) {
    || kept == SnapshotPresent(k)
    || (kept.SnapshotSaved? && kept.round == k && SavesWayOut(cfg, kept.saved, p, lockAddress, tx, e))
  }

  /** The server's parameters in a round. */
  function ParamsOf(r: Round): Option<ProtocolParams> {
    if r.detail.Some? then r.detail.value.params else None
  }

  predicate Asked(r: Round, lockAddress: string) {
    r.detail.Some? && r.detail.value.depositAddress == Some(lockAddress)
  }

  /** Every field of an event of round k is what the round was answered, or computed from it. */
  ghost predicate Tied(cfg: Config, k: nat, r: Round, before: seq<Event>, event: Event) {
    match event
    case DleqAccepted(sBitcoin, sMonero, proof) =>
      && ParamsOf(r).Some?
      && var p := ParamsOf(r).value;
      && p.S_a_bitcoin == sBitcoin && p.S_a_monero == Some(sMonero) && p.dleqProof == Some(proof)
      && cfg.lib.dleqValid(sBitcoin, sMonero, proof)
    case ContractAccepted(n) => n == k && r.verify == Verdict(true)
    case PostPresigs(lockAddress, tx, sigs, ok) =>
      && ParamsOf(r).Some? && Asked(r, lockAddress)
      && var p := ParamsOf(r).value;
      && FundingTx(cfg.lib, cfg.coins, lockAddress, r.lockAmount, cfg.network) == Some(tx)
      && PreSigsOf(cfg.lib, Request(cfg.keys.b, tx, p, cfg.keys.refundAddress, cfg.network, DEFAULT_POLICY)) == Ok(sigs)
      && ok == r.presigs.PresigsAccepted?
    case SnapshotPresent(n) => n == k && cfg.canLoad && r.snapshotOnDisk
    case SnapshotSaved(n, saved) =>
      n == k && r.snapshotSaved && ParamsOf(r) == Some(saved.params) && Asked(r, saved.lockAddress)
    case PostFund(p, lockAddress, amount, tx, e, _) =>
      && ParamsOf(r) == Some(p) && Asked(r, lockAddress) && amount == r.lockAmount
      && FundingTx(cfg.lib, cfg.coins, lockAddress, amount, cfg.network) == Some(tx)
      && Acceptable(cfg.lib, Request(cfg.keys.b, tx, p, cfg.keys.refundAddress, cfg.network, DEFAULT_POLICY))
      && EncsigsCome(cfg, r, p, tx, e)
      && (cfg.canSave ==> KeptInRound(cfg, k, before, p, lockAddress, tx, e))
    case XmrAccepted(n, p, _, _) => n == k && ParamsOf(r) == Some(p)
    case PostEncsig(p, _, _, ok) => ParamsOf(r) == Some(p) && ok == r.encsigAccepted
    case Sweep(sAMonero) => ParamsOf(r).Some? && ParamsOf(r).value.S_a_monero == Some(sAMonero)
  }

  ghost predicate AllTied(cfg: Config, k: nat, r: Round, events: seq<Event>) {
    forall i :: 0 <= i < |events| ==> Tied(cfg, k, r, events[..i], events[i])
  }

  lemma TieNext(cfg: Config, k: nat, r: Round, events: seq<Event>, event: Event)
    requires AllTied(cfg, k, r, events) && Tied(cfg, k, r, events, event)
    ensures AllTied(cfg, k, r, events + [event])
  {
    hide Tied;
    var t := events + [event];
    assert t[..|events|] == events;
    forall i | 0 <= i < |t| ensures Tied(cfg, k, r, t[..i], t[i]) {
      assert i < |events| ==> t[..i] == events[..i];
    }
  }

  lemma {:induction false} TieFunds(cfg: Config, k: nat, r: Round, events: seq<Event>, posts: seq<bool>,
                                    p: ProtocolParams, lockAddress: string, tx: Tx, e: Encsigs)
    requires AllTied(cfg, k, r, events)
    requires Tied(cfg, k, r, events, PostFund(p, lockAddress, r.lockAmount, tx, e, true))
    ensures AllTied(cfg, k, r, events + FundEvents(posts, p, lockAddress, r.lockAmount, tx, e))
  {
    hide FundingTx, Acceptable, AllTied, EncsigsCome, SavesWayOut;
    var all := FundEvents(posts, p, lockAddress, r.lockAmount, tx, e);
    if posts == [] {
      assert events + all == events;
    } else {
      var n := |posts| - 1;
      var init := FundEvents(posts[..n], p, lockAddress, r.lockAmount, tx, e);
      TieFunds(cfg, k, r, events, posts[..n], p, lockAddress, tx, e);
      assert events + all == (events + init) + [all[n]];
      if cfg.canSave {
        var j :| 0 <= j < |events| && KeepsWayOut(cfg, k, events[j], p, lockAddress, tx, e);
        assert (events + init)[j] == events[j];
      }
      TieNext(cfg, k, r, events + init, all[n]);
    }
  }

  lemma SnapshotTurnIsTied(cfg: Config, s: State, k: nat, ev: seq<Event>, r: Round, p: ProtocolParams,
                           lockAddress: string, tx: Tx, e: Encsigs)
    requires AllTied(cfg, k, r, ev) && ParamsOf(r) == Some(p) && Asked(r, lockAddress) && EncsigsCome(cfg, r, p, tx, e)
    requires FundingTx(cfg.lib, cfg.coins, lockAddress, r.lockAmount, cfg.network) == Some(tx)
    requires Acceptable(cfg.lib, Request(cfg.keys.b, tx, p, cfg.keys.refundAddress, cfg.network, DEFAULT_POLICY))
    ensures AllTied(cfg, k, r, SnapshotTurn(cfg, s, k, ev, r, p, lockAddress, tx, e).events)
  {
    hide FundingTx, Acceptable, AllTied, EncsigsCome, FundPosts, Bounded, FundEvents, RecoveryOf;
    if HasRefundEncsig(e) {
      var saved := RecoveryOf(cfg, p, lockAddress, tx, e);
      assert SavesWayOut(cfg, saved, p, lockAddress, tx, e) by { RecoverySavesWayOut(cfg, p, lockAddress, tx, e); }
      var kept := if cfg.canLoad && r.snapshotOnDisk then SnapshotPresent(k) else SnapshotSaved(k, saved);
      if !cfg.canSave {
        TieFunds(cfg, k, r, ev, FundPosts(r.fund), p, lockAddress, tx, e);
      } else if (cfg.canLoad && r.snapshotOnDisk) || r.snapshotSaved {
        TieNext(cfg, k, r, ev, kept);
        assert (ev + [kept])[|ev|] == kept && KeepsWayOut(cfg, k, kept, p, lockAddress, tx, e);
        TieFunds(cfg, k, r, ev + [kept], FundPosts(r.fund), p, lockAddress, tx, e);
      }
    }
  }

  lemma RecoverySavesWayOut(cfg: Config, p: ProtocolParams, lockAddress: string, tx: Tx, e: Encsigs)
    requires HasRefundEncsig(e)
    ensures SavesWayOut(cfg, RecoveryOf(cfg, p, lockAddress, tx, e), p, lockAddress, tx, e)
  {
  }

  lemma ReplyEncsigsCome(cfg: Config, r: Round, p: ProtocolParams, tx: Tx)
    requires !AlreadyHasEncsig(p) && r.presigs.PresigsAccepted?
    ensures EncsigsCome(cfg, r, p, tx, ExtractPresigsEncsig(r.presigs.reply))
  {
  }

  lemma KnownEncsigsCome(cfg: Config, r: Round, p: ProtocolParams, tx: Tx)
    requires AlreadyHasEncsig(p)
    ensures EncsigsCome(cfg, r, p, tx, KnownEncsigs(cfg, p, tx))
  {
  }

  lemma PresigsTurnIsTied(cfg: Config, s: State, k: nat, ev: seq<Event>, r: Round, p: ProtocolParams,
                          lockAddress: string, tx: Tx, sigs: PreSigs)
    requires AllTied(cfg, k, r, ev) && ParamsOf(r) == Some(p) && Asked(r, lockAddress)
    requires FundingTx(cfg.lib, cfg.coins, lockAddress, r.lockAmount, cfg.network) == Some(tx)
    requires PreSigsOf(cfg.lib, PreSigRequest(cfg, tx, p)) == Ok(sigs)
    ensures AllTied(cfg, k, r, PresigsTurn(cfg, s, k, ev, r, p, lockAddress, tx, sigs).events)
  {
    hide FundingTx, Acceptable, PreSigsOf, AllTied, SnapshotTurn, EncsigsCome, ExtractPresigsEncsig, KnownEncsigs;
    hide Bounded;
    AcceptsExactly(cfg.lib, Request(cfg.keys.b, tx, p, cfg.keys.refundAddress, cfg.network, DEFAULT_POLICY));
    var s' := s.(presigsStreak := 0);
    if AlreadyHasEncsig(p) {
      KnownEncsigsCome(cfg, r, p, tx);
      SnapshotTurnIsTied(cfg, s', k, ev, r, p, lockAddress, tx, KnownEncsigs(cfg, p, tx));
    } else {
      var post := PostPresigs(lockAddress, tx, sigs, r.presigs.PresigsAccepted?);
      TieNext(cfg, k, r, ev, post);
      if r.presigs.PresigsAccepted? {
        ReplyEncsigsCome(cfg, r, p, tx);
        SnapshotTurnIsTied(cfg, s', k, ev + [post], r, p, lockAddress, tx, ExtractPresigsEncsig(r.presigs.reply));
      }
    }
  }

  lemma BuildTurnIsTied(cfg: Config, s: State, k: nat, ev: seq<Event>, r: Round, d: SwapDetail, lockAddress: string)
    requires AllTied(cfg, k, r, ev) && r.detail == Some(d) && d.depositAddress == Some(lockAddress)
    ensures AllTied(cfg, k, r, BuildTurn(cfg, s, k, ev, r, d, lockAddress).events)
  {
    hide PresigsTurn, PreSigsOf, FundingTx, LockAddress, AllTied, Bounded;
    if d.params.Some? {
      var p, tx := d.params.value, FundingTx(cfg.lib, cfg.coins, lockAddress, r.lockAmount, cfg.network);
      if tx.Some? && PreSigsOf(cfg.lib, PreSigRequest(cfg, tx.value, p)).Ok? {
        var sigs := PreSigsOf(cfg.lib, PreSigRequest(cfg, tx.value, p)).value;
        PresigsTurnIsTied(cfg, s, k, ev, r, p, lockAddress, tx.value, sigs);
      }
    }
  }

  lemma ContractTurnIsTied(cfg: Config, s: State, k: nat, ev: seq<Event>, r: Round, d: SwapDetail, lockAddress: string)
    requires AllTied(cfg, k, r, ev) && r.detail == Some(d) && d.depositAddress == Some(lockAddress)
    ensures AllTied(cfg, k, r, ContractTurn(cfg, s, k, ev, r, d, lockAddress).events)
  {
    hide BuildTurn, AllTied, Bounded;
    BuildTurnIsTied(cfg, s, k, ev, r, d, lockAddress);
    if r.verify == Verdict(true) {
      TieNext(cfg, k, r, ev, ContractAccepted(k));
      BuildTurnIsTied(cfg, s.(verificationEmitted := true), k, ev + [ContractAccepted(k)], r, d, lockAddress);
    }
  }

  lemma DleqTurnIsTied(cfg: Config, s: State, k: nat, r: Round, d: SwapDetail, lockAddress: string)
    requires r.detail == Some(d) && d.depositAddress == Some(lockAddress)
    ensures AllTied(cfg, k, r, DleqTurn(cfg, s, k, r, d, lockAddress).events)
  {
    hide ContractTurn, AllTied, Bounded;
    NothingTied(cfg, k, r);
    if s.dleqVerified {
      ContractTurnIsTied(cfg, s, k, [], r, d, lockAddress);
    } else if d.params.Some? && Truthy(d.params.value.dleqProof) && Truthy(d.params.value.S_a_monero) {
      var p := d.params.value;
      var event := DleqAccepted(p.S_a_bitcoin, p.S_a_monero.value, p.dleqProof.value);
      if cfg.lib.dleqValid(p.S_a_bitcoin, p.S_a_monero.value, p.dleqProof.value) {
        TieNext(cfg, k, r, [], event);
        assert [] + [event] == [event];
        ContractTurnIsTied(cfg, s.(dleqVerified := true), k, [event], r, d, lockAddress);
      }
    }
  }

  lemma NothingTied(cfg: Config, k: nat, r: Round)
    ensures AllTied(cfg, k, r, [])
  {
  }

  lemma DigestTurnIsTied(cfg: Config, s: State, k: nat, ev: seq<Event>, r: Round, d: SwapDetail, p: ProtocolParams)
    requires AllTied(cfg, k, r, ev) && r.detail == Some(d) && d.params == Some(p)
    ensures AllTied(cfg, k, r, DigestTurn(cfg, s, ev, r, d, p).events)
  {
    hide AllTied, DigestOn, Bounded;
    var t := DigestTurn(cfg, s, ev, r, d, p);
    if t.events != ev {
      TieNext(cfg, k, r, ev, t.events[|ev|]);
    }
  }

  lemma EncsigActionIsTied(cfg: Config, s: State, k: nat, r: Round, d: SwapDetail)
    requires r.detail == Some(d)
    ensures AllTied(cfg, k, r, EncsigAction(cfg, s, k, r, d).events)
  {
    hide AllTied, DigestTurn, Bounded, LockVerdict;
    NothingTied(cfg, k, r);
    if d.params.Some? {
      var p := d.params.value;
      if s.xmrVerified {
        DigestTurnIsTied(cfg, s, k, [], r, d, p);
      } else if HasXmrVerification(p) && Truthy(p.S_a_monero) && LockVerdict(cfg, r, p).Verified? {
        var verdict := LockVerdict(cfg, r, p);
        var event := XmrAccepted(k, p, verdict.index, verdict.amount);
        TieNext(cfg, k, r, [], event);
        assert [] + [event] == [event];
        DigestTurnIsTied(cfg, s.(xmrVerified := true), k, [event], r, d, p);
      }
    }
  }

  /** Every event of a round is tied to what the round was answered. */
  lemma RoundIsTied(cfg: Config, s: State, k: nat, r: Round)
    ensures AllTied(cfg, k, r, RoundTurn(cfg, s, k, r).events)
  {
    hide AllTied, DleqTurn, EncsigAction, Bounded;
    NothingTied(cfg, k, r);
    if r.detail.Some? {
      var d := r.detail.value;
      EncsigActionIsTied(cfg, s, k, r, d);
      if Truthy(d.depositAddress) {
        DleqTurnIsTied(cfg, s, k, r, d, d.depositAddress.value);
        DleqTurnIsTied(cfg, s.(fundedAt := 0), k, r, d, d.depositAddress.value);
      }
      if d.params.Some? && d.params.value.S_a_monero.Some? {
        var event := Sweep(d.params.value.S_a_monero.value);
        TieNext(cfg, k, r, [], event);
        assert [] + [event] == [event];
      }
    }
  }

  /** The events of round k in a run of n rounds. */
  ghost function EventsOf(cfg: Config, rounds: seq<Round>, k: nat): seq<Event>
    requires k < |rounds|
  {
    if Run(cfg, rounds, k).control.Stop? then [] else RoundTurn(cfg, Run(cfg, rounds, k).state, k, rounds[k]).events
  }

  /** Every event of a run belongs to one of its rounds, and is tied to that round's answers. */
  lemma {:induction false} EveryEventIsTied(cfg: Config, rounds: seq<Round>, n: nat, i: nat) returns (k: nat, j: nat)
    requires n <= |rounds| && i < |Run(cfg, rounds, n).events|
    ensures k < n && j < |EventsOf(cfg, rounds, k)| && EventsOf(cfg, rounds, k)[j] == Run(cfg, rounds, n).events[i]
    ensures Tied(cfg, k, rounds[k], EventsOf(cfg, rounds, k)[..j], Run(cfg, rounds, n).events[i])
  {
    hide RoundTurn, Tied;
    var before := Run(cfg, rounds, n - 1);
    if i < |before.events| {
      k, j := EveryEventIsTied(cfg, rounds, n - 1, i);
    } else {
      RoundIsTied(cfg, before.state, n - 1, rounds[n - 1]);
      k, j := n - 1, i - |before.events|;
    }
  }

  // ----- the local retry of /fund -----

  predicate NotReady(answers: seq<FundAnswer>, j: nat) {
    j < |answers| && answers[j].BrokerNotReady?
  }

  /** Post i of a round is made if and only if it is one of the first six and the broker was not ready at any
      before it; it succeeds if and only if it is answered, and accepted. */
  lemma PostsAreMade(answers: seq<FundAnswer>, i: nat)
    ensures i < |FundPosts(answers)| <==> i < 6 && forall j :: 0 <= j < i ==> NotReady(answers, j)
    ensures i < |FundPosts(answers)| ==> (FundPosts(answers)[i] <==> i < |answers| && answers[i].FundAccepted?)
  {
    hide FundResults;
    var tries := Attempts(answers);
    ResultsAre(tries, i);
    assert forall j :: 0 <= j < |tries| ==> tries[j] == if j < |answers| then answers[j] else FundRefused;
    if i < 6 && forall j :: 0 <= j < i ==> NotReady(answers, j) {
      assert i > 0 ==> NotReady(answers, i - 1);
      forall j | 0 <= j < i ensures tries[j].BrokerNotReady? {
        assert NotReady(answers, j);
      }
    }
    if i < |FundPosts(answers)| {
      forall j | 0 <= j < i ensures NotReady(answers, j) {
        assert tries[j].BrokerNotReady?;
      }
    }
  }

  lemma {:induction false} ResultsAre(tries: seq<FundAnswer>, i: nat)
    ensures i < |FundResults(tries)| <==> i < |tries| && forall j :: 0 <= j < i ==> tries[j].BrokerNotReady?
    ensures i < |FundResults(tries)| ==> (FundResults(tries)[i] <==> tries[i].FundAccepted?)
  {
    if tries != [] && i > 0 {
      ResultsAre(tries[1..], i - 1);
      assert forall j :: 1 <= j < i && i <= |tries| ==> tries[j] == tries[1..][j - 1];
    }
  }

  // ----- the Monero check -----

  /** What has to be on the chain, and in the server's parameters, for the driver to accept the Monero lock:
      a transaction with ten confirmations and no time lock; a transaction key, if there is one, that is that
      of the transaction; and, first among the unlocked outputs that pay S_a + S_b under the shared view key,
      one that holds the expected amount. */
  ghost predicate LockStands(cfg: Config, r: Round, p: ProtocolParams, k: nat, amount: int)
    requires HasXmrVerification(p) && Truthy(p.S_a_monero)
  {
    var sA, sB := cfg.pointOf(p.S_a_monero.value), cfg.pointOf(cfg.keys.S_b_monero);
    var expected := cfg.bigInt(p.xmrAmountPico.value);
    && sA.Some? && sB.Some? && expected.Some? && r.moneroTx.Some? && r.moneroTx.value.confirmations >= 10
    && var tx := r.moneroTx.value.tx;
    && !MoneroKeys.Locked(tx.unlockTime) && MoneroKeys.TxPubKey(tx.extra).Some?
    && var R := MoneroKeys.TxPubKey(tx.extra).value;
    && (Truthy(p.moneroTxKey) ==>
          var key := MoneroKeys.ScalarOf(cfg.scalarBytes(p.moneroTxKey.value));
          key != 0 && cfg.monero.encode(key) == R)
    && var view := if p.combinedViewKey.Some? then cfg.scalarBytes(p.combinedViewKey.value) else cfg.scalarBytes("");
    && var d8 := MoneroKeys.ViewKeySecret(cfg.monero, MoneroKeys.ScalarOf(view), R);
    && d8.Some?
    && MoneroLock.FirstPayment(cfg.monero, tx, d8.value, MoneroKeys.Add(sA.value, sB.value), 0, k)
    && amount == MoneroKeys.AmountOf(cfg.monero, d8.value, k, tx.ecdh) && amount >= expected.value
  }

  /** The driver's check accepts an output with an amount if and only if all of that stands. */
  lemma DriverChecksExactly(cfg: Config, r: Round, p: ProtocolParams, k: nat, amount: int)
    requires MoneroKeys.PointCoding(cfg.monero) && HasXmrVerification(p) && Truthy(p.S_a_monero)
    ensures LockVerdict(cfg, r, p) == MoneroKeys.Verified(k, amount) <==> LockStands(cfg, r, p, k, amount)
  {
    hide MoneroKeys.Judge, MoneroKeys.LockSecret, MoneroKeys.ViewKeySecret, MoneroKeys.TxPubKey, MoneroKeys.AmountOf;
    hide MoneroKeys.ScalarOf, MoneroLock.FirstPayment;
    var params := LockParamsOf(cfg, p);
    if params.Some? {
      MoneroLock.LockVerifiedExactly(cfg.monero, r.moneroTx, params.value, k, amount);
      if r.moneroTx.Some? && MoneroKeys.TxPubKey(r.moneroTx.value.tx.extra).Some? {
        MoneroSpend.LockSecretExactly(cfg.monero, params.value, MoneroKeys.TxPubKey(r.moneroTx.value.tx.extra).value);
      }
    }
  }
}
