/** The recovery snapshot takes the server's word for the lock output: any output can end up in it. */
module NamedOutput {
  import opened Wrappers
  import opened Bitcoin
  import opened Presign
  import opened Driver
  import opened DriverSafety
  import MoneroKeys

  /** A snapshot that names output `vout` is saved, and later a transaction posted whose lock is output 0. */
  ghost predicate NamesThenFunds(cfg: Config, events: seq<Event>, vout: int) {
    exists i, j :: 0 <= i < j < |events| && Names(events[i], events[j], vout) && LocksAtZero(cfg, events[j])
  }

  predicate Names(saved: Event, funding: Event, vout: int) {
    saved.SnapshotSaved? && funding.PostFund? && saved.saved.lockVout == vout && saved.saved.params == funding.params
  }

  predicate LocksAtZero(cfg: Config, funding: Event) {
    && funding.PostFund? && cfg.lib.publicKey(cfg.keys.b).Some?
    && var lock := LocateLock(cfg.lib, funding.tx, funding.params.A, cfg.lib.publicKey(cfg.keys.b).value);
    && lock.Ok? && lock.value.vout == 0
  }

  /** The reply is read, and a snapshot saved. */
  predicate ReplyIsSaved(cfg: Config, r: Round, p: ProtocolParams, vout: int) {
    && !AlreadyHasEncsig(p) && cfg.canSave && !(cfg.canLoad && r.snapshotOnDisk)
    && r.presigs.PresigsAccepted? && ExtractPresigsEncsig(r.presigs.reply).lockVout == Some(vout)
  }

  lemma PresigsTurnNames(cfg: Config, s: State, k: nat, ev: seq<Event>, r: Round, p: ProtocolParams,
                         lockAddress: string, tx: Tx, sigs: PreSigs, vout: int)
    requires FundingTx(cfg.lib, cfg.coins, lockAddress, r.lockAmount, cfg.network) == Some(tx)
    requires Acceptable(cfg.lib, PreSigRequest(cfg, tx, p)) && EscapeHatchGiven(r, p) && r.snapshotSaved
    requires ReplyIsSaved(cfg, r, p, vout)
    ensures NamesThenFunds(cfg, PresigsTurn(cfg, s, k, ev, r, p, lockAddress, tx, sigs).events, vout)
  {
    hide Acceptable, ExtractPresigsEncsig, FundPosts;
    var e := ExtractPresigsEncsig(r.presigs.reply);
    var before := ev + [PostPresigs(lockAddress, tx, sigs, true)];
    var t := PresigsTurn(cfg, s, k, ev, r, p, lockAddress, tx, sigs);
    var posts := FundEvents(FundPosts(r.fund), p, lockAddress, r.lockAmount, tx, e);
    assert t.events == (before + [SnapshotSaved(k, RecoveryOf(cfg, p, lockAddress, tx, e))]) + posts;
    assert t.events[|before| + 1] == posts[0];
    FundedAtZero(cfg, p, lockAddress, r.lockAmount, tx, e);
    assert Names(t.events[|before|], t.events[|before| + 1], vout);
  }

  lemma FundedAtZero(cfg: Config, p: ProtocolParams, lockAddress: string, amount: Option<int>, tx: Tx, e: Encsigs)
    requires FundingTx(cfg.lib, cfg.coins, lockAddress, amount, cfg.network) == Some(tx)
    requires Acceptable(cfg.lib, PreSigRequest(cfg, tx, p))
    ensures forall ok :: LocksAtZero(cfg, PostFund(p, lockAddress, amount, tx, e, ok))
  {
    hide MultisigScript, P2wsh, AcceptableValues;
  }

  lemma BuildTurnNames(cfg: Config, s: State, k: nat, ev: seq<Event>, r: Round, d: SwapDetail, lockAddress: string,
                       vout: int)
    requires d.params.Some? && BuildHolds(cfg, r, d.params.value, lockAddress)
    requires ReplyIsSaved(cfg, r, d.params.value, vout)
    ensures NamesThenFunds(cfg, BuildTurn(cfg, s, k, ev, r, d, lockAddress).events, vout)
  {
    hide PresigsTurn, NamesThenFunds, Acceptable, EscapeHatchGiven, LockAddress, FundingTx, PreSigsOf;
    var p, tx := d.params.value, FundingTx(cfg.lib, cfg.coins, lockAddress, r.lockAmount, cfg.network).value;
    var rq := PreSigRequest(cfg, tx, p);
    AcceptsExactly(cfg.lib, rq);
    PresigsTurnNames(cfg, s, k, ev, r, p, lockAddress, tx, PreSigsOf(cfg.lib, rq).value, vout);
  }

  lemma DleqTurnNames(cfg: Config, s: State, k: nat, r: Round, d: SwapDetail, lockAddress: string, vout: int)
    requires d.params.Some? && DleqHolds(cfg, s, r, d.params.value)
    requires s.verificationEmitted || !d.hasVerification || r.verify == Verdict(true)
    requires BuildHolds(cfg, r, d.params.value, lockAddress) && ReplyIsSaved(cfg, r, d.params.value, vout)
    ensures NamesThenFunds(cfg, DleqTurn(cfg, s, k, r, d, lockAddress).events, vout)
  {
    hide BuildTurn, NamesThenFunds, BuildHolds, ReplyIsSaved;
    forall s, ev ensures NamesThenFunds(cfg, BuildTurn(cfg, s, k, ev, r, d, lockAddress).events, vout) {
      BuildTurnNames(cfg, s, k, ev, r, d, lockAddress, vout);
    }
  }

  /** Whatever round funds on a reply it reads and saves, the same round with that reply naming any output
      saves that output, and then posts a transaction whose lock is output 0. */
  lemma AnyOutputIsSaved(cfg: Config, s: State, k: nat, r: Round, reply: map<string, Field>, vout: int)
    requires MayFund(cfg, s, r) && r.presigs == PresigsAccepted(Some(reply))
    requires !AlreadyHasEncsig(r.detail.value.params.value)
    requires cfg.canSave && !(cfg.canLoad && r.snapshotOnDisk)
    ensures var named := r.(presigs := PresigsAccepted(Some(reply["txLockVout" := NumberField(vout)])));
      NamesThenFunds(cfg, RoundTurn(cfg, s, k, named).events, vout)
  {
    hide DleqTurn, NamesThenFunds, BuildHolds, DleqHolds, ReplyIsSaved, Bounded;
    var named := r.(presigs := PresigsAccepted(Some(reply["txLockVout" := NumberField(vout)])));
    NamingKeepsFunding(cfg, s, r, reply, vout);
    var d := r.detail.value;
    var lockAddress := d.depositAddress.value;
    SameDleq(cfg, s, named, d.params.value);
    DleqTurnNames(cfg, s, k, named, d, lockAddress, vout);
    DleqTurnNames(cfg, s.(fundedAt := 0), k, named, d, lockAddress, vout);
  }

  lemma NamingKeepsFunding(cfg: Config, s: State, r: Round, reply: map<string, Field>, vout: int)
    requires MayFund(cfg, s, r) && r.presigs == PresigsAccepted(Some(reply))
    requires !AlreadyHasEncsig(r.detail.value.params.value)
    requires cfg.canSave && !(cfg.canLoad && r.snapshotOnDisk)
    ensures var named := r.(presigs := PresigsAccepted(Some(reply["txLockVout" := NumberField(vout)])));
      MayFund(cfg, s, named) && ReplyIsSaved(cfg, named, r.detail.value.params.value, vout)
  {
    hide Acceptable, LockAddress, FundingTx;
    var named := Some(reply["txLockVout" := NumberField(vout)]);
    assert ExtractPresigsEncsig(named).full == ExtractPresigsEncsig(Some(reply)).full;
    assert ExtractPresigsEncsig(named).partial == ExtractPresigsEncsig(Some(reply)).partial;
  }

  // ----- a round at which this applies -----

  function ToyScript(): Bytes {
    [0x00, 0x20] + WitnessScript(seq(33, _ => 0), seq(33, _ => 0))
  }

  function ToyLib(): Lib {
    Lib(_ => seq(33, _ => 0), (b: Bytes) => b, _ => "", (_, _) => "lock", (_, _) => Some(ToyScript()),
        (key: string) => Some(key), (_, _, _, _) => "", (_, _) => "", (_, _, _) => "", (_, _, _) => true)
  }

  function ToyConfig(): Config {
    Config(ToyLib(), MoneroKeys.MoneroLib(_ => [], _ => [], _ => None), _ => None, _ => [], _ => None, Regtest,
           Keystore("b", "B", "", "refund"), [(OutPoint("coin", 0), 100_000)], 1, true, false, false)
  }

  function ToyParams(): ProtocolParams {
    ProtocolParams("a", "s", 72, 72, "redeem", "punish", 154, 154, 154, 154, None, None, None, None, None, None,
                   Some("S"), Some("proof"), None, None, None, None, None, None, None, None, None)
  }

  /** The reply to /presigs holds a refund encsig and nothing else. */
  function ToyReply(): map<string, Field> {
    map["txFullRefundEncsig" := TextField("encsig")]
  }

  function ToyRound(): Round {
    Round(false, Some(SwapDetail("pending", Some("fund"), Some("lock"), None, false, Some(ToyParams()))), 0, 0, 0, true,
          VerifierThrew, None, PresigsAccepted(Some(ToyReply())), false, true, [FundAccepted], None, LockTxThrew, true,
          false, false)
  }

  /** The first round of a run: the saved snapshot names output 7, the funding locks at output 0. */
  lemma WrongOutputIsSaved()
    ensures var named := ToyRound().(presigs := PresigsAccepted(Some(ToyReply()["txLockVout" := NumberField(7)])));
      NamesThenFunds(ToyConfig(), RoundTurn(ToyConfig(), INITIAL, 0, named).events, 7)
  {
    hide RoundTurn, NamesThenFunds;
    ToyRoundFunds();
    AnyOutputIsSaved(ToyConfig(), INITIAL, 0, ToyRound(), ToyReply(), 7);
  }

  lemma ToyRoundFunds()
    ensures MayFund(ToyConfig(), INITIAL, ToyRound()) && !AlreadyHasEncsig(ToyParams())
  {
    var cfg, r, p := ToyConfig(), ToyRound(), ToyParams();
    var zeros: Bytes := seq(33, _ => 0);
    assert MultisigScript(cfg.lib, p.A, "B") == Some(WitnessScript(zeros, zeros));
    var tx := FundingTx(cfg.lib, cfg.coins, "lock", None, cfg.network);
    assert TotalValue(cfg.coins) == 100_000;
    assert tx.Some? && tx.value.outs == [TxOut(ToyScript(), 100_000)];
    assert LocateLock(cfg.lib, tx.value, p.A, "b").Ok?;
    assert Acceptable(cfg.lib, PreSigRequest(cfg, tx.value, p));
    assert BuildHolds(cfg, r, p, "lock");
  }
}
